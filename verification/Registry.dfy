/** The digest registry: entries with their own rings, admitted on sight and evicted by load
    when the cap is reached. */
module Registries {
  import opened Rings
  import opened RegistryModel
  import opened Unsigned

  class DigestEntry {
    const key: DigestKey
    const firstSeen: Time
    const sink: RingSink<DigestSample>
    var text: string
    var loadPicos: U64

    ghost function Footprint(): set<object> {
      {this, sink, sink.ring, sink.ring.buf}
    }

    ghost predicate Sized(capacity: nat) {
      sink.timeOf == SampleTime && sink.ring.buf.Length == capacity
    }

    // The entry is in order and stands for account a.
    ghost predicate Holds(a: Account)
      reads Footprint()
    {
      && sink.Valid()
      && a == Account(text, firstSeen, sink.ring.log)
      && loadPicos == Load(a)
    }

    constructor (key: DigestKey, text: string, now: Time, capacity: nat)
      ensures this.key == key && Holds(Account(text, now, []))
      ensures fresh(Footprint()) && Sized(if capacity < 1 then 1 else capacity)
    {
      this.key, this.text, firstSeen := key, text, now;
      sink := new RingSink(capacity, SampleTime);
      loadPicos := 0;
    }

    method Fill(text: string, ghost a: Account)
      requires Holds(a)
      modifies this`text
      ensures Holds(Filled(a, text))
    {
      if text != "" && this.text == "" {
        this.text := text;
      }
    }

    method Append(s: DigestSample, ghost a: Account)
      requires Holds(a)
      modifies Footprint()
      ensures Holds(a.(log := a.log + [s]))
    {
      hide RingSink.Valid, Picos, Wrap;
      LoadGrows(a, s);
      sink.Append(s);
      loadPicos := Wrap(loadPicos + s.sumTimerWait);
    }
  }

  class Registry {
    const limits: Limits
    var entries: map<DigestKey, DigestEntry>
    var evicted: nat
    // The accounts that the entries stand for, and what the registry ever took and gave up.
    ghost var state: State
    ghost var Repr: set<object>

    // Entries are filed under their own keys and share no memory.
    ghost predicate Separate()
      reads this
    {
      && this in Repr && limits.sampleCapacity > 0
      && (forall k :: k in entries ==>
            entries[k].key == k && entries[k].Footprint() <= Repr && this !in entries[k].Footprint())
      && (forall k :: k in entries ==> entries[k].Sized(limits.sampleCapacity))
      && (forall j, k :: j in entries && k in entries && j != k ==> entries[j].Footprint() !! entries[k].Footprint())
    }

    ghost predicate Faithful()
      reads this, Repr
      requires Separate()
    {
      && state.book.Keys == entries.Keys && state.evicted == evicted
      && forall k :: k in entries ==> entries[k].Holds(state.book[k])
    }

    ghost predicate Valid()
      reads this, Repr
    {
      Separate() && Faithful() && limits.maxDigests > 0 && Conserved(limits, state)
    }

    constructor (maxDigests: int, sampleCapacity: int, protection: Duration)
      ensures Valid() && fresh(Repr)
      ensures state == State(map[], 0, 0, 0, 0)
      ensures limits == Limits(if maxDigests <= 0 then 2000 else maxDigests,
                               if sampleCapacity <= 0 then 720 else sampleCapacity,
                               if protection < 0 then 0 else protection)
    {
      limits := Limits(if maxDigests <= 0 then 2000 else maxDigests,
                       if sampleCapacity <= 0 then 720 else sampleCapacity,
                       if protection < 0 then 0 else protection);
      entries := map[];
      evicted := 0;
      state := State(map[], 0, 0, 0, 0);
      Repr := {this};
    }

    // What the scan reads of the entries is what the book says of them.
    ghost predicate Mirrors()
      reads this, entries.Values
    {
      && state.book.Keys == entries.Keys
      && forall k :: k in entries ==>
           && entries[k].key == k && state.book[k].firstSeen == entries[k].firstSeen
           && Load(state.book[k]) == entries[k].loadPicos
    }

    lemma FaithfulMirrors()
      requires Separate() && Faithful()
      ensures Mirrors()
    {
      hide Load, DigestEntry.Sized;
    }

    // An entry's ring answers window queries about its digest as an unbounded log would, when
    // the registry was given the capacity for that window and the samples keep their distance.
    lemma AnswersInFull(key: DigestKey, poll: Duration, window: Duration, last: Time, now: Time, w: Duration)
      requires Valid() && key in entries
      requires poll > 0 && 0 < w <= window && limits.sampleCapacity == Capacity(window, poll)
      requires BookSpaced(poll, state.book, last) && last <= now
      ensures var sink := entries[key].sink;
              InWindow(sink.timeOf, now, w, Newest(sink.ring.buf.Length, sink.ring.log)) ==
              InWindow(SampleTime, now, w, state.book[key].log)
    {
      assert entries[key].Holds(state.book[key]) && LogSpaced(poll, state.book[key].log, last);
      NothingInWindowIsLost(SampleTime, poll, window, state.book[key].log, now, w);
    }

    // The scan for the entry to evict, in any order of the map: the least load among the old
    // enough, with the oldest entry as fallback.
    method FindVictim(cutoff: Time) returns (victim: DigestEntry)
      requires entries != map[] && Mirrors()
      ensures victim.key in entries && IsVictim(state.book, cutoff, victim.key)
    {
      hide IsVictim, ChosenAmong, Load;
      ghost var book := state.book;
      var rest := entries.Keys;
      var k :| k in rest;
      rest := rest - {k};
      ghost var v, done := k, {k};
      ChooseFirst(book, cutoff, k);
      var fallback := entries[k];
      var best: DigestEntry? := if fallback.firstSeen <= cutoff then fallback else null;
      while rest != {}
        invariant done + rest == entries.Keys && fallback.key in done && v in done
        invariant entries[fallback.key] == fallback
        invariant best != null ==> best == entries[v]
        invariant ChosenAmong(book, cutoff, done, fallback.key, v, best != null)
        decreases rest
      {
        k :| k in rest;
        rest := rest - {k};
        var e := entries[k];
        ChooseNext(book, cutoff, done, fallback.key, v, best != null, k);
        done := done + {k};
        if e.firstSeen < fallback.firstSeen {
          fallback := e;
        }
        if e.firstSeen <= cutoff && (best == null || e.loadPicos < best.loadPicos) {
          best, v := e, k;
        }
      }
      assert done == book.Keys;
      ChoiceIsVictim(book, cutoff, fallback.key, v, best != null);
      victim := if best == null then fallback else best;
    }

    method EvictOne(now: Time) returns (ghost v: DigestKey)
      requires Separate() && Faithful() && entries != map[]
      modifies this`entries, this`evicted, this`state
      ensures Separate() && Faithful()
      ensures v in old(state).book && IsVictim(old(state).book, now - limits.protection, v)
      ensures state == Evict(old(state), v)
    {
      hide IsVictim, DigestEntry.Holds, DigestEntry.Sized, Load, Mirrors, Picos, DigestEntry.Footprint;
      FaithfulMirrors();
      var victim := FindVictim(now - limits.protection);
      v := victim.key;
      entries := entries - {victim.key};
      evicted := evicted + 1;
      state := Evict(state, v);
    }

    // A new entry with memory of its own disturbs no other.
    twostate lemma StaysSeparate(new e: DigestEntry)
      requires old(Separate()) && e.key !in old(entries) && fresh(e.Footprint()) && e.Sized(limits.sampleCapacity)
      requires entries == old(entries)[e.key := e] && Repr == old(Repr) + e.Footprint()
      ensures Separate()
    {
      hide DigestEntry.Sized;
    }

    method AddEntry(now: Time, key: DigestKey, text: string) returns (e: DigestEntry)
      requires Separate() && Faithful() && key !in entries
      modifies this
      ensures Separate() && Faithful() && fresh(Repr - old(Repr))
      ensures state == Admit(old(state), now, key, text)
      ensures key in entries && entries[key] == e
    {
      hide DigestEntry.Holds, DigestEntry.Sized;
      e := new DigestEntry(key, text, now, limits.sampleCapacity);
      entries := entries[key := e];
      Repr := Repr + e.Footprint();
      state := Admit(state, now, key, text);
      StaysSeparate(e);
    }

    method Touch(now: Time, key: DigestKey, text: string) returns (e: DigestEntry)
      requires Valid()
      modifies Repr
      ensures Valid() && fresh(Repr - old(Repr))
      ensures key in entries && entries[key] == e
      ensures Touched(limits, old(state), state, now, key, text)
    {
      hide Conserved, Load, IsVictim, DigestEntry.Holds, DigestEntry.Sized;
      ghost var before := state;
      if key in entries {
        e := entries[key];
        FillEntry(e, text);
      } else {
        if |entries| >= limits.maxDigests {
          ghost var v := EvictOne(now);
        }
        e := AddEntry(now, key, text);
      }
      TouchConserves(limits, before, state, now, key, text);
    }

    // Work on one entry leaves every other entry's account alone.
    twostate lemma OthersKeep(e: DigestEntry)
      requires Separate() && old(Separate() && Faithful())
      requires entries == old(entries) && e.key in entries && entries[e.key] == e
      requires forall o: object :: o in old(Repr) && o != this && o !in e.Footprint() ==> unchanged(o)
      ensures forall k :: k in entries && k != e.key ==> entries[k].Holds(old(state).book[k])
    {
      forall k | k in entries && k != e.key ensures entries[k].Holds(old(state).book[k]) {
        assert entries[k].Footprint() !! e.Footprint() && this !in entries[k].Footprint();
        assert unchanged(entries[k].Footprint());
        assert old(entries[k].Holds(state.book[k]));
        hide DigestEntry.Holds;
      }
    }

    method FillEntry(e: DigestEntry, text: string)
      requires Separate() && Faithful() && e.key in entries && entries[e.key] == e
      modifies this`state, e`text
      ensures Separate() && Faithful()
      ensures state == RegistryModel.Fill(old(state), e.key, text)
    {
      hide DigestEntry.Holds, DigestEntry.Sized, Filled, RegistryModel.Fill;
      assert e in e.Footprint() && this !in e.Footprint();
      hide DigestEntry.Footprint;
      e.Fill(text, state.book[e.key]);
      OthersKeep(e);
      FillChangesOne(state, e.key, text);
      state := RegistryModel.Fill(state, e.key, text);
    }

    method AppendToEntry(e: DigestEntry, s: DigestSample)
      requires Separate() && Faithful() && e.key in entries && entries[e.key] == e
      modifies this`state, e.Footprint()
      ensures Separate() && Faithful() && state == Appended(old(state), e.key, s)
    {
      hide DigestEntry.Holds, DigestEntry.Sized, DigestEntry.Footprint, Load;
      e.Append(s, state.book[e.key]);
      OthersKeep(e);
      state := Appended(state, e.key, s);
    }

    method Append(key: DigestKey, text: string, s: DigestSample)
      requires Valid()
      modifies Repr
      ensures Valid() && fresh(Repr - old(Repr))
      ensures exists mid ::
                && Touched(limits, old(state), mid, s.time, key, text) && key in mid.book
                && state == Appended(mid, key, s)
    {
      hide Conserved, Touched, DigestEntry.Holds, DigestEntry.Sized, Load;
      var e := Touch(s.time, key, text);
      ghost var mid := state;
      AppendToEntry(e, s);
      AppendConserves(limits, mid, key, s);
    }
  }
}
