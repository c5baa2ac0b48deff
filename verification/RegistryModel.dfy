/** The digest registry as values: the accounts it keeps, how one is evicted, and what every
    step conserves. */
module RegistryModel {
  import opened Rings
  import opened Unsigned

  datatype DigestKey = DigestKey(schema: string, digest: string)

  // The deltas of one digest over one polling interval.
  datatype DigestSample = DigestSample(
    time: Time, interval: Duration,
    execCount: U64, sumTimerWait: U64, sumLockTime: U64, sumRowsExamined: U64, sumRowsSent: U64,
    sumNoIndexUsed: U64, sumCreatedTmpDiskTables: U64, sumSortMergePasses: U64)

  function SampleTime(s: DigestSample): Time {
    s.time
  }

  // What the registry knows of one digest; the log holds every sample since admission.
  datatype Account = Account(text: string, firstSeen: Time, log: seq<DigestSample>)

  function Picos(log: seq<DigestSample>): nat {
    if log == [] then 0 else Picos(log[..|log| - 1]) + log[|log| - 1].sumTimerWait
  }

  // The load by which eviction ranks an account: a wrapping 64-bit sum.
  function Load(a: Account): U64 {
    Wrap(Picos(a.log))
  }

  lemma LoadGrows(a: Account, s: DigestSample)
    ensures Load(a.(log := a.log + [s])) == Wrap(Load(a) + s.sumTimerWait)
  {
    hide Wrap;
    WrapAdd(Picos(a.log), s.sumTimerWait);
    assert (a.log + [s])[..|a.log|] == a.log;
  }

  type Book = map<DigestKey, Account>

  ghost function TotalPicos(book: Book): nat {
    if book == map[] then 0
    else
      var k :| k in book;
      Picos(book[k].log) + TotalPicos(book - {k})
  }

  lemma {:induction false} TotalWithout(book: Book, k: DigestKey)
    requires k in book
    ensures TotalPicos(book) == Picos(book[k].log) + TotalPicos(book - {k})
    decreases |book|
  {
    var j :| j in book && TotalPicos(book) == Picos(book[j].log) + TotalPicos(book - {j});
    if j == k {
    } else {
      TotalWithout(book - {j}, k);
      TotalWithout(book - {k}, j);
      assert book - {j} - {k} == book - {k} - {j};
    }
  }

  lemma TotalAfterSet(book: Book, k: DigestKey, a: Account)
    ensures TotalPicos(book[k := a]) == Picos(a.log) + TotalPicos(book - {k})
  {
    TotalWithout(book[k := a], k);
    assert book[k := a] - {k} == book - {k};
  }

  // An account old enough to be evicted.
  predicate Eligible(a: Account, cutoff: Time) {
    a.firstSeen <= cutoff
  }

  // The choice of a victim: of least load among the eligible; if none is, of greatest age.
  ghost predicate IsVictim(book: Book, cutoff: Time, v: DigestKey) {
    && v in book
    && if exists k :: k in book && Eligible(book[k], cutoff)
       then
         && Eligible(book[v], cutoff)
         && forall k :: k in book && Eligible(book[k], cutoff) ==> Load(book[v]) <= Load(book[k])
       else forall k :: k in book ==> book[v].firstSeen <= book[k].firstSeen
  }

  // The same choice among the accounts looked at so far: the fallback is an oldest one, the
  // victim an eligible one of least load, if there is any.
  ghost predicate ChosenAmong(book: Book, cutoff: Time, done: set<DigestKey>, fallback: DigestKey, victim: DigestKey,
      found: bool)
    requires done <= book.Keys && fallback in done && (found ==> victim in done)
  {
    && (forall k :: k in done ==> book[fallback].firstSeen <= book[k].firstSeen)
    && (!found ==> forall k :: k in done ==> !Eligible(book[k], cutoff))
    && (found ==> Eligible(book[victim], cutoff) &&
                  forall k :: k in done && Eligible(book[k], cutoff) ==> Load(book[victim]) <= Load(book[k]))
  }

  lemma ChooseNext(book: Book, cutoff: Time, done: set<DigestKey>, fallback: DigestKey, victim: DigestKey,
      found: bool, k: DigestKey)
    requires done <= book.Keys && fallback in done && (found ==> victim in done) && k in book
    requires ChosenAmong(book, cutoff, done, fallback, victim, found)
    ensures var better := Eligible(book[k], cutoff) && (!found || Load(book[k]) < Load(book[victim]));
            ChosenAmong(book, cutoff, done + {k}, if book[k].firstSeen < book[fallback].firstSeen then k else fallback,
                        if better then k else victim, found || better)
  {
  }

  lemma ChooseFirst(book: Book, cutoff: Time, k: DigestKey)
    requires k in book
    ensures ChosenAmong(book, cutoff, {k}, k, k, Eligible(book[k], cutoff))
  {
  }

  lemma ChoiceIsVictim(book: Book, cutoff: Time, fallback: DigestKey, victim: DigestKey, found: bool)
    requires fallback in book && (found ==> victim in book)
    requires ChosenAmong(book, cutoff, book.Keys, fallback, victim, found)
    ensures IsVictim(book, cutoff, if found then victim else fallback)
  {
  }

  // The registry's accounts with, for the proof, everything it ever admitted, was given and
  // gave up.
  datatype State = State(book: Book, evicted: nat, admitted: nat, appended: nat, lost: nat)

  datatype Limits = Limits(maxDigests: nat, sampleCapacity: nat, protection: Duration)

  function Filled(a: Account, text: string): Account {
    if text != "" && a.text == "" then a.(text := text) else a
  }

  function Evict(s: State, v: DigestKey): State
    requires v in s.book
  {
    s.(book := s.book - {v}, evicted := s.evicted + 1, lost := s.lost + Picos(s.book[v].log))
  }

  function Admit(s: State, now: Time, key: DigestKey, text: string): State {
    s.(book := s.book[key := Account(text, now, [])], admitted := s.admitted + 1)
  }

  function Fill(s: State, key: DigestKey, text: string): State
    requires key in s.book
  {
    s.(book := s.book[key := Filled(s.book[key], text)])
  }

  lemma FillChangesOne(s: State, key: DigestKey, text: string)
    requires key in s.book
    ensures var t := Fill(s, key, text);
            && t.book.Keys == s.book.Keys && t.evicted == s.evicted && t.book[key] == Filled(s.book[key], text)
            && forall k :: k in s.book && k != key ==> t.book[k] == s.book[k]
  {
  }

  ghost predicate Touched(limits: Limits, s: State, s': State, now: Time, key: DigestKey, text: string) {
    if key in s.book then s' == Fill(s, key, text)
    else if |s.book| >= limits.maxDigests then
      exists v :: IsVictim(s.book, now - limits.protection, v) && s' == Admit(Evict(s, v), now, key, text)
    else s' == Admit(s, now, key, text)
  }

  // A touch of a live digest fills in a missing text and changes nothing else.
  lemma TouchOfLive(limits: Limits, s: State, s': State, now: Time, key: DigestKey, text: string)
    requires Touched(limits, s, s', now, key, text) && key in s.book
    ensures s'.book.Keys == s.book.Keys && forall k :: k in s.book && k != key ==> s'.book[k] == s.book[k]
    ensures s'.book[key].firstSeen == s.book[key].firstSeen && s'.book[key].log == s.book[key].log
    ensures s'.book[key].text == if s.book[key].text == "" then text else s.book[key].text
    ensures s'.evicted == s.evicted && s'.admitted == s.admitted && s'.appended == s.appended && s'.lost == s.lost
  {
  }

  // A touch of a new digest admits it; below the cap nothing is evicted, and at the cap one
  // digest is: of least load among those seen first no later than the protection time ago or,
  // if there are none, one that was seen first.
  lemma TouchOfNew(limits: Limits, s: State, s': State, now: Time, key: DigestKey, text: string)
    requires Touched(limits, s, s', now, key, text) && key !in s.book
    ensures s'.admitted == s.admitted + 1 && s'.appended == s.appended
    ensures |s.book| < limits.maxDigests ==>
              && s'.book == s.book[key := Account(text, now, [])] && s'.evicted == s.evicted && s'.lost == s.lost
    ensures |s.book| >= limits.maxDigests ==>
              var cutoff := now - limits.protection;
              exists v ::
                && v in s.book && s'.book == (s.book - {v})[key := Account(text, now, [])]
                && s'.evicted == s.evicted + 1 && s'.lost == s.lost + Picos(s.book[v].log)
                && ((forall k :: k in s.book ==> s.book[k].firstSeen > cutoff) ==>
                      forall k :: k in s.book ==> s.book[v].firstSeen <= s.book[k].firstSeen)
                && (!(forall k :: k in s.book ==> s.book[k].firstSeen > cutoff) ==>
                      && s.book[v].firstSeen <= cutoff
                      && forall k :: k in s.book && s.book[k].firstSeen <= cutoff ==>
                       Picos(s.book[v].log) % 18446744073709551616 <= Picos(s.book[k].log) % 18446744073709551616)
  {
    if |s.book| >= limits.maxDigests {
      var v :| IsVictim(s.book, now - limits.protection, v) && s' == Admit(Evict(s, v), now, key, text);
      assert v in s.book && s'.book == (s.book - {v})[key := Account(text, now, [])];
      assert forall k :: k in s.book ==> (Eligible(s.book[k], now - limits.protection) <==>
                                          !(s.book[k].firstSeen > now - limits.protection));
    }
  }

  // An appended sample joins its digest's log and counts with its time.
  lemma AppendGrows(s: State, key: DigestKey, sample: DigestSample)
    requires key in s.book
    ensures var t := Appended(s, key, sample);
            && t.book.Keys == s.book.Keys && t.book[key].log == s.book[key].log + [sample]
            && t.book[key].text == s.book[key].text && t.book[key].firstSeen == s.book[key].firstSeen
            && (forall k :: k in s.book && k != key ==> t.book[k] == s.book[k])
            && Picos(t.book[key].log) == Picos(s.book[key].log) + sample.sumTimerWait
            && t.appended == s.appended + sample.sumTimerWait
  {
    assert Appended(s, key, sample).book[key].log[..|s.book[key].log|] == s.book[key].log;
  }

  function Appended(s: State, key: DigestKey, sample: DigestSample): State
    requires key in s.book
  {
    s.(book := s.book[key := s.book[key].(log := s.book[key].log + [sample])],
       appended := s.appended + sample.sumTimerWait)
  }

  // The cap holds, every admitted digest is live or was evicted, and every picosecond given to
  // the registry is in a live account or was lost with an evicted one.
  ghost predicate Conserved(limits: Limits, s: State) {
    && |s.book| <= limits.maxDigests
    && s.admitted == |s.book| + s.evicted
    && s.appended == TotalPicos(s.book) + s.lost
  }

  lemma TouchConserves(limits: Limits, s: State, s': State, now: Time, key: DigestKey, text: string)
    requires limits.maxDigests > 0 && Conserved(limits, s) && Touched(limits, s, s', now, key, text)
    ensures Conserved(limits, s')
  {
    hide Conserved;
    if key in s.book {
      FillConserves(limits, s, key, text);
    } else if |s.book| >= limits.maxDigests {
      var v :| IsVictim(s.book, now - limits.protection, v) && s' == Admit(Evict(s, v), now, key, text);
      EvictConserves(limits, s, v);
      AdmitConserves(limits, Evict(s, v), now, key, text);
    } else {
      AdmitConserves(limits, s, now, key, text);
    }
  }

  lemma FillConserves(limits: Limits, s: State, key: DigestKey, text: string)
    requires Conserved(limits, s) && key in s.book
    ensures Conserved(limits, Fill(s, key, text))
  {
    var book := Fill(s, key, text).book;
    TotalWithout(s.book, key);
    TotalAfterSet(s.book, key, Filled(s.book[key], text));
    assert book.Keys == s.book.Keys && |book| == |book.Keys|;
  }

  lemma EvictConserves(limits: Limits, s: State, v: DigestKey)
    requires Conserved(limits, s) && v in s.book
    ensures Conserved(limits, Evict(s, v)) && |Evict(s, v).book| < limits.maxDigests
  {
    TotalWithout(s.book, v);
    var book := s.book - {v};
    assert book.Keys == s.book.Keys - {v} && |book| == |book.Keys| && |s.book| == |s.book.Keys|;
  }

  lemma AdmitConserves(limits: Limits, s: State, now: Time, key: DigestKey, text: string)
    requires Conserved(limits, s) && |s.book| < limits.maxDigests && key !in s.book
    ensures Conserved(limits, Admit(s, now, key, text))
  {
    TotalAfterSet(s.book, key, Account(text, now, []));
    var book := Admit(s, now, key, text).book;
    assert s.book - {key} == s.book;
    assert book.Keys == s.book.Keys + {key} && |book| == |book.Keys| && |s.book| == |s.book.Keys|;
  }

  lemma AppendConserves(limits: Limits, s: State, key: DigestKey, sample: DigestSample)
    requires Conserved(limits, s) && key in s.book
    ensures Conserved(limits, Appended(s, key, sample))
  {
    var a := s.book[key].(log := s.book[key].log + [sample]);
    TotalWithout(s.book, key);
    TotalAfterSet(s.book, key, a);
    assert a.log[..|a.log| - 1] == s.book[key].log;
    assert s.book[key := a].Keys == s.book.Keys && |s.book[key := a]| == |s.book[key := a].Keys|;
  }

  lemma WrapAbsorbs(p: nat, q: nat)
    ensures Wrap(p + q) == Wrap(p) <==> q % TWO64 == 0
    ensures p + q < TWO64 ==> (Wrap(p + q) == p <==> q == 0)
  {
  }

  // Loads never forget: a load is the retained samples' sum plus what the ring overwrote.
  lemma {:induction false} PicosSplit(a: seq<DigestSample>, b: seq<DigestSample>)
    ensures Picos(a + b) == Picos(a) + Picos(b)
  {
    if b == [] {
      assert a + b == a;
    } else {
      PicosSplit(a, b[..|b| - 1]);
      assert (a + b)[..|a + b| - 1] == a + b[..|b| - 1];
    }
  }

  function Overwritten(n: nat, log: seq<DigestSample>): seq<DigestSample> {
    if |log| <= n then [] else log[..|log| - n]
  }

  // So the load is the retained sum, as its description has it, exactly while the samples that
  // left the ring add up to a multiple of 2^64: below 2^64, while all of them were idle.
  lemma LoadIsLifetimeSum(a: Account, cap: nat)
    ensures Picos(a.log) == Picos(Newest(cap, a.log)) + Picos(Overwritten(cap, a.log))
    ensures Load(a) == Wrap(Picos(Newest(cap, a.log))) <==> Picos(Overwritten(cap, a.log)) % TWO64 == 0
    ensures Picos(a.log) < TWO64 ==>
              (Load(a) == Picos(Newest(cap, a.log)) <==>
               forall i :: 0 <= i < |a.log| - cap ==> a.log[i].sumTimerWait == 0)
  {
    hide Wrap;
    var out := Overwritten(cap, a.log);
    WrapAbsorbs(Picos(Newest(cap, a.log)), Picos(out));
    assert a.log == out + Newest(cap, a.log);
    PicosSplit(out, Newest(cap, a.log));
    PicosZero(out);
    assert forall i :: 0 <= i < |out| ==> out[i] == a.log[i];
  }

  // One sample more than the ring holds, the first of them not idle, and the two differ.
  lemma LoadOutlivesRing(cap: nat) returns (a: Account)
    requires cap > 0
    ensures |a.log| == cap + 1 && a.log[0].sumTimerWait > 0
    ensures Picos(a.log) < TWO64 && Load(a) == 1 && Picos(Newest(cap, a.log)) == 0
  {
    var busy, idle := DigestSample(1, 1, 1, 1, 0, 0, 0, 0, 0, 0), DigestSample(1, 1, 1, 0, 0, 0, 0, 0, 0, 0);
    var rest := seq(cap, i => idle);
    a := Account("", 0, [busy] + rest);
    PicosZero(rest);
    PicosSplit([busy], rest);
    assert [busy][..0] == [];
    assert Picos([busy][..0]) == 0;
    assert Newest(cap, a.log) == rest;
  }

  lemma {:induction false} PicosZero(log: seq<DigestSample>)
    ensures Picos(log) == 0 <==> forall i :: 0 <= i < |log| ==> log[i].sumTimerWait == 0
  {
    if log == [] {
    } else {
      PicosZero(log[..|log| - 1]);
    }
  }

  // Every digest's samples are at least an interval apart, and none is from after a given time.

  ghost predicate LogSpaced(poll: Duration, log: seq<DigestSample>, last: Time) {
    Spaced(SampleTime, poll, log) && (log != [] ==> log[|log| - 1].time <= last)
  }

  ghost predicate BookSpaced(poll: Duration, book: Book, last: Time) {
    forall k :: k in book ==> LogSpaced(poll, book[k].log, last)
  }

  lemma LogGrows(poll: Duration, log: seq<DigestSample>, last: Time, s: DigestSample)
    requires LogSpaced(poll, log, last) && last + poll <= s.time
    ensures LogSpaced(poll, log + [s], s.time)
  {
  }
}
