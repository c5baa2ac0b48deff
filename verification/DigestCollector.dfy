/** The digest collector: polls the statement digests, differences them against the last poll
    and feeds the registry. */
module DigestCollectors {
  import opened Sorting
  import opened Polls
  import opened Rings
  import opened RegistryModel
  import opened Registries
  import opened DigestModel

  datatype PollResult = PollResult(
    time: Time, interval: Duration, seenDigests: nat, emittedSamples: nat, resetSkips: nat, baselineSeeded: nat)

  class DigestCollector {
    const registry: Registry
    var baselines: Baselines
    var lastPoll: Time
    // Picoseconds emitted so far, and those the registry held before.
    ghost var emitted: nat
    ghost const initial: nat

    ghost predicate Valid()
      reads this, registry, registry.Repr
    {
      && this !in registry.Repr
      && registry.Valid()
      && Current(Collector(baselines, lastPoll))
      && registry.state.appended == initial + emitted
    }

    constructor (registry: Registry)
      requires registry.Valid()
      ensures Valid() && this.registry == registry
      ensures baselines == map[] && lastPoll == NEVER && emitted == 0
    {
      this.registry := registry;
      baselines, lastPoll := map[], NEVER;
      emitted, initial := 0, registry.state.appended;
    }

    // Conservation over the whole life of the collector: what was emitted is held by live
    // digests or went with evicted ones.
    lemma NothingIsLost()
      requires Valid()
      ensures initial + emitted == TotalPicos(registry.state.book) + registry.state.lost
      ensures |registry.entries| <= registry.limits.maxDigests
      ensures registry.state.admitted == |registry.entries| + registry.evicted
    {
      assert |registry.entries| == |registry.entries.Keys| == |registry.state.book.Keys| == |registry.state.book|;
    }

    // One row of a poll.
    method PollRow(row: Row, first: bool, interval: Duration, now: Instant) returns (o: Outcome)
      requires this !in registry.Repr && registry.Valid()
      modifies this`baselines, registry.Repr
      ensures this !in registry.Repr && registry.Valid() && fresh(registry.Repr - old(registry.Repr))
      ensures o == Judge(old(baselines), first, interval, now, row)
      ensures baselines == old(baselines)[row.key := Baseline(row.counters, now)]
      ensures DeliveredOne(registry.limits, old(registry.state), registry.state, now, row, o)
    {
      hide Touched, Conserved, Registry.Separate, Registry.Faithful, IsCounterReset, Delta;
      if first || row.key !in baselines {
        var _ := registry.Touch(now, row.key, row.text);
        o := Seeded;
      } else if IsCounterReset(baselines[row.key].counters, row.counters) {
        o := Reset;
      } else {
        var sample := Delta(baselines[row.key].counters, row.counters, now, interval);
        o := Idle;
        if sample.execCount > 0 || sample.sumTimerWait > 0 {
          registry.Append(row.key, row.text, sample);
          o := Emitted(sample);
        }
      }
      baselines := baselines[row.key := Baseline(row.counters, now)];
    }

    // The loop over the rows.
    method PollRows(rows: seq<Row>, first: bool, interval: Duration, now: Instant)
      returns (emittedSamples: nat, resetSkips: nat, baselineSeeded: nat)
      requires this !in registry.Repr && registry.Valid()
      modifies this`baselines, registry.Repr
      ensures this !in registry.Repr && registry.Valid() && fresh(registry.Repr - old(registry.Repr))
      ensures baselines == Recorded(old(baselines), now, rows)
      ensures var os := Outcomes(old(baselines), first, interval, now, rows);
              && Delivered(registry.limits, old(registry.state), registry.state, now, rows, os)
              && emittedSamples == Count(WasEmitted, os) && resetSkips == Count(WasReset, os)
              && baselineSeeded == Count(WasSeeded, os)
    {
      hide Judge, DeliveredOne, Registry.Valid;
      hide Outcomes, Recorded, Delivered, Count;
      NothingYet(registry.limits, baselines, first, interval, now, registry.state);
      ghost var bs, s := baselines, registry.state;
      emittedSamples, resetSkips, baselineSeeded := 0, 0, 0;
      for i := 0 to |rows|
        invariant this !in registry.Repr && registry.Valid() && fresh(registry.Repr - old(registry.Repr))
        invariant baselines == Recorded(bs, now, rows[..i])
        invariant var os := Outcomes(bs, first, interval, now, rows[..i]);
                  && Delivered(registry.limits, s, registry.state, now, rows[..i], os)
                  && emittedSamples == Count(WasEmitted, os) && resetSkips == Count(WasReset, os)
                  && baselineSeeded == Count(WasSeeded, os)
      {
        ghost var mid, before := registry.state, Outcomes(bs, first, interval, now, rows[..i]);
        var o := PollRow(rows[i], first, interval, now);
        if o.Emitted? {
          emittedSamples := emittedSamples + 1;
        }
        if o.Reset? {
          resetSkips := resetSkips + 1;
        }
        if o.Seeded? {
          baselineSeeded := baselineSeeded + 1;
        }
        CountsGrow(before, o);
        OutcomesGrow(bs, first, interval, now, rows, i);
        DeliverNext(registry.limits, s, mid, registry.state, now, rows, before, i, o);
      }
      assert rows[..|rows|] == rows;
    }

    method DropUnseen(rows: seq<Row>)
      modifies this`baselines
      ensures baselines == Drop(old(baselines), KeysOf(rows))
    {
      var seen: set<DigestKey> := {};
      for i := 0 to |rows|
        invariant seen == KeysOf(rows[..i])
      {
        seen := seen + {rows[i].key};
        assert rows[..i + 1] == rows[..i] + [rows[i]];
      }
      assert rows[..|rows|] == rows;
      var rest := baselines.Keys;
      while rest != {}
        invariant rest <= baselines.Keys <= old(baselines).Keys
        invariant forall k :: k in baselines ==> baselines[k] == old(baselines)[k]
        invariant forall k :: k in old(baselines) && k !in rest ==> (k in baselines <==> k in seen)
        invariant forall k :: k in rest ==> k in baselines
        decreases rest
      {
        var k :| k in rest;
        rest := rest - {k};
        if k !in seen {
          baselines := baselines - {k};
        }
      }
    }

    method Poll(answer: PollEvent<Row>) returns (res: PollResult, ok: bool)
      requires Valid()
      modifies this`baselines, this`lastPoll, this`emitted, registry.Repr
      ensures Valid() && fresh(registry.Repr - old(registry.Repr))
      ensures ok <==> answer.Answered?
      ensures Collector(baselines, lastPoll) == After(old(Collector(baselines, lastPoll)), answer)
      ensures !ok ==> registry.state == old(registry.state)
      ensures ok ==>
                var os := PollOutcomes(old(Collector(baselines, lastPoll)), answer.now, answer.rows);
                && Delivered(registry.limits, old(registry.state), registry.state, answer.now, answer.rows, os)
                && emitted == old(emitted) + PicosEmitted(os)
                && res == PollResult(answer.now, answer.now - old(lastPoll), |answer.rows|,
                                     Count(WasEmitted, os), Count(WasReset, os), Count(WasSeeded, os))
    {
      hide Registry.Valid, Outcomes, Recorded, Delivered, Drop, KeysOf;
      if answer.Failed? {
        res, ok := PollResult(0, 0, 0, 0, 0, 0), false;
        return;
      }
      var now, rows := answer.now, answer.rows;
      ghost var c, s := Collector(baselines, lastPoll), registry.state;
      var firstPoll := lastPoll == NEVER;
      var interval := now - lastPoll;
      var emittedSamples, resetSkips, baselineSeeded := PollRows(rows, firstPoll, interval, now);
      if !firstPoll {
        DropUnseen(rows);
      }
      lastPoll := now;
      PollKeepsCurrent(c, now, rows);
      DeliveryAppends(registry.limits, s, registry.state, now, rows, PollOutcomes(c, now, rows));
      emitted := emitted + PicosEmitted(PollOutcomes(c, now, rows));
      res, ok := PollResult(now, interval, |rows|, emittedSamples, resetSkips, baselineSeeded), true;
    }
  }
}
