/** The wait collector: one sink per wait class, and the poll that fills them. */
module WaitCollectors {
  import opened Sorting
  import opened Unsigned
  import opened Polls
  import opened Rings
  import opened WaitModel

  ghost function Parts(sink: RingSink<WaitSample>): set<object> {
    {sink, sink.ring, sink.ring.buf}
  }

  ghost predicate Disjoint(sinks: map<WaitClass, RingSink<WaitSample>>) {
    forall c: WaitClass, d: WaitClass :: c in sinks && d in sinks && c != d ==> Parts(sinks[c]) !! Parts(sinks[d])
  }

  class WaitSeries {
    const sinks: map<WaitClass, RingSink<WaitSample>>
    // Every sample appended, of whatever class.
    ghost var log: seq<WaitSample>
    ghost const Repr: set<object>

    ghost predicate Separate() {
      && this in Repr
      && (forall c: WaitClass :: c in sinks)
      && (forall c: WaitClass :: c in sinks ==> Parts(sinks[c]) <= Repr && this !in Parts(sinks[c]))
      && Disjoint(sinks)
    }

    // Each sink received exactly the samples of its class.
    ghost predicate Holds(c: WaitClass)
      requires Separate()
      reads this, Parts(sinks[c])
    {
      sinks[c].Valid() && sinks[c].ring.log == Filter(IsClass(c), log)
    }

    ghost predicate Valid()
      reads this, Repr
    {
      Separate() && forall c: WaitClass :: Holds(c)
    }

    constructor (capacity: int)
      ensures Valid() && fresh(Repr) && log == []
      ensures forall c: WaitClass ::
                sinks[c].timeOf == WaitTime && sinks[c].ring.buf.Length == if capacity < 1 then 1 else capacity
    {
      hide RingBuffer.Valid;
      var m: map<WaitClass, RingSink<WaitSample>> := map[];
      ghost var parts: set<object> := {};
      for i := 0 to |ALL_WAIT_CLASSES|
        invariant forall c: WaitClass :: c in m <==> c in ALL_WAIT_CLASSES[..i]
        invariant fresh(parts) && forall c :: c in m ==> Parts(m[c]) <= parts && m[c].Valid() && m[c].ring.log == []
        invariant forall c :: c in m ==>
                    m[c].timeOf == WaitTime && m[c].ring.buf.Length == if capacity < 1 then 1 else capacity
        invariant Disjoint(m)
      {
        var sink := new RingSink(capacity, WaitTime);
        m := m[ALL_WAIT_CLASSES[i] := sink];
        parts := parts + Parts(sink);
      }
      forall c: WaitClass ensures c in m {
        AllListed(c);
      }
      sinks := m;
      log := [];
      Repr := {this} + parts;
    }

    method Append(s: WaitSample)
      requires Valid()
      modifies Repr
      ensures Valid() && log == old(log) + [s]
    {
      hide RingSink.Valid, Filter;
      assert Holds(s.cls);
      if s.cls in sinks {
        sinks[s.cls].Append(s);
      }
      log := log + [s];
      forall c: WaitClass ensures Holds(c) {
        assert old(Holds(c));
        ClassLogGrows(old(log), s, c);
      }
    }
  }

  lemma {:induction false} ClassLogGrows(log: seq<WaitSample>, s: WaitSample, c: WaitClass)
    ensures Filter(IsClass(c), log + [s]) == if s.cls == c then Filter(IsClass(c), log) + [s]
            else Filter(IsClass(c), log)
  {
    FilterConcat(IsClass(c), log, [s]);
    FilterOne(IsClass(c), s);
  }

  datatype WaitPollResult = WaitPollResult(
    time: Time, interval: Duration, eventsSeen: nat, resetSkips: nat, newBaselines: nat, emitted: nat)

  predicate WasSeeded(o: WaitOutcome) {
    o.Seeded?
  }

  predicate WasReset(o: WaitOutcome) {
    o.Reset?
  }

  // The counters and accumulators after some rows.
  ghost predicate Tallied(rows: seq<WaitRow>, os: seq<WaitOutcome>, buckets: map<WaitClass, Tally>, resets: nat,
      seeded: nat)
    requires |rows| == |os|
  {
    && resets == Count(WasReset, os) && seeded == Count(WasSeeded, os)
    && buckets.Keys == {IO, Lock, Sync, Network, Other}
    && forall c :: c in buckets ==> buckets[c] == Bucket(c, rows, os)
  }

  function Added(t: Tally, o: WaitOutcome): Tally
    requires o.Counted?
  {
    Tally(Wrap(t.count + o.count), Wrap(t.timeWait + o.timeWait))
  }

  lemma TallyOne(rows: seq<WaitRow>, os: seq<WaitOutcome>, buckets: map<WaitClass, Tally>, resets: nat, seeded: nat,
      row: WaitRow, o: WaitOutcome)
    requires |rows| == |os| && Tallied(rows, os, buckets, resets, seeded)
    ensures var cls := ClassifyWaitEvent(row.eventName);
            && cls in buckets
            && Tallied(rows + [row], os + [o],
                       if o.Counted? then buckets[cls := Added(buckets[cls], o)] else buckets,
                       resets + (if o.Reset? then 1 else 0), seeded + (if o.Seeded? then 1 else 0))
  {
    hide Bucket, Wrap, ClassifyWaitEvent, Count, Total;
    CountsGrow(os, o);
    NeverCpu(row.eventName);
    var cls := ClassifyWaitEvent(row.eventName);
    forall c: WaitClass | c in buckets
      ensures Bucket(c, rows + [row], os + [o]) ==
              if o.Counted? && c == cls then Added(buckets[c], o)
              else buckets[c]
    {
      BucketGrows(c, rows, os, row, o);
    }
  }

  lemma CountsGrow(os: seq<WaitOutcome>, o: WaitOutcome)
    ensures Count(WasSeeded, os + [o]) == Count(WasSeeded, os) + if o.Seeded? then 1 else 0
    ensures Count(WasReset, os + [o]) == Count(WasReset, os) + if o.Reset? then 1 else 0
  {
    CountAppend(WasSeeded, os, o);
    CountAppend(WasReset, os, o);
  }

  lemma NeverCpu(name: string)
    ensures ClassifyWaitEvent(name) in {IO, Lock, Sync, Network, Other}
  {
  }

  lemma BucketGrows(c: WaitClass, rows: seq<WaitRow>, os: seq<WaitOutcome>, row: WaitRow, o: WaitOutcome)
    requires |rows| == |os|
    ensures Bucket(c, rows + [row], os + [o]) ==
            if o.Counted? && c == ClassifyWaitEvent(row.eventName)
            then Added(Bucket(c, rows, os), o)
            else Bucket(c, rows, os)
  {
    hide Total, Wrap, ClassifyWaitEvent;
    WrapAdd(Total(CountOf, InClass(c), rows, os), CountOf(o));
    WrapAdd(Total(TimeOf, InClass(c), rows, os), TimeOf(o));
    TotalGrows(CountOf, InClass(c), rows, os, row, o);
    TotalGrows(TimeOf, InClass(c), rows, os, row, o);
  }

  lemma {:induction false} TotalGrows(measure: WaitOutcome -> nat, keep: WaitRow -> bool, rows: seq<WaitRow>,
      os: seq<WaitOutcome>,
      row: WaitRow, o: WaitOutcome)
    requires |rows| == |os|
    ensures Total(measure, keep, rows + [row], os + [o]) ==
            Total(measure, keep, rows, os) + if keep(row) then measure(o) else 0
  {
    assert (os + [o])[..|os|] == os && (rows + [row])[..|rows|] == rows;
  }

  class WaitCollector {
    const series: WaitSeries
    var baselines: WaitBaselines
    var lastPoll: Time

    ghost predicate Valid()
      reads this, series, series.Repr
    {
      this !in series.Repr && series.Valid()
    }

    constructor (series: WaitSeries)
      requires series.Valid()
      ensures Valid() && this.series == series && baselines == map[] && lastPoll == NEVER
    {
      this.series := series;
      baselines, lastPoll := map[], NEVER;
    }

    method EmptyBuckets() returns (buckets: map<WaitClass, Tally>)
      ensures Tallied([], [], buckets, 0, 0)
    {
      hide Tallied;
      buckets := map[];
      for i := 0 to |ALL_WAIT_CLASSES|
        invariant buckets == map c | c in ALL_WAIT_CLASSES[..i] && c != CPU :: Tally(0, 0)
      {
        if ALL_WAIT_CLASSES[i] == CPU {
          continue;
        }
        buckets := buckets[ALL_WAIT_CLASSES[i] := Tally(0, 0)];
      }
      assert ALL_WAIT_CLASSES[..|ALL_WAIT_CLASSES|] == ALL_WAIT_CLASSES;
      NothingTallied(buckets);
    }

    method TallyRows(rows: seq<WaitRow>, first: bool)
      returns (buckets: map<WaitClass, Tally>, resetSkips: nat, newBaselines: nat)
      modifies this`baselines
      ensures baselines == Recorded(old(baselines), rows)
      ensures Tallied(rows, Outcomes(old(baselines), first, rows), buckets, resetSkips, newBaselines)
    {
      hide Tallied, Outcomes, Recorded, ClassifyWaitEvent, Wrap;
      ghost var bs := baselines;
      buckets := EmptyBuckets();
      resetSkips, newBaselines := 0, 0;
      NoRows(bs, first);
      for i := 0 to |rows|
        invariant baselines == Recorded(bs, rows[..i])
        invariant Tallied(rows[..i], Outcomes(bs, first, rows[..i]), buckets, resetSkips, newBaselines)
      {
        var r := rows[i];
        ghost var o := Judge(baselines, first, r);
        TallyOne(rows[..i], Outcomes(bs, first, rows[..i]), buckets, resetSkips, newBaselines, r, o);
        OutcomesGrow(bs, first, rows, i);
        NeverCpu(r.eventName);
        if first || r.eventName !in baselines {
          newBaselines := newBaselines + 1;
        } else if r.count < baselines[r.eventName].count || r.timeWait < baselines[r.eventName].timeWait {
          resetSkips := resetSkips + 1;
        } else {
          var prev := baselines[r.eventName];
          var cls := ClassifyWaitEvent(r.eventName);
          if cls == CPU {
            cls := Other;
          }
          buckets := buckets[cls := Tally(Wrap(buckets[cls].count + (r.count - prev.count)),
                                          Wrap(buckets[cls].timeWait + (r.timeWait - prev.timeWait)))];
        }
        baselines := baselines[r.eventName := Tally(r.count, r.timeWait)];
      }
      assert rows[..|rows|] == rows;
    }

    method Poll(answer: PollEvent<WaitRow>) returns (res: WaitPollResult, ok: bool)
      requires Valid()
      modifies this, series.Repr
      ensures Valid() && (ok <==> answer.Answered?)
      ensures Collector(baselines, lastPoll) == After(old(Collector(baselines, lastPoll)), answer)
      ensures !ok ==> series.log == old(series.log)
      ensures ok ==>
                var c := old(Collector(baselines, lastPoll));
                var os := Outcomes(c.baselines, c.lastPoll == NEVER, answer.rows);
                && series.log == old(series.log) + PollSamples(c, answer.now, answer.rows)
                && res == WaitPollResult(answer.now, answer.now - c.lastPoll, |answer.rows|,
                                         Count(WasReset, os), Count(WasSeeded, os),
                                         |PollSamples(c, answer.now, answer.rows)|)
    {
      hide WaitSeries.Valid, Outcomes, Recorded, Count, Samples, Buckets, Bucket, Tallied;
      if answer.Failed? {
        res, ok := WaitPollResult(0, 0, 0, 0, 0, 0), false;
        return;
      }
      var now, rows := answer.now, answer.rows;
      ghost var c := Collector(baselines, lastPoll);
      var firstPoll := lastPoll == NEVER;
      var interval := now - lastPoll;
      var buckets, resetSkips, newBaselines := TallyRows(rows, firstPoll);
      var emitted := 0;
      TalliedKeys(rows, Outcomes(c.baselines, firstPoll, rows), buckets, resetSkips, newBaselines);
      if !firstPoll {
        emitted := Emit(buckets, now, interval);
        TalliedIsBuckets(rows, Outcomes(c.baselines, false, rows), buckets, resetSkips, newBaselines);
      }
      lastPoll := now;
      res, ok := WaitPollResult(now, interval, |rows|, resetSkips, newBaselines, emitted), true;
    }

    method Emit(buckets: map<WaitClass, Tally>, now: Time, interval: Duration) returns (emitted: nat)
      requires Valid() && forall c: WaitClass :: c != CPU ==> c in buckets
      modifies series.Repr
      ensures Valid()
      ensures series.log == old(series.log) + Samples(buckets, now, interval, ALL_WAIT_CLASSES)
      ensures emitted == |Samples(buckets, now, interval, ALL_WAIT_CLASSES)|
    {
      hide WaitSeries.Valid, Samples;
      emitted := 0;
      assert Samples(buckets, now, interval, ALL_WAIT_CLASSES[..0]) == [] by { NoClasses(buckets, now, interval); }
      for i := 0 to |ALL_WAIT_CLASSES|
        invariant this !in series.Repr && series.Valid()
        invariant series.log == old(series.log) + Samples(buckets, now, interval, ALL_WAIT_CLASSES[..i])
        invariant emitted == |Samples(buckets, now, interval, ALL_WAIT_CLASSES[..i])|
      {
        SamplesGrow(buckets, now, interval, i);
        var cls := ALL_WAIT_CLASSES[i];
        if cls == CPU {
          continue;
        }
        var b := buckets[cls];
        if b.count == 0 && b.timeWait == 0 {
          continue;
        }
        series.Append(WaitSample(now, interval, cls, b.count, b.timeWait, 0, 0));
        emitted := emitted + 1;
      }
      assert ALL_WAIT_CLASSES[..|ALL_WAIT_CLASSES|] == ALL_WAIT_CLASSES;
    }
  }

  lemma {:induction false} NoClasses(buckets: map<WaitClass, Tally>, now: Time, interval: Duration)
    requires forall c: WaitClass :: c != CPU ==> c in buckets
    ensures Samples(buckets, now, interval, []) == []
  {
  }

  lemma {:induction false} TalliedKeys(rows: seq<WaitRow>, os: seq<WaitOutcome>, buckets: map<WaitClass, Tally>,
      resets: nat, seeded: nat)
    requires |rows| == |os| && Tallied(rows, os, buckets, resets, seeded)
    ensures resets == Count(WasReset, os) && seeded == Count(WasSeeded, os)
    ensures forall c: WaitClass :: c != CPU ==> c in buckets
  {
  }

  lemma TalliedIsBuckets(rows: seq<WaitRow>, os: seq<WaitOutcome>, buckets: map<WaitClass, Tally>, resets: nat,
      seeded: nat)
    requires |rows| == |os| && Tallied(rows, os, buckets, resets, seeded)
    ensures buckets == Buckets(rows, os)
  {
  }

  lemma NothingTallied(buckets: map<WaitClass, Tally>)
    requires buckets == map c | c in ALL_WAIT_CLASSES && c != CPU :: Tally(0, 0)
    ensures Tallied([], [], buckets, 0, 0)
  {
  }
}
