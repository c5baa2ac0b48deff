/** Wait sampling as values: how one poll's rows become per-class totals, and what holds over
    whole runs of polls. */
module WaitModel {
  import opened Sorting
  import opened Sums
  import opened Polls
  import opened Rings
  import opened Unsigned

  datatype WaitClass = Other | CPU | IO | Lock | Sync | Network

  const ALL_WAIT_CLASSES: seq<WaitClass> := [CPU, IO, Lock, Sync, Network, Other]

  lemma AllListed(c: WaitClass)
    ensures c in ALL_WAIT_CLASSES && Distinct(ALL_WAIT_CLASSES)
  {
    match c {
      case CPU => assert ALL_WAIT_CLASSES[0] == c;
      case IO => assert ALL_WAIT_CLASSES[1] == c;
      case Lock => assert ALL_WAIT_CLASSES[2] == c;
      case Sync => assert ALL_WAIT_CLASSES[3] == c;
      case Network => assert ALL_WAIT_CLASSES[4] == c;
      case Other => assert ALL_WAIT_CLASSES[5] == c;
    }
  }

  // The class of an event, by the prefix of its name.
  function ClassifyWaitEvent(name: string): WaitClass {
    if "wait/io/socket/" <= name then Network
    else if "wait/io/file/" <= name || "wait/io/table/" <= name then IO
    else if "wait/lock/" <= name then Lock
    else if "wait/synch/mutex/" <= name || "wait/synch/rwlock/" <= name
            || "wait/synch/cond/" <= name || "wait/synch/sxlock/" <= name then Sync
    else Other
  }

  datatype WaitRow = WaitRow(eventName: string, count: U64, timeWait: U64)

  // Also the shape of a class's accumulator.
  datatype Tally = Tally(count: U64, timeWait: U64)

  type WaitBaselines = map<string, Tally>

  datatype WaitSample = WaitSample(
    time: Time, interval: Duration, cls: WaitClass,
    countDelta: U64, sumTimerWaitDelta: U64, cpuObservations: nat, cpuTicks: nat)

  datatype WaitOutcome = Seeded | Reset | Counted(count: U64, timeWait: U64)

  function Judge(bs: WaitBaselines, first: bool, row: WaitRow): WaitOutcome {
    if first || row.eventName !in bs then Seeded
    else
      var prev := bs[row.eventName];
      if row.count < prev.count || row.timeWait < prev.timeWait then Reset
      else Counted(row.count - prev.count, row.timeWait - prev.timeWait)
  }

  function Recorded(bs: WaitBaselines, rows: seq<WaitRow>): WaitBaselines {
    if rows == [] then bs
    else
      var n := |rows| - 1;
      Recorded(bs, rows[..n])[rows[n].eventName := Tally(rows[n].count, rows[n].timeWait)]
  }

  function Outcomes(bs: WaitBaselines, first: bool, rows: seq<WaitRow>): (os: seq<WaitOutcome>)
    ensures |os| == |rows|
  {
    if rows == [] then []
    else
      var n := |rows| - 1;
      Outcomes(bs, first, rows[..n]) + [Judge(Recorded(bs, rows[..n]), first, rows[n])]
  }

  function TimeOf(o: WaitOutcome): nat {
    if o.Counted? then o.timeWait else 0
  }

  function CountOf(o: WaitOutcome): nat {
    if o.Counted? then o.count else 0
  }

  // The sum of a measure over the rows that satisfy a condition.
  function Total(measure: WaitOutcome -> nat, keep: WaitRow -> bool, rows: seq<WaitRow>, os: seq<WaitOutcome>): nat
    requires |rows| == |os|
  {
    if rows == [] then 0
    else
      var n := |rows| - 1;
      Total(measure, keep, rows[..n], os[..n]) + if keep(rows[n]) then measure(os[n]) else 0
  }

  function InClass(cls: WaitClass): WaitRow -> bool {
    (row: WaitRow) => ClassifyWaitEvent(row.eventName) == cls
  }

  function OfEvent(e: string): WaitRow -> bool {
    (row: WaitRow) => row.eventName == e
  }

  function Bucket(cls: WaitClass, rows: seq<WaitRow>, os: seq<WaitOutcome>): Tally
    requires |rows| == |os|
  {
    Tally(Wrap(Total(CountOf, InClass(cls), rows, os)), Wrap(Total(TimeOf, InClass(cls), rows, os)))
  }

  // One sample per non-CPU class whose accumulators are not both zero, in display order.
  function Samples(buckets: map<WaitClass, Tally>, now: Time, interval: Duration,
      classes: seq<WaitClass>): seq<WaitSample>
    requires forall c: WaitClass :: c != CPU ==> c in buckets
  {
    if classes == [] then []
    else
      var n := |classes| - 1;
      Samples(buckets, now, interval, classes[..n]) + SampleFor(buckets, now, interval, classes[n])
  }

  function Buckets(rows: seq<WaitRow>, os: seq<WaitOutcome>): map<WaitClass, Tally>
    requires |rows| == |os|
  {
    map c | c in {IO, Lock, Sync, Network, Other} :: Bucket(c, rows, os)
  }

  // What a poll emits: nothing the first time.
  function PollSamples(c: Collector<WaitBaselines>, now: Time, rows: seq<WaitRow>): seq<WaitSample> {
    if c.lastPoll == NEVER then []
    else Samples(Buckets(rows, Outcomes(c.baselines, false, rows)), now, now - c.lastPoll, ALL_WAIT_CLASSES)
  }

  // Baselines are never dropped.
  function Polled(c: Collector<WaitBaselines>, now: Time, rows: seq<WaitRow>): Collector<WaitBaselines> {
    Collector(Recorded(c.baselines, rows), now)
  }

  function WaitTime(s: WaitSample): Time {
    s.time
  }

  function IsClass(c: WaitClass): WaitSample -> bool {
    (s: WaitSample) => s.cls == c
  }

  function TimeDelta(s: WaitSample): int {
    s.sumTimerWaitDelta
  }

  function CountDelta(s: WaitSample): int {
    s.countDelta
  }

  // The sample of one class, if there is one.
  function SampleFor(buckets: map<WaitClass, Tally>, now: Time, interval: Duration, c: WaitClass): seq<WaitSample>
    requires c != CPU ==> c in buckets
  {
    if c == CPU || (buckets[c].count == 0 && buckets[c].timeWait == 0) then []
    else [WaitSample(now, interval, c, buckets[c].count, buckets[c].timeWait, 0, 0)]
  }

  lemma OneOfClass(buckets: map<WaitClass, Tally>, now: Time, interval: Duration, c: WaitClass, cls: WaitClass)
    requires c != CPU ==> c in buckets
    ensures Filter(IsClass(cls), SampleFor(buckets, now, interval, c)) ==
            if c == cls then SampleFor(buckets, now, interval, c) else []
  {
    var ss := SampleFor(buckets, now, interval, c);
    if ss != [] {
      FilterOne(IsClass(cls), ss[0]);
      assert ss == [ss[0]];
    }
  }

  lemma {:induction false} SamplesOfClass(buckets: map<WaitClass, Tally>, now: Time, interval: Duration,
                                          classes: seq<WaitClass>, cls: WaitClass)
    requires (forall c: WaitClass :: c != CPU ==> c in buckets) && Distinct(classes)
    ensures Filter(IsClass(cls), Samples(buckets, now, interval, classes)) ==
            if cls in classes then SampleFor(buckets, now, interval, cls) else []
  {
    hide SampleFor, Filter, IsClass;
    if classes != [] {
      var n := |classes| - 1;
      SamplesOfClass(buckets, now, interval, classes[..n], cls);
      OneOfClass(buckets, now, interval, classes[n], cls);
      FilterConcat(IsClass(cls), Samples(buckets, now, interval, classes[..n]),
        SampleFor(buckets, now, interval, classes[n]));
      assert classes == classes[..n] + [classes[n]];
    } else {
      FilterNothing(IsClass(cls));
    }
  }

  lemma FilterNothing(keep: WaitSample -> bool)
    ensures Filter(keep, []) == []
  {
  }

  // What a poll says about one class: a single sample that spans the poll and carries the
  // wrapped sums of its rows' count and time deltas; none if both are zero, and none for CPU.
  function ClassSample(c: Collector<WaitBaselines>, now: Time, rows: seq<WaitRow>, cls: WaitClass): seq<WaitSample> {
    var os := Outcomes(c.baselines, false, rows);
    var count, timeWait := Wrap(Total(CountOf, InClass(cls), rows, os)), Wrap(Total(TimeOf, InClass(cls), rows, os));
    if c.lastPoll == NEVER || cls == CPU || (count == 0 && timeWait == 0) then []
    else [WaitSample(now, now - c.lastPoll, cls, count, timeWait, 0, 0)]
  }

  lemma {:induction false} OneSamplePerClass(c: Collector<WaitBaselines>, now: Time, rows: seq<WaitRow>, cls: WaitClass)
    ensures Filter(IsClass(cls), PollSamples(c, now, rows)) == ClassSample(c, now, rows, cls)
    ensures |Filter(IsClass(cls), PollSamples(c, now, rows))| <= 1
  {
    hide Outcomes, Total, Samples, SampleFor, Buckets, Filter, Wrap, Distinct;
    if c.lastPoll != NEVER {
      AllListed(cls);
      var os := Outcomes(c.baselines, false, rows);
      HasBuckets(rows, os);
      ClassSampleIs(c, now, rows, cls);
      SamplesOfClass(Buckets(rows, os), now, now - c.lastPoll, ALL_WAIT_CLASSES, cls);
    } else {
      FilterNothing(IsClass(cls));
    }
  }

  lemma {:induction false} ClassSampleIs(c: Collector<WaitBaselines>, now: Time, rows: seq<WaitRow>, cls: WaitClass)
    requires c.lastPoll != NEVER
    ensures var bs := Buckets(rows, Outcomes(c.baselines, false, rows));
            (cls != CPU ==> cls in bs) && SampleFor(bs, now, now - c.lastPoll, cls) == ClassSample(c, now, rows, cls)
  {
    hide Outcomes, Total, Wrap;
  }

  lemma HasBuckets(rows: seq<WaitRow>, os: seq<WaitOutcome>)
    requires |rows| == |os|
    ensures forall c: WaitClass :: c != CPU ==> c in Buckets(rows, os)
  {
  }

  function AnyRow(): WaitRow -> bool {
    (row: WaitRow) => true
  }

  // The classes partition the rows.
  lemma {:induction false} ClassesPartition(measure: WaitOutcome -> nat, rows: seq<WaitRow>, os: seq<WaitOutcome>)
    requires |rows| == |os|
    ensures Total(measure, InClass(IO), rows, os) + Total(measure, InClass(Lock), rows, os)
            + Total(measure, InClass(Sync), rows, os) + Total(measure, InClass(Network), rows, os)
            + Total(measure, InClass(Other), rows, os) == Total(measure, AnyRow(), rows, os)
  {
    if rows == [] {
    } else {
      ClassesPartition(measure, rows[..|rows| - 1], os[..|rows| - 1]);
    }
  }

  lemma {:induction false} SumByClass(measure: WaitSample -> int, ss: seq<WaitSample>)
    ensures Sum(measure, ss) ==
            Sum(measure, Filter(IsClass(CPU), ss)) + Sum(measure, Filter(IsClass(IO), ss))
            + Sum(measure, Filter(IsClass(Lock), ss)) + Sum(measure, Filter(IsClass(Sync), ss))
            + Sum(measure, Filter(IsClass(Network), ss)) + Sum(measure, Filter(IsClass(Other), ss))
  {
    if ss == [] {
    } else {
      var n := |ss| - 1;
      SumByClass(measure, ss[..n]);
      ClassSumGrows(measure, ss, CPU);
      ClassSumGrows(measure, ss, IO);
      ClassSumGrows(measure, ss, Lock);
      ClassSumGrows(measure, ss, Sync);
      ClassSumGrows(measure, ss, Network);
      ClassSumGrows(measure, ss, Other);
    }
  }

  lemma {:induction false} ClassSumGrows(measure: WaitSample -> int, ss: seq<WaitSample>, cls: WaitClass)
    requires ss != []
    ensures var n := |ss| - 1;
            Sum(measure, Filter(IsClass(cls), ss)) ==
            Sum(measure, Filter(IsClass(cls), ss[..n])) + if ss[n].cls == cls then measure(ss[n]) else 0
  {
    hide Sum, Filter;
    var n := |ss| - 1;
    FilterLast(IsClass(cls), ss);
    SumAppend(measure, Filter(IsClass(cls), ss[..n]), ss[n]);
  }

  lemma {:induction false} ClassSums(c: Collector<WaitBaselines>, now: Time, rows: seq<WaitRow>, cls: WaitClass)
    requires c.lastPoll != NEVER
    ensures var ofClass, os := Filter(IsClass(cls), PollSamples(c, now, rows)), Outcomes(c.baselines, false, rows);
            && Sum(TimeDelta, ofClass) == (if cls == CPU then 0 else Wrap(Total(TimeOf, InClass(cls), rows, os)))
            && Sum(CountDelta, ofClass) == (if cls == CPU then 0 else Wrap(Total(CountOf, InClass(cls), rows, os)))
  {
    hide PollSamples, Total, Outcomes, Filter, Wrap;
    OneSamplePerClass(c, now, rows, cls);
    if s :| ClassSample(c, now, rows, cls) == [s] {
      SumOne(TimeDelta, s);
      SumOne(CountDelta, s);
    }
  }

  // Nothing is lost in the bucketing: a poll's samples carry the count and time deltas of all
  // its rows, exactly while these sums fit into 64 bits and up to the wrap-around otherwise.
  lemma {:induction false} PollConserves(c: Collector<WaitBaselines>, now: Time, rows: seq<WaitRow>)
    requires c.lastPoll != NEVER
    ensures var ss, os := PollSamples(c, now, rows), Outcomes(c.baselines, false, rows);
            var times, counts := Total(TimeOf, AnyRow(), rows, os), Total(CountOf, AnyRow(), rows, os);
            && Wrap(Sum(TimeDelta, ss)) == Wrap(times) && (times < TWO64 ==> Sum(TimeDelta, ss) == times)
            && Wrap(Sum(CountDelta, ss)) == Wrap(counts) && (counts < TWO64 ==> Sum(CountDelta, ss) == counts)
  {
    hide PollSamples, Total, Outcomes, Filter, Wrap, IsClass, InClass, Sum;
    var ss, os := PollSamples(c, now, rows), Outcomes(c.baselines, false, rows);
    forall cls: WaitClass
      ensures var ofClass := Filter(IsClass(cls), ss);
              && Sum(TimeDelta, ofClass) == (if cls == CPU then 0 else Wrap(Total(TimeOf, InClass(cls), rows, os)))
              && Sum(CountDelta, ofClass) == (if cls == CPU then 0 else Wrap(Total(CountOf, InClass(cls), rows, os)))
    {
      ClassSums(c, now, rows, cls);
    }
    SumByClass(TimeDelta, ss);
    SumByClass(CountDelta, ss);
    ClassesPartition(TimeOf, rows, os);
    ClassesPartition(CountOf, rows, os);
    WrapFive(Total(TimeOf, InClass(IO), rows, os), Total(TimeOf, InClass(Lock), rows, os),
             Total(TimeOf, InClass(Sync), rows, os), Total(TimeOf, InClass(Network), rows, os),
             Total(TimeOf, InClass(Other), rows, os));
    WrapFive(Total(CountOf, InClass(IO), rows, os), Total(CountOf, InClass(Lock), rows, os),
             Total(CountOf, InClass(Sync), rows, os), Total(CountOf, InClass(Network), rows, os),
             Total(CountOf, InClass(Other), rows, os));
  }

  lemma Unwrapped(x: nat)
    ensures x < TWO64 ==> Wrap(x) == x
  {
  }

  lemma WrapFive(a: nat, b: nat, c: nat, d: nat, e: nat)
    ensures Wrap(Wrap(a) + Wrap(b) + Wrap(c) + Wrap(d) + Wrap(e)) == Wrap(a + b + c + d + e)
    ensures a + b + c + d + e < TWO64 ==> Wrap(a) == a && Wrap(b) == b && Wrap(c) == c && Wrap(d) == d && Wrap(e) == e
  {
    Unwrapped(a);
    Unwrapped(b);
    Unwrapped(c);
    Unwrapped(d);
    Unwrapped(e);
    hide Wrap;
    WrapAdd(a, Wrap(b) + Wrap(c) + Wrap(d) + Wrap(e));
    WrapAdd(b, a + Wrap(c) + Wrap(d) + Wrap(e));
    WrapAdd(c, a + b + Wrap(d) + Wrap(e));
    WrapAdd(d, a + b + c + Wrap(e));
    WrapAdd(e, a + b + c + d);
  }

  // Runs

  ghost predicate UniqueEvents(rows: seq<WaitRow>) {
    forall i, j :: 0 <= i < j < |rows| ==> rows[i].eventName != rows[j].eventName
  }

  // Before the first poll.
  const FRESH: Collector<WaitBaselines> := Collector(map[], NEVER)

  function After(c: Collector<WaitBaselines>, e: PollEvent<WaitRow>): Collector<WaitBaselines> {
    if e.Failed? then c else Polled(c, e.now, e.rows)
  }

  function AfterRun(c: Collector<WaitBaselines>, run: seq<PollEvent<WaitRow>>): Collector<WaitBaselines>
    decreases |run|
  {
    if run == [] then c else AfterRun(After(c, run[0]), run[1..])
  }

  // What a run counts for one event.
  function CountedFor(measure: WaitOutcome -> nat, e: string, c: Collector<WaitBaselines>,
      run: seq<PollEvent<WaitRow>>): nat
    decreases |run|
  {
    if run == [] then 0
    else
      (if run[0].Failed? then 0
       else Total(measure, OfEvent(e), run[0].rows, Outcomes(c.baselines, c.lastPoll == NEVER, run[0].rows)))
      + CountedFor(measure, e, After(c, run[0]), run[1..])
  }

  // No answer of the run shows the event with a counter below its last reading. The event may
  // be missing from any of them.
  ghost predicate NeverReset(e: string, c: Collector<WaitBaselines>, run: seq<PollEvent<WaitRow>>)
    decreases |run|
  {
    run != [] ==>
      && (run[0].Answered? ==>
            && UniqueEvents(run[0].rows)
            && (e in c.baselines ==> forall i :: 0 <= i < |run[0].rows| && run[0].rows[i].eventName == e ==>
                  !Judge(c.baselines, false, run[0].rows[i]).Reset?))
      && NeverReset(e, After(c, run[0]), run[1..])
  }

  lemma {:induction false} EventDelta(e: string, bs: WaitBaselines, rows: seq<WaitRow>)
    requires UniqueEvents(rows) && e in bs
    requires forall i :: 0 <= i < |rows| && rows[i].eventName == e ==> !Judge(bs, false, rows[i]).Reset?
    ensures e in Recorded(bs, rows)
    ensures Total(TimeOf, OfEvent(e), rows, Outcomes(bs, false, rows)) ==
            Recorded(bs, rows)[e].timeWait - bs[e].timeWait
    ensures Total(CountOf, OfEvent(e), rows, Outcomes(bs, false, rows)) == Recorded(bs, rows)[e].count - bs[e].count
    ensures (forall i :: 0 <= i < |rows| ==> rows[i].eventName != e) ==> Recorded(bs, rows)[e] == bs[e]
  {
    if rows == [] {
    } else {
      var n := |rows| - 1;
      EventDelta(e, bs, rows[..n]);
      assert Outcomes(bs, false, rows)[..n] == Outcomes(bs, false, rows[..n]);
    }
  }

  // An event's deltas add up to its last reading minus its first, across polls that failed and
  // polls in which it was absent.
  lemma {:induction false} Telescopes(e: string, c: Collector<WaitBaselines>, run: seq<PollEvent<WaitRow>>)
    requires e in c.baselines && c.lastPoll != NEVER && NeverReset(e, c, run)
    ensures e in AfterRun(c, run).baselines
    ensures CountedFor(TimeOf, e, c, run) == AfterRun(c, run).baselines[e].timeWait - c.baselines[e].timeWait
    ensures CountedFor(CountOf, e, c, run) == AfterRun(c, run).baselines[e].count - c.baselines[e].count
    decreases |run|
  {
    if run == [] {
    } else {
      if run[0].Answered? {
        EventDelta(e, c.baselines, run[0].rows);
      }
      Telescopes(e, After(c, run[0]), run[1..]);
    }
  }

  // Polls at least an interval apart leave samples at least an interval apart.

  function RunSamples(c: Collector<WaitBaselines>, run: seq<PollEvent<WaitRow>>): seq<WaitSample>
    decreases |run|
  {
    if run == [] then []
    else
      (if run[0].Failed? then [] else PollSamples(c, run[0].now, run[0].rows)) + RunSamples(After(c, run[0]), run[1..])
  }

  ghost predicate SpacedUpTo(poll: Duration, log: seq<WaitSample>, last: Time) {
    Spaced(WaitTime, poll, log) && (log != [] ==> last != NEVER && log[|log| - 1].time <= last)
  }

  lemma {:induction false} PollKeepsDistance(poll: Duration, c: Collector<WaitBaselines>, now: Instant,
      rows: seq<WaitRow>, cls: WaitClass, log: seq<WaitSample>)
    requires poll >= 0 && SpacedUpTo(poll, log, c.lastPoll) && (c.lastPoll == NEVER || now >= c.lastPoll + poll)
    ensures SpacedUpTo(poll, log + Filter(IsClass(cls), PollSamples(c, now, rows)), now)
  {
    hide PollSamples, Filter, IsClass, Wrap, Total, Outcomes;
    OneSamplePerClass(c, now, rows, cls);
    if s :| ClassSample(c, now, rows, cls) == [s] {
      assert s.time == now;
      LogGrows(poll, log, c.lastPoll, s);
    } else {
      assert ClassSample(c, now, rows, cls) == [];
      assert log + [] == log;
    }
  }

  lemma LogGrows(poll: Duration, log: seq<WaitSample>, last: Time, s: WaitSample)
    requires SpacedUpTo(poll, log, last) && s.time != NEVER && (last == NEVER || s.time >= last + poll)
    ensures SpacedUpTo(poll, log + [s], s.time)
  {
  }

  lemma {:induction false} PollsKeepDistance(poll: Duration, c: Collector<WaitBaselines>,
      run: seq<PollEvent<WaitRow>>, cls: WaitClass,
      log: seq<WaitSample>)
    requires poll >= 0 && Apart(poll, c.lastPoll, run) && SpacedUpTo(poll, log, c.lastPoll)
    ensures SpacedUpTo(poll, log + Filter(IsClass(cls), RunSamples(c, run)), AfterRun(c, run).lastPoll)
    decreases |run|
  {
    hide PollSamples, Filter, IsClass, Recorded, SpacedUpTo;
    if run == [] {
      FilterNothing(IsClass(cls));
      assert log + [] == log;
    } else {
      var c', rest := After(c, run[0]), RunSamples(After(c, run[0]), run[1..]);
      if run[0].Failed? {
        assert [] + rest == rest;
        PollsKeepDistance(poll, c', run[1..], cls, log);
      } else {
        var now, ss := run[0].now, PollSamples(c, run[0].now, run[0].rows);
        var more := Filter(IsClass(cls), ss);
        PollKeepsDistance(poll, c, now, run[0].rows, cls, log);
        PollsKeepDistance(poll, c', run[1..], cls, log + more);
        FilterConcat(IsClass(cls), ss, rest);
        assert log + more + Filter(IsClass(cls), rest) == log + (more + Filter(IsClass(cls), rest));
      }
    }
  }

  // So a sink with the capacity chosen for that interval answers every window query about a
  // class as an unbounded log of the class would.
  lemma {:induction false} WindowIsFull(poll: Duration, window: Duration, run: seq<PollEvent<WaitRow>>, cls: WaitClass,
      now: Time, w: Duration)
    requires poll > 0 && 0 < w <= window && Apart(poll, NEVER, run) && AfterRun(FRESH, run).lastPoll <= now
    ensures var log := Filter(IsClass(cls), RunSamples(FRESH, run));
            InWindow(WaitTime, now, w, Newest(Capacity(window, poll), log)) == InWindow(WaitTime, now, w, log)
  {
    var log := Filter(IsClass(cls), RunSamples(FRESH, run));
    PollsKeepDistance(poll, FRESH, run, cls, []);
    assert [] + log == log;
    NothingInWindowIsLost(WaitTime, poll, window, log, now, w);
  }

  // The price is in the intervals. A baseline keeps no date, so a sample's interval runs from
  // the last poll, whenever the event was read last. The run tells when that was.

  ghost predicate Shows(e: string, rows: seq<WaitRow>) {
    exists i :: 0 <= i < |rows| && rows[i].eventName == e
  }

  ghost predicate ShowsIn(e: string, poll: PollEvent<WaitRow>) {
    poll.Answered? && Shows(e, poll.rows)
  }

  // The time of the last answer that shows e.
  ghost function ReadAt(e: string, run: seq<PollEvent<WaitRow>>): Time {
    if run == [] then NEVER
    else
      var n := |run| - 1;
      if ShowsIn(e, run[n]) then run[n].now else ReadAt(e, run[..n])
  }

  // Whether the last answer shows e.
  ghost predicate ShownLast(e: string, run: seq<PollEvent<WaitRow>>) {
    run != [] &&
    var n := |run| - 1;
    if run[n].Failed? then ShownLast(e, run[..n]) else Shows(e, run[n].rows)
  }

  ghost predicate Increasing(run: seq<PollEvent<WaitRow>>) {
    forall i, j :: 0 <= i < j < |run| && run[i].Answered? && run[j].Answered? ==> run[i].now < run[j].now
  }

  lemma {:induction false} AfterLast(c: Collector<WaitBaselines>, run: seq<PollEvent<WaitRow>>)
    requires run != []
    ensures AfterRun(c, run) == After(AfterRun(c, run[..|run| - 1]), run[|run| - 1])
    decreases |run|
  {
    hide After;
    if |run| > 1 {
      AfterLast(After(c, run[0]), run[1..]);
      assert run[1..][..|run| - 2] == run[..|run| - 1][1..];
    } else {
      assert run[..0] == [] && run[1..] == [];
    }
  }

  function RowOf(e: string, t: Tally): WaitRow {
    WaitRow(e, t.count, t.timeWait)
  }

  lemma {:induction false} RecordedShows(e: string, bs: WaitBaselines, rows: seq<WaitRow>)
    ensures e in Recorded(bs, rows) <==> e in bs || Shows(e, rows)
    ensures if Shows(e, rows)
            then exists i :: 0 <= i < |rows| && rows[i] == RowOf(e, Recorded(bs, rows)[e])
            else e in bs ==> Recorded(bs, rows)[e] == bs[e]
  {
    if rows == [] {
    } else {
      var n := |rows| - 1;
      RecordedShows(e, bs, rows[..n]);
      if rows[n].eventName == e {
        assert rows[n] == RowOf(e, Recorded(bs, rows)[e]);
      } else if Shows(e, rows) {
        var i :| 0 <= i < |rows| && rows[i].eventName == e;
        assert rows[..n][i].eventName == e;
        var j :| 0 <= j < n && rows[..n][j] == RowOf(e, Recorded(bs, rows[..n])[e]);
        assert rows[j] == rows[..n][j];
      } else {
        assert forall i :: 0 <= i < n ==> rows[..n][i] == rows[i];
      }
    }
  }

  // A baseline is the row of e in the answer at ReadAt.
  ghost predicate IsReading(e: string, t: Tally, run: seq<PollEvent<WaitRow>>) {
    exists k, i :: 0 <= k < |run| && run[k].Answered? && run[k].now == ReadAt(e, run)
      && 0 <= i < |run[k].rows| && run[k].rows[i] == RowOf(e, t)
  }

  lemma {:induction false} BaselineIsReading(e: string, run: seq<PollEvent<WaitRow>>)
    ensures e in AfterRun(FRESH, run).baselines <==> exists k :: 0 <= k < |run| && ShowsIn(e, run[k])
    ensures e in AfterRun(FRESH, run).baselines ==> IsReading(e, AfterRun(FRESH, run).baselines[e], run)
  {
    hide Recorded, Shows;
    if run == [] {
    } else {
      var n := |run| - 1;
      var before := AfterRun(FRESH, run[..n]);
      BaselineIsReading(e, run[..n]);
      AfterLast(FRESH, run);
      assert run == run[..n] + [run[n]];
      if run[n].Answered? {
        RecordedShows(e, before.baselines, run[n].rows);
      }
      if e in before.baselines && !ShowsIn(e, run[n]) {
        EarlierReading(e, before.baselines[e], run[..n], run);
      }
    }
  }

  lemma {:induction false} EarlierReading(e: string, t: Tally, init: seq<PollEvent<WaitRow>>,
      run: seq<PollEvent<WaitRow>>)
    requires run != [] && init == run[..|run| - 1] && ReadAt(e, run) == ReadAt(e, init) && IsReading(e, t, init)
    ensures IsReading(e, t, run)
  {
    hide ReadAt;
    var k, i :| 0 <= k < |init| && init[k].Answered? && init[k].now == ReadAt(e, init)
      && 0 <= i < |init[k].rows| && init[k].rows[i] == RowOf(e, t);
    assert run[k] == init[k];
  }

  lemma {:induction false} LastPollOf(e: string, run: seq<PollEvent<WaitRow>>)
    requires Increasing(run) && e in AfterRun(FRESH, run).baselines
    ensures AfterRun(FRESH, run).lastPoll >= ReadAt(e, run)
    ensures AfterRun(FRESH, run).lastPoll == ReadAt(e, run) <==> ShownLast(e, run)
  {
    hide Recorded, Shows;
    if run == [] {
    } else {
      var n := |run| - 1;
      AfterLast(FRESH, run);
      if run[n].Failed? || !Shows(e, run[n].rows) {
        if run[n].Answered? {
          RecordedShows(e, AfterRun(FRESH, run[..n]).baselines, run[n].rows);
        }
        BaselineIsReading(e, run[..n]);
        LastPollOf(e, run[..n]);
        var k, i :| 0 <= k < |run[..n]| && run[..n][k].Answered? && run[..n][k].now == ReadAt(e, run[..n])
          && 0 <= i < |run[..n][k].rows| && run[..n][k].rows[i].eventName == e;
        assert run[k] == run[..n][k];
      }
    }
  }

  // So the interval of the next sample is never longer than the time between the two readings
  // of an event that it subtracts, and spans it exactly if the last answer showed the event.
  lemma {:induction false} IntervalSpansDeltaIff(e: string, run: seq<PollEvent<WaitRow>>, now: Time)
    requires Increasing(run) && e in AfterRun(FRESH, run).baselines
    ensures var c := AfterRun(FRESH, run);
            && IsReading(e, c.baselines[e], run)
            && now - c.lastPoll <= now - ReadAt(e, run)
            && (now - c.lastPoll == now - ReadAt(e, run) <==> ShownLast(e, run))
  {
    BaselineIsReading(e, run);
    LastPollOf(e, run);
  }

  // A run on which it does not: the readings are taken at times 1 and 3, and the sample claims
  // an interval of 1.
  lemma IntervalMissesAbsence()
    ensures var c := Polled(Polled(Collector(map[], NEVER), 1, [WaitRow("e", 0, 0)]), 2, []);
            PollSamples(c, 3, [WaitRow("e", 1, 7)]) == [WaitSample(3, 1, Other, 1, 7, 0, 0)]
  {
    AfterGap();
    SampleAfterGap();
    hide *;
  }

  lemma AfterGap()
    ensures Polled(Polled(Collector(map[], NEVER), 1, [WaitRow("e", 0, 0)]), 2, []) ==
            Collector(map["e" := Tally(0, 0)], 2)
  {
    hide Recorded;
    OneRow(map[], WaitRow("e", 0, 0));
    OneRow(map["e" := Tally(0, 0)], WaitRow("e", 0, 0));
  }

  lemma SampleAfterGap()
    ensures PollSamples(Collector(map["e" := Tally(0, 0)], 2), 3, [WaitRow("e", 1, 7)]) ==
            [WaitSample(3, 1, Other, 1, 7, 0, 0)]
  {
    var last, o := WaitRow("e", 1, 7), Counted(1, 7);
    OneRow(map["e" := Tally(0, 0)], last);
    forall cls | cls in {IO, Lock, Sync, Network, Other}
      ensures Bucket(cls, [last], [o]) == if cls == Other then Tally(1, 7) else Tally(0, 0)
    {
      OneRowBucket(cls, last, o);
    }
    hide Bucket, Outcomes, Samples, ClassifyWaitEvent;
    OnlyOther(Buckets([last], [o]));
  }

  lemma {:induction false} OneRow(bs: WaitBaselines, row: WaitRow)
    ensures Recorded(bs, []) == bs
    ensures Recorded(bs, [row]) == bs[row.eventName := Tally(row.count, row.timeWait)]
    ensures Outcomes(bs, false, [row]) == [Judge(bs, false, row)]
  {
    assert [row][..0] == [];
  }

  lemma OneRowBucket(cls: WaitClass, row: WaitRow, o: WaitOutcome)
    ensures Bucket(cls, [row], [o]) ==
            if ClassifyWaitEvent(row.eventName) == cls then Tally(Wrap(CountOf(o)), Wrap(TimeOf(o))) else Tally(0, 0)
  {
    TotalOne(CountOf, InClass(cls), row, o);
    TotalOne(TimeOf, InClass(cls), row, o);
  }

  lemma TotalOne(measure: WaitOutcome -> nat, keep: WaitRow -> bool, row: WaitRow, o: WaitOutcome)
    ensures Total(measure, keep, [row], [o]) == if keep(row) then measure(o) else 0
  {
    assert [row][..0] == [] && [o][..0] == [];
    assert Total(measure, keep, [row][..0], [o][..0]) == 0;
  }

  lemma {:induction false} OnlyOther(bs: map<WaitClass, Tally>)
    requires bs.Keys == {IO, Lock, Sync, Network, Other}
    requires forall c :: c in {IO, Lock, Sync, Network} ==> bs[c] == Tally(0, 0)
    requires bs[Other] == Tally(1, 7)
    ensures Samples(bs, 3, 1, ALL_WAIT_CLASSES) == [WaitSample(3, 1, Other, 1, 7, 0, 0)]
  {
    NoSamples(bs, ALL_WAIT_CLASSES[..5]);
  }

  lemma {:induction false} NoSamples(bs: map<WaitClass, Tally>, classes: seq<WaitClass>)
    requires forall c: WaitClass :: c != CPU ==> c in bs
    requires forall c :: c in classes && c != CPU ==> bs[c] == Tally(0, 0)
    ensures Samples(bs, 3, 1, classes) == []
  {
    if classes == [] {
    } else {
      NoSamples(bs, classes[..|classes| - 1]);
    }
  }

  lemma {:induction false} OutcomesGrow(bs: WaitBaselines, first: bool, rows: seq<WaitRow>, i: nat)
    requires i < |rows|
    ensures rows[..i + 1] == rows[..i] + [rows[i]]
    ensures Outcomes(bs, first, rows[..i + 1]) == Outcomes(bs, first, rows[..i])
            + [Judge(Recorded(bs, rows[..i]), first, rows[i])]
    ensures Recorded(bs, rows[..i + 1]) ==
            Recorded(bs, rows[..i])[rows[i].eventName := Tally(rows[i].count, rows[i].timeWait)]
  {
    assert rows[..i + 1][..i] == rows[..i];
  }

  lemma {:induction false} NoRows(bs: WaitBaselines, first: bool)
    ensures Outcomes(bs, first, []) == [] && Recorded(bs, []) == bs
  {
  }

  lemma {:induction false} SamplesGrow(buckets: map<WaitClass, Tally>, now: Time, interval: Duration, i: nat)
    requires forall c: WaitClass :: c != CPU ==> c in buckets
    requires i < |ALL_WAIT_CLASSES|
    ensures var c := ALL_WAIT_CLASSES[i];
            Samples(buckets, now, interval, ALL_WAIT_CLASSES[..i + 1]) ==
            Samples(buckets, now, interval, ALL_WAIT_CLASSES[..i]) + SampleFor(buckets, now, interval, c)
  {
    assert ALL_WAIT_CLASSES[..i + 1][..i] == ALL_WAIT_CLASSES[..i];
  }
}
