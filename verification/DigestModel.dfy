/** Delta sampling of statement digests as values: what one poll makes of its rows, and what
    holds over whole runs of polls. */
module DigestModel {
  import opened Sorting
  import opened Polls
  import opened Rings
  import opened RegistryModel
  import opened Unsigned

  datatype Counters = Counters(
    countStar: U64, sumTimerWait: U64, sumLockTime: U64, sumRowsExamined: U64, sumRowsSent: U64,
    sumNoIndexUsed: U64, sumCreatedTmpDiskTables: U64, sumSortMergePasses: U64)

  datatype Row = Row(key: DigestKey, text: string, counters: Counters)

  datatype Baseline = Baseline(counters: Counters, pollTime: Time)

  type Baselines = map<DigestKey, Baseline>

  predicate IsCounterReset(prev: Counters, next: Counters) {
    || next.countStar < prev.countStar
    || next.sumTimerWait < prev.sumTimerWait
    || next.sumRowsExamined < prev.sumRowsExamined
    || next.sumRowsSent < prev.sumRowsSent
    || next.sumLockTime < prev.sumLockTime
  }

  function Delta(prev: Counters, next: Counters, now: Time, interval: Duration): DigestSample {
    DigestSample(
      now, interval,
      Minus(next.countStar, prev.countStar), Minus(next.sumTimerWait, prev.sumTimerWait),
      Minus(next.sumLockTime, prev.sumLockTime), Minus(next.sumRowsExamined, prev.sumRowsExamined),
      Minus(next.sumRowsSent, prev.sumRowsSent), Minus(next.sumNoIndexUsed, prev.sumNoIndexUsed),
      Minus(next.sumCreatedTmpDiskTables, prev.sumCreatedTmpDiskTables),
      Minus(next.sumSortMergePasses, prev.sumSortMergePasses))
  }

  // What a poll does with one row.
  datatype Outcome = Seeded | Reset | Idle | Emitted(sample: DigestSample)

  function Judge(bs: Baselines, first: bool, interval: Duration, now: Time, row: Row): Outcome {
    if first || row.key !in bs then Seeded
    else if IsCounterReset(bs[row.key].counters, row.counters) then Reset
    else
      var sample := Delta(bs[row.key].counters, row.counters, now, interval);
      if sample.execCount > 0 || sample.sumTimerWait > 0 then Emitted(sample) else Idle
  }

  // The baselines once the rows have been recorded over them, and the rows' outcomes, each
  // judged against the baselines as its predecessors left them.

  function Recorded(bs: Baselines, now: Time, rows: seq<Row>): Baselines {
    if rows == [] then bs
    else
      var n := |rows| - 1;
      Recorded(bs, now, rows[..n])[rows[n].key := Baseline(rows[n].counters, now)]
  }

  function Outcomes(bs: Baselines, first: bool, interval: Duration, now: Time, rows: seq<Row>): (os: seq<Outcome>)
    ensures |os| == |rows|
  {
    if rows == [] then []
    else
      var n := |rows| - 1;
      Outcomes(bs, first, interval, now, rows[..n])
      + [Judge(Recorded(bs, now, rows[..n]), first, interval, now, rows[n])]
  }

  function KeysOf(rows: seq<Row>): set<DigestKey> {
    set i | 0 <= i < |rows| :: rows[i].key
  }

  ghost predicate UniqueKeys(rows: seq<Row>) {
    forall i, j :: 0 <= i < j < |rows| ==> rows[i].key != rows[j].key
  }

  // The collector's own state, and one successful poll of it. Rows that the server no longer
  // reports lose their baseline, except on the first poll, when there are none.
  function Drop(bs: Baselines, keep: set<DigestKey>): Baselines {
    map k | k in bs && k in keep :: bs[k]
  }

  function Polled(c: Collector<Baselines>, now: Time, rows: seq<Row>): Collector<Baselines> {
    var recorded := Recorded(c.baselines, now, rows);
    Collector(if c.lastPoll == NEVER then recorded else Drop(recorded, KeysOf(rows)), now)
  }

  function PollOutcomes(c: Collector<Baselines>, now: Time, rows: seq<Row>): seq<Outcome> {
    Outcomes(c.baselines, c.lastPoll == NEVER, now - c.lastPoll, now, rows)
  }

  // Every baseline dates from the last poll, and there is none before the first.
  ghost predicate Current(c: Collector<Baselines>) {
    forall k :: k in c.baselines ==> c.lastPoll != NEVER && c.baselines[k].pollTime == c.lastPoll
  }

  lemma {:induction false} RecordedAt(bs: Baselines, now: Time, rows: seq<Row>, k: DigestKey)
    ensures k in Recorded(map[], now, rows) <==> k in KeysOf(rows)
    ensures k !in KeysOf(rows) ==>
              && (k in Recorded(bs, now, rows) <==> k in bs)
              && (k in bs ==> Recorded(bs, now, rows)[k] == bs[k])
    ensures k in KeysOf(rows) ==>
              && k in Recorded(bs, now, rows)
              && Recorded(bs, now, rows)[k] == Recorded(map[], now, rows)[k]
    ensures k in KeysOf(rows) ==> Recorded(map[], now, rows)[k].pollTime == now
  {
    if rows == [] {
    } else {
      var n := |rows| - 1;
      RecordedAt(bs, now, rows[..n], k);
      assert rows == rows[..n] + [rows[n]];
      assert k in KeysOf(rows) <==> k in KeysOf(rows[..n]) || k == rows[n].key;
    }
  }

  // After every successful poll the baselines are exactly the rows just seen.
  lemma {:induction false} PollKeepsCurrent(c: Collector<Baselines>, now: Instant, rows: seq<Row>)
    requires Current(c)
    ensures Polled(c, now, rows).baselines == Recorded(map[], now, rows)
    ensures Polled(c, now, rows).baselines.Keys == KeysOf(rows)
    ensures Current(Polled(c, now, rows))
  {
    var bs := Polled(c, now, rows).baselines;
    forall k ensures k in bs <==> k in KeysOf(rows)
             ensures k in bs ==>
                       && k in Recorded(map[], now, rows) && bs[k] == Recorded(map[], now, rows)[k]
                       && bs[k].pollTime == now
             ensures k in Recorded(map[], now, rows) <==> k in KeysOf(rows) {
      RecordedAt(c.baselines, now, rows, k);
    }
  }

  lemma {:induction false} RowBaseline(now: Time, rows: seq<Row>, i: nat)
    requires UniqueKeys(rows) && i < |rows|
    ensures rows[i].key in Recorded(map[], now, rows)
    ensures Recorded(map[], now, rows)[rows[i].key] == Baseline(rows[i].counters, now)
  {
    var n := |rows| - 1;
    if i == n {
    } else {
      RowBaseline(now, rows[..n], i);
    }
  }

  // With unique keys each row is judged against its own baseline of the poll before.
  lemma {:induction false} OutcomeAt(bs: Baselines, first: bool, interval: Duration, now: Time, rows: seq<Row>, i: nat)
    requires UniqueKeys(rows) && i < |rows|
    ensures Outcomes(bs, first, interval, now, rows)[i] == Judge(bs, first, interval, now, rows[i])
  {
    var n := |rows| - 1;
    if i < n {
      OutcomeAt(bs, first, interval, now, rows[..n], i);
    } else {
      RecordedAt(bs, now, rows[..n], rows[n].key);
    }
  }

  // A delta that is the true difference of the two readings.
  predicate True(delta: U64, prev: U64, next: U64) {
    delta == next - prev
  }

  // The reset condition looks at five of the eight counters that the samples difference.
  ghost predicate WentBackward(prev: Counters, next: Counters) {
    || next.countStar < prev.countStar || next.sumTimerWait < prev.sumTimerWait
    || next.sumLockTime < prev.sumLockTime || next.sumRowsExamined < prev.sumRowsExamined
    || next.sumRowsSent < prev.sumRowsSent || next.sumNoIndexUsed < prev.sumNoIndexUsed
    || next.sumCreatedTmpDiskTables < prev.sumCreatedTmpDiskTables
    || next.sumSortMergePasses < prev.sumSortMergePasses
  }

  ghost predicate UncheckedKept(prev: Counters, next: Counters) {
    && next.sumNoIndexUsed >= prev.sumNoIndexUsed
    && next.sumCreatedTmpDiskTables >= prev.sumCreatedTmpDiskTables
    && next.sumSortMergePasses >= prev.sumSortMergePasses
  }

  ghost predicate CheckedTrue(prev: Counters, next: Counters, s: DigestSample) {
    && True(s.execCount, prev.countStar, next.countStar)
    && True(s.sumTimerWait, prev.sumTimerWait, next.sumTimerWait)
    && True(s.sumLockTime, prev.sumLockTime, next.sumLockTime)
    && True(s.sumRowsExamined, prev.sumRowsExamined, next.sumRowsExamined)
    && True(s.sumRowsSent, prev.sumRowsSent, next.sumRowsSent)
  }

  ghost predicate AllTrue(prev: Counters, next: Counters, s: DigestSample) {
    && CheckedTrue(prev, next, s)
    && True(s.sumNoIndexUsed, prev.sumNoIndexUsed, next.sumNoIndexUsed)
    && True(s.sumCreatedTmpDiskTables, prev.sumCreatedTmpDiskTables, next.sumCreatedTmpDiskTables)
    && True(s.sumSortMergePasses, prev.sumSortMergePasses, next.sumSortMergePasses)
  }

  // A sample's interval spans exactly the time between the two readings it subtracts. Its
  // deltas of the checked counters are true differences. All eight are exactly when the other
  // three counters kept up, and otherwise some counter went backward unnoticed.
  lemma {:induction false} SampleSpansItsDelta(c: Collector<Baselines>, now: Instant, rows: seq<Row>, i: nat)
    requires Current(c) && UniqueKeys(rows) && i < |rows| && PollOutcomes(c, now, rows)[i].Emitted?
    ensures var k, s := rows[i].key, PollOutcomes(c, now, rows)[i].sample;
            && k in c.baselines && s.time == now
            && s.interval == now - c.baselines[k].pollTime
            && var prev, next := c.baselines[k].counters, rows[i].counters;
               && CheckedTrue(prev, next, s)
               && (AllTrue(prev, next, s) <==> UncheckedKept(prev, next))
               && (WentBackward(prev, next) <==> !UncheckedKept(prev, next))
  {
    OutcomeAt(c.baselines, c.lastPoll == NEVER, now - c.lastPoll, now, rows, i);
    hide Outcomes;
    UncheckedDeltas(c.baselines[rows[i].key].counters, rows[i].counters, now, now - c.lastPoll);
  }

  // The three unchecked deltas are true differences exactly when those counters kept up. Where
  // no reset is noticed, the checked ones always are, and a counter went backward exactly when
  // an unchecked one did.
  lemma UncheckedDeltas(prev: Counters, next: Counters, now: Time, interval: Duration)
    ensures var s := Delta(prev, next, now, interval);
            && (True(s.sumNoIndexUsed, prev.sumNoIndexUsed, next.sumNoIndexUsed) <==>
                next.sumNoIndexUsed >= prev.sumNoIndexUsed)
            && (True(s.sumCreatedTmpDiskTables, prev.sumCreatedTmpDiskTables, next.sumCreatedTmpDiskTables) <==>
                next.sumCreatedTmpDiskTables >= prev.sumCreatedTmpDiskTables)
            && (True(s.sumSortMergePasses, prev.sumSortMergePasses, next.sumSortMergePasses) <==>
                next.sumSortMergePasses >= prev.sumSortMergePasses)
            && (!IsCounterReset(prev, next) ==>
                  && CheckedTrue(prev, next, s)
                  && (AllTrue(prev, next, s) <==> UncheckedKept(prev, next))
                  && (WentBackward(prev, next) <==> !UncheckedKept(prev, next)))
  {
    hide Wrap;
    TrueIff(prev.countStar, next.countStar);
    TrueIff(prev.sumTimerWait, next.sumTimerWait);
    TrueIff(prev.sumLockTime, next.sumLockTime);
    TrueIff(prev.sumRowsExamined, next.sumRowsExamined);
    TrueIff(prev.sumRowsSent, next.sumRowsSent);
    TrueIff(prev.sumNoIndexUsed, next.sumNoIndexUsed);
    TrueIff(prev.sumCreatedTmpDiskTables, next.sumCreatedTmpDiskTables);
    TrueIff(prev.sumSortMergePasses, next.sumSortMergePasses);
  }

  // A wrapping difference of a counter that went backward comes out 2^64 too large.
  lemma TrueIff(prev: U64, next: U64)
    ensures True(Minus(next, prev), prev, next) <==> next >= prev
    ensures next < prev ==> Minus(next, prev) == next - prev + TWO64
  {
  }

  lemma ResetMissed() returns (prev: Counters, next: Counters)
    ensures WentBackward(prev, next) && !IsCounterReset(prev, next)
  {
    prev := Counters(0, 0, 0, 0, 0, 1, 0, 0);
    next := Counters(0, 0, 0, 0, 0, 0, 0, 0);
  }

  // Runs

  ghost predicate WellFormedRun(run: seq<PollEvent<Row>>) {
    forall i :: 0 <= i < |run| && run[i].Answered? ==> UniqueKeys(run[i].rows)
  }

  function After(c: Collector<Baselines>, e: PollEvent<Row>): Collector<Baselines> {
    if e.Failed? then c else Polled(c, e.now, e.rows)
  }

  function AfterRun(c: Collector<Baselines>, run: seq<PollEvent<Row>>): Collector<Baselines>
    decreases |run|
  {
    if run == [] then c else AfterRun(After(c, run[0]), run[1..])
  }

  // What one poll emits for a digest: executions and picoseconds.

  function ExecOf(o: Outcome): nat {
    if o.Emitted? then o.sample.execCount else 0
  }

  function PicosOf(o: Outcome): nat {
    if o.Emitted? then o.sample.sumTimerWait else 0
  }

  function SumFor(measure: Outcome -> nat, k: DigestKey, rows: seq<Row>, os: seq<Outcome>): nat
    requires |rows| == |os|
  {
    if rows == [] then 0
    else
      var n := |rows| - 1;
      SumFor(measure, k, rows[..n], os[..n]) + if rows[n].key == k then measure(os[n]) else 0
  }

  function EmittedFor(measure: Outcome -> nat, k: DigestKey, c: Collector<Baselines>, run: seq<PollEvent<Row>>): nat
    decreases |run|
  {
    if run == [] then 0
    else
      (if run[0].Failed? then 0 else SumFor(measure, k, run[0].rows, PollOutcomes(c, run[0].now, run[0].rows)))
      + EmittedFor(measure, k, After(c, run[0]), run[1..])
  }

  // Every successful poll of the run reports k, and none of its counters is reset.
  ghost predicate Steady(k: DigestKey, c: Collector<Baselines>, run: seq<PollEvent<Row>>)
    decreases |run|
  {
    run != [] ==>
      && (run[0].Answered? ==>
            && k in c.baselines && k in KeysOf(run[0].rows)
            && forall i :: 0 <= i < |run[0].rows| && run[0].rows[i].key == k ==>
                 !IsCounterReset(c.baselines[k].counters, run[0].rows[i].counters))
      && Steady(k, After(c, run[0]), run[1..])
  }

  lemma {:induction false} SumForOne(measure: Outcome -> nat, k: DigestKey, rows: seq<Row>, os: seq<Outcome>, i: nat)
    requires |rows| == |os| && UniqueKeys(rows) && i < |rows| && rows[i].key == k
    ensures SumFor(measure, k, rows, os) == measure(os[i])
  {
    var n := |rows| - 1;
    if i < n {
      SumForOne(measure, k, rows[..n], os[..n], i);
    } else {
      SumForNone(measure, k, rows[..n], os[..n]);
    }
  }

  lemma {:induction false} SumForNone(measure: Outcome -> nat, k: DigestKey, rows: seq<Row>, os: seq<Outcome>)
    requires |rows| == |os| && forall i :: 0 <= i < |rows| ==> rows[i].key != k
    ensures SumFor(measure, k, rows, os) == 0
  {
    if rows == [] {
    } else {
      SumForNone(measure, k, rows[..|rows| - 1], os[..|rows| - 1]);
    }
  }

  // Over any stretch in which a digest is present and not reset, what is emitted for it adds
  // up to the last reading minus the first, whatever polls failed in between.
  lemma {:induction false} Telescopes(k: DigestKey, c: Collector<Baselines>, run: seq<PollEvent<Row>>)
    requires Current(c) && WellFormedRun(run) && k in c.baselines && Steady(k, c, run)
    ensures k in AfterRun(c, run).baselines
    ensures var last, start := AfterRun(c, run).baselines[k].counters, c.baselines[k].counters;
            && EmittedFor(ExecOf, k, c, run) == last.countStar - start.countStar
            && EmittedFor(PicosOf, k, c, run) == last.sumTimerWait - start.sumTimerWait
    decreases |run|
  {
    if run == [] {
    } else {
      var c' := After(c, run[0]);
      assert WellFormedRun(run[1..]);
      if run[0].Answered? {
        PollTelescopes(k, c, run[0].now, run[0].rows);
      }
      Telescopes(k, c', run[1..]);
    }
  }

  lemma {:induction false} PollTelescopes(k: DigestKey, c: Collector<Baselines>, now: Instant, rows: seq<Row>)
    requires Current(c) && UniqueKeys(rows) && k in c.baselines && k in KeysOf(rows)
    requires forall i :: 0 <= i < |rows| && rows[i].key == k ==>
               !IsCounterReset(c.baselines[k].counters, rows[i].counters)
    ensures var c', os := Polled(c, now, rows), PollOutcomes(c, now, rows);
            && Current(c') && k in c'.baselines
            && SumFor(ExecOf, k, rows, os) == c'.baselines[k].counters.countStar - c.baselines[k].counters.countStar
            && SumFor(PicosOf, k, rows, os) ==
               c'.baselines[k].counters.sumTimerWait - c.baselines[k].counters.sumTimerWait
  {
    hide Recorded, Outcomes, SumFor, IsCounterReset, Judge;
    var i :| 0 <= i < |rows| && rows[i].key == k;
    var os := PollOutcomes(c, now, rows);
    PollKeepsCurrent(c, now, rows);
    RowBaseline(now, rows, i);
    OutcomeAt(c.baselines, c.lastPoll == NEVER, now - c.lastPoll, now, rows, i);
    JudgedDelta(c.baselines, now - c.lastPoll, now, rows[i]);
    SumForOne(ExecOf, k, rows, os, i);
    SumForOne(PicosOf, k, rows, os, i);
  }

  // An idle row is not emitted, but then it had nothing to add.
  lemma JudgedDelta(bs: Baselines, interval: Duration, now: Time, row: Row)
    requires row.key in bs && !IsCounterReset(bs[row.key].counters, row.counters)
    ensures var o, prev := Judge(bs, false, interval, now, row), bs[row.key].counters;
            && ExecOf(o) == row.counters.countStar - prev.countStar
            && PicosOf(o) == row.counters.sumTimerWait - prev.sumTimerWait
  {
  }

  // What the registry goes through in one poll: a seeded row is touched, an emitted sample is
  // appended, in row order.
  ghost predicate Delivered(limits: Limits, s: State, s': State, now: Time, rows: seq<Row>, os: seq<Outcome>)
    requires |rows| == |os|
    decreases |rows|
  {
    if rows == [] then s' == s
    else
      var n := |rows| - 1;
      exists mid :: Delivered(limits, s, mid, now, rows[..n], os[..n])
        && DeliveredOne(limits, mid, s', now, rows[n], os[n])
  }

  ghost predicate DeliveredOne(limits: Limits, s: State, s': State, now: Time, row: Row, o: Outcome) {
    match o
    case Seeded => Touched(limits, s, s', now, row.key, row.text)
    case Emitted(sample) =>
      exists mid :: Touched(limits, s, mid, sample.time, row.key, row.text) && row.key in mid.book
        && s' == Appended(mid, row.key, sample)
    case _ => s' == s
  }

  function PicosEmitted(os: seq<Outcome>): nat {
    if os == [] then 0 else PicosEmitted(os[..|os| - 1]) + PicosOf(os[|os| - 1])
  }

  lemma {:induction false} DeliverNext(limits: Limits, s: State, mid: State, s': State, now: Time, rows: seq<Row>,
      os: seq<Outcome>, i: nat, o: Outcome)
    requires i == |os| && i < |rows|
    requires Delivered(limits, s, mid, now, rows[..i], os)
    requires DeliveredOne(limits, mid, s', now, rows[i], o)
    ensures Delivered(limits, s, s', now, rows[..i + 1], os + [o])
  {
    hide DeliveredOne;
    assert rows[..i + 1][..i] == rows[..i] && (os + [o])[..i] == os;
  }

  // Exactly the emitted picoseconds reach the registry's accounts.
  lemma {:induction false} DeliveryAppends(limits: Limits, s: State, s': State, now: Time, rows: seq<Row>,
      os: seq<Outcome>)
    requires |rows| == |os| && Delivered(limits, s, s', now, rows, os)
    ensures s'.appended == s.appended + PicosEmitted(os)
    decreases |rows|
  {
    hide Touched;
    if rows == [] {
    } else {
      var n := |rows| - 1;
      var mid :| Delivered(limits, s, mid, now, rows[..n], os[..n])
        && DeliveredOne(limits, mid, s', now, rows[n], os[n]);
      DeliveryAppends(limits, s, mid, now, rows[..n], os[..n]);
      OneAppends(limits, mid, s', now, rows[n], os[n]);
    }
  }

  lemma OneAppends(limits: Limits, s: State, s': State, now: Time, row: Row, o: Outcome)
    requires DeliveredOne(limits, s, s', now, row, o)
    ensures s'.appended == s.appended + PicosOf(o)
  {
    hide IsVictim;
  }

  // Polls at least an interval apart leave the samples of a digest at least an interval apart.

  // The same in the middle of a poll, where only some rows have been handled.
  ghost predicate PartlySpaced(poll: Duration, book: Book, last: Time, now: Time, rows: seq<Row>) {
    forall k :: k in book ==> LogSpaced(poll, book[k].log, if k in KeysOf(rows) then now else last)
  }

  lemma TouchKeepsLogs(limits: Limits, s: State, s': State, now: Time, key: DigestKey, text: string)
    requires Touched(limits, s, s', now, key, text)
    ensures forall k :: k in s'.book ==> s'.book[k].log == if k in s.book && k in s'.book then s.book[k].log else []
  {
    hide IsVictim;
  }

  lemma OneKeepsSpacing(poll: Duration, limits: Limits, s: State, s': State, last: Time, now: Time, rows: seq<Row>,
      i: nat, o: Outcome)
    requires i < |rows| && UniqueKeys(rows) && last <= now
    requires o.Emitted? ==> last + poll <= now && o.sample.time == now
    requires PartlySpaced(poll, s.book, last, now, rows[..i]) && DeliveredOne(limits, s, s', now, rows[i], o)
    ensures PartlySpaced(poll, s'.book, last, now, rows[..i + 1])
  {
    hide Touched, LogSpaced, UniqueKeys, KeysOf;
    var key := rows[i].key;
    OneMoreKey(rows, i);
    NothingSpaced(poll, last, now);
    match o {
      case Seeded => TouchKeepsLogs(limits, s, s', now, key, rows[i].text);
      case Emitted(sample) =>
        var mid :| Touched(limits, s, mid, now, key, rows[i].text) && key in mid.book
          && s' == Appended(mid, key, sample);
        TouchKeepsLogs(limits, s, mid, now, key, rows[i].text);
        LogGrows(poll, mid.book[key].log, last, sample);
      case _ =>
    }
    forall k | k in s'.book ensures LogSpaced(poll, s'.book[k].log, if k in KeysOf(rows[..i + 1]) then now else last) {
      if k == key && LogSpaced(poll, s'.book[k].log, last) {
        LaterSpaced(poll, s'.book[k].log, last, now);
      }
    }
  }

  lemma OneMoreKey(rows: seq<Row>, i: nat)
    requires i < |rows| && UniqueKeys(rows)
    ensures KeysOf(rows[..i + 1]) == KeysOf(rows[..i]) + {rows[i].key} && rows[i].key !in KeysOf(rows[..i])
  {
    assert rows[..i + 1] == rows[..i] + [rows[i]];
  }

  lemma NothingSpaced(poll: Duration, last: Time, now: Time)
    ensures LogSpaced(poll, [], last) && LogSpaced(poll, [], now)
  {
  }

  lemma LaterSpaced(poll: Duration, log: seq<DigestSample>, last: Time, now: Time)
    requires LogSpaced(poll, log, last) && last <= now
    ensures LogSpaced(poll, log, now)
  {
  }

  lemma {:induction false} DeliveryKeepsSpacing(poll: Duration, limits: Limits, s: State, s': State, last: Time,
      now: Time,
                                                rows: seq<Row>, os: seq<Outcome>, n: nat)
    requires |rows| == |os| && n <= |rows| && UniqueKeys(rows) && last <= now && BookSpaced(poll, s.book, last)
    requires forall i :: 0 <= i < |os| && os[i].Emitted? ==> last + poll <= now && os[i].sample.time == now
    requires Delivered(limits, s, s', now, rows[..n], os[..n])
    ensures PartlySpaced(poll, s'.book, last, now, rows[..n])
    decreases n
  {
    hide LogSpaced, DeliveredOne;
    if n == 0 {
    } else {
      assert rows[..n][..n - 1] == rows[..n - 1] && os[..n][..n - 1] == os[..n - 1];
      var mid :| Delivered(limits, s, mid, now, rows[..n - 1], os[..n - 1])
        && DeliveredOne(limits, mid, s', now, rows[n - 1], os[n - 1]);
      DeliveryKeepsSpacing(poll, limits, s, mid, last, now, rows, os, n - 1);
      hide PartlySpaced;
      OneKeepsSpacing(poll, limits, mid, s', last, now, rows, n - 1, os[n - 1]);
    }
  }

  lemma {:induction false} EmittedAt(bs: Baselines, first: bool, interval: Duration, now: Time, rows: seq<Row>)
    ensures forall i :: 0 <= i < |rows| && Outcomes(bs, first, interval, now, rows)[i].Emitted? ==>
                          !first && Outcomes(bs, first, interval, now, rows)[i].sample.time == now
  {
    if rows == [] {
    } else {
      EmittedAt(bs, first, interval, now, rows[..|rows| - 1]);
    }
  }

  lemma {:induction false} PollKeepsSpacing(poll: Duration, limits: Limits, c: Collector<Baselines>, s: State,
      s': State, now: Instant, rows: seq<Row>)
    requires poll >= 0 && UniqueKeys(rows) && BookSpaced(poll, s.book, c.lastPoll)
    requires c.lastPoll == NEVER || now >= c.lastPoll + poll
    requires Delivered(limits, s, s', now, rows, PollOutcomes(c, now, rows))
    ensures BookSpaced(poll, s'.book, now)
  {
    hide Delivered, Outcomes, UniqueKeys, PartlySpaced, BookSpaced;
    var os := PollOutcomes(c, now, rows);
    EmittedAt(c.baselines, c.lastPoll == NEVER, now - c.lastPoll, now, rows);
    assert rows[..|rows|] == rows && os[..|os|] == os;
    DeliveryKeepsSpacing(poll, limits, s, s', c.lastPoll, now, rows, os, |rows|);
    WhollySpaced(poll, s'.book, c.lastPoll, now, rows);
  }

  lemma WhollySpaced(poll: Duration, book: Book, last: Time, now: Time, rows: seq<Row>)
    requires last <= now && PartlySpaced(poll, book, last, now, rows)
    ensures BookSpaced(poll, book, now)
  {
    hide LogSpaced, KeysOf;
    forall k | k in book ensures LogSpaced(poll, book[k].log, now) {
      if k !in KeysOf(rows) {
        LaterSpaced(poll, book[k].log, last, now);
      }
    }
  }

  // The registry at the end of a run of polls.
  ghost predicate RunDelivered(limits: Limits, c: Collector<Baselines>, s: State, run: seq<PollEvent<Row>>, s': State)
    decreases |run|
  {
    if run == [] then s' == s
    else if run[0].Failed? then RunDelivered(limits, c, s, run[1..], s')
    else
      exists mid :: Delivered(limits, s, mid, run[0].now, run[0].rows, PollOutcomes(c, run[0].now, run[0].rows))
                    && RunDelivered(limits, After(c, run[0]), mid, run[1..], s')
  }

  lemma {:induction false} PollsKeepDistance(poll: Duration, limits: Limits, c: Collector<Baselines>, s: State,
      run: seq<PollEvent<Row>>, s': State)
    requires poll >= 0 && WellFormedRun(run) && Apart(poll, c.lastPoll, run)
    requires BookSpaced(poll, s.book, c.lastPoll) && RunDelivered(limits, c, s, run, s')
    ensures BookSpaced(poll, s'.book, AfterRun(c, run).lastPoll)
    decreases |run|
  {
    hide BookSpaced, Delivered, Outcomes, UniqueKeys;
    if run == [] {
    } else {
      assert WellFormedRun(run[1..]);
      if run[0].Failed? {
        PollsKeepDistance(poll, limits, c, s, run[1..], s');
      } else {
        var now, rows := run[0].now, run[0].rows;
        var mid :| Delivered(limits, s, mid, now, rows, PollOutcomes(c, now, rows))
          && RunDelivered(limits, After(c, run[0]), mid, run[1..], s');
        PollKeepsSpacing(poll, limits, c, s, mid, now, rows);
        PollsKeepDistance(poll, limits, After(c, run[0]), mid, run[1..], s');
      }
    }
  }

  predicate WasEmitted(o: Outcome) {
    o.Emitted?
  }

  predicate WasSeeded(o: Outcome) {
    o.Seeded?
  }

  predicate WasReset(o: Outcome) {
    o.Reset?
  }

  lemma CountsGrow(os: seq<Outcome>, o: Outcome)
    ensures Count(WasEmitted, os + [o]) == Count(WasEmitted, os) + if o.Emitted? then 1 else 0
    ensures Count(WasSeeded, os + [o]) == Count(WasSeeded, os) + if o.Seeded? then 1 else 0
    ensures Count(WasReset, os + [o]) == Count(WasReset, os) + if o.Reset? then 1 else 0
  {
    CountAppend(WasEmitted, os, o);
    CountAppend(WasSeeded, os, o);
    CountAppend(WasReset, os, o);
  }

  lemma {:induction false} OutcomesGrow(bs: Baselines, first: bool, interval: Duration, now: Time, rows: seq<Row>,
      i: nat)
    requires i < |rows|
    ensures Outcomes(bs, first, interval, now, rows[..i + 1]) ==
            Outcomes(bs, first, interval, now, rows[..i])
            + [Judge(Recorded(bs, now, rows[..i]), first, interval, now, rows[i])]
    ensures Recorded(bs, now, rows[..i + 1]) ==
            Recorded(bs, now, rows[..i])[rows[i].key := Baseline(rows[i].counters, now)]
  {
    assert rows[..i + 1][..i] == rows[..i];
  }

  lemma {:induction false} NothingYet(limits: Limits, bs: Baselines, first: bool, interval: Duration, now: Time,
      s: State)
    ensures Outcomes(bs, first, interval, now, []) == [] && Recorded(bs, now, []) == bs
    ensures Count(WasEmitted, []) == 0 && Count(WasSeeded, []) == 0 && Count(WasReset, []) == 0
    ensures Delivered(limits, s, s, now, [], [])
  {
  }
}
