/** What a poll of the digests does, told from the readings alone. */
module DigestReadings {
  import opened Sorting
  import opened Polls
  import opened Rings
  import opened RegistryModel
  import opened Unsigned
  import opened DigestModel

  // A digest without a baseline is seeded, and so is every digest on the first poll.
  lemma {:induction false} SeededIff(c: Collector<Baselines>, now: Time, rows: seq<Row>, i: nat)
    requires UniqueKeys(rows) && i < |rows|
    ensures PollOutcomes(c, now, rows)[i].Seeded? <==> c.lastPoll == NEVER || rows[i].key !in c.baselines
  {
    OutcomeAt(c.baselines, c.lastPoll == NEVER, now - c.lastPoll, now, rows, i);
    hide Outcomes, IsCounterReset, Delta;
  }

  // After that the two readings decide: a reset if one of five counters is lower; otherwise a
  // sample if executions or time went up, and nothing if neither did.
  lemma {:induction false} ReadingsDecide(c: Collector<Baselines>, now: Time, rows: seq<Row>, i: nat)
    requires UniqueKeys(rows) && i < |rows|
    requires c.lastPoll != NEVER && rows[i].key in c.baselines
    ensures var o, prev, next := PollOutcomes(c, now, rows)[i], c.baselines[rows[i].key].counters, rows[i].counters;
            var lower := || next.countStar < prev.countStar || next.sumTimerWait < prev.sumTimerWait
                         || next.sumLockTime < prev.sumLockTime || next.sumRowsExamined < prev.sumRowsExamined
                         || next.sumRowsSent < prev.sumRowsSent;
            && (o.Reset? <==> lower)
            && (o.Emitted? <==> !lower && (next.countStar > prev.countStar || next.sumTimerWait > prev.sumTimerWait))
            && (o.Idle? <==> !lower && next.countStar == prev.countStar && next.sumTimerWait == prev.sumTimerWait)
  {
    OutcomeAt(c.baselines, c.lastPoll == NEVER, now - c.lastPoll, now, rows, i);
    hide Outcomes;
    var prev, next := c.baselines[rows[i].key].counters, rows[i].counters;
    if !IsCounterReset(prev, next) {
      MinusIs(next.countStar, prev.countStar);
      MinusIs(next.sumTimerWait, prev.sumTimerWait);
    }
    hide Wrap;
  }

  // Going up by the difference; a counter that went down comes out 2^64 too large.
  lemma MinusIs(a: U64, b: U64)
    ensures Minus(a, b) == if a >= b then a - b else a - b + 0x1_0000_0000_0000_0000
  {
  }

  // The sample: the time since the last poll and the difference of each counter.
  lemma {:induction false} SampleIsDifference(c: Collector<Baselines>, now: Time, rows: seq<Row>, i: nat)
    requires UniqueKeys(rows) && i < |rows| && PollOutcomes(c, now, rows)[i].Emitted?
    ensures rows[i].key in c.baselines
    ensures var s, prev, next :=
              PollOutcomes(c, now, rows)[i].sample, c.baselines[rows[i].key].counters, rows[i].counters;
            && s.time == now && s.interval == now - c.lastPoll
            && s.execCount == next.countStar - prev.countStar
            && s.sumTimerWait == next.sumTimerWait - prev.sumTimerWait
            && s.sumLockTime == next.sumLockTime - prev.sumLockTime
            && s.sumRowsExamined == next.sumRowsExamined - prev.sumRowsExamined
            && s.sumRowsSent == next.sumRowsSent - prev.sumRowsSent
            && s.sumNoIndexUsed == next.sumNoIndexUsed - prev.sumNoIndexUsed
                                   + (if next.sumNoIndexUsed >= prev.sumNoIndexUsed then 0 else 0x1_0000_0000_0000_0000)
            && s.sumCreatedTmpDiskTables == next.sumCreatedTmpDiskTables - prev.sumCreatedTmpDiskTables
                                            + (if next.sumCreatedTmpDiskTables >= prev.sumCreatedTmpDiskTables then 0
                                               else 0x1_0000_0000_0000_0000)
            && s.sumSortMergePasses == next.sumSortMergePasses - prev.sumSortMergePasses
                                       + (if next.sumSortMergePasses >= prev.sumSortMergePasses then 0
                                          else 0x1_0000_0000_0000_0000)
  {
    OutcomeAt(c.baselines, c.lastPoll == NEVER, now - c.lastPoll, now, rows, i);
    hide Outcomes;
    var prev, next := c.baselines[rows[i].key].counters, rows[i].counters;
    hide Minus;
    MinusIs(next.countStar, prev.countStar);
    MinusIs(next.sumTimerWait, prev.sumTimerWait);
    MinusIs(next.sumLockTime, prev.sumLockTime);
    MinusIs(next.sumRowsExamined, prev.sumRowsExamined);
    MinusIs(next.sumRowsSent, prev.sumRowsSent);
    MinusIs(next.sumNoIndexUsed, prev.sumNoIndexUsed);
    MinusIs(next.sumCreatedTmpDiskTables, prev.sumCreatedTmpDiskTables);
    MinusIs(next.sumSortMergePasses, prev.sumSortMergePasses);
  }

  // Whatever became of it, each row is the baseline of its digest in the next poll, and no
  // other digest has one.
  lemma {:induction false} BaselinesAreRows(c: Collector<Baselines>, now: Instant, rows: seq<Row>, k: DigestKey)
    requires Current(c) && UniqueKeys(rows)
    ensures var next := Polled(c, now, rows);
            && next.lastPoll == now
            && (k in next.baselines <==> exists i :: 0 <= i < |rows| && rows[i].key == k)
            && (forall i :: 0 <= i < |rows| && rows[i].key == k ==>
                  next.baselines[k].counters == rows[i].counters && next.baselines[k].pollTime == now)
  {
    PollKeepsCurrent(c, now, rows);
    hide Polled, Recorded;
    forall i | 0 <= i < |rows| && rows[i].key == k
      ensures k in Recorded(map[], now, rows) && Recorded(map[], now, rows)[k] == Baseline(rows[i].counters, now)
    {
      RowBaseline(now, rows, i);
    }
  }

  // What the registry sees of a row: a seeded digest is live from then on, a sample joins its
  // log, and nothing happens to it otherwise.
  lemma RegistrySees(limits: Limits, s: State, s': State, now: Time, row: Row, o: Outcome)
    requires DeliveredOne(limits, s, s', now, row, o)
    ensures o.Reset? || o.Idle? ==> s' == s
    ensures o.Seeded? || o.Emitted? ==>
              && row.key in s'.book
              && s'.book[row.key].log == (if row.key in s.book then s.book[row.key].log else [])
                                         + (if o.Emitted? then [o.sample] else [])
  {
    hide IsVictim;
  }

  // The three counters of a poll's result, each the number of rows with that outcome.
  lemma {:induction false} ResultCounts(os: seq<Outcome>)
    ensures Count(WasEmitted, os) == |set i: nat | i < |os| && os[i].Emitted?|
    ensures Count(WasSeeded, os) == |set i: nat | i < |os| && os[i].Seeded?|
    ensures Count(WasReset, os) == |set i: nat | i < |os| && os[i].Reset?|
  {
    CountIsSize(WasEmitted, os, set i: nat | i < |os| && os[i].Emitted?);
    CountIsSize(WasSeeded, os, set i: nat | i < |os| && os[i].Seeded?);
    CountIsSize(WasReset, os, set i: nat | i < |os| && os[i].Reset?);
  }
}
