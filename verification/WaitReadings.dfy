/** What a poll of the wait events does, told from the names and the readings alone. */
module WaitReadings {
  import opened Polls
  import opened Rings
  import opened Sorting
  import opened Unsigned
  import opened WaitModel
  import opened WaitCollectors

  // The class of an event is told by how its name begins; no event is of class CPU.
  lemma ClassByPrefix(name: string)
    ensures ClassifyWaitEvent(name) == Network <==> "wait/io/socket/" <= name
    ensures ClassifyWaitEvent(name) == IO <==> "wait/io/file/" <= name || "wait/io/table/" <= name
    ensures ClassifyWaitEvent(name) == Lock <==> "wait/lock/" <= name
    ensures ClassifyWaitEvent(name) == Sync <==>
            || "wait/synch/mutex/" <= name || "wait/synch/rwlock/" <= name
            || "wait/synch/cond/" <= name || "wait/synch/sxlock/" <= name
    ensures ClassifyWaitEvent(name) != CPU
  {
    Exclusive("wait/io/socket/", "wait/io/file/", name, 8);
    Exclusive("wait/io/socket/", "wait/io/table/", name, 8);
    Exclusive("wait/lock/", "wait/io/", name, 5);
    Exclusive("wait/synch/", "wait/io/", name, 5);
    Exclusive("wait/synch/", "wait/lock/", name, 5);
  }

  // Two prefixes that differ somewhere begin no common name.
  lemma Exclusive(a: string, b: string, name: string, i: nat)
    requires i < |a| && i < |b| && a[i] != b[i]
    ensures !(a <= name && b <= name)
  {
  }

  lemma {:induction false} OutcomeAt(bs: WaitBaselines, first: bool, rows: seq<WaitRow>, i: nat)
    requires UniqueEvents(rows) && i < |rows|
    ensures Outcomes(bs, first, rows)[i] == Judge(bs, first, rows[i])
  {
    var n := |rows| - 1;
    if i < n {
      OutcomeAt(bs, first, rows[..n], i);
    } else {
      RecordedShows(rows[n].eventName, bs, rows[..n]);
    }
  }

  // The two readings of an event decide: a reset if the count or the time is lower, and both
  // differences otherwise. Without a baseline, or on the first poll, it is seeded.
  lemma {:induction false} ReadingsDecide(c: Collector<WaitBaselines>, first: bool, rows: seq<WaitRow>, i: nat)
    requires UniqueEvents(rows) && i < |rows|
    ensures var o, e := Outcomes(c.baselines, first, rows)[i], rows[i].eventName;
            && (o.Seeded? <==> first || e !in c.baselines)
            && (o.Reset? <==>
                && !first && e in c.baselines
                && (rows[i].count < c.baselines[e].count || rows[i].timeWait < c.baselines[e].timeWait))
            && (o.Counted? ==>
                  && o.count == rows[i].count - c.baselines[e].count
                  && o.timeWait == rows[i].timeWait - c.baselines[e].timeWait)
  {
    OutcomeAt(c.baselines, first, rows, i);
    hide Outcomes;
  }

  // Whatever became of it, each row is the baseline of its event in the next poll, and the
  // events without a row keep theirs.
  lemma {:induction false} BaselinesAreRows(c: Collector<WaitBaselines>, now: Time, rows: seq<WaitRow>, e: string)
    requires UniqueEvents(rows)
    ensures var next := Polled(c, now, rows);
            && next.lastPoll == now
            && (e in next.baselines <==>
                e in c.baselines || exists i :: 0 <= i < |rows| && rows[i].eventName == e)
            && (forall i :: 0 <= i < |rows| && rows[i].eventName == e ==>
                  next.baselines[e].count == rows[i].count && next.baselines[e].timeWait == rows[i].timeWait)
            && ((forall i :: 0 <= i < |rows| ==> rows[i].eventName != e) && e in c.baselines ==>
                  next.baselines[e] == c.baselines[e])
  {
    RecordedShows(e, c.baselines, rows);
    hide Recorded;
  }

  // The total over a class is taken over the rows whose event is of that class.
  lemma {:induction false} ClassTotalGrows(cls: WaitClass, rows: seq<WaitRow>, os: seq<WaitOutcome>, row: WaitRow,
      o: WaitOutcome)
    requires |rows| == |os|
    ensures Total(TimeOf, InClass(cls), rows + [row], os + [o]) ==
            Total(TimeOf, InClass(cls), rows, os)
            + if ClassifyWaitEvent(row.eventName) == cls && o.Counted? then o.timeWait else 0
    ensures Total(CountOf, InClass(cls), rows + [row], os + [o]) ==
            Total(CountOf, InClass(cls), rows, os)
            + if ClassifyWaitEvent(row.eventName) == cls && o.Counted? then o.count else 0
    ensures Total(TimeOf, InClass(cls), [], []) == 0 && Total(CountOf, InClass(cls), [], []) == 0
  {
    assert (rows + [row])[..|rows|] == rows && (os + [o])[..|os|] == os;
  }

  // The two counters of a poll's result, each the number of rows with that outcome.
  lemma {:induction false} ResultCounts(os: seq<WaitOutcome>)
    ensures Count(WasSeeded, os) == |set i: nat | i < |os| && os[i].Seeded?|
    ensures Count(WasReset, os) == |set i: nat | i < |os| && os[i].Reset?|
  {
    CountIsSize(WasSeeded, os, set i: nat | i < |os| && os[i].Seeded?);
    CountIsSize(WasReset, os, set i: nat | i < |os| && os[i].Reset?);
  }
}
