/** CPU load by sampling: many sampling ticks, and one flusher that turns them into wait samples.
    A tick commits, and a flush takes what is pending, each under the lock; the flush then
    appends its sample after releasing it, so ticks may fall in between. */
module CpuSamplers {
  import opened Sorting
  import opened Sums
  import opened Polls
  import opened Rings
  import opened WaitModel
  import opened WaitCollectors
  import opened GroupLoads

  datatype Statement = Statement(user: string, host: string, schema: string, currentWait: string, executing: bool)

  datatype Answer = QueryFailed | Statements(rows: seq<Statement>)

  // The sample that a flush has taken but not appended yet.
  datatype Flight = Landed | InFlight(sample: WaitSample)

  datatype State = State(obs: nat, ticks: nat, start: Time, flight: Flight, emitted: seq<WaitSample>)

  // The atomic steps, in any interleaving that a single flusher allows.
  datatype Step = Commit(obs: nat) | Take(now: Time) | Emit

  predicate Enabled(s: State, e: Step) {
    match e
    case Commit(_) => true
    case Take(_) => s.flight.Landed?
    case Emit => s.flight.InFlight?
  }

  function CpuSample(start: Time, now: Time, obs: nat, ticks: nat): WaitSample {
    WaitSample(now, now - start, CPU, 0, 0, obs, ticks)
  }

  function Next(s: State, e: Step): State
    requires Enabled(s, e)
  {
    match e
    case Commit(n) => s.(obs := s.obs + n, ticks := s.ticks + 1)
    case Take(now) =>
      State(0, 0, now, if s.ticks == 0 then Landed else InFlight(CpuSample(s.start, now, s.obs, s.ticks)), s.emitted)
    case Emit => s.(flight := Landed, emitted := s.emitted + [s.flight.sample])
  }

  predicate Possible(s: State, run: seq<Step>)
    decreases |run|
  {
    run == [] || (Enabled(s, run[0]) && Possible(Next(s, run[0]), run[1..]))
  }

  function After(s: State, run: seq<Step>): State
    requires Possible(s, run)
    decreases |run|
  {
    if run == [] then s else After(Next(s, run[0]), run[1..])
  }

  // Nothing is observed without a tick.
  predicate Ticked(s: State) {
    s.ticks == 0 ==> s.obs == 0
  }

  // The samples of all closed intervals, appended or in flight.
  function Closed(s: State): seq<WaitSample> {
    s.emitted + if s.flight.InFlight? then [s.flight.sample] else []
  }

  function ObsOf(s: WaitSample): int { s.cpuObservations }

  function TicksOf(s: WaitSample): int { s.cpuTicks }

  function SpanOf(s: WaitSample): int { s.interval }

  function SampledObs(run: seq<Step>): nat {
    if run == [] then 0 else (if run[0].Commit? then run[0].obs else 0) + SampledObs(run[1..])
  }

  function SampledTicks(run: seq<Step>): nat {
    if run == [] then 0 else (if run[0].Commit? then 1 else 0) + SampledTicks(run[1..])
  }

  // The time covered by flushes that found no tick, and so left no sample.
  function Quiet(s: State, run: seq<Step>): int
    requires Possible(s, run)
    decreases |run|
  {
    if run == [] then 0
    else (if run[0].Take? && s.ticks == 0 then run[0].now - s.start else 0) + Quiet(Next(s, run[0]), run[1..])
  }

  // A step either leaves the closed intervals alone or closes one more.
  lemma ClosedGrows(s: State, e: Step)
    requires Enabled(s, e)
    ensures Closed(Next(s, e)) ==
            if e.Take? && s.ticks > 0
            then Closed(s) + [WaitSample(e.now, e.now - s.start, CPU, 0, 0, s.obs, s.ticks)] else Closed(s)
  {
  }

  // No interleaving loses or repeats an observation, a tick or a moment: what was sampled is
  // what the closed intervals hold and what is still pending, and the closed intervals and the
  // quiet ones cover the time between the first start and the last flush.
  lemma {:induction false} NothingIsLost(s: State, run: seq<Step>)
    requires Ticked(s) && Possible(s, run)
    ensures Ticked(After(s, run))
    ensures var t := After(s, run);
            && Sum(ObsOf, Closed(t)) + t.obs == Sum(ObsOf, Closed(s)) + s.obs + SampledObs(run)
            && Sum(TicksOf, Closed(t)) + t.ticks == Sum(TicksOf, Closed(s)) + s.ticks + SampledTicks(run)
            && Sum(SpanOf, Closed(t)) + Quiet(s, run) == Sum(SpanOf, Closed(s)) + t.start - s.start
    decreases |run|
  {
    if run == [] {
    } else {
      StepLosesNothing(s, run[0]);
      NothingIsLost(Next(s, run[0]), run[1..]);
    }
  }

  lemma StepLosesNothing(s: State, e: Step)
    requires Ticked(s) && Enabled(s, e)
    ensures Ticked(Next(s, e))
    ensures var t := Next(s, e);
            && Sum(ObsOf, Closed(t)) + t.obs == Sum(ObsOf, Closed(s)) + s.obs + (if e.Commit? then e.obs else 0)
            && Sum(TicksOf, Closed(t)) + t.ticks == Sum(TicksOf, Closed(s)) + s.ticks + (if e.Commit? then 1 else 0)
            && Sum(SpanOf, Closed(t)) + (if e.Take? && s.ticks == 0 then e.now - s.start else 0) ==
               Sum(SpanOf, Closed(s)) + t.start - s.start
  {
    hide Closed, Sum;
    ClosedGrows(s, e);
    if e.Take? && s.ticks > 0 {
      var sample := CpuSample(s.start, e.now, s.obs, s.ticks);
      SumAppend(ObsOf, Closed(s), sample);
      SumAppend(TicksOf, Closed(s), sample);
      SumAppend(SpanOf, Closed(s), sample);
    }
  }

  // Every closed interval has ticks behind it, and starts no earlier than the one before ended.
  ghost predicate Tidy(s: State) {
    TidyUpTo(Closed(s), s.start)
  }

  ghost predicate TidyUpTo(ss: seq<WaitSample>, start: Time) {
    && (forall i :: 0 <= i < |ss| ==> ss[i].cls == CPU && ss[i].cpuTicks > 0 && ss[i].time <= start)
    && (forall i :: 0 <= i < |ss| ==> ss[i].interval >= 0)
    && (forall i, j :: 0 <= i < j < |ss| ==> ss[i].time <= ss[j].time - ss[j].interval)
  }

  // Flush times never run backwards.
  predicate Monotone(from: Time, run: seq<Step>)
    decreases |run|
  {
    run == [] ||
    if run[0].Take? then from <= run[0].now && Monotone(run[0].now, run[1..]) else Monotone(from, run[1..])
  }

  lemma {:induction false} IntervalsAreDisjoint(s: State, run: seq<Step>)
    requires Tidy(s) && Possible(s, run) && Monotone(s.start, run)
    ensures Tidy(After(s, run))
    decreases |run|
  {
    if run == [] {
    } else {
      var t := Next(s, run[0]);
      ClosedGrows(s, run[0]);
      assert Tidy(t) by { hide Closed; }
      IntervalsAreDisjoint(t, run[1..]);
    }
  }

  // A flush keeps this exactly if it does not run against the clock: with ticks, from the start
  // of its interval; without any, which leaves no sample but moves the start, from the end of
  // the last closed interval.
  lemma FlushIsTidyIff(s: State, now: Time)
    requires Tidy(s) && s.flight.Landed?
    ensures Tidy(Next(s, Take(now))) <==>
            if s.ticks > 0 then now >= s.start else Closed(s) == [] || now >= Closed(s)[|Closed(s)| - 1].time
  {
    hide Closed, TidyUpTo;
    ClosedGrows(s, Take(now));
    if s.ticks > 0 {
      TidyAppend(Closed(s), s.start, now, s.obs, s.ticks);
    } else {
      TidyMoves(Closed(s), s.start, now);
    }
  }

  lemma TidyAppend(ss: seq<WaitSample>, start: Time, now: Time, obs: nat, ticks: nat)
    requires TidyUpTo(ss, start) && ticks > 0
    ensures TidyUpTo(ss + [CpuSample(start, now, obs, ticks)], now) <==> now >= start
  {
    var all := ss + [CpuSample(start, now, obs, ticks)];
    assert all[|ss|].interval == now - start;
  }

  lemma TidyMoves(ss: seq<WaitSample>, start: Time, now: Time)
    requires TidyUpTo(ss, start)
    ensures TidyUpTo(ss, now) <==> ss == [] || now >= ss[|ss| - 1].time
  {
    if ss != [] {
      var n := |ss| - 1;
      assert forall i :: 0 <= i < n ==> ss[i].time <= ss[n].time - ss[n].interval;
    }
  }

  // Flushes at least an interval apart leave samples at least an interval apart.

  ghost predicate FlushesApart(poll: Duration, s: State, run: seq<Step>)
    requires Possible(s, run)
    decreases |run|
  {
    run != [] ==>
      && (run[0].Take? ==> Closed(s) == [] || run[0].now >= s.start + poll)
      && FlushesApart(poll, Next(s, run[0]), run[1..])
  }

  ghost predicate SpacedUpToStart(poll: Duration, s: State) {
    Spaced(WaitTime, poll, Closed(s)) && (Closed(s) != [] ==> Closed(s)[|Closed(s)| - 1].time <= s.start)
  }

  lemma {:induction false} FlushesKeepDistance(poll: Duration, s: State, run: seq<Step>)
    requires poll >= 0 && Possible(s, run) && FlushesApart(poll, s, run) && SpacedUpToStart(poll, s)
    ensures SpacedUpToStart(poll, After(s, run))
    decreases |run|
  {
    if run == [] {
    } else {
      ClosedGrows(s, run[0]);
      assert SpacedUpToStart(poll, Next(s, run[0])) by { hide Closed; }
      FlushesKeepDistance(poll, Next(s, run[0]), run[1..]);
    }
  }

  // So the CPU sink, of the capacity chosen for that interval, answers every window query as an
  // unbounded log of the closed samples would.
  lemma {:induction false} WindowIsFull(poll: Duration, window: Duration, s: State, run: seq<Step>, now: Time,
      w: Duration)
    requires poll > 0 && 0 < w <= window && Closed(s) == []
    requires Possible(s, run) && FlushesApart(poll, s, run) && After(s, run).start <= now
    ensures var log := Closed(After(s, run));
            InWindow(WaitTime, now, w, Newest(Capacity(window, poll), log)) == InWindow(WaitTime, now, w, log)
  {
    FlushesKeepDistance(poll, s, run);
    NothingInWindowIsLost(WaitTime, poll, window, Closed(After(s, run)), now, w);
  }

  // Whatever the clock does, every closed sample has ticks.
  lemma {:induction false} NoPhantomSamples(s: State, run: seq<Step>)
    requires Possible(s, run) && forall x :: x in Closed(s) ==> x.cls == CPU && x.cpuTicks > 0
    ensures forall x :: x in Closed(After(s, run)) ==> x.cls == CPU && x.cpuTicks > 0
    decreases |run|
  {
    if run == [] {
    } else {
      ClosedGrows(s, run[0]);
      NoPhantomSamples(Next(s, run[0]), run[1..]);
    }
  }

  // One tick

  predicate IsCpuWait(eventName: string) {
    eventName == "" || eventName == "idle"
  }

  function Running(): Statement -> bool {
    (st: Statement) => st.executing
  }

  function OnCpu(): Statement -> bool {
    (st: Statement) => st.executing && IsCpuWait(st.currentWait)
  }

  function SessionOf(t: Time, st: Statement): SessionSample {
    SessionSample(t, st.user, st.host, st.schema, true)
  }

  function SessionsOf(t: Time, rows: seq<Statement>): seq<SessionSample> {
    var running := Filter(Running(), rows);
    seq(|running|, i requires 0 <= i < |running| => SessionOf(t, running[i]))
  }

  lemma TickGrows(t: Time, rows: seq<Statement>, i: nat)
    requires i < |rows|
    ensures var st := rows[i];
            && Count(OnCpu(), rows[..i + 1]) ==
               Count(OnCpu(), rows[..i]) + (if st.executing && IsCpuWait(st.currentWait) then 1 else 0)
            && SessionsOf(t, rows[..i + 1]) ==
               if st.executing then SessionsOf(t, rows[..i]) + [SessionOf(t, st)] else SessionsOf(t, rows[..i])
  {
    assert rows[..i + 1][..i] == rows[..i];
  }

  // A tick adds to the session log exactly one executing sample per session seen executing,
  // so the two views of the load agree on how much was running; a session counted as on CPU
  // is one of them.
  lemma {:induction false} TickAgrees(t: Time, rows: seq<Statement>)
    ensures Executing(SessionsOf(t, rows)) == Count(Running(), rows)
    ensures Count(OnCpu(), rows) <= Count(Running(), rows)
    ensures Count(OnCpu(), rows) == Count(Running(), rows) <==>
            forall st :: st in rows && st.executing ==> IsCpuWait(st.currentWait)
  {
    if rows == [] {
    } else {
      var n := |rows| - 1;
      TickAgrees(t, rows[..n]);
      TickGrows(t, rows, n);
      assert rows[..n + 1] == rows == rows[..n] + [rows[n]];
      CountAppend(Running(), rows[..n], rows[n]);
      hide Count, SessionsOf, Executing, OnCpu;
      if rows[n].executing {
        ExecutingGrows(SessionsOf(t, rows[..n]), SessionOf(t, rows[n]));
      }
    }
  }

  // What a tick counts, and what it logs: one session for each executing statement.
  lemma {:induction false} TickTells(t: Time, rows: seq<Statement>)
    ensures Count(OnCpu(), rows) ==
            |set i: nat | && i < |rows| && rows[i].executing
                          && (rows[i].currentWait == "" || rows[i].currentWait == "idle")|
    ensures |SessionsOf(t, rows)| == |set i: nat | i < |rows| && rows[i].executing|
    ensures forall s :: s in SessionsOf(t, rows) <==>
              exists i :: && 0 <= i < |rows| && rows[i].executing && s.executing && s.time == t
                          && s.user == rows[i].user && s.host == rows[i].host && s.schema == rows[i].schema
  {
    CountIsSize(OnCpu(), rows, set i: nat | && i < |rows| && rows[i].executing
                                            && (rows[i].currentWait == "" || rows[i].currentWait == "idle"));
    CountIsSize(Running(), rows, set i: nat | i < |rows| && rows[i].executing);
    forall s
      ensures s in SessionsOf(t, rows) <==>
              exists i :: 0 <= i < |rows| && rows[i].executing && s == SessionOf(t, rows[i])
    {
      SessionsHold(t, rows, s);
    }
  }

  lemma {:induction false} SessionsHold(t: Time, rows: seq<Statement>, s: SessionSample)
    ensures s in SessionsOf(t, rows) <==>
            exists i :: 0 <= i < |rows| && rows[i].executing && s == SessionOf(t, rows[i])
  {
    if rows == [] {
    } else {
      var n := |rows| - 1;
      SessionsHold(t, rows[..n], s);
      TickGrows(t, rows, n);
      assert rows[..n + 1] == rows;
      hide SessionsOf;
      assert forall i :: 0 <= i < n ==> rows[..n][i] == rows[i];
    }
  }

  lemma ExecutingGrows(ss: seq<SessionSample>, s: SessionSample)
    ensures Executing(ss + [s]) == Executing(ss) + if s.executing then 1 else 0
  {
    CountAppend((x: SessionSample) => x.executing, ss, s);
  }

  // The wait collector shares the series, but its polls never add to the CPU log.
  lemma PollsAddNoCpu(c: Collector<WaitBaselines>, now: Time, rows: seq<WaitRow>)
    ensures Filter(IsClass(CPU), PollSamples(c, now, rows)) == []
  {
    OneSamplePerClass(c, now, rows, CPU);
  }

  ghost function SessionParts(sink: RingSink?<SessionSample>): set<object> {
    if sink == null then {} else {sink, sink.ring, sink.ring.buf}
  }

  class CPUSampler {
    const series: WaitSeries
    const sessionSink: RingSink?<SessionSample>
    var pendingObs: nat
    var pendingTicks: nat
    var intervalStart: Time
    ghost var flight: Flight

    ghost predicate Valid()
      reads this, series, series.Repr, SessionParts(sessionSink)
    {
      && series.Valid() && this !in series.Repr && Ticked(View())
      && (flight.InFlight? ==> flight.sample.cls == CPU)
      && (sessionSink != null ==> sessionSink.Valid() && SessionParts(sessionSink) !! series.Repr)
    }

    ghost function View(): State
      reads this, series
    {
      State(pendingObs, pendingTicks, intervalStart, flight, Filter(IsClass(CPU), series.log))
    }

    ghost function Sessions(): seq<SessionSample>
      reads SessionParts(sessionSink)
    {
      if sessionSink == null then [] else sessionSink.ring.log
    }

    constructor (series: WaitSeries, sessionSink: RingSink?<SessionSample>, intervalStart: Time)
      requires series.Valid()
      requires sessionSink != null ==> sessionSink.Valid() && SessionParts(sessionSink) !! series.Repr
      ensures Valid() && this.series == series && this.sessionSink == sessionSink
      ensures View() == State(0, 0, intervalStart, Landed, Filter(IsClass(CPU), series.log))
    {
      this.series, this.sessionSink, this.intervalStart := series, sessionSink, intervalStart;
      pendingObs, pendingTicks, flight := 0, 0, Landed;
    }

    method Sample(answer: Answer, sampleTime: Time) returns (ok: bool)
      requires Valid()
      modifies this`pendingObs, this`pendingTicks, SessionParts(sessionSink)
      ensures Valid() && (ok <==> answer.Statements?)
      ensures !ok ==> View() == old(View()) && Sessions() == old(Sessions())
      ensures ok ==> View() == Next(old(View()), Commit(Count(OnCpu(), answer.rows)))
      ensures ok && sessionSink != null ==> Sessions() == old(Sessions()) + SessionsOf(sampleTime, answer.rows)
    {
      hide WaitSeries.Valid, RingSink.Valid, Count, SessionsOf, OnCpu, IsCpuWait, Filter;
      if answer.QueryFailed? {
        return false;
      }
      var rows := answer.rows;
      var obs := 0;
      NothingSeen(sampleTime);
      for i := 0 to |rows|
        invariant Valid() && View() == old(View())
        invariant obs == Count(OnCpu(), rows[..i])
        invariant sessionSink != null ==> Sessions() == old(Sessions()) + SessionsOf(sampleTime, rows[..i])
      {
        var st := rows[i];
        TickGrows(sampleTime, rows, i);
        if !st.executing {
          continue;
        }
        if IsCpuWait(st.currentWait) {
          obs := obs + 1;
        }
        if sessionSink != null {
          sessionSink.Append(SessionOf(sampleTime, st));
        }
      }
      assert rows[..|rows|] == rows;
      pendingObs, pendingTicks := pendingObs + obs, pendingTicks + 1;
      ok := true;
    }

    // The locked part of a flush.
    method TakePending(now: Time) returns (taken: Flight)
      requires Valid() && flight.Landed?
      modifies this
      ensures Valid() && View() == Next(old(View()), Take(now)) && taken == flight
    {
      hide WaitSeries.Valid;
      var obs, ticks := pendingObs, pendingTicks;
      var start := intervalStart;
      pendingObs, pendingTicks := 0, 0;
      intervalStart := now;
      taken := if ticks == 0 then Landed else InFlight(CpuSample(start, now, obs, ticks));
      flight := taken;
    }

    // The rest of it, by which time more ticks may be pending.
    method Land(taken: Flight)
      requires Valid() && taken == flight
      modifies this`flight, series.Repr
      ensures Valid() && flight.Landed?
      ensures View() == if taken.Landed? then old(View()) else Next(old(View()), Emit)
    {
      hide WaitSeries.Valid;
      if taken.Landed? {
        return;
      }
      ClassLogGrows(series.log, taken.sample, CPU);
      series.Append(taken.sample);
      flight := Landed;
    }
  }

  lemma NothingSeen(t: Time)
    ensures Count(OnCpu(), []) == 0 && SessionsOf(t, []) == []
  {
  }
}
