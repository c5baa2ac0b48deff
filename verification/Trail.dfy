/** The sparkline's trail: the wait series folded into one bin per sample time, sorted in place,
    and cut to the latest cells. */
module Trails {
  import opened Sorting
  import opened Sums
  import opened Rings
  import opened WaitModel
  import opened WaitCollectors

  const SPARK_SAMPLES: nat := 60

  datatype Bin = Bin(t: Time, aas: real)

  // Average active sessions of one sample: observed for the CPU class, timed for the others.
  function Aas(s: WaitSample): real {
    if s.cls == CPU then
      if s.cpuTicks > 0 then s.cpuObservations as real / s.cpuTicks as real else 0.0
    else
      var secs := s.interval as real / 1_000_000_000.0;
      if secs > 0.0 then s.sumTimerWaitDelta as real / 1_000_000_000_000.0 / secs else 0.0
  }

  // The load of all samples taken at time t.
  function LoadAt(ss: seq<WaitSample>, t: Time): real {
    if ss == [] then 0.0
    else LoadAt(ss[..|ss| - 1], t) + if ss[|ss| - 1].time == t then Aas(ss[|ss| - 1]) else 0.0
  }

  // The units: observations per tick for the CPU class, and picoseconds of waiting per
  // picosecond of the interval for the others, whose length is in nanoseconds.
  lemma LoadUnits(s: WaitSample)
    ensures s.cls == CPU && s.cpuTicks > 0 ==> Aas(s) * s.cpuTicks as real == s.cpuObservations as real
    ensures s.cls != CPU && s.interval > 0 ==> Aas(s) * (s.interval * 1000) as real == s.sumTimerWaitDelta as real
    ensures (if s.cls == CPU then s.cpuTicks == 0 else s.interval <= 0) ==> Aas(s) == 0.0
  {
    if s.cls != CPU && s.interval > 0 {
      Cancel(s.sumTimerWaitDelta as real, s.interval as real);
    }
  }

  lemma Cancel(picos: real, nanos: real)
    requires nanos > 0.0
    ensures picos / 1_000_000_000_000.0 / (nanos / 1_000_000_000.0) * (nanos * 1000.0) == picos
  {
    var secs := nanos / 1_000_000_000.0;
    assert nanos * 1000.0 == secs * 1_000_000_000_000.0;
    var x := picos / 1_000_000_000_000.0;
    assert x / secs * secs == x;
    assert x / secs * (secs * 1_000_000_000_000.0) == x * 1_000_000_000_000.0;
  }

  // A time's load is the sum over its samples.
  lemma {:induction false} LoadsAddUp(ss: seq<WaitSample>, s: WaitSample, t: Time)
    ensures LoadAt([], t) == 0.0
    ensures LoadAt(ss + [s], t) == LoadAt(ss, t) + if s.time == t then Aas(s) else 0.0
  {
    assert (ss + [s])[..|ss|] == ss;
  }

  ghost predicate HasTime(ss: seq<WaitSample>, t: Time) {
    exists i :: 0 <= i < |ss| && ss[i].time == t
  }

  // One bin per distinct time, with the load at that time; idx finds it.
  ghost predicate Binned(ss: seq<WaitSample>, bins: seq<Bin>, idx: map<Time, nat>) {
    && (forall t :: t in idx <==> HasTime(ss, t))
    && (forall t :: t in idx ==> idx[t] < |bins| && bins[idx[t]].t == t)
    && (forall i :: 0 <= i < |bins| ==> bins[i].t in idx && idx[bins[i].t] == i)
    && (forall i :: 0 <= i < |bins| ==> bins[i].aas == LoadAt(ss, bins[i].t))
  }

  method AddSample(ghost ss: seq<WaitSample>, s: WaitSample, bins: seq<Bin>, idx: map<Time, nat>)
    returns (bins': seq<Bin>, idx': map<Time, nat>)
    requires Binned(ss, bins, idx)
    ensures Binned(ss + [s], bins', idx')
  {
    bins', idx' := bins, idx;
    if s.time in idx {
      var i := idx[s.time];
      bins' := bins'[i := Bin(bins'[i].t, bins'[i].aas + Aas(s))];
    } else {
      idx' := idx'[s.time := |bins'|];
      bins' := bins' + [Bin(s.time, Aas(s))];
    }
    TimesGrow(ss, s);
    forall t {
      LoadsAddUp(ss, s, t);
    }
    NoLoad(ss, s.time);
  }

  method AddSamples(ghost ss: seq<WaitSample>, got: seq<WaitSample>, bins: seq<Bin>, idx: map<Time, nat>)
    returns (bins': seq<Bin>, idx': map<Time, nat>)
    requires Binned(ss, bins, idx)
    ensures Binned(ss + got, bins', idx')
  {
    hide Binned;
    bins', idx' := bins, idx;
    assert ss + got[..0] == ss;
    for k := 0 to |got|
      invariant Binned(ss + got[..k], bins', idx')
    {
      bins', idx' := AddSample(ss + got[..k], got[k], bins', idx');
      assert ss + got[..k] + [got[k]] == ss + got[..k + 1];
    }
    assert got[..|got|] == got;
  }

  lemma TimesGrow(ss: seq<WaitSample>, s: WaitSample)
    ensures forall t :: HasTime(ss + [s], t) <==> HasTime(ss, t) || t == s.time
  {
    forall t ensures HasTime(ss + [s], t) <==> HasTime(ss, t) || t == s.time {
      assert (ss + [s])[|ss|] == s;
      if HasTime(ss, t) {
        var i :| 0 <= i < |ss| && ss[i].time == t;
        assert (ss + [s])[i] == ss[i];
      }
    }
  }

  lemma {:induction false} NoLoad(ss: seq<WaitSample>, t: Time)
    ensures !HasTime(ss, t) ==> LoadAt(ss, t) == 0.0
  {
    if ss == [] {
    } else {
      NoLoad(ss[..|ss| - 1], t);
      assert HasTime(ss[..|ss| - 1], t) ==> HasTime(ss, t);
    }
  }

  predicate Earlier(a: Bin, b: Bin) {
    a.t < b.t
  }

  // The in-place insertion sort by adjacent swaps.
  method SortBins(bins: array<Bin>)
    modifies bins
    ensures bins[..] == StableSort(Earlier, old(bins[..]))
  {
    hide Insert, StableSort;
    ghost var was := bins[..];
    NothingSorted(was);
    for i := 0 to bins.Length
      invariant bins[..] == StableSort(Earlier, was[..i]) + was[i..]
    {
      ghost var sorted := StableSort(Earlier, was[..i]);
      SortStep(was, i);
      SinkDown(bins, i, sorted, was[i], was[i + 1..]);
    }
    assert was[..bins.Length] == was && was[bins.Length..] == [];
  }

  lemma NothingSorted(was: seq<Bin>)
    ensures StableSort(Earlier, was[..0]) + was[0..] == was
  {
  }

  lemma SortStep(was: seq<Bin>, i: nat)
    requires i < |was|
    ensures var sorted := StableSort(Earlier, was[..i]);
            && |sorted| == i && sorted + was[i..] == sorted + [was[i]] + was[i + 1..]
            && StableSort(Earlier, was[..i + 1]) == Insert(Earlier, sorted, was[i])
  {
    assert was[..i + 1][..i] == was[..i];
    EarlierIsWeak();
    StableSortSorts(Earlier, was[..i]);
  }

  // x in place j of the sorted part.
  ghost function Layout(sorted: seq<Bin>, x: Bin, tail: seq<Bin>, j: nat): (s: seq<Bin>)
    requires j <= |sorted|
    ensures |s| == |sorted| + 1 + |tail|
  {
    sorted[..j] + [x] + sorted[j..] + tail
  }

  lemma LayoutEnds(sorted: seq<Bin>, x: Bin, tail: seq<Bin>)
    ensures Layout(sorted, x, tail, |sorted|) == sorted + [x] + tail
    ensures sorted[..|sorted|] == sorted && sorted[|sorted|..] == []
  {
  }

  // The inner loop: the element after the sorted part moves left past the later ones.
  method SinkDown(bins: array<Bin>, i: nat, ghost sorted: seq<Bin>, ghost x: Bin, ghost tail: seq<Bin>)
    requires i < bins.Length && |sorted| == i && bins[..] == sorted + [x] + tail
    modifies bins
    ensures bins[..] == Insert(Earlier, sorted, x) + tail
  {
    hide Sinking;
    var j := i;
    SinkStart(sorted, x, tail);
    while j > 0 && bins[j - 1].t > bins[j].t
      invariant 0 <= j <= i
      invariant Sinking(sorted, x, tail, j, bins[..])
    {
      ghost var now := bins[..];
      bins[j - 1], bins[j] := bins[j], bins[j - 1];
      assert bins[..] == now[j - 1 := now[j]][j := now[j - 1]];
      SinkStep(sorted, x, tail, j, now);
      j := j - 1;
    }
    SinkEnd(sorted, x, tail, j, bins[..]);
  }

  // x has come down to place j, past elements that it belongs under.
  ghost predicate Sinking(sorted: seq<Bin>, x: Bin, tail: seq<Bin>, j: nat, all: seq<Bin>)
    requires j <= |sorted|
  {
    && all == Layout(sorted, x, tail, j)
    && Insert(Earlier, sorted, x) == Insert(Earlier, sorted[..j], x) + sorted[j..]
  }

  lemma SinkStart(sorted: seq<Bin>, x: Bin, tail: seq<Bin>)
    ensures Sinking(sorted, x, tail, |sorted|, sorted + [x] + tail)
  {
    hide Insert, Layout;
    LayoutEnds(sorted, x, tail);
  }

  lemma SinkStep(sorted: seq<Bin>, x: Bin, tail: seq<Bin>, j: nat, all: seq<Bin>)
    requires 0 < j <= |sorted| && Sinking(sorted, x, tail, j, all)
    requires j < |all| && all[j - 1].t > all[j].t
    ensures Sinking(sorted, x, tail, j - 1, all[j - 1 := all[j]][j := all[j - 1]])
  {
    hide Insert, Layout;
    SwapLeft(sorted, x, tail, j);
    InsertUnder(sorted, x, j);
  }

  lemma {:induction false} SinkEnd(sorted: seq<Bin>, x: Bin, tail: seq<Bin>, j: nat, all: seq<Bin>)
    requires j <= |sorted| && Sinking(sorted, x, tail, j, all) && j < |all|
    requires j > 0 ==> all[j - 1].t <= all[j].t
    ensures all == Insert(Earlier, sorted, x) + tail
  {
    hide Insert, Layout;
    PartsAt(sorted, x, tail, j);
    InsertStops(sorted[..j], x);
  }

  lemma PartsAt(sorted: seq<Bin>, x: Bin, tail: seq<Bin>, j: nat)
    requires j <= |sorted|
    ensures var all := Layout(sorted, x, tail, j);
            && all[j] == x && (j > 0 ==> all[j - 1] == sorted[j - 1] == sorted[..j][j - 1])
            && all == sorted[..j] + [x] + sorted[j..] + tail
  {
  }

  lemma SwapLeft(sorted: seq<Bin>, x: Bin, tail: seq<Bin>, j: nat)
    requires 0 < j <= |sorted|
    ensures var all := Layout(sorted, x, tail, j);
            && all[j] == x && all[j - 1] == sorted[j - 1]
            && all[j - 1 := x][j := sorted[j - 1]] == Layout(sorted, x, tail, j - 1)
  {
  }

  lemma {:induction false} InsertStops(s: seq<Bin>, x: Bin)
    requires s == [] || !Earlier(x, s[|s| - 1])
    ensures Insert(Earlier, s, x) == s + [x]
  {
  }

  lemma {:induction false} InsertUnder(sorted: seq<Bin>, x: Bin, j: nat)
    requires 0 < j <= |sorted| && Earlier(x, sorted[j - 1])
    ensures Insert(Earlier, sorted[..j], x) + sorted[j..] == Insert(Earlier, sorted[..j - 1], x) + sorted[j - 1..]
  {
    assert sorted[..j][..j - 1] == sorted[..j - 1];
    assert sorted[j - 1..] == [sorted[j - 1]] + sorted[j..];
  }

  // The times of the trail: the latest ones at which any class was sampled, up to the number
  // of cells, in increasing order.
  ghost predicate LatestTimes(ss: seq<WaitSample>, times: seq<Time>) {
    && (forall i, j :: 0 <= i < j < |times| ==> times[i] < times[j])
    && (forall t :: t in times ==> HasTime(ss, t))
    && |times| <= SPARK_SAMPLES
    && (forall t :: HasTime(ss, t) && t !in times ==> |times| == SPARK_SAMPLES && t < times[0])
  }

  ghost function Loads(ss: seq<WaitSample>, times: seq<Time>): seq<real> {
    seq(|times|, i requires 0 <= i < |times| => LoadAt(ss, times[i]))
  }

  // The load at each of the latest times.
  ghost predicate IsTrail(ss: seq<WaitSample>, out: seq<real>) {
    exists times: seq<Time> :: LatestTimes(ss, times) && out == Loads(ss, times)
  }

  // The samples in the window, class by class in display order.
  ghost function Stream(waits: WaitSeries, now: Time, window: Duration, classes: seq<WaitClass>): seq<WaitSample>
    requires waits.Valid()
    reads waits, waits.Repr
  {
    if classes == [] then []
    else
      var n := |classes| - 1;
      var ring := waits.sinks[classes[n]].ring;
      Stream(waits, now, window, classes[..n]) +
      InWindow(waits.sinks[classes[n]].timeOf, now, window, Newest(ring.buf.Length, ring.log))
  }

  method ComputeTrail(waits: WaitSeries, now: Time, window: Duration) returns (out: seq<real>)
    requires waits.Valid()
    ensures IsTrail(Stream(waits, now, window, ALL_WAIT_CLASSES), out)
  {
    hide Aas, Binned, InWindow, IsTrail, Stream, WaitSeries.Valid, RingBuffer.Valid;
    var bins: seq<Bin>, idx: map<Time, nat> := [], map[];
    ghost var ss: seq<WaitSample> := [];
    NothingBinned();
    NoStream(waits, now, window);
    for i := 0 to |ALL_WAIT_CLASSES|
      invariant ss == Stream(waits, now, window, ALL_WAIT_CLASSES[..i])
      invariant Binned(ss, bins, idx)
    {
      var cls := ALL_WAIT_CLASSES[i];
      StreamGrows(waits, now, window, i);
      SinkIsValid(waits, cls);
      var got := waits.sinks[cls].Range(now, window);
      bins, idx := AddSamples(ss, got, bins, idx);
      ss := ss + got;
    }
    assert ALL_WAIT_CLASSES[..|ALL_WAIT_CLASSES|] == ALL_WAIT_CLASSES;
    out := CutTrail(ss, bins, idx);
  }

  lemma SinkIsValid(waits: WaitSeries, cls: WaitClass)
    requires waits.Valid()
    ensures cls in waits.sinks && waits.sinks[cls].Valid()
  {
    assert waits.Holds(cls);
  }

  lemma {:induction false} NoStream(waits: WaitSeries, now: Time, window: Duration)
    requires waits.Valid()
    ensures Stream(waits, now, window, ALL_WAIT_CLASSES[..0]) == []
  {
  }

  lemma {:induction false} StreamGrows(waits: WaitSeries, now: Time, window: Duration, i: nat)
    requires waits.Valid() && i < |ALL_WAIT_CLASSES|
    ensures var sink := waits.sinks[ALL_WAIT_CLASSES[i]];
            Stream(waits, now, window, ALL_WAIT_CLASSES[..i + 1]) ==
            Stream(waits, now, window, ALL_WAIT_CLASSES[..i]) +
            InWindow(sink.timeOf, now, window, Newest(sink.ring.buf.Length, sink.ring.log))
  {
    hide InWindow, WaitSeries.Holds, Newest;
    assert ALL_WAIT_CLASSES[..i + 1][..i] == ALL_WAIT_CLASSES[..i];
  }

  lemma NothingBinned()
    ensures Binned([], [], map[])
  {
  }

  // Sorting and cutting the bins.
  method CutTrail(ghost ss: seq<WaitSample>, bins: seq<Bin>, ghost idx: map<Time, nat>) returns (out: seq<real>)
    requires Binned(ss, bins, idx)
    ensures IsTrail(ss, out)
  {
    var a := new Bin[|bins|](i requires 0 <= i < |bins| => bins[i]);
    assert a[..] == bins;
    SortBins(a);
    SortedBins(ss, bins, idx, a[..]);
    out := SuffixLoads(ss, a[..]);
  }

  method SuffixLoads(ghost ss: seq<WaitSample>, bins: seq<Bin>) returns (out: seq<real>)
    requires AllBins(ss, bins)
    ensures IsTrail(ss, out)
  {
    hide AllBins, LatestTimes, LoadAt;
    var from := 0;
    if |bins| > SPARK_SAMPLES {
      from := |bins| - SPARK_SAMPLES;
    }
    out := [];
    for i := from to |bins|
      invariant out == seq(i - from, k requires 0 <= k < i - from => bins[from + k].aas)
    {
      out := out + [bins[i].aas];
    }
    ghost var times := seq(|bins| - from, k requires 0 <= k < |bins| - from => bins[from + k].t);
    LatestOf(ss, bins, from, times);
  }

  ghost predicate AllBins(ss: seq<WaitSample>, sorted: seq<Bin>) {
    && (forall i, j :: 0 <= i < j < |sorted| ==> sorted[i].t < sorted[j].t)
    && (forall t :: HasTime(ss, t) <==> exists i :: 0 <= i < |sorted| && sorted[i].t == t)
    && (forall i :: 0 <= i < |sorted| ==> sorted[i].aas == LoadAt(ss, sorted[i].t))
  }

  // Sorting neither loses nor repeats a bin, so the times increase strictly.
  lemma {:induction false} SortedBins(ss: seq<WaitSample>, bins: seq<Bin>, idx: map<Time, nat>, sorted: seq<Bin>)
    requires Binned(ss, bins, idx) && sorted == StableSort(Earlier, bins)
    ensures AllBins(ss, sorted)
  {
    EarlierIsWeak();
    StableSortSorts(Earlier, bins);
    hide StableSort;
    forall i | 0 <= i < |sorted| ensures sorted[i].aas == LoadAt(ss, sorted[i].t) && HasTime(ss, sorted[i].t) {
      SameElements(sorted, bins, sorted[i]);
    }
    forall i, j | 0 <= i < j < |sorted| ensures sorted[i].t < sorted[j].t {
      assert !Earlier(sorted[j], sorted[i]);
      SameElements(sorted, bins, sorted[i]);
      SameElements(sorted, bins, sorted[j]);
      if sorted[i] == sorted[j] {
        TwoPlaces(sorted, i, j);
        BinsDiffer(ss, bins, idx, sorted[i]);
        assert false;
      }
    }
    forall t | HasTime(ss, t) ensures exists i :: 0 <= i < |sorted| && sorted[i].t == t {
      SameElements(sorted, bins, bins[idx[t]]);
    }
  }

  lemma EarlierIsWeak()
    ensures StrictWeak(Earlier)
  {
  }

  lemma BinsDiffer(ss: seq<WaitSample>, bins: seq<Bin>, idx: map<Time, nat>, b: Bin)
    requires Binned(ss, bins, idx)
    ensures multiset(bins)[b] <= 1
  {
    if b in bins {
      var k := idx[b.t];
      assert bins == bins[..k] + [b] + bins[k + 1..];
      assert b !in bins[..k] && b !in bins[k + 1..];
    }
  }

  lemma LatestOf(ss: seq<WaitSample>, sorted: seq<Bin>, from: nat, times: seq<Time>)
    requires AllBins(ss, sorted) && from == (if |sorted| > SPARK_SAMPLES then |sorted| - SPARK_SAMPLES else 0)
    requires times == seq(|sorted| - from, k requires 0 <= k < |sorted| - from => sorted[from + k].t)
    ensures LatestTimes(ss, times)
    ensures Loads(ss, times) == seq(|sorted| - from, k requires 0 <= k < |sorted| - from => sorted[from + k].aas)
  {
    LatestAre(ss, sorted, from, times);
  }

  lemma LatestAre(ss: seq<WaitSample>, sorted: seq<Bin>, from: nat, times: seq<Time>)
    requires AllBins(ss, sorted) && from == (if |sorted| > SPARK_SAMPLES then |sorted| - SPARK_SAMPLES else 0)
    requires |times| == |sorted| - from && forall k :: 0 <= k < |times| ==> times[k] == sorted[from + k].t
    ensures LatestTimes(ss, times)
  {
    forall i | from <= i < |sorted| ensures sorted[i].t in times {
      assert times[i - from] == sorted[i].t;
    }
    forall t | HasTime(ss, t) && t !in times ensures |times| == SPARK_SAMPLES && t < times[0] {
      var i :| 0 <= i < |sorted| && sorted[i].t == t;
      assert i < from;
    }
  }

  // Binning loses no load: over all times, whatever their number, the bins carry the load of
  // every sample of every class.

  function Identity(r: real): real {
    r
  }

  lemma {:induction false} BinsKeepLoad(ss: seq<WaitSample>, times: seq<Time>)
    requires forall i, j :: 0 <= i < j < |times| ==> times[i] < times[j]
    requires forall t :: HasTime(ss, t) ==> t in times
    ensures RealSum(Identity, Loads(ss, times)) == RealSum(Aas, ss)
  {
    hide Aas;
    if ss == [] {
      SumZero(Loads(ss, times));
    } else {
      var init, s := ss[..|ss| - 1], ss[|ss| - 1];
      assert ss == init + [s];
      TimesGrow(init, s);
      BinsKeepLoad(init, times);
      assert HasTime(ss, s.time) && s.time in times;
      var k :| 0 <= k < |times| && times[k] == s.time;
      SumRaised(Loads(init, times), Loads(ss, times), k, Aas(s));
    }
  }

  lemma {:induction false} SumZero(rs: seq<real>)
    requires forall i :: 0 <= i < |rs| ==> rs[i] == 0.0
    ensures RealSum(Identity, rs) == 0.0
  {
    if rs == [] {
    } else {
      SumZero(rs[..|rs| - 1]);
    }
  }

  lemma {:induction false} SumRaised(a: seq<real>, b: seq<real>, k: nat, x: real)
    requires |a| == |b| && k < |a| && b[k] == a[k] + x
    requires forall i :: 0 <= i < |a| && i != k ==> b[i] == a[i]
    ensures RealSum(Identity, b) == RealSum(Identity, a) + x
  {
    var n := |a| - 1;
    if k == n {
      assert a[..n] == b[..n];
    } else {
      SumRaised(a[..n], b[..n], k, x);
    }
  }

  // The last n cells, padded on the left with zeros.
  method TruncateTrail(trail: seq<real>, n: int) returns (out: seq<real>)
    ensures n <= 0 ==> out == []
    ensures n > 0 ==> |out| == n && forall i :: 0 <= i < n ==>
              out[i] == if i < n - |trail| then 0.0 else trail[|trail| - n + i]
  {
    if n <= 0 {
      return [];
    }
    if |trail| >= n {
      return trail[|trail| - n..];
    }
    var cells := new real[n](_ => 0.0);
    for i := 0 to |trail|
      invariant forall k :: 0 <= k < n ==>
                  cells[k] == if n - |trail| <= k < n - |trail| + i then trail[|trail| - n + k] else 0.0
    {
      cells[n - |trail| + i] := trail[i];
    }
    out := cells[..];
  }
}
