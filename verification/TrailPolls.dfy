/** When the sparkline has one cell per poll. Timed classes carry the time of the wait poll and
    CPU the time of a flush with a ticker of its own, so a poll can take two cells. */
module TrailPolls {
  import opened Sorting
  import opened Sums
  import opened Rings
  import opened WaitModel
  import opened Trails

  // What each poll interval left in the series, its CPU flush included.
  type Polls = seq<seq<WaitSample>>

  function Flat(polls: Polls): seq<WaitSample> {
    if polls == [] then [] else Flat(polls[..|polls| - 1]) + polls[|polls| - 1]
  }

  function Times(ss: seq<WaitSample>): set<Time> {
    set i | 0 <= i < |ss| :: ss[i].time
  }

  // Every sample of a poll is earlier than every sample of the next.
  ghost predicate InOrderOfTime(polls: Polls) {
    forall i, j, t, u :: 0 <= i < j < |polls| && t in Times(polls[i]) && u in Times(polls[j]) ==> t < u
  }

  // The samples of a poll share one time.
  predicate OneTime(poll: seq<WaitSample>) {
    |Times(poll)| <= 1
  }

  // The polls that left any sample.
  function Busy(polls: Polls): nat {
    if polls == [] then 0 else Busy(polls[..|polls| - 1]) + if polls[|polls| - 1] == [] then 0 else 1
  }

  lemma TimesConcat(ss: seq<WaitSample>, tt: seq<WaitSample>)
    ensures Times(ss + tt) == Times(ss) + Times(tt)
  {
    forall t ensures t in Times(ss + tt) <==> t in Times(ss) || t in Times(tt) {
      if t in Times(ss) {
        var i :| 0 <= i < |ss| && ss[i].time == t;
        assert (ss + tt)[i] == ss[i];
      }
      if t in Times(tt) {
        var i :| 0 <= i < |tt| && tt[i].time == t;
        assert (ss + tt)[|ss| + i] == tt[i];
      }
    }
  }

  lemma {:induction false} TimesOfFlat(polls: Polls, t: Time)
    ensures t in Times(Flat(polls)) <==> exists k :: 0 <= k < |polls| && t in Times(polls[k])
  {
    if polls == [] {
    } else {
      var n := |polls| - 1;
      TimesOfFlat(polls[..n], t);
      TimesConcat(Flat(polls[..n]), polls[n]);
      hide Times, Flat;
      assert forall k :: 0 <= k < n ==> polls[..n][k] == polls[k];
    }
  }

  lemma Disjoint(polls: Polls)
    requires polls != [] && InOrderOfTime(polls)
    ensures Times(Flat(polls[..|polls| - 1])) !! Times(polls[|polls| - 1]) && InOrderOfTime(polls[..|polls| - 1])
  {
    hide Times, Flat;
    var n := |polls| - 1;
    forall t | t in Times(Flat(polls[..n])) ensures t !in Times(polls[n]) {
      TimesOfFlat(polls[..n], t);
    }
  }

  lemma SomeTime(poll: seq<WaitSample>)
    ensures poll != [] ==> |Times(poll)| >= 1
    ensures poll == [] ==> |Times(poll)| == 0
  {
    if poll != [] {
      assert poll[0].time in Times(poll);
    }
  }

  // There are as many distinct times as polls with samples exactly if no poll has two.
  lemma {:induction false} OneCellPerPollIff(polls: Polls)
    requires InOrderOfTime(polls)
    ensures |Times(Flat(polls))| >= Busy(polls)
    ensures |Times(Flat(polls))| == Busy(polls) <==> forall k :: 0 <= k < |polls| ==> OneTime(polls[k])
  {
    if polls == [] {
    } else {
      var n := |polls| - 1;
      Disjoint(polls);
      OneCellPerPollIff(polls[..n]);
      TimesConcat(Flat(polls[..n]), polls[n]);
      SomeTime(polls[n]);
      hide Times, InOrderOfTime;
      assert |Times(Flat(polls))| == |Times(Flat(polls[..n]))| + |Times(polls[n])|;
      assert forall k :: 0 <= k < n ==> polls[..n][k] == polls[k];
      assert (forall k :: 0 <= k < |polls| ==> OneTime(polls[k])) <==>
             (forall k :: 0 <= k < n ==> OneTime(polls[..n][k])) && OneTime(polls[n]);
    }
  }

  // The trail has one cell for each distinct time, up to its maximum.
  lemma {:induction false} CellsAreTimes(ss: seq<WaitSample>, out: seq<real>)
    requires IsTrail(ss, out)
    ensures |out| == if |Times(ss)| <= 60 then |Times(ss)| else 60
  {
    var times: seq<Time> :| LatestTimes(ss, times) && out == Loads(ss, times);
    hide Loads;
    forall t ensures HasTime(ss, t) <==> t in Times(ss) {}
    Cardinality(times);
    var shown := set i | 0 <= i < |times| :: times[i];
    assert shown <= Times(ss);
    if |times| < SPARK_SAMPLES {
      assert shown == Times(ss);
    } else {
      Subset(shown, Times(ss));
    }
  }

  lemma Subset(a: set<Time>, b: set<Time>)
    requires a <= b
    ensures |a| <= |b|
  {
    assert b == a + (b - a);
  }

  lemma {:induction false} Cardinality(times: seq<Time>)
    requires forall i, j :: 0 <= i < j < |times| ==> times[i] < times[j]
    ensures |set i | 0 <= i < |times| :: times[i]| == |times|
  {
    if times == [] {
    } else {
      var n := |times| - 1;
      Cardinality(times[..n]);
      var all, init := set i | 0 <= i < |times| :: times[i], set i | 0 <= i < n :: times[..n][i];
      assert all == init + {times[n]};
    }
  }

  // The latest times are a suffix of all times

  ghost predicate Increasing(times: seq<Time>) {
    forall i, j :: 0 <= i < j < |times| ==> times[i] < times[j]
  }

  lemma {:induction false} IncreasingIsUnique(a: seq<Time>, b: seq<Time>)
    requires Increasing(a) && Increasing(b) && forall t :: t in a <==> t in b
    ensures a == b
  {
    if a == [] {
      HasElement(b);
    } else {
      assert a[0] in a && b != [];
      hide Increasing;
      var m, n := |a| - 1, |b| - 1;
      assert a[m] in b && b[n] in a;
      assert a[m] == b[n];
      forall t ensures t in a[..m] <==> t in b[..n] {
        assert t in a[..m] <==> t in a && t != a[m];
        assert t in b[..n] <==> t in b && t != b[n];
      }
      IncreasingIsUnique(a[..m], b[..n]);
      assert a == a[..m] + [a[m]] && b == b[..n] + [b[n]];
    }
  }

  lemma HasElement(s: seq<Time>)
    ensures s != [] ==> s[0] in s
  {
  }

  lemma {:induction false} Contained(a: seq<Time>, b: seq<Time>)
    requires Increasing(a) && Increasing(b) && forall t :: t in a ==> t in b
    ensures |a| <= |b|
    ensures |a| == |b| ==> a == b
  {
    Cardinality(a);
    Cardinality(b);
    var x, y := set i | 0 <= i < |a| :: a[i], set i | 0 <= i < |b| :: b[i];
    forall t | t in x ensures t in y {
      assert t in a && t in b;
    }
    Subset(x, y);
    if |a| == |b| {
      assert y == x + (y - x);
      assert |y - x| == 0;
      forall t | t in b ensures t in a {
        assert t in y;
      }
      IncreasingIsUnique(a, b);
    }
  }

  lemma {:induction false} LatestAreSuffix(ss: seq<WaitSample>, times: seq<Time>, all: seq<Time>)
    requires LatestTimes(ss, times) && Increasing(all) && forall t :: HasTime(ss, t) <==> t in all
    ensures times == Newest(SPARK_SAMPLES, all)
  {
    hide HasTime;
    Contained(times, all);
    if |times| < SPARK_SAMPLES {
      Contained(all, times);
    } else {
      var c := |all| - SPARK_SAMPLES;
      forall k | c <= k < |all| ensures all[k] in times {
        if all[k] !in times {
          forall t | t in times ensures t in all[c + 1..] {
            var i :| 0 <= i < |all| && all[i] == t;
            assert t >= times[0] > all[k];
            assert i > c;
            assert all[c + 1..][i - (c + 1)] == t;
          }
          Contained(times, all[c + 1..]);
          assert false;
        }
      }
      Contained(all[c..], times);
    }
  }

  // With one time to a poll, a cell holds the load of one poll

  function PollTimes(polls: Polls): seq<Time> {
    if polls == [] then []
    else
      var n := |polls| - 1;
      PollTimes(polls[..n]) + if polls[n] == [] then [] else [polls[n][0].time]
  }

  function PollLoads(polls: Polls): seq<real> {
    if polls == [] then []
    else
      var n := |polls| - 1;
      PollLoads(polls[..n]) + if polls[n] == [] then [] else [RealSum(Aas, polls[n])]
  }

  lemma {:induction false} LoadConcat(ss: seq<WaitSample>, tt: seq<WaitSample>, t: Time)
    ensures LoadAt(ss + tt, t) == LoadAt(ss, t) + LoadAt(tt, t)
  {
    hide Aas;
    if tt == [] {
      assert ss + tt == ss;
    } else {
      var n := |tt| - 1;
      LoadConcat(ss, tt[..n], t);
      assert (ss + tt)[..|ss + tt| - 1] == ss + tt[..n];
    }
  }

  // The order in which the classes are walked does not matter.
  lemma {:induction false} SameLoad(ss: seq<WaitSample>, tt: seq<WaitSample>, t: Time)
    requires multiset(ss) == multiset(tt)
    ensures LoadAt(ss, t) == LoadAt(tt, t)
  {
    hide Aas;
    if ss == [] {
      assert |multiset(tt)| == 0;
    } else {
      var n := |ss| - 1;
      var s := ss[n];
      assert s in multiset(tt);
      var i :| 0 <= i < |tt| && tt[i] == s;
      WithoutOne(ss, n, t);
      WithoutOne(tt, i, t);
      assert ss[..n] + ss[n + 1..] == ss[..n];
      SameLoad(ss[..n], tt[..i] + tt[i + 1..], t);
    }
  }

  lemma {:induction false} WithoutOne(ss: seq<WaitSample>, i: nat, t: Time)
    requires i < |ss|
    ensures multiset(ss[..i] + ss[i + 1..]) == multiset(ss) - multiset{ss[i]}
    ensures LoadAt(ss, t) == LoadAt(ss[..i] + ss[i + 1..], t) + LoadAt([ss[i]], t)
  {
    hide LoadAt;
    assert ss == ss[..i] + [ss[i]] + ss[i + 1..];
    LoadConcat(ss[..i] + [ss[i]], ss[i + 1..], t);
    LoadConcat(ss[..i], [ss[i]], t);
    LoadConcat(ss[..i], ss[i + 1..], t);
  }

  lemma {:induction false} WholeLoad(poll: seq<WaitSample>, t: Time)
    requires forall i :: 0 <= i < |poll| ==> poll[i].time == t
    ensures LoadAt(poll, t) == RealSum(Aas, poll)
  {
    hide Aas;
    if poll == [] {
    } else {
      WholeLoad(poll[..|poll| - 1], t);
    }
  }

  lemma SharedTime(poll: seq<WaitSample>)
    requires OneTime(poll) && poll != []
    ensures Times(poll) == {poll[0].time} && forall i :: 0 <= i < |poll| ==> poll[i].time == poll[0].time
  {
    var t := poll[0].time;
    assert t in Times(poll);
    assert |Times(poll) - {t}| == 0;
    forall i | 0 <= i < |poll| ensures poll[i].time == t {
      assert poll[i].time in Times(poll);
    }
  }

  lemma TimesAreHad(ss: seq<WaitSample>, t: Time)
    ensures HasTime(ss, t) <==> t in Times(ss)
  {
  }

  ghost predicate PerPoll(polls: Polls, times: seq<Time>, loads: seq<real>) {
    && Increasing(times) && |times| == |loads| == Busy(polls)
    && (forall t :: t in times <==> t in Times(Flat(polls)))
    && (forall k :: 0 <= k < |times| ==> LoadAt(Flat(polls), times[k]) == loads[k])
  }

  lemma {:induction false} PollsGiveCells(polls: Polls)
    requires InOrderOfTime(polls) && forall k :: 0 <= k < |polls| ==> OneTime(polls[k])
    ensures PerPoll(polls, PollTimes(polls), PollLoads(polls))
  {
    hide OneTime;
    if polls == [] {
    } else {
      var n := |polls| - 1;
      Disjoint(polls);
      assert forall k :: 0 <= k < n ==> polls[..n][k] == polls[k];
      PollsGiveCells(polls[..n]);
      if polls[n] == [] {
        assert Flat(polls) == Flat(polls[..n]);
      } else {
        SharedTime(polls[n]);
        LaterPoll(polls);
        AppendPoll(polls, PollTimes(polls[..n]), PollLoads(polls[..n]));
      }
    }
  }

  ghost predicate AllBefore(times: set<Time>, t: Time) {
    forall u :: u in times ==> u < t
  }

  lemma LaterPoll(polls: Polls)
    requires InOrderOfTime(polls) && polls != [] && polls[|polls| - 1] != []
    ensures AllBefore(Times(Flat(polls[..|polls| - 1])), polls[|polls| - 1][0].time)
  {
    var n := |polls| - 1;
    assert polls[n][0].time in Times(polls[n]);
    hide Times, Flat;
    forall t | t in Times(Flat(polls[..n])) ensures t < polls[n][0].time {
      TimesOfFlat(polls[..n], t);
    }
  }

  lemma AppendPoll(polls: Polls, times: seq<Time>, loads: seq<real>)
    requires polls != [] && polls[|polls| - 1] != [] && PerPoll(polls[..|polls| - 1], times, loads)
    requires var n := |polls| - 1;
             && AllBefore(Times(Flat(polls[..n])), polls[n][0].time)
             && Times(polls[n]) == {polls[n][0].time}
             && forall i :: 0 <= i < |polls[n]| ==> polls[n][i].time == polls[n][0].time
    ensures var poll := polls[|polls| - 1];
            PerPoll(polls, times + [poll[0].time], loads + [RealSum(Aas, poll)])
  {
    var n := |polls| - 1;
    var init, poll, t := Flat(polls[..n]), polls[n], polls[n][0].time;
    assert Flat(polls) == init + poll;
    TimesConcat(init, poll);
    WholeLoad(poll, t);
    NoLoad(init, t);
    TimesAreHad(init, t);
    BusyGrows(polls);
    hide Times, Flat, Busy, Aas, RealSum, LoadAt;
    var all, more := times + [t], loads + [RealSum(Aas, poll)];
    forall k | 0 <= k < |all| ensures LoadAt(init + poll, all[k]) == more[k] {
      LoadConcat(init, poll, all[k]);
      if k < |times| {
        assert times[k] in times;
        NoLoad(poll, times[k]);
        TimesAreHad(poll, times[k]);
      }
    }
    forall i, j | 0 <= i < j < |all| ensures all[i] < all[j] {
      if j == |times| {
        assert times[i] in times;
      }
    }
    forall u ensures u in all <==> u in times || u == t {
      assert all[|times|] == t;
    }
  }

  lemma {:induction false} BusyGrows(polls: Polls)
    requires polls != [] && polls[|polls| - 1] != []
    ensures Busy(polls) == Busy(polls[..|polls| - 1]) + 1
  {
  }

  // The sparkline of samples that came from these polls, in whatever order it walks them: it
  // has as many cells to choose from as polls with samples exactly if no poll has two times,
  // and then it shows the loads of the latest such polls.
  lemma {:induction false} TrailIsPerPoll(ss: seq<WaitSample>, polls: Polls, out: seq<real>)
    requires multiset(ss) == multiset(Flat(polls)) && InOrderOfTime(polls) && IsTrail(ss, out)
    ensures |out| == if |Times(ss)| <= 60 then |Times(ss)| else 60
    ensures |Times(ss)| == Busy(polls) <==> forall k :: 0 <= k < |polls| ==> OneTime(polls[k])
    ensures |Times(ss)| == Busy(polls) ==> out == Newest(60, PollLoads(polls))
  {
    hide OneTime, Aas;
    SameTimes(ss, Flat(polls));
    OneCellPerPollIff(polls);
    CellsAreTimes(ss, out);
    hide Times, Flat, Busy, InOrderOfTime, IsTrail, PollLoads;
    if |Times(ss)| == Busy(polls) {
      PollsGiveCells(polls);
      CellsArePolls(ss, polls, PollTimes(polls), PollLoads(polls), out);
    }
  }

  lemma {:induction false} CellsArePolls(ss: seq<WaitSample>, polls: Polls, all: seq<Time>, loads: seq<real>,
      out: seq<real>)
    requires multiset(ss) == multiset(Flat(polls)) && PerPoll(polls, all, loads) && IsTrail(ss, out)
    ensures out == Newest(SPARK_SAMPLES, loads)
  {
    SameTimes(ss, Flat(polls));
    hide Times, Flat, Busy, LoadAt, LatestTimes, HasTime, Increasing;
    var times: seq<Time> :| LatestTimes(ss, times) && out == Loads(ss, times);
    forall t ensures HasTime(ss, t) <==> t in all {
      TimesAreHad(ss, t);
    }
    LatestAreSuffix(ss, times, all);
    forall k | 0 <= k < |all| ensures LoadAt(ss, all[k]) == loads[k] {
      SameLoad(ss, Flat(polls), all[k]);
    }
  }

  lemma SameTimes(ss: seq<WaitSample>, tt: seq<WaitSample>)
    requires multiset(ss) == multiset(tt)
    ensures Times(ss) == Times(tt)
  {
    forall s ensures s in ss <==> s in tt {
      SameElements(ss, tt, s);
    }
    forall t ensures t in Times(ss) <==> t in Times(tt) {
      if t in Times(ss) {
        var i :| 0 <= i < |ss| && ss[i].time == t;
        assert ss[i] in tt;
      }
      if t in Times(tt) {
        var i :| 0 <= i < |tt| && tt[i].time == t;
        assert tt[i] in ss;
      }
    }
  }

  // One poll of a wait and a CPU sample: flushed a moment after the poll, it takes two cells.
  lemma OnePollTwoCells(wait: WaitSample, cpu: WaitSample, out: seq<real>)
    requires wait.cls == IO && cpu.cls == CPU && wait.time < cpu.time && IsTrail([cpu, wait], out)
    ensures Busy([[wait, cpu]]) == 1 && |out| == 2
  {
    CellsAreTimes([cpu, wait], out);
    var ss := [cpu, wait];
    assert ss[0].time in Times(ss) && ss[1].time in Times(ss);
    assert Times(ss) == {wait.time, cpu.time};
    assert [[wait, cpu]][..0] == [];
    assert Busy([[wait, cpu]][..0]) == 0;
  }
}
