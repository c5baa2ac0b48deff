/** Load by user, host or schema: how many sessions of each group were executing, on average,
    over the ticks of a window. */
module GroupLoads {
  import opened Sorting
  import opened Sums
  import opened Strings
  import opened Rings

  datatype SessionSample = SessionSample(time: Time, user: string, host: string, schema: string, executing: bool)

  datatype GroupKey = User | Host | Schema

  datatype GroupLoad = GroupLoad(group: string, aas: real, observations: nat)

  const HOUR: Duration := 3_600_000_000_000

  function GroupValue(s: SessionSample, key: GroupKey): string {
    var v := match key case Host => s.host case Schema => s.schema case User => s.user;
    if v == "" then "(unknown)" else v
  }

  // How many samples show a session of the group executing.
  function Observed(ss: seq<SessionSample>, key: GroupKey, group: string): nat {
    if ss == [] then 0
    else
      var s := ss[|ss| - 1];
      Observed(ss[..|ss| - 1], key, group) + if s.executing && GroupValue(s, key) == group then 1 else 0
  }

  function Executing(ss: seq<SessionSample>): nat {
    Count((s: SessionSample) => s.executing, ss)
  }

  // The distinct tick times, those of idle samples included.
  function Ticks(ss: seq<SessionSample>): set<Time> {
    set i | 0 <= i < |ss| :: ss[i].time
  }

  // Highest load first, ties by name.
  predicate Above(a: GroupLoad, b: GroupLoad) {
    if a.aas != b.aas then a.aas > b.aas else Less(a.group, b.group)
  }

  ghost predicate Measured(ss: seq<SessionSample>, key: GroupKey, l: GroupLoad) {
    && l.observations == Observed(ss, key, l.group) > 0
    && |Ticks(ss)| > 0 && l.aas == l.observations as real / |Ticks(ss)| as real
  }

  // The report: every group that was seen executing, once, with its measured load, in order.
  ghost predicate IsReport(ss: seq<SessionSample>, key: GroupKey, out: seq<GroupLoad>) {
    && (forall i :: 0 <= i < |out| ==> Measured(ss, key, out[i]))
    && (forall i, j :: 0 <= i < j < |out| ==> out[i].group != out[j].group)
    && (forall g :: Observed(ss, key, g) > 0 ==> exists i :: 0 <= i < |out| && out[i].group == g)
    && Sorted(Above, out)
  }

  method LoadByGroup(sessions: RingSink?<SessionSample>, now: Time, window: Duration, key: GroupKey)
      returns (out: seq<GroupLoad>)
    requires sessions != null ==> sessions.Valid()
    ensures sessions == null ==> out == []
    ensures sessions != null ==>
              IsReport(InWindow(sessions.timeOf, now, if window <= 0 then 3_600_000_000_000 else window,
                                Newest(sessions.ring.buf.Length, sessions.ring.log)), key, out)
  {
    var w := window;
    if w <= 0 {
      w := HOUR;
    }
    if sessions == null {
      return [];
    }
    var ss := sessions.Range(now, w);
    out := Report(ss, key);
  }

  method Report(ss: seq<SessionSample>, key: GroupKey) returns (out: seq<GroupLoad>)
    ensures IsReport(ss, key, out)
  {
    var obs, ticks := Tally(ss, key);
    out := [];
    var rest := obs.Keys;
    while rest != {}
      invariant rest <= obs.Keys
      invariant forall i :: 0 <= i < |out| ==> Measured(ss, key, out[i]) && out[i].group in obs && out[i].group !in rest
      invariant forall i, j :: 0 <= i < j < |out| ==> out[i].group != out[j].group
      invariant forall g :: g in obs && g !in rest ==> exists i :: 0 <= i < |out| && out[i].group == g
      decreases rest
    {
      var g :| g in rest;
      rest := rest - {g};
      var aas := 0.0;
      if |ticks| > 0 {
        aas := obs[g] as real / |ticks| as real;
      }
      ObservedTicks(ss, key, g);
      ghost var before := out;
      out := out + [GroupLoad(g, aas, obs[g])];
      assert out[|before|].group == g;
      assert forall i :: 0 <= i < |before| ==> out[i] == before[i];
    }
    ghost var collected := out;
    out := StableSort(Above, out);
    SortKeepsReport(ss, key, collected);
  }

  method Tally(ss: seq<SessionSample>, key: GroupKey) returns (obs: map<string, nat>, ticks: set<Time>)
    ensures ticks == Ticks(ss)
    ensures forall g :: (g in obs <==> Observed(ss, key, g) > 0) && (g in obs ==> obs[g] == Observed(ss, key, g))
  {
    hide Observed, Ticks, GroupValue;
    obs, ticks := map[], {};
    NoSamples(key);
    for i := 0 to |ss|
      invariant ticks == Ticks(ss[..i])
      invariant forall g ::
                  && (g in obs <==> Observed(ss[..i], key, g) > 0)
                  && (g in obs ==> obs[g] == Observed(ss[..i], key, g))
    {
      var s := ss[i];
      OneSample(ss, i, key);
      ticks := ticks + {s.time};
      if !s.executing {
        continue;
      }
      var g := GroupValue(s, key);
      obs := obs[g := (if g in obs then obs[g] else 0) + 1];
    }
    assert ss[..|ss|] == ss;
  }

  lemma NoSamples(key: GroupKey)
    ensures Ticks([]) == {} && forall g :: Observed([], key, g) == 0
  {
  }

  lemma {:induction false} OneSample(ss: seq<SessionSample>, i: nat, key: GroupKey)
    requires i < |ss|
    ensures Ticks(ss[..i + 1]) == Ticks(ss[..i]) + {ss[i].time}
    ensures forall g :: Observed(ss[..i + 1], key, g) ==
                        Observed(ss[..i], key, g) + if ss[i].executing && GroupValue(ss[i], key) == g then 1 else 0
  {
    hide GroupValue;
    assert ss[..i + 1][..i] == ss[..i];
    assert ss[..i + 1] == ss[..i] + [ss[i]];
  }

  lemma {:induction false} ObservedTicks(ss: seq<SessionSample>, key: GroupKey, g: string)
    ensures Observed(ss, key, g) > 0 ==> |Ticks(ss)| > 0
  {
    if ss != [] {
      assert ss[0].time in Ticks(ss);
    }
  }

  lemma AboveIsWeak()
    ensures StrictWeak(Above)
  {
    LessIsTotal();
  }

  lemma {:induction false} SortKeepsReport(ss: seq<SessionSample>, key: GroupKey, collected: seq<GroupLoad>)
    requires forall i :: 0 <= i < |collected| ==> Measured(ss, key, collected[i])
    requires forall i, j :: 0 <= i < j < |collected| ==> collected[i].group != collected[j].group
    requires forall g :: Observed(ss, key, g) > 0 ==> exists i :: 0 <= i < |collected| && collected[i].group == g
    ensures IsReport(ss, key, StableSort(Above, collected))
  {
    hide Measured, Less, Observed;
    AboveIsWeak();
    StableSortSorts(Above, collected);
    var out := StableSort(Above, collected);
    hide StableSort, Above;
    forall i | 0 <= i < |out| ensures out[i] in collected {
      assert out[i] in multiset(out);
    }
    forall i, j | 0 <= i < j < |out| ensures out[i].group != out[j].group {
      OnceEach(collected, out, i, j);
    }
    forall g | Observed(ss, key, g) > 0 ensures exists i :: 0 <= i < |out| && out[i].group == g {
      var k :| 0 <= k < |collected| && collected[k].group == g;
      assert collected[k] in multiset(collected);
      assert collected[k] in out;
    }
  }

  // An arrangement of elements with distinct groups has distinct groups.
  lemma OnceEach(s: seq<GroupLoad>, t: seq<GroupLoad>, i: nat, j: nat)
    requires multiset(s) == multiset(t) && i < j < |t|
    requires forall k, l :: 0 <= k < l < |s| ==> s[k].group != s[l].group
    ensures t[i].group != t[j].group
  {
    SameElements(s, t, t[i]);
    SameElements(s, t, t[j]);
    var a :| 0 <= a < |s| && s[a] == t[i];
    if t[i] == t[j] {
      TwoPlaces(t, i, j);
      OnlyPlace(s, a);
      assert false;
    }
  }

  // What a line of the report says: how many executing samples name the group, and how many
  // that is on average over the distinct times.
  lemma {:induction false} LoadTells(ss: seq<SessionSample>, key: GroupKey, out: seq<GroupLoad>, i: nat,
      shown: set<nat>)
    requires IsReport(ss, key, out) && i < |out|
    requires forall j: nat :: j in shown <==>
               && j < |ss| && ss[j].executing
               && var v := (match key case User => ss[j].user case Host => ss[j].host case Schema => ss[j].schema);
                  out[i].group == if v == "" then "(unknown)" else v
    ensures var times := set j | 0 <= j < |ss| :: ss[j].time;
            && out[i].observations == |shown| > 0 && |times| > 0
            && out[i].aas == |shown| as real / |times| as real
  {
    assert Measured(ss, key, out[i]);
    hide IsReport, Observed;
    forall j: nat ensures j in shown <==> j < |ss| && ss[j].executing && GroupValue(ss[j], key) == out[i].group {
    }
    ObservedIsSize(ss, key, out[i].group, shown);
  }

  lemma {:induction false} ObservedIsSize(ss: seq<SessionSample>, key: GroupKey, g: string, shown: set<nat>)
    requires forall j: nat :: j in shown <==> j < |ss| && ss[j].executing && GroupValue(ss[j], key) == g
    ensures Observed(ss, key, g) == |shown|
  {
    hide GroupValue;
    if ss == [] {
      assert shown == {};
    } else {
      var n := |ss| - 1;
      ObservedIsSize(ss[..n], key, g, shown - {n});
      assert n in shown ==> shown == shown - {n} + {n};
    }
  }

  // Every executing sample's group has a line, and the lines stand by load and then by name.
  lemma EveryGroupIsListed(ss: seq<SessionSample>, key: GroupKey, out: seq<GroupLoad>, j: nat)
    requires IsReport(ss, key, out) && j < |ss| && ss[j].executing
    ensures var v := (match key case User => ss[j].user case Host => ss[j].host case Schema => ss[j].schema);
            exists i :: 0 <= i < |out| && out[i].group == if v == "" then "(unknown)" else v
  {
    var g := GroupValue(ss[j], key);
    var shown := set k: nat | k < |ss| && ss[k].executing && GroupValue(ss[k], key) == g;
    ObservedIsSize(ss, key, g, shown);
    assert j in shown;
  }

  lemma HighestFirst(ss: seq<SessionSample>, key: GroupKey, out: seq<GroupLoad>, i: nat, j: nat)
    requires IsReport(ss, key, out) && i < j < |out|
    ensures out[i].aas > out[j].aas || (out[i].aas == out[j].aas && Less(out[i].group, out[j].group))
  {
    LessTotal(out[i].group, out[j].group);
    assert !Above(out[j], out[i]);
  }

  // The report is one fixed sequence, whatever order the groups were collected in and however
  // the sort breaks ties: there are none left to break.

  predicate AboveAll(a: GroupLoad, b: GroupLoad) {
    Above(a, b) || (a.aas == b.aas && a.group == b.group && a.observations < b.observations)
  }

  lemma ReportIsUnique(ss: seq<SessionSample>, key: GroupKey, a: seq<GroupLoad>, b: seq<GroupLoad>)
    requires IsReport(ss, key, a) && IsReport(ss, key, b)
    ensures a == b
  {
    hide Observed, Above;
    forall l ensures multiset(a)[l] == multiset(b)[l] {
      CountInReport(ss, key, a, l);
      CountInReport(ss, key, b, l);
    }
    assert multiset(a) == multiset(b);
    AboveAllIsTotal();
    SortedIsUnique(AboveAll, a, b);
  }

  lemma CountInReport(ss: seq<SessionSample>, key: GroupKey, out: seq<GroupLoad>, l: GroupLoad)
    requires IsReport(ss, key, out)
    ensures multiset(out)[l] == if Measured(ss, key, l) then 1 else 0
  {
    hide Observed, Above, Sorted, Ticks;
    if Measured(ss, key, l) {
      var i :| 0 <= i < |out| && out[i].group == l.group;
      assert Measured(ss, key, out[i]) && out[i] == l;
      OnlyPlace(out, i);
    } else {
      assert l !in out;
    }
  }

  lemma AboveAllIsTotal()
    ensures StrictTotal(AboveAll)
  {
    LessIsTotal();
  }

  // Totals reconcile: the observations of all groups are the executing samples, and the loads
  // are that count over the ticks.

  function ObservationsOf(l: GroupLoad): int {
    l.observations
  }

  function AasOf(l: GroupLoad): real {
    l.aas
  }

  function SumOver(ss: seq<SessionSample>, key: GroupKey, groups: seq<string>): nat {
    if groups == [] then 0 else SumOver(ss, key, groups[..|groups| - 1]) + Observed(ss, key, groups[|groups| - 1])
  }

  lemma {:induction false} GroupsPartition(ss: seq<SessionSample>, key: GroupKey, groups: seq<string>)
    requires forall i, j :: 0 <= i < j < |groups| ==> groups[i] != groups[j]
    requires forall g :: Observed(ss, key, g) > 0 ==> g in groups
    ensures SumOver(ss, key, groups) == Executing(ss)
  {
    if ss == [] {
      SumOfNothing(key, groups);
    } else {
      var init, s := ss[..|ss| - 1], ss[|ss| - 1];
      GroupsPartition(init, key, groups);
      if s.executing {
        assert Observed(ss, key, GroupValue(s, key)) > 0;
        OneMoreIn(ss, key, groups);
      } else {
        SameSums(ss, key, groups);
      }
    }
  }

  lemma {:induction false} SumOfNothing(key: GroupKey, groups: seq<string>)
    ensures SumOver([], key, groups) == 0
  {
    if groups == [] {
    } else {
      SumOfNothing(key, groups[..|groups| - 1]);
    }
  }

  lemma {:induction false} SameSums(ss: seq<SessionSample>, key: GroupKey, groups: seq<string>)
    requires ss != [] && (!ss[|ss| - 1].executing || GroupValue(ss[|ss| - 1], key) !in groups)
    ensures SumOver(ss, key, groups) == SumOver(ss[..|ss| - 1], key, groups)
  {
    if groups == [] {
    } else {
      SameSums(ss, key, groups[..|groups| - 1]);
    }
  }

  lemma {:induction false} OneMoreIn(ss: seq<SessionSample>, key: GroupKey, groups: seq<string>)
    requires ss != [] && ss[|ss| - 1].executing && GroupValue(ss[|ss| - 1], key) in groups
    requires forall i, j :: 0 <= i < j < |groups| ==> groups[i] != groups[j]
    ensures SumOver(ss, key, groups) == SumOver(ss[..|ss| - 1], key, groups) + 1
  {
    var n := |groups| - 1;
    if groups[n] == GroupValue(ss[|ss| - 1], key) {
      SameSums(ss, key, groups[..n]);
    } else {
      OneMoreIn(ss, key, groups[..n]);
    }
  }

  function GroupsOf(ls: seq<GroupLoad>): seq<string> {
    seq(|ls|, i requires 0 <= i < |ls| => ls[i].group)
  }

  lemma {:induction false} SumsAgree(ss: seq<SessionSample>, key: GroupKey, ls: seq<GroupLoad>)
    requires forall i :: 0 <= i < |ls| ==> Measured(ss, key, ls[i])
    ensures Sum(ObservationsOf, ls) == SumOver(ss, key, GroupsOf(ls))
    ensures ls != [] ==> |Ticks(ss)| > 0 && RealSum(AasOf, ls) == Sum(ObservationsOf, ls) as real / |Ticks(ss)| as real
  {
    if ls == [] {
    } else {
      var n := |ls| - 1;
      SumsAgree(ss, key, ls[..n]);
      assert GroupsOf(ls)[..n] == GroupsOf(ls[..n]);
      assert Measured(ss, key, ls[n]);
      Fractions(Sum(ObservationsOf, ls[..n]), ls[n].observations, |Ticks(ss)|);
    }
  }

  lemma Fractions(a: nat, b: nat, n: nat)
    requires n > 0
    ensures a as real / n as real + b as real / n as real == (a + b) as real / n as real
    ensures 0.0 == 0 as real / n as real
  {
  }

  lemma {:induction false} ReportReconciles(ss: seq<SessionSample>, key: GroupKey, out: seq<GroupLoad>)
    requires IsReport(ss, key, out)
    ensures Sum(ObservationsOf, out) == Executing(ss)
    ensures out != [] ==> |Ticks(ss)| > 0 && RealSum(AasOf, out) == Executing(ss) as real / |Ticks(ss)| as real
  {
    hide Above;
    var groups := GroupsOf(out);
    forall g | Observed(ss, key, g) > 0 ensures g in groups {
      var i :| 0 <= i < |out| && out[i].group == g;
      assert groups[i] == g;
    }
    GroupsPartition(ss, key, groups);
    SumsAgree(ss, key, out);
  }
}
