/** What the lock detector reports, told from the wait rows alone. */
module LockRows {
  import opened Slices
  import opened Sorting
  import opened LockGraphs
  import opened LockChains
  import opened LockCycles
  import opened LockDetector

  // Some row says that u blocks v.
  ghost predicate Blocks(waits: seq<LockWait>, u: Pid, v: Pid) {
    exists j :: 0 <= j < |waits| && waits[j].blockingPid == u && waits[j].waitingPid == v
  }

  lemma {:induction false} EdgesAreRows(waits: seq<LockWait>, u: Pid, v: Pid)
    ensures GraphOf(waits).HasEdge(u, v) <==> Blocks(waits, u, v)
  {
    if waits == [] {
    } else {
      var init := waits[..|waits| - 1];
      EdgesAreRows(init, u, v);
      assert forall j :: 0 <= j < |init| ==> waits[j] == init[j];
    }
  }

  // Only a pid that no row names as its blocker ends a chain.
  lemma {:induction false} LeavesBlockNobody(waits: seq<LockWait>, p: Pid)
    ensures IsLeaf(GraphOf(waits), p) <==> forall j :: 0 <= j < |waits| ==> waits[j].blockingPid != p
  {
    if waits == [] {
    } else {
      var init := waits[..|waits| - 1];
      LeavesBlockNobody(init, p);
      assert forall j :: 0 <= j < |init| ==> waits[j] == init[j];
    }
  }

  // A pid is looked up with the last of its rows.
  lemma {:induction false} LastRowCounts(waits: seq<LockWait>, p: Pid, w: LockWait)
    ensures p in GraphOf(waits).waitInfo && GraphOf(waits).waitInfo[p] == w <==>
            exists j :: && 0 <= j < |waits| && waits[j] == w && waits[j].waitingPid == p
                        && forall k :: j < k < |waits| ==> waits[k].waitingPid != p
  {
    if waits == [] {
    } else {
      var init := waits[..|waits| - 1];
      LastRowCounts(init, p, w);
      assert forall j :: 0 <= j < |init| ==> waits[j] == init[j];
    }
  }

  lemma {:induction false} RootsWaitForNobody(waits: seq<LockWait>, p: Pid)
    ensures GraphOf(waits).IsRoot(p) <==>
            && (exists j :: 0 <= j < |waits| && waits[j].blockingPid == p)
            && (forall j :: 0 <= j < |waits| ==> waits[j].waitingPid != p)
  {
    var g := GraphOf(waits);
    BuiltIsWellFormed(waits);
    LeavesBlockNobody(waits, p);
    if p in g.waitInfo {
      EdgesAreRows(waits, g.waitInfo[p].blockingPid, p);
    }
    forall j | 0 <= j < |waits| ensures waits[j].waitingPid == p ==> p in g.waitInfo {
      RowIsEdge(waits, j);
    }
  }

  lemma {:induction false} ChainSteps(waits: seq<LockWait>, c: Chain)
    ensures WalkCount(GraphOf(waits), c) > 0 <==> forall i :: 0 <= i < |c| - 1 ==> Blocks(waits, c[i], c[i + 1])
  {
    hide WalkCount, Blocks, LockGraph.HasEdge;
    WalkCounts(GraphOf(waits), c, 0);
    forall i | 0 <= i < |c| - 1
      ensures GraphOf(waits).HasEdge(c[i], c[i + 1]) <==> Blocks(waits, c[i], c[i + 1])
    {
      EdgesAreRows(waits, c[i], c[i + 1]);
    }
  }

  lemma StepsByRows(waits: seq<LockWait>, c: Chain)
    requires |c| >= 2
    ensures (forall i :: 0 <= i < |c| - 1 ==> Blocks(waits, c[i], c[i + 1])) <==>
            (forall i {:trigger c[i]} :: 0 <= i < |c| - 1 ==>
               exists j :: 0 <= j < |waits| && waits[j].blockingPid == c[i] && waits[j].waitingPid == c[i + 1])
    ensures (forall i :: 0 <= i < |c| - 1 ==> Blocks(waits, c[i], c[i + 1])) ==>
              exists j :: 0 <= j < |waits| && waits[j].blockingPid == c[0]
  {
    if forall i :: 0 <= i < |c| - 1 ==> Blocks(waits, c[i], c[i + 1]) {
      assert Blocks(waits, c[0], c[0 + 1]);
      forall i | 0 <= i < |c| - 1
        ensures exists j :: 0 <= j < |waits| && waits[j].blockingPid == c[i] && waits[j].waitingPid == c[i + 1]
      {
        assert Blocks(waits, c[i], c[i + 1]);
      }
    }
  }

  lemma {:induction false} ChainsEnd(waits: seq<LockWait>, c: Chain)
    requires c != []
    ensures EndsRight(GraphOf(waits), c) <==>
            && (forall i, j :: 0 <= i < j < |c| - 1 ==> c[i] != c[j])
            && (|| (exists i :: 0 <= i < |c| - 1 && c[i] == c[|c| - 1])
                || (forall j :: 0 <= j < |waits| ==> waits[j].blockingPid != c[|c| - 1]))
  {
    hide IsLeaf;
    LeavesBlockNobody(waits, Last(c));
    assert forall i :: 0 <= i < |c| - 1 ==> Init(c)[i] == c[i];
  }

  // A chain is reported if and only if each step of it is a row, no row has its first pid
  // waiting, no pid repeats before its last step, and the last pid repeats or blocks nobody.
  lemma {:induction false} ChainsByRows(waits: seq<LockWait>, chains: seq<Chain>, c: Chain)
    requires Enumerates(GraphOf(waits), chains)
    ensures c in chains <==>
            && |c| >= 2
            && (forall i {:trigger c[i]} :: 0 <= i < |c| - 1 ==>
                  exists j :: 0 <= j < |waits| && waits[j].blockingPid == c[i] && waits[j].waitingPid == c[i + 1])
            && (forall j :: 0 <= j < |waits| ==> waits[j].waitingPid != c[0])
            && (forall i, j :: 0 <= i < j < |c| - 1 ==> c[i] != c[j])
            && (|| (exists i :: 0 <= i < |c| - 1 && c[i] == c[|c| - 1])
                || (forall j :: 0 <= j < |waits| ==> waits[j].blockingPid != c[|c| - 1]))
  {
    var g := GraphOf(waits);
    assert c in chains <==> ChainCount(g, c) > 0;
    assert c == [] ==> !EndsRight(g, c);
    hide WalkCount, EndsRight, Blocks, GraphOf, LockGraph.IsRoot;
    if c != [] {
      RootsWaitForNobody(waits, c[0]);
      ChainsEnd(waits, c);
      if |c| == 1 {
        assert c[|c| - 1] == c[0];
      } else {
        ChainSteps(waits, c);
        StepsByRows(waits, c);
      }
    }
  }

  // A session that holds others up without waiting itself starts a chain along each of its rows.
  lemma {:induction false} EveryHolderIsReported(waits: seq<LockWait>, chains: seq<Chain>, j: nat)
    requires Enumerates(GraphOf(waits), chains) && j < |waits|
    requires forall k :: 0 <= k < |waits| ==> waits[k].waitingPid != waits[j].blockingPid
    ensures exists c :: c in chains && |c| >= 2 && c[0] == waits[j].blockingPid && c[1] == waits[j].waitingPid
  {
    var g, u, v := GraphOf(waits), waits[j].blockingPid, waits[j].waitingPid;
    RootsWaitForNobody(waits, u);
    RowIsEdge(waits, j);
    assert u != v && Init([u, v]) == [u];
    var c := ExtendsToChain(g, [u, v]);
    WalkCounts(g, c, 0);
    assert c[..2] == [u, v] && ChainCount(g, c) > 0;
    assert c in multiset(chains);
  }

  // How often a chain is reported: once for every way to pick a row for each of its steps.

  ghost function RowsBetween(waits: seq<LockWait>, u: Pid, v: Pid): set<nat> {
    set j: nat | j < |waits| && waits[j].blockingPid == u && waits[j].waitingPid == v
  }

  ghost function Picks(waits: seq<LockWait>, c: Chain): set<seq<nat>> {
    if |c| <= 1 then {[]} else Prefixed(RowsBetween(waits, c[0], c[1]), Picks(waits, c[1..]))
  }

  ghost function Prefixed(heads: set<nat>, tails: set<seq<nat>>): set<seq<nat>> {
    set j, r | j in heads && r in tails :: [j] + r
  }

  lemma PrefixedHas(heads: set<nat>, tails: set<seq<nat>>)
    ensures forall r :: r in Prefixed(heads, tails) <==> r != [] && r[0] in heads && r[1..] in tails
  {
    forall r | r != [] && r[0] in heads && r[1..] in tails ensures r in Prefixed(heads, tails) {
      assert r == [r[0]] + r[1..];
    }
  }

  lemma {:induction false} PrefixedCount(heads: set<nat>, tails: set<seq<nat>>)
    ensures |Prefixed(heads, tails)| == |heads| * |tails|
  {
    hide Prefixed;
    PrefixedHas(heads, tails);
    if heads == {} {
      assert Prefixed(heads, tails) == {};
    } else {
      var j :| j in heads;
      PrefixedCount(heads - {j}, tails);
      PrefixedHas(heads - {j}, tails);
      OneHeadCount(j, tails);
      PrefixedHas({j}, tails);
      assert Prefixed(heads, tails) == Prefixed(heads - {j}, tails) + Prefixed({j}, tails);
      assert Prefixed(heads - {j}, tails) !! Prefixed({j}, tails);
    }
  }

  lemma {:induction false} OneHeadCount(j: nat, tails: set<seq<nat>>)
    ensures |Prefixed({j}, tails)| == |tails|
  {
    hide Prefixed;
    PrefixedHas({j}, tails);
    if tails == {} {
      assert Prefixed({j}, tails) == {};
    } else {
      var r :| r in tails;
      OneHeadCount(j, tails - {r});
      PrefixedHas({j}, tails - {r});
      forall r' | r' != [] && r'[0] == j && r'[1..] == r ensures r' == [j] + r {
      }
      assert Prefixed({j}, tails) == Prefixed({j}, tails - {r}) + {[j] + r};
    }
  }

  lemma {:induction false} PicksAre(waits: seq<LockWait>, c: Chain, r: seq<nat>)
    requires c != []
    ensures r in Picks(waits, c) <==>
            |r| == |c| - 1 && forall i {:trigger r[i]} :: 0 <= i < |r| ==> r[i] in RowsBetween(waits, c[i], c[i + 1])
  {
    if |c| == 1 {
    } else {
      hide RowsBetween;
      assert r != [] ==> r == [r[0]] + r[1..];
      if r != [] {
        PicksAre(waits, c[1..], r[1..]);
      }
    }
  }

  lemma NewRow(waits: seq<LockWait>, u: Pid, v: Pid)
    requires waits != []
    ensures var n, w := |waits| - 1, waits[|waits| - 1];
            |RowsBetween(waits, u, v)|
            == |RowsBetween(waits[..n], u, v)| + if w.blockingPid == u && w.waitingPid == v then 1 else 0
  {
    var n, w := |waits| - 1, waits[|waits| - 1];
    assert forall j :: 0 <= j < n ==> waits[j] == waits[..n][j];
    var added: set<nat> := if w.blockingPid == u && w.waitingPid == v then {n} else {};
    assert RowsBetween(waits, u, v) == RowsBetween(waits[..n], u, v) + added;
  }

  lemma {:induction false} EdgesCountRows(waits: seq<LockWait>, u: Pid, v: Pid)
    ensures GraphOf(waits).EdgeCount(u, v) == |RowsBetween(waits, u, v)|
  {
    if waits == [] {
    } else {
      var init, w := waits[..|waits| - 1], waits[|waits| - 1];
      EdgesCountRows(init, u, v);
      NewRow(waits, u, v);
      hide GraphOf;
    }
  }

  lemma {:induction false} WalksCountPicks(waits: seq<LockWait>, c: Chain, k: nat)
    requires k < |c|
    ensures WalkCount(GraphOf(waits), c, k) == |Picks(waits, c[k..])|
    decreases |c| - k
  {
    hide Prefixed, RowsBetween;
    if k + 1 >= |c| {
    } else {
      WalksCountPicks(waits, c, k + 1);
      EdgesCountRows(waits, c[k], c[k + 1]);
      assert c[k..][1..] == c[k + 1..];
      PrefixedCount(RowsBetween(waits, c[k], c[k + 1]), Picks(waits, c[k + 1..]));
    }
  }

  lemma {:induction false} CountIsPicks(waits: seq<LockWait>, chains: seq<Chain>, c: Chain)
    requires Enumerates(GraphOf(waits), chains) && c in chains
    ensures c != [] && multiset(chains)[c] == |Picks(waits, c)|
  {
    hide WalkCount, Picks, LockGraph.IsRoot;
    assert multiset(chains)[c] == ChainCount(GraphOf(waits), c) > 0 && c[0..] == c;
    WalksCountPicks(waits, c, 0);
  }

  lemma {:induction false} ReportedPerPick(waits: seq<LockWait>, chains: seq<Chain>, c: Chain)
    returns (picks: set<seq<nat>>)
    requires Enumerates(GraphOf(waits), chains) && c in chains
    ensures multiset(chains)[c] == |picks|
    ensures forall r: seq<nat> :: r in picks <==>
              && |r| == |c| - 1
              && forall i {:trigger r[i]} :: 0 <= i < |r| ==>
                && r[i] < |waits|
                && waits[r[i]].blockingPid == c[i] && waits[r[i]].waitingPid == c[i + 1]
  {
    hide Enumerates, Picks, GraphOf;
    CountIsPicks(waits, chains, c);
    picks := Picks(waits, c);
    forall r: seq<nat>
      ensures r in picks <==>
              && |r| == |c| - 1
              && forall i {:trigger r[i]} :: 0 <= i < |r| ==>
                && r[i] < |waits|
                && waits[r[i]].blockingPid == c[i] && waits[r[i]].waitingPid == c[i + 1]
    {
      PicksAre(waits, c, r);
    }
  }

  // Cycles over the rows: each pid blocks the next and the last blocks the first.

  lemma {:induction false} CyclesAreRows(waits: seq<LockWait>, c: seq<Pid>)
    requires c != []
    ensures DirectedCycle(GraphOf(waits), c) <==>
            forall i {:trigger c[i]} :: 0 <= i < |c| ==>
              exists j :: 0 <= j < |waits| && waits[j].blockingPid == c[i]
                          && waits[j].waitingPid == if i + 1 < |c| then c[i + 1] else c[0]
  {
    hide GraphOf, LockGraph.HasEdge;
    EdgesAreRows(waits, c[0], Next(c, 0));
    if DirectedCycle(GraphOf(waits), c) {
      forall i | 0 <= i < |c|
        ensures exists j :: 0 <= j < |waits| && waits[j].blockingPid == c[i]
                            && waits[j].waitingPid == if i + 1 < |c| then c[i + 1] else c[0]
      {
        EdgesAreRows(waits, c[i], Next(c, i));
      }
    } else {
      var i :| 0 <= i < |c| && !GraphOf(waits).HasEdge(c[i], Next(c, i));
      EdgesAreRows(waits, c[i], Next(c, i));
    }
  }

  lemma {:induction false} CyclesByRows(waits: seq<LockWait>, cycles: seq<Cycle>, k: nat)
    requires CatchesAll(GraphOf(waits), cycles) && k < |cycles|
    ensures forall i, j :: 0 <= i < j < |cycles[k]| ==> cycles[k][i] != cycles[k][j]
    ensures forall i {:trigger cycles[k][i]} :: 0 <= i < |cycles[k]| ==>
              exists j :: 0 <= j < |waits| && waits[j].blockingPid == cycles[k][i]
                          && waits[j].waitingPid == if i + 1 < |cycles[k]| then cycles[k][i + 1] else cycles[k][0]
  {
    assert cycles[k] in cycles;
    CyclesAreRows(waits, cycles[k]);
  }

  // Some step of every deadlock leads from the last to the first pid of a reported cycle.
  lemma {:induction false} EveryDeadlockIsReported(waits: seq<LockWait>, cycles: seq<Cycle>, c: seq<Pid>)
    requires CatchesAll(GraphOf(waits), cycles) && c != []
    requires forall i {:trigger c[i]} :: 0 <= i < |c| ==>
               exists j :: 0 <= j < |waits| && waits[j].blockingPid == c[i]
                           && waits[j].waitingPid == if i + 1 < |c| then c[i + 1] else c[0]
    ensures exists i, k :: 0 <= i < |c| && 0 <= k < |cycles| && cycles[k][|cycles[k]| - 1] == c[i]
                           && cycles[k][0] == if i + 1 < |c| then c[i + 1] else c[0]
  {
    CyclesAreRows(waits, c);
    assert Caught(cycles, c);
  }

  // Each pair of pids closes one reported cycle for each of its rows, or none.
  lemma {:induction false} ReportedPerRow(waits: seq<LockWait>, cycles: seq<Cycle>, u: Pid, v: Pid)
    requires CatchesAll(GraphOf(waits), cycles)
    ensures var reports := |set k: nat | k < |cycles| && cycles[k][|cycles[k]| - 1] == u && cycles[k][0] == v|;
            var rows := |set j: nat | j < |waits| && waits[j].blockingPid == u && waits[j].waitingPid == v|;
            reports == 0 || reports == rows
  {
    EdgesCountRows(waits, u, v);
    ReportsCount(cycles, u, v);
  }

  ghost function ReportsOf(cycles: seq<Cycle>, u: Pid, v: Pid): set<nat> {
    set k: nat | k < |cycles| && cycles[k][|cycles[k]| - 1] == u && cycles[k][0] == v
  }

  lemma NewReport(cycles: seq<Cycle>, u: Pid, v: Pid)
    requires cycles != []
    ensures var n := |cycles| - 1;
            |ReportsOf(cycles, u, v)|
            == |ReportsOf(cycles[..n], u, v)| + if Closing(cycles[n]) == (u, v) then 1 else 0
  {
    var n := |cycles| - 1;
    assert forall k :: 0 <= k < n ==> cycles[k] == cycles[..n][k];
    var added: set<nat> := if Closing(cycles[n]) == (u, v) then {n} else {};
    assert ReportsOf(cycles, u, v) == ReportsOf(cycles[..n], u, v) + added;
  }

  lemma {:induction false} ReportsCount(cycles: seq<Cycle>, u: Pid, v: Pid)
    ensures Closings(cycles)[(u, v)] == |ReportsOf(cycles, u, v)|
  {
    if cycles == [] {
    } else {
      ReportsCount(Init(cycles), u, v);
      NewReport(cycles, u, v);
      hide ReportsOf;
    }
  }

  ghost predicate Over(g: LockGraph, p: Pid, thresholdMs: int) {
    p in g.waitInfo && g.waitInfo[p].waitDurationMs > thresholdMs
  }

  lemma {:induction false} OverByLastRow(waits: seq<LockWait>, thresholdMs: int, p: Pid)
    ensures Over(GraphOf(waits), p, thresholdMs) <==>
            exists j :: && 0 <= j < |waits| && waits[j].waitingPid == p && waits[j].waitDurationMs > thresholdMs
                        && forall k :: j < k < |waits| ==> waits[k].waitingPid != p
  {
    var g := GraphOf(waits);
    hide GraphOf;
    if p in g.waitInfo {
      LastRowCounts(waits, p, g.waitInfo[p]);
    }
    forall j | 0 <= j < |waits| && waits[j].waitingPid == p && forall k :: j < k < |waits| ==> waits[k].waitingPid != p
      ensures p in g.waitInfo && g.waitInfo[p] == waits[j]
    {
      LastRowCounts(waits, p, waits[j]);
    }
  }

  // A chain is critical if it has four pids or if the last row of one of its waiters is over
  // the threshold.
  lemma {:induction false} CriticalByRows(waits: seq<LockWait>, thresholdMs: int, c: Chain)
    ensures IsCritical(GraphOf(waits), thresholdMs, c) <==>
            || |c| >= 4
            || exists i, j :: && 1 <= i < |c| && 0 <= j < |waits|
                              && waits[j].waitingPid == c[i] && waits[j].waitDurationMs > thresholdMs
                              && forall k :: j < k < |waits| ==> waits[k].waitingPid != c[i]
  {
    hide GraphOf;
    forall i | 1 <= i < |c|
      ensures Over(GraphOf(waits), c[i], thresholdMs) <==>
              exists j :: && 0 <= j < |waits|
                          && waits[j].waitingPid == c[i] && waits[j].waitDurationMs > thresholdMs
                          && forall k :: j < k < |waits| ==> waits[k].waitingPid != c[i]
    {
      OverByLastRow(waits, thresholdMs, c[i]);
    }
  }

  // The issues: one for each reported chain, with its severity, and then one for each cycle.
  lemma {:induction false} IssuesByRows(waits: seq<LockWait>, thresholdMs: int, chains: seq<Chain>,
                                        cycles: seq<Cycle>, issues: seq<Issue>, i: nat)
    requires Reports(GraphOf(waits), thresholdMs, chains, cycles, issues) && i < |issues|
    ensures i < |chains| ==> issues[i].ChainIssue? && issues[i].chain == chains[i]
    ensures i < |chains| ==>
              (issues[i].severity == Critical <==>
               || |chains[i]| >= 4
               || exists m, j :: && 1 <= m < |chains[i]| && 0 <= j < |waits|
                                 && waits[j].waitingPid == chains[i][m] && waits[j].waitDurationMs > thresholdMs
                                 && forall k :: j < k < |waits| ==> waits[k].waitingPid != chains[i][m])
    ensures i >= |chains| ==> i - |chains| < |cycles| && issues[i] == CycleIssue(cycles[i - |chains|])
  {
    if i < |chains| {
      CriticalByRows(waits, thresholdMs, chains[i]);
    } else {
      assert issues[|chains| + (i - |chains|)] == issues[i];
    }
  }
}
