/** The lock-chain detector: one issue per reported chain and one per reported cycle, and no
    wait row without an issue. */
module LockDetector {
  import opened Slices
  import opened Sorting
  import opened LockGraphs
  import opened LockChains
  import opened LockCycles

  datatype Severity = Warning | Critical

  datatype Issue =
    | ChainIssue(severity: Severity, chain: Chain)
    | CycleIssue(cycle: Cycle)

  // A chain is critical when it is long or some session on it has waited past the threshold.
  ghost predicate IsCritical(g: LockGraph, thresholdMs: int, chain: Chain) {
    IsCriticalUpTo(g, thresholdMs, chain, |chain|)
  }

  ghost predicate IsCriticalUpTo(g: LockGraph, thresholdMs: int, chain: Chain, n: nat)
    requires n <= |chain|
  {
    || |chain| >= 4
    || exists i :: 1 <= i < n && chain[i] in g.waitInfo && g.waitInfo[chain[i]].waitDurationMs > thresholdMs
  }

  method ChainSeverity(g: LockGraph, thresholdMs: int, chain: Chain) returns (severity: Severity)
    requires chain != []
    ensures severity == Critical <==> IsCritical(g, thresholdMs, chain)
  {
    severity := Warning;
    if |chain| >= 4 {
      severity := Critical;
    }
    for i := 1 to |chain|
      invariant severity == Critical <==> IsCriticalUpTo(g, thresholdMs, chain, i)
    {
      if chain[i] in g.waitInfo && g.waitInfo[chain[i]].waitDurationMs > thresholdMs {
        severity := Critical;
      }
    }
  }

  // One issue for each chain and then one for each cycle.
  ghost predicate Reports(g: LockGraph, thresholdMs: int, chains: seq<Chain>, cycles: seq<Cycle>, issues: seq<Issue>) {
    && Enumerates(g, chains) && CatchesAll(g, cycles)
    && |issues| == |chains| + |cycles|
    && (forall i :: 0 <= i < |chains| ==>
          issues[i] == ChainIssue(if IsCritical(g, thresholdMs, chains[i]) then Critical else Warning, chains[i]))
    && (forall i :: 0 <= i < |cycles| ==> issues[|chains| + i] == CycleIssue(cycles[i]))
  }

  // Why a row is never lost: it is a step of a reported chain, or its blocker is held up,
  // directly or not, by a deadlock.

  ghost predicate OnReportedChain(g: LockGraph, u: Pid, v: Pid) {
    exists c: Chain :: ChainCount(g, c) > 0 && Adjacent(c, u, v)
  }

  ghost predicate BehindCycle(g: LockGraph, u: Pid) {
    exists c: seq<Pid>, w: seq<Pid> :: DirectedCycle(g, c) && Walk(g, w) && w[0] in c && Last(w) == u
  }

  // The counted sequences are those whose steps are edges.
  lemma {:induction false} WalkCounts(g: LockGraph, c: Chain, k: nat)
    ensures WalkCount(g, c, k) > 0 <==> forall i :: k <= i < |c| - 1 ==> g.HasEdge(c[i], c[i + 1])
    decreases |c| - k
  {
    if k + 1 >= |c| {
    } else {
      WalkCounts(g, c, k + 1);
      Positive(g.EdgeCount(c[k], c[k + 1]), WalkCount(g, c, k + 1));
    }
  }

  lemma Positive(m: nat, n: nat)
    ensures m * n > 0 <==> m > 0 && n > 0
  {
  }

  // Any simple walk from a root goes on to a reported chain.
  lemma {:induction false} ExtendsToChain(g: LockGraph, path: seq<Pid>) returns (c: Chain)
    requires Walk(g, path) && Distinct(path)
    ensures path <= c && Walk(g, c) && EndsRight(g, c)
    decreases g.edges.Keys - Elems(Init(path))
  {
    var ws := g.Waiters(Last(path));
    if ws == [] {
      c := path;
    } else {
      var longer := path + [ws[0]];
      assert Init(longer) == path;
      if ws[0] in path {
        c := longer;
      } else {
        assert Last(path) in g.edges.Keys && Last(path) !in Elems(Init(path)) && Last(path) in Elems(path);
        c := ExtendsToChain(g, longer);
      }
    }
  }

  // A simple walk from a root to the blocker u puts the edge from u to v on a reported chain.
  lemma EdgeOnChain(g: LockGraph, path: seq<Pid>, v: Pid)
    requires Walk(g, path) && Distinct(path) && g.IsRoot(path[0]) && g.HasEdge(Last(path), v)
    ensures OnReportedChain(g, Last(path), v)
  {
    var longer := path + [v];
    assert Init(longer) == path;
    var c: Chain := longer;
    if v !in path {
      c := ExtendsToChain(g, longer);
    }
    WalkCounts(g, c, 0);
    assert c[0] == path[0] && c[|path| - 1] == Last(path) && c[|path|] == v;
    assert ChainCount(g, c) > 0 && Adjacent(c, Last(path), v);
  }

  // Follow blockers backwards from u until a root appears or a pid repeats.
  lemma {:induction false} RootOrCycleBehind(g: LockGraph, w: seq<Pid>, v: Pid)
    requires WellFormed(g) && Walk(g, w) && Distinct(w) && w[0] in g.edges && g.HasEdge(Last(w), v)
    ensures OnReportedChain(g, Last(w), v) || BehindCycle(g, Last(w))
    decreases g.edges.Keys - Elems(w)
  {
    if g.IsRoot(w[0]) {
      EdgeOnChain(g, w, v);
    } else {
      assert w[0] in g.waitInfo;
      var b := g.waitInfo[w[0]].blockingPid;
      assert g.HasEdge(b, w[0]);
      if b in w {
        var i :| 0 <= i < |w| && w[i] == b;
        var c := w[..i + 1];
        assert DirectedCycle(g, c) && c[0] == w[0];
      } else {
        var longer := [b] + w;
        assert Walk(g, longer);
        assert b in g.edges.Keys && b !in Elems(w) && b in Elems(longer);
        RootOrCycleBehind(g, longer, v);
      }
    }
  }

  lemma {:induction false} EveryRowIsAccountedFor(waits: seq<LockWait>, i: nat)
    requires i < |waits|
    ensures var g, w := GraphOf(waits), waits[i];
            OnReportedChain(g, w.blockingPid, w.waitingPid) || BehindCycle(g, w.blockingPid)
  {
    var g, w := GraphOf(waits), waits[i];
    BuiltIsWellFormed(waits);
    RowIsEdge(waits, i);
    assert Walk(g, [w.blockingPid]);
    RootOrCycleBehind(g, [w.blockingPid], w.waitingPid);
  }

  lemma ChainsAreLong(g: LockGraph, chains: seq<Chain>, i: nat)
    requires WellFormed(g) && Enumerates(g, chains) && i < |chains|
    ensures |chains[i]| >= 2
  {
    assert chains[i] in multiset(chains);
    assert ChainCount(g, chains[i]) > 0;
  }

  lemma {:induction false} SomethingToReport(waits: seq<LockWait>, chains: seq<Chain>, cycles: seq<Cycle>)
    requires waits != [] && Enumerates(GraphOf(waits), chains) && CatchesAll(GraphOf(waits), cycles)
    ensures |chains| + |cycles| > 0
  {
    var g := GraphOf(waits);
    EveryRowIsAccountedFor(waits, 0);
    if OnReportedChain(g, waits[0].blockingPid, waits[0].waitingPid) {
      var c: Chain :| ChainCount(g, c) > 0;
      assert c in multiset(chains);
    } else {
      ReportedIffCyclic(g, cycles);
    }
  }

  method Detect(waits: seq<LockWait>, thresholdMs: int) returns (issues: seq<Issue>)
    ensures waits == [] <==> issues == []
    ensures exists chains, cycles :: Reports(GraphOf(waits), thresholdMs, chains, cycles, issues)
  {
    hide IsCritical, Enumerates, RootByRoot, CatchesAll, ChainCount, Closings;
    if |waits| == 0 {
      NothingToReport(thresholdMs);
      return [];
    }
    issues := [];
    var g := BuildLockGraph(waits);
    BuiltIsWellFormed(waits);
    var chains := FindChains(g);
    for i := 0 to |chains|
      invariant |issues| == i
      invariant forall j :: 0 <= j < i ==>
                  issues[j] ==
                  ChainIssue(if IsCritical(g, thresholdMs, chains[j]) then Critical else Warning, chains[j])
    {
      ChainsAreLong(g, chains, i);
      if |chains[i]| < 2 {
        continue;
      }
      var severity := ChainSeverity(g, thresholdMs, chains[i]);
      issues := issues + [ChainIssue(severity, chains[i])];
    }
    ghost var chainIssues := issues;
    var cycles := FindCycles(g);
    for i := 0 to |cycles|
      invariant |issues| == |chains| + i && issues[..|chains|] == chainIssues
      invariant forall j :: 0 <= j < i ==> issues[|chains| + j] == CycleIssue(cycles[j])
    {
      issues := issues + [CycleIssue(cycles[i])];
    }
    forall i | 0 <= i < |chains| ensures issues[i] == chainIssues[i] {
      assert issues[..|chains|][i] == chainIssues[i];
    }
    assert Reports(g, thresholdMs, chains, cycles, issues);
    SomethingToReport(waits, chains, cycles);
  }

  lemma NothingToReport(thresholdMs: int)
    ensures Reports(GraphOf([]), thresholdMs, [], [], [])
  {
    forall c: seq<Pid> ensures !DirectedCycle(GraphOf([]), c) {
      if c != [] {
        assert !GraphOf([]).HasEdge(c[0], Next(c, 0));
      }
    }
  }
}
