/** Cycle detection: a three-colour depth-first search that reports the stack segment behind
    every edge leading back into the stack. */
module LockCycles {
  import opened Slices
  import opened Sorting
  import opened LockGraphs

  type Cycle = c: seq<Pid> | c != [] witness [0]

  function Next(c: seq<Pid>, i: nat): Pid
    requires i < |c|
  {
    if i + 1 < |c| then c[i + 1] else c[0]
  }

  ghost predicate DirectedCycle(g: LockGraph, c: seq<Pid>) {
    && c != []
    && forall i :: 0 <= i < |c| ==> g.HasEdge(c[i], Next(c, i))
  }

  ghost predicate SimpleCycle(g: LockGraph, c: seq<Pid>) {
    DirectedCycle(g, c) && Distinct(c)
  }

  // The edge that closes a reported cycle, from its last pid to its first.
  function Closing(c: Cycle): Edge {
    (Last(c), c[0])
  }

  ghost function Closings(cycles: seq<Cycle>): (es: multiset<Edge>)
    ensures |es| == |cycles|
    ensures forall e :: e in es <==> exists k :: 0 <= k < |cycles| && Closing(cycles[k]) == e
  {
    if cycles == [] then multiset{}
    else
      var es := Closings(Init(cycles)) + multiset{Closing(Last(cycles))};
      assert forall k :: 0 <= k < |cycles| - 1 ==> cycles[k] == Init(cycles)[k];
      es
  }

  // The three colours; an absent pid reads as unvisited.
  const UNVISITED := 0
  const IN_STACK := 1
  const DONE := 2

  ghost function AllPids(g: LockGraph): set<Pid> {
    g.edges.Keys + set u, v | u in g.edges.Keys && v in g.edges[u] :: v
  }

  // What one search has done so far: the colours, the closing edges of the cycles reported
  // and the order in which pids were finished.
  datatype Search = Search(visited: map<Pid, int>, closed: multiset<Edge>, finished: seq<Pid>) {
    ghost function Colour(p: Pid): int {
      if p in visited then visited[p] else UNVISITED
    }

    // Every finished pid's edges lead to pids finished earlier, or close a reported cycle.
    ghost predicate Explained(g: LockGraph) {
      forall k: nat, v: Pid :: k < |finished| && g.HasEdge(finished[k], v) ==>
        v in finished[..k] || (finished[k], v) in closed
    }

    // Once its source is finished, an edge has closed a cycle with each of its parallel copies
    // or with none of them; before its source is visited, with none.
    ghost predicate Exact(g: LockGraph) {
      && (forall u: Pid, v: Pid :: u !in visited ==> closed[(u, v)] == 0)
      && (forall u: Pid, v: Pid :: u in finished ==> closed[(u, v)] == 0 || closed[(u, v)] == g.EdgeCount(u, v))
    }

    ghost predicate Coloured(g: LockGraph, stack: seq<Pid>) {
      && (forall p: Pid :: p in stack <==> p in visited && visited[p] == IN_STACK)
      && (forall p: Pid :: p in finished <==> p in visited && visited[p] == DONE)
      && (forall p: Pid :: p in visited ==> visited[p] == IN_STACK || visited[p] == DONE)
      && visited.Keys <= AllPids(g)
    }

    ghost predicate Inv(g: LockGraph, stack: seq<Pid>) {
      Explained(g) && Exact(g) && Coloured(g, stack)
    }

    // Later states forget nothing, and no edge leaving an older pid closes another cycle.
    ghost predicate Extends(before: Search) {
      && before.visited.Keys <= visited.Keys
      && before.finished <= finished
      && before.closed <= closed
      && forall u: Pid, v: Pid :: u in before.visited ==> closed[(u, v)] == before.closed[(u, v)]
    }

    // The state after scanning the edges ws of the node that ends the path. The path stays the
    // same for the whole scan, so every copy of an edge into it closes a cycle.
    ghost predicate Scanned(path: seq<Pid>, ws: seq<Pid>)
      requires path != []
    {
      forall v: Pid ::
        && (v in ws ==> v in finished || v in path)
        && closed[(Last(path), v)] == if v in path then multiset(ws)[v] else 0
    }
  }

  lemma ExtendsTrans(a: Search, b: Search, c: Search)
    requires b.Extends(a) && c.Extends(b)
    ensures c.Extends(a) && a.visited.Keys <= b.visited.Keys <= c.visited.Keys
  {
  }

  lemma ExtendsRefl(a: Search)
    ensures a.Extends(a)
  {
  }

  ghost predicate OnPath(g: LockGraph, path: seq<Pid>) {
    Walk(g, path) && Distinct(path) && Last(path) in AllPids(g)
  }

  lemma Enter(g: LockGraph, path: seq<Pid>, s: Search)
    requires OnPath(g, path) && s.Inv(g, Init(path)) && Last(path) !in s.visited
    ensures var s' := s.(visited := s.visited[Last(path) := IN_STACK]);
            s'.Inv(g, path) && s'.Extends(s) && s'.Scanned(path, [])
    ensures Last(path) in AllPids(g) - s.visited.Keys
  {
    assert path == Init(path) + [Last(path)];
  }

  lemma SegmentIsCycle(g: LockGraph, path: seq<Pid>, start: nat)
    requires Walk(g, path) && Distinct(path) && start < |path|
    requires g.HasEdge(Last(path), path[start])
    ensures SimpleCycle(g, path[start..])
  {
    var c := path[start..];
    forall i | 0 <= i < |c| ensures g.HasEdge(c[i], Next(c, i)) {
      assert c[i] == path[start + i];
    }
  }

  lemma ColourMeans(g: LockGraph, path: seq<Pid>, i: nat, s: Search)
    requires OnPath(g, path) && s.Inv(g, path) && i < |g.Waiters(Last(path))|
    ensures Walk(g, path) && Distinct(path) && Last(path) in s.visited && Last(path) !in s.finished
    ensures var next := g.Waiters(Last(path))[i];
            match s.Colour(next)
            case 0 => next !in s.visited && next !in path && OnPath(g, path + [next])
            case 1 => next in path
            case _ => next in s.finished && next !in path
  {
    var next := g.Waiters(Last(path))[i];
    assert Last(path) in g.edges && next in g.edges[Last(path)];
    assert s.Colour(next) != IN_STACK ==> next !in path;
  }

  // The next edge leads back into the stack.
  lemma CloseEdge(g: LockGraph, path: seq<Pid>, i: nat, s: Search, start: Search)
    requires path != [] && i < |g.Waiters(Last(path))| && g.Waiters(Last(path))[i] in path
    requires Last(path) in s.visited && Last(path) !in s.finished && Last(path) !in start.visited && s.Extends(start)
    requires s.Inv(g, path) && s.Scanned(path, g.Waiters(Last(path))[..i])
    ensures var s' := s.(closed := s.closed + multiset{(Last(path), g.Waiters(Last(path))[i])});
            s'.Inv(g, path) && s'.Scanned(path, g.Waiters(Last(path))[..i + 1]) && s'.Extends(start)
  {
    ScanOne(g, path, i, s);
    hide Search.Scanned, LockGraph.Waiters;
  }

  // One more copy counted.
  lemma CountOne(ws: seq<Pid>, i: nat, v: Pid)
    requires i < |ws|
    ensures multiset(ws[..i + 1])[v] == multiset(ws[..i])[v] + if v == ws[i] then 1 else 0
    ensures v in ws[..i + 1] <==> v in ws[..i] || v == ws[i]
  {
    assert ws[..i + 1] == ws[..i] + [ws[i]];
  }

  lemma ScanOne(g: LockGraph, path: seq<Pid>, i: nat, s: Search)
    requires path != [] && i < |g.Waiters(Last(path))| && g.Waiters(Last(path))[i] in path
    requires s.Scanned(path, g.Waiters(Last(path))[..i])
    ensures s.(closed := s.closed + multiset{(Last(path), g.Waiters(Last(path))[i])})
             .Scanned(path, g.Waiters(Last(path))[..i + 1])
  {
    hide LockGraph.Waiters;
    forall v: Pid {
      CountOne(g.Waiters(Last(path)), i, v);
    }
  }

  // The next edge leads to a pid that is finished, possibly since a call just made.
  lemma PassEdge(g: LockGraph, path: seq<Pid>, i: nat, s: Search, s': Search)
    requires path != [] && i < |g.Waiters(Last(path))| && Last(path) in s.visited
    requires s.Scanned(path, g.Waiters(Last(path))[..i])
    requires s'.Extends(s) && g.Waiters(Last(path))[i] in s'.finished && g.Waiters(Last(path))[i] !in path
    ensures s'.Scanned(path, g.Waiters(Last(path))[..i + 1])
  {
    hide LockGraph.Waiters;
    forall v: Pid {
      CountOne(g.Waiters(Last(path)), i, v);
    }
  }

  lemma Leave(g: LockGraph, path: seq<Pid>, s: Search)
    requires OnPath(g, path)
    requires s.Inv(g, path) && s.Scanned(path, g.Waiters(Last(path)))
    ensures var s' := s.(visited := s.visited[Last(path) := DONE], finished := s.finished + [Last(path)]);
            s'.Inv(g, Init(path)) && s'.Extends(s)
  {
    LeaveExplained(g, path, s);
    LeaveColoured(g, path, s);
    hide Search.Explained, Search.Coloured;
  }

  lemma {:induction false} LeaveExplained(g: LockGraph, path: seq<Pid>, s: Search)
    requires path != [] && s.Explained(g) && s.Scanned(path, g.Waiters(Last(path)))
    ensures s.(visited := s.visited[Last(path) := DONE], finished := s.finished + [Last(path)]).Explained(g)
  {
    var finished := s.finished + [Last(path)];
    forall k: nat, v: Pid | k < |finished| && g.HasEdge(finished[k], v)
      ensures v in finished[..k] || (finished[k], v) in s.closed
    {
      if k < |s.finished| {
        assert finished[..k] == s.finished[..k];
      } else {
        assert finished[..k] == s.finished;
      }
    }
  }

  lemma LeaveColoured(g: LockGraph, path: seq<Pid>, s: Search)
    requires OnPath(g, path) && s.Coloured(g, path)
    ensures Last(path) in s.visited
    ensures s.(visited := s.visited[Last(path) := DONE], finished := s.finished + [Last(path)]).Coloured(g, Init(path))
  {
    assert path == Init(path) + [Last(path)];
  }

  // The visited map and the list of cycles that all calls of one search share.
  class CycleSearch {
    var visited: map<Pid, int>
    var cycles: seq<Cycle>
    ghost var finished: seq<Pid>

    constructor ()
      ensures visited == map[] && cycles == [] && finished == []
    {
      visited, cycles, finished := map[], [], [];
    }

    ghost function View(): Search
      reads this
    {
      Search(visited, Closings(cycles), finished)
    }

    ghost predicate Sound(g: LockGraph)
      reads this
    {
      forall c :: c in cycles ==> SimpleCycle(g, c)
    }

    function Colour(p: Pid): int
      reads this
    {
      if p in visited then visited[p] else UNVISITED
    }

    method Report(c: Cycle)
      modifies this`cycles
      ensures cycles == old(cycles) + [c]
      ensures View() == old(View()).(closed := old(View()).closed + multiset{Closing(c)})
    {
      cycles := cycles + [c];
      assert Init(cycles) == old(cycles);
    }
  }

  // The index scan over the path. Its -1 never survives for a pid that is in the stack.
  method IndexOf(path: Slice, next: Pid) returns (cycleStart: nat)
    requires path.Valid() && next in path.View()
    ensures cycleStart < path.len && path.View()[cycleStart] == next
  {
    cycleStart := 0;
    while path.buf[cycleStart] != next
      invariant cycleStart < path.len && next !in path.View()[..cycleStart]
      decreases path.len - cycleStart
    {
      cycleStart := cycleStart + 1;
    }
  }

  // What one call of the search may rely on and must keep.
  ghost predicate Ready(g: LockGraph, stack: seq<Pid>, path: Slice, s: CycleSearch)
    requires path.Valid() && path.len > 0
    reads path.buf, s
  {
    OnPath(g, path.View()) && s.View().Inv(g, stack) && s.Sound(g)
  }

  method DfsCycles(g: LockGraph, node: Pid, path: Slice, s: CycleSearch)
    requires path.Valid() && path.len > 0
    requires Ready(g, Init(path.View()), path, s)
    requires Last(path.View()) == node && node !in s.visited
    modifies path.buf, s
    ensures path.View() == old(path.View()) && Ready(g, Init(path.View()), path, s)
    ensures s.View().Extends(old(s.View())) && node in s.finished
    decreases AllPids(g) - s.visited.Keys, 0
  {
    hide Search.Inv, Search.Scanned, Search.Extends, OnPath, AllPids, SimpleCycle, Closings;
    ghost var p, before := path.View(), s.View();
    Enter(g, p, before);
    s.visited := s.visited[node := IN_STACK];
    var nexts := g.Waiters(node);
    for i := 0 to |nexts|
      invariant path.View() == p && Ready(g, p, path, s)
      invariant before.visited.Keys + {node} <= s.visited.Keys
      invariant s.View().Extends(before) && s.View().Scanned(p, nexts[..i])
    {
      assert AllPids(g) - s.visited.Keys < AllPids(g) - before.visited.Keys;
      FollowEdge(g, node, i, path, s, before);
    }
    assert nexts[..|nexts|] == nexts;
    Leave(g, p, s.View());
    ExtendsTrans(before, s.View(), s.View().(visited := s.visited[node := DONE], finished := s.finished + [node]));
    s.visited := s.visited[node := DONE];
    s.finished := s.finished + [node];
  }

  // The body of the loop over the edges of the node at the end of the path.
  method FollowEdge(g: LockGraph, node: Pid, i: nat, path: Slice, s: CycleSearch, ghost start: Search)
    requires path.Valid() && path.len > 0
    requires Ready(g, path.View(), path, s)
    requires Last(path.View()) == node && i < |g.Waiters(node)|
    requires node !in start.visited
    requires s.View().Extends(start) && s.View().Scanned(path.View(), g.Waiters(node)[..i])
    modifies path.buf, s
    ensures path.View() == old(path.View()) && Ready(g, path.View(), path, s)
    ensures old(s.visited.Keys) <= s.visited.Keys
    ensures s.View().Extends(start) && s.View().Scanned(path.View(), g.Waiters(node)[..i + 1])
    decreases AllPids(g) - s.visited.Keys, 1
  {
    hide Search.Inv, Search.Scanned, Search.Extends, OnPath, AllPids, SimpleCycle, Closings;
    ghost var p, before := path.View(), s.View();
    var next := g.Waiters(node)[i];
    ColourMeans(g, p, i, before);
    if s.Colour(next) == IN_STACK {
      var cycleStart := IndexOf(path, next);
      SegmentIsCycle(g, p, cycleStart);
      CloseEdge(g, p, i, before, start);
      s.Report(path.buf[cycleStart..path.len]);
    } else {
      if s.Colour(next) == UNVISITED {
        var longer := Append(path, next);
        assert Init(longer.View()) == p;
        DfsCycles(g, next, longer, s);
        ExtendsTrans(start, before, s.View());
      } else {
        ExtendsRefl(before);
      }
      PassEdge(g, p, i, before, s.View());
    }
  }

  // An edge of c that closes some reported cycle.
  ghost predicate Caught(cycles: seq<Cycle>, c: seq<Pid>) {
    exists i :: 0 <= i < |c| && (c[i], Next(c, i)) in Closings(cycles)
  }

  // The reports are simple cycles, no deadlock escapes them, and an edge closes one report for
  // each of its parallel copies or none at all.
  ghost predicate CatchesAll(g: LockGraph, cycles: seq<Cycle>) {
    && (forall c :: c in cycles ==> SimpleCycle(g, c))
    && (forall c: seq<Pid> :: DirectedCycle(g, c) ==> Caught(cycles, c))
    && (forall u: Pid, v: Pid :: Closings(cycles)[(u, v)] == 0 || Closings(cycles)[(u, v)] == g.EdgeCount(u, v))
  }

  // The blockers are taken in any order that a map iteration may choose.
  method FindCycles(g: LockGraph) returns (cycles: seq<Cycle>)
    ensures CatchesAll(g, cycles)
  {
    hide Search.Inv, Search.Extends, AllPids, SimpleCycle, DirectedCycle, Closings, Caught;
    var s := new CycleSearch();
    Initially(g);
    var nodes := g.edges.Keys;
    while nodes != {}
      invariant nodes <= g.edges.Keys
      invariant s.View().Inv(g, []) && s.Sound(g)
      invariant forall p :: p in g.edges && p !in nodes ==> p in s.finished
      decreases |nodes|
    {
      var node :| node in nodes;
      nodes := nodes - {node};
      NothingInStack(g, s.View(), node);
      if s.Colour(node) == UNVISITED {
        assert Init([node]) == [];
        var path := Single(node);
        ghost var before := s.View();
        DfsCycles(g, node, path, s);
        FinishedStays(before, s.View());
      }
    }
    cycles := s.cycles;
    AllCaught(g, cycles, s.View());
  }

  lemma Initially(g: LockGraph)
    ensures Search(map[], Closings([]), []).Inv(g, [])
  {
  }

  lemma {:induction false} AllCaught(g: LockGraph, cycles: seq<Cycle>, s: Search)
    requires s.Inv(g, []) && s.closed == Closings(cycles)
    requires forall p :: p in g.edges ==> p in s.finished
    requires forall c :: c in cycles ==> SimpleCycle(g, c)
    ensures CatchesAll(g, cycles)
  {
    forall c: seq<Pid> | DirectedCycle(g, c) ensures Caught(cycles, c) {
      CycleIsCaught(g, cycles, s, c);
    }
    forall u: Pid, v: Pid ensures s.closed[(u, v)] == 0 || s.closed[(u, v)] == g.EdgeCount(u, v) {
      assert u in s.visited ==> u in s.finished;
    }
  }

  lemma NothingInStack(g: LockGraph, s: Search, node: Pid)
    requires s.Inv(g, []) && node in g.edges
    ensures OnPath(g, [node])
    ensures if s.Colour(node) == UNVISITED then node !in s.visited else node in s.finished
  {
  }

  lemma FinishedStays(a: Search, b: Search)
    requires b.Extends(a)
    ensures forall p :: p in a.finished ==> p in b.finished
  {
  }

  // Follow a cycle from the pid on it that was finished first: its successor cannot have been
  // finished earlier, so the edge between them closes a reported cycle.
  lemma {:induction false} CycleIsCaught(g: LockGraph, cycles: seq<Cycle>, s: Search, c: seq<Pid>)
    requires s.Explained(g) && s.closed == Closings(cycles)
    requires DirectedCycle(g, c) && forall p :: p in g.edges ==> p in s.finished
    ensures Caught(cycles, c)
  {
    assert g.HasEdge(c[0], Next(c, 0));
    var k := FirstIndexIn(s.finished, c);
    var i :| 0 <= i < |c| && c[i] == s.finished[k];
    assert g.HasEdge(c[i], Next(c, i)) && Next(c, i) in c;
    assert Next(c, i) !in s.finished[..k];
  }

  lemma FirstIndexIn(finished: seq<Pid>, c: seq<Pid>) returns (k: nat)
    requires exists p :: p in finished && p in c
    ensures k < |finished| && finished[k] in c
    ensures forall j :: 0 <= j < k ==> finished[j] !in c
  {
    k := 0;
    while finished[k] !in c
      invariant k < |finished| && forall j :: 0 <= j < k ==> finished[j] !in c
      invariant exists j :: k <= j < |finished| && finished[j] in c
      decreases |finished| - k
    {
      k := k + 1;
    }
  }

  // In particular nothing is reported exactly when there is no deadlock, and one poll of n
  // rows never yields more than n cycles.
  lemma ReportedIffCyclic(g: LockGraph, cycles: seq<Cycle>)
    requires CatchesAll(g, cycles)
    ensures cycles == [] <==> forall c :: !DirectedCycle(g, c)
  {
    if cycles != [] {
      assert cycles[0] in cycles;
    }
  }

  lemma {:induction false} NoMoreCyclesThanRows(waits: seq<LockWait>, cycles: seq<Cycle>)
    requires CatchesAll(GraphOf(waits), cycles)
    ensures Closings(cycles) <= multiset(EdgesOf(waits)) && |cycles| <= |waits|
  {
    hide *;
    var reported, rows := Closings(cycles), multiset(EdgesOf(waits));
    forall e: Edge ensures reported[e] <= rows[e] {
      EdgeReportedPerRow(waits, cycles, e);
    }
    SmallerCount(reported, rows);
    SameNumber(waits, cycles);
  }

  lemma {:induction false} SameNumber(waits: seq<LockWait>, cycles: seq<Cycle>)
    ensures |Closings(cycles)| == |cycles| && |multiset(EdgesOf(waits))| == |waits|
  {
  }

  lemma {:induction false} EdgeReportedPerRow(waits: seq<LockWait>, cycles: seq<Cycle>, e: Edge)
    requires CatchesAll(GraphOf(waits), cycles)
    ensures Closings(cycles)[e] <= multiset(EdgesOf(waits))[e]
  {
    GraphKeepsEveryRow(waits, e.0, e.1);
    assert e == (e.0, e.1);
  }

  lemma SmallerCount(a: multiset<Edge>, b: multiset<Edge>)
    requires a <= b
    ensures |a| <= |b|
  {
    assert b == a + (b - a);
  }
}
