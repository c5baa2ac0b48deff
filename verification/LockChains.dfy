/** Chain enumeration: every way a root blocker holds up other sessions, found by a
    backtracking depth-first search. */
module LockChains {
  import opened Slices
  import opened Sorting
  import opened LockGraphs

  type Chain = seq<Pid>

  // The enumeration the search stands for, without any marks: extend the path by each waiter
  // in turn, stopping at a pid that blocks nobody or that the path already holds.
  ghost function Chains(g: LockGraph, path: seq<Pid>): seq<Chain>
    requires path != [] && Distinct(path)
    decreases g.edges.Keys - Elems(Init(path)), 0, 0
  {
    var ws := g.Waiters(Last(path));
    if ws == [] then [path]
    else
      assert Last(path) in g.edges.Keys && Last(path) !in Elems(Init(path)) && Last(path) in Elems(path);
      assert g.edges.Keys - Elems(path) < g.edges.Keys - Elems(Init(path));
      ChainsVia(g, path, ws)
  }

  ghost function ChainsVia(g: LockGraph, path: seq<Pid>, ws: seq<Pid>): seq<Chain>
    requires path != [] && Distinct(path)
    decreases g.edges.Keys - Elems(path), 1, |ws|
  {
    if ws == [] then [] else ChainsVia(g, path, Init(ws)) + Branch(g, path, Last(ws))
  }

  ghost function Branch(g: LockGraph, path: seq<Pid>, w: Pid): seq<Chain>
    requires path != [] && Distinct(path)
    decreases g.edges.Keys - Elems(path), 1, 0
  {
    assert Init(path + [w]) == path;
    if w in path then [path + [w]] else Chains(g, path + [w])
  }

  // The visited map of one search, shared by all its calls. An absent pid reads as unmarked.
  class Marks {
    var visited: set<Pid>

    constructor ()
      ensures visited == {}
    {
      visited := {};
    }
  }

  ghost predicate IsLeaf(g: LockGraph, p: Pid) {
    g.Waiters(p) == []
  }

  // The marks cover the path below the current node, plus leaves whose mark went stale
  // because the leaf case never removes it.
  ghost predicate MarksCover(g: LockGraph, below: seq<Pid>, visited: set<Pid>) {
    && Elems(below) <= visited
    && forall p :: p in visited && p !in below ==> IsLeaf(g, p)
  }

  // A marked waiter is on the path or a leaf, and for both the marked case records the chain
  // that the unmarked search would.
  lemma {:induction false} StaleMarkIsHarmless(g: LockGraph, path: seq<Pid>, visited: set<Pid>, w: Pid)
    requires path != [] && Distinct(path)
    requires MarksCover(g, path, visited) && w in visited
    ensures Branch(g, path, w) == [path + [w]]
  {
    if w !in path {
      assert IsLeaf(g, w) && Last(path + [w]) == w;
    }
  }

  method DfsChains(g: LockGraph, node: Pid, path: Slice, marks: Marks) returns (chains: seq<Chain>)
    requires path.Valid() && path.len > 0
    requires Distinct(path.View()) && Last(path.View()) == node
    requires MarksCover(g, Init(path.View()), marks.visited)
    modifies path.buf, marks
    ensures path.View() == old(path.View())
    ensures chains == Chains(g, old(path.View()))
    ensures MarksCover(g, Init(path.View()), marks.visited)
    decreases g.edges.Keys - Elems(Init(path.View()))
  {
    ghost var p := path.View();
    marks.visited := marks.visited + {node};
    var waiters := g.Waiters(node);
    if waiters == [] {
      return [path.buf[..path.len]];
    }
    assert node in g.edges.Keys && node !in Elems(Init(p)) && node in Elems(p);
    chains := [];
    for i := 0 to |waiters|
      invariant path.View() == p
      invariant chains == ChainsVia(g, p, waiters[..i])
      invariant MarksCover(g, p, marks.visited)
    {
      var waiter := waiters[i];
      assert Init(waiters[..i + 1]) == waiters[..i];
      if waiter in marks.visited {
        StaleMarkIsHarmless(g, p, marks.visited, waiter);
        chains := chains + [path.buf[..path.len] + [waiter]];
      } else {
        var longer := Append(path, waiter);
        assert Init(longer.View()) == p;
        var more := DfsChains(g, waiter, longer, marks);
        chains := chains + more;
      }
    }
    assert waiters[..|waiters|] == waiters;
    marks.visited := marks.visited - {node};
  }

  // The roots are collected from two map iterations, whose order is left open.
  method FindChains(g: LockGraph) returns (chains: seq<Chain>)
    ensures Enumerates(g, chains) && RootByRoot(g, chains)
  {
    hide ChainCount, EndsRight, WalkCount, Chains;
    var waiters: set<Pid> := {};
    var infos := g.waitInfo.Keys;
    while infos != {}
      invariant infos <= g.waitInfo.Keys
      invariant forall p :: p in waiters <==>
                  exists k :: k in g.waitInfo && k !in infos && g.waitInfo[k].waitingPid == p
      decreases |infos|
    {
      var k :| k in infos;
      infos := infos - {k};
      waiters := waiters + {g.waitInfo[k].waitingPid};
    }

    var roots: seq<Pid> := [];
    var blockers := g.edges.Keys;
    while blockers != {}
      invariant blockers <= g.edges.Keys
      invariant Distinct(roots)
      invariant forall p :: p in roots <==> p !in blockers && g.IsRoot(p)
      decreases |blockers|
    {
      var blocker :| blocker in blockers;
      blockers := blockers - {blocker};
      if blocker !in waiters {
        roots := roots + [blocker];
      }
    }

    chains := [];
    for i := 0 to |roots|
      invariant chains == ChainsFrom(g, roots[..i])
    {
      assert Init(roots[..i + 1]) == roots[..i];
      var path := Single(roots[i]);
      var marks := new Marks();
      assert Init([roots[i]]) == [];
      var more := DfsChains(g, roots[i], path, marks);
      chains := chains + more;
    }
    assert roots[..|roots|] == roots;
    RootsEnumerate(g, roots);
  }

  ghost function ChainsFrom(g: LockGraph, roots: seq<Pid>): seq<Chain> {
    if roots == [] then [] else ChainsFrom(g, Init(roots)) + Chains(g, [Last(roots)])
  }

  // The chains of one root come together, in the order of its edge lists.
  ghost predicate RootByRoot(g: LockGraph, chains: seq<Chain>) {
    exists roots: seq<Pid> ::
      Distinct(roots) && (forall p: Pid :: p in roots <==> g.IsRoot(p)) && chains == ChainsFrom(g, roots)
  }

  // A reference definition of what is reported, independent of any search: a chain starts at
  // a root, repeats no pid before its last step, ends at a pid that blocks nobody or at the
  // first repeated one, and is reported once for every way to pick one of the parallel
  // edges at each step (so not at all when some step is no edge).

  ghost predicate EndsRight(g: LockGraph, c: Chain) {
    c != [] && Distinct(Init(c)) && (Last(c) in Init(c) || IsLeaf(g, Last(c)))
  }

  // The ways to walk c from position k on.
  ghost function WalkCount(g: LockGraph, c: Chain, k: nat := 0): nat
    decreases |c| - k
  {
    if k + 1 >= |c| then 1 else g.EdgeCount(c[k], c[k + 1]) * WalkCount(g, c, k + 1)
  }

  ghost function ChainCount(g: LockGraph, c: Chain): nat {
    if EndsRight(g, c) && g.IsRoot(c[0]) then WalkCount(g, c) else 0
  }

  ghost predicate Enumerates(g: LockGraph, chains: seq<Chain>) {
    forall c: Chain :: multiset(chains)[c] == ChainCount(g, c)
  }

  lemma {:induction false} CountChains(g: LockGraph, path: seq<Pid>, c: Chain)
    requires path != [] && Distinct(path)
    ensures multiset(Chains(g, path))[c] ==
            if path <= c && EndsRight(g, c) then WalkCount(g, c, |path| - 1) else 0
    decreases g.edges.Keys - Elems(Init(path)), 0, 0
  {
    var ws := g.Waiters(Last(path));
    if ws == [] {
      NoWayOn(g, path, c);
      assert path <= c && |c| == |path| ==> c == path;
      hide WalkCount, Distinct;
    } else {
      assert Last(path) in g.edges.Keys && Last(path) !in Elems(Init(path)) && Last(path) in Elems(path);
      CountVia(g, path, ws, c);
      if path <= c && EndsRight(g, c) {
        assert path < c;
      }
      hide EndsRight, Chains, ChainsVia, Distinct;
    }
  }

  // Past a leaf nothing can be walked.
  lemma {:induction false} NoWayOn(g: LockGraph, path: seq<Pid>, c: Chain)
    requires path != [] && IsLeaf(g, Last(path))
    ensures path <= c ==> WalkCount(g, c, |path| - 1) == if |c| > |path| then 0 else 1
  {
    if path <= c && |c| > |path| {
      assert g.EdgeCount(c[|path| - 1], c[|path|]) == 0;
    }
  }

  lemma {:induction false} CountVia(g: LockGraph, path: seq<Pid>, ws: seq<Pid>, c: Chain)
    requires path != [] && Distinct(path)
    ensures multiset(ChainsVia(g, path, ws))[c] ==
            if path < c && EndsRight(g, c) then multiset(ws)[c[|path|]] * WalkCount(g, c, |path|) else 0
    decreases g.edges.Keys - Elems(path), 1, |ws|
  {
    hide EndsRight, WalkCount, Branch, Distinct;
    if ws == [] {
    } else {
      CountVia(g, path, Init(ws), c);
      CountBranch(g, path, Last(ws), c);
      if path < c {
        CountLast(ws, c[|path|]);
        AddOne(multiset(Init(ws))[c[|path|]], WalkCount(g, c, |path|));
      }
    }
  }

  lemma CountLast(ws: seq<Pid>, x: Pid)
    requires ws != []
    ensures multiset(ws)[x] == multiset(Init(ws))[x] + if x == Last(ws) then 1 else 0
  {
    assert ws == Init(ws) + [Last(ws)];
  }

  lemma AddOne(m: nat, n: nat)
    ensures (m + 1) * n == m * n + n
  {
  }

  lemma {:induction false} CountBranch(g: LockGraph, path: seq<Pid>, w: Pid, c: Chain)
    requires path != [] && Distinct(path)
    ensures multiset(Branch(g, path, w))[c] ==
            if path < c && EndsRight(g, c) && c[|path|] == w then WalkCount(g, c, |path|) else 0
    decreases g.edges.Keys - Elems(path), 1, 0
  {
    assert Init(path + [w]) == path;
    assert path < c && c[|path|] == w <==> path + [w] <= c;
    if w in path {
      var i :| 0 <= i < |path| && path[i] == w;
      if path + [w] <= c {
        if |c| > |path| + 1 {
          assert Init(c)[i] == Init(c)[|path|];
        } else {
          assert c == path + [w];
        }
      }
    } else {
      CountChains(g, path + [w], c);
    }
  }

  lemma LastRoot(roots: seq<Pid>, p: Pid)
    requires roots != [] && Distinct(roots)
    ensures p in roots <==> p in Init(roots) || p == Last(roots)
    ensures p == Last(roots) ==> p !in Init(roots)
    ensures Distinct(Init(roots))
  {
    assert roots == Init(roots) + [Last(roots)];
  }

  lemma {:induction false} CountFromRoots(g: LockGraph, roots: seq<Pid>, c: Chain)
    requires Distinct(roots)
    ensures multiset(ChainsFrom(g, roots))[c] ==
            if EndsRight(g, c) && c[0] in roots then WalkCount(g, c) else 0
  {
    hide WalkCount, Chains;
    if roots == [] {
    } else {
      CountFromRoots(g, Init(roots), c);
      CountChains(g, [Last(roots)], c);
      if EndsRight(g, c) {
        hide EndsRight;
        LastRoot(roots, c[0]);
        assert [Last(roots)] <= c <==> c[0] == Last(roots);
      }
    }
  }

  lemma {:induction false} RootsEnumerate(g: LockGraph, roots: seq<Pid>)
    requires Distinct(roots) && forall p: Pid :: p in roots <==> g.IsRoot(p)
    ensures Enumerates(g, ChainsFrom(g, roots))
  {
    hide LockGraph.IsRoot;
    forall c: Chain ensures multiset(ChainsFrom(g, roots))[c] == ChainCount(g, c) {
      CountFromRoots(g, roots, c);
    }
  }
}
