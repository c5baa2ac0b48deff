/** The lock dependency graph: who blocks whom, and the wait row last seen for each waiter. */
module LockGraphs {
  import opened Slices
  import opened Sorting

  datatype LockWait = LockWait(blockingPid: Pid, waitingPid: Pid, waitDurationMs: int)

  // One row's edge, from the blocker to the waiter.
  type Edge = (Pid, Pid)

  datatype LockGraph = LockGraph(edges: map<Pid, seq<Pid>>, waitInfo: map<Pid, LockWait>) {
    // Looking up an absent key yields the nil slice.
    function Waiters(p: Pid): seq<Pid> {
      if p in edges then edges[p] else []
    }

    // How many parallel edges lead from u to v.
    function EdgeCount(u: Pid, v: Pid): nat {
      multiset(Waiters(u))[v]
    }

    predicate HasEdge(u: Pid, v: Pid) {
      v in Waiters(u)
    }

    // Blockers that are not waiting themselves.
    predicate IsRoot(p: Pid) {
      p in edges && !exists k :: k in waitInfo && waitInfo[k].waitingPid == p
    }
  }

  function AddWait(g: LockGraph, w: LockWait): LockGraph {
    LockGraph(g.edges[w.blockingPid := g.Waiters(w.blockingPid) + [w.waitingPid]],
              g.waitInfo[w.waitingPid := w])
  }

  function GraphOf(waits: seq<LockWait>): LockGraph {
    if waits == [] then LockGraph(map[], map[])
    else AddWait(GraphOf(waits[..|waits| - 1]), waits[|waits| - 1])
  }

  method BuildLockGraph(waits: seq<LockWait>) returns (g: LockGraph)
    ensures g == GraphOf(waits)
  {
    g := LockGraph(map[], map[]);
    for i := 0 to |waits|
      invariant g == GraphOf(waits[..i])
    {
      assert waits[..i + 1][..i] == waits[..i];
      g := LockGraph(g.edges[waits[i].blockingPid := g.Waiters(waits[i].blockingPid) + [waits[i].waitingPid]],
                     g.waitInfo[waits[i].waitingPid := waits[i]]);
    }
    assert waits[..|waits|] == waits;
  }

  function EdgesOf(waits: seq<LockWait>): (es: seq<Edge>)
    ensures |es| == |waits|
  {
    seq(|waits|, i requires 0 <= i < |waits| => (waits[i].blockingPid, waits[i].waitingPid))
  }

  // The graph holds one edge per wait row, no more and no fewer.
  lemma {:induction false} GraphKeepsEveryRow(waits: seq<LockWait>, u: Pid, v: Pid)
    ensures GraphOf(waits).EdgeCount(u, v) == multiset(EdgesOf(waits))[(u, v)]
  {
    if waits == [] {
    } else {
      var init, last := waits[..|waits| - 1], waits[|waits| - 1];
      GraphKeepsEveryRow(init, u, v);
      assert EdgesOf(waits) == EdgesOf(init) + [(last.blockingPid, last.waitingPid)];
    }
  }

  // What every built graph satisfies: an edge list is never empty, exactly the pids at the
  // end of some edge are waiters, and each waiter's row is filed under its own pid.
  ghost predicate WellFormed(g: LockGraph) {
    && (forall b :: b in g.edges ==> g.edges[b] != [])
    && (forall k :: k in g.waitInfo ==> g.waitInfo[k].waitingPid == k)
    && (forall k :: k in g.waitInfo ==> g.HasEdge(g.waitInfo[k].blockingPid, k))
    && (forall u, v :: g.HasEdge(u, v) ==> v in g.waitInfo)
  }

  lemma {:induction false} BuiltIsWellFormed(waits: seq<LockWait>)
    ensures WellFormed(GraphOf(waits))
  {
    if waits == [] {
    } else {
      BuiltIsWellFormed(waits[..|waits| - 1]);
      var before, g := GraphOf(waits[..|waits| - 1]), GraphOf(waits);
      forall u, v | g.HasEdge(u, v) ensures v in g.waitInfo {
        assert before.HasEdge(u, v) || v == waits[|waits| - 1].waitingPid;
      }
    }
  }

  lemma {:induction false} RowIsEdge(waits: seq<LockWait>, i: nat)
    requires i < |waits|
    ensures GraphOf(waits).HasEdge(waits[i].blockingPid, waits[i].waitingPid)
  {
    GraphKeepsEveryRow(waits, waits[i].blockingPid, waits[i].waitingPid);
    assert EdgesOf(waits)[i] == (waits[i].blockingPid, waits[i].waitingPid);
  }

  // Walks

  ghost predicate Walk(g: LockGraph, c: seq<Pid>) {
    && c != []
    && forall i :: 0 <= i < |c| - 1 ==> g.HasEdge(c[i], c[i + 1])
  }

  function Elems(c: seq<Pid>): set<Pid> {
    set p | p in c
  }

  function Last<T>(c: seq<T>): T
    requires c != []
  {
    c[|c| - 1]
  }

  function Init<T>(c: seq<T>): seq<T>
    requires c != []
  {
    c[..|c| - 1]
  }

  ghost predicate Adjacent(c: seq<Pid>, u: Pid, v: Pid) {
    exists i :: 0 <= i < |c| - 1 && c[i] == u && c[i + 1] == v
  }
}
