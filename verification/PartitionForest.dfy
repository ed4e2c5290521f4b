/** The forest the partitioned maze solver of SMPdesign/maze/maze_part.c grows: one tree per
    child thread, rooted at the thread's start, with distances counting cells from the root.
 */
module PartitionForest {
  import opened Common
  import opened MazeGrid

  /** tid and dist are the thread-ID and distance words of every cell; unvisited cells hold 0. */
  datatype Forest = Forest(edges: set<Edge>, tid: map<Rowcol, nat>, dist: map<Rowcol, nat>,
                           visited: set<Rowcol>, starts: seq<Rowcol>)

  /** maze_is_prev_cell. */
  ghost predicate IsPrev(f: Forest, c: Rowcol, e: Rowcol) {
    (c, e) in f.edges && c in f.tid && e in f.tid && f.tid[c] == f.tid[e]
    && c in f.dist && e in f.dist && f.dist[c] == f.dist[e] + 1
  }

  ghost predicate CellOk(f: Forest, c: Rowcol)
    requires c in f.tid && c in f.dist
  {
    if c in f.visited then
      f.tid[c] < |f.starts| && 1 <= f.dist[c]
      && (f.dist[c] == 1 <==> c == f.starts[f.tid[c]])
      && (f.dist[c] > 1 ==> exists e :: IsPrev(f, c, e))
    else
      f.tid[c] == 0 && f.dist[c] == 0
  }

  ghost predicate ForestOk(f: Forest) {
    Symmetric(f.edges) && (forall e :: e in f.edges ==> Adjacent(e.0, e.1) && e.0 in f.tid && e.1 in f.tid)
    && f.tid.Keys == f.dist.Keys && f.visited <= f.tid.Keys
    && (forall c :: c in f.tid ==> CellOk(f, c))
    && (forall t :: 0 <= t < |f.starts| ==> f.starts[t] in f.visited && f.tid[f.starts[t]] == t)
  }

  /** The neighbour the marking loops move to: the first predecessor among up, down, left, right. */
  ghost function PrevOf(f: Forest, c: Rowcol): (e: Rowcol)
    requires ForestOk(f) && c in f.visited && f.dist[c] > 1
    ensures IsPrev(f, c, e) && e in f.visited
  {
    var w :| IsPrev(f, c, w);
    NeighboursAreAll(c, w);
    if IsPrev(f, c, Neighbour(c, 2)) then Neighbour(c, 2)
    else if IsPrev(f, c, Neighbour(c, 3)) then Neighbour(c, 3)
    else if IsPrev(f, c, Neighbour(c, 0)) then Neighbour(c, 0)
    else Neighbour(c, 1)
  }

  /** Two visited cells of one thread. */
  ghost predicate SameTree(f: Forest, a: Rowcol, b: Rowcol) {
    a in f.visited && b in f.visited && a in f.tid && b in f.tid && a in f.dist && b in f.dist && f.tid[a] == f.tid[b]
  }

  /** PrevOf is found by trying up, down and left; right is what remains. */
  lemma PrevCases(f: Forest, c: Rowcol)
    requires ForestOk(f) && c in f.visited && f.dist[c] > 1
    ensures PrevOf(f, c) == if IsPrev(f, c, Neighbour(c, 2)) then Neighbour(c, 2)
      else if IsPrev(f, c, Neighbour(c, 3)) then Neighbour(c, 3)
      else if IsPrev(f, c, Neighbour(c, 0)) then Neighbour(c, 0) else Neighbour(c, 1)
  {
  }

  /** The path between two cells of one tree, climbing the deeper end first. */
  ghost function TreePath(f: Forest, a: Rowcol, b: Rowcol): (p: seq<Rowcol>)
    requires ForestOk(f) && SameTree(f, a, b)
    ensures p != [] && p[0] == a && p[|p| - 1] == b
    ensures forall c :: c in p ==> c in f.visited && f.tid[c] == f.tid[a]
    decreases f.dist[a] + f.dist[b]
  {
    if a == b then [a]
    else if f.dist[a] > f.dist[b] then [a] + TreePath(f, PrevOf(f, a), b)
    else
      assert CellOk(f, a) && CellOk(f, b);
      TreePath(f, a, PrevOf(f, b)) + [b]
  }

  /** No cell of the path is deeper than its ends, and only the ends are as deep. */
  lemma {:induction false} TreePathDepth(f: Forest, a: Rowcol, b: Rowcol, c: Rowcol)
    requires ForestOk(f) && SameTree(f, a, b) && c in TreePath(f, a, b)
    ensures f.dist[c] <= f.dist[a] || f.dist[c] <= f.dist[b]
    ensures f.dist[c] >= f.dist[a] && f.dist[c] >= f.dist[b] ==> c == a || c == b
    decreases f.dist[a] + f.dist[b]
  {
    if a == b {
    } else if f.dist[a] > f.dist[b] {
      if c != a { TreePathDepth(f, PrevOf(f, a), b, c); }
    } else {
      assert CellOk(f, a) && CellOk(f, b);
      if c != b { TreePathDepth(f, a, PrevOf(f, b), c); }
    }
  }

  /** The tree path is a simple walk through open edges. */
  lemma {:induction false} TreePathSimple(f: Forest, a: Rowcol, b: Rowcol)
    requires ForestOk(f) && SameTree(f, a, b)
    ensures SimplePathFromTo(f.edges, TreePath(f, a, b), a, b)
    decreases f.dist[a] + f.dist[b]
  {
    if a == b {
    } else if f.dist[a] > f.dist[b] {
      var p := TreePath(f, PrevOf(f, a), b);
      TreePathSimple(f, PrevOf(f, a), b);
      if a in p { TreePathDepth(f, PrevOf(f, a), b, a); }
      JoinPaths(f.edges, [a], p, a, a, PrevOf(f, a), b);
    } else {
      assert CellOk(f, a) && CellOk(f, b);
      var p := TreePath(f, a, PrevOf(f, b));
      TreePathSimple(f, a, PrevOf(f, b));
      if b in p { TreePathDepth(f, a, PrevOf(f, b), b); }
      JoinPaths(f.edges, p, [b], a, PrevOf(f, b), b, b);
    }
  }

  /** From a root the path has as many cells as the other end's distance. */
  lemma {:induction false} RootPathLength(f: Forest, a: Rowcol, b: Rowcol)
    requires ForestOk(f) && SameTree(f, a, b)
    ensures f.dist[a] == 1 ==> |TreePath(f, a, b)| == f.dist[b]
    ensures f.dist[b] == 1 ==> |TreePath(f, a, b)| == f.dist[a]
    decreases f.dist[a] + f.dist[b]
  {
    assert CellOk(f, a) && CellOk(f, b);
    if a == b {
    } else if f.dist[a] > f.dist[b] {
      RootPathLength(f, PrevOf(f, a), b);
    } else {
      RootPathLength(f, a, PrevOf(f, b));
    }
  }

  /** Two disjoint simple paths joined by an open edge. */
  lemma JoinPaths(edges: set<Edge>, p: seq<Rowcol>, q: seq<Rowcol>, a: Rowcol, b: Rowcol, c: Rowcol, d: Rowcol)
    requires SimplePathFromTo(edges, p, a, b) && SimplePathFromTo(edges, q, c, d)
    requires (b, c) in edges && Symmetric(edges) && forall x :: x in p ==> x !in q
    ensures SimplePathFromTo(edges, p + q, a, d)
  {
    var r := p + q;
    forall i | 0 <= i < |r| - 1
      ensures (r[i], r[i + 1]) in edges
    {
      if i < |p| - 1 { assert (p[i], p[i + 1]) in edges; }
      else if i >= |p| { assert (q[i - |p|], q[i - |p| + 1]) in edges; }
    }
    forall i, j | 0 <= i < j < |r|
      ensures r[i] != r[j]
    {
      if i < |p| <= j { assert p[i] in p && q[j - |p|] in q; }
      else if i >= |p| { assert q[i - |p|] != q[j - |p|]; }
    }
  }

  /** What one child stored about an encounter: my cell and their cell, or -1 throughout. */
  datatype Encounter = Encounter(mr: int, mc: int, tr: int, tc: int)

  const NoEncounter := Encounter(-1, -1, -1, -1)

  function Mine(e: Encounter): Rowcol { Rowcol(e.mr, e.mc) }

  function Theirs(e: Encounter): Rowcol { Rowcol(e.tr, e.tc) }

  function Swap(e: Encounter): Encounter { Encounter(e.tr, e.tc, e.mr, e.mc) }

  ghost predicate EncounterFits(f: Forest, i: nat, j: nat, e: Encounter) {
    e.mr >= 0 && e.tr >= 0 && Mine(e) in f.visited && Theirs(e) in f.visited
    && Mine(e) in f.tid && Theirs(e) in f.tid && f.tid[Mine(e)] == i && f.tid[Theirs(e)] == j
    && (Mine(e), Theirs(e)) in f.edges
  }

  /** A recorded encounter is an open edge from a cell of thread i to a cell of thread j. */
  ghost predicate EncounterOk(f: Forest, i: nat, j: nat, e: Encounter) {
    (e.mr == -1 ==> e == NoEncounter) && (e.mr != -1 ==> EncounterFits(f, i, j, e))
  }

  lemma SwapOk(f: Forest, i: nat, j: nat, e: Encounter)
    requires ForestOk(f) && EncounterOk(f, i, j, e)
    ensures EncounterOk(f, j, i, Swap(e))
  {
  }
}
