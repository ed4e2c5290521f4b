/** Pure facts behind maze_create: what each carving step keeps about the carved tree. */
module MazeTree {
  import opened Common
  import opened MazeGrid
  import TreePaths

  /** What the mutable maze records: open edges, cells in visit order, distances, marks. */
  datatype Picture = Picture(edges: set<Edge>, order: seq<Rowcol>, dist: map<Rowcol, nat>, marked: set<Rowcol>)

  ghost predicate GridEdges(edges: set<Edge>) {
    forall e :: e in edges ==> Adjacent(e.0, e.1)
  }

  /** The open edges among visited cells are exactly the edges of the tree in which cell
      number k > 0 hangs below cell number par[k]; distances count cells from the root. */
  ghost predicate SpanTree(v: Picture, par: seq<nat>) {
    |par| == |v.order| && 0 < |par| && TreePaths.IsTree(par)
    && Distinct(v.order) && Symmetric(v.edges) && GridEdges(v.edges)
    && (forall i, j :: 0 <= i < |par| && 0 <= j < |par| ==>
      ((v.order[i], v.order[j]) in v.edges <==> TreePaths.TreeAdjacent(par, i, j)))
    && v.order[0] in v.dist && v.dist[v.order[0]] == 1
    && (forall k :: 1 <= k < |par| ==>
      v.order[k] in v.dist && v.order[par[k]] in v.dist && v.dist[v.order[k]] == v.dist[v.order[par[k]]] + 1)
  }

  /** Open edges from a visited to an unvisited cell start only at cells of s. */
  ghost predicate Frontier(v: Picture, s: set<Rowcol>) {
    forall a, b :: (a, b) in v.edges && a in v.order && b !in v.order ==> a in s
  }

  /** v' visits next from cur, through an open edge, one further from the root. */
  ghost predicate Stepped(v: Picture, v': Picture, cur: Rowcol, next: Rowcol) {
    (cur, next) in v.edges && next !in v.order && cur in v.dist
    && v' == v.(order := v.order + [next], dist := v.dist[next := v.dist[cur] + 1])
  }

  /** The walls implied by the succession prev, cur, next. */
  ghost function Walled(edges: set<Edge>, prev: Rowcol, cur: Rowcol, next: Rowcol): set<Edge> {
    set e | e in edges && !(e.0 == cur && e.1 != prev && e.1 != next) && !(e.1 == cur && e.0 != prev && e.0 != next)
  }

  lemma VisitKeepsTree(v: Picture, v': Picture, par: seq<nat>, next: Rowcol)
    requires SpanTree(v, par)
    requires var cur := v.order[|v.order| - 1]; Frontier(v, {cur}) && Stepped(v, v', cur, next)
    ensures SpanTree(v', par + [|par| - 1])
    ensures Frontier(v', {v.order[|v.order| - 1], next})
  {
    AttachLeaf(v, v', par, |par| - 1, next);
  }

  /** Attaching a leaf below cell k whose only open edge to the tree leads there. */
  lemma AttachLeaf(v: Picture, v': Picture, par: seq<nat>, k: nat, next: Rowcol)
    requires SpanTree(v, par) && k < |par| && next !in v.order
    requires v'.order == v.order + [next] && Symmetric(v'.edges) && GridEdges(v'.edges)
    requires v.order[k] in v.dist && v'.dist == v.dist[next := v.dist[v.order[k]] + 1]
    requires forall a, b :: a in v.order && b in v.order ==> ((a, b) in v.edges <==> (a, b) in v'.edges)
    requires forall a :: a in v.order ==> ((a, next) in v'.edges <==> a == v.order[k])
    ensures SpanTree(v', par + [k])
  {
    var par', n := par + [k], |par|;
    forall i, j | 0 <= i <= n && 0 <= j <= n
      ensures (v'.order[i], v'.order[j]) in v'.edges <==> TreePaths.TreeAdjacent(par', i, j)
    {
      if i < n && j < n {
        assert v.order[i] in v.order && v.order[j] in v.order;
        assert TreePaths.TreeAdjacent(par, i, j) <==> TreePaths.TreeAdjacent(par', i, j);
      } else if i < n {
        assert v.order[i] in v.order;
      } else if j < n {
        assert v.order[j] in v.order;
      }
    }
  }

  /** Walling in cell number k, all of whose tree neighbours are prev and next. */
  lemma WallsKeepTree(v: Picture, par: seq<nat>, k: nat, prev: Rowcol, next: Rowcol)
    requires SpanTree(v, par) && k < |par|
    requires forall j :: 0 <= j < |par| && TreePaths.TreeAdjacent(par, k, j) ==>
      v.order[j] == prev || v.order[j] == next
    ensures SpanTree(v.(edges := Walled(v.edges, prev, v.order[k], next)), par)
  {
    var cur := v.order[k];
    var w := Walled(v.edges, prev, cur, next);
    forall i, j | 0 <= i < |par| && 0 <= j < |par|
      ensures (v.order[i], v.order[j]) in w <==> TreePaths.TreeAdjacent(par, i, j)
    {
      if TreePaths.TreeAdjacent(par, i, j) {
        assert TreePaths.TreeAdjacent(par, j, i);
      }
    }
  }

  /** After a continuing step, cur's tree neighbours are its parent prev and its child next. */
  lemma ContinueKeepsTree(v: Picture, par: seq<nat>, prev: Rowcol)
    requires 2 <= |par| && SpanTree(v, par)
    requires var n := |par|; par[n - 1] == n - 2 && (if n == 2 then prev == v.order[0] else prev == v.order[par[n - 2]])
    requires Frontier(v, {v.order[|par| - 2], v.order[|par| - 1]})
    ensures var n := |par|; var w := Walled(v.edges, prev, v.order[n - 2], v.order[n - 1]);
      SpanTree(v.(edges := w), par) && Frontier(v.(edges := w), {v.order[n - 1]})
  {
    hide Walled, Frontier;
    var n := |par|;
    if n > 2 { assert par[n - 2] < n - 2; }
    assert v.order[if n == 2 then 0 else par[n - 2]] == prev;
    WallsKeepTree(v, par, n - 2, prev, v.order[n - 1]);
    WallsMoveFrontier(v, prev, v.order[n - 2], v.order[n - 1]);
  }

  lemma WallsMoveFrontier(v: Picture, prev: Rowcol, cur: Rowcol, next: Rowcol)
    requires Frontier(v, {cur, next}) && prev in v.order && next in v.order
    ensures Frontier(v.(edges := Walled(v.edges, prev, cur, next)), {next})
  {
  }

  lemma EndKeepsTree(v: Picture, par: seq<nat>, prev: Rowcol)
    requires 2 <= |par| && SpanTree(v, par) && prev == v.order[par[|par| - 1]]
    requires Frontier(v, {v.order[|par| - 1]})
    ensures var w := Walled(v.edges, prev, v.order[|par| - 1], prev);
      SpanTree(v.(edges := w), par) && Frontier(v.(edges := w), {})
  {
    WallsKeepTree(v, par, |par| - 1, prev, prev);
  }

  /** Opening one wall of a finished segment and visiting the cell behind it. */
  lemma BoundaryKeepsTree(v: Picture, v': Picture, par: seq<nat>, k: nat, cr: Rowcol)
    requires SpanTree(v, par) && Frontier(v, {}) && k < |par| && cr !in v.order && v.order[k] in v.dist
    requires v' == v.(edges := v.edges + {(v.order[k], cr), (cr, v.order[k])}, order := v.order + [cr],
                      dist := v.dist[cr := v.dist[v.order[k]] + 1])
    requires Adjacent(v.order[k], cr)
    ensures SpanTree(v', par + [k]) && Frontier(v', {cr})
  {
    assert v.order[k] in v.order;
    AttachLeaf(v, v', par, k, cr);
  }

  /** The state between two steps of a segment: cur was visited last, from prev, and is the
      only visited cell that opens onto unvisited ones. */
  ghost predicate Growing(v: Picture, par: seq<nat>, prev: Rowcol, cur: Rowcol) {
    SpanTree(v, par) && 1 < |par| && cur == v.order[|par| - 1] && Frontier(v, {cur})
    && par[|par| - 1] < |par| - 1 && prev == v.order[par[|par| - 1]]
  }

  /** The state between two segments. */
  ghost predicate Settled(v: Picture, par: seq<nat>) {
    SpanTree(v, par) && Frontier(v, {})
  }

  lemma GrowingFacts(v: Picture, par: seq<nat>, prev: Rowcol, cur: Rowcol)
    requires Growing(v, par, prev, cur)
    ensures Adjacent(prev, cur) && cur in v.order && cur in v.dist && v.dist[cur] <= |v.order|
  {
    DistanceBound(v, par, |par| - 1);
    assert TreePaths.TreeAdjacent(par, par[|par| - 1], |par| - 1);
    assert (v.order[par[|par| - 1]], v.order[|par| - 1]) in v.edges;
  }

  lemma GrowStart(v: Picture, v1: Picture, v2: Picture, par: seq<nat>, cur: Rowcol, next: Rowcol)
    requires SpanTree(v, par) && |par| == 1 && cur == v.order[0] && Frontier(v, {cur})
    requires Stepped(v, v1, cur, next) && v2 == v1.(edges := Walled(v1.edges, cur, cur, next))
    ensures Growing(v2, par + [0], cur, next)
  {
    VisitKeepsTree(v, v1, par, next);
    ContinueKeepsTree(v1, par + [0], cur);
  }

  lemma GrowStep(v: Picture, v1: Picture, v2: Picture, par: seq<nat>, prev: Rowcol, cur: Rowcol, next: Rowcol)
    requires Growing(v, par, prev, cur)
    requires Stepped(v, v1, cur, next) && v2 == v1.(edges := Walled(v1.edges, prev, cur, next))
    ensures Growing(v2, par + [|par| - 1], cur, next)
  {
    VisitKeepsTree(v, v1, par, next);
    ContinueKeepsTree(v1, par + [|par| - 1], prev);
  }

  lemma GrowEnd(v: Picture, v1: Picture, par: seq<nat>, prev: Rowcol, cur: Rowcol)
    requires Growing(v, par, prev, cur) && v1 == v.(edges := Walled(v.edges, prev, cur, prev))
    ensures Settled(v1, par)
  {
    EndKeepsTree(v, par, prev);
  }

  /** Opening a wall between two segments starts the next one. */
  lemma GrowAcross(v: Picture, v1: Picture, v2: Picture, par: seq<nat>, k: nat, cr: Rowcol, d: nat)
    requires Settled(v, par) && k < |par| && cr !in v.order && Adjacent(v.order[k], cr)
    requires v.order[k] in v.dist && v.dist[v.order[k]] == d
    requires v1 == v.(edges := v.edges + {(v.order[k], cr), (cr, v.order[k])})
    requires v2 == v1.(order := v1.order + [cr], dist := v1.dist[cr := d + 1])
    ensures Growing(v2, par + [k], v.order[k], cr)
  {
    BoundaryKeepsTree(v, v2, par, k, cr);
  }

  /** A stuck segment builds no walls: it already has all the walls it needs. */
  lemma GrowStuck(v: Picture, par: seq<nat>, cur: Rowcol)
    requires SpanTree(v, par) && Frontier(v, {cur})
    requires forall b :: (cur, b) in v.edges ==> b in v.order
    ensures Settled(v, par)
  {
  }

  /** Distances never exceed the number of cells visited so far. */
  lemma {:induction false} DistanceBound(v: Picture, par: seq<nat>, k: nat)
    requires SpanTree(v, par) && k < |par|
    ensures v.order[k] in v.dist && 1 <= v.dist[v.order[k]] <= k + 1
    decreases k
  {
    if k > 0 { DistanceBound(v, par, par[k]); }
  }

  /** A distance is at least the grid distance from the root, plus one. */
  lemma {:induction false} DistanceAtLeastGrid(v: Picture, par: seq<nat>, k: nat)
    requires SpanTree(v, par) && k < |par|
    ensures v.order[k] in v.dist && v.dist[v.order[k]] > Distance(v.order[0], v.order[k])
    decreases k
  {
    if k > 0 {
      DistanceAtLeastGrid(v, par, par[k]);
      assert TreePaths.TreeAdjacent(par, par[k], k);
      assert (v.order[par[k]], v.order[k]) in v.edges;
    }
  }

  // ----- the meaning of a spanning tree

  /** Any two cells of the grid are joined by exactly one simple path of open edges. */
  ghost predicate UniquelyConnected(nrows: nat, ncols: nat, edges: set<Edge>) {
    forall a, b :: InGrid(nrows, ncols, a) && InGrid(nrows, ncols, b) ==>
      (exists p :: SimplePathFromTo(edges, p, a, b))
      && (forall p, q :: SimplePathFromTo(edges, p, a, b) && SimplePathFromTo(edges, q, a, b) ==> p == q)
  }

  ghost function IndexOf(order: seq<Rowcol>, a: Rowcol): (k: nat)
    requires a in order
    ensures k < |order| && order[k] == a
  {
    var k :| 0 <= k < |order| && order[k] == a; k
  }

  ghost function Indexes(order: seq<Rowcol>, p: seq<Rowcol>): (q: seq<nat>)
    requires forall a :: a in p ==> a in order
    ensures |q| == |p| && forall i :: 0 <= i < |p| ==> q[i] < |order| && order[q[i]] == p[i]
  {
    seq(|p|, i requires 0 <= i < |p| => IndexOf(order, p[i]))
  }

  lemma IndexPath(v: Picture, par: seq<nat>, p: seq<Rowcol>)
    requires SpanTree(v, par) && Walk(v.edges, p) && Distinct(p)
    requires forall a :: a in p ==> a in v.order
    ensures TreePaths.SimplePath(par, Indexes(v.order, p))
  {
    var q := Indexes(v.order, p);
    forall i | 0 <= i < |q| - 1
      ensures TreePaths.TreeAdjacent(par, q[i], q[i + 1])
    {
      assert (p[i], p[i + 1]) in v.edges;
    }
    forall i, j | 0 <= i < j < |q|
      ensures q[i] != q[j]
    {
      assert p[i] != p[j];
    }
  }

  lemma SpanTreeUniquePath(v: Picture, par: seq<nat>, a: Rowcol, b: Rowcol, p: seq<Rowcol>, q: seq<Rowcol>)
    requires SpanTree(v, par)
    requires forall e :: e in v.edges ==> e.0 in v.order && e.1 in v.order
    requires SimplePathFromTo(v.edges, p, a, b) && SimplePathFromTo(v.edges, q, a, b)
    requires a in v.order
    ensures p == q
  {
    forall k | 0 <= k < |p| ensures p[k] in v.order { ClosedHoldsWalk(v.edges, v.order, p, k); }
    forall k | 0 <= k < |q| ensures q[k] in v.order { ClosedHoldsWalk(v.edges, v.order, q, k); }
    IndexPath(v, par, p);
    IndexPath(v, par, q);
    var x, y := Indexes(v.order, p), Indexes(v.order, q);
    assert x[0] == y[0] by { assert v.order[x[0]] == a == v.order[y[0]]; }
    assert x[|x| - 1] == y[|y| - 1] by { assert v.order[x[|x| - 1]] == b == v.order[y[|y| - 1]]; }
    TreePaths.SimplePathUnique(par, x, y);
    assert forall i :: 0 <= i < |p| ==> p[i] == v.order[x[i]] == q[i];
  }

  lemma SpanTreePathExists(v: Picture, par: seq<nat>, a: Rowcol, b: Rowcol)
    requires SpanTree(v, par) && a in v.order && b in v.order
    ensures exists p :: SimplePathFromTo(v.edges, p, a, b)
  {
    var x := TreePaths.SimplePathExists(par, IndexOf(v.order, a), IndexOf(v.order, b));
    forall i | 0 <= i < |x|
      ensures x[i] < |par|
    {
      assert x[i] in x;
    }
    var p := seq(|x|, i requires 0 <= i < |x| => v.order[x[i]]);
    forall i | 0 <= i < |p| - 1
      ensures (p[i], p[i + 1]) in v.edges
    {
      assert TreePaths.TreeAdjacent(par, x[i], x[i + 1]);
    }
    forall i, j | 0 <= i < j < |p|
      ensures p[i] != p[j]
    {
      assert x[i] != x[j];
    }
    assert SimplePathFromTo(v.edges, p, a, b);
  }

  lemma SpanTreeIsUniquelyConnected(v: Picture, par: seq<nat>, nrows: nat, ncols: nat)
    requires SpanTree(v, par)
    requires forall a :: InGrid(nrows, ncols, a) ==> a in v.order
    requires forall e :: e in v.edges ==> InGrid(nrows, ncols, e.0) && InGrid(nrows, ncols, e.1)
    ensures UniquelyConnected(nrows, ncols, v.edges)
  {
    forall a, b | InGrid(nrows, ncols, a) && InGrid(nrows, ncols, b)
      ensures exists p :: SimplePathFromTo(v.edges, p, a, b)
      ensures forall p, q :: SimplePathFromTo(v.edges, p, a, b) && SimplePathFromTo(v.edges, q, a, b) ==> p == q
    {
      SpanTreePathExists(v, par, a, b);
      forall p, q | SimplePathFromTo(v.edges, p, a, b) && SimplePathFromTo(v.edges, q, a, b)
        ensures p == q
      {
        SpanTreeUniquePath(v, par, a, b, p, q);
      }
    }
  }

  // ----- the search tree of the sequential solver

  /** Every visited cell but the root hangs, through an open edge and one step further out,
      below an earlier one; unvisited cells have distance zero. */
  ghost predicate Searched(v: Picture, par: seq<nat>) {
    |par| == |v.order| && 0 < |par| && TreePaths.IsTree(par)
    && Distinct(v.order) && Symmetric(v.edges) && GridEdges(v.edges)
    && (forall e :: e in v.edges ==> e.0 in v.dist && e.1 in v.dist)
    && (forall a :: a in v.order ==> a in v.dist)
    && (forall a :: a in v.dist && a !in v.order ==> v.dist[a] == 0)
    && v.dist[v.order[0]] == 1
    && (forall k :: 1 <= k < |par| ==>
      (v.order[par[k]], v.order[k]) in v.edges && v.dist[v.order[k]] == v.dist[v.order[par[k]]] + 1)
  }

  /** Everything open to cell number k has been visited. */
  ghost predicate Explored(v: Picture, k: nat) {
    k < |v.order| && forall b :: (v.order[k], b) in v.edges ==> b in v.order
  }

  lemma {:induction false} SearchDepth(v: Picture, par: seq<nat>, k: nat)
    requires Searched(v, par) && k < |par|
    ensures v.order[k] in v.dist && (if k == 0 then v.dist[v.order[k]] == 1 else 2 <= v.dist[v.order[k]] <= k + 1)
    decreases k
  {
    if k > 0 { SearchDepth(v, par, par[k]); }
  }

  lemma SearchFacts(v: Picture, par: seq<nat>, k: nat)
    requires Searched(v, par) && k < |v.order|
    ensures |par| == |v.order| && v.order[k] in v.dist && v.dist[v.order[k]] <= |v.order|
  {
    SearchDepth(v, par, k);
  }

  lemma SearchStep(v: Picture, v': Picture, par: seq<nat>, k: nat, next: Rowcol)
    requires Searched(v, par) && k < |par| && Stepped(v, v', v.order[k], next)
    ensures Searched(v', par + [k])
  {
    assert v.order[k] in v.order;
    forall j | 0 <= j < |par| ensures v.order[j] in v.order && v.order[j] != next {}
  }

  lemma SearchedIgnoresMarks(v: Picture, v': Picture, par: seq<nat>)
    requires Searched(v, par) && v' == v.(marked := v'.marked)
    ensures Searched(v', par)
  {
  }

  lemma HasPredecessor(v: Picture, par: seq<nat>, a: Rowcol) returns (t: Rowcol)
    requires Searched(v, par) && a in v.order && a != v.order[0]
    ensures (a, t) in v.edges && t in v.dist && a in v.dist && v.dist[a] == v.dist[t] + 1
    ensures Adjacent(a, t)
  {
    var k := IndexOf(v.order, a);
    t := v.order[par[k]];
    assert (t, a) in v.edges;
    assert (a, t) in v.edges;
  }

  lemma PredecessorIsVisited(v: Picture, par: seq<nat>, a: Rowcol, t: Rowcol)
    requires Searched(v, par) && a in v.order && a != v.order[0]
    requires (a, t) in v.edges && v.dist[a] == v.dist[t] + 1
    ensures (t, a) in v.edges && t in v.order
  {
    SearchDepth(v, par, IndexOf(v.order, a));
  }

  /** path leads from cur to end, one step further from the root at each cell. */
  ghost predicate MarkedPath(v: Picture, path: seq<Rowcol>, cur: Rowcol, end: Rowcol) {
    WalkFromTo(v.edges, path, cur, end) && cur in v.dist
    && forall i :: 0 <= i < |path| ==> path[i] in v.dist && v.dist[path[i]] == v.dist[cur] + i
  }

  lemma MarkedPathGrows(v: Picture, path: seq<Rowcol>, cur: Rowcol, end: Rowcol)
    requires path != [] && MarkedPath(v, path, path[0], end)
    requires (cur, path[0]) in v.edges && cur in v.dist && v.dist[path[0]] == v.dist[cur] + 1
    ensures MarkedPath(v, [cur] + path, cur, end)
  {
    var q := [cur] + path;
    forall i | 0 <= i < |q| - 1
      ensures (q[i], q[i + 1]) in v.edges
    {
      if 0 < i { assert (path[i - 1], path[i - 1 + 1]) in v.edges; }
    }
  }

  lemma MarkedPathIsSimple(v: Picture, par: seq<nat>, path: seq<Rowcol>, start: Rowcol, end: Rowcol)
    requires Searched(v, par) && v.order[0] == start && MarkedPath(v, path, start, end)
    ensures SimplePathFromTo(v.edges, path, start, end) && v.dist[end] == |path|
  {
    forall i, j | 0 <= i < j < |path|
      ensures path[i] != path[j]
    {
      assert v.dist[path[i]] != v.dist[path[j]];
    }
  }

  /** The search has explored the first k visited cells and not met end; if found, next was
      visited last and has yet to be compared with end. */
  ghost predicate Looking(v: Picture, par: seq<nat>, edges: set<Edge>, start: Rowcol, end: Rowcol, k: nat,
                          found: bool, next: Rowcol)
  {
    Searched(v, par) && v.edges == edges && v.marked == {} && v.order[0] == start && k < |v.order|
    && (forall j :: 0 <= j < k ==> Explored(v, j))
    && (if found then 2 <= |par| && next == v.order[|par| - 1] && (end in v.order[..|par| - 1] ==> end == start)
        else end in v.order ==> end == start)
  }

  lemma LookingStep(v: Picture, v': Picture, par: seq<nat>, edges: set<Edge>, start: Rowcol, end: Rowcol, k: nat,
                    j: nat, next: Rowcol)
    requires Looking(v, par, edges, start, end, k, false, next) && j < |v.order|
    requires Stepped(v, v', v.order[j], next)
    ensures Looking(v', par + [j], edges, start, end, k, true, next)
  {
    SearchStep(v, v', par, j, next);
    assert v'.order[..|par|] == v.order;
    forall i | 0 <= i < k
      ensures Explored(v', i)
    {
      assert Explored(v, i) && v'.order[i] == v.order[i];
    }
  }

  lemma LookingPast(v: Picture, par: seq<nat>, edges: set<Edge>, start: Rowcol, end: Rowcol, k: nat, next: Rowcol)
    requires Looking(v, par, edges, start, end, k, true, next) && next != end
    ensures Looking(v, par, edges, start, end, k, false, next)
  {
    assert v.order == v.order[..|par| - 1] + [next];
  }

  lemma LookingNext(v: Picture, par: seq<nat>, edges: set<Edge>, start: Rowcol, end: Rowcol, k: nat, next: Rowcol)
    requires Looking(v, par, edges, start, end, k, false, next) && Explored(v, k)
    ensures k + 1 < |v.order| ==> Looking(v, par, edges, start, end, k + 1, false, next)
    ensures k + 1 >= |v.order| ==> start == end || !Reachable(edges, start, end)
  {
    if k + 1 >= |v.order| { NotReachable(v, start, end); }
  }

  lemma LookingFound(v: Picture, par: seq<nat>, edges: set<Edge>, start: Rowcol, end: Rowcol, k: nat, next: Rowcol)
    requires Looking(v, par, edges, start, end, k, true, next) && next == end
    ensures Searched(v, par) && end in v.order && start != end && Reachable(edges, start, end)
  {
    ReachedEnd(v, par, |par| - 1);
  }

  /** A fully explored search that missed end proves there is no walk to it. */
  lemma NotReachable(v: Picture, start: Rowcol, end: Rowcol)
    requires v.order != [] && v.order[0] == start && (end in v.order ==> end == start)
    requires forall j :: 0 <= j < |v.order| ==> Explored(v, j)
    ensures start == end || !Reachable(v.edges, start, end)
  {
    forall a, b | a in v.order && (a, b) in v.edges
      ensures b in v.order
    {
      assert Explored(v, IndexOf(v.order, a));
    }
    forall p | WalkFromTo(v.edges, p, start, end)
      ensures end in v.order
    {
      ClosedHoldsWalk(v.edges, v.order, p, |p| - 1);
    }
  }

  lemma {:induction false} ReachedEnd(v: Picture, par: seq<nat>, k: nat)
    requires Searched(v, par) && k < |par|
    ensures Reachable(v.edges, v.order[0], v.order[k])
    decreases k
  {
    if k == 0 {
      assert WalkFromTo(v.edges, [v.order[0]], v.order[0], v.order[0]);
    } else {
      ReachedEnd(v, par, par[k]);
      var p :| WalkFromTo(v.edges, p, v.order[0], v.order[par[k]]);
      WalkAppend(v.edges, p, v.order[0], v.order[par[k]], v.order[k]);
    }
  }

  // ----- when a distance overflows

  /** Every visited cell hangs, through an open edge and one step further out, below an earlier
      one: what the carved tree and the search tree have in common. */
  ghost predicate Rooted(v: Picture, par: seq<nat>) {
    |par| == |v.order| && 0 < |par| && TreePaths.IsTree(par) && (forall a :: a in v.order ==> a in v.dist)
    && v.dist[v.order[0]] == 1
    && forall k :: 1 <= k < |par| ==>
      (v.order[par[k]], v.order[k]) in v.edges && v.dist[v.order[k]] == v.dist[v.order[par[k]]] + 1
  }

  lemma SearchedIsRooted(v: Picture, par: seq<nat>)
    requires Searched(v, par)
    ensures Rooted(v, par)
  {
  }

  lemma SpanTreeIsRooted(v: Picture, par: seq<nat>)
    requires SpanTree(v, par)
    ensures Rooted(v, par)
  {
    forall k | 1 <= k < |par|
      ensures (v.order[par[k]], v.order[k]) in v.edges
    {
      assert TreePaths.TreeAdjacent(par, par[k], k);
    }
  }

  /** A cell's distance is the length of a simple path from the root through visited cells. */
  lemma {:induction false} RootPath(v: Picture, par: seq<nat>, k: nat) returns (p: seq<Rowcol>)
    requires Rooted(v, par) && k < |par|
    ensures SimplePathFromTo(v.edges, p, v.order[0], v.order[k]) && |p| == v.dist[v.order[k]]
    ensures forall i :: 0 <= i < |p| ==> p[i] in v.order && v.dist[p[i]] == i + 1
    decreases k
  {
    if k == 0 {
      p := [v.order[0]];
    } else {
      var q := RootPath(v, par, par[k]);
      p := q + [v.order[k]];
      WalkAppend(v.edges, q, v.order[0], v.order[par[k]], v.order[k]);
      forall i, j | 0 <= i < j < |p|
        ensures p[i] != p[j]
      {
        assert v.dist[p[i]] == i + 1 && v.dist[p[j]] == j + 1;
      }
    }
  }

  /** Some simple path from start has more cells than the COOKIE field can count. */
  ghost predicate LongPath(edges: set<Edge>, start: Rowcol) {
    exists x, p :: SimplePathFromTo(edges, p, start, x) && |p| > COOKIE
  }

  /** A visit whose distance overflows ends a simple path that is too long. */
  lemma OverflowNeedsLongPath(v: Picture, par: seq<nat>, k: nat, next: Rowcol, edges: set<Edge>)
    requires Rooted(v, par) && k < |par| && next !in v.order && v.edges <= edges && (v.order[k], next) in edges
    requires v.dist[v.order[k]] >= COOKIE
    ensures LongPath(edges, v.order[0])
  {
    var p := RootPath(v, par, k);
    forall i | 0 <= i < |p| - 1
      ensures (p[i], p[i + 1]) in edges
    {
      assert (p[i], p[i + 1]) in v.edges;
    }
    WalkAppend(edges, p, v.order[0], v.order[k], next);
    assert SimplePathFromTo(edges, p + [next], v.order[0], next);
  }

  /** The same for a segment's next cell, whether carved onto or across a boundary. */
  lemma GrowOverflow(v: Picture, par: seq<nat>, k: nat, next: Rowcol, edges: set<Edge>)
    requires SpanTree(v, par) && k < |par| && next !in v.order && v.edges <= edges && (v.order[k], next) in edges
    requires v.dist[v.order[k]] >= COOKIE
    ensures LongPath(edges, v.order[0])
  {
    SpanTreeIsRooted(v, par);
    OverflowNeedsLongPath(v, par, k, next, edges);
  }

  /** A simple path within the grid is no longer than the grid has cells. */
  lemma LongPathNeedsRoom(nrows: nat, ncols: nat, edges: set<Edge>, start: Rowcol)
    requires LongPath(edges, start) && InGrid(nrows, ncols, start)
    requires forall e :: e in edges ==> InGrid(nrows, ncols, e.1)
    ensures nrows * ncols > COOKIE
  {
    var x, p :| SimplePathFromTo(edges, p, start, x) && |p| > COOKIE;
    forall a | a in p
      ensures InGrid(nrows, ncols, a)
    {
      var i :| 0 <= i < |p| && p[i] == a;
      if i > 0 { assert (p[i - 1], p[i - 1 + 1]) in edges; }
    }
    ListFits(nrows, ncols, p);
  }

  /** In a finished maze every simple path from the root has as many cells as the distance of
      its end. */
  lemma FinishedPathLength(v: Picture, par: seq<nat>, p: seq<Rowcol>, x: Rowcol)
    requires SpanTree(v, par) && SimplePathFromTo(v.edges, p, v.order[0], x) && x in v.order
    requires forall e :: e in v.edges ==> e.0 in v.order && e.1 in v.order
    ensures x in v.dist && |p| == v.dist[x]
  {
    SpanTreeIsRooted(v, par);
    var q := RootPath(v, par, IndexOf(v.order, x));
    SpanTreeUniquePath(v, par, v.order[0], x, p, q);
  }

  // ----- the search with unbounded distances

  /** Neighbour i of c is connected and unvisited. */
  ghost predicate Opens(v: Picture, c: Rowcol, i: nat)
    requires i < 4
  {
    (c, Neighbour(c, i)) in v.edges && Neighbour(c, i) !in v.order
  }

  /** The number of the neighbour maze_find_any_next_cell visits, 4 if there is none. */
  ghost function FirstOpen(v: Picture, c: Rowcol): (i: nat) {
    if Opens(v, c, 0) then 0 else if Opens(v, c, 1) then 1 else if Opens(v, c, 2) then 2 else if Opens(v, c, 3) then 3
      else 4
  }

  ghost function Visit(v: Picture, c: Rowcol, next: Rowcol): Picture
    requires c in v.dist
  {
    v.(order := v.order + [next], dist := v.dist[next := v.dist[c] + 1])
  }

  /** The search of maze_solve on a grid of n cells, at visited cell number j with vi == k,
      gives some cell a distance above COOKIE before it meets end or runs out of cells. */
  ghost predicate Overruns(v: Picture, end: Rowcol, n: nat, k: nat, j: nat)
    decreases n - |v.order|, |v.order| - k, if j == k then 0 else 1
  {
    k < |v.order| && j < |v.order| <= n && v.order[j] in v.dist &&
    var c, i := v.order[j], FirstOpen(v, v.order[j]);
    if i < 4 then
      v.dist[c] >= COOKIE
      || (Neighbour(c, i) != end && |v.order| < n && Overruns(Visit(v, c, Neighbour(c, i)), end, n, k, |v.order|))
    else if j != k then Overruns(v, end, n, k, k)
    else k + 1 < |v.order| && Overruns(v, end, n, k + 1, k + 1)
  }

  /** What is left of Overruns after looking at cell number j, having found next or nothing. */
  ghost predicate StillOverruns(v: Picture, end: Rowcol, n: nat, k: nat, j: nat, found: bool, next: Rowcol) {
    v.order != [] && if found then next != end && Overruns(v, end, n, k, |v.order| - 1)
    else if j != k then Overruns(v, end, n, k, k)
    else k + 1 < |v.order| && Overruns(v, end, n, k + 1, k + 1)
  }

  lemma OverrunsNow(v: Picture, end: Rowcol, n: nat, k: nat, j: nat)
    requires k < |v.order| && j < |v.order| <= n && v.order[j] in v.dist
    requires FirstOpen(v, v.order[j]) < 4 && v.dist[v.order[j]] >= COOKIE
    ensures Overruns(v, end, n, k, j)
  {
  }

  lemma OverrunsStep(v: Picture, v': Picture, end: Rowcol, n: nat, k: nat, j: nat, found: bool, next: Rowcol)
    requires k < |v.order| && j < |v.order| <= n && v.order[j] in v.dist
    requires found ==> FirstOpen(v, v.order[j]) < 4 && next == Neighbour(v.order[j], FirstOpen(v, v.order[j]))
    requires found ==> v.dist[v.order[j]] < COOKIE && v' == Visit(v, v.order[j], next) && |v'.order| <= n
    requires !found ==> FirstOpen(v, v.order[j]) == 4 && v' == v
    ensures Overruns(v, end, n, k, j) <==> StillOverruns(v', end, n, k, j, found, next)
  {
  }

  /** So overrunning takes a simple path of more than COOKIE cells. */
  lemma {:induction false} OverrunNeedsLongPath(v: Picture, par: seq<nat>, end: Rowcol, n: nat, k: nat, j: nat)
    requires Searched(v, par) && Overruns(v, end, n, k, j)
    ensures LongPath(v.edges, v.order[0])
    decreases n - |v.order|, |v.order| - k, if j == k then 0 else 1
  {
    var c, i := v.order[j], FirstOpen(v, v.order[j]);
    if i < 4 {
      var next := Neighbour(c, i);
      if v.dist[c] >= COOKIE {
        SearchedIsRooted(v, par);
        OverflowNeedsLongPath(v, par, j, next, v.edges);
      } else {
        SearchStep(v, Visit(v, c, next), par, j, next);
        OverrunNeedsLongPath(Visit(v, c, next), par + [j], end, n, k, |v.order|);
      }
    } else if j != k {
      OverrunNeedsLongPath(v, par, end, n, k, k);
    } else {
      OverrunNeedsLongPath(v, par, end, n, k + 1, k + 1);
    }
  }
}
