/** Grid geometry shared by the maze generator and both solvers (SMPdesign/maze/maze.h). */
module MazeGrid {
  import opened Common

  datatype Rowcol = Rowcol(row: int, col: int)

  datatype Wall = Up | Down | Right | Left

  /** Largest value the COOKIE field holds. */
  const COOKIE: nat := 0x03ff_ffff

  type Cookie = x: nat | x <= COOKIE

  /** One cell word: the wall bits, VISITED, SOLUTION and the COOKIE field. */
  datatype Cell = Cell(walls: set<Wall>, visited: bool, solution: bool, cookie: Cookie)

  type Edge = (Rowcol, Rowcol)

  function Abs(x: int): nat { if x < 0 then -x else x }

  function Distance(a: Rowcol, b: Rowcol): nat { Abs(a.row - b.row) + Abs(a.col - b.col) }

  predicate Adjacent(a: Rowcol, b: Rowcol) { Distance(a, b) == 1 }

  predicate InGrid(nrows: nat, ncols: nat, a: Rowcol) {
    0 <= a.row < nrows && 0 <= a.col < ncols
  }

  /** maze_find_wallbit: the bit of `cur` that blocks the way to `other`. */
  function FindWallbit(cur: Rowcol, other: Rowcol): Wall
    requires Adjacent(cur, other)
  {
    if cur.row == other.row then
      (if cur.col - 1 == other.col then Left else Right)
    else if cur.row - 1 == other.row then Up
    else Down
  }

  /** Distinct neighbours are blocked by distinct bits, so one bit blocks one neighbour. */
  lemma WallbitInjective(a: Rowcol, b: Rowcol, c: Rowcol)
    requires Adjacent(a, b) && Adjacent(a, c)
    ensures FindWallbit(a, b) == FindWallbit(a, c) <==> b == c
  {
  }

  /** The four neighbours in the order every scan visits them: left, right, up, down. */
  function Neighbour(a: Rowcol, i: nat): (b: Rowcol)
    requires i < 4
    ensures Adjacent(a, b)
  {
    if i == 0 then Rowcol(a.row, a.col - 1)
    else if i == 1 then Rowcol(a.row, a.col + 1)
    else if i == 2 then Rowcol(a.row - 1, a.col)
    else Rowcol(a.row + 1, a.col)
  }

  lemma NeighboursAreAll(a: Rowcol, b: Rowcol)
    requires Adjacent(a, b)
    ensures b == Neighbour(a, 0) || b == Neighbour(a, 1) || b == Neighbour(a, 2) || b == Neighbour(a, 3)
  {
  }

  ghost function AllCells(nrows: nat, ncols: nat): set<Rowcol> {
    set r, c | 0 <= r < nrows && 0 <= c < ncols :: Rowcol(r, c)
  }

  ghost function AllEdges(nrows: nat, ncols: nat): set<Edge> {
    set a, b | a in AllCells(nrows, ncols) && b in AllCells(nrows, ncols) && Adjacent(a, b) :: (a, b)
  }

  lemma AllEdgesMeaning(nrows: nat, ncols: nat)
    ensures forall a, b :: (a, b) in AllEdges(nrows, ncols) <==>
      InGrid(nrows, ncols, a) && InGrid(nrows, ncols, b) && Adjacent(a, b)
  {
    forall a | InGrid(nrows, ncols, a) ensures a in AllCells(nrows, ncols) { assert a == Rowcol(a.row, a.col); }
  }

  ghost function RowCells(r: int, ncols: nat): set<Rowcol> {
    set c | 0 <= c < ncols :: Rowcol(r, c)
  }

  lemma {:induction false} RowSize(r: int, ncols: nat)
    ensures |RowCells(r, ncols)| == ncols
  {
    if ncols == 0 {
      assert RowCells(r, ncols) == {};
    } else {
      RowSize(r, ncols - 1);
      assert RowCells(r, ncols) == RowCells(r, ncols - 1) + {Rowcol(r, ncols - 1)};
    }
  }

  lemma LastRow(nrows: nat, ncols: nat)
    requires 0 < nrows
    ensures AllCells(nrows, ncols) == AllCells(nrows - 1, ncols) + RowCells(nrows - 1, ncols)
    ensures AllCells(nrows - 1, ncols) !! RowCells(nrows - 1, ncols)
  {
    forall a | a in AllCells(nrows, ncols)
      ensures a in AllCells(nrows - 1, ncols) + RowCells(nrows - 1, ncols)
    {
      if a.row < nrows - 1 { assert a == Rowcol(a.row, a.col); }
    }
  }

  lemma {:induction false} AllCellsSize(nrows: nat, ncols: nat)
    ensures |AllCells(nrows, ncols)| == nrows * ncols
  {
    if nrows == 0 {
      assert AllCells(nrows, ncols) == {};
    } else {
      hide AllCells, RowCells;
      AllCellsSize(nrows - 1, ncols);
      RowSize(nrows - 1, ncols);
      LastRow(nrows, ncols);
      assert (nrows - 1) * ncols + ncols == nrows * ncols;
    }
  }

  lemma SubsetSize<T>(a: set<T>, b: set<T>)
    requires a <= b
    ensures |a| <= |b| && (|a| == |b| ==> a == b)
  {
    assert b == a + (b - a);
  }

  /** A duplicate-free list of cells is no longer than the grid, and shorter while some cell
      is missing from it. */
  lemma ListFits(nrows: nat, ncols: nat, order: seq<Rowcol>)
    requires Distinct(order) && forall a :: a in order ==> InGrid(nrows, ncols, a)
    ensures |order| <= nrows * ncols
    ensures |order| == nrows * ncols <==> forall a :: InGrid(nrows, ncols, a) ==> a in order
  {
    var cells := Members(order);
    MembersSize(order);
    AllCellsSize(nrows, ncols);
    SubsetSize(cells, AllCells(nrows, ncols));
    if forall a :: InGrid(nrows, ncols, a) ==> a in order {
      forall x | x in AllCells(nrows, ncols) ensures x in cells {}
      assert cells == AllCells(nrows, ncols);
    }
    if |order| == nrows * ncols {
      forall a | InGrid(nrows, ncols, a) ensures a in order { assert a in AllCells(nrows, ncols); }
    }
  }

  /** A nonempty set of cells closed under grid adjacency is the whole grid. */
  lemma {:induction false} GridConnected(nrows: nat, ncols: nat, order: seq<Rowcol>, from: Rowcol, to: Rowcol)
    requires from in order && InGrid(nrows, ncols, from) && InGrid(nrows, ncols, to)
    requires forall a, b :: a in order && Adjacent(a, b) && InGrid(nrows, ncols, b) ==> b in order
    ensures to in order
    decreases Distance(from, to)
  {
    if from != to {
      var step :=
        if from.row < to.row then Rowcol(from.row + 1, from.col)
        else if from.row > to.row then Rowcol(from.row - 1, from.col)
        else if from.col < to.col then Rowcol(from.row, from.col + 1)
        else Rowcol(from.row, from.col - 1);
      assert Adjacent(from, step);
      GridConnected(nrows, ncols, order, step, to);
    }
  }

  // ----- walks through open edges

  ghost predicate Symmetric(edges: set<Edge>) {
    forall a, b :: (a, b) in edges ==> (b, a) in edges
  }

  ghost predicate Walk(edges: set<Edge>, p: seq<Rowcol>) {
    p != [] && forall i :: 0 <= i < |p| - 1 ==> (p[i], p[i + 1]) in edges
  }

  ghost predicate WalkFromTo(edges: set<Edge>, p: seq<Rowcol>, a: Rowcol, b: Rowcol) {
    Walk(edges, p) && p[0] == a && p[|p| - 1] == b
  }

  ghost predicate SimplePathFromTo(edges: set<Edge>, p: seq<Rowcol>, a: Rowcol, b: Rowcol) {
    WalkFromTo(edges, p, a, b) && Distinct(p)
  }

  ghost predicate Reachable(edges: set<Edge>, a: Rowcol, b: Rowcol) {
    exists p :: WalkFromTo(edges, p, a, b)
  }

  lemma {:induction false} ClosedHoldsWalk(edges: set<Edge>, order: seq<Rowcol>, p: seq<Rowcol>, k: nat)
    requires Walk(edges, p) && p[0] in order && k < |p|
    requires forall a, b :: a in order && (a, b) in edges ==> b in order
    ensures p[k] in order
  {
    if k > 0 {
      ClosedHoldsWalk(edges, order, p, k - 1);
      assert (p[k - 1], p[k - 1 + 1]) in edges;
    }
  }

  /** A walk between neighbouring cells is longer than the grid distance it covers. */
  lemma {:induction false} WalkAtLeastDistance(edges: set<Edge>, p: seq<Rowcol>, a: Rowcol, b: Rowcol)
    requires WalkFromTo(edges, p, a, b) && forall e :: e in edges ==> Adjacent(e.0, e.1)
    ensures |p| > Distance(a, b)
  {
    if |p| > 1 {
      var q := p[..|p| - 1];
      assert (p[|p| - 2], p[|p| - 2 + 1]) in edges;
      assert WalkFromTo(edges, q, a, p[|p| - 2]) by {
        forall i | 0 <= i < |q| - 1 ensures (q[i], q[i + 1]) in edges { assert (p[i], p[i + 1]) in edges; }
      }
      WalkAtLeastDistance(edges, q, a, p[|p| - 2]);
    }
  }

  lemma WalkAppend(edges: set<Edge>, p: seq<Rowcol>, a: Rowcol, b: Rowcol, c: Rowcol)
    requires WalkFromTo(edges, p, a, b) && (b, c) in edges
    ensures WalkFromTo(edges, p + [c], a, c)
  {
    var q := p + [c];
    forall i | 0 <= i < |q| - 1
      ensures (q[i], q[i + 1]) in edges
    {
      if i < |p| - 1 { assert (p[i], p[i + 1]) in edges; }
    }
  }
}
