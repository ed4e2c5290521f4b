/** The maze generator of SMPdesign/maze/maze.c linked with the sequential helpers and solver
    of SMPdesign/maze/maze_seq.c.  Random draws are nondeterministic choices.

    Every method that can ABORT because a distance overflows the COOKIE field returns
    ok == false there; every other ABORT of the source is a proved-unreachable precondition.
 */
module SequentialMaze {
  import opened Common
  import opened MazeGrid
  import opened MazeTree

  datatype Segment = Continue | Stuck | End

  class Maze {
    const nrows: nat
    const ncols: nat
    const cell: array2<Cell>
    const visited: array<Rowcol>
    var vi: nat
    var lastvi: int

    ghost predicate Shape()
      reads `vi
    {
      0 < nrows && 0 < ncols && cell.Length0 == nrows && cell.Length1 == ncols
      && visited.Length == nrows * ncols && vi <= visited.Length
    }

    /** visited[..vi] lists, once each, exactly the cells whose VISITED bit is set. */
    ghost predicate Valid()
      reads `vi, cell, visited
      ensures Valid() ==> Shape()
    {
      Shape() && Distinct(Order())
      && forall a :: (a in Order() ==> InGrid(nrows, ncols, a))
                  && (InGrid(nrows, ncols, a) ==> (a in Order() <==> cell[a.row, a.col].visited))
    }

    ghost function Order(): seq<Rowcol>
      requires vi <= visited.Length
      reads `vi, visited
    {
      visited[..vi]
    }

    predicate CellExists(a: Rowcol) {
      a.row >= 0 && a.row < nrows && a.col >= 0 && a.col < ncols
    }

    predicate CellVisited(a: Rowcol)
      requires Shape()
      reads `vi, cell
    {
      if !CellExists(a) then true else cell[a.row, a.col].visited
    }

    predicate CellsConnected(a: Rowcol, b: Rowcol)
      requires Shape() && Adjacent(a, b)
      reads `vi, cell
    {
      CellExists(a) && CellExists(b) && FindWallbit(a, b) !in cell[a.row, a.col].walls
    }

    ghost function Edges(): set<Edge>
      requires Shape()
      reads `vi, cell
    {
      set a, b | a in AllCells(nrows, ncols) && b in AllCells(nrows, ncols)
                 && Adjacent(a, b) && CellsConnected(a, b) :: (a, b)
    }

    ghost function Dist(): map<Rowcol, nat>
      requires Shape()
      reads `vi, cell
    {
      map a | a in AllCells(nrows, ncols) :: cell[a.row, a.col].cookie
    }

    ghost function Marked(): set<Rowcol>
      requires Shape()
      reads `vi, cell
    {
      set a | a in AllCells(nrows, ncols) && cell[a.row, a.col].solution
    }

    lemma CellsAreAll()
      ensures forall a :: a in AllCells(nrows, ncols) <==> InGrid(nrows, ncols, a)
    {
      forall a | InGrid(nrows, ncols, a) ensures a in AllCells(nrows, ncols) { assert a == Rowcol(a.row, a.col); }
    }

    lemma EdgesMeaning()
      requires Shape()
      ensures forall a, b :: (a, b) in Edges() <==> Adjacent(a, b) && CellsConnected(a, b)
    {
      CellsAreAll();
    }

    lemma DistMeaning()
      requires Shape()
      ensures forall a :: a in Dist() <==> InGrid(nrows, ncols, a)
      ensures forall a :: InGrid(nrows, ncols, a) ==> Dist()[a] == cell[a.row, a.col].cookie <= COOKIE
    {
      CellsAreAll();
    }

    ghost function View(): Picture
      requires Shape()
      reads `vi, cell, visited
    {
      Picture(Edges(), Order(), Dist(), Marked())
    }

    /** new_empty_maze: border walls only, nothing visited. */
    constructor (nrows: nat, ncols: nat)
      requires 0 < nrows && 0 < ncols
      ensures this.nrows == nrows && this.ncols == ncols && fresh(cell) && fresh(visited)
      ensures Valid() && vi == 0 && lastvi == -1
      ensures forall r, c :: 0 <= r < nrows && 0 <= c < ncols ==> cell[r, c] == Cell(BorderWalls(r, c), false, false, 0)
      ensures Edges() == AllEdges(nrows, ncols) && Marked() == {}
      ensures forall a :: InGrid(nrows, ncols, a) ==> Dist()[a] == 0
    {
      this.nrows := nrows;
      this.ncols := ncols;
      cell := new Cell[nrows, ncols];
      visited := new Rowcol[nrows * ncols];
      vi := 0;
      lastvi := -1;
      new;
      SetCell(0, 0, {Up, Left});
      SetCell(nrows - 1, 0, {Down, Left});
      SetCell(0, ncols - 1, {Up, Right});
      SetCell(nrows - 1, ncols - 1, {Down, Right});
      var i := 1;
      while i < nrows - 1
        invariant 1 <= i && Shape() && vi == 0 && lastvi == -1
        invariant CornersDone()
        invariant forall r, c :: 1 <= r < i && r < nrows - 1 && 0 <= c < ncols ==> BorderOnly(r, c, cell[r, c])
      {
        SetMiddleRow(i);
        i := i + 1;
      }
      SetTopAndBottom();
      assert forall r, c :: 0 <= r < nrows && 0 <= c < ncols ==> BorderOnly(r, c, cell[r, c]);
      BorderIsOpen();
    }

    lemma BorderIsOpen()
      requires Shape() && forall r, c :: 0 <= r < nrows && 0 <= c < ncols ==> BorderOnly(r, c, cell[r, c])
      ensures Edges() == AllEdges(nrows, ncols) && Marked() == {}
      ensures forall a :: InGrid(nrows, ncols, a) ==> Dist()[a] == 0
    {
      DistMeaning();
      AllEdgesMeaning(nrows, ncols);
      EdgesAre(AllEdges(nrows, ncols));
    }

    method SetMiddleRow(i: int)
      requires Shape() && 1 <= i < nrows - 1
      modifies cell
      ensures forall c :: 0 <= c < ncols ==> BorderOnly(i, c, cell[i, c])
      ensures forall r, c :: 0 <= r < nrows && 0 <= c < ncols && r != i ==> cell[r, c] == old(cell[r, c])
    {
      SetCell(i, 0, {Left});
      SetCell(i, ncols - 1, {Right});
      var j := 1;
      while j < ncols - 1
        invariant 1 <= j
        invariant BorderOnly(i, 0, cell[i, 0]) && BorderOnly(i, ncols - 1, cell[i, ncols - 1])
        invariant forall c :: 1 <= c < j && c < ncols - 1 ==> BorderOnly(i, c, cell[i, c])
        invariant forall r, c :: 0 <= r < nrows && 0 <= c < ncols && r != i ==> cell[r, c] == old(cell[r, c])
      {
        SetCell(i, j, {});
        j := j + 1;
      }
    }

    method SetTopAndBottom()
      requires Shape()
      requires CornersDone()
      modifies cell
      ensures forall r, c :: (r == 0 || r == nrows - 1) && 0 <= c < ncols ==> BorderOnly(r, c, cell[r, c])
      ensures forall r, c :: 1 <= r < nrows - 1 && 0 <= c < ncols ==> cell[r, c] == old(cell[r, c])
    {
      var i := 1;
      while i < ncols - 1
        invariant 1 <= i
        invariant CornersDone()
        invariant forall r, c :: (r == 0 || r == nrows - 1) && 1 <= c < i && c < ncols - 1 ==>
          BorderOnly(r, c, cell[r, c])
        invariant forall r, c :: 1 <= r < nrows - 1 && 0 <= c < ncols ==> cell[r, c] == old(cell[r, c])
      {
        SetCell(0, i, {Up});
        SetCell(nrows - 1, i, {Down});
        i := i + 1;
      }
    }

    ghost predicate CornersDone()
      requires Shape()
      reads `vi, cell
    {
      BorderOnly(0, 0, cell[0, 0]) && BorderOnly(nrows - 1, 0, cell[nrows - 1, 0])
      && BorderOnly(0, ncols - 1, cell[0, ncols - 1]) && BorderOnly(nrows - 1, ncols - 1, cell[nrows - 1, ncols - 1])
    }

    /** The wall bits of the border.  In a single row or column the bits set last win. */
    function BorderWalls(r: int, c: int): set<Wall> {
      (if r == nrows - 1 then {Down} else if r == 0 then {Up} else {})
      + (if c == ncols - 1 then {Right} else if c == 0 then {Left} else {})
    }

    /** The cell has the walls of the border only, and its other fields are clear. */
    ghost predicate BorderOnly(r: int, c: int, w: Cell) { w == Cell(BorderWalls(r, c), false, false, 0) }

    method SetCell(row: int, col: int, walls: set<Wall>)
      requires Shape() && 0 <= row < nrows && 0 <= col < ncols
      modifies cell
      ensures cell[row, col] == Cell(walls, false, false, 0)
      ensures forall r, c :: 0 <= r < nrows && 0 <= c < ncols && (r != row || c != col) ==>
        cell[r, c] == old(cell[r, c])
    {
      cell[row, col] := Cell(walls, false, false, 0);
    }

    /** Appends an unvisited cell to the visit order and records its distance; fails exactly
        when the distance does not fit the COOKIE field. */
    method VisitCell(a: Rowcol, d: nat) returns (ok: bool)
      requires Valid() && InGrid(nrows, ncols, a) && a !in Order()
      modifies this`vi, cell, visited
      ensures Valid()
      ensures ok <==> d <= COOKIE
      ensures |old(Order())| < nrows * ncols
      ensures ok ==> View() == old(View()).(order := old(Order()) + [a], dist := old(Dist())[a := d])
    {
      hide Edges, Dist, Marked, Order, Distinct;
      Enlist(a);
      if d > COOKIE {
        return false;
      }
      SetDistance(a, d);
      ok := true;
    }

    /** Appends an unvisited cell to visited[] and sets its VISITED bit. */
    method Enlist(a: Rowcol)
      requires Valid() && InGrid(nrows, ncols, a) && a !in Order()
      modifies this`vi, cell, visited
      ensures Valid() && |old(Order())| < nrows * ncols && View() == old(View()).(order := old(Order()) + [a])
    {
      hide Distinct;
      OrderFits();
      StaysDistinct(Order(), a);
      ghost var was := Order();
      visited[vi] := a;
      vi := vi + 1;
      assert Order() == was + [a];
      cell[a.row, a.col] := cell[a.row, a.col].(visited := true);
      assert Edges() == old(Edges());
    }

    lemma OrderFits()
      requires Valid()
      ensures |Order()| == vi <= nrows * ncols
      ensures |Order()| == nrows * ncols <==> forall a :: InGrid(nrows, ncols, a) ==> a in Order()
    {
      ListFits(nrows, ncols, Order());
    }

    /** maze_set_cell_distance. */
    method SetDistance(a: Rowcol, d: nat)
      requires Valid() && InGrid(nrows, ncols, a) && d <= COOKIE
      modifies cell
      ensures Valid() && View() == old(View()).(dist := old(Dist())[a := d])
    {
      hide Distinct;
      CellsAreAll();
      cell[a.row, a.col] := cell[a.row, a.col].(cookie := d);
      assert Edges() == old(Edges());
      assert Marked() == old(Marked());
    }

    /** The sequential maze_try_visit_cell: moved iff t is connected to c and unvisited. */
    method TryVisitCell(c: Rowcol, t: Rowcol, d: nat) returns (ok: bool, moved: bool)
      requires Valid() && Adjacent(c, t) && c in Dist() && d == Dist()[c] + 1
      modifies this`vi, cell, visited
      ensures Valid()
      ensures !ok || moved ==> (c, t) in old(Edges()) && t !in old(Order())
      ensures !ok ==> d > COOKIE && |old(Order())| < nrows * ncols
      ensures ok && moved ==> Stepped(old(View()), View(), c, t)
      ensures ok && !moved ==> View() == old(View()) && ((c, t) in Edges() ==> t in Order())
    {
      hide Edges, Dist, Marked, Distinct;
      EdgesMeaning();
      DistMeaning();
      if !CellsConnected(c, t) || CellVisited(t) {
        return true, false;
      }
      ok := VisitCell(t, d);
      moved := true;
    }

    /** Visits the first unvisited connected neighbour, if there is one. */
    method FindAnyNextCell(cur: Rowcol) returns (ok: bool, found: bool, next: Rowcol)
      requires Valid() && cur in Order()
      modifies this`vi, cell, visited
      ensures Valid()
      ensures !ok ==> old(Dist())[cur] >= COOKIE && |old(Order())| < nrows * ncols
      ensures !ok || found ==> FirstOpen(old(View()), cur) < 4 && next == Neighbour(cur, FirstOpen(old(View()), cur))
      ensures !ok ==> (cur, next) in old(Edges()) && next !in old(Order())
      ensures ok && found ==> Stepped(old(View()), View(), cur, next)
      ensures ok && !found ==> View() == old(View()) && FirstOpen(View(), cur) == 4
      ensures ok && !found ==> forall b :: (cur, b) in Edges() ==> b in Order()
    {
      hide Stepped, Edges, Dist, Marked, Order, Distinct, Opens;
      var d := CellDistance(cur);
      d := d + 1;
      ok, found, next := TryNeighbour(cur, 0, d);
      if !ok || found { return; }
      ok, found, next := TryNeighbour(cur, 1, d);
      if !ok || found { return; }
      ok, found, next := TryNeighbour(cur, 2, d);
      if !ok || found { return; }
      ok, found, next := TryNeighbour(cur, 3, d);
      if !ok || found { return; }
      NothingOpens(cur);
    }

    /** One of the four attempts of maze_find_any_next_cell. */
    method TryNeighbour(cur: Rowcol, i: nat, d: nat) returns (ok: bool, moved: bool, next: Rowcol)
      requires Valid() && cur in Order() && i < 4 && cur in Dist() && d == Dist()[cur] + 1
      modifies this`vi, cell, visited
      ensures Valid() && next == Neighbour(cur, i)
      ensures !ok || moved <==> Opens(old(View()), cur, i)
      ensures !ok ==>
        d > COOKIE && (cur, next) in old(Edges()) && next !in old(Order()) && |old(Order())| < nrows * ncols
      ensures ok && moved ==> Stepped(old(View()), View(), cur, next)
      ensures ok && !moved ==> View() == old(View())
    {
      hide Stepped, Edges, Dist, Marked, Order, Distinct;
      next := Neighbour(cur, i);
      ok, moved := TryVisitCell(cur, next, d);
    }

    lemma NothingOpens(cur: Rowcol)
      requires Shape() && forall i :: 0 <= i < 4 ==> !Opens(View(), cur, i)
      ensures forall b :: (cur, b) in Edges() ==> b in Order()
    {
      hide Edges, Dist, Marked, Order;
      forall b | (cur, b) in Edges()
        ensures b in Order()
      {
        EdgesAreAdjacent();
        NeighboursAreAll(cur, b);
        assert !Opens(View(), cur, 0) && !Opens(View(), cur, 1) && !Opens(View(), cur, 2) && !Opens(View(), cur, 3);
      }
    }

    lemma EdgesAreAdjacent()
      requires Shape()
      ensures forall a, b :: (a, b) in Edges() ==> Adjacent(a, b)
    {
    }

    method BuildOneCellWall(wall: Rowcol, prev: Rowcol, cur: Rowcol, next: Rowcol)
      requires Valid() && InGrid(nrows, ncols, cur) && Adjacent(cur, wall)
      modifies cell
      ensures Valid()
      ensures View() == old(View()).(edges := RemoveUnless(old(Edges()), wall, prev, cur, next))
    {
      if wall == prev || wall == next {
        return;
      }
      if CellExists(wall) {
        AddWall(wall, cur);
      } else {
        NoEdgeOutside(wall);
      }
    }

    lemma NoEdgeOutside(a: Rowcol)
      requires Shape() && !CellExists(a)
      ensures forall b :: (a, b) !in Edges() && (b, a) !in Edges()
    {
    }

    method AddWall(wall: Rowcol, cur: Rowcol)
      requires Valid() && InGrid(nrows, ncols, cur) && InGrid(nrows, ncols, wall) && Adjacent(cur, wall)
      modifies cell
      ensures Valid() && View() == old(View()).(edges := old(Edges()) - {(cur, wall), (wall, cur)})
    {
      hide Order, Distinct, Edges, Dist, Marked;
      ghost var was := Edges();
      EdgesMeaning();
      cell[wall.row, wall.col] :=
        cell[wall.row, wall.col].(walls := cell[wall.row, wall.col].walls + {FindWallbit(wall, cur)});
      cell[cur.row, cur.col] :=
        cell[cur.row, cur.col].(walls := cell[cur.row, cur.col].walls + {FindWallbit(cur, wall)});
      EdgesAre(was - {(cur, wall), (wall, cur)});
      OnlyWallsChanged();
    }

    lemma EdgesAre(edges: set<Edge>)
      requires Shape() && forall a, b :: (a, b) in edges <==> Adjacent(a, b) && CellsConnected(a, b)
      ensures Edges() == edges
    {
      EdgesMeaning();
      hide CellsConnected, Edges;
      forall e: Edge ensures e in Edges() <==> e in edges { assert e == (e.0, e.1); }
    }

    twostate lemma OnlyWallsChanged()
      requires old(Shape()) && Shape()
      requires forall r, c :: 0 <= r < nrows && 0 <= c < ncols ==>
        cell[r, c] == old(cell[r, c]).(walls := cell[r, c].walls)
      ensures Dist() == old(Dist()) && Marked() == old(Marked())
    {
    }

    /** Handling the four neighbours one by one walls off all of them but prev and next. */
    lemma FourWalls(was: set<Edge>, now: set<Edge>, prev: Rowcol, cur: Rowcol, next: Rowcol)
      requires GridEdges(was)
      requires now == RemoveUnless(RemoveUnless(RemoveUnless(RemoveUnless(was,
        Rowcol(cur.row - 1, cur.col), prev, cur, next), Rowcol(cur.row + 1, cur.col), prev, cur, next),
        Rowcol(cur.row, cur.col - 1), prev, cur, next), Rowcol(cur.row, cur.col + 1), prev, cur, next)
      ensures now == Walled(was, prev, cur, next)
    {
      forall e | e in now
        ensures e in Walled(was, prev, cur, next)
      {
        if e.0 == cur { NeighboursAreAll(cur, e.1); }
        if e.1 == cur { NeighboursAreAll(cur, e.0); }
      }
    }

    ghost function RemoveUnless(edges: set<Edge>, wall: Rowcol, prev: Rowcol, cur: Rowcol, next: Rowcol): set<Edge> {
      if wall == prev || wall == next then edges else edges - {(cur, wall), (wall, cur)}
    }

    /** Walls off every neighbour of cur but prev and next, from both sides. */
    method BuildCellWalls(prev: Rowcol, cur: Rowcol, next: Rowcol)
      requires Valid() && InGrid(nrows, ncols, cur)
      modifies cell
      ensures Valid()
      ensures View() == old(View()).(edges := Walled(old(Edges()), prev, cur, next))
    {
      hide Dist, Marked, Order;
      ghost var was := Edges();
      BuildOneCellWall(Rowcol(cur.row - 1, cur.col), prev, cur, next);
      BuildOneCellWall(Rowcol(cur.row + 1, cur.col), prev, cur, next);
      BuildOneCellWall(Rowcol(cur.row, cur.col - 1), prev, cur, next);
      BuildOneCellWall(Rowcol(cur.row, cur.col + 1), prev, cur, next);
      hide Edges;
      FourWalls(was, Edges(), prev, cur, next);
    }

    method RemoveWall(cur: Rowcol, other: Rowcol)
      requires Valid() && Adjacent(cur, other) && InGrid(nrows, ncols, cur) && InGrid(nrows, ncols, other)
      modifies cell
      ensures Valid()
      ensures View() == old(View()).(edges := old(Edges()) + {(cur, other), (other, cur)})
    {
      hide Order, Distinct, Edges, Dist, Marked;
      ghost var was := Edges();
      EdgesMeaning();
      cell[cur.row, cur.col] :=
        cell[cur.row, cur.col].(walls := cell[cur.row, cur.col].walls - {FindWallbit(cur, other)});
      cell[other.row, other.col] :=
        cell[other.row, other.col].(walls := cell[other.row, other.col].walls - {FindWallbit(other, cur)});
      EdgesAre(was + {(cur, other), (other, cur)});
      OnlyWallsChanged();
    }

    /** maze_choose_next_cell: stop, or step to a connected unvisited cell, or be stuck because
        there is none.  pmrandom() never returns zero, so the perpendicular is always flipped. */
    method ChooseNextCell(prev: Rowcol, cur: Rowcol) returns (ok: bool, code: Segment, next: Rowcol)
      requires Valid() && cur in Order() && Adjacent(prev, cur)
      modifies this`vi, cell, visited
      ensures Valid()
      ensures !ok ==> old(Dist())[cur] >= COOKIE && (cur, next) in old(Edges()) && next !in old(Order())
      ensures ok && code == Continue ==> Stepped(old(View()), View(), cur, next)
      ensures ok && code != Continue ==> View() == old(View())
      ensures ok && code == Stuck ==> forall b :: (cur, b) in Edges() ==> b in Order()
    {
      var d: nat := cell[cur.row, cur.col].cookie;
      hide Stepped, Edges, Dist, Marked, Order;
      next := cur;
      code := Continue;
      var moved;
      if * {
        return true, End, cur;
      }
      var turn: bool := *;
      if turn && prev != cur {
        var dr := -(cur.col - prev.col);
        var dc := cur.row - prev.row;
        dr, dc := -dr, -dc;
        next := Rowcol(cur.row + dr, cur.col + dc);
        ok, moved := TryVisitCell(cur, next, d + 1);
        if !ok || moved { return; }
        next := Rowcol(cur.row - dr, cur.col - dc);
        ok, moved := TryVisitCell(cur, next, d + 1);
        if !ok || moved { return; }
      }
      next := Rowcol(cur.row + (cur.row - prev.row), cur.col + (cur.col - prev.col));
      ok, moved := TryVisitCell(cur, next, d + 1);
      if !ok || moved { return; }
      ok, moved, next := FindAnyNextCell(cur);
      if !ok || moved { return; }
      code := Stuck;
    }

    /** Carves one segment onto the tree; afterwards no visited cell opens onto an unvisited one. */
    method ConstructSegment(from: Rowcol, at: Rowcol, ghost par: seq<nat>) returns (ok: bool, ghost par': seq<nat>)
      requires Valid()
      requires if from == at then SpanTree(View(), par) && |par| == 1 && Order()[0] == at && Frontier(View(), {at})
               else Growing(View(), par, from, at)
      modifies this`vi, cell, visited
      ensures !ok ==> LongPath(AllEdges(nrows, ncols), old(Order())[0])
      ensures ok ==> Valid() && Settled(View(), par') && old(Order()) <= Order()
    {
      var prev, cur := from, at;
      var next;
      par' := par;
      ghost var was := View();
      if prev == cur {
        var found;
        assert was.dist[cur] == 1;
        ok, found, next := FindAnyNextCell(cur);
        assert ok;
        if !found {
          GrowStuck(was, par, cur);
          return;
        }
        ghost var v1 := View();
        BuildCellWalls(prev, cur, next);
        GrowStart(was, v1, View(), par, cur, next);
        par' := par + [0];
        prev := cur;
        cur := next;
      }
      ok, par' := ExtendSegment(prev, cur, par');
    }

    /** The loop of maze_construct_segment; each pass advances one cell. */
    method ExtendSegment(from: Rowcol, at: Rowcol, ghost par: seq<nat>) returns (ok: bool, ghost par': seq<nat>)
      requires Valid() && Growing(View(), par, from, at)
      modifies this`vi, cell, visited
      ensures !ok ==> LongPath(AllEdges(nrows, ncols), old(Order())[0])
      ensures ok ==> Valid() && Settled(View(), par') && old(Order()) <= Order()
    {
      hide Growing, Settled, SpanTree, Frontier, Walled, Edges, Dist, Marked, LongPath;
      var prev, cur := from, at;
      par' := par;
      ghost var was := Order();
      GrowingFacts(View(), par, from, at);
      while true
        invariant Valid() && Growing(View(), par', prev, cur) && was <= Order() && was != []
        decreases nrows * ncols - vi
      {
        ghost var v := View();
        GrowingFacts(v, par', prev, cur);
        var code, next;
        EdgesWithinGrid();
        ok, code, next := ChooseNextCell(prev, cur);
        if !ok {
          GrowingOverflows(v, par', prev, cur, next, AllEdges(nrows, ncols));
          assert was[0] == v.order[0];
          return;
        }
        ghost var v1 := View();
        match code {
          case Continue =>
            BuildCellWalls(prev, cur, next);
            GrowStep(v, v1, View(), par', prev, cur, next);
            par' := par' + [|par'| - 1];
            prev := cur;
            cur := next;
          case End =>
            BuildCellWalls(prev, cur, prev);
            GrowEnd(v, View(), par', prev, cur);
            return;
          case Stuck =>
            assert SpanTree(v, par') && Frontier(v, {cur}) by { GrowingParts(v, par', prev, cur); }
            GrowStuck(v, par', cur);
            return;
        }
      }
    }

    lemma EdgesWithinGrid()
      requires Shape()
      ensures Edges() <= AllEdges(nrows, ncols)
    {
    }

    lemma GrowingOverflows(v: Picture, par: seq<nat>, prev: Rowcol, cur: Rowcol, next: Rowcol, edges: set<Edge>)
      requires Growing(v, par, prev, cur) && next !in v.order && v.edges <= edges && (cur, next) in edges
      requires cur in v.dist && v.dist[cur] >= COOKIE
      ensures LongPath(edges, v.order[0])
    {
      GrowOverflow(v, par, |par| - 1, next, edges);
    }

    lemma GrowingParts(v: Picture, par: seq<nat>, prev: Rowcol, cur: Rowcol)
      requires Growing(v, par, prev, cur)
      ensures SpanTree(v, par) && Frontier(v, {cur})
    {
    }

    /** A random unvisited neighbour, or cr == -1 when there is none. */
    method PickUnvisited(prev: Rowcol) returns (cr: int, cc: int)
      requires Shape()
      ensures cr == -1 ==> Surrounded(prev)
      ensures cr != -1 ==> var cur := Rowcol(cr, cc);
        Adjacent(prev, cur) && InGrid(nrows, ncols, cur) && !cell[cr, cc].visited
    {
      hide CellVisited, Surrounded, InGrid;
      UnvisitedMeaning();
      cr, cc := -1, -1;
      if !CellVisited(Rowcol(prev.row - 1, prev.col)) {
        cr, cc := prev.row - 1, prev.col;
      }
      var coin: bool := *;
      if !CellVisited(Rowcol(prev.row + 1, prev.col)) && (cr == -1 || coin) {
        cr, cc := prev.row + 1, prev.col;
      }
      coin := *;
      if !CellVisited(Rowcol(prev.row, prev.col - 1)) && (cr == -1 || coin) {
        cr, cc := prev.row, prev.col - 1;
      }
      coin := *;
      if !CellVisited(Rowcol(prev.row, prev.col + 1)) && (cr == -1 || coin) {
        cr, cc := prev.row, prev.col + 1;
      }
      if cr == -1 { FourVisited(prev); }
    }

    lemma UnvisitedMeaning()
      requires Shape()
      ensures forall a :: !CellVisited(a) ==> InGrid(nrows, ncols, a) && a.row != -1 && !cell[a.row, a.col].visited
    {
    }

    lemma FourVisited(prev: Rowcol)
      requires Shape() && forall i :: 0 <= i < 4 ==> CellVisited(Neighbour(prev, i))
      ensures Surrounded(prev)
    {
      forall b | Adjacent(prev, b) && InGrid(nrows, ncols, b)
        ensures cell[b.row, b.col].visited
      {
        NeighboursAreAll(prev, b);
      }
    }

    /** Every neighbour of a inside the grid has been visited. */
    ghost predicate Surrounded(a: Rowcol)
      requires Shape()
      reads `vi, cell
    {
      forall b :: Adjacent(a, b) && InGrid(nrows, ncols, b) ==> cell[b.row, b.col].visited
    }

    lemma AllVisited()
      requires Valid() && 0 < vi
      requires forall j :: 0 <= j < vi ==> Surrounded(Order()[j])
      ensures vi == nrows * ncols
    {
      var order := Order();
      forall a, b | a in order && Adjacent(a, b) && InGrid(nrows, ncols, b)
        ensures b in order
      {
        var j :| 0 <= j < |order| && order[j] == a;
        assert Surrounded(order[j]);
      }
      forall a | InGrid(nrows, ncols, a)
        ensures a in order
      {
        GridConnected(nrows, ncols, order, order[0], a);
      }
      ListFits(nrows, ncols, order);
    }

    method CrossBoundary(v: nat, cur: Rowcol, ghost par: seq<nat>) returns (ok: bool, ghost par': seq<nat>)
      requires Valid() && Settled(View(), par) && v < vi
      requires InGrid(nrows, ncols, cur) && cur !in Order() && Adjacent(Order()[v], cur)
      modifies `vi, cell, visited
      ensures !ok ==> LongPath(AllEdges(nrows, ncols), old(Order())[0])
      ensures ok ==> Valid() && vi > old(vi) && old(Order()) <= Order()
      ensures ok ==> Growing(View(), par', old(Order()[v]), cur)
    {
      hide Growing, Settled, Edges, Dist, Marked, SpanTree, Frontier, LongPath, Distinct, AllEdges, Adjacent, InGrid;
      ghost var was := View();
      SettledParts(was, par, v);
      WallWithinGrid(v, cur);
      var prev := visited[v];
      var d := CellDistance(prev);
      par' := par + [v];
      RemoveWall(prev, cur);
      ghost var mid := View();
      assert cur !in mid.order;
      ok := VisitCell(cur, d + 1);
      if ok {
        GrowAcross(was, mid, View(), par, v, cur, d);
      } else {
        GrowOverflow(was, par, v, cur, AllEdges(nrows, ncols));
      }
    }

    lemma WallWithinGrid(v: nat, cur: Rowcol)
      requires Valid() && v < vi && InGrid(nrows, ncols, cur) && Adjacent(Order()[v], cur)
      ensures InGrid(nrows, ncols, Order()[v]) && Edges() <= AllEdges(nrows, ncols)
      ensures (Order()[v], cur) in AllEdges(nrows, ncols)
    {
      assert Order()[v] in Order();
      EdgesWithinGrid();
      AllEdgesMeaning(nrows, ncols);
    }

    lemma SettledParts(v: Picture, par: seq<nat>, k: nat)
      requires Settled(v, par) && k < |v.order|
      ensures SpanTree(v, par) && |par| == |v.order| && v.order[k] in v.dist
    {
      DistanceBound(v, par, k);
    }

    /** The circular scan of visited[]: an unvisited neighbour of some visited cell, or
        found == false after every visited cell turned out to be surrounded. */
    method ScanBoundary() returns (found: bool, v: nat, cur: Rowcol)
      requires Valid() && -1 <= lastvi < vi && 0 < vi
      ensures v < vi
      ensures found ==> Adjacent(Order()[v], cur) && InGrid(nrows, ncols, cur) && cur !in Order()
      ensures !found ==> forall j :: 0 <= j < vi ==> Surrounded(Order()[j])
    {
      hide Surrounded, Distinct;
      ghost var order := Order();
      var pick: bool := *;
      if lastvi == -1 || pick {
        assert 0 <= 0 < vi;
        v :| 0 <= v < vi;
      } else {
        v := lastvi;
      }
      var viStart := v;
      ghost var wrapped := false;
      var first := true;
      cur := visited[v];
      while first || v != viStart
        invariant v < vi && viStart < vi
        invariant if wrapped then v <= viStart && !first else viStart <= v && (first <==> v == viStart)
        invariant forall j :: viStart <= j < (if wrapped then vi else v) ==> Surrounded(order[j])
        invariant wrapped ==> forall j :: 0 <= j < v ==> Surrounded(order[j])
        decreases if wrapped then viStart - v else vi + vi - v
      {
        first := false;
        var cr, cc := PickUnvisited(visited[v]);
        assert visited[v] == order[v];
        if cr != -1 {
          return true, v, Rowcol(cr, cc);
        }
        v := v + 1;
        if v >= vi {
          v := 0;
          wrapped := true;
        }
      }
      found := false;
    }

    lemma SettledIsNonempty(par: seq<nat>)
      requires Valid() && Settled(View(), par)
      ensures 0 < vi
    {
    }

    /** Opens a wall between a visited and an unvisited cell and visits the latter, or finds
        that every cell has been visited. */
    method FindBoundary(ghost par: seq<nat>)
      returns (ok: bool, more: bool, prev: Rowcol, cur: Rowcol, ghost par': seq<nat>)
      requires Valid() && Settled(View(), par) && -1 <= lastvi < vi
      modifies this, cell, visited
      ensures !ok ==> LongPath(AllEdges(nrows, ncols), old(Order())[0])
      ensures ok ==> Valid() && -1 <= lastvi < vi && old(Order()) <= Order()
      ensures ok && more ==> prev != cur && Growing(View(), par', prev, cur)
      ensures ok && more ==> vi > old(vi)
      ensures ok && !more ==> View() == old(View()) && vi == nrows * ncols
    {
      hide Growing, Settled, Edges, Dist, Marked, Surrounded;
      var v;
      assert 0 < vi by { SettledIsNonempty(par); }
      more, v, cur := ScanBoundary();
      prev := visited[v];
      if more {
        ok, par' := CrossBoundary(v, cur, par);
        lastvi := v;
      } else {
        AllVisited();
        ok, par' := true, par;
      }
    }

    /** The segments carved by maze_create, until every cell has been visited. */
    method CarveAll(start: Rowcol) returns (ok: bool, ghost par: seq<nat>)
      requires Valid() && lastvi == -1 && Order() == [start]
      requires SpanTree(View(), [0]) && Frontier(View(), {start})
      modifies this, cell, visited
      ensures !ok ==> LongPath(AllEdges(nrows, ncols), old(Order())[0])
      ensures ok ==> Valid() && Settled(View(), par) && vi == nrows * ncols && Order()[0] == start
    {
      hide Growing, Settled, SpanTree, Frontier, Edges, Dist, Marked;
      ok, par := ConstructSegment(start, start, [0]);
      if !ok { return; }
      var more := true;
      while more
        invariant Valid() && -1 <= lastvi < vi && Settled(View(), par) && [start] <= Order()
        invariant !more ==> vi == nrows * ncols
        decreases more, nrows * ncols - vi
      {
        var prev, cur;
        ghost var par', was := par, vi;
        ok, more, prev, cur, par' := FindBoundary(par);
        if !ok { return; }
        if more {
          ok, par := ConstructSegment(prev, cur, par');
          if !ok { return; }
        }
      }
    }

    ghost predicate ClearedIf(done: bool, was: Cell, now: Cell) {
      now == if done then Cell(was.walls, false, false, 0) else was
    }

    /** Clears visits, marks and distances, and leaves the walls alone. */
    method UnvisitAll()
      requires Valid()
      modifies this`vi, cell
      ensures Valid() && vi == 0 && Marked() == {} && Edges() == old(Edges())
      ensures forall a :: InGrid(nrows, ncols, a) ==> Dist()[a] == 0
    {
      var i := 0;
      while i < nrows
        invariant 0 <= i <= nrows && Shape()
        invariant forall r, c :: 0 <= r < nrows && 0 <= c < ncols ==> ClearedIf(r < i, old(cell[r, c]), cell[r, c])
      {
        var j := 0;
        while j < ncols
          invariant 0 <= j <= ncols && Shape()
          invariant forall r, c :: 0 <= r < nrows && 0 <= c < ncols ==>
            ClearedIf(r < i || (r == i && c < j), old(cell[r, c]), cell[r, c])
        {
          cell[i, j] := cell[i, j].(visited := false, solution := false, cookie := 0);
          j := j + 1;
        }
        i := i + 1;
      }
      vi := 0;
      assert Edges() == old(Edges());
    }

    // ----- the sequential solver

    /** maze_find_any_next_cell at visited cell number j, for the search described by Looking. */
    method Advance(j: nat, cur: Rowcol, ghost par: seq<nat>, ghost edges: set<Edge>, ghost start: Rowcol,
                   ghost end: Rowcol, ghost k: nat)
      returns (ok: bool, found: bool, next: Rowcol, ghost par': seq<nat>)
      requires Valid() && Looking(View(), par, edges, start, end, k, false, cur) && j < vi && Order()[j] == cur
      modifies `vi, cell, visited
      ensures !ok ==> Over(old(View()), end, k, j)
      ensures ok ==> Valid() && Looking(View(), par', edges, start, end, k, found, next)
      ensures ok ==>
        if found then vi == old(vi) + 1 && next == Order()[vi - 1] else vi == old(vi) && Explored(View(), j)
      ensures ok ==> (Over(old(View()), end, k, j) <==> StillOver(View(), end, k, j, found, next))
    {
      hide Looking, Searched, Edges, Dist, Marked, Over, StillOver, FirstOpen, Stepped;
      ghost var was := View();
      SearchFacts'(was, par, edges, start, end, k, cur, j);
      LookingFacts(was, par, edges, start, end, k, false, cur);
      FitsGrid();
      par' := par;
      ok, found, next := FindAnyNextCell(cur);
      if !ok {
        OverNow(was, end, k, j);
      } else {
        FitsGrid();
        DistanceFits();
        OverStep(was, View(), end, k, j, found, next);
      }
      if ok && found {
        SteppedOrder(was, View(), cur, next);
        LookingStep(was, View(), par, edges, start, end, k, j, next);
        par' := par + [j];
      }
    }

    lemma SearchFacts'(v: Picture, par: seq<nat>, edges: set<Edge>, start: Rowcol, end: Rowcol, k: nat, x: Rowcol,
        j: nat)
      requires Looking(v, par, edges, start, end, k, false, x) && j < |v.order|
      ensures |par| == |v.order| && v.order[j] in v.dist && v.order[j] in v.order && k < |v.order|
    {
      SearchFacts(v, par, j);
    }

    lemma SteppedOrder(v: Picture, v': Picture, cur: Rowcol, next: Rowcol)
      requires Stepped(v, v', cur, next)
      ensures v'.order == v.order + [next]
    {
    }

    /** The search of this maze with unbounded distances. */
    ghost predicate Over(v: Picture, end: Rowcol, k: nat, j: nat) { Overruns(v, end, nrows * ncols, k, j) }

    ghost predicate StillOver(v: Picture, end: Rowcol, k: nat, j: nat, found: bool, next: Rowcol) {
      StillOverruns(v, end, nrows * ncols, k, j, found, next)
    }

    lemma OverNow(v: Picture, end: Rowcol, k: nat, j: nat)
      requires k < |v.order| && j < |v.order| <= nrows * ncols && v.order[j] in v.dist
      requires FirstOpen(v, v.order[j]) < 4 && v.dist[v.order[j]] >= COOKIE
      ensures Over(v, end, k, j)
    {
      OverrunsNow(v, end, nrows * ncols, k, j);
    }

    lemma OverStep(v: Picture, v': Picture, end: Rowcol, k: nat, j: nat, found: bool, next: Rowcol)
      requires k < |v.order| && j < |v.order| <= nrows * ncols && v.order[j] in v.dist && |v'.order| <= nrows * ncols
      requires found ==> FirstOpen(v, v.order[j]) < 4 && next == Neighbour(v.order[j], FirstOpen(v, v.order[j]))
      requires found ==> Stepped(v, v', v.order[j], next) && (next in v'.dist ==> v'.dist[next] <= COOKIE)
      requires !found ==> FirstOpen(v, v.order[j]) == 4 && v' == v
      ensures Over(v, end, k, j) <==> StillOver(v', end, k, j, found, next)
    {
      OverrunsStep(v, v', end, nrows * ncols, k, j, found, next);
    }

    /** What looking at one cell leaves of Over. */
    lemma StillMeaning(v: Picture, end: Rowcol, k: nat, j: nat, found: bool, next: Rowcol)
      requires v.order != []
      ensures found ==> (StillOver(v, end, k, j, found, next) <==> next != end && Over(v, end, k, |v.order| - 1))
      ensures !found && j != k ==> (StillOver(v, end, k, j, found, next) <==> Over(v, end, k, k))
      ensures !found && j == k ==>
        (StillOver(v, end, k, j, found, next) <==> k + 1 < |v.order| && Over(v, end, k + 1, k + 1))
    {
    }

    lemma FitsGrid()
      requires Valid()
      ensures |Order()| <= nrows * ncols
    {
    }

    lemma DistanceFits()
      requires Valid()
      ensures forall a :: a in Dist() ==> Dist()[a] <= COOKIE
    {
      DistMeaning();
    }

    lemma LookingFacts(v: Picture, par: seq<nat>, edges: set<Edge>, start: Rowcol, end: Rowcol, k: nat, found: bool,
        x: Rowcol)
      requires Looking(v, par, edges, start, end, k, found, x)
      ensures v.edges == edges && v.marked == {} && v.order != [] && v.order[0] == start
      ensures !found ==> forall y :: Looking(v, par, edges, start, end, k, false, y)
    {
    }

    predicate IsPrevCell(cur: Rowcol, t: Rowcol)
      requires Shape() && InGrid(nrows, ncols, cur) && Adjacent(cur, t)
      reads `vi, cell
    {
      CellsConnected(cur, t) && cell[cur.row, cur.col].cookie - cell[t.row, t.col].cookie == 1
    }

    /** The predecessor maze_mark_solution moves to; some neighbour always qualifies. */
    method PreviousCell(cur: Rowcol, ghost par: seq<nat>) returns (next: Rowcol)
      requires Valid() && Searched(View(), par) && cur in Order() && cur != Order()[0]
      ensures (next, cur) in Edges() && next in Order() && Dist()[cur] == Dist()[next] + 1
    {
      EdgesMeaning();
      DistMeaning();
      ghost var t := HasPredecessor(View(), par, cur);
      NeighboursAreAll(cur, t);
      assert IsPrevCell(cur, t);
      hide Searched, Edges, Dist, Marked, Order;
      next := Rowcol(cur.row - 1, cur.col);
      if !IsPrevCell(cur, next) {
        next := Rowcol(cur.row + 1, cur.col);
        if !IsPrevCell(cur, next) {
          next := Rowcol(cur.row, cur.col - 1);
          if !IsPrevCell(cur, next) {
            next := Rowcol(cur.row, cur.col + 1);
          }
        }
      }
      assert IsPrevCell(cur, next);
      PredecessorIsVisited(View(), par, cur, next);
    }

    method MarkCell(a: Rowcol)
      requires Valid() && InGrid(nrows, ncols, a)
      modifies cell
      ensures Valid() && View() == old(View()).(marked := old(Marked()) + {a})
    {
      CellsAreAll();
      cell[a.row, a.col] := cell[a.row, a.col].(solution := true);
      assert Edges() == old(Edges()) && Dist() == old(Dist()) && Marked() == old(Marked()) + {a};
    }

    /** Marks a simple path from start to end and returns its number of cells. */
    method MarkSolution(start: Rowcol, end: Rowcol, ghost par: seq<nat>) returns (len: nat, ghost path: seq<Rowcol>)
      requires Valid() && Searched(View(), par) && Order()[0] == start && end in Order()
      requires Marked() == {}
      modifies cell
      ensures Valid() && Edges() == old(Edges())
      ensures SimplePathFromTo(Edges(), path, start, end)
      ensures 0 < len == |path| && len <= COOKIE && Marked() == set a | a in path
    {
      hide Edges, Dist, Marked, Distinct, Searched, Shape;
      OrderInGrid();
      var cr := end;
      path := [end];
      ghost var was := View();
      MarkCell(cr);
      while cr != start
        invariant Valid() && View() == was.(marked := set a | a in path)
        invariant cr in was.order && MarkedPath(was, path, cr, end)
        decreases was.dist[cr]
      {
        SearchedIgnoresMarks(was, View(), par);
        cr := PreviousCell(cr, par);
        MarkedPathGrows(was, path, cr, end);
        path := [cr] + path;
        MarkCell(cr);
      }
      MarkedPathIsSimple(was, par, path, start, end);
      len := CellDistance(end);
    }

    lemma OrderInGrid()
      requires Valid()
      ensures forall a :: a in Order() ==> InGrid(nrows, ncols, a) && a in Dist()
    {
      DistMeaning();
    }

    /** maze_get_cell_distance. */
    method CellDistance(a: Rowcol) returns (d: nat)
      requires Valid() && a in Order()
      ensures a in Dist() && d == Dist()[a] <= COOKIE
    {
      DistMeaning();
      d := cell[a.row, a.col].cookie;
    }

    /** The inner while loop of maze_solve: move along visited[] to a cell with an unvisited
        connected neighbour, or exhaust the search. */
    method ScanVisited(v0: nat, ghost par: seq<nat>, ghost edges: set<Edge>, ghost start: Rowcol, ghost end: Rowcol)
      returns (ok: bool, found: bool, v: nat, next: Rowcol, ghost par': seq<nat>)
      requires Valid() && Looking(View(), par, edges, start, end, v0, false, start) && v0 < vi
      modifies `vi, cell, visited
      ensures !ok ==> Over(old(View()), end, v0, v0)
      ensures ok && !found ==> !Over(old(View()), end, v0, v0)
      ensures ok ==> Valid() && Edges() == edges && Marked() == {}
      ensures ok && found ==> v + 1 < vi == old(vi) + 1 && next == Order()[vi - 1]
      ensures ok && found ==> Looking(View(), par', edges, start, end, v, true, next)
      ensures ok && found ==> (Over(old(View()), end, v0, v0) <==> next != end && Over(View(), end, v, vi - 1))
      ensures ok && !found ==> start == end || !Reachable(edges, start, end)
    {
      hide Looking, Searched, Edges, Dist, Marked, Explored, Reachable, Valid, Over, StillOver;
      ghost var over := Over(View(), end, v0, v0);
      v := v0;
      var cr := visited[v];
      LookingFacts(View(), par, edges, start, end, v, false, start);
      ok, found, next, par' := Advance(v, cr, par, edges, start, end, v);
      if !ok { return; }
      while !found
        invariant Valid() && Looking(View(), par', edges, start, end, v, found, next) && v < old(vi)
        invariant over <==> StillOver(View(), end, v, v, found, next)
        invariant if found then vi == old(vi) + 1 && next == Order()[vi - 1] else vi == old(vi) && Explored(View(), v)
        decreases !found, vi - v
      {
        LookingFacts(View(), par', edges, start, end, v, found, next);
        LookingNext(View(), par', edges, start, end, v, next);
        StillMeaning(View(), end, v, v, found, next);
        v := v + 1;
        if v >= vi {
          return;
        }
        cr := visited[v];
        LookingFacts(View(), par', edges, start, end, v, found, next);
        ok, found, next, par' := Advance(v, cr, par', edges, start, end, v);
        if !ok { return; }
      }
      LookingFacts(View(), par', edges, start, end, v, found, next);
      StillMeaning(View(), end, v, v, found, next);
    }

    /** The inner do-while loop: extend the current path until it meets end or cannot go on. */
    method FollowPath(first: Rowcol, ghost par: seq<nat>, ghost edges: set<Edge>, ghost start: Rowcol, end: Rowcol,
        ghost v: nat)
      returns (ok: bool, atEnd: bool, ghost par': seq<nat>)
      requires Valid() && v + 1 < vi && Looking(View(), par, edges, start, end, v, true, first)
      requires first == Order()[vi - 1]
      modifies `vi, cell, visited
      ensures !ok ==> first != end && Over(old(View()), end, v, old(vi) - 1)
      ensures ok ==> Valid() && Edges() == edges && Marked() == {} && old(vi) <= vi && 0 < vi && Order()[0] == start
      ensures ok && atEnd ==> Searched(View(), par') && end in Order() && start != end && Reachable(edges, start, end)
      ensures ok && !atEnd ==> Looking(View(), par', edges, start, end, v, false, start)
      ensures ok && atEnd ==> first == end || !Over(old(View()), end, v, old(vi) - 1)
      ensures ok && !atEnd ==> (first != end && Over(old(View()), end, v, old(vi) - 1) <==> Over(View(), end, v, v))
    {
      hide Looking, Searched, Edges, Dist, Marked, Explored, Reachable, Valid, Over, StillOver;
      ghost var over := first != end && Over(View(), end, v, vi - 1);
      var found, next := true, first;
      ok, atEnd, par' := true, false, par;
      while found
        invariant Valid() && Looking(View(), par', edges, start, end, v, found, next)
        invariant old(vi) <= vi && v + 1 < vi && (found ==> next == Order()[vi - 1])
        invariant over <==> if found then next != end && Over(View(), end, v, vi - 1) else Over(View(), end, v, v)
        decreases found, nrows * ncols - vi
      {
        LookingFacts(View(), par', edges, start, end, v, found, next);
        if next == end {
          LookingFound(View(), par', edges, start, end, v, next);
          return true, true, par';
        }
        LookingPast(View(), par', edges, start, end, v, next);
        ghost var last := vi - 1;
        ok, found, next, par' := Advance(vi - 1, next, par', edges, start, end, v);
        if !ok { return; }
        StillMeaning(View(), end, v, last, found, next);
      }
      LookingFacts(View(), par', edges, start, end, v, found, next);
    }

    /** maze_solve: zero exactly when end cannot be reached from start by walking at least one
        step, otherwise the number of cells of the simple path it marks.  It fails exactly when
        the search with unbounded distances gives some cell a distance above COOKIE; for that
        the maze must have a simple path from start of more than COOKIE cells, and it suffices
        that all those to end are. */
    method Solve(start: Rowcol, end: Rowcol) returns (ok: bool, len: nat, ghost path: seq<Rowcol>)
      requires Valid() && vi == 0 && Marked() == {} && Symmetric(Edges())
      requires forall a :: InGrid(nrows, ncols, a) ==> Dist()[a] == 0
      requires InGrid(nrows, ncols, start) && InGrid(nrows, ncols, end)
      modifies `vi, cell, visited
      ensures ok <==> !Over(old(Begun(start)), end, 0, 0)
      ensures !ok ==> LongPath(old(Edges()), start) && nrows * ncols > COOKIE
      ensures start != end && Reachable(old(Edges()), start, end) && Distance(start, end) >= COOKIE ==> !ok
      ensures ok ==> Valid() && Edges() == old(Edges()) && len <= COOKIE
      ensures ok ==> (len == 0 <==> start == end || !Reachable(old(Edges()), start, end))
      ensures ok && len > 0 ==> SimplePathFromTo(Edges(), path, start, end) && |path| == len
      ensures ok ==> Marked() == if len == 0 then {} else set a | a in path
    {
      hide Looking, Searched, Edges, Dist, Marked, Explored, Reachable, SimplePathFromTo, Symmetric, Valid, Over;
      hide LongPath;
      ghost var edges := Edges();
      path := [];
      len := 0;
      var cr := start;
      ok := VisitCell(cr, 1);
      assert View() == old(Begun(start));
      ghost var par := [0];
      FirstSearched(start, end);
      ghost var over := Over(View(), end, 0, 0);
      OverrunNeeds(par, start, end);
      var v: nat := 0;
      while true
        invariant Valid() && Looking(View(), par, edges, start, end, v, false, start) && v < vi
        invariant over <==> Over(View(), end, v, v)
        decreases nrows * ncols - vi
      {
        var found, next;
        ok, found, v, next, par := ScanVisited(v, par, edges, start, end);
        if !ok || !found { return; }
        ok, found, par := FollowPath(next, par, edges, start, end, v);
        if !ok { return; }
        if found {
          len, path := MarkSolution(start, end, par);
          PathAtLeastDistance(path, start, end);
          return;
        }
      }
    }

    /** The maze once its start has been visited. */
    ghost function Begun(start: Rowcol): Picture
      requires Shape()
      reads `vi, cell
    {
      Picture(Edges(), [start], Dist()[start := 1], {})
    }

    lemma PathAtLeastDistance(path: seq<Rowcol>, start: Rowcol, end: Rowcol)
      requires Shape() && SimplePathFromTo(Edges(), path, start, end)
      ensures |path| > Distance(start, end)
    {
      EdgesAreAdjacent();
      WalkAtLeastDistance(Edges(), path, start, end);
    }

    lemma OverrunNeeds(par: seq<nat>, start: Rowcol, end: Rowcol)
      requires Valid() && Looking(View(), par, Edges(), start, end, 0, false, start) && InGrid(nrows, ncols, start)
      ensures Over(View(), end, 0, 0) ==> LongPath(Edges(), start) && nrows * ncols > COOKIE
    {
      EdgesMeaning();
      if Over(View(), end, 0, 0) {
        OverrunNeedsLongPath(View(), par, end, nrows * ncols, 0, 0);
        LongPathNeedsRoom(nrows, ncols, Edges(), start);
      }
    }

    lemma FirstSearched(start: Rowcol, end: Rowcol)
      requires Valid() && Order() == [start] && Symmetric(Edges()) && Dist()[start] == 1 && Marked() == {}
      requires forall a :: InGrid(nrows, ncols, a) && a != start ==> Dist()[a] == 0
      ensures Looking(View(), [0], Edges(), start, end, 0, false, start)
    {
      EdgesMeaning();
      DistMeaning();
    }
  }

  /** maze_create.  Whatever the random choices, the result is a maze in which any two cells
      are joined by exactly one simple path, none of them from the start longer than a distance
      can say; it fails only if the grid itself has a simple path from the start that long. */
  method MazeCreate(nrows: nat, ncols: nat, start: Rowcol) returns (ok: bool, mp: Maze)
    requires InGrid(nrows, ncols, start)
    ensures !ok ==> LongPath(AllEdges(nrows, ncols), start)
    ensures nrows * ncols <= COOKIE ==> ok
    ensures ok ==> forall a :: InGrid(nrows, ncols, a) ==> Distance(start, a) < COOKIE
    ensures ok ==> fresh(mp) && mp.Valid() && mp.nrows == nrows && mp.ncols == ncols
    ensures ok ==> fresh(mp.cell) && fresh(mp.visited)
    ensures ok ==> UniquelyConnected(nrows, ncols, mp.Edges()) && Symmetric(mp.Edges()) && !LongPath(mp.Edges(), start)
    ensures ok ==> mp.vi == 0 && mp.Marked() == {} && forall a :: InGrid(nrows, ncols, a) ==> mp.Dist()[a] == 0
  {
    hide LongPath, UniquelyConnected;
    mp := new Maze(nrows, ncols);
    ok := mp.VisitCell(start, 1);
    assert ok && mp.Order() == [start];
    FirstCell(mp, start);
    ghost var par;
    ok, par := mp.CarveAll(start);
    if !ok {
      GridPathNeedsRoom(nrows, ncols, start);
      return;
    }
    FinishedMaze(mp, par, start);
    NoLongPath(mp, par, start);
    mp.UnvisitAll();
  }

  lemma StaysDistinct<T>(s: seq<T>, x: T)
    requires Distinct(s) && x !in s
    ensures Distinct(s + [x])
  {
  }

  lemma GridPathNeedsRoom(nrows: nat, ncols: nat, start: Rowcol)
    requires LongPath(AllEdges(nrows, ncols), start) && InGrid(nrows, ncols, start)
    ensures nrows * ncols > COOKIE
  {
    AllEdgesMeaning(nrows, ncols);
    forall e | e in AllEdges(nrows, ncols) ensures InGrid(nrows, ncols, e.1) { assert e == (e.0, e.1); }
    LongPathNeedsRoom(nrows, ncols, AllEdges(nrows, ncols), start);
  }

  lemma NoLongPath(mp: Maze, par: seq<nat>, start: Rowcol)
    requires mp.Valid() && Settled(mp.View(), par) && mp.vi == mp.nrows * mp.ncols && mp.Order()[0] == start
    ensures !LongPath(mp.Edges(), start)
  {
    var v := mp.View();
    ListFits(mp.nrows, mp.ncols, v.order);
    mp.DistMeaning();
    forall x, p | SimplePathFromTo(v.edges, p, start, x)
      ensures |p| <= COOKIE
    {
      if |p| > 1 { assert (p[|p| - 2], p[|p| - 2 + 1]) in v.edges; }
      FinishedPathLength(v, par, p, x);
    }
  }

  lemma FirstCell(mp: Maze, start: Rowcol)
    requires mp.Valid() && mp.Order() == [start] && mp.Dist()[start] == 1
    requires mp.Edges() == AllEdges(mp.nrows, mp.ncols)
    ensures SpanTree(mp.View(), [0]) && Frontier(mp.View(), {start})
  {
  }

  lemma FinishedMaze(mp: Maze, par: seq<nat>, start: Rowcol)
    requires mp.Valid() && Settled(mp.View(), par) && mp.vi == mp.nrows * mp.ncols && mp.Order()[0] == start
    ensures UniquelyConnected(mp.nrows, mp.ncols, mp.Edges()) && Symmetric(mp.Edges())
    ensures forall a :: InGrid(mp.nrows, mp.ncols, a) ==> Distance(start, a) < COOKIE
  {
    var v := mp.View();
    ListFits(mp.nrows, mp.ncols, v.order);
    SpanTreeIsUniquelyConnected(v, par, mp.nrows, mp.ncols);
    forall a | InGrid(mp.nrows, mp.ncols, a)
      ensures Distance(start, a) < COOKIE
    {
      var k :| 0 <= k < |v.order| && v.order[k] == a;
      DistanceAtLeastGrid(v, par, k);
    }
  }

  /** A maze solved from the cell it was created from never overflows a distance. */
  method CreateAndSolve(nrows: nat, ncols: nat, start: Rowcol, end: Rowcol) returns (created: bool, len: nat)
    requires InGrid(nrows, ncols, start) && InGrid(nrows, ncols, end)
    ensures created ==> (len == 0 <==> start == end)
    ensures created && len > 0 ==> Distance(start, end) < len <= COOKIE
  {
    hide LongPath, SimplePathFromTo, Reachable;
    len := 0;
    var mp;
    created, mp := MazeCreate(nrows, ncols, start);
    if created {
      var ok;
      ghost var path;
      ConnectedIsReachable(nrows, ncols, mp.Edges(), start, end);
      ok, len, path := mp.Solve(start, end);
      assert ok;
      if len > 0 { mp.PathAtLeastDistance(path, start, end); }
    }
  }

  lemma ConnectedIsReachable(nrows: nat, ncols: nat, edges: set<Edge>, a: Rowcol, b: Rowcol)
    requires UniquelyConnected(nrows, ncols, edges) && InGrid(nrows, ncols, a) && InGrid(nrows, ncols, b)
    ensures Reachable(edges, a, b)
  {
    var p :| SimplePathFromTo(edges, p, a, b);
  }

  // ----- a grid on which both fail

  lemma RowIsReachable(ncols: nat)
    requires ncols > 0
    ensures Symmetric(AllEdges(1, ncols)) && Reachable(AllEdges(1, ncols), Rowcol(0, 0), Rowcol(0, ncols - 1))
  {
    AllEdgesMeaning(1, ncols);
    var p := seq(ncols, i requires 0 <= i < ncols => Rowcol(0, i));
    assert WalkFromTo(AllEdges(1, ncols), p, Rowcol(0, 0), Rowcol(0, ncols - 1));
  }

  /** In a corridor of COOKIE + 1 cells neither end can be reached from the other without an
      overflow, and the corridor cannot be created from its end. */
  method FailingCorridor() returns (solved: bool, created: bool)
    ensures !solved && !created
  {
    hide LongPath, Overruns, SimplePathFromTo, Reachable, AllEdges, Symmetric;
    var start, end := Rowcol(0, 0), Rowcol(0, COOKIE);
    RowIsReachable(COOKIE + 1);
    var mp := new Maze(1, COOKIE + 1);
    var len;
    ghost var path;
    solved, len, path := mp.Solve(start, end);
    var other;
    created, other := MazeCreate(1, COOKIE + 1, start);
    assert InGrid(1, COOKIE + 1, end) && Distance(start, end) == COOKIE;
  }
}
