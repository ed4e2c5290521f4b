/** What maze_solve of SMPdesign/maze/maze_part.c does once its three or more child threads
    have finished: complete the encounter table, route through the partitions, and stitch the
    per-thread subsolutions into one marked path.
 */
module PartitionSolve {
  import opened Common
  import opened MazeGrid
  import opened PartitionForest
  import opened PartitionRoute
  import PartitionGrowth

  class PartitionedMaze {
    const nthreads: nat
    const nrows: nat
    const ncols: nat
    const starts: seq<Rowcol>
    const cell: array2<Cell>
    const distance: array2<nat>
    const adj: array2<Encounter>

    ghost predicate Shape() {
      nthreads >= 3 && |starts| == nthreads
      && cell.Length0 == nrows && cell.Length1 == ncols && distance.Length0 == nrows && distance.Length1 == ncols
      && adj.Length0 == nthreads && adj.Length1 == nthreads
    }

    predicate CellExists(a: Rowcol) {
      a.row >= 0 && a.row < nrows && a.col >= 0 && a.col < ncols
    }

    predicate CellsConnected(a: Rowcol, b: Rowcol)
      requires Shape() && Adjacent(a, b)
      reads cell
    {
      CellExists(a) && CellExists(b) && FindWallbit(a, b) !in cell[a.row, a.col].walls
    }

    ghost function Snapshot(): Forest
      requires Shape()
      reads cell, distance
    {
      Forest(set a, b | a in AllCells(nrows, ncols) && b in AllCells(nrows, ncols) && Adjacent(a, b)
        && CellsConnected(a, b) :: (a, b),
             map a | a in AllCells(nrows, ncols) :: cell[a.row, a.col].cookie,
             map a | a in AllCells(nrows, ncols) :: distance[a.row, a.col],
             (set a | a in AllCells(nrows, ncols) && cell[a.row, a.col].visited),
             starts)
    }

    ghost function Marked(): set<Rowcol>
      requires Shape()
      reads cell
    {
      set a | a in AllCells(nrows, ncols) && cell[a.row, a.col].solution
    }

    lemma SnapshotMeaning(f: Forest)
      requires Shape() && f == Snapshot()
      ensures forall a, b :: (a, b) in f.edges <==> Adjacent(a, b) && CellsConnected(a, b)
      ensures forall a :: (a in f.tid <==> CellExists(a)) && (a in f.dist <==> CellExists(a))
      ensures forall a :: CellExists(a) ==> f.tid[a] == cell[a.row, a.col].cookie && f.dist[a] == distance[a.row, a.col]
      ensures forall a :: a in f.visited <==> CellExists(a) && cell[a.row, a.col].visited
      ensures f.starts == starts
    {
      forall a | InGrid(nrows, ncols, a) ensures a in AllCells(nrows, ncols) { assert a == Rowcol(a.row, a.col); }
    }

    predicate SameTids(a: Rowcol, b: Rowcol)
      requires Shape() && CellExists(a) && CellExists(b)
      reads cell
    {
      cell[a.row, a.col].cookie == cell[b.row, b.col].cookie
    }

    /** maze_is_prev_cell. */
    predicate IsPrevCell(a: Rowcol, b: Rowcol)
      requires Shape() && Adjacent(a, b)
      reads cell, distance
    {
      CellsConnected(a, b) && SameTids(a, b) && distance[a.row, a.col] - distance[b.row, b.col] == 1
    }

    lemma PrevMeaning(f: Forest, a: Rowcol, b: Rowcol)
      requires Shape() && f == Snapshot() && Adjacent(a, b)
      ensures IsPrevCell(a, b) <==> IsPrev(f, a, b)
    {
      SnapshotMeaning(f);
    }

    /** maze_get_cell_distance. */
    method CellDistance(a: Rowcol, ghost f: Forest) returns (d: nat)
      requires Shape() && f == Snapshot() && a in f.dist
      ensures d == f.dist[a]
    {
      SnapshotMeaning(f);
      d := distance[a.row, a.col];
    }

    /** The four tests shared by maze_mark_solution and maze_mark_advance_cell: the ABORT that
        follows them is unreachable. */
    method Retreat(a: Rowcol, ghost f: Forest) returns (next: Rowcol)
      requires Shape() && f == Snapshot() && ForestOk(f) && a in f.visited && f.dist[a] > 1
      ensures next == PrevOf(f, a)
    {
      hide Snapshot, ForestOk, IsPrevCell, IsPrev, PrevOf;
      PrevCases(f, a);
      PrevMeaning(f, a, Neighbour(a, 2));
      PrevMeaning(f, a, Neighbour(a, 3));
      PrevMeaning(f, a, Neighbour(a, 0));
      next := Rowcol(a.row - 1, a.col);
      if !IsPrevCell(a, next) {
        next := Rowcol(a.row + 1, a.col);
        if !IsPrevCell(a, next) {
          next := Rowcol(a.row, a.col - 1);
          if !IsPrevCell(a, next) {
            next := Rowcol(a.row, a.col + 1);
          }
        }
      }
    }

    /** *cp |= SOLUTION. */
    method MarkCell(a: Rowcol)
      requires Shape() && CellExists(a)
      modifies cell
      ensures Snapshot() == old(Snapshot()) && Marked() == old(Marked()) + {a}
    {
      cell[a.row, a.col] := cell[a.row, a.col].(solution := true);
      assert a == Rowcol(a.row, a.col);
      ghost var f, g := Snapshot(), old(Snapshot());
      assert f.edges == g.edges;
      assert f.tid == g.tid && f.dist == g.dist;
      assert f.visited == g.visited;
      assert Marked() == old(Marked()) + {a};
    }

    /** maze_mark_solution: marks the tree path from a thread's start to `end`. */
    method MarkSolution(start: Rowcol, end: Rowcol, ghost f: Forest) returns (len: nat)
      requires Shape() && f == Snapshot() && ForestOk(f)
      requires SameTree(f, start, end) && f.dist[start] == 1
      modifies cell
      ensures Snapshot() == f
      ensures len == |TreePath(f, start, end)| && Marked() == old(Marked()) + Members(TreePath(f, start, end))
    {
      hide Snapshot, Marked, Climbed, TreePath, ForestOk, PrevOf;
      RootPathLength(f, start, end);
      ClimbStart(f, start, end);
      var cr := end;
      Exists(cr, f);
      MarkCell(cr);
      ghost var rest := [];
      while cr != start
        invariant Snapshot() == f && Climbed(f, start, end, [], start, cr, rest)
        invariant SameTree(f, cr, start)
        invariant Marked() == old(Marked()) + Members([cr] + rest)
        decreases f.dist[cr]
      {
        DepthFacts(f, start, cr);
        var nr := Retreat(cr, f);
        ClimbSecond(f, start, end, [], start, cr, rest);
        rest := [cr] + rest;
        cr := nr;
        Exists(cr, f);
        MarkCell(cr);
        assert Members([cr] + rest) == Members(rest) + {cr};
      }
      ClimbEnd(f, start, end, [], cr, rest);
      len := CellDistance(end, f);
    }

    lemma Exists(a: Rowcol, f: Forest)
      requires Shape() && f == Snapshot() && a in f.visited
      ensures CellExists(a) && a in f.dist
    {
    }

    /** maze_mark_advance_cell. */
    method MarkAdvanceCell(c: Rowcol, ghost f: Forest) returns (next: Rowcol)
      requires Shape() && f == Snapshot() && ForestOk(f) && c in f.visited && f.dist[c] > 1
      modifies cell
      ensures Snapshot() == f && Marked() == old(Marked()) + {c} && next == PrevOf(f, c)
    {
      Exists(c, f);
      hide Snapshot, Marked, ForestOk, PrevOf;
      MarkCell(c);
      next := Retreat(c, f);
    }

    /** maze_mark_subsolution: marks the tree path between two cells of one thread.  None of its
        ABORTs is reachable. */
    method MarkSubsolution(c1: Rowcol, c2: Rowcol, ghost f: Forest) returns (len: nat)
      requires Shape() && f == Snapshot() && ForestOk(f)
      requires SameTree(f, c1, c2)
      modifies cell
      ensures Snapshot() == f
      ensures len == |TreePath(f, c1, c2)| && Marked() == old(Marked()) + Members(TreePath(f, c1, c2))
    {
      hide Snapshot, Marked, Climbed, TreePath, ForestOk, PrevOf, IsPrev;
      Exists(c1, f);
      Exists(c2, f);
      ClimbStart(f, c1, c2);
      var cr1, cr2 := c1, c2;
      var d1 := CellDistance(c1, f);
      var d2 := CellDistance(c2, f);
      var s := 0;
      ghost var left, right := [], [];
      while cr1 != cr2
        invariant Snapshot() == f && Climbed(f, c1, c2, left, cr1, cr2, right)
        invariant SameTree(f, cr1, cr2) && d1 == f.dist[cr1] && d2 == f.dist[cr2]
        invariant s == |left| + |right| && Marked() == old(Marked()) + Members(left) + Members(right)
        decreases d1 + d2
      {
        DepthFacts(f, cr1, cr2);
        if d1 > d2 {
          var nr := MarkAdvanceCell(cr1, f);
          ClimbFirst(f, c1, c2, left, cr1, cr2, right);
          assert Members(left + [cr1]) == Members(left) + {cr1};
          left := left + [cr1];
          s := s + 1;
          cr1 := nr;
          Exists(cr1, f);
          d1 := CellDistance(cr1, f);
        } else {
          var nr := MarkAdvanceCell(cr2, f);
          ClimbSecond(f, c1, c2, left, cr1, cr2, right);
          assert Members([cr2] + right) == {cr2} + Members(right);
          right := [cr2] + right;
          s := s + 1;
          cr2 := nr;
          Exists(cr2, f);
          d2 := CellDistance(cr2, f);
        }
      }
      Exists(cr1, f);
      MarkCell(cr1);
      ClimbEnd(f, c1, c2, left, cr1, right);
      assert Members(left + [cr1] + right) == Members(left) + Members(right) + {cr1};
      len := s + 1;
    }

    // ----- the encounter table

    ghost function Links(): Links
      requires Shape()
      reads adj
    {
      set i: nat, j: nat | i < nthreads && j < nthreads && adj[i, j].mr != -1 :: (i, j)
    }

    /** Every entry is empty throughout or a true encounter. */
    ghost predicate TableOk(f: Forest)
      requires Shape()
      reads adj
    {
      forall i, j :: 0 <= i < nthreads && 0 <= j < nthreads ==> EncounterOk(f, i, j, adj[i, j])
    }

    /** maze_solve_map_adj: an entry nobody recorded becomes the swap of its mirror entry. */
    method MapAdj(ghost f: Forest)
      requires Shape() && f == Snapshot() && ForestOk(f) && TableOk(f)
      modifies adj
      ensures TableOk(f) && Snapshot() == f
      ensures forall i, j :: 0 <= i < nthreads && 0 <= j < nthreads ==> adj[i, j] == old(Mapped(adj[i, j], adj[j, i]))
      ensures Links() == Mirrored(old(Links()))
    {
      hide ForestOk, EncounterFits;
      for i := 0 to nthreads
        invariant forall a, b :: 0 <= a < nthreads && 0 <= b < nthreads ==>
          adj[a, b] == if a < i then old(Mapped(adj[a, b], adj[b, a])) else old(adj[a, b])
      {
        for j := 0 to nthreads
          invariant forall a, b :: 0 <= a < nthreads && 0 <= b < nthreads ==>
            adj[a, b] == if a < i || (a == i && b < j) then old(Mapped(adj[a, b], adj[b, a])) else old(adj[a, b])
        {
          assert old(EncounterOk(f, i, j, adj[i, j]) && EncounterOk(f, j, i, adj[j, i]));
          if adj[i, j].mr == -1 {
            adj[i, j] := Swap(adj[j, i]);
          }
        }
      }
      forall i, j | 0 <= i < nthreads && 0 <= j < nthreads
        ensures EncounterOk(f, i, j, adj[i, j])
        ensures adj[i, j].mr != -1 <==> old(adj[i, j]).mr != -1 || old(adj[j, i]).mr != -1
      {
        assert old(EncounterOk(f, i, j, adj[i, j]) && EncounterOk(f, j, i, adj[j, i]));
        SwapOk(f, j, i, old(adj[j, i]));
        SwapMirrors(f, j, i, old(adj[j, i]));
      }
    }

    lemma SwapMirrors(f: Forest, i: nat, j: nat, e: Encounter)
      requires EncounterOk(f, i, j, e)
      ensures Swap(e).mr == -1 <==> e.mr == -1
    {
    }

    lemma CannotFollow(p: seq<nat>, i: nat)
      requires Shape() && Considering(Links(), nthreads, p) && i < |p| && p[|p| - 1] < nthreads
      requires i < |p| - 1 ==> p[i] == p[|p| - 1]
      requires i >= |p| - 1 ==> adj[p[|p| - 2], p[|p| - 1]].mr == -1
      ensures !CanFollow(Links(), p)
    {
      if i < |p| - 1 { assert p[..|p| - 1][i] == p[|p| - 1]; }
    }

    lemma MayFollow(p: seq<nat>)
      requires Shape() && Considering(Links(), nthreads, p) && p[|p| - 1] < nthreads
      requires p[|p| - 1] !in p[..|p| - 1] && adj[p[|p| - 2], p[|p| - 1]].mr != -1
      ensures CanFollow(Links(), p)
    {
    }

    /** The inner for loop of maze_solve_route_partitions: the next partition that is not on the
        path and was met by the last one on it, nthreads if there is none. */
    method NextPartition(path: array<nat>, pathidx: nat)
      requires Shape() && path.Length == nthreads && pathidx < nthreads
      requires Considering(Links(), nthreads, path[..pathidx + 1]) && NoneBelow(Links(), nthreads, path[..pathidx + 1])
      modifies path
      ensures path[..pathidx] == old(path[..pathidx])
      ensures Considering(Links(), nthreads, path[..pathidx + 1]) && NoneBelow(Links(), nthreads, path[..pathidx + 1])
      ensures path[pathidx] < nthreads ==> CanFollow(Links(), path[..pathidx + 1])
      ensures path[pathidx] == 1 || old(path[pathidx]) <= path[pathidx]
      ensures WorkLeft(path[..pathidx + 1], nthreads, 0) <= old(WorkLeft(path[..pathidx + 1], nthreads, 0))
    {
      hide NoneBelow, WorkLeft, CanFollow, Links;
      while path[pathidx] < nthreads
        invariant path[..pathidx] == old(path[..pathidx]) && old(path[pathidx]) <= path[pathidx]
        invariant Considering(Links(), nthreads, path[..pathidx + 1])
        invariant NoneBelow(Links(), nthreads, path[..pathidx + 1])
        invariant WorkLeft(path[..pathidx + 1], nthreads, 0) <= old(WorkLeft(path[..pathidx + 1], nthreads, 0))
        decreases nthreads - path[pathidx]
      {
        ghost var p := path[..pathidx + 1];
        var follow := IsNextPartition(path, pathidx);
        if follow {
          return;
        }
        SkipLosesNothing(Links(), nthreads, p);
        BumpLeavesLess(p, nthreads, 0);
        path[pathidx] := path[pathidx] + 1;
        assert path[..pathidx + 1] == Bump(p);
      }
    }

    /** Whether path[pathidx] is not on the path yet and was met by the partition before it. */
    method IsNextPartition(path: array<nat>, pathidx: nat) returns (follow: bool)
      requires Shape() && path.Length == nthreads && pathidx < nthreads && path[pathidx] < nthreads
      requires Considering(Links(), nthreads, path[..pathidx + 1])
      ensures follow <==> CanFollow(Links(), path[..pathidx + 1])
    {
      hide CanFollow;
      ghost var p := path[..pathidx + 1];
      assert p[..pathidx] == path[..pathidx];
      var i := 0;
      while i < pathidx && path[i] != path[pathidx]
        invariant i <= pathidx && path[pathidx] !in path[..i]
      {
        i := i + 1;
      }
      follow := i >= pathidx && adj[path[pathidx - 1], path[pathidx]].mr != -1;
      if follow {
        assert path[..pathidx] == path[..i];
        MayFollow(p);
      } else {
        CannotFollow(p, i);
      }
    }

    /** maze_solve_route_partitions: succeeds exactly when a simple route from the first
        partition to the second exists, and leaves one in path. */
    method RoutePartitions(path: array<nat>) returns (found: bool, ghost len: nat)
      requires Shape() && path.Length == nthreads
      modifies path
      ensures found <==> HasRoute(Links(), nthreads)
      ensures found ==> len <= nthreads && Route(Links(), nthreads, path[..len])
    {
      hide NoneBelow, WorkLeft, CanFollow, Links, Considering, Route, HasRoute;
      var pathidx := 1;
      len := 0;
      path[0] := 0;
      path[1] := 1;
      assert path[..2] == [0, 1];
      FirstPath(Links(), nthreads);
      while true
        invariant 1 <= pathidx < nthreads
        invariant Considering(Links(), nthreads, path[..pathidx + 1])
        invariant NoneBelow(Links(), nthreads, path[..pathidx + 1])
        invariant forall k :: 0 <= k <= pathidx ==> path[k] <= nthreads
        decreases WorkLeft(path[..pathidx + 1], nthreads, 0)
      {
        NextPartition(path, pathidx);
        ghost var p := path[..pathidx + 1];
        ConsideringFacts(Links(), nthreads, p);
        assert forall k :: 0 <= k <= pathidx ==> path[k] == p[k];
        if path[pathidx] == 1 {
          len := pathidx + 1;
          FoundRoute(Links(), nthreads, p);
          found := true;
          return;
        }
        if pathidx < nthreads - 1 && path[pathidx] < nthreads {
          pathidx := Descend(path, pathidx);
        } else {
          if pathidx == 1 {
            ExhaustedMeansNoRoute(Links(), nthreads, p);
            found := false;
            return;
          }
          pathidx := Backtrack(path, pathidx);
        }
      }
    }

    method Descend(path: array<nat>, pathidx: nat) returns (pathidx': nat)
      requires Shape() && path.Length == nthreads && pathidx < nthreads - 1
      requires Considering(Links(), nthreads, path[..pathidx + 1]) && NoneBelow(Links(), nthreads, path[..pathidx + 1])
      requires CanFollow(Links(), path[..pathidx + 1]) && path[pathidx] != 1 && path[pathidx] < nthreads
      modifies path
      ensures pathidx' == pathidx + 1 && forall k :: 0 <= k <= pathidx' ==> path[k] <= nthreads
      ensures Considering(Links(), nthreads, path[..pathidx' + 1]) && NoneBelow(Links(), nthreads, path[..pathidx' + 1])
      ensures WorkLeft(path[..pathidx' + 1], nthreads, 0) < WorkLeft(old(path[..pathidx + 1]), nthreads, 0)
    {
      hide Considering, NoneBelow, WorkLeft, Links, CanFollow;
      ghost var p := path[..pathidx + 1];
      DescendLosesNothing(Links(), nthreads, p);
      ConsideringFacts(Links(), nthreads, p);
      DescendLeavesLess(p, nthreads, 0);
      pathidx' := pathidx + 1;
      path[pathidx'] := 1;
      ghost var q := path[..pathidx' + 1];
      assert q == p + [1];
      ConsideringFacts(Links(), nthreads, q);
      assert forall k :: 0 <= k <= pathidx' ==> path[k] == q[k];
    }

    method Backtrack(path: array<nat>, pathidx: nat) returns (pathidx': nat)
      requires Shape() && path.Length == nthreads && 1 < pathidx < nthreads
      requires Considering(Links(), nthreads, path[..pathidx + 1]) && NoneBelow(Links(), nthreads, path[..pathidx + 1])
      requires path[pathidx] == nthreads || (pathidx == nthreads - 1 && path[pathidx] > 1)
      modifies path
      ensures pathidx' == pathidx - 1 && forall k :: 0 <= k <= pathidx' ==> path[k] <= nthreads
      ensures Considering(Links(), nthreads, path[..pathidx' + 1]) && NoneBelow(Links(), nthreads, path[..pathidx' + 1])
      ensures WorkLeft(path[..pathidx' + 1], nthreads, 0) < WorkLeft(old(path[..pathidx + 1]), nthreads, 0)
    {
      hide Considering, NoneBelow, WorkLeft, Links, CanFollow;
      ghost var p := path[..pathidx + 1];
      BacktrackLosesNothing(Links(), nthreads, p);
      ConsideringFacts(Links(), nthreads, p);
      BacktrackLeavesLess(p, nthreads, 0);
      pathidx' := pathidx - 1;
      path[pathidx'] := path[pathidx'] + 1;
      ghost var q := path[..pathidx' + 1];
      assert q == Bump(p[..|p| - 1]);
      ConsideringFacts(Links(), nthreads, q);
      assert forall k :: 0 <= k <= pathidx' ==> path[k] == q[k];
    }

    // ----- stitching

    /** maze_solve_stitch_partitions: marks one simple path from the maze's start to its end and
        returns its number of cells. */
    method StitchPartitions(path: array<nat>, ghost len: nat, ghost f: Forest) returns (d: nat, ghost full: seq<Rowcol>)
      requires Shape() && f == Snapshot() && ForestOk(f) && TableOk(f) && Marked() == {}
      requires path.Length == nthreads && len <= nthreads && Route(Links(), nthreads, path[..len])
      modifies cell
      ensures Snapshot() == f
      ensures SimplePathFromTo(f.edges, full, starts[0], starts[1])
      ensures d == |full| && Marked() == Members(full)
    {
      hide Snapshot, Marked, ForestOk, TreePath, Links, TableOk, Route, SimplePathFromTo, TidsWithin, Members, Distinct;
      ghost var r := path[..len];
      StitchFacts(f, r);
      assert path[0] == r[0] && path[1] == r[1] && len == |r|;
      var rcpp := adj[path[0], path[1]];
      assert EncounterFits(f, r[0], r[1], rcpp);
      d := MarkSolution(starts[0], Mine(rcpp), f);
      full := FirstTree(f, r, starts[0], Mine(rcpp));
      var i := 1;
      while path[i] != 1
        invariant 1 <= i < len && Snapshot() == f && Marked() == Members(full) && d == |full|
        invariant EncounterFits(f, r[i - 1], r[i], rcpp)
        invariant SimplePathFromTo(f.edges, full, starts[0], Mine(rcpp)) && TidsWithin(f, full, r[..i])
        decreases len - i
      {
        var s;
        rcpp, s, full := StitchOne(path, r, i, rcpp, full, f);
        d := d + s;
        i := i + 1;
      }
      assert r[i] == 1;
      var s := MarkSolution(starts[1], Theirs(rcpp), f);
      d := d + s;
      TreePathFlip(f, Theirs(rcpp), starts[1]);
      full := StitchStep(f, full, r, i, starts[0], Mine(rcpp), Theirs(rcpp), starts[1]);
    }

    /** One round of the stitching loop: crosses thread path[i]. */
    method StitchOne(path: array<nat>, ghost r: seq<nat>, i: nat, rcpp: Encounter, ghost full: seq<Rowcol>,
        ghost f: Forest)
      returns (rcpp': Encounter, s: nat, ghost full': seq<Rowcol>)
      requires Shape() && f == Snapshot() && ForestOk(f) && Marked() == Members(full)
      requires 1 <= i < |r| - 1 && |r| <= path.Length && path[i] == r[i] < nthreads
      requires path[i + 1] == r[i + 1] < nthreads && Distinct(r)
      requires EncounterFits(f, r[i - 1], r[i], rcpp) && EncounterFits(f, r[i], r[i + 1], adj[r[i], r[i + 1]])
      requires SimplePathFromTo(f.edges, full, starts[0], Mine(rcpp)) && TidsWithin(f, full, r[..i])
      modifies cell
      ensures Snapshot() == f && rcpp' == adj[r[i], r[i + 1]] && |full'| == |full| + s && Marked() == Members(full')
      ensures SimplePathFromTo(f.edges, full', starts[0], Mine(rcpp')) && TidsWithin(f, full', r[..i + 1])
    {
      ForestIsSymmetric(f);
      hide Snapshot, Marked, ForestOk, TreePath, SimplePathFromTo, TidsWithin, Members, Distinct;
      var cr := Theirs(rcpp);
      rcpp' := adj[path[i], path[i + 1]];
      s := MarkSubsolution(cr, Mine(rcpp'), f);
      full' := StitchStep(f, full, r, i, starts[0], Mine(rcpp), cr, Mine(rcpp'));
    }

    lemma StartFacts(f: Forest, t: nat)
      requires Shape() && ForestOk(f) && t < nthreads && f.starts == starts
      ensures starts[t] in f.visited && f.tid[starts[t]] == t && f.dist[starts[t]] == 1
    {
      assert CellOk(f, starts[t]);
    }

    lemma StitchFacts(f: Forest, r: seq<nat>)
      requires Shape() && f == Snapshot() && ForestOk(f) && TableOk(f) && Route(Links(), nthreads, r)
      ensures Distinct(r) && 2 <= |r| && r[0] == 0 && r[|r| - 1] == 1
      ensures forall i :: 0 <= i < |r| ==> r[i] < nthreads && (r[i] == 1 <==> i == |r| - 1)
      ensures forall i :: 0 <= i < |r| - 1 ==> EncounterFits(f, r[i], r[i + 1], adj[r[i], r[i + 1]])
      ensures Symmetric(f.edges) && forall c :: c in f.visited ==> c in f.tid && c in f.dist
      ensures starts[0] in f.visited && f.tid[starts[0]] == 0 && f.dist[starts[0]] == 1
      ensures starts[1] in f.visited && f.tid[starts[1]] == 1 && f.dist[starts[1]] == 1
    {
      RouteFacts(f, r);
      ForestIsSymmetric(f);
      StartFacts(f, 0);
      StartFacts(f, 1);
    }

    lemma RouteFacts(f: Forest, r: seq<nat>)
      requires Shape() && TableOk(f) && Route(Links(), nthreads, r)
      ensures Distinct(r) && 2 <= |r| && r[0] == 0 && r[|r| - 1] == 1
      ensures forall i :: 0 <= i < |r| ==> r[i] < nthreads && (r[i] == 1 <==> i == |r| - 1)
      ensures forall i :: 0 <= i < |r| - 1 ==> EncounterFits(f, r[i], r[i + 1], adj[r[i], r[i + 1]])
    {
      forall i | 0 <= i < |r| - 1
        ensures EncounterFits(f, r[i], r[i + 1], adj[r[i], r[i + 1]])
      {
        assert (r[i], r[i + 1]) in Links();
        assert EncounterOk(f, r[i], r[i + 1], adj[r[i], r[i + 1]]);
      }
    }

    /** maze_solve from the end of the children on: 0 if the encounters join the start's thread
        to the end's by no route, else the number of cells of the one simple path it marks. */
    method FinishSolve() returns (d: nat)
      requires Shape() && ForestOk(Snapshot()) && TableOk(Snapshot()) && Marked() == {}
      modifies cell, adj
      ensures Snapshot() == old(Snapshot()) && d == |Marked()|
      ensures d > 0 <==> HasRoute(old(Mirrored(Links())), nthreads)
      ensures d > 0 ==>
        exists p :: SimplePathFromTo(Snapshot().edges, p, starts[0], starts[1]) && Members(p) == Marked() && |p| == d
    {
      hide Snapshot, Marked, ForestOk, TableOk, Links, HasRoute, Route, SimplePathFromTo;
      ghost var f := Snapshot();
      var path := new nat[nthreads];
      MapAdj(f);
      var found, len := RoutePartitions(path);
      d := 0;
      if found {
        ghost var full;
        d, full := StitchPartitions(path, len, f);
        CellsSize(f.edges, full, starts[0], starts[1]);
      }
    }
  }

  /** mp holds what the child threads left behind. */
  ghost predicate LeftBy(mp: PartitionedMaze, s: PartitionGrowth.State)
    requires mp.Shape()
    reads mp.cell, mp.distance, mp.adj
  {
    mp.Snapshot() == s.f && mp.Marked() == {} && mp.nthreads == |s.kids|
    && forall i, j :: 0 <= i < mp.nthreads && 0 <= j < mp.nthreads ==> (i, j) in s.adj && s.adj[(i, j)] == mp.adj[i, j]
  }

  /** maze_solve as a whole: after any run in which all children return, the maze's start and
      end are joined by one marked simple path, and its number of cells is returned. */
  method MazeSolve(mp: PartitionedMaze, ghost run: seq<PartitionGrowth.State>, ghost who: seq<nat>) returns (d: nat)
    requires mp.Shape() && PartitionGrowth.IsRun(run, who) && PartitionGrowth.AllFinished(run[|who|])
    requires LeftBy(mp, run[|who|])
    modifies mp.cell, mp.adj
    ensures mp.Snapshot() == run[|who|].f && d == |mp.Marked()| > 0
    ensures exists p ::
      SimplePathFromTo(run[0].f.edges, p, mp.starts[0], mp.starts[1]) && Members(p) == mp.Marked() && |p| == d
  {
    ghost var s := run[|who|];
    PartitionGrowth.FinishedRun(run, who, |who|);
    PartitionGrowth.RunKeepsOwners(run, who, 0, |who|);
    PartitionGrowth.RunInv(run, who, |who|);
    LinksAreMet(mp, s);
    hide PartitionGrowth.Inv, PartitionGrowth.MetLinks, LeftBy, PartitionGrowth.IsRun, ForestOk, Route, HasRoute;
    hide SimplePathFromTo;
    d := mp.FinishSolve();
  }

  lemma LinksAreMet(mp: PartitionedMaze, s: PartitionGrowth.State)
    requires mp.Shape() && LeftBy(mp, s) && PartitionGrowth.Shape(s)
    ensures Mirrored(mp.Links()) == PartitionGrowth.MetLinks(s)
  {
  }

  /** An entry after maze_solve_map_adj, from it and its mirror before. */
  function Mapped(mine: Encounter, theirs: Encounter): (e: Encounter) {
    if mine.mr == -1 then Swap(theirs) else mine
  }

  /** The links of the completed table. */
  ghost function Mirrored(links: Links): Links {
    links + set l | l in links :: (l.1, l.0)
  }

  lemma CellsSize(edges: set<Edge>, p: seq<Rowcol>, a: Rowcol, b: Rowcol)
    requires SimplePathFromTo(edges, p, a, b)
    ensures |Members(p)| == |p| > 0
  {
    MembersSize(p);
  }

  ghost predicate TidsWithin(f: Forest, p: seq<Rowcol>, tids: seq<nat>) {
    forall c :: c in p ==> c in f.tid && f.tid[c] in tids
  }

  /** What is left to climb between two ends, and what was climbed on either side. */
  ghost predicate Climbed(f: Forest, a: Rowcol, b: Rowcol, left: seq<Rowcol>, x: Rowcol, y: Rowcol,
      right: seq<Rowcol>) {
    ForestOk(f) && SameTree(f, a, b) && SameTree(f, x, y) && TreePath(f, a, b) == left + TreePath(f, x, y) + right
  }

  lemma ClimbStart(f: Forest, a: Rowcol, b: Rowcol)
    requires ForestOk(f) && SameTree(f, a, b)
    ensures Climbed(f, a, b, [], a, b, []) && a in f.dist && b in f.dist
  {
    assert [] + TreePath(f, a, b) + [] == TreePath(f, a, b);
  }

  lemma ClimbEnd(f: Forest, a: Rowcol, b: Rowcol, left: seq<Rowcol>, x: Rowcol, right: seq<Rowcol>)
    requires Climbed(f, a, b, left, x, x, right)
    ensures TreePath(f, a, b) == left + [x] + right
    ensures left == [] ==> TreePath(f, a, b) == [x] + right
  {
    assert left == [] ==> left + [x] + right == [x] + right;
  }

  lemma ClimbFirst(f: Forest, a: Rowcol, b: Rowcol, left: seq<Rowcol>, x: Rowcol, y: Rowcol, right: seq<Rowcol>)
    requires Climbed(f, a, b, left, x, y, right) && f.dist[x] > f.dist[y] && x != y
    ensures Climbed(f, a, b, left + [x], PrevOf(f, x), y, right) && f.dist[PrevOf(f, x)] < f.dist[x]
    ensures SameTree(f, PrevOf(f, x), y)
  {
    hide ForestOk, IsPrev, PrevOf, TreePath;
    ClimbOneFirst(f, x, y);
    RegroupLeft(left, TreePath(f, PrevOf(f, x), y), x, right);
  }

  lemma ClimbOneFirst(f: Forest, x: Rowcol, y: Rowcol)
    requires ForestOk(f) && SameTree(f, x, y) && f.dist[x] > f.dist[y] && x != y
    ensures CellOk(f, x) && f.dist[x] > 1 && SameTree(f, PrevOf(f, x), y) && f.dist[PrevOf(f, x)] < f.dist[x]
    ensures TreePath(f, x, y) == [x] + TreePath(f, PrevOf(f, x), y)
  {
    assert CellOk(f, x) && CellOk(f, y);
    var e := PrevOf(f, x);
    assert SameTree(f, e, y);
  }

  lemma RegroupLeft(left: seq<Rowcol>, p: seq<Rowcol>, x: Rowcol, right: seq<Rowcol>)
    ensures left + ([x] + p) + right == (left + [x]) + p + right
  {
  }

  lemma ClimbSecond(f: Forest, a: Rowcol, b: Rowcol, left: seq<Rowcol>, x: Rowcol, y: Rowcol, right: seq<Rowcol>)
    requires Climbed(f, a, b, left, x, y, right) && f.dist[x] <= f.dist[y] && x != y && f.dist[y] > 1
    ensures Climbed(f, a, b, left, x, PrevOf(f, y), [y] + right) && f.dist[PrevOf(f, y)] < f.dist[y]
    ensures SameTree(f, x, PrevOf(f, y))
  {
    hide ForestOk, IsPrev, PrevOf, TreePath;
    ClimbOneSecond(f, x, y);
    Regroup(left, TreePath(f, x, PrevOf(f, y)), y, right);
  }

  lemma ClimbOneSecond(f: Forest, x: Rowcol, y: Rowcol)
    requires ForestOk(f) && SameTree(f, x, y) && f.dist[x] <= f.dist[y] && x != y && f.dist[y] > 1
    ensures SameTree(f, x, PrevOf(f, y)) && f.dist[PrevOf(f, y)] < f.dist[y]
    ensures TreePath(f, x, y) == TreePath(f, x, PrevOf(f, y)) + [y]
  {
    var e := PrevOf(f, y);
    assert SameTree(f, x, e);
  }

  lemma Regroup(left: seq<Rowcol>, p: seq<Rowcol>, y: Rowcol, right: seq<Rowcol>)
    ensures left + (p + [y]) + right == left + p + ([y] + right)
  {
  }

  /** Two different cells of one tree are not both roots. */
  lemma DepthFacts(f: Forest, a: Rowcol, b: Rowcol)
    requires ForestOk(f) && SameTree(f, a, b) && a != b
    ensures a in f.dist && b in f.dist && f.dist[a] >= 1 && f.dist[b] >= 1 && (f.dist[a] > 1 || f.dist[b] > 1)
  {
    assert CellOk(f, a) && CellOk(f, b);
  }

  /** Seen from the deeper end, a path to a root has the same cells. */
  lemma ClimbFromRoot(f: Forest, a: Rowcol, root: Rowcol)
    requires ForestOk(f) && SameTree(f, a, root) && f.dist[root] == 1 && a != root
    ensures f.dist[a] > 1 && SameTree(f, PrevOf(f, a), root) && f.dist[PrevOf(f, a)] < f.dist[a]
    ensures TreePath(f, a, root) == [a] + TreePath(f, PrevOf(f, a), root)
    ensures TreePath(f, root, a) == TreePath(f, root, PrevOf(f, a)) + [a]
  {
    assert CellOk(f, a) && CellOk(f, root);
  }

  lemma {:induction false} TreePathFlip(f: Forest, a: Rowcol, root: Rowcol)
    requires ForestOk(f) && SameTree(f, a, root) && f.dist[root] == 1
    ensures |TreePath(f, a, root)| == |TreePath(f, root, a)|
    ensures Members(TreePath(f, a, root)) == Members(TreePath(f, root, a))
    decreases f.dist[a]
  {
    hide IsPrev, ForestOk, TreePath;
    if a != root {
      ClimbFromRoot(f, a, root);
      TreePathFlip(f, PrevOf(f, a), root);
      assert Members([a] + TreePath(f, PrevOf(f, a), root)) == {a} + Members(TreePath(f, PrevOf(f, a), root));
      assert Members(TreePath(f, root, PrevOf(f, a)) + [a]) == Members(TreePath(f, root, PrevOf(f, a))) + {a};
    }
  }

  lemma TidsApart(f: Forest, p: seq<Rowcol>, t: seq<Rowcol>, tids: seq<nat>, tid: nat)
    requires TidsWithin(f, p, tids) && tid !in tids && forall c :: c in t ==> c in f.tid && f.tid[c] == tid
    ensures forall c :: c in p ==> c !in t
    ensures TidsWithin(f, p + t, tids + [tid]) && Members(p + t) == Members(p) + Members(t)
  {
  }

  lemma ForestIsSymmetric(f: Forest)
    requires ForestOk(f)
    ensures Symmetric(f.edges) && forall c :: c in f.visited ==> c in f.tid && c in f.dist
  {
  }

  /** Extends the stitched path by the subsolution of the route's i-th thread. */
  lemma StitchStep(f: Forest, p: seq<Rowcol>, r: seq<nat>, i: nat, start: Rowcol, mine: Rowcol, theirs: Rowcol,
      c: Rowcol)
    returns (q: seq<Rowcol>)
    requires ForestOk(f) && 1 <= i < |r| && Distinct(r) && TidsWithin(f, p, r[..i])
    requires SimplePathFromTo(f.edges, p, start, mine) && (mine, theirs) in f.edges
    requires SameTree(f, theirs, c) && f.tid[c] == r[i]
    ensures q == p + TreePath(f, theirs, c) && SimplePathFromTo(f.edges, q, start, c)
    ensures TidsWithin(f, q, r[..i + 1]) && Members(q) == Members(p) + Members(TreePath(f, theirs, c))
  {
    var t := TreePath(f, theirs, c);
    ForestIsSymmetric(f);
    RouteTids(r, i);
    TreePathSimple(f, theirs, c);
    hide ForestOk, TreePath;
    q := AppendPath(f, p, t, r[..i], r[i], start, mine, theirs, c);
  }

  lemma FirstTree(f: Forest, r: seq<nat>, start: Rowcol, c: Rowcol) returns (q: seq<Rowcol>)
    requires ForestOk(f) && |r| >= 1 && SameTree(f, start, c) && f.tid[start] == r[0]
    ensures q == TreePath(f, start, c) && SimplePathFromTo(f.edges, q, start, c) && TidsWithin(f, q, r[..1])
  {
    q := TreePath(f, start, c);
    TreePathSimple(f, start, c);
    assert r[..1] == [r[0]];
  }

  lemma RouteTids(r: seq<nat>, i: nat)
    requires i < |r| && Distinct(r)
    ensures r[i] !in r[..i] && r[..i + 1] == r[..i] + [r[i]]
  {
  }

  lemma AppendPath(f: Forest, p: seq<Rowcol>, t: seq<Rowcol>, tids: seq<nat>, tid: nat, start: Rowcol, mine: Rowcol,
      theirs: Rowcol, c: Rowcol)
    returns (q: seq<Rowcol>)
    requires Symmetric(f.edges) && TidsWithin(f, p, tids) && tid !in tids
    requires SimplePathFromTo(f.edges, p, start, mine) && (mine, theirs) in f.edges
    requires SimplePathFromTo(f.edges, t, theirs, c) && forall c :: c in t ==> c in f.tid && f.tid[c] == tid
    ensures q == p + t && SimplePathFromTo(f.edges, q, start, c)
    ensures TidsWithin(f, q, tids + [tid]) && Members(q) == Members(p) + Members(t)
  {
    q := p + t;
    TidsApart(f, p, t, tids, tid);
    hide SimplePathFromTo;
    JoinPaths(f.edges, p, t, start, mine, theirs, c);
  }

  lemma ConsideringFacts(links: Links, n: nat, p: seq<nat>)
    requires Considering(links, n, p)
    ensures 2 <= |p| <= n && 1 <= p[|p| - 1] && p[|p| - 2] < n && forall k :: 0 <= k < |p| ==> p[k] <= n
  {
  }

  lemma FirstPath(links: Links, n: nat)
    requires n >= 2
    ensures Considering(links, n, [0, 1]) && NoneBelow(links, n, [0, 1])
  {
    forall r, k | Route(links, n, r) && 0 <= k < 2 && k < |r| && r[..k] == [0, 1][..k]
      ensures r[k] >= [0, 1][k]
    {
      if k == 1 { assert r[0] != r[1]; }
    }
  }

  lemma FoundRoute(links: Links, n: nat, p: seq<nat>)
    requires Considering(links, n, p) && CanFollow(links, p) && p[|p| - 1] == 1 && n >= 3
    ensures Route(links, n, p) && HasRoute(links, n)
  {
    var last := |p| - 1;
    forall i, j | 0 <= i < j < |p|
      ensures p[i] != p[j]
    {
      if j < last { assert p[..last][i] != p[..last][j]; }
      else { assert p[..last][i] != p[j]; }
    }
    assert Route(links, n, p);
  }
}
