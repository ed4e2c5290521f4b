/** Routing through the partition graph by in-place backtracking: the reasoning behind
    maze_solve_route_partitions of SMPdesign/maze/maze_part.c, for n >= 3 threads.
 */
module PartitionRoute {
  import opened Common
  import opened MazeGrid

  type Links = set<(nat, nat)>

  /** A simple route from thread 0, which owns the start, to thread 1, which owns the end. */
  ghost predicate Route(links: Links, n: nat, r: seq<nat>) {
    |r| >= 2 && r[0] == 0 && r[|r| - 1] == 1 && Distinct(r)
    && (forall i :: 0 <= i < |r| ==> r[i] < n)
    && (forall i :: 0 <= i < |r| - 1 ==> (r[i], r[i + 1]) in links)
  }

  ghost predicate HasRoute(links: Links, n: nat) { exists r :: Route(links, n, r) }

  /** No route leaves p downwards: where it first differs from p it is above p. */
  ghost predicate NoneBelow(links: Links, n: nat, p: seq<nat>) {
    forall r, k :: Route(links, n, r) && 0 <= k < |p| && k < |r| && r[..k] == p[..k] ==> r[k] >= p[k]
  }

  /** All but the last entry form a simple linked walk from 0 that avoids 1; the last entry is
      the partition under consideration, n once they are exhausted. */
  ghost predicate Considering(links: Links, n: nat, p: seq<nat>) {
    2 <= |p| <= n && p[0] == 0 && 1 <= p[|p| - 1] <= n && Distinct(p[..|p| - 1])
    && (forall i :: 0 <= i < |p| - 1 ==> p[i] < n && p[i] != 1)
    && (forall i :: 0 <= i < |p| - 2 ==> (p[i], p[i + 1]) in links)
  }

  ghost predicate CanFollow(links: Links, p: seq<nat>)
    requires |p| >= 2
  {
    p[|p| - 1] !in p[..|p| - 1] && (p[|p| - 2], p[|p| - 1]) in links
  }

  function Bump(p: seq<nat>): (q: seq<nat>)
    requires p != []
  {
    p[|p| - 1 := p[|p| - 1] + 1]
  }

  /** Passing over a partition that is on the path already, or not linked, loses no route. */
  lemma SkipLosesNothing(links: Links, n: nat, p: seq<nat>)
    requires Considering(links, n, p) && NoneBelow(links, n, p) && !CanFollow(links, p) && p[|p| - 1] < n
    ensures Considering(links, n, Bump(p)) && NoneBelow(links, n, Bump(p))
  {
    var q := Bump(p);
    var last := |p| - 1;
    assert q[..last] == p[..last];
    forall r, k | Route(links, n, r) && 0 <= k < |q| && k < |r| && r[..k] == q[..k]
      ensures r[k] >= q[k]
    {
      assert q[..k] == p[..k];
      assert r[k] >= p[k];
      if k == last && r[last] == p[last] {
        assert (r[last - 1], r[last - 1 + 1]) in links;
        assert r[last - 1] == r[..last][last - 1] == p[last - 1];
        Revisits(r, p, last);
      }
    }
  }

  lemma Revisits(r: seq<nat>, p: seq<nat>, last: nat)
    requires last < |r| && last < |p| && r[..last] == p[..last] && r[last] == p[last] && p[last] in p[..last]
    ensures !Distinct(r)
  {
    var i :| 0 <= i < last && p[..last][i] == p[last];
    assert r[i] == r[..last][i];
  }

  /** Descending into a partition other than 1 starts the next position at 1. */
  lemma DescendLosesNothing(links: Links, n: nat, p: seq<nat>)
    requires Considering(links, n, p) && NoneBelow(links, n, p) && CanFollow(links, p)
    requires p[|p| - 1] != 1 && p[|p| - 1] < n && |p| < n
    ensures Considering(links, n, p + [1]) && NoneBelow(links, n, p + [1])
  {
    hide Considering, NoneBelow, Route, CanFollow;
    DescendConsiders(links, n, p);
    DescendBelow(links, n, p);
  }

  lemma DescendConsiders(links: Links, n: nat, p: seq<nat>)
    requires Considering(links, n, p) && CanFollow(links, p)
    requires p[|p| - 1] != 1 && p[|p| - 1] < n && |p| < n
    ensures Considering(links, n, p + [1])
  {
    var q := p + [1];
    assert q[..|p|] == p;
    forall i, j | 0 <= i < j < |p|
      ensures p[i] != p[j]
    {
      if j < |p| - 1 { assert p[..|p| - 1][i] != p[..|p| - 1][j]; }
      else { assert p[i] in p[..|p| - 1]; }
    }
  }

  lemma DescendBelow(links: Links, n: nat, p: seq<nat>)
    requires NoneBelow(links, n, p) && p != [] && p[0] == 0
    ensures NoneBelow(links, n, p + [1])
  {
    var q := p + [1];
    forall r, k | Route(links, n, r) && 0 <= k < |q| && k < |r| && r[..k] == q[..k]
      ensures r[k] >= q[k]
    {
      assert k < |p| ==> q[..k] == p[..k];
      if k == |p| { assert r[0] != r[k]; }
    }
  }

  lemma {:induction false} Pigeonhole(r: seq<nat>, n: nat)
    requires Distinct(r) && forall i :: 0 <= i < |r| ==> r[i] < n
    ensures |r| <= n
  {
    MembersSize(r);
    SubsetSize(Members(r), UpTo(n));
  }

  ghost function {:induction false} UpTo(n: nat): (s: set<nat>)
    ensures |s| == n && forall i: nat :: i in s <==> i < n
  {
    if n == 0 then {} else UpTo(n - 1) + {n - 1}
  }

  /** No route runs through p's walk once its last position is exhausted, or the path is full. */
  lemma NoRouteThrough(links: Links, n: nat, p: seq<nat>, r: seq<nat>)
    requires Considering(links, n, p) && NoneBelow(links, n, p) && Route(links, n, r)
    requires p[|p| - 1] == n || (|p| == n && p[|p| - 1] > 1)
    ensures |r| >= |p| - 1 ==> r[..|p| - 1] != p[..|p| - 1]
  {
    var last := |p| - 1;
    if |r| >= last && r[..last] == p[..last] {
      assert r[last - 1] == r[..last][last - 1] == p[last - 1];
      assert |r| > last;
      assert r[last] >= p[last];
      Pigeonhole(r, n);
      assert false;
    }
  }

  lemma BacktrackLosesNothing(links: Links, n: nat, p: seq<nat>)
    requires Considering(links, n, p) && NoneBelow(links, n, p) && |p| > 2
    requires p[|p| - 1] == n || (|p| == n && p[|p| - 1] > 1)
    ensures Considering(links, n, Bump(p[..|p| - 1])) && NoneBelow(links, n, Bump(p[..|p| - 1]))
  {
    var last := |p| - 2;
    var q := Bump(p[..|p| - 1]);
    assert q[..last] == p[..last] == p[..|p| - 1][..last];
    assert p[0] == p[..|p| - 1][0] && p[last] == p[..|p| - 1][last];
    forall r, k | Route(links, n, r) && 0 <= k < |q| && k < |r| && r[..k] == q[..k]
      ensures r[k] >= q[k]
    {
      assert q[..k] == p[..k];
      assert r[k] >= p[k];
      if k == last && r[last] == p[last] {
        assert r[..last + 1] == r[..last] + [r[last]] == p[..last] + [p[last]] == p[..last + 1];
        NoRouteThrough(links, n, p, r);
        assert false;
      }
    }
  }

  lemma ExhaustedMeansNoRoute(links: Links, n: nat, p: seq<nat>)
    requires Considering(links, n, p) && NoneBelow(links, n, p) && |p| == 2 && n >= 3
    requires p[|p| - 1] == n || (|p| == n && p[|p| - 1] > 1)
    ensures !HasRoute(links, n)
  {
    forall r | Route(links, n, r)
      ensures false
    {
      assert r[..1] == p[..1];
      NoRouteThrough(links, n, p, r);
    }
  }

  // ----- termination measure

  /** Weight of position i of the path. */
  ghost function Weight(n: nat, i: nat): (w: nat)
    requires i <= n
    ensures w > 0
    decreases n - i
  {
    if i == n then 1 else (n + 2) * Weight(n, i + 1)
  }

  function Times(a: nat, b: nat): nat { a * b }

  /** Work left: what position i and the later ones can still go through. */
  ghost function WorkLeft(p: seq<nat>, n: nat, i: nat): (work: nat)
    requires p != [] && i + |p| <= n && forall k :: 0 <= k < |p| ==> p[k] <= n
    decreases |p|
  {
    if |p| == 1 then Times(n + 1 - p[0], Weight(n, i))
    else Times(n - p[0], Weight(n, i)) + WorkLeft(p[1..], n, i + 1)
  }

  lemma {:induction false} BumpLeavesLess(p: seq<nat>, n: nat, i: nat)
    requires p != [] && i + |p| <= n && (forall k :: 0 <= k < |p| ==> p[k] <= n) && p[|p| - 1] < n
    ensures WorkLeft(Bump(p), n, i) < WorkLeft(p, n, i)
    decreases |p|
  {
    var q := Bump(p);
    if |p| == 1 {
      MulLess(n + 1 - q[0], n + 1 - p[0], Weight(n, i));
    } else {
      assert q[1..] == Bump(p[1..]);
      BumpLeavesLess(p[1..], n, i + 1);
    }
  }

  lemma MulLess(a: int, b: int, w: nat)
    requires a < b && w > 0
    ensures a * w < b * w
  {
  }

  lemma {:induction false} DescendLeavesLess(p: seq<nat>, n: nat, i: nat)
    requires p != [] && i + |p| < n && (forall k :: 0 <= k < |p| ==> p[k] <= n)
    ensures WorkLeft(p + [1], n, i) < WorkLeft(p, n, i)
    decreases |p|
  {
    var q := p + [1];
    if |p| == 1 {
      assert q[1..] == [1];
      var w := Weight(n, i + 1);
      assert WorkLeft(q, n, i) == (n - p[0]) * Weight(n, i) + n * w;
      assert Weight(n, i) == (n + 2) * w;
      assert (n + 1 - p[0]) * Weight(n, i) == (n - p[0]) * Weight(n, i) + Weight(n, i);
      MulLess(n, n + 2, w);
    } else {
      assert q[1..] == p[1..] + [1];
      DescendLeavesLess(p[1..], n, i + 1);
    }
  }

  lemma {:induction false} BacktrackLeavesLess(p: seq<nat>, n: nat, i: nat)
    requires |p| >= 2 && i + |p| <= n && (forall k :: 0 <= k < |p| ==> p[k] <= n) && p[|p| - 2] < n
    ensures WorkLeft(Bump(p[..|p| - 1]), n, i) < WorkLeft(p, n, i)
    decreases |p|
  {
    var q := Bump(p[..|p| - 1]);
    if |p| == 2 {
      assert q == [p[0] + 1];
      assert p[1..] == [p[1]];
      assert WorkLeft(q, n, i) == (n - p[0]) * Weight(n, i);
      MulLess(0, n + 1 - p[1], Weight(n, i + 1));
    } else {
      assert q[1..] == Bump(p[1..][..|p| - 2]);
      BacktrackLeavesLess(p[1..], n, i + 1);
    }
  }

  // ----- from connectivity to a simple route

  ghost predicate LinkWalk(links: Links, n: nat, r: seq<nat>) {
    r != [] && r[0] == 0 && (forall i :: 0 <= i < |r| ==> r[i] < n)
    && (forall i :: 0 <= i < |r| - 1 ==> (r[i], r[i + 1]) in links)
  }

  /** Any walk from 0 to 1 can be shortened to a simple route. */
  lemma {:induction false} WalkGivesRoute(links: Links, n: nat, w: seq<nat>) returns (r: seq<nat>)
    requires LinkWalk(links, n, w) && w[|w| - 1] == 1
    ensures Route(links, n, r)
    decreases |w|
  {
    if Distinct(w) {
      r := w;
    } else {
      var i, j :| 0 <= i < j < |w| && w[i] == w[j];
      var v := w[..i] + w[j..];
      forall k | 0 <= k < |v| - 1
        ensures (v[k], v[k + 1]) in links
      {
        if k < i { assert (w[k], w[k + 1]) in links; }
        else { assert (w[k + j - i], w[k + j - i + 1]) in links; }
      }
      r := WalkGivesRoute(links, n, v);
    }
  }
}
