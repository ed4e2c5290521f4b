/** Trees given by parent indexes: node k > 0 hangs below an earlier node par[k].
    Any two nodes are joined by exactly one simple path. */
module TreePaths {
  import opened Common

  ghost predicate IsTree(par: seq<nat>) {
    forall k :: 1 <= k < |par| ==> par[k] < k
  }

  ghost predicate TreeAdjacent(par: seq<nat>, i: nat, j: nat) {
    i < |par| && j < |par| && ((1 <= j && par[j] == i) || (1 <= i && par[i] == j))
  }

  ghost predicate SimplePath(par: seq<nat>, p: seq<nat>) {
    p != [] && p[0] < |par| && Distinct(p)
    && forall i :: 0 <= i < |p| - 1 ==> TreeAdjacent(par, p[i], p[i + 1])
  }

  /** The last node is a leaf, so a simple path meets it only at an end. */
  lemma LeafIsEnd(par: seq<nat>, p: seq<nat>, i: nat)
    requires par != [] && IsTree(par) && SimplePath(par, p)
    requires i < |p| && p[i] == |par| - 1
    ensures i == 0 || i == |p| - 1
    ensures i == 0 && 1 < |p| ==> p[1] == par[p[0]]
    ensures 0 < i ==> p[i - 1] == par[p[i]]
  {
    if 0 < i { assert TreeAdjacent(par, p[i - 1], p[i - 1 + 1]); }
    if i < |p| - 1 { assert TreeAdjacent(par, p[i], p[i + 1]); }
  }

  lemma WithoutLeaf(par: seq<nat>, p: seq<nat>)
    requires par != [] && IsTree(par) && SimplePath(par, p) && |par| - 1 !in p
    ensures SimplePath(par[..|par| - 1], p)
  {
    var n := |par| - 1;
    forall i | 0 <= i < |p| - 1
      ensures TreeAdjacent(par[..n], p[i], p[i + 1])
    {
      assert TreeAdjacent(par, p[i], p[i + 1]) && p[i] != n && p[i + 1] != n;
    }
    assert p[0] in p;
  }

  lemma {:induction false} SimplePathUnique(par: seq<nat>, p: seq<nat>, q: seq<nat>)
    requires IsTree(par) && SimplePath(par, p) && SimplePath(par, q)
    requires p[0] == q[0] && p[|p| - 1] == q[|q| - 1]
    ensures p == q
    decreases |par|, |p|
  {
    var n := |par| - 1;
    if n in p { var i :| 0 <= i < |p| && p[i] == n; LeafIsEnd(par, p, i); }
    if n in q { var i :| 0 <= i < |q| && q[i] == n; LeafIsEnd(par, q, i); }
    if p[0] == n {
      if |p| > 1 {
        LeafIsEnd(par, p, 0);
        assert |q| > 1;
        LeafIsEnd(par, q, 0);
        TailsAgree(par, p, q);
      }
    } else if p[|p| - 1] == n {
      LeafIsEnd(par, p, |p| - 1);
      LeafIsEnd(par, q, |q| - 1);
      var p', q' := p[..|p| - 1], q[..|q| - 1];
      InitPath(par, p);
      InitPath(par, q);
      SimplePathUnique(par, p', q');
      assert p == p' + [n] && q == q' + [n];
    } else {
      assert n !in p && n !in q;
      WithoutLeaf(par, p);
      WithoutLeaf(par, q);
      SimplePathUnique(par[..n], p, q);
    }
  }

  lemma InitPath(par: seq<nat>, p: seq<nat>)
    requires SimplePath(par, p) && |p| > 1
    ensures SimplePath(par, p[..|p| - 1])
  {
    var q := p[..|p| - 1];
    forall i | 0 <= i < |q| - 1
      ensures TreeAdjacent(par, q[i], q[i + 1])
    {
      assert TreeAdjacent(par, p[i], p[i + 1]);
    }
  }

  lemma {:induction false} TailsAgree(par: seq<nat>, p: seq<nat>, q: seq<nat>)
    requires IsTree(par) && SimplePath(par, p) && SimplePath(par, q) && |p| > 1 && |q| > 1
    requires p[0] == q[0] == |par| - 1 && p[1] == q[1] && p[|p| - 1] == q[|q| - 1]
    ensures p == q
    decreases |par|, |p|, 0
  {
    var p', q' := p[1..], q[1..];
    forall i | 0 <= i < |p'| - 1
      ensures TreeAdjacent(par, p'[i], p'[i + 1])
    {
      assert TreeAdjacent(par, p[i + 1], p[i + 1 + 1]);
    }
    forall i | 0 <= i < |q'| - 1
      ensures TreeAdjacent(par, q'[i], q'[i + 1])
    {
      assert TreeAdjacent(par, q[i + 1], q[i + 1 + 1]);
    }
    assert TreeAdjacent(par, p[0], p[0 + 1]);
    SimplePathUnique(par, p', q');
    assert p == [p[0]] + p' && q == [q[0]] + q';
  }

  lemma {:induction false} SimplePathExists(par: seq<nat>, u: nat, v: nat) returns (p: seq<nat>)
    requires IsTree(par) && u < |par| && v < |par|
    ensures SimplePath(par, p) && p[0] == u && p[|p| - 1] == v
    ensures forall x :: x in p ==> x <= u || x <= v
    decreases u + v
  {
    if u == v {
      p := [u];
    } else if u > v {
      var q := SimplePathExists(par, par[u], v);
      p := [u] + q;
      Extend(par, p, q);
    } else {
      var q := SimplePathExists(par, u, par[v]);
      p := q + [v];
      Extend(par, p, q);
    }
  }

  lemma Extend(par: seq<nat>, p: seq<nat>, q: seq<nat>)
    requires SimplePath(par, q)
    requires (exists u :: p == [u] + q && u !in q && TreeAdjacent(par, u, q[0]))
          || (exists v :: p == q + [v] && v !in q && TreeAdjacent(par, q[|q| - 1], v))
    ensures SimplePath(par, p)
  {
    if u :| p == [u] + q && u !in q && TreeAdjacent(par, u, q[0]) {
      forall i | 0 <= i < |p| - 1
        ensures TreeAdjacent(par, p[i], p[i + 1])
      {
        if 0 < i { assert TreeAdjacent(par, q[i - 1], q[i - 1 + 1]); }
      }
    } else {
      var v :| p == q + [v] && v !in q && TreeAdjacent(par, q[|q| - 1], v);
      forall i | 0 <= i < |p| - 1
        ensures TreeAdjacent(par, p[i], p[i + 1])
      {
        if i < |q| - 1 { assert TreeAdjacent(par, q[i], q[i + 1]); }
      }
    }
  }
}
