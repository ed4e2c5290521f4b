/** The retired list of one thread in defer/hazptr.c, and what a scan does to it while no hazard
    pointer changes.  qsort and bsearch are membership tests.
 */
module HazptrScan {
  import opened Common
  import HazardPointers

  const K: nat := 2
  const NR_THREADS: nat := 512
  const H: nat := K * NR_THREADS
  const R: nat := 100 + 2 * H

  /** The addresses the hazard slots protect. */
  ghost function Hazards(hp: seq<nat>): set<nat> { set i | 0 <= i < |hp| && hp[i] != 0 :: HazardPointers.Clean(hp[i]) }

  /** What a scan leaves of a list: popping from the front and pushing back reverses it. */
  function Kept(list: seq<nat>, hazards: set<nat>): seq<nat> {
    if list == [] then [] else Kept(list[1..], hazards) + if list[0] in hazards then [list[0]] else []
  }

  /** What it frees, in order. */
  function Dropped(list: seq<nat>, hazards: set<nat>): seq<nat> {
    if list == [] then [] else (if list[0] in hazards then [] else [list[0]]) + Dropped(list[1..], hazards)
  }

  /** A scan frees exactly the unprotected nodes and loses none. */
  lemma {:induction false} ScanPartitions(list: seq<nat>, hazards: set<nat>)
    ensures multiset(Kept(list, hazards)) + multiset(Dropped(list, hazards)) == multiset(list)
    ensures forall n :: n in Kept(list, hazards) ==> n in hazards
    ensures forall n :: n in Dropped(list, hazards) ==> n !in hazards
  {
    if list != [] {
      ScanPartitions(list[1..], hazards);
      assert list == [list[0]] + list[1..];
    }
  }

  lemma {:induction false} DistinctOnce(a: seq<nat>)
    requires forall n :: multiset(a)[n] <= 1
    ensures Distinct(a)
  {
    if a != [] {
      assert a == [a[0]] + a[1..];
      forall n ensures multiset(a[1..])[n] <= 1 { assert multiset(a)[n] <= 1; }
      DistinctOnce(a[1..]);
      assert multiset(a)[a[0]] <= 1;
      assert a[0] !in a[1..];
    }
  }

  lemma {:induction false} OnceDistinct(a: seq<nat>, n: nat)
    requires Distinct(a)
    ensures multiset(a)[n] <= 1
  {
    if a != [] {
      assert a == [a[0]] + a[1..];
      OnceDistinct(a[1..], n);
      assert a[0] !in a[1..];
    }
  }

  lemma {:induction false} HazardsFit(hp: seq<nat>)
    ensures |Hazards(hp)| <= |hp|
  {
    if hp == [] {
      assert Hazards(hp) == {};
    } else {
      var init, last := hp[..|hp| - 1], hp[|hp| - 1];
      HazardsFit(init);
      assert Hazards(hp) == Hazards(init) + if last != 0 then {HazardPointers.Clean(last)} else {};
    }
  }

  /** Distinct nodes: at most as many survive as there are slots, and they stay distinct. */
  lemma SurvivorsFit(list: seq<nat>, hp: seq<nat>)
    requires Distinct(list)
    ensures Distinct(Kept(list, Hazards(hp))) && |Kept(list, Hazards(hp))| <= |hp|
    ensures |Dropped(list, Hazards(hp))| + |Kept(list, Hazards(hp))| == |list|
  {
    var kept, dropped := Kept(list, Hazards(hp)), Dropped(list, Hazards(hp));
    ScanPartitions(list, Hazards(hp));
    assert |multiset(kept) + multiset(dropped)| == |kept| + |dropped|;
    forall n ensures multiset(kept)[n] <= 1 {
      OnceDistinct(list, n);
      assert (multiset(kept) + multiset(dropped))[n] == multiset(list)[n];
    }
    DistinctOnce(kept);
    MembersSize(kept);
    HazardsFit(hp);
    assert Hazards(hp) == Members(kept) + (Hazards(hp) - Members(kept));
  }

  lemma NothingLeft(hazards: set<nat>)
    ensures Kept([], hazards) == [] == Dropped([], hazards)
  {
  }

  lemma ScanNext(list: seq<nat>, hazards: set<nat>)
    requires list != []
    ensures Kept(list, hazards) == Kept(list[1..], hazards) + if list[0] in hazards then [list[0]] else []
    ensures Dropped(list, hazards) == (if list[0] in hazards then [] else [list[0]]) + Dropped(list[1..], hazards)
  {
  }

  class HazptrThread {
    const hp: array<nat>
    var rlist: seq<nat>
    var rcount: nat

    ghost predicate Valid()
      reads this
    {
      hp.Length == H && rcount == |rlist| < R && Distinct(rlist)
    }

    constructor (hp: array<nat>)
      requires hp.Length == H
      ensures Valid() && rlist == [] && this.hp == hp
    {
      this.hp := hp;
      rlist := [];
      rcount := 0;
    }

    /** hazptr_scan. */
    method Scan() returns (freed: seq<nat>)
      requires hp.Length == H
      modifies this
      ensures rlist == Kept(old(rlist), Hazards(hp[..])) && rcount == |rlist|
      ensures freed == Dropped(old(rlist), Hazards(hp[..]))
    {
      hide Kept, Dropped, Hazards;
      var plist := CollectHazards();
      var tmplist := rlist;
      rlist := [];
      rcount := 0;
      freed := [];
      ghost var hazards := Hazards(hp[..]);
      NothingLeft(hazards);
      while tmplist != []
        invariant hazards == Hazards(hp[..]) && rcount == |rlist|
        invariant Kept(old(rlist), hazards) == Kept(tmplist, hazards) + rlist
        invariant Dropped(old(rlist), hazards) == freed + Dropped(tmplist, hazards)
        decreases |tmplist|
      {
        ScanNext(tmplist, hazards);
        var cur := tmplist[0];
        tmplist := tmplist[1..];
        if cur in plist {
          rlist := [cur] + rlist;
          rcount := rcount + 1;
        } else {
          freed := freed + [cur];
        }
      }
    }

    /** Stage 1 of hazptr_scan. */
    method CollectHazards() returns (plist: seq<nat>)
      requires hp.Length == H
      ensures |plist| <= H && forall n :: n in plist <==> n in Hazards(hp[..])
    {
      plist := [];
      for i := 0 to H
        invariant |plist| <= i && forall n :: n in plist <==> n in Hazards(hp[..i])
      {
        ghost var was := plist;
        assert hp[..i + 1] == hp[..i] + [hp[i]];
        assert Hazards(hp[..i + 1]) == Hazards(hp[..i]) + if hp[i] != 0 then {HazardPointers.Clean(hp[i])} else {};
        if hp[i] != 0 {
          plist := plist + [HazardPointers.Clean(hp[i])];
        }
      }
      assert hp[..H] == hp[..];
    }

    /** hazptr_free_later: at the threshold, a scan frees at least R - H nodes, so the list
        never stays at the threshold. */
    method FreeLater(n: nat) returns (freed: seq<nat>)
      requires Valid() && n !in rlist
      modifies this
      ensures Valid()
      ensures old(|rlist|) + 1 < R ==> rlist == [n] + old(rlist) && freed == []
      ensures old(|rlist|) + 1 >= R ==>
        rlist == Kept([n] + old(rlist), Hazards(hp[..])) && freed == Dropped([n] + old(rlist), Hazards(hp[..]))
        && |freed| >= R - H
    {
      rlist := [n] + rlist;
      rcount := rcount + 1;
      freed := [];
      if rcount >= R {
        SurvivorsFit(rlist, hp[..]);
        freed := Scan();
      }
    }

    /** The first part of hazptr_thread_exit: thread tid stops protecting anything. */
    method ClearSlots(tid: nat)
      requires hp.Length == H && tid < NR_THREADS
      modifies hp
      ensures forall i :: 0 <= i < H ==> hp[i] == if K * tid <= i < K * tid + K then 0 else old(hp[i])
    {
      for i := 0 to K
        invariant forall j :: 0 <= j < H ==> hp[j] == if K * tid <= j < K * tid + i then 0 else old(hp[j])
      {
        hp[K * tid + i] := 0;
      }
    }
  }
}
