/** Traversals of one bucket of the resizable hash table, pointer read by pointer read: the
    machine of HashResize, and beside it the RCU list of RcuList that holds bucket b of table
    tbl.  Every step of the table is at most one list operation on that bucket.
 */
module BucketTraversal {
  import opened Common
  import H = HashResize
  import L = RcuList

  /** nodes[e] is the table's element that the list knows as number e. */
  datatype State = State(h: H.State, list: L.State, nodes: seq<H.Node>)

  /** A step of the table, or reader t's next pointer read in bucket b of table tbl. */
  datatype Event = Table(e: H.Event) | Read(t: nat)

  ghost function Bucket(h: H.State, tbl: nat, b: nat): seq<H.Node> {
    if tbl < |h.tables| && b < |h.tables[tbl].bkt| then h.tables[tbl].bkt[b] else []
  }

  function Dropped<T>(s: seq<T>, p: nat): seq<T>
    requires p < |s|
  {
    s[..p] + s[p + 1..]
  }

  ghost predicate Added(s: State, n: H.Node, s': State) {
    L.AddStep(s.list, s'.list) && s'.nodes == s.nodes + [n]
  }

  ghost predicate Deleted(s: State, n: H.Node, s': State) {
    s'.nodes == s.nodes
      && exists e: nat :: e in s.list.live && e < |s.nodes| && s.nodes[e] == n && L.DelStep(s.list, e, s'.list)
  }

  /** The list follows what a step of the table did to the bucket. */
  ghost predicate Follows(s: State, was: seq<H.Node>, now: seq<H.Node>, s': State) {
    || (now == was && s'.list == s.list && s'.nodes == s.nodes)
    || (now != [] && now[1..] == was && Added(s, now[0], s'))
    || exists p: nat :: p < |was| && now == Dropped(was, p) && Deleted(s, was[p], s')
  }

  /** A critical section does not end in the middle of a traversal. */
  ghost predicate MayStep(s: State, e: H.Event) {
    e.Thread? && e.t < |s.h.pcs| && s.h.pcs[e.t].Reading? ==> e.t < |s.list.readers| && s.list.readers[e.t].Outside?
  }

  ghost predicate Step(s: State, e: Event, s': State, tbl: nat, b: nat) {
    match e
    case Table(x) =>
      H.Step(s.h, x, s'.h) && MayStep(s, x) && Follows(s, Bucket(s.h, tbl, b), Bucket(s'.h, tbl, b), s')
    case Read(t) =>
      t < |s.h.pcs| && s.h.pcs[t].Reading? && s.h.pcs[t].tbl == tbl && L.ReadStep(s.list, t, s'.list) && s'.h == s.h
        && s'.nodes == s.nodes
  }

  ghost predicate IsRun(run: seq<State>, events: seq<Event>, tbl: nat, b: nat) {
    |run| == |events| + 1 && H.Init(run[0].h) && L.Init(run[0].list) && run[0].nodes == []
    && |run[0].list.readers| == |run[0].h.pcs|
    && forall i :: 0 <= i < |events| ==> Step(run[i], events[i], run[i + 1], tbl, b)
  }

  // ----- what a step of the table does to a bucket

  ghost predicate SecondRetired(h: H.State) {
    forall t :: 0 <= t < |h.pcs| && h.pcs[t].Second? && h.pcs[t].w.Deleting? ==> h.pcs[t].w.n in h.retired
  }

  ghost predicate TableInv(h: H.State) { H.Inv(h) && SecondRetired(h) }

  /** Unchanged, one element more at the head, or one fewer, which has then been retired. */
  ghost predicate OneOperation(was: seq<H.Node>, now: seq<H.Node>, retired: set<H.Node>) {
    || now == was
    || (now != [] && now[1..] == was)
    || (H.Unique(was) && exists p: nat :: p < |was| && now == Dropped(was, p) && was[p] in retired)
  }

  lemma {:induction false} RemoveDrops(list: seq<H.Node>, n: H.Node)
    requires n in list
    ensures exists p: nat :: p < |list| && list[p] == n && H.Remove(list, n) == Dropped(list, p)
  {
    if list[0] == n {
      assert H.Remove(list, n) == Dropped(list, 0);
    } else {
      var rest := list[1..];
      RemoveDrops(rest, n);
      var p: nat :| p < |rest| && rest[p] == n && H.Remove(rest, n) == Dropped(rest, p);
      DropFront(list, p);
    }
  }

  lemma DropFront(list: seq<H.Node>, p: nat)
    requires p + 1 < |list|
    ensures [list[0]] + Dropped(list[1..], p) == Dropped(list, p + 1)
  {
  }

  lemma WorkOnBucket(t: H.Table, w: H.Work, b: nat, retired: set<H.Node>)
    requires H.Placed(t) && H.Lookup(t, w.n.key) == H.Before(w) && b < |t.bkt|
    requires w.Deleting? ==> w.n in retired
    ensures |H.DoWork(t, w).bkt| == |t.bkt| && OneOperation(t.bkt[b], H.DoWork(t, w).bkt[b], retired)
  {
    H.WorkBuckets(t, w);
    if b == H.BucketOf(t, w.n.key) {
      if w.Adding? {
        assert H.DoWork(t, w).bkt[b] == [w.n] + t.bkt[b];
      } else {
        H.FindMeaning(t.bkt[b], w.n.key);
        RemoveDrops(t.bkt[b], w.n);
      }
    }
  }

  lemma AddOnBucket(t: H.Table, n: H.Node, b: nat)
    requires |t.bkt| > 0
    ensures |H.AddTo(t, n).bkt| == |t.bkt|
    ensures b < |t.bkt| ==> var (was, now) := (t.bkt[b], H.AddTo(t, n).bkt[b]);
      now == was || (now != [] && now[1..] == was)
  {
    var c := H.BucketOf(t, n.key);
    assert H.AddTo(t, n).bkt[c][1..] == t.bkt[c];
  }

  lemma WorksOnBucket(h: H.State, t: nat, h': H.State, at: nat, w: H.Work, tbl: nat, b: nat)
    requires H.Inv(h) && H.Works(h, t, h', at, w) && (w.Deleting? ==> w.n in h'.retired)
    ensures OneOperation(Bucket(h, tbl, b), Bucket(h', tbl, b), h'.retired)
  {
    H.WorkBuckets(h.tables[at], w);
    if tbl == at && b < |h.tables[at].bkt| { WorkOnBucket(h.tables[at], w, b, h'.retired); }
  }

  lemma ThreadOnBucket(h: H.State, t: nat, h': H.State, tbl: nat, b: nat)
    requires TableInv(h) && H.Step(h, H.Thread(t), h')
    ensures OneOperation(Bucket(h, tbl, b), Bucket(h', tbl, b), h'.retired)
  {
    hide H.Inv, H.Works, H.LockStep, H.OtherStep, Bucket, OneOperation;
    if H.LockStep(h, t, h') || H.OtherStep(h, t, h') {
      SameTables(h, t, h', tbl, b);
    } else if H.SecondStep(h, t, h') {
      H.SecondWorks(h, t, h');
      WorksOnBucket(h, t, h', h.base + 1, h.pcs[t].w, tbl, b);
    } else if h' != H.Goto(h, t, H.Done(h.pcs[t].k, h.pcs[t].tbl, h.pcs[t].two)) {
      var w: H.Work :| H.Chosen(h, h.pcs[t].k, w) && h' == H.Applied(h, t, w);
      H.FirstWorks(h, t, w);
      WorksOnBucket(h, t, h', h.pcs[t].tbl, w, tbl, b);
    } else {
      assert OneOperation(Bucket(h, tbl, b), Bucket(h', tbl, b), h'.retired) by { Unchanged(h, h', tbl, b); }
    }
  }

  lemma Unchanged(h: H.State, h': H.State, tbl: nat, b: nat)
    requires h'.tables == h.tables
    ensures OneOperation(Bucket(h, tbl, b), Bucket(h', tbl, b), h'.retired)
  {
  }

  lemma SameTables(h: H.State, t: nat, h': H.State, tbl: nat, b: nat)
    requires H.Sane(h) && t < |h.pcs| && (H.LockStep(h, t, h') || H.OtherStep(h, t, h'))
    ensures OneOperation(Bucket(h, tbl, b), Bucket(h', tbl, b), h'.retired)
  {
  }

  lemma ThreadShape(h: H.State, t: nat, h': H.State)
    requires SecondRetired(h) && H.Step(h, H.Thread(t), h')
    ensures |h'.pcs| == |h.pcs| && h.retired <= h'.retired && SecondRetired(h')
  {
    hide H.Lookup, H.BucketOf, H.DoWork, H.Free, H.Placed, H.FirstStep, H.Chosen, H.Applied;
    if H.FirstStep(h, t, h') { FirstShape(h, t, h'); }
  }

  lemma FirstShape(h: H.State, t: nat, h': H.State)
    requires SecondRetired(h) && H.Sane(h) && t < |h.pcs| && H.FirstStep(h, t, h')
    ensures |h'.pcs| == |h.pcs| && h.retired <= h'.retired && SecondRetired(h')
  {
    hide H.Lookup, H.BucketOf, H.DoWork, H.Placed, H.Chosen;
  }

  lemma ResizeOnBucket(h: H.State, h': H.State, tbl: nat, b: nat)
    requires H.Inv(h) && H.ResizeStep(h, h')
    ensures OneOperation(Bucket(h, tbl, b), Bucket(h', tbl, b), h'.retired)
    ensures h'.pcs == h.pcs && h'.retired == h.retired && (SecondRetired(h) ==> SecondRetired(h'))
  {
    hide H.BucketOf, H.OldOk, H.NewOk, H.LocksOk, H.MidOk, H.ReaderOk, H.PcOk, H.ProgressOk, H.MapOk;
    if h.rs.Copy? && h.rs.j < |h.tables[h.base].bkt[h.rs.i]| {
      var n := h.tables[h.base].bkt[h.rs.i][h.rs.j];
      AddOnBucket(h.tables[h.base + 1], n, b);
    }
  }

  lemma StepOnBucket(h: H.State, e: H.Event, h': H.State, tbl: nat, b: nat)
    requires TableInv(h) && H.Step(h, e, h')
    ensures TableInv(h') && |h'.pcs| == |h.pcs| && h.retired <= h'.retired
    ensures OneOperation(Bucket(h, tbl, b), Bucket(h', tbl, b), h'.retired)
  {
    hide H.Inv, H.LockStep, H.OtherStep, H.FirstStep, H.SecondStep, H.ResizeStep, Bucket, OneOperation, SecondRetired;
    H.StepKeepsInv(h, e, h');
    match e {
      case Thread(t) =>
        ThreadOnBucket(h, t, h', tbl, b);
        ThreadShape(h, t, h');
      case Resize => ResizeOnBucket(h, h', tbl, b);
    }
  }

  // ----- the pointers spell the bucket

  function ItemAt(ids: seq<nat>, i: nat): Option<nat> { if i < |ids| then Some(ids[i]) else None }

  /** From the head on, the pointers lead through exactly the listed elements, latest first. */
  ghost predicate Linked(list: L.State, ids: seq<nat>) {
    (forall e: nat :: e in ids <==> e in list.live)
    && (forall i, j :: 0 <= i < j < |ids| ==> ids[j] < ids[i])
    && list.head == ItemAt(ids, 0) && forall i :: 0 <= i < |ids| ==> L.NextOf(list.next, ids[i]) == ItemAt(ids, i + 1)
  }

  /** The names of the elements ids spell the bucket. */
  ghost predicate Named(nodes: seq<H.Node>, ids: seq<nat>, bucket: seq<H.Node>) {
    |ids| == |bucket| && forall i :: 0 <= i < |ids| ==> ids[i] < |nodes| && nodes[ids[i]] == bucket[i]
  }

  ghost predicate Spells(s: State, ids: seq<nat>, bucket: seq<H.Node>) {
    Linked(s.list, ids) && Named(s.nodes, ids, bucket)
  }

  ghost predicate Spelled(s: State, bucket: seq<H.Node>) { exists ids: seq<nat> :: Spells(s, ids, bucket) }

  /** Readers traverse inside their sections; what has left the list has been retired. */
  ghost predicate Coupled(s: State, tbl: nat) {
    |s.nodes| == s.list.born && |s.list.readers| == |s.h.pcs|
    && GoneRetired(s, s.h.retired)
    && forall t :: 0 <= t < |s.h.pcs| && !s.list.readers[t].Outside? ==> s.h.pcs[t].Reading? && s.h.pcs[t].tbl == tbl
  }

  ghost predicate Inv(s: State, tbl: nat, b: nat) {
    TableInv(s.h) && L.Inv(s.list) && Coupled(s, tbl) && Spelled(s, Bucket(s.h, tbl, b))
  }

  lemma AddSpells(s: State, ids: seq<nat>, bucket: seq<H.Node>, n: H.Node, s': State)
    requires Spells(s, ids, bucket) && Added(s, n, s') && |s.nodes| == s.list.born
    ensures Spells(s', [s.list.born] + ids, [n] + bucket)
  {
    var ids' := [s.list.born] + ids;
    assert forall i :: 1 <= i < |ids'| ==> ids'[i] == ids[i - 1];
    assert ItemAt(ids', 1) == ItemAt(ids, 0);
    forall e: nat ensures e in ids' <==> e in s'.list.live { assert e in ids <==> e in s.list.live; }
  }

  /** In a bucket without duplicate keys the deleted element is the one the list drops. */
  lemma SamePlace(s: State, ids: seq<nat>, bucket: seq<H.Node>, p: nat, e: nat)
    requires Spells(s, ids, bucket) && H.Unique(bucket) && p < |bucket|
    requires e in s.list.live && e < |s.nodes| && s.nodes[e] == bucket[p]
    ensures ids[p] == e
  {
    assert e in ids;
    var q :| 0 <= q < |ids| && ids[q] == e;
    assert bucket[q] == bucket[p];
  }

  lemma DropMembers(ids: seq<nat>, p: nat)
    requires p < |ids| && forall i, j :: 0 <= i < j < |ids| ==> ids[j] < ids[i]
    ensures forall x :: x in Dropped(ids, p) <==> x in ids && x != ids[p]
  {
    var ids' := Dropped(ids, p);
    forall x | x in ids && x != ids[p]
      ensures x in ids'
    {
      var q :| 0 <= q < |ids| && ids[q] == x;
      assert ids'[if q < p then q else q - 1] == x;
    }
  }

  lemma DroppedAt(ids: seq<nat>, p: nat)
    requires p < |ids|
    ensures |Dropped(ids, p)| == |ids| - 1
    ensures forall i :: 0 <= i < |ids| - 1 ==> Dropped(ids, p)[i] == ids[if i < p then i else i + 1]
    ensures forall i :: 0 <= i < |ids| ==> ItemAt(Dropped(ids, p), i) == ItemAt(ids, if i < p then i else i + 1)
  {
  }

  /** The listed element that points to ids[p] is the one before it. */
  lemma Predecessor(list: L.State, ids: seq<nat>, p: nat, prev: nat)
    requires Linked(list, ids) && p < |ids| && prev in list.live && L.NextOf(list.next, prev) == Some(ids[p])
    ensures p > 0 && ids[p - 1] == prev
  {
    assert prev in ids;
    var q :| 0 <= q < |ids| && ids[q] == prev;
    assert ItemAt(ids, q + 1) == Some(ids[p]);
  }

  /** Whichever pointer led to the dropped element now leads past it. */
  lemma DropLinks(list: L.State, ids: seq<nat>, p: nat, list': L.State)
    requires Linked(list, ids) && p < |ids| && L.DelStep(list, ids[p], list')
    ensures list'.head == if p == 0 then ItemAt(ids, 1) else list.head
    ensures forall i :: 0 <= i < |ids| && i != p ==>
      L.NextOf(list'.next, ids[i]) == ItemAt(ids, if i + 1 == p then i + 2 else i + 1)
  {
    hide L.NextOf;
    if list.head == Some(ids[p]) {
      assert p == 0;
    } else {
      var prev: nat :| prev in list.live && L.NextOf(list.next, prev) == Some(ids[p])
        && list'.next == list.next[prev := L.NextOf(list.next, ids[p])];
      Predecessor(list, ids, p, prev);
      NextAfter(list.next, prev, L.NextOf(list.next, ids[p]));
    }
  }

  lemma NextAfter(next: map<nat, Option<nat>>, prev: nat, to: Option<nat>)
    ensures forall n: nat :: L.NextOf(next[prev := to], n) == if n == prev then to else L.NextOf(next, n)
  {
    var m := next[prev := to];
    forall n: nat
      ensures L.NextOf(m, n) == if n == prev then to else L.NextOf(next, n)
    {
      assert n in m <==> n == prev || n in next;
    }
  }

  lemma DropLinked(list: L.State, ids: seq<nat>, p: nat, list': L.State)
    requires Linked(list, ids) && p < |ids| && L.DelStep(list, ids[p], list')
    ensures Linked(list', Dropped(ids, p))
  {
    hide Dropped, ItemAt, L.NextOf;
    DropMembers(ids, p);
    DroppedAt(ids, p);
    DropLinks(list, ids, p, list');
    var ids' := Dropped(ids, p);
    forall i | 0 <= i < |ids'|
      ensures L.NextOf(list'.next, ids'[i]) == ItemAt(ids', i + 1)
    {
      assert ids'[i] == ids[if i < p then i else i + 1];
    }
  }

  lemma DelSpells(s: State, ids: seq<nat>, bucket: seq<H.Node>, p: nat, s': State)
    requires Spells(s, ids, bucket) && H.Unique(bucket) && p < |bucket| && Deleted(s, bucket[p], s')
    ensures Spells(s', Dropped(ids, p), Dropped(bucket, p))
  {
    hide Linked, L.DelStep;
    var e: nat :| e in s.list.live && e < |s.nodes| && s.nodes[e] == bucket[p] && L.DelStep(s.list, e, s'.list);
    SamePlace(s, ids, bucket, p, e);
    DropLinked(s.list, ids, p, s'.list);
  }

  lemma OneDrop(was: seq<H.Node>, p: nat, q: nat)
    requires H.Unique(was) && p < q < |was|
    ensures Dropped(was, p) != Dropped(was, q)
  {
    assert Dropped(was, p)[p] == was[p + 1] && Dropped(was, q)[p] == was[p];
  }

  // ----- every step of the table can be followed, and keeps the invariant

  /** Whatever the table does next, the list can do as well: no run of the table is left out. */
  lemma StepLifts(s: State, e: H.Event, h': H.State, tbl: nat, b: nat) returns (s': State)
    requires Inv(s, tbl, b) && H.Step(s.h, e, h') && MayStep(s, e)
    ensures Step(s, Table(e), s', tbl, b) && s'.h == h'
  {
    hide TableInv, L.Inv, H.Step, MayStep, Bucket, Linked, Named, Deleted, Unlinked;
    StepOnBucket(s.h, e, h', tbl, b);
    var was, now := Bucket(s.h, tbl, b), Bucket(h', tbl, b);
    if now == was {
      s' := s.(h := h');
    } else if now != [] && now[1..] == was {
      var l := s.list;
      s' := State(h',
        l.(head := Some(l.born), next := l.next[l.born := l.head], born := l.born + 1, live := l.live + {l.born}),
        s.nodes + [now[0]]);
    } else {
      var p: nat :| p < |was| && now == Dropped(was, p);
      var ids :| Spells(s, ids, was);
      s' := State(h', Unlinked(s, ids, was, p), s.nodes);
      UnlinkedDeletes(s, ids, was, p, s');
    }
  }

  lemma UnlinkedDeletes(s: State, ids: seq<nat>, bucket: seq<H.Node>, p: nat, s': State)
    requires Spells(s, ids, bucket) && p < |bucket| && s'.list == Unlinked(s, ids, bucket, p) && s'.nodes == s.nodes
    ensures Deleted(s, bucket[p], s')
  {
    hide L.DelStep, Unlinked;
    assert ids[p] in ids;
  }

  /** The list without its element at position p. */
  ghost function Unlinked(s: State, ids: seq<nat>, bucket: seq<H.Node>, p: nat): (l: L.State)
    requires Spells(s, ids, bucket) && p < |bucket|
    ensures L.DelStep(s.list, ids[p], l)
  {
    var l := s.list;
    var after := L.NextOf(l.next, ids[p]);
    assert ids[p] in ids;
    assert p > 0 ==> ids[p - 1] in ids;
    if p == 0 then l.(head := after, live := l.live - {ids[p]}, gone := l.gone + {ids[p]})
    else l.(next := l.next[ids[p - 1] := after], live := l.live - {ids[p]}, gone := l.gone + {ids[p]})
  }

  lemma OthersStay(h: H.State, e: H.Event, h': H.State, t: nat)
    requires H.Step(h, e, h') && t < |h.pcs| && e != H.Thread(t)
    ensures |h'.pcs| == |h.pcs| && h'.pcs[t] == h.pcs[t]
  {
    hide H.BucketOf, H.Lookup, H.DoWork, H.Free, H.Placed, H.AddTo, H.Allocated, H.FirstStep;
    if e.Thread? && H.FirstStep(h, e.t, h') { OthersStayFirst(h, e.t, h', t); }
  }

  lemma OthersStayFirst(h: H.State, u: nat, h': H.State, t: nat)
    requires H.Sane(h) && u < |h.pcs| && t < |h.pcs| && t != u && H.FirstStep(h, u, h')
    ensures |h'.pcs| == |h.pcs| && h'.pcs[t] == h.pcs[t]
  {
    hide H.BucketOf, H.Lookup, H.DoWork, H.Placed, H.Chosen;
  }

  lemma StepCoupled(s: State, e: H.Event, s': State, tbl: nat)
    requires Coupled(s, tbl) && H.Step(s.h, e, s'.h) && MayStep(s, e) && |s'.h.pcs| == |s.h.pcs|
    requires |s'.nodes| == s'.list.born && s'.list.readers == s.list.readers
    requires GoneRetired(s', s'.h.retired)
    ensures Coupled(s', tbl)
  {
    hide H.Step;
    forall t | 0 <= t < |s'.h.pcs| && !s'.list.readers[t].Outside?
      ensures s'.h.pcs[t].Reading? && s'.h.pcs[t].tbl == tbl
    {
      if e != H.Thread(t) { OthersStay(s.h, e, s'.h, t); }
    }
  }

  /** The element leaving the bucket is a retired one. */
  lemma DeletedRetired(was: seq<H.Node>, now: seq<H.Node>, retired: set<H.Node>, p: nat)
    requires OneOperation(was, now, retired) && p < |was| && now == Dropped(was, p)
    ensures H.Unique(was) && was[p] in retired
  {
    var q: nat :| q < |was| && now == Dropped(was, q) && was[q] in retired;
    if p < q { OneDrop(was, p, q); }
    if q < p { OneDrop(was, q, p); }
  }

  lemma FollowKeepsInv(s: State, e: H.Event, s': State, tbl: nat, b: nat)
    requires Inv(s, tbl, b) && Step(s, Table(e), s', tbl, b)
    ensures Inv(s', tbl, b)
  {
    hide TableInv, H.Step, Bucket, Spelled, L.Inv, MayStep, OneOperation, Follows, GoneRetired;
    StepOnBucket(s.h, e, s'.h, tbl, b);
    ListFollows(s, Bucket(s.h, tbl, b), Bucket(s'.h, tbl, b), s');
    StepCoupled(s, e, s', tbl);
  }

  ghost predicate GoneRetired(s: State, retired: set<H.Node>) {
    forall x :: x in s.list.gone ==> x < |s.nodes| && s.nodes[x] in retired
  }

  lemma SameSpells(s: State, bucket: seq<H.Node>, s': State)
    requires Spelled(s, bucket) && s'.list == s.list && s'.nodes == s.nodes
    ensures Spelled(s', bucket)
  {
    var ids :| Spells(s, ids, bucket);
    assert Spells(s', ids, bucket);
  }

  lemma AddFollows(s: State, was: seq<H.Node>, now: seq<H.Node>, s': State)
    requires L.Inv(s.list) && |s.nodes| == s.list.born && Spelled(s, was) && now != [] && now[1..] == was
    requires Added(s, now[0], s')
    ensures L.Inv(s'.list) && Spelled(s', now) && s'.list.readers == s.list.readers
    ensures |s'.nodes| == s'.list.born && s.nodes <= s'.nodes && s'.list.gone == s.list.gone
    ensures forall e :: s.list.born <= e < s'.list.born ==> e in s'.list.live
  {
    hide L.Inv, Spells;
    var ids :| Spells(s, ids, was);
    AddSpells(s, ids, was, now[0], s');
    assert now == [now[0]] + was;
    L.AddKeepsInv(s.list, s'.list);
  }

  lemma DroppedLacks(was: seq<H.Node>, p: nat)
    requires H.Unique(was) && p < |was|
    ensures was[p] !in Dropped(was, p)
  {
    assert forall i :: 0 <= i < |was| && i != p ==> was[i] != was[p];
  }

  lemma DelFollows(s: State, was: seq<H.Node>, p: nat, s': State, retired: set<H.Node>)
    requires L.Inv(s.list) && |s.nodes| == s.list.born && Spelled(s, was) && H.Unique(was) && p < |was|
    requires Deleted(s, was[p], s')
    requires GoneRetired(s, retired) && was[p] in retired
    ensures L.Inv(s'.list) && Spelled(s', Dropped(was, p)) && s'.list.readers == s.list.readers
    ensures |s'.nodes| == s'.list.born && s'.nodes == s.nodes && s.list.gone <= s'.list.gone && GoneRetired(s', retired)
    ensures s'.list.live <= s.list.live
    ensures forall e :: e in s'.list.gone && e !in s.list.gone ==> e < |s.nodes| && s.nodes[e] !in Dropped(was, p)
  {
    hide L.Inv, Spells, H.Unique, Dropped;
    DroppedLacks(was, p);
    var ids :| Spells(s, ids, was);
    DelSpells(s, ids, was, p, s');
    var x: nat :| x in s.list.live && x < |s.nodes| && s.nodes[x] == was[p] && L.DelStep(s.list, x, s'.list);
    L.DelKeepsInv(s.list, x, s'.list);
  }

  lemma ListFollows(s: State, was: seq<H.Node>, now: seq<H.Node>, s': State)
    requires L.Inv(s.list) && |s.nodes| == s.list.born && Spelled(s, was) && Follows(s, was, now, s')
    requires OneOperation(was, now, s'.h.retired) && s.h.retired <= s'.h.retired && GoneRetired(s, s.h.retired)
    ensures L.Inv(s'.list) && Spelled(s', now) && s'.list.readers == s.list.readers
    ensures |s'.nodes| == s'.list.born && s.nodes <= s'.nodes && s.list.gone <= s'.list.gone
    ensures GoneRetired(s', s'.h.retired)
    ensures forall e :: e in s'.list.gone && e !in s.list.gone ==> e < |s'.nodes| && s'.nodes[e] !in now
    ensures forall e :: s.list.born <= e < s'.list.born ==> e in s'.list.live
  {
    hide L.Inv, H.Unique, OneOperation, Spelled, Added, Deleted, Dropped;
    assert GoneRetired(s, s'.h.retired);
    if now == was && s'.list == s.list && s'.nodes == s.nodes {
      SameSpells(s, was, s');
    } else if now != [] && now[1..] == was && Added(s, now[0], s') {
      AddFollows(s, was, now, s');
    } else {
      var p: nat :| p < |was| && now == Dropped(was, p) && Deleted(s, was[p], s');
      DeletedRetired(was, now, s'.h.retired, p);
      DelFollows(s, was, p, s', s'.h.retired);
    }
  }

  lemma ReadKeepsInv(s: State, t: nat, s': State, tbl: nat, b: nat)
    requires Inv(s, tbl, b) && Step(s, Read(t), s', tbl, b)
    ensures Inv(s', tbl, b)
  {
    hide L.Inv, TableInv, Bucket;
    L.ReadKeepsInv(s.list, t, s'.list);
    var ids :| Spells(s, ids, Bucket(s.h, tbl, b));
    assert Spells(s', ids, Bucket(s'.h, tbl, b));
  }

  lemma InitInv(s: State, tbl: nat, b: nat)
    requires H.Init(s.h) && L.Init(s.list) && s.nodes == [] && |s.list.readers| == |s.h.pcs|
    ensures Inv(s, tbl, b)
  {
    H.InitInv(s.h);
    assert Spells(s, [], Bucket(s.h, tbl, b));
  }

  lemma {:induction false} RunInv(run: seq<State>, events: seq<Event>, tbl: nat, b: nat, i: nat)
    requires IsRun(run, events, tbl, b) && i < |run|
    ensures Inv(run[i], tbl, b)
  {
    hide Inv, Step;
    if i == 0 {
      InitInv(run[0], tbl, b);
    } else {
      RunInv(run, events, tbl, b, i - 1);
      assert Step(run[i - 1], events[i - 1], run[i - 1 + 1], tbl, b);
      match events[i - 1] {
        case Table(e) => FollowKeepsInv(run[i - 1], e, run[i], tbl, b);
        case Read(t) => ReadKeepsInv(run[i - 1], t, run[i], tbl, b);
      }
    }
  }

  // ----- what a traversal sees

  /** The bucket's elements are the listed ones. */
  lemma Listed(s: State, tbl: nat, b: nat)
    requires Inv(s, tbl, b)
    ensures forall e :: e in s.list.live ==> e < |s.nodes| && s.nodes[e] in Bucket(s.h, tbl, b)
    ensures forall n :: n in Bucket(s.h, tbl, b) ==> exists e :: e in s.list.live && e < |s.nodes| && s.nodes[e] == n
  {
    hide L.Inv, TableInv, Bucket;
    var bucket := Bucket(s.h, tbl, b);
    var ids :| Spells(s, ids, bucket);
    forall e | e in s.list.live
      ensures e < |s.nodes| && s.nodes[e] in bucket
    {
      assert e in ids;
      var i :| 0 <= i < |ids| && ids[i] == e;
      assert bucket[i] in bucket;
    }
    forall n | n in bucket
      ensures exists e :: e in s.list.live && e < |s.nodes| && s.nodes[e] == n
    {
      var i :| 0 <= i < |bucket| && bucket[i] == n;
      assert ids[i] in ids;
    }
  }

  lemma OneStep(s: State, e: Event, s': State, tbl: nat, b: nat)
    requires Inv(s, tbl, b) && Step(s, e, s', tbl, b)
    ensures |s.nodes| == s.list.born && |s'.nodes| == s'.list.born && s.nodes <= s'.nodes && s.h.retired <= s'.h.retired
    ensures forall x :: x in s'.list.gone && x !in s.list.gone ==>
      x < |s'.nodes| && s'.nodes[x] !in Bucket(s'.h, tbl, b)
    ensures forall x :: s.list.born <= x < s'.list.born ==> x in s'.list.live
    ensures e.Table? ==> s'.list.readers == s.list.readers
  {
    hide L.Inv, TableInv, Bucket, H.Step, Follows, OneOperation, Spelled, GoneRetired, MayStep;
    if e.Table? {
      StepOnBucket(s.h, e.e, s'.h, tbl, b);
      ListFollows(s, Bucket(s.h, tbl, b), Bucket(s'.h, tbl, b), s');
    }
  }

  /** Reader t begins a traversal with event i and is still in it, or at its end, at j. */
  ghost predicate Traverses(run: seq<State>, events: seq<Event>, tbl: nat, b: nat, i: nat, j: nat, t: nat) {
    IsRun(run, events, tbl, b) && i < j < |run| && events[i] == Read(t)
    && t < |run[i].list.readers| && run[i].list.readers[t].Outside?
    && forall x :: i < x <= j ==> t < |run[x].list.readers| && !run[x].list.readers[t].Outside?
  }

  /** In the bucket, and out of it, at some moment from i to j. */
  ghost predicate SometimeIn(run: seq<State>, tbl: nat, b: nat, i: nat, j: nat, n: H.Node) {
    exists x :: i <= x <= j < |run| && n in Bucket(run[x].h, tbl, b)
  }

  ghost predicate SometimeOut(run: seq<State>, tbl: nat, b: nat, i: nat, j: nat, n: H.Node) {
    exists x :: i <= x <= j < |run| && n !in Bucket(run[x].h, tbl, b)
  }

  /** What a traversal remembers of its beginning. */
  lemma {:induction false} Remembers(run: seq<State>, events: seq<Event>, tbl: nat, b: nat, i: nat, j: nat, t: nat)
    requires Traverses(run, events, tbl, b, i, j, t)
    ensures run[j].list.readers[t].first == run[i].list.live && run[j].list.readers[t].gone == run[i].list.gone
    decreases j
  {
    hide Follows, H.Step, MayStep, Bucket;
    var s, s' := run[j - 1], run[j - 1 + 1];
    RunInv(run, events, tbl, b, j - 1);
    assert Step(s, events[j - 1], s', tbl, b);
    OneStep(s, events[j - 1], s', tbl, b);
    if j > i + 1 { Remembers(run, events, tbl, b, i, j - 1, t); }
  }

  /** What has been numbered by j was gone at i or has been in the bucket since; what was listed
      at i and is gone by j has been out of it. */
  lemma {:induction false} Since(run: seq<State>, events: seq<Event>, tbl: nat, b: nat, i: nat, j: nat)
    requires IsRun(run, events, tbl, b) && i <= j < |run|
    ensures run[i].nodes <= run[j].nodes && |run[j].nodes| == run[j].list.born && run[i].h.retired <= run[j].h.retired
    ensures forall e :: 0 <= e < run[j].list.born ==>
      e in run[i].list.gone || SometimeIn(run, tbl, b, i, j, run[j].nodes[e])
    ensures forall e :: e in run[j].list.gone && e in run[i].list.live ==>
      e < |run[j].nodes| && SometimeOut(run, tbl, b, i, j, run[j].nodes[e])
    decreases j
  {
    hide Inv, Step, Bucket;
    RunInv(run, events, tbl, b, j);
    Listed(run[j], tbl, b);
    Numbered(run[j], tbl, b);
    if j > i {
      var s, s' := run[j - 1], run[j - 1 + 1];
      Since(run, events, tbl, b, i, j - 1);
      RunInv(run, events, tbl, b, j - 1);
      assert Step(s, events[j - 1], s', tbl, b);
      OneStep(s, events[j - 1], s', tbl, b);
      forall e | 0 <= e < s'.list.born
        ensures e in run[i].list.gone || SometimeIn(run, tbl, b, i, j, s'.nodes[e])
      {
        if e < s.list.born && e !in run[i].list.gone {
          var x :| i <= x <= j - 1 && s.nodes[e] in Bucket(run[x].h, tbl, b);
          assert s'.nodes[e] in Bucket(run[x].h, tbl, b);
        } else {
          assert e >= s.list.born ==> s'.nodes[e] in Bucket(run[j].h, tbl, b);
        }
      }
      forall e | e in s'.list.gone && e in run[i].list.live
        ensures e < |s'.nodes| && SometimeOut(run, tbl, b, i, j, s'.nodes[e])
      {
        if e in s.list.gone {
          var x :| i <= x <= j - 1 && s.nodes[e] !in Bucket(run[x].h, tbl, b);
          assert s'.nodes[e] !in Bucket(run[x].h, tbl, b);
        } else {
          assert s'.nodes[e] !in Bucket(run[j].h, tbl, b);
        }
      }
    }
  }

  lemma Numbered(s: State, tbl: nat, b: nat)
    requires Inv(s, tbl, b)
    ensures |s.nodes| == s.list.born && s.list.live !! s.list.gone && GoneRetired(s, s.h.retired)
    ensures forall e: nat :: e in s.list.live || e in s.list.gone <==> e < s.list.born
  {
    hide TableInv, Spelled;
  }

  /** A traversal that reaches the end has visited every element that was in the bucket at each
      moment of it, in particular every one there at the start that has not been deleted, and
      has visited only elements that were in the bucket at some moment of it. */
  lemma TraversalVisits(run: seq<State>, events: seq<Event>, tbl: nat, b: nat, i: nat, j: nat, t: nat, n: H.Node)
    requires Traverses(run, events, tbl, b, i, j, t) && run[j].list.readers[t].AtEnd?
    ensures !SometimeOut(run, tbl, b, i, j, n) ==> Visited(run[j], t, n)
    ensures n in Bucket(run[i].h, tbl, b) && n !in run[j].h.retired ==> Visited(run[j], t, n)
    ensures Visited(run[j], t, n) ==> SometimeIn(run, tbl, b, i, j, n)
  {
    hide Inv, Step, Bucket;
    Remembers(run, events, tbl, b, i, j, t);
    Since(run, events, tbl, b, i, j);
    RunInv(run, events, tbl, b, i);
    RunInv(run, events, tbl, b, j);
    Listed(run[i], tbl, b);
    Numbered(run[i], tbl, b);
    Numbered(run[j], tbl, b);
    AtTheEnd(run[j], tbl, b, t);
    assert n !in Bucket(run[i].h, tbl, b) ==> SometimeOut(run, tbl, b, i, j, n);
  }

  ghost predicate Visited(s: State, t: nat, n: H.Node)
    requires t < |s.list.readers| && !s.list.readers[t].Outside?
  {
    exists e :: e in s.list.readers[t].seen && e < |s.nodes| && s.nodes[e] == n
  }

  lemma AtTheEnd(s: State, tbl: nat, b: nat, t: nat)
    requires Inv(s, tbl, b) && t < |s.list.readers| && s.list.readers[t].AtEnd?
    ensures var r := s.list.readers[t];
      r.seen !! r.gone && forall e :: e in r.first ==> e in r.seen || e in s.list.gone
  {
    hide TableInv, Spelled;
    assert L.ReaderOk(s.list, t);
  }

  /** Thread t enters a reader's critical section with event a and is still in it at i. */
  ghost predicate InSection(run: seq<State>, events: seq<Event>, tbl: nat, b: nat, t: nat, a: nat, i: nat) {
    IsRun(run, events, tbl, b) && a < i < |run| && events[a] == Table(H.Thread(t))
    && t < |run[a].h.pcs| && run[a].h.pcs[t].Idle?
    && forall x :: a < x <= i ==> t < |run[x].h.pcs| && run[x].h.pcs[t].Reading?
  }

  lemma {:induction false} SectionRemembers(run: seq<State>, events: seq<Event>, tbl: nat, b: nat, t: nat, a: nat,
      i: nat)
    requires InSection(run, events, tbl, b, t, a, i)
    ensures run[i].h.pcs[t] == H.Reading(run[a].h.cur, run[a].h.m)
    decreases i
  {
    hide H.Step, MayStep, Follows;
    var e := events[i - 1];
    assert Step(run[i - 1], e, run[i - 1 + 1], tbl, b);
    if e.Table? { H.SectionStep(run[i - 1].h, e.e, run[i].h, t); }
    if i > a + 1 { SectionRemembers(run, events, tbl, b, t, a, i - 1); }
  }

  /** Whatever the resizer and the updaters do meanwhile, a lookup's traversal, in the table that
      was current when its section began, meets the element that was there then and has not
      been deleted; on the new table while the old one drains, unless the traversal begins while
      an updater is between its two list operations on the key. */
  lemma TraversalFinds(run: seq<State>, events: seq<Event>, tbl: nat, b: nat, a: nat, i: nat, j: nat, t: nat, k: nat)
    requires InSection(run, events, tbl, b, t, a, i) && tbl == run[a].h.cur
    requires Traverses(run, events, tbl, b, i, j, t) && run[j].list.readers[t].AtEnd?
    requires k in run[a].h.m && run[a].h.m[k] !in run[j].h.retired
    requires tbl == run[i].h.base || !H.Mid(run[i].h, k)
    requires tbl < |run[i].h.tables| && |run[i].h.tables[tbl].bkt| > 0 && b == H.BucketOf(run[i].h.tables[tbl], k)
    ensures Visited(run[j], t, run[a].h.m[k])
  {
    hide L.Inv, Spelled;
    var h := run[i].h;
    var n := run[a].h.m[k];
    SectionRemembers(run, events, tbl, b, t, a, i);
    Since(run, events, tbl, b, i, j);
    RunInv(run, events, tbl, b, i);
    assert H.ReaderOk(h, t) && H.PcOk(h, t);
    if tbl != h.base { H.CurrentIsExact(h, k); }
    H.FindMeaning(h.tables[tbl].bkt[b], k);
    assert n in Bucket(h, tbl, b);
    TraversalVisits(run, events, tbl, b, i, j, t, n);
  }
}
