/** The resizable hash table of datastruct/hash/hash_resize.c as a state machine.  Fetching the
    current table and taking its one or two bucket locks is one transition; every list
    operation, every element the resizer copies, and its stores to ht_resize_cur and ht_cur are
    transitions of their own.  Lookups are single reads of one bucket; BucketTraversal reads its
    pointers one by one.
 */
module HashResize {
  import opened Common

  datatype Node = Node(id: nat, key: nat)

  /** resizeCur is ht_resize_cur. */
  datatype Table = Table(hash: nat -> nat, bkt: seq<seq<Node>>, resizeCur: int)

  // ----- one table

  ghost function BucketOf(t: Table, k: nat): nat
    requires |t.bkt| > 0
  {
    t.hash(k) % |t.bkt|
  }

  ghost function Find(list: seq<Node>, k: nat): Option<Node> {
    if list == [] then None else if list[0].key == k then Some(list[0]) else Find(list[1..], k)
  }

  /** hashtab_lookup. */
  ghost function Lookup(t: Table, k: nat): Option<Node>
    requires |t.bkt| > 0
  {
    Find(t.bkt[BucketOf(t, k)], k)
  }

  ghost function Remove(list: seq<Node>, n: Node): seq<Node> {
    if list == [] then [] else if list[0] == n then list[1..] else [list[0]] + Remove(list[1..], n)
  }

  /** cds_list_add_rcu into the bucket of the node's key. */
  ghost function AddTo(t: Table, n: Node): Table
    requires |t.bkt| > 0
  {
    var b := BucketOf(t, n.key);
    t.(bkt := t.bkt[b := [n] + t.bkt[b]])
  }

  /** cds_list_del_rcu. */
  ghost function DelFrom(t: Table, n: Node): Table
    requires |t.bkt| > 0
  {
    var b := BucketOf(t, n.key);
    t.(bkt := t.bkt[b := Remove(t.bkt[b], n)])
  }

  ghost predicate Unique(list: seq<Node>) { forall i, j :: 0 <= i < j < |list| ==> list[i].key != list[j].key }

  /** Every node is in its key's bucket, and keys are unique. */
  ghost predicate Placed(t: Table) {
    |t.bkt| > 0 && forall b :: 0 <= b < |t.bkt| ==>
      Unique(t.bkt[b]) && forall i :: 0 <= i < |t.bkt[b]| ==> BucketOf(t, t.bkt[b][i].key) == b
  }

  lemma {:induction false} FindMeaning(list: seq<Node>, k: nat)
    ensures Find(list, k) == None <==> forall i :: 0 <= i < |list| ==> list[i].key != k
    ensures Find(list, k).Some? ==>
      Find(list, k).value.key == k && exists i :: 0 <= i < |list| && list[i] == Find(list, k).value
  {
    if list != [] && list[0].key != k {
      FindMeaning(list[1..], k);
      if Find(list, k).Some? {
        var i :| 0 <= i < |list[1..]| && list[1..][i] == Find(list, k).value;
        assert list[i + 1] == Find(list, k).value;
      }
      assert forall i :: 1 <= i < |list| ==> list[i] == list[1..][i - 1];
    }
  }

  lemma {:induction false} FindAt(list: seq<Node>, i: nat)
    requires Unique(list) && i < |list|
    ensures Find(list, list[i].key) == Some(list[i])
  {
    if i > 0 {
      assert list[0].key != list[i].key;
      FindAt(list[1..], i - 1);
    }
  }

  lemma {:induction false} RemoveMeaning(list: seq<Node>, n: Node, k: nat)
    requires Unique(list) && Find(list, n.key) == Some(n)
    ensures Unique(Remove(list, n)) && Find(Remove(list, n), k) == if k == n.key then None else Find(list, k)
    ensures forall x :: x in Remove(list, n) ==> x in list
  {
    var r := Remove(list, n);
    FindMeaning(list, n.key);
    if list[0] == n {
      FindMeaning(list[1..], n.key);
    } else {
      RemoveMeaning(list[1..], n, k);
      var rest := Remove(list[1..], n);
      assert r == [list[0]] + rest;
      hide Remove;
      forall i, j | 0 <= i < j < |r|
        ensures r[i].key != r[j].key
      {
        if i == 0 {
          assert r[j] == rest[j - 1] && rest[j - 1] in rest;
        } else {
          assert r[i] == rest[i - 1] && r[j] == rest[j - 1];
        }
      }
      assert r[1..] == rest;
    }
  }

  lemma AddLookup(t: Table, n: Node)
    requires Placed(t) && Lookup(t, n.key) == None
    ensures var t' := AddTo(t, n);
      Placed(t') && forall k :: Lookup(t', k) == if k == n.key then Some(n) else Lookup(t, k)
  {
    var t', b := AddTo(t, n), BucketOf(t, n.key);
    FindMeaning(t.bkt[b], n.key);
    assert forall k :: BucketOf(t', k) == BucketOf(t, k);
    assert t'.bkt[b][1..] == t.bkt[b];
    assert forall i :: 1 <= i < |t'.bkt[b]| ==> t'.bkt[b][i] == t.bkt[b][i - 1];
  }

  lemma DelLookup(t: Table, n: Node)
    requires Placed(t) && Lookup(t, n.key) == Some(n)
    ensures var t' := DelFrom(t, n);
      Placed(t') && forall k :: Lookup(t', k) == if k == n.key then None else Lookup(t, k)
  {
    var t', b := DelFrom(t, n), BucketOf(t, n.key);
    assert forall k :: BucketOf(t', k) == BucketOf(t, k);
    forall k: nat
      ensures Lookup(t', k) == if k == n.key then None else Lookup(t, k)
    {
      RemoveMeaning(t.bkt[b], n, k);
    }
    RemoveMeaning(t.bkt[b], n, 0);
    forall i | 0 <= i < |t'.bkt[b]|
      ensures BucketOf(t', t'.bkt[b][i].key) == b
    {
      assert t'.bkt[b][i] in t.bkt[b];
    }
  }

  lemma NodeLookup(t: Table, b: nat, i: nat)
    requires Placed(t) && b < |t.bkt| && i < |t.bkt[b]|
    ensures Lookup(t, t.bkt[b][i].key) == Some(t.bkt[b][i])
  {
    FindAt(t.bkt[b], i);
  }

  // ----- the machine

  datatype Work = Adding(n: Node) | Deleting(n: Node)

  /** k is the key an updater locked, tbl the table it found, two whether it holds a bucket of
      the next table as well; m0 is the map as a reader entered its critical section. */
  datatype Pc =
    | Idle
    | Reading(tbl: nat, m0: map<nat, Node>)
    | Locked(k: nat, tbl: nat, two: bool)
    | Second(k: nat, tbl: nat, w: Work)              // between its two list operations
    | Done(k: nat, tbl: nat, two: bool)

  /** hashtab_resize: i is its bucket, j its position in the bucket's list. */
  datatype Resizer =
    | Rest
    | Want(i: nat)
    | Copy(i: nat, j: nat)
    | Publish(i: nat)
    | Release(i: nat)
    | Switch
    | Sync(waiting: set<nat>)

  /** tables lists all tables ever allocated; those before base have been freed.  m is the map
      the table stands for, changed by each update's first list operation, and retired the
      nodes deleted so far. */
  datatype State = State(tables: seq<Table>, base: nat, cur: nat, pcs: seq<Pc>, rs: Resizer, m: map<nat, Node>,
      retired: set<Node>)

  function Get(m: map<nat, Node>, k: nat): Option<Node> { if k in m then Some(m[k]) else None }

  predicate Updating(pc: Pc) { pc.Locked? || pc.Second? || pc.Done? }

  predicate Two(pc: Pc) { pc.Second? || ((pc.Locked? || pc.Done?) && pc.two) }

  ghost predicate Sane(s: State) {
    |s.tables| == s.base + (if s.rs.Rest? then 1 else 2) && s.cur == (if s.rs.Sync? then s.base + 1 else s.base)
    && forall i :: s.base <= i < |s.tables| ==> Placed(s.tables[i])
  }

  /** The updater holds the lock of bucket b of table tbl. */
  ghost predicate Holds(s: State, pc: Pc, tbl: nat, b: nat)
    requires Sane(s) && s.base <= tbl < |s.tables|
  {
    Updating(pc) && (pc.tbl == tbl || (Two(pc) && pc.tbl + 1 == tbl)) && BucketOf(s.tables[tbl], pc.k) == b
  }

  ghost predicate Free(s: State, tbl: nat, b: nat)
    requires Sane(s) && s.base <= tbl < |s.tables|
  {
    (forall t :: 0 <= t < |s.pcs| ==> !Holds(s, s.pcs[t], tbl, b))
    && !((s.rs.Copy? || s.rs.Publish? || s.rs.Release?) && tbl == s.base && s.rs.i == b)
  }

  function Goto(s: State, t: nat, pc: Pc): State
    requires t < |s.pcs|
  {
    s.(pcs := s.pcs[t := pc])
  }

  ghost function SetTable(s: State, i: nat, t: Table): State
    requires i < |s.tables|
  {
    s.(tables := s.tables[i := t])
  }

  /** hashtab_lock_mod. */
  ghost predicate LockStep(s: State, t: nat, s': State)
    requires Sane(s) && t < |s.pcs|
  {
    s.pcs[t].Idle? && exists k: nat ::
      var b := BucketOf(s.tables[s.cur], k);
      Free(s, s.cur, b)
      && (b > s.tables[s.cur].resizeCur ==> s' == Goto(s, t, Locked(k, s.cur, false)))
      && (b <= s.tables[s.cur].resizeCur ==>
         s.cur + 1 < |s.tables| && Free(s, s.cur + 1, BucketOf(s.tables[s.cur + 1], k))
         && s' == Goto(s, t, Locked(k, s.cur, true)))
  }

  function Worked(k: nat, tbl: nat, two: bool, w: Work): Pc { if two then Second(k, tbl, w) else Done(k, tbl, false) }

  ghost function DoWork(t: Table, w: Work): Table
    requires |t.bkt| > 0
  {
    match w case Adding(n) => AddTo(t, n) case Deleting(n) => DelFrom(t, n)
  }

  /** An updater looks its key up and adds a new node if it finds none, or may delete the node
      it finds: the first list operation of hashtab_add or hashtab_del. */
  ghost predicate FirstStep(s: State, t: nat, s': State)
    requires Sane(s) && t < |s.pcs|
  {
    match s.pcs[t]
    case Locked(k, tbl, two) =>
      tbl < |s.tables| && |s.tables[tbl].bkt| > 0
      && (s' == Goto(s, t, Done(k, tbl, two)) || exists w: Work :: Chosen(s, k, w) && s' == Applied(s, t, w))
    case _ => false
  }

  /** The update fits what hashtab_lookup returns; an added node is new. */
  ghost predicate Chosen(s: State, k: nat, w: Work)
    requires Sane(s)
  {
    match w
    case Adding(n) => Lookup(s.tables[s.cur], k) == None && n.key == k && n !in s.retired && n !in s.m.Values
    case Deleting(n) => Lookup(s.tables[s.cur], k) == Some(n)
  }

  ghost function Applied(s: State, t: nat, w: Work): State
    requires t < |s.pcs| && s.pcs[t].Locked? && s.pcs[t].tbl < |s.tables| && |s.tables[s.pcs[t].tbl].bkt| > 0
  {
    var pc := s.pcs[t];
    SetTable(Goto(s, t, Worked(pc.k, pc.tbl, pc.two, w)), pc.tbl, DoWork(s.tables[pc.tbl], w)).(
      m := if w.Adding? then s.m[pc.k := w.n] else s.m - {pc.k},
      retired := if w.Adding? then s.retired else s.retired + {w.n})
  }

  /** The second list operation. */
  ghost predicate SecondStep(s: State, t: nat, s': State)
    requires Sane(s) && t < |s.pcs|
  {
    match s.pcs[t]
    case Second(k, tbl, w) => tbl + 1 < |s.tables| && |s.tables[tbl + 1].bkt| > 0
      && s' == SetTable(Goto(s, t, Done(k, tbl, true)), tbl + 1, DoWork(s.tables[tbl + 1], w))
    case _ => false
  }

  function Leaving(rs: Resizer, t: nat): Resizer { if rs.Sync? then Sync(rs.waiting - {t}) else rs }

  /** hashtab_unlock_mod, and entering and leaving a reader's critical section. */
  ghost predicate OtherStep(s: State, t: nat, s': State)
    requires Sane(s) && t < |s.pcs|
  {
    match s.pcs[t]
    case Done(_, _, _) => s' == Goto(s, t, Idle).(rs := Leaving(s.rs, t))
    case Reading(_, _) => s' == Goto(s, t, Idle).(rs := Leaving(s.rs, t))
    case Idle => s' == Goto(s, t, Reading(s.cur, s.m))
    case _ => false
  }

  /** ht_alloc. */
  ghost predicate Allocated(t: Table) {
    t.resizeCur == -1 && |t.bkt| > 0 && forall b :: 0 <= b < |t.bkt| ==> t.bkt[b] == []
  }

  /** hashtab_resize.  Finishing its second synchronize_rcu needs every critical section open
      at its start to have closed. */
  ghost predicate ResizeStep(s: State, s': State)
    requires Sane(s)
  {
    match s.rs
    case Rest => exists t: Table :: Allocated(t) && s' == s.(tables := s.tables + [t], rs := Want(0))
    case Want(i) =>
      if i < |s.tables[s.base].bkt| then Free(s, s.base, i) && s' == s.(rs := Copy(i, 0)) else s' == s.(rs := Switch)
    case Copy(i, j) => i < |s.tables[s.base].bkt| && s.base + 1 < |s.tables| &&
      (if j < |s.tables[s.base].bkt[i]| then
        var n := s.tables[s.base].bkt[i][j];
        Free(s, s.base + 1, BucketOf(s.tables[s.base + 1], n.key))
        && s' == SetTable(s, s.base + 1, AddTo(s.tables[s.base + 1], n)).(rs := Copy(i, j + 1))
      else s' == s.(rs := Publish(i)))
    case Publish(i) => s' == SetTable(s, s.base, s.tables[s.base].(resizeCur := i)).(rs := Release(i))
    case Release(i) => s' == s.(rs := Want(i + 1))
    case Switch => s' == s.(cur := s.base + 1, rs := Sync(set t | 0 <= t < |s.pcs| && !s.pcs[t].Idle?))
    case Sync(waiting) => waiting == {} && s' == s.(base := s.base + 1, rs := Rest)
  }

  datatype Event = Thread(t: nat) | Resize

  ghost predicate Step(s: State, e: Event, s': State) {
    Sane(s) && match e
      case Thread(t) =>
        t < |s.pcs| && (LockStep(s, t, s') || FirstStep(s, t, s') || SecondStep(s, t, s') || OtherStep(s, t, s'))
      case Resize => ResizeStep(s, s')
  }

  ghost predicate Init(s: State) {
    |s.tables| == 1 && s.base == 0 && s.cur == 0 && s.rs == Rest && s.m == map[] && s.retired == {}
    && Allocated(s.tables[0]) && forall t :: 0 <= t < |s.pcs| ==> s.pcs[t] == Idle
  }

  ghost predicate IsRun(run: seq<State>, events: seq<Event>) {
    |run| == |events| + 1 && Init(run[0]) && forall i :: 0 <= i < |events| ==> Step(run[i], events[i], run[i + 1])
  }

  // ----- the invariant

  /** The resizer's position agrees with ht_resize_cur. */
  ghost predicate ProgressOk(s: State)
    requires Sane(s)
  {
    var o := s.tables[s.base];
    s.tables[|s.tables| - 1].resizeCur == (if s.rs.Rest? then o.resizeCur else -1)
    && match s.rs
       case Rest => o.resizeCur == -1
       case Want(i) => o.resizeCur == i - 1 && i <= |o.bkt|
       case Copy(i, j) => o.resizeCur == i - 1 && i < |o.bkt| && j <= |o.bkt[i]|
       case Publish(i) => o.resizeCur == i - 1 && i < |o.bkt|
       case Release(i) => o.resizeCur == i && i < |o.bkt|
       case Switch => o.resizeCur == |o.bkt| - 1
       case Sync(_) => o.resizeCur == |o.bkt| - 1
  }

  /** An updater holds a bucket of the next table exactly if its own bucket has been copied. */
  ghost predicate PcOk(s: State, t: nat)
    requires Sane(s) && t < |s.pcs|
  {
    var pc := s.pcs[t];
    (Updating(pc) ==>
      s.base <= pc.tbl <= s.cur
        && (Two(pc) <==>
        !s.rs.Rest? && pc.tbl == s.base && BucketOf(s.tables[s.base], pc.k) <= s.tables[s.base].resizeCur))
    && (pc.Reading? ==> s.base <= pc.tbl <= s.cur)
    && (pc.Second? ==> pc.w.n.key == pc.k)
    && (s.rs.Sync? && !pc.Idle? && pc.tbl == s.base ==> t in s.rs.waiting)
  }

  /** No bucket lock has two holders. */
  ghost predicate LocksOk(s: State)
    requires Sane(s)
  {
    (forall t, u, tbl, b :: 0 <= t < u < |s.pcs| && s.base <= tbl < |s.tables| ==>
      !(Holds(s, s.pcs[t], tbl, b) && Holds(s, s.pcs[u], tbl, b)))
    && (s.rs.Copy? || s.rs.Publish? || s.rs.Release? ==> forall t :: 0 <= t < |s.pcs| ==>
       !Holds(s, s.pcs[t], s.base, s.rs.i))
  }

  ghost predicate Mid(s: State, k: nat) { exists t :: 0 <= t < |s.pcs| && s.pcs[t].Second? && s.pcs[t].k == k }

  ghost predicate Copied(s: State, k: nat)
    requires Sane(s)
  {
    var o := s.tables[s.base];
    var b := BucketOf(o, k);
    b <= o.resizeCur
      || (s.rs.Copy? && b == s.rs.i && exists p :: 0 <= p < s.rs.j && p < |o.bkt[b]| && o.bkt[b][p].key == k)
    || (s.rs.Publish? && b == s.rs.i && exists p :: 0 <= p < |o.bkt[b]| && o.bkt[b][p].key == k)
  }

  /** An updater still at work on the retired table. */
  ghost predicate Straggler(s: State, k: nat) {
    exists t :: 0 <= t < |s.pcs| && Updating(s.pcs[t]) && s.pcs[t].tbl == s.base && s.pcs[t].k == k
  }

  ghost predicate OldOk(s: State, k: nat)
    requires Sane(s)
  {
    (s.cur == s.base || Straggler(s, k)) ==> Lookup(s.tables[s.base], k) == Get(s.m, k)
  }

  /** The new table holds exactly what has been copied, except mid-update. */
  ghost predicate NewOk(s: State, k: nat)
    requires Sane(s)
  {
    !s.rs.Rest? && !Mid(s, k) ==> Lookup(s.tables[s.base + 1], k) == if Copied(s, k) then Get(s.m, k) else None
  }

  function Before(w: Work): Option<Node> { if w.Adding? then None else Some(w.n) }

  function After(w: Work): Option<Node> { if w.Adding? then Some(w.n) else None }

  ghost predicate MidOk(s: State, t: nat)
    requires Sane(s) && t < |s.pcs|
  {
    s.pcs[t].Second? ==>
      !s.rs.Rest? && Lookup(s.tables[s.base + 1], s.pcs[t].k) == Before(s.pcs[t].w)
        && Get(s.m, s.pcs[t].k) == After(s.pcs[t].w)
  }

  /** A reader of the table that was current when it started finds what has been there since. */
  ghost predicate ReaderOk(s: State, t: nat)
    requires Sane(s) && t < |s.pcs|
  {
    s.pcs[t].Reading? ==> forall k :: k in s.pcs[t].m0 && s.pcs[t].m0[k] !in s.retired ==>
      Get(s.m, k) == Some(s.pcs[t].m0[k])
        && (s.pcs[t].tbl == s.base ==> Lookup(s.tables[s.base], k) == Some(s.pcs[t].m0[k]))
  }

  ghost predicate MapOk(s: State) { forall k :: k in s.m ==> s.m[k].key == k && s.m[k] !in s.retired }

  ghost predicate Inv(s: State) {
    Sane(s) && ProgressOk(s) && LocksOk(s) && MapOk(s)
    && (forall t :: 0 <= t < |s.pcs| ==> PcOk(s, t) && MidOk(s, t) && ReaderOk(s, t))
    && (forall k: nat :: OldOk(s, k) && NewOk(s, k))
  }

  // ----- consequences of the invariant

  /** Two updaters never work on one key: the current and the next table's locks overlap. */
  lemma OneUpdater(s: State, t: nat, u: nat)
    requires Inv(s) && t < |s.pcs| && u < |s.pcs| && Updating(s.pcs[t]) && Updating(s.pcs[u])
    requires s.pcs[t].k == s.pcs[u].k
    ensures t == u
  {
    assert PcOk(s, t) && PcOk(s, u);
    var k := s.pcs[t].k;
    var tbl := if s.pcs[t].tbl < s.pcs[u].tbl then s.pcs[u].tbl else s.pcs[t].tbl;
    hide OldOk, NewOk, MidOk, ReaderOk, MapOk, Placed;
    if s.rs.Sync? { InLastBucket(s.tables[s.base], k); }
    assert Holds(s, s.pcs[t], tbl, BucketOf(s.tables[tbl], k));
    assert Holds(s, s.pcs[u], tbl, BucketOf(s.tables[tbl], k));
  }

  lemma InLastBucket(t: Table, k: nat)
    requires |t.bkt| > 0
    ensures 0 <= BucketOf(t, k) < |t.bkt|
  {
  }

  /** Lookup in the current table is exact for every key no updater is in the middle of. */
  lemma CurrentIsExact(s: State, k: nat)
    requires Inv(s) && !Mid(s, k)
    ensures Lookup(s.tables[s.cur], k) == Get(s.m, k)
  {
    assert OldOk(s, k) && NewOk(s, k);
    if s.rs.Sync? { InLastBucket(s.tables[s.base], k); }
  }

  // ----- updates

  /** What one list operation does to what lookups see. */
  lemma WorkLookup(t: Table, w: Work)
    requires Placed(t) && Lookup(t, w.n.key) == Before(w)
    ensures Placed(DoWork(t, w))
    ensures forall k :: Lookup(DoWork(t, w), k) == if k == w.n.key then After(w) else Lookup(t, k)
  {
    if w.Adding? { AddLookup(t, w.n); } else { DelLookup(t, w.n); }
  }

  /** Hashing is unaffected by list operations. */
  lemma WorkBuckets(t: Table, w: Work)
    requires |t.bkt| > 0
    ensures |DoWork(t, w).bkt| == |t.bkt| && DoWork(t, w).resizeCur == t.resizeCur
    ensures forall k :: BucketOf(DoWork(t, w), k) == BucketOf(t, k)
    ensures forall b :: 0 <= b < |t.bkt| && b != BucketOf(t, w.n.key) ==> DoWork(t, w).bkt[b] == t.bkt[b]
  {
  }

  /** s' differs from s in one table by a list operation, and in t's control state. */
  ghost predicate Works(s: State, t: nat, s': State, tbl: nat, w: Work)
    requires Sane(s)
  {
    t < |s.pcs| && s.base <= tbl < |s.tables| && Updating(s.pcs[t]) && w.n.key == s.pcs[t].k
    && Lookup(s.tables[tbl], w.n.key) == Before(w)
    && s'.tables == s.tables[tbl := DoWork(s.tables[tbl], w)] && s'.base == s.base && s'.cur == s.cur && s'.rs == s.rs
    && |s'.pcs| == |s.pcs| && (forall u :: 0 <= u < |s.pcs| && u != t ==> s'.pcs[u] == s.pcs[u])
    && Updating(s'.pcs[t]) && s'.pcs[t].k == s.pcs[t].k && s'.pcs[t].tbl == s.pcs[t].tbl
       && Two(s'.pcs[t]) == Two(s.pcs[t])
  }

  lemma WorksShape(s: State, t: nat, s': State, tbl: nat, w: Work)
    requires Sane(s) && Works(s, t, s', tbl, w)
    ensures Sane(s')
    ensures forall i :: s.base <= i < |s.tables| ==>
      s'.tables[i].resizeCur == s.tables[i].resizeCur && |s'.tables[i].bkt| == |s.tables[i].bkt|
    ensures forall i, k :: s.base <= i < |s.tables| ==> BucketOf(s'.tables[i], k) == BucketOf(s.tables[i], k)
    ensures forall i, k :: s.base <= i < |s.tables| ==>
      Lookup(s'.tables[i], k) == if i == tbl && k == w.n.key then After(w) else Lookup(s.tables[i], k)
  {
    WorkLookup(s.tables[tbl], w);
    WorkBuckets(s.tables[tbl], w);
    hide Placed, Lookup, BucketOf, DoWork;
  }

  lemma WorksLocks(s: State, t: nat, s': State, tbl: nat, w: Work)
    requires Inv(s) && Works(s, t, s', tbl, w)
    ensures Sane(s') && LocksOk(s')
  {
    WorksShape(s, t, s', tbl, w);
    hide Placed, Lookup, BucketOf, DoWork, ProgressOk, MapOk, PcOk, MidOk, ReaderOk, OldOk, NewOk, Works;
    assert forall u, i, b :: 0 <= u < |s.pcs| && s.base <= i < |s.tables| ==>
      Holds(s', s'.pcs[u], i, b) == Holds(s, s.pcs[u], i, b) by { WorksHolds(s, t, s', tbl, w); }
  }

  lemma WorksHolds(s: State, t: nat, s': State, tbl: nat, w: Work)
    requires Sane(s) && Sane(s') && Works(s, t, s', tbl, w)
    ensures forall u, i, b :: 0 <= u < |s.pcs| && s.base <= i < |s.tables| ==>
      Holds(s', s'.pcs[u], i, b) == Holds(s, s.pcs[u], i, b)
  {
    WorksShape(s, t, s', tbl, w);
    hide Placed, Lookup, BucketOf, DoWork;
  }

  /** The bucket the resizer holds is left alone. */
  lemma WorksProgress(s: State, t: nat, s': State, tbl: nat, w: Work)
    requires Inv(s) && Works(s, t, s', tbl, w) && (tbl == s.pcs[t].tbl || tbl == s.pcs[t].tbl + 1)
    ensures Sane(s') && ProgressOk(s')
    ensures forall k :: Copied(s', k) == Copied(s, k)
  {
    WorksShape(s, t, s', tbl, w);
    assert PcOk(s, t);
    if s.rs.Copy? || s.rs.Publish? || s.rs.Release? {
      assert !Holds(s, s.pcs[t], s.base, s.rs.i);
      if tbl == s.base { WorkBuckets(s.tables[tbl], w); }
      assert s'.tables[s.base].bkt[s.rs.i] == s.tables[s.base].bkt[s.rs.i];
    }
    hide Placed, Lookup, BucketOf, DoWork, MapOk, MidOk, ReaderOk, OldOk, NewOk, LocksOk, PcOk;
  }

  lemma WorksPcs(s: State, t: nat, s': State, tbl: nat, w: Work, u: nat)
    requires Inv(s) && Works(s, t, s', tbl, w) && u < |s.pcs|
    requires s'.pcs[t].Second? ==> s'.pcs[t].w.n.key == s'.pcs[t].k
    ensures Sane(s') && PcOk(s', u)
  {
    assert PcOk(s, u);
    WorksShape(s, t, s', tbl, w);
    hide Placed, Lookup, BucketOf, DoWork, MapOk, MidOk, ReaderOk, OldOk, NewOk, LocksOk, ProgressOk;
  }

  lemma WorksMids(s: State, t: nat, s': State, k: nat)
    requires Inv(s) && t < |s.pcs| == |s'.pcs| && Updating(s.pcs[t]) && Updating(s'.pcs[t]) && s'.pcs[t].k == s.pcs[t].k
    requires s'.pcs[t].tbl == s.pcs[t].tbl
    requires forall u :: 0 <= u < |s.pcs| && u != t ==> s'.pcs[u] == s.pcs[u]
    requires s'.base == s.base
    ensures k != s.pcs[t].k ==> Mid(s', k) == Mid(s, k)
    ensures Mid(s, s.pcs[t].k) == s.pcs[t].Second? && Mid(s', s.pcs[t].k) == s'.pcs[t].Second?
    ensures Straggler(s', k) == Straggler(s, k) && (Straggler(s, s.pcs[t].k) <==> s.pcs[t].tbl == s.base)
  {
    forall u | 0 <= u < |s.pcs| && Updating(s.pcs[u]) && s.pcs[u].k == s.pcs[t].k
      ensures u == t
    {
      OneUpdater(s, t, u);
    }
    hide Inv;
  }

  // ----- the first list operation

  /** The updater's lookup, in the current table, is right, and so is the table it locked. */
  lemma LockedIsExact(s: State, t: nat)
    requires Inv(s) && t < |s.pcs| && s.pcs[t].Locked?
    ensures !Mid(s, s.pcs[t].k) && s.base <= s.pcs[t].tbl < |s.tables|
    ensures Lookup(s.tables[s.cur], s.pcs[t].k) == Get(s.m, s.pcs[t].k) == Lookup(s.tables[s.pcs[t].tbl], s.pcs[t].k)
  {
    var k := s.pcs[t].k;
    assert PcOk(s, t);
    forall u | 0 <= u < |s.pcs| && Updating(s.pcs[u]) && s.pcs[u].k == k ensures u == t { OneUpdater(s, t, u); }
    CurrentIsExact(s, k);
    assert OldOk(s, k);
    hide Lookup, BucketOf, Placed, NewOk, LocksOk, ProgressOk;
    if s.pcs[t].tbl == s.base { assert Straggler(s, k); }
  }

  lemma FirstWorks(s: State, t: nat, w: Work)
    requires Inv(s) && t < |s.pcs| && s.pcs[t].Locked? && Chosen(s, s.pcs[t].k, w)
    ensures s.base <= s.pcs[t].tbl < |s.tables| && Works(s, t, Applied(s, t, w), s.pcs[t].tbl, w)
    ensures Get(s.m, s.pcs[t].k) == Before(w)
  {
    LockedIsExact(s, t);
    assert MapOk(s);
    hide Lookup, BucketOf, Placed, OldOk, NewOk, LocksOk, ProgressOk, PcOk, ReaderOk, MidOk, Inv, DoWork, Mid;
    assert w.Deleting? ==> Get(s.m, s.pcs[t].k) == Some(w.n);
  }

  lemma FirstMap(s: State, t: nat, w: Work)
    requires Inv(s) && t < |s.pcs| && s.pcs[t].Locked? && Chosen(s, s.pcs[t].k, w)
    requires s.pcs[t].tbl < |s.tables| && |s.tables[s.pcs[t].tbl].bkt| > 0
    ensures var s' := Applied(s, t, w);
      MapOk(s') && Get(s'.m, w.n.key) == After(w) && w.n.key == s.pcs[t].k
      && forall k :: k != w.n.key ==> Get(s'.m, k) == Get(s.m, k)
  {
    FirstWorks(s, t, w);
    hide Lookup, BucketOf, Placed, DoWork, OldOk, NewOk, LocksOk, ProgressOk, PcOk, ReaderOk, MidOk;
    if w.Deleting? { MapKeys(s, w.n); }
  }

  lemma MapKeys(s: State, n: Node)
    requires MapOk(s)
    ensures forall k :: k in s.m && s.m[k] == n ==> k == n.key
  {
  }

  lemma FirstOld(s: State, t: nat, w: Work, k: nat)
    requires Inv(s) && t < |s.pcs| && s.pcs[t].Locked? && Chosen(s, s.pcs[t].k, w)
    requires s.pcs[t].tbl < |s.tables| && |s.tables[s.pcs[t].tbl].bkt| > 0
    ensures Sane(Applied(s, t, w)) && OldOk(Applied(s, t, w), k)
  {
    var s' := Applied(s, t, w);
    FirstWorks(s, t, w);
    FirstMap(s, t, w);
    WorksShape(s, t, s', s.pcs[t].tbl, w);
    assert OldOk(s, k) && PcOk(s, t);
    WorksMids(s, t, s', k);
    hide Lookup, BucketOf, Placed, DoWork, Works, NewOk, LocksOk, ReaderOk, MidOk, Straggler, MapOk, Mid;
  }

  lemma FirstNew(s: State, t: nat, w: Work, k: nat)
    requires Inv(s) && t < |s.pcs| && s.pcs[t].Locked? && Chosen(s, s.pcs[t].k, w)
    requires s.pcs[t].tbl < |s.tables| && |s.tables[s.pcs[t].tbl].bkt| > 0
    ensures Sane(Applied(s, t, w)) && NewOk(Applied(s, t, w), k)
  {
    hide Inv, Lookup, BucketOf, DoWork, Works, OldOk, NewOk, LocksOk, ReaderOk, MidOk, Straggler, MapOk, Mid, Copied;
    hide ProgressOk, PcOk;
    var s' := Applied(s, t, w);
    InvSane(s);
    FirstWorks(s, t, w);
    WorksShape(s, t, s', s.pcs[t].tbl, w);
    if s.rs.Rest? {
      assert NewOk(s', k) by { RestIsNew(s', k); }
    } else if k == s.pcs[t].k {
      FirstNewOwn(s, t, w);
    } else {
      FirstNewOther(s, t, w, k);
    }
  }

  lemma InvSane(s: State)
    requires Inv(s)
    ensures Sane(s)
  {
  }

  lemma RestIsNew(s: State, k: nat)
    requires Sane(s) && s.rs.Rest?
    ensures NewOk(s, k)
  {
  }

  lemma FirstNewOther(s: State, t: nat, w: Work, k: nat)
    requires Inv(s) && t < |s.pcs| && s.pcs[t].Locked? && Chosen(s, s.pcs[t].k, w) && !s.rs.Rest? && k != s.pcs[t].k
    requires s.pcs[t].tbl < |s.tables| && |s.tables[s.pcs[t].tbl].bkt| > 0
    ensures Sane(Applied(s, t, w)) && NewOk(Applied(s, t, w), k)
  {
    hide Inv, Lookup, BucketOf, DoWork, Works, OldOk, LocksOk, ReaderOk, MidOk, Straggler, MapOk, Mid, Copied;
    hide ProgressOk, PcOk;
    var s' := Applied(s, t, w);
    InvSane(s);
    FirstWorks(s, t, w);
    FirstMap(s, t, w);
    WorksShape(s, t, s', s.pcs[t].tbl, w);
    WorksProgress(s, t, s', s.pcs[t].tbl, w);
    WorksMids(s, t, s', k);
    if !Mid(s, k) { NewMeaning(s, k); }
  }

  /** For its own key the updater leaves the new table to its second operation, or does it now. */
  lemma FirstNewOwn(s: State, t: nat, w: Work)
    requires Inv(s) && t < |s.pcs| && s.pcs[t].Locked? && Chosen(s, s.pcs[t].k, w) && !s.rs.Rest?
    requires s.pcs[t].tbl < |s.tables| && |s.tables[s.pcs[t].tbl].bkt| > 0
    ensures Sane(Applied(s, t, w)) && NewOk(Applied(s, t, w), s.pcs[t].k)
  {
    hide Inv, Lookup, BucketOf, DoWork, Works, OldOk, LocksOk, ReaderOk, MidOk, Straggler, MapOk, Mid, Copied;
    hide ProgressOk, PcOk;
    var s', k := Applied(s, t, w), s.pcs[t].k;
    InvSane(s);
    FirstWorks(s, t, w);
    FirstMap(s, t, w);
    WorksShape(s, t, s', s.pcs[t].tbl, w);
    WorksProgress(s, t, s', s.pcs[t].tbl, w);
    WorksMids(s, t, s', k);
    FirstCopied(s, t);
    NewMeaning(s, k);
    PcMeaning(s, t);
    if !s.pcs[t].two {
      if s.pcs[t].tbl == s.base {
        assert Lookup(s'.tables[s.base + 1], k) == Lookup(s.tables[s.base + 1], k) == None;
      } else {
        assert Lookup(s'.tables[s.base + 1], k) == After(w) == Get(s'.m, k);
      }
    }
  }

  lemma NewMeaning(s: State, k: nat)
    requires Inv(s) && !s.rs.Rest? && !Mid(s, k)
    ensures Sane(s) && Lookup(s.tables[s.base + 1], k) == if Copied(s, k) then Get(s.m, k) else None
  {
    assert NewOk(s, k);
  }

  lemma PcMeaning(s: State, t: nat)
    requires Inv(s) && t < |s.pcs| && Updating(s.pcs[t])
    ensures Sane(s) && s.base <= s.pcs[t].tbl <= s.cur < |s.tables|
    ensures Two(s.pcs[t]) ==> !s.rs.Rest? && s.pcs[t].tbl == s.base
  {
    assert PcOk(s, t);
  }

  /** An updater's key is copied exactly if it holds a bucket of the new table. */
  lemma FirstCopied(s: State, t: nat)
    requires Inv(s) && t < |s.pcs| && Updating(s.pcs[t]) && !s.rs.Rest?
    ensures Copied(s, s.pcs[t].k) <==> Two(s.pcs[t]) || s.pcs[t].tbl == s.base + 1
  {
    var k := s.pcs[t].k;
    assert PcOk(s, t);
    if s.rs.Copy? || s.rs.Publish? || s.rs.Release? { assert !Holds(s, s.pcs[t], s.base, s.rs.i); }
    if s.rs.Sync? { InLastBucket(s.tables[s.base], k); }
    hide Lookup, BucketOf, Placed, OldOk, NewOk, ReaderOk, MidOk, MapOk;
  }

  lemma FirstMid(s: State, t: nat, w: Work, u: nat)
    requires Inv(s) && t < |s.pcs| && s.pcs[t].Locked? && Chosen(s, s.pcs[t].k, w) && u < |s.pcs|
    requires s.pcs[t].tbl < |s.tables| && |s.tables[s.pcs[t].tbl].bkt| > 0
    ensures Sane(Applied(s, t, w)) && MidOk(Applied(s, t, w), u)
  {
    hide Inv, Lookup, BucketOf, DoWork, Works, OldOk, NewOk, LocksOk, ReaderOk, Straggler, MapOk, Mid, Copied;
    hide ProgressOk, PcOk;
    var s' := Applied(s, t, w);
    InvSane(s);
    FirstWorks(s, t, w);
    FirstMap(s, t, w);
    WorksShape(s, t, s', s.pcs[t].tbl, w);
    WorksMids(s, t, s', s.pcs[t].k);
    PcMeaning(s, t);
    if u == t {
      if s.pcs[t].two {
        FirstCopied(s, t);
        NewMeaning(s, s.pcs[t].k);
      }
    } else if s.pcs[u].Second? {
      MidMeaning(s, u);
      if s.pcs[u].k == s.pcs[t].k { OneUpdater(s, t, u); }
    }
  }

  lemma MidMeaning(s: State, t: nat)
    requires Inv(s) && t < |s.pcs|
    ensures Sane(s) && MidOk(s, t) && PcOk(s, t)
  {
  }

  lemma FirstReader(s: State, t: nat, w: Work, u: nat)
    requires Inv(s) && t < |s.pcs| && s.pcs[t].Locked? && Chosen(s, s.pcs[t].k, w) && u < |s.pcs|
    requires s.pcs[t].tbl < |s.tables| && |s.tables[s.pcs[t].tbl].bkt| > 0
    ensures Sane(Applied(s, t, w)) && ReaderOk(Applied(s, t, w), u)
  {
    var s' := Applied(s, t, w);
    FirstWorks(s, t, w);
    FirstMap(s, t, w);
    WorksShape(s, t, s', s.pcs[t].tbl, w);
    assert ReaderOk(s, u);
    hide Lookup, BucketOf, Placed, DoWork, Works, OldOk, NewOk, LocksOk, Straggler, MapOk, Mid, Copied, ProgressOk;
    hide MidOk, PcOk;
  }

  lemma AppliedKeepsInv(s: State, t: nat, w: Work)
    requires Inv(s) && t < |s.pcs| && s.pcs[t].Locked? && Chosen(s, s.pcs[t].k, w)
    requires s.pcs[t].tbl < |s.tables| && |s.tables[s.pcs[t].tbl].bkt| > 0
    ensures Inv(Applied(s, t, w))
  {
    hide Lookup, BucketOf, Placed, DoWork, Works, OldOk, NewOk, LocksOk, MapOk, ProgressOk, MidOk, PcOk, ReaderOk;
    hide Chosen;
    var s' := Applied(s, t, w);
    FirstWorks(s, t, w);
    FirstMap(s, t, w);
    WorksLocks(s, t, s', s.pcs[t].tbl, w);
    WorksProgress(s, t, s', s.pcs[t].tbl, w);
    forall u | 0 <= u < |s'.pcs|
      ensures PcOk(s', u) && MidOk(s', u) && ReaderOk(s', u)
    {
      WorksPcs(s, t, s', s.pcs[t].tbl, w, u);
      FirstMid(s, t, w, u);
      FirstReader(s, t, w, u);
    }
    forall k: nat
      ensures OldOk(s', k) && NewOk(s', k)
    {
      FirstOld(s, t, w, k);
      FirstNew(s, t, w, k);
    }
  }

  // ----- the second list operation

  lemma SecondWorks(s: State, t: nat, s': State)
    requires Inv(s) && t < |s.pcs| && SecondStep(s, t, s')
    ensures s.pcs[t].tbl == s.base && s.base + 1 < |s.tables| && Works(s, t, s', s.base + 1, s.pcs[t].w) && s'.m == s.m
    ensures s'.retired == s.retired
    ensures Updating(s'.pcs[t]) && !s'.pcs[t].Second?
  {
    hide Lookup, BucketOf, Placed, DoWork, OldOk, NewOk, LocksOk, ProgressOk, ReaderOk, MapOk;
    assert PcOk(s, t) && MidOk(s, t);
  }

  lemma SecondLookups(s: State, t: nat, s': State, k: nat)
    requires Inv(s) && t < |s.pcs| && SecondStep(s, t, s')
    ensures Sane(s') && OldOk(s', k) && NewOk(s', k)
  {
    hide Lookup, BucketOf, Placed, DoWork, Works, LocksOk, MapOk, ProgressOk, ReaderOk, Mid, Straggler, Copied;
    SecondWorks(s, t, s');
    WorksShape(s, t, s', s.base + 1, s.pcs[t].w);
    WorksProgress(s, t, s', s.base + 1, s.pcs[t].w);
    WorksMids(s, t, s', k);
    assert PcOk(s, t) && MidOk(s, t) && OldOk(s, k) && NewOk(s, k);
    FirstCopied(s, t);
  }

  lemma SecondThreads(s: State, t: nat, s': State, u: nat)
    requires Inv(s) && t < |s.pcs| && SecondStep(s, t, s') && u < |s.pcs|
    ensures Sane(s') && MidOk(s', u) && ReaderOk(s', u)
  {
    hide Lookup, BucketOf, Placed, DoWork, LocksOk, MapOk, ProgressOk, NewOk, OldOk;
    SecondWorks(s, t, s');
    WorksShape(s, t, s', s.base + 1, s.pcs[t].w);
    assert PcOk(s, u) && MidOk(s, u) && ReaderOk(s, u) && PcOk(s, t);
    if u != t && Updating(s.pcs[u]) && s.pcs[u].k == s.pcs[t].k { OneUpdater(s, t, u); }
  }

  lemma SecondKeepsInv(s: State, t: nat, s': State)
    requires Inv(s) && t < |s.pcs| && SecondStep(s, t, s')
    ensures Inv(s')
  {
    hide Lookup, BucketOf, Placed, DoWork, OldOk, NewOk, LocksOk, ProgressOk, MidOk, PcOk, ReaderOk, Works;
    SecondWorks(s, t, s');
    WorksLocks(s, t, s', s.base + 1, s.pcs[t].w);
    WorksProgress(s, t, s', s.base + 1, s.pcs[t].w);
    assert |s'.pcs| == |s.pcs| by { WorksCount(s, t, s', s.base + 1, s.pcs[t].w); }
    forall u | 0 <= u < |s'.pcs|
      ensures PcOk(s', u) && MidOk(s', u) && ReaderOk(s', u)
    {
      WorksPcs(s, t, s', s.base + 1, s.pcs[t].w, u);
      SecondThreads(s, t, s', u);
    }
    forall k: nat
      ensures OldOk(s', k) && NewOk(s', k)
    {
      SecondLookups(s, t, s', k);
    }
  }

  lemma WorksCount(s: State, t: nat, s': State, tbl: nat, w: Work)
    requires Sane(s) && Works(s, t, s', tbl, w)
    ensures |s'.pcs| == |s.pcs|
  {
  }

  // ----- entering and leaving critical sections

  /** s' differs from s in t's control state, and in whom the resizer still waits for. */
  ghost predicate Moves(s: State, t: nat, s': State) {
    t < |s.pcs| == |s'.pcs| && s'.pcs == s.pcs[t := s'.pcs[t]] && s' == s.(pcs := s'.pcs, rs := s'.rs)
    && !s.pcs[t].Second? && !s'.pcs[t].Second? && (s'.pcs[t].Idle? || s'.rs == s.rs)
       && (s'.rs == s.rs || s'.rs == Leaving(s.rs, t))
  }

  lemma MovesLookups(s: State, t: nat, s': State, k: nat)
    requires Inv(s) && Moves(s, t, s')
    requires Updating(s'.pcs[t]) && s'.pcs[t].tbl == s.base ==>
      s.cur == s.base || (Updating(s.pcs[t]) && s.pcs[t].tbl == s.base && s.pcs[t].k == s'.pcs[t].k)
    ensures Sane(s') && OldOk(s', k) && NewOk(s', k)
  {
    hide Lookup, BucketOf, Placed, LocksOk, MapOk, ProgressOk, ReaderOk, MidOk, PcOk;
    assert OldOk(s, k) && NewOk(s, k);
    assert Mid(s', k) == Mid(s, k) by { MovesMid(s, t, s', k); }
    assert Copied(s', k) == Copied(s, k);
  }

  lemma MovesMid(s: State, t: nat, s': State, k: nat)
    requires Moves(s, t, s')
    ensures Mid(s', k) == Mid(s, k)
  {
    if Mid(s, k) {
      var u :| 0 <= u < |s.pcs| && s.pcs[u].Second? && s.pcs[u].k == k;
      assert s'.pcs[u] == s.pcs[u];
    }
  }

  lemma MovesOthers(s: State, t: nat, s': State, u: nat)
    requires Inv(s) && Moves(s, t, s') && u < |s.pcs| && u != t
    ensures Sane(s') && PcOk(s', u) && MidOk(s', u) && ReaderOk(s', u)
  {
    hide Lookup, BucketOf, Placed, LocksOk, MapOk, ProgressOk, NewOk, OldOk;
    assert PcOk(s, u) && MidOk(s, u) && ReaderOk(s, u);
  }

  lemma MovesLocks(s: State, t: nat, s': State)
    requires Inv(s) && Moves(s, t, s')
    requires forall tbl, b :: s.base <= tbl < |s.tables| && Sane(s') && Holds(s', s'.pcs[t], tbl, b) ==>
      Holds(s, s.pcs[t], tbl, b) || Free(s, tbl, b)
    ensures Sane(s') && LocksOk(s') && ProgressOk(s')
  {
    hide Lookup, BucketOf, Placed, MapOk, NewOk, OldOk, PcOk, MidOk, ReaderOk;
    assert forall u, tbl, b :: 0 <= u < |s.pcs| && u != t && s.base <= tbl < |s.tables| ==>
      Holds(s', s'.pcs[u], tbl, b) == Holds(s, s.pcs[u], tbl, b);
  }

  lemma MovesKeepsInv(s: State, t: nat, s': State)
    requires Inv(s) && Moves(s, t, s') && Sane(s') && LocksOk(s') && ProgressOk(s') && PcOk(s', t) && ReaderOk(s', t)
    requires Updating(s'.pcs[t]) && s'.pcs[t].tbl == s.base ==>
      s.cur == s.base || (Updating(s.pcs[t]) && s.pcs[t].tbl == s.base && s.pcs[t].k == s'.pcs[t].k)
    ensures Inv(s')
  {
    hide Lookup, BucketOf, Placed, OldOk, NewOk, LocksOk, ProgressOk, PcOk, ReaderOk, Mid, Holds, Free;
    forall u | 0 <= u < |s'.pcs|
      ensures PcOk(s', u) && MidOk(s', u) && ReaderOk(s', u)
    {
      if u != t { MovesOthers(s, t, s', u); }
    }
    forall k: nat
      ensures OldOk(s', k) && NewOk(s', k)
    {
      MovesLookups(s, t, s', k);
    }
  }

  lemma LockKeepsInv(s: State, t: nat, s': State)
    requires Inv(s) && t < |s.pcs| && LockStep(s, t, s')
    ensures Inv(s')
  {
    hide Lookup, BucketOf, Placed, OldOk, NewOk, ReaderOk, Mid, MapOk;
    assert Moves(s, t, s');
    assert s'.pcs[t].Locked? && s'.pcs[t].tbl == s.cur;
    forall tbl, b | s.base <= tbl < |s.tables| && Holds(s', s'.pcs[t], tbl, b)
      ensures Free(s, tbl, b)
    {
    }
    MovesLocks(s, t, s');
    LockPc(s, t, s');
    assert ReaderOk(s', t) by { NotReading(s', t); }
    MovesKeepsInv(s, t, s');
  }

  lemma NotReading(s: State, t: nat)
    requires Sane(s) && t < |s.pcs| && !s.pcs[t].Reading?
    ensures ReaderOk(s, t)
  {
  }

  lemma LockPc(s: State, t: nat, s': State)
    requires Inv(s) && t < |s.pcs| && LockStep(s, t, s')
    ensures Sane(s') && PcOk(s', t)
  {
    hide Lookup, BucketOf, Placed, OldOk, NewOk, ReaderOk, Mid, MapOk, LocksOk, MidOk, Free;
  }

  /** Leaving, skipping the update, and starting to read. */
  lemma OtherKeepsInv(s: State, t: nat, s': State)
    requires Inv(s) && t < |s.pcs|
    requires OtherStep(s, t, s') || (s.pcs[t].Locked? && s' == Goto(s, t, Done(s.pcs[t].k, s.pcs[t].tbl, s.pcs[t].two)))
    ensures Inv(s')
  {
    hide Lookup, BucketOf, Placed, OldOk, NewOk, ReaderOk, Mid, MapOk, LocksOk, ProgressOk, Free, MidOk;
    assert Moves(s, t, s');
    assert PcOk(s, t);
    MovesLocks(s, t, s');
    assert PcOk(s', t);
    if s'.pcs[t].Reading? { NewReader(s, t, s'); } else { NotReading(s', t); }
    MovesKeepsInv(s, t, s');
  }

  lemma NewReader(s: State, t: nat, s': State)
    requires Inv(s) && t < |s.pcs| && s' == Goto(s, t, Reading(s.cur, s.m))
    ensures Sane(s') && ReaderOk(s', t)
  {
    hide Lookup, BucketOf, LocksOk, ProgressOk, NewOk, MidOk, PcOk;
    forall k: nat | k in s.m
      ensures s.cur == s.base ==> Lookup(s.tables[s.base], k) == Some(s.m[k])
    {
      assert OldOk(s, k);
    }
  }

  // ----- the resizer

  lemma EmptyTable(t: Table)
    requires Allocated(t)
    ensures Placed(t) && forall k :: Lookup(t, k) == None
  {
  }

  lemma StartKeepsInv(s: State, s': State)
    requires Inv(s) && s.rs.Rest? && ResizeStep(s, s')
    ensures Inv(s')
  {
    hide Lookup, BucketOf, Placed, Allocated;
    var t: Table :| Allocated(t) && s' == s.(tables := s.tables + [t], rs := Want(0));
    EmptyTable(t);
    assert s'.tables[s.base] == s.tables[s.base] && s'.tables[s.base + 1] == t;
    assert Sane(s');
    assert ProgressOk(s') by { StartProgress(s, s', t); }
    forall u | 0 <= u < |s.pcs|
      ensures PcOk(s', u) && MidOk(s', u) && ReaderOk(s', u)
    {
      assert PcOk(s, u) && MidOk(s, u) && ReaderOk(s, u);
      StartPc(s, s', t, u);
    }
    StartLocks(s, s', t);
    forall k: nat
      ensures OldOk(s', k) && NewOk(s', k)
    {
      assert OldOk(s, k);
      StartNothingCopied(s', k);
    }
  }

  lemma StartProgress(s: State, s': State, t: Table)
    requires Inv(s) && s.rs.Rest? && Allocated(t) && s' == s.(tables := s.tables + [t], rs := Want(0)) && Sane(s')
    ensures ProgressOk(s')
  {
    hide Lookup, BucketOf, Placed, LocksOk, NewOk, OldOk, MidOk, PcOk, ReaderOk;
  }

  lemma StartPc(s: State, s': State, t: Table, u: nat)
    requires Inv(s) && s.rs.Rest? && s' == s.(tables := s.tables + [t], rs := Want(0)) && Sane(s') && u < |s.pcs|
    ensures PcOk(s', u)
  {
    hide Lookup, Placed, LocksOk, NewOk, OldOk, MidOk, ReaderOk;
    assert PcOk(s, u);
    assert s'.tables[s.base] == s.tables[s.base];
  }

  lemma StartLocks(s: State, s': State, t: Table)
    requires Inv(s) && s.rs.Rest? && s' == s.(tables := s.tables + [t], rs := Want(0)) && Sane(s')
    ensures LocksOk(s')
  {
    hide Lookup, BucketOf, Placed, NewOk, OldOk, MidOk, ReaderOk, ProgressOk;
    assert s'.tables[s.base] == s.tables[s.base];
    forall u, tbl, b | 0 <= u < |s.pcs| && s.base <= tbl < |s'.tables|
      ensures Holds(s', s.pcs[u], tbl, b) <==> tbl == s.base && Holds(s, s.pcs[u], tbl, b)
    {
      assert PcOk(s, u);
    }
  }

  lemma StartNothingCopied(s: State, k: nat)
    requires Sane(s) && s.rs == Want(0) && s.tables[s.base].resizeCur == -1
    ensures !Copied(s, k)
  {
  }

  /** Taking a bucket's lock, dropping it, and ending the loop change nothing that is copied. */
  lemma PacesKeepInv(s: State, s': State)
    requires Inv(s) && ResizeStep(s, s')
    requires s.rs.Want? || s.rs.Release?
      || (s.rs.Copy? && s.rs.i < |s.tables[s.base].bkt| && s.rs.j >= |s.tables[s.base].bkt[s.rs.i]|)
    ensures Inv(s')
  {
    hide Lookup, BucketOf, Placed;
    assert s' == s.(rs := s'.rs);
    assert Sane(s') && ProgressOk(s');
    assert LocksOk(s') by { PacesLocks(s, s'); }
    forall u | 0 <= u < |s.pcs|
      ensures PcOk(s', u) && MidOk(s', u) && ReaderOk(s', u)
    {
      assert PcOk(s, u) && MidOk(s, u) && ReaderOk(s, u);
    }
    forall k: nat
      ensures OldOk(s', k) && NewOk(s', k)
    {
      assert OldOk(s, k) && NewOk(s, k);
      assert Copied(s', k) == Copied(s, k);
    }
  }

  lemma PacesLocks(s: State, s': State)
    requires Inv(s) && ResizeStep(s, s') && (s.rs.Want? || s.rs.Release? || s.rs.Copy?) && s' == s.(rs := s'.rs)
    ensures Sane(s') && LocksOk(s')
  {
    hide Lookup, BucketOf, Placed, NewOk, OldOk, MidOk, ReaderOk, PcOk, ProgressOk;
    assert forall u, tbl, b :: 0 <= u < |s.pcs| && s.base <= tbl < |s.tables| ==>
      Holds(s', s.pcs[u], tbl, b) == Holds(s, s.pcs[u], tbl, b);
  }

  /** Copying one more element. */
  lemma CopyKeepsInv(s: State, s': State)
    requires Inv(s) && ResizeStep(s, s') && s.rs.Copy? && s.rs.i < |s.tables[s.base].bkt|
    requires s.rs.j < |s.tables[s.base].bkt[s.rs.i]|
    ensures Inv(s')
  {
    hide Lookup, BucketOf, Placed, AddTo;
    var n := s.tables[s.base].bkt[s.rs.i][s.rs.j];
    CopyShape(s, s', n);
    assert ProgressOk(s');
    assert LocksOk(s') by { CopyLocks(s, s', n); }
    forall u | 0 <= u < |s.pcs|
      ensures PcOk(s', u) && MidOk(s', u) && ReaderOk(s', u)
    {
      assert PcOk(s, u) && MidOk(s, u) && ReaderOk(s, u);
    }
    forall k: nat
      ensures OldOk(s', k) && NewOk(s', k)
    {
      assert OldOk(s, k) && NewOk(s, k);
      CopyCopied(s, s', n, k);
    }
  }

  /** t' is t with one more node. */
  ghost predicate Gains(t: Table, t': Table, n: Node)
    requires |t.bkt| > 0 && |t'.bkt| > 0
  {
    (forall k :: Lookup(t', k) == if k == n.key then Some(n) else Lookup(t, k))
      && forall k :: BucketOf(t', k) == BucketOf(t, k)
  }

  lemma CopyShape(s: State, s': State, n: Node)
    requires Inv(s) && ResizeStep(s, s') && s.rs.Copy? && s.rs.i < |s.tables[s.base].bkt|
    requires s.rs.j < |s.tables[s.base].bkt[s.rs.i]|
    requires n == s.tables[s.base].bkt[s.rs.i][s.rs.j]
    ensures Sane(s') && s'.tables[s.base] == s.tables[s.base]
    ensures s' == s.(tables := s'.tables, rs := Copy(s.rs.i, s.rs.j + 1)) && |s'.tables| == |s.tables|
    ensures !Mid(s, n.key) && !Copied(s, n.key) && Get(s.m, n.key) == Some(n)
    ensures s'.tables[s.base + 1].resizeCur == s.tables[s.base + 1].resizeCur
    ensures Gains(s.tables[s.base + 1], s'.tables[s.base + 1], n)
  {
    var o, nw := s.tables[s.base], s.tables[s.base + 1];
    NodeLookup(o, s.rs.i, s.rs.j);
    assert BucketOf(o, n.key) == s.rs.i;
    assert OldOk(s, n.key) && NewOk(s, n.key);
    forall t | 0 <= t < |s.pcs| && s.pcs[t].Second?
      ensures s.pcs[t].k != n.key
    {
      assert PcOk(s, t);
    }
    NotCopiedYet(s, n);
    AddLookup(nw, n);
    WorkBuckets(nw, Adding(n));
  }

  lemma NotCopiedYet(s: State, n: Node)
    requires Sane(s) && ProgressOk(s) && s.rs.Copy? && s.rs.j < |s.tables[s.base].bkt[s.rs.i]|
    requires n == s.tables[s.base].bkt[s.rs.i][s.rs.j]
    ensures !Copied(s, n.key)
  {
  }

  lemma CopyLocks(s: State, s': State, n: Node)
    requires Inv(s) && ResizeStep(s, s') && s.rs.Copy? && s.rs.i < |s.tables[s.base].bkt|
    requires s.rs.j < |s.tables[s.base].bkt[s.rs.i]|
    requires n == s.tables[s.base].bkt[s.rs.i][s.rs.j]
    ensures Sane(s') && LocksOk(s')
  {
    hide Lookup, BucketOf, Placed, NewOk, OldOk, MidOk, ReaderOk, PcOk, AddTo;
    CopyShape(s, s', n);
    assert forall u, tbl, b :: 0 <= u < |s.pcs| && s.base <= tbl < |s.tables| ==>
      Holds(s', s.pcs[u], tbl, b) == Holds(s, s.pcs[u], tbl, b);
  }

  lemma CopyCopied(s: State, s': State, n: Node, k: nat)
    requires Sane(s) && Sane(s') && s.rs.Copy? && s' == s.(tables := s'.tables, rs := Copy(s.rs.i, s.rs.j + 1))
    requires s'.tables[s.base] == s.tables[s.base]
    requires s.rs.i < |s.tables[s.base].bkt| && s.rs.j < |s.tables[s.base].bkt[s.rs.i]|
    requires n == s.tables[s.base].bkt[s.rs.i][s.rs.j]
    ensures Copied(s', k) <==> Copied(s, k) || k == n.key
  {
    hide Lookup;
    assert BucketOf(s.tables[s.base], n.key) == s.rs.i;
  }

  /** Advancing ht_resize_cur over a bucket all of whose elements are copied. */
  lemma PublishKeepsInv(s: State, s': State)
    requires Inv(s) && ResizeStep(s, s') && s.rs.Publish?
    ensures Inv(s')
  {
    hide Lookup, BucketOf, Placed;
    PublishShape(s, s');
    assert ProgressOk(s');
    assert LocksOk(s') by { PublishLocks(s, s'); }
    forall u | 0 <= u < |s.pcs|
      ensures PcOk(s', u) && MidOk(s', u) && ReaderOk(s', u)
    {
      assert PcOk(s, u) && MidOk(s, u) && ReaderOk(s, u);
      PublishPc(s, s', u);
    }
    forall k: nat
      ensures OldOk(s', k) && NewOk(s', k)
    {
      assert OldOk(s, k) && NewOk(s, k);
      PublishCopied(s, s', k);
    }
  }

  lemma PublishShape(s: State, s': State)
    requires Inv(s) && ResizeStep(s, s') && s.rs.Publish?
    ensures Sane(s') && s'.tables[s.base + 1] == s.tables[s.base + 1]
    ensures s'.tables[s.base] == s.tables[s.base].(resizeCur := s.rs.i)
    ensures s' == s.(tables := s'.tables, rs := Release(s.rs.i)) && SameLookups(s.tables[s.base], s'.tables[s.base])
  {
  }

  ghost predicate SameLookups(t: Table, t': Table)
    requires |t.bkt| > 0 && |t'.bkt| > 0
  {
    (forall k :: Lookup(t', k) == Lookup(t, k)) && forall k :: BucketOf(t', k) == BucketOf(t, k)
  }

  lemma PublishLocks(s: State, s': State)
    requires Inv(s) && ResizeStep(s, s') && s.rs.Publish?
    ensures Sane(s') && LocksOk(s')
  {
    hide Lookup, BucketOf, Placed, NewOk, OldOk, MidOk, ReaderOk, PcOk;
    PublishShape(s, s');
    assert forall u, tbl, b :: 0 <= u < |s.pcs| && s.base <= tbl < |s.tables| ==>
      Holds(s', s.pcs[u], tbl, b) == Holds(s, s.pcs[u], tbl, b);
  }

  lemma PublishPc(s: State, s': State, u: nat)
    requires Inv(s) && ResizeStep(s, s') && s.rs.Publish? && u < |s.pcs|
    ensures Sane(s') && PcOk(s', u)
  {
    hide Lookup, BucketOf, Placed, NewOk, OldOk, MidOk, ReaderOk;
    PublishShape(s, s');
    assert PcOk(s, u);
    assert !Holds(s, s.pcs[u], s.base, s.rs.i);
  }

  /** A key of the bucket is copied now if it is present, and absent otherwise. */
  lemma PublishCopied(s: State, s': State, k: nat)
    requires Inv(s) && ResizeStep(s, s') && s.rs.Publish?
    ensures Sane(s') && (Copied(s', k) <==> Copied(s, k) || BucketOf(s.tables[s.base], k) == s.rs.i)
    ensures Copied(s', k) && !Copied(s, k) ==> Get(s.m, k) == None
  {
    PublishShape(s, s');
    assert OldOk(s, k);
    FindMeaning(s.tables[s.base].bkt[BucketOf(s.tables[s.base], k)], k);
    hide Placed;
  }

  lemma SwitchKeepsInv(s: State, s': State)
    requires Inv(s) && ResizeStep(s, s') && s.rs.Switch?
    ensures Inv(s')
  {
    hide Lookup, BucketOf, Placed;
    assert Sane(s') && ProgressOk(s');
    assert LocksOk(s') by { SwitchLocks(s, s'); }
    forall u | 0 <= u < |s.pcs|
      ensures PcOk(s', u) && MidOk(s', u) && ReaderOk(s', u)
    {
      assert PcOk(s, u) && MidOk(s, u) && ReaderOk(s, u);
    }
    forall k: nat
      ensures OldOk(s', k) && NewOk(s', k)
    {
      assert OldOk(s, k) && NewOk(s, k);
    }
  }

  lemma SwitchLocks(s: State, s': State)
    requires Inv(s) && ResizeStep(s, s') && s.rs.Switch?
    ensures Sane(s') && LocksOk(s')
  {
    hide Lookup, BucketOf, Placed, NewOk, OldOk, MidOk, ReaderOk, PcOk, ProgressOk;
    assert forall u, tbl, b :: 0 <= u < |s.pcs| && s.base <= tbl < |s.tables| ==>
      Holds(s', s.pcs[u], tbl, b) == Holds(s, s.pcs[u], tbl, b);
  }

  /** Once everyone waited for has left, nobody is on the old table and it can be freed. */
  lemma NobodyOnOld(s: State)
    requires Inv(s) && s.rs == Sync({})
    ensures forall t :: 0 <= t < |s.pcs| && !s.pcs[t].Idle? ==> s.pcs[t].tbl == s.base + 1 && !s.pcs[t].Second?
    ensures forall k: nat :: !Mid(s, k) && Lookup(s.tables[s.base + 1], k) == Get(s.m, k)
  {
    hide Lookup, BucketOf, OldOk, NewOk, LocksOk, MidOk, ReaderOk;
    forall t | 0 <= t < |s.pcs| && !s.pcs[t].Idle?
      ensures s.pcs[t].tbl == s.base + 1 && !s.pcs[t].Second?
    {
      assert PcOk(s, t);
    }
    forall k: nat
      ensures !Mid(s, k) && Lookup(s.tables[s.base + 1], k) == Get(s.m, k)
    {
      assert !Mid(s, k);
      CurrentIsExact(s, k);
    }
  }

  lemma FinishKeepsInv(s: State, s': State)
    requires Inv(s) && ResizeStep(s, s') && s.rs.Sync?
    ensures Inv(s')
  {
    hide Lookup, BucketOf, Placed;
    NobodyOnOld(s);
    assert Sane(s') && ProgressOk(s');
    assert LocksOk(s') by { FinishLocks(s, s'); }
    forall u | 0 <= u < |s.pcs|
      ensures PcOk(s', u) && MidOk(s', u) && ReaderOk(s', u)
    {
      assert PcOk(s, u) && ReaderOk(s, u);
    }
  }

  lemma FinishLocks(s: State, s': State)
    requires Inv(s) && ResizeStep(s, s') && s.rs.Sync?
    ensures Sane(s') && LocksOk(s')
  {
    hide Lookup, BucketOf, Placed, NewOk, OldOk, MidOk, ReaderOk, PcOk, ProgressOk;
    var tbl := s.base + 1;
    assert forall u, b :: 0 <= u < |s.pcs| && Holds(s', s.pcs[u], tbl, b) ==> Holds(s, s.pcs[u], tbl, b);
  }

  // ----- runs

  lemma StepKeepsInv(s: State, e: Event, s': State)
    requires Inv(s) && Step(s, e, s')
    ensures Inv(s')
  {
    hide Lookup, BucketOf, Placed, OldOk, NewOk, LocksOk, MidOk, ReaderOk, PcOk, ProgressOk, LockStep, SecondStep;
    hide OtherStep, ResizeStep;
    match e {
      case Thread(t) =>
        if LockStep(s, t, s') {
          LockKeepsInv(s, t, s');
        } else if SecondStep(s, t, s') {
          SecondKeepsInv(s, t, s');
        } else if OtherStep(s, t, s') {
          OtherKeepsInv(s, t, s');
        } else {
          FirstKeepsInv(s, t, s');
        }
      case Resize =>
        ResizeKeepsInv(s, s');
    }
  }

  lemma FirstKeepsInv(s: State, t: nat, s': State)
    requires Inv(s) && t < |s.pcs| && FirstStep(s, t, s')
    ensures Inv(s')
  {
    hide Lookup, BucketOf, Placed, OldOk, NewOk, LocksOk, MidOk, ReaderOk, PcOk, ProgressOk, Chosen;
    if s' == Goto(s, t, Done(s.pcs[t].k, s.pcs[t].tbl, s.pcs[t].two)) {
      OtherKeepsInv(s, t, s');
    } else {
      var w: Work :| Chosen(s, s.pcs[t].k, w) && s' == Applied(s, t, w);
      AppliedKeepsInv(s, t, w);
    }
  }

  lemma ResizeKeepsInv(s: State, s': State)
    requires Inv(s) && ResizeStep(s, s')
    ensures Inv(s')
  {
    hide Inv, BucketOf, AddTo, Free, Allocated;
    match s.rs {
      case Rest => StartKeepsInv(s, s');
      case Want(_) => PacesKeepInv(s, s');
      case Copy(i, j) => if j < |s.tables[s.base].bkt[i]| { CopyKeepsInv(s, s'); } else { PacesKeepInv(s, s'); }
      case Publish(_) => PublishKeepsInv(s, s');
      case Release(_) => PacesKeepInv(s, s');
      case Switch => SwitchKeepsInv(s, s');
      case Sync(_) => FinishKeepsInv(s, s');
    }
  }

  lemma InitInv(s: State)
    requires Init(s)
    ensures Inv(s)
  {
    hide Lookup, BucketOf, Placed, Allocated;
    EmptyTable(s.tables[0]);
    assert ProgressOk(s) by { InitProgress(s); }
  }

  lemma InitProgress(s: State)
    requires Init(s) && Sane(s)
    ensures ProgressOk(s)
  {
  }

  lemma {:induction false} RunInv(run: seq<State>, events: seq<Event>, i: nat)
    requires IsRun(run, events) && i < |run|
    ensures Inv(run[i])
  {
    hide Inv, Step, Init;
    if i == 0 {
      InitInv(run[0]);
    } else {
      RunInv(run, events, i - 1);
      assert Step(run[i - 1], events[i - 1], run[i - 1 + 1]);
      StepKeepsInv(run[i - 1], events[i - 1], run[i]);
    }
  }

  // ----- what holds in every run

  /** Lookup through the current table equals the map, at every moment of every run, for exactly
      the keys no updater is in the middle of while ht_cur already names the new table. */
  lemma LookupExactness(run: seq<State>, events: seq<Event>, i: nat, k: nat)
    requires IsRun(run, events) && i < |run|
    ensures Sane(run[i])
    ensures Lookup(run[i].tables[run[i].cur], k) == Get(run[i].m, k) <==> !(run[i].rs.Sync? && Mid(run[i], k))
  {
    hide Placed, LocksOk, ReaderOk, ProgressOk;
    RunInv(run, events, i);
    var s := run[i];
    if !Mid(s, k) {
      CurrentIsExact(s, k);
    } else {
      var t :| 0 <= t < |s.pcs| && s.pcs[t].Second? && s.pcs[t].k == k;
      assert PcOk(s, t) && MidOk(s, t) && OldOk(s, k);
    }
  }

  /** Up to the bucket copied last the two tables agree; of the bucket being copied the new table
      has the elements before the resizer's position, and of later buckets nothing. */
  lemma CopiedBucketsAgree(run: seq<State>, events: seq<Event>, i: nat, k: nat)
    requires IsRun(run, events) && i < |run| && !run[i].rs.Rest? && !run[i].rs.Sync? && !Mid(run[i], k)
    ensures Sane(run[i])
    ensures var s := run[i];
      var o, b := s.tables[s.base], BucketOf(s.tables[s.base], k);
      var copied := b <= o.resizeCur
        || (s.rs.Copy? && b == s.rs.i && exists p :: 0 <= p < s.rs.j && p < |o.bkt[b]| && o.bkt[b][p].key == k)
        || (s.rs.Publish? && b == s.rs.i);
      Lookup(s.tables[s.base + 1], k) == if copied then Lookup(o, k) else None
  {
    RunInv(run, events, i);
    assert OldOk(run[i], k) && NewOk(run[i], k);
    var s := run[i];
    var o := s.tables[s.base];
    if s.rs.Publish? && BucketOf(o, k) == s.rs.i { FindMeaning(o.bkt[s.rs.i], k); }
  }

  /** Thread t enters a reader's critical section with event a and is still in it at i. */
  ghost predicate InSection(run: seq<State>, events: seq<Event>, t: nat, a: nat, i: nat) {
    IsRun(run, events) && a < i < |run| && events[a] == Thread(t) && t < |run[a].pcs| && run[a].pcs[t].Idle?
    && forall x :: a < x <= i ==> t < |run[x].pcs| && run[x].pcs[t].Reading?
  }

  lemma SectionStep(s: State, e: Event, s': State, t: nat)
    requires Step(s, e, s') && t < |s.pcs| && t < |s'.pcs| && s'.pcs[t].Reading?
    ensures s.pcs[t].Reading? ==> s'.pcs[t] == s.pcs[t]
    ensures s.pcs[t].Idle? ==> s'.pcs[t] == Reading(s.cur, s.m)
  {
    hide BucketOf, Lookup, DoWork, Free, Placed, AddTo, Allocated, Chosen;
  }

  /** A section looks at the table that was current, and remembers the map there was, when it
      was entered. */
  lemma {:induction false} SectionRemembers(run: seq<State>, events: seq<Event>, t: nat, a: nat, i: nat)
    requires InSection(run, events, t, a, i)
    ensures run[i].pcs[t] == Reading(run[a].cur, run[a].m)
    decreases i
  {
    hide Init, Step;
    assert Step(run[i - 1], events[i - 1], run[i - 1 + 1]);
    SectionStep(run[i - 1], events[i - 1], run[i], t);
    if i > a + 1 { SectionRemembers(run, events, t, a, i - 1); }
  }

  /** A reader still on the table that was current when its section began finds every element
      that was present then and has not been deleted. */
  lemma OldReaderFindsPresent(run: seq<State>, events: seq<Event>, a: nat, i: nat, t: nat, k: nat)
    requires InSection(run, events, t, a, i) && run[a].cur == run[i].base
    requires k in run[a].m && run[a].m[k] !in run[i].retired
    ensures Sane(run[i]) && Lookup(run[i].tables[run[i].base], k) == Some(run[a].m[k])
  {
    SectionRemembers(run, events, t, a, i);
    RunInv(run, events, i);
    assert ReaderOk(run[i], t);
  }

  /** An updater that holds its locks can always do what it was called for: add a new node if
      its key is absent, or delete the node that is present.  Nothing else changes. */
  lemma UpdateIsPossible(run: seq<State>, events: seq<Event>, i: nat, t: nat, w: Work)
    requires IsRun(run, events) && i < |run| && t < |run[i].pcs| && run[i].pcs[t].Locked? && run[i].pcs[t].k == w.n.key
    requires Get(run[i].m, w.n.key) == Before(w)
    requires w.Adding? ==> w.n !in run[i].retired && w.n !in run[i].m.Values
    ensures exists s' ::
      Step(run[i], Thread(t), s') && Get(s'.m, w.n.key) == After(w)
      && forall k :: k != w.n.key ==> Get(s'.m, k) == Get(run[i].m, k)
  {
    hide Lookup, BucketOf, DoWork, OldOk, NewOk, LocksOk, ProgressOk, ReaderOk, MidOk;
    var s := run[i];
    RunInv(run, events, i);
    LockedIsExact(s, t);
    assert Chosen(s, s.pcs[t].k, w);
    FirstMap(s, t, w);
    var s' := Applied(s, t, w);
    assert FirstStep(s, t, s');
    assert Step(s, Thread(t), s');
  }

  /** When hashtab_resize frees the old table, no critical section refers to it. */
  lemma FreeIsSafe(run: seq<State>, events: seq<Event>, i: nat, t: nat)
    requires IsRun(run, events) && i < |events| && run[i].rs.Sync? && events[i] == Resize && t < |run[i + 1].pcs|
    requires !run[i + 1].pcs[t].Idle?
    ensures run[i + 1].base == run[i].base + 1 && run[i + 1].pcs[t].tbl == run[i + 1].base == run[i + 1].cur
  {
    hide Inv;
    RunInv(run, events, i);
    assert Step(run[i], Resize, run[i + 1]);
    NobodyOnOld(run[i]);
  }

  /** The exception is real: an updater that takes its locks while the old table is current can
      be between its two list operations when ht_cur changes.  Readers of the old table have
      seen its element; lookups through the current table then miss it. */
  lemma StraddlingAdd() returns (run: seq<State>, events: seq<Event>)
    ensures IsRun(run, events) && |events| == 9
    ensures Sane(run[8]) && Sane(run[9]) && run[8].m == run[9].m && 0 in run[8].m && run[8].cur != run[9].cur
    ensures Lookup(run[8].tables[run[8].cur], 0) == Some(run[8].m[0]) && Lookup(run[9].tables[run[9].cur], 0) == None
  {
    hide Step, Init, Sane, Lookup;
    var h := (k: nat) => 0;
    var e := Table(h, [[]], -1);
    var done := Table(h, [[]], 0);
    var n := Node(0, 0);
    var s0 := State([e], 0, 0, [Idle], Rest, map[], {});
    var s1 := s0.(tables := [e, e], rs := Want(0));
    var s2 := s1.(rs := Copy(0, 0));
    var s3 := s1.(rs := Publish(0));
    var s4 := s1.(tables := [done, e], rs := Release(0));
    var s5 := s4.(rs := Want(1));
    var s6 := s5.(pcs := [Locked(0, 0, true)]);
    var s7 := s6.(tables := [Table(h, [[n]], 0), e], pcs := [Second(0, 0, Adding(n))], m := map[0 := n]);
    var s8 := s7.(rs := Switch);
    var s9 := s7.(cur := 1, rs := Sync({0}));
    run := [s0, s1, s2, s3, s4, s5, s6, s7, s8, s9];
    events := [Resize, Resize, Resize, Resize, Resize, Thread(0), Thread(0), Resize, Resize];
    StraddlingPrefix(h, e, done, s0, s1, s2, s3, s4, s5);
    StraddlingUpdate(h, e, n, s5, s6, s7);
    StraddlingSwitch(h, e, n, s7, s8, s9);
  }

  lemma StraddlingSwitch(h: nat -> nat, e: Table, n: Node, s7: State, s8: State, s9: State)
    requires h(0) == 0 && e == Table(h, [[]], -1) && n == Node(0, 0)
    requires s7 == State([Table(h, [[n]], 0), e], 0, 0, [Second(0, 0, Adding(n))], Want(1), map[0 := n], {})
    requires s8 == s7.(rs := Switch) && s9 == s7.(cur := 1, rs := Sync({0}))
    ensures Step(s7, Resize, s8) && Step(s8, Resize, s9)
    ensures Sane(s8) && Sane(s9) && Lookup(s8.tables[0], 0) == Some(n) && Lookup(s9.tables[1], 0) == None
  {
    assert Sane(s7) && Sane(s8) && Sane(s9);
    assert s9 == s8.(cur := 1, rs := Sync(set t | 0 <= t < |s8.pcs| && !s8.pcs[t].Idle?));
  }

  lemma StraddlingPrefix(h: nat -> nat, e: Table, done: Table, s0: State, s1: State, s2: State, s3: State, s4: State,
      s5: State)
    requires e == Table(h, [[]], -1) && done == Table(h, [[]], 0) && s0 == State([e], 0, 0, [Idle], Rest, map[], {})
    requires s1 == s0.(tables := [e, e], rs := Want(0)) && s2 == s1.(rs := Copy(0, 0)) && s3 == s1.(rs := Publish(0))
    requires s4 == s1.(tables := [done, e], rs := Release(0)) && s5 == s4.(rs := Want(1))
    ensures Init(s0) && Step(s0, Resize, s1) && Step(s1, Resize, s2) && Step(s2, Resize, s3) && Step(s3, Resize, s4)
    ensures Step(s4, Resize, s5)
  {
    assert Allocated(e) && s1 == s0.(tables := s0.tables + [e], rs := Want(0));
    assert Free(s1, 0, 0);
    assert s4 == SetTable(s3, 0, s3.tables[0].(resizeCur := 0)).(rs := Release(0));
  }

  lemma StraddlingUpdate(h: nat -> nat, e: Table, n: Node, s5: State, s6: State, s7: State)
    requires h(0) == 0 && e == Table(h, [[]], -1) && n == Node(0, 0)
    requires s5 == State([Table(h, [[]], 0), e], 0, 0, [Idle], Want(1), map[], {})
    requires s6 == s5.(pcs := [Locked(0, 0, true)])
    requires s7 == s6.(tables := [Table(h, [[n]], 0), e], pcs := [Second(0, 0, Adding(n))], m := map[0 := n])
    ensures Step(s5, Thread(0), s6) && Step(s6, Thread(0), s7)
  {
    var k: nat := 0;
    assert BucketOf(s5.tables[0], k) == 0 == BucketOf(s5.tables[1], k);
    assert Free(s5, 0, 0) && Free(s5, 1, 0);
    assert s6 == Goto(s5, 0, Locked(k, s5.cur, true));
    assert LockStep(s5, 0, s6);
    assert Lookup(s6.tables[0], 0) == None;
    assert Chosen(s6, 0, Adding(n));
    assert AddTo(s6.tables[0], n) == Table(h, [[n]], 0) by {
      assert [n] + [] == [n];
      assert s6.tables[0].bkt[0 := [n]] == [[n]];
    }
    assert s6.tables[0 := Table(h, [[n]], 0)] == s7.tables;
    assert s6.m[0 := n] == s7.m;
    assert s7 == Applied(s6, 0, Adding(n));
  }

  /** An updater or reader can always take its next step, and so can the resizer unless it waits
      for a bucket lock or for the critical sections that were open at the switch. */
  lemma NobodyIsStuck(run: seq<State>, events: seq<Event>, i: nat)
    requires IsRun(run, events) && i < |run|
    ensures forall t :: 0 <= t < |run[i].pcs| && !run[i].pcs[t].Idle? ==>
      exists s' :: Step(run[i], Thread(t), s') && t < |s'.pcs| && s'.pcs[t] != run[i].pcs[t]
    ensures !ResizerWaits(run[i]) ==> exists s' :: Step(run[i], Resize, s') && s'.rs != run[i].rs
  {
    RunInv(run, events, i);
    forall t | 0 <= t < |run[i].pcs| && !run[i].pcs[t].Idle?
      ensures exists s' :: Step(run[i], Thread(t), s') && t < |s'.pcs| && s'.pcs[t] != run[i].pcs[t]
    {
      ThreadMoves(run[i], t);
    }
    if !ResizerWaits(run[i]) { ResizerMoves(run[i]); }
  }

  /** The resizer wants a bucket lock that is taken, or some section it must wait for is open. */
  ghost predicate ResizerWaits(s: State) {
    Sane(s)
    && match s.rs
       case Want(i) => i < |s.tables[s.base].bkt| && !Free(s, s.base, i)
       case Copy(i, j) =>
         i < |s.tables[s.base].bkt| && j < |s.tables[s.base].bkt[i]|
         && !Free(s, s.base + 1, BucketOf(s.tables[s.base + 1], s.tables[s.base].bkt[i][j].key))
       case Sync(waiting) => waiting != {}
       case _ => false
  }

  lemma ThreadMoves(s: State, t: nat)
    requires Inv(s) && t < |s.pcs| && !s.pcs[t].Idle?
    ensures exists s' :: Step(s, Thread(t), s') && t < |s'.pcs| && s'.pcs[t] != s.pcs[t]
  {
    hide Lookup, BucketOf, OldOk, NewOk, LocksOk, ReaderOk, MidOk, MapOk, DoWork;
    assert PcOk(s, t);
    var s' := match s.pcs[t]
      case Locked(k, tbl, two) => Goto(s, t, Done(k, tbl, two))
      case Second(k, tbl, w) => SetTable(Goto(s, t, Done(k, tbl, true)), tbl + 1, DoWork(s.tables[tbl + 1], w))
      case Done(_, _, _) => Goto(s, t, Idle).(rs := Leaving(s.rs, t))
      case Reading(_, _) => Goto(s, t, Idle).(rs := Leaving(s.rs, t))
      case Idle => s;
    assert FirstStep(s, t, s') || SecondStep(s, t, s') || OtherStep(s, t, s');
    assert Step(s, Thread(t), s');
  }

  lemma ResizerMoves(s: State)
    requires Inv(s) && !ResizerWaits(s)
    ensures exists s' :: Step(s, Resize, s') && s'.rs != s.rs
  {
    hide Lookup, BucketOf, OldOk, NewOk, LocksOk, ReaderOk, MidOk, MapOk, PcOk, AddTo, Free;
    var o := s.tables[s.base];
    var empty := Table(o.hash, [[]], -1);
    var s' := match s.rs
      case Rest => s.(tables := s.tables + [empty], rs := Want(0))
      case Want(i) => s.(rs := if i < |o.bkt| then Copy(i, 0) else Switch)
      case Copy(i, j) =>
        if j < |o.bkt[i]| then
          SetTable(s, s.base + 1, AddTo(s.tables[s.base + 1], o.bkt[i][j])).(rs := Copy(i, j + 1))
        else s.(rs := Publish(i))
      case Publish(i) => SetTable(s, s.base, o.(resizeCur := i)).(rs := Release(i))
      case Release(i) => s.(rs := Want(i + 1))
      case Switch => s.(cur := s.base + 1, rs := Sync(set t | 0 <= t < |s.pcs| && !s.pcs[t].Idle?))
      case Sync(_) => s.(base := s.base + 1, rs := Rest);
    assert s.rs.Rest? ==> Allocated(empty);
    assert ResizeStep(s, s');
    assert Step(s, Resize, s');
  }

  /** A call that finds its bucket locks free can take them: of the current table, and also of
      the next one if its bucket has been copied. */
  lemma LockIsPossible(run: seq<State>, events: seq<Event>, i: nat, t: nat, k: nat)
    requires IsRun(run, events) && i < |run| && t < |run[i].pcs| && run[i].pcs[t].Idle? && Sane(run[i])
    requires Free(run[i], run[i].cur, BucketOf(run[i].tables[run[i].cur], k))
    requires run[i].cur + 1 < |run[i].tables| ==>
      Free(run[i], run[i].cur + 1, BucketOf(run[i].tables[run[i].cur + 1], k))
    ensures exists s' :: Step(run[i], Thread(t), s') && t < |s'.pcs| && s'.pcs[t].Locked? && s'.pcs[t].k == k
  {
    hide Lookup, Free, OldOk, NewOk, LocksOk, ReaderOk, MidOk, MapOk, PcOk;
    var s := run[i];
    RunInv(run, events, i);
    var o := s.tables[s.cur];
    var two := BucketOf(o, k) <= o.resizeCur;
    var s' := Goto(s, t, Locked(k, s.cur, two));
    assert LockStep(s, t, s') by {
      assert two ==> s.cur + 1 < |s.tables|;
    }
    assert Step(s, Thread(t), s');
  }
}
