/** The hashed deque of SMPdesign/lockhdeq.c as a state machine: one transition per lock
    operation, per access to an end index, and per locked operation on one bucket.
 */
module HashedDeque {
  import opened Common
  import opened DequeSpec

  const PDEQ_N_BKTS: nat := 4

  function MoveLeft(idx: int): (i: int)
    ensures 0 <= i < PDEQ_N_BKTS
  {
    (idx - 1) % PDEQ_N_BKTS
  }

  function MoveRight(idx: int): (i: int)
    ensures 0 <= i < PDEQ_N_BKTS
  {
    (idx + 1) % PDEQ_N_BKTS
  }

  /** Where a thread is in its pdeq_ operation. */
  datatype Pc =
    | Idle
    | Want(op: Op)                                  // about to take the side's lock
    | Have(op: Op)                                  // about to do the bucket operation
    | Record(op: Op, e: Option<nat>, i: int)        // about to store the side's index
    | Release(op: Op, e: Option<nat>)               // about to drop the lock and return e

  /** calls counts the operations the thread has returned from. */
  datatype Thread = Thread(pc: Pc, calls: nat)

  /** bkt[b] lists bucket b's chain from its head.  log records each bucket operation, and left
      is the unwrapped value of the left index. */
  datatype State = State(lidx: int, ridx: int, llock: Option<nat>, rlock: Option<nat>,
                         bkt: seq<seq<nat>>, threads: seq<Thread>, log: seq<Entry>, left: int)

  function LockOf(s: State, side: Side): Option<nat> { if side == L then s.llock else s.rlock }

  function SetLock(s: State, side: Side, h: Option<nat>): State {
    if side == L then s.(llock := h) else s.(rlock := h)
  }

  function Goto(s: State, t: nat, pc: Pc): State
    requires t < |s.threads|
  {
    s.(threads := s.threads[t := s.threads[t].(pc := pc)])
  }

  // ----- the single-lock deq of one bucket

  function DeqPop(chain: seq<nat>, side: Side): (seq<nat>, Option<nat>) {
    if chain == [] then (chain, None)
    else if side == L then (chain[..|chain| - 1], Some(chain[|chain| - 1]))
    else (chain[1..], Some(chain[0]))
  }

  function DeqPush(chain: seq<nat>, side: Side, x: nat): seq<nat> {
    if side == L then chain + [x] else [x] + chain
  }

  // ----- transitions

  /** The bucket operation, which also decides the index to record. */
  function Access(s: State, t: nat): State
    requires t < |s.threads| && s.threads[t].pc.Have? && |s.bkt| == PDEQ_N_BKTS && 0 <= s.lidx < PDEQ_N_BKTS
    requires 0 <= s.ridx < PDEQ_N_BKTS
  {
    var op := s.threads[t].pc.op;
    match op
    case Pop(side) =>
      var i := if side == L then MoveRight(s.lidx) else MoveLeft(s.ridx);
      var (chain, e) := DeqPop(s.bkt[i], side);
      Logged(s, t, op, e, if e == None then Release(op, e) else Record(op, e, i)).(bkt := s.bkt[i := chain])
    case Push(side, x) =>
      var i := if side == L then s.lidx else s.ridx;
      Logged(s, t, op, None, Record(op, None, if side == L then MoveLeft(i) else MoveRight(i))).(
        bkt := s.bkt[i := DeqPush(s.bkt[i], side, x)])
  }

  function Logged(s: State, t: nat, op: Op, e: Option<nat>, pc: Pc): State
    requires t < |s.threads|
  {
    Goto(s, t, pc).(log := s.log + [Entry(t, op, e)], left := NewLeft(s.left, op, e))
  }

  function NewLeft(left: int, op: Op, e: Option<nat>): int {
    if op.side == R then left else if op.Push? then left - 1 else if e == None then left else left + 1
  }

  predicate Sane(s: State) { |s.bkt| == PDEQ_N_BKTS && 0 <= s.lidx < PDEQ_N_BKTS && 0 <= s.ridx < PDEQ_N_BKTS }

  ghost predicate Step(s: State, t: nat, s': State) {
    t < |s.threads| &&
    match s.threads[t].pc
    case Idle => exists op :: s' == Goto(s, t, Want(op))
    case Want(op) => LockOf(s, op.side) == None && s' == SetLock(Goto(s, t, Have(op)), op.side, Some(t))
    case Have(op) => Sane(s) && s' == Access(s, t)
    case Record(op, e, i) =>
      s' == if op.side == L then Goto(s, t, Release(op, e)).(lidx := i) else Goto(s, t, Release(op, e)).(ridx := i)
    case Release(op, e) =>
      s' == SetLock(s.(threads := s.threads[t := Thread(Idle, s.threads[t].calls + 1)]), op.side, None)
  }

  ghost predicate Init(s: State) {
    s.lidx == 0 && s.ridx == 1 && s.llock == None && s.rlock == None && s.bkt == [[], [], [], []]
    && s.log == [] && s.left == 0 && forall t :: 0 <= t < |s.threads| ==> s.threads[t] == Thread(Idle, 0)
  }

  ghost predicate IsRun(run: seq<State>, who: seq<nat>) {
    |run| == |who| + 1 && Init(run[0]) && forall i :: 0 <= i < |who| ==> Step(run[i], who[i], run[i + 1])
  }

  // ----- what the buckets hold

  /** The elements of a whose logical positions are congruent to b, a[0] being at position
      start, from the rightmost to the leftmost. */
  function InBucket(a: seq<nat>, start: int, b: int): (chain: seq<nat>) {
    if a == [] then []
    else if start % PDEQ_N_BKTS == b then InBucket(a[1..], start + 1, b) + [a[0]]
    else InBucket(a[1..], start + 1, b)
  }

  /** Adding at the right end adds at the head of one bucket. */
  lemma {:induction false} InBucketRight(a: seq<nat>, x: nat, start: int, b: int)
    ensures InBucket(a + [x], start, b) == (if (start + |a|) % PDEQ_N_BKTS == b then [x] else [])
      + InBucket(a, start, b)
  {
    var longer := a + [x];
    if a == [] {
      assert longer[1..] == [];
    } else {
      assert longer[1..] == a[1..] + [x];
      InBucketRight(a[1..], x, start + 1, b);
    }
  }

  /** Logical position of the slot the right index names. */
  function Right(s: State): int { s.left + 1 + |Replay(s.log)| }

  /** The bucket of the slot just beyond an end; its neighbours' buckets are one step away. */
  function Bucket(position: int): int { position % PDEQ_N_BKTS }

  lemma BucketMoves(position: int)
    ensures MoveLeft(Bucket(position)) == Bucket(position - 1) && MoveRight(Bucket(position)) == Bucket(position + 1)
    ensures 0 <= Bucket(position) < PDEQ_N_BKTS
  {
  }

  // ----- the invariant

  predicate Holds(pc: Pc, side: Side) { (pc.Have? || pc.Record? || pc.Release?) && pc.op.side == side }

  /** The side's lock is held by t exactly when t is inside an operation on that side. */
  ghost predicate LocksOk(s: State) {
    forall t: nat :: t < |s.threads| ==>
      (Holds(s.threads[t].pc, L) <==> s.llock == Some(t)) && (Holds(s.threads[t].pc, R) <==> s.rlock == Some(t))
  }

  /** A side's index names its slot, once an operation past its bucket access has recorded it. */
  ghost predicate IndexOk(s: State, t: nat)
    requires t < |s.threads|
  {
    var pc := s.threads[t].pc;
    (pc.Record? && pc.op.side == L ==> pc.i == Bucket(s.left))
      && (pc.Record? && pc.op.side == R ==> pc.i == Bucket(Right(s)))
    && ((pc.Have? || pc.Release?) && pc.op.side == L ==> s.lidx == Bucket(s.left))
    && ((pc.Have? || pc.Release?) && pc.op.side == R ==> s.ridx == Bucket(Right(s)))
  }

  /** Each bucket holds, in order, exactly the elements at its logical positions. */
  ghost predicate BucketsOk(s: State) {
    |s.bkt| == PDEQ_N_BKTS && forall b :: 0 <= b < PDEQ_N_BKTS ==> s.bkt[b] == InBucket(Replay(s.log), s.left + 1, b)
  }

  /** A thread past its bucket operation is about to return what it logged; every other logged
      operation has returned. */
  ghost predicate CallOk(s: State, t: nat)
    requires t < |s.threads|
  {
    var pc := s.threads[t].pc;
    if pc.Record? || pc.Release? then
      CountOf(s.log, t) == s.threads[t].calls + 1 && LatestOf(s.log, t) == Some(Entry(t, pc.op, pc.e))
    else CountOf(s.log, t) == s.threads[t].calls
  }

  ghost predicate Inv(s: State) {
    Sane(s) && LocksOk(s) && BucketsOk(s) && Legal(s.log)
    && (s.llock == None ==> s.lidx == Bucket(s.left)) && (s.rlock == None ==> s.ridx == Bucket(Right(s)))
    && forall t :: 0 <= t < |s.threads| ==> IndexOk(s, t) && CallOk(s, t)
  }

  // ----- the bucket operation is the sequential one

  /** Bucket b of an access' result is that bucket of the sequential result. */
  ghost predicate BucketAgrees(a: seq<nat>, bkt: seq<seq<nat>>, left: int, op: Op, b: int)
    requires |bkt| == PDEQ_N_BKTS && 0 <= b < PDEQ_N_BKTS
  {
    var i := Bucket(Touched(a, left, op));
    var chain := if op.Push? then DeqPush(bkt[i], op.side, op.x) else DeqPop(bkt[i], op.side).0;
    (op.Pop? ==> DeqPop(bkt[i], op.side).1 == Returned(a, op))
    && (if b == i then chain else bkt[b]) == InBucket(After(a, op), NewLeft(left, op, Returned(a, op)) + 1, b)
  }

  /** What the four bucket operations do to every bucket. */
  lemma AccessBuckets(a: seq<nat>, bkt: seq<seq<nat>>, left: int, op: Op, b: int)
    requires |bkt| == PDEQ_N_BKTS && 0 <= b < PDEQ_N_BKTS
    requires forall c :: 0 <= c < PDEQ_N_BKTS ==> bkt[c] == InBucket(a, left + 1, c)
    ensures BucketAgrees(a, bkt, left, op, b)
  {
    if op.Push? { PushBuckets(a, bkt, left, op, b); } else { PopBuckets(a, bkt, left, op, b); }
  }

  lemma PushBuckets(a: seq<nat>, bkt: seq<seq<nat>>, left: int, op: Op, b: int)
    requires |bkt| == PDEQ_N_BKTS && 0 <= b < PDEQ_N_BKTS && op.Push?
    requires forall c :: 0 <= c < PDEQ_N_BKTS ==> bkt[c] == InBucket(a, left + 1, c)
    ensures BucketAgrees(a, bkt, left, op, b)
  {
    hide InBucket, Bucket;
    BucketMoves(left + 1);
    BucketMoves(left + |a|);
    if op.side == L { PushLeftBucket(a, left, op.x, b); } else { PushRightBucket(a, left, op.x, b); }
  }

  lemma PopBuckets(a: seq<nat>, bkt: seq<seq<nat>>, left: int, op: Op, b: int)
    requires |bkt| == PDEQ_N_BKTS && 0 <= b < PDEQ_N_BKTS && op.Pop?
    requires forall c :: 0 <= c < PDEQ_N_BKTS ==> bkt[c] == InBucket(a, left + 1, c)
    ensures BucketAgrees(a, bkt, left, op, b)
  {
    hide InBucket, Bucket;
    BucketMoves(left + 1);
    BucketMoves(left + |a|);
    if op.side == L {
      PopLeftBucket(a, left, b);
      PopLeftBucket(a, left, Bucket(left + 1));
    } else {
      PopRightBucket(a, left, b);
      PopRightBucket(a, left, Bucket(left + |a|));
    }
  }

  lemma PushLeftBucket(a: seq<nat>, left: int, x: nat, b: int)
    ensures InBucket([x] + a, left, b) == if b == Bucket(left) then InBucket(a, left + 1, b) + [x]
      else InBucket(a, left + 1, b)
  {
    assert ([x] + a)[1..] == a;
  }

  lemma PushRightBucket(a: seq<nat>, left: int, x: nat, b: int)
    ensures InBucket(a + [x], left + 1, b) == if b == Bucket(left + 1 + |a|) then [x] + InBucket(a, left + 1, b)
      else InBucket(a, left + 1, b)
  {
    InBucketRight(a, x, left + 1, b);
  }

  lemma PopLeftBucket(a: seq<nat>, left: int, b: int)
    ensures a == [] ==> InBucket(a, left + 1, b) == []
    ensures a != [] ==>
      InBucket(a, left + 1, b) == InBucket(a[1..], left + 2, b) + if b == Bucket(left + 1) then [a[0]] else []
  {
  }

  lemma PopRightBucket(a: seq<nat>, left: int, b: int)
    ensures a == [] ==> InBucket(a, left + 1, b) == []
    ensures a != [] ==>
      InBucket(a, left + 1, b) == (if b == Bucket(left + |a|) then [a[|a| - 1]] else [])
      + InBucket(a[..|a| - 1], left + 1, b)
  {
    if a != [] {
      assert a == a[..|a| - 1] + [a[|a| - 1]];
      InBucketRight(a[..|a| - 1], a[|a| - 1], left + 1, b);
    }
  }

  /** The position of the slot or element an operation touches. */
  function Touched(a: seq<nat>, left: int, op: Op): int {
    if op.side == L then (if op.Push? then left else left + 1) else if op.Push? then left + 1 + |a| else left + |a|
  }

  /** A step that is the sequential operation on bucket Bucket(Touched(..)). */
  ghost predicate Accesses(s: State, t: nat, s': State, op: Op) {
    var a := Replay(s.log);
    var i := Bucket(Touched(a, s.left, op));
    t < |s.threads| && |s.bkt| == PDEQ_N_BKTS && 0 <= i < PDEQ_N_BKTS
    && s'.bkt == s.bkt[i := if op.Push? then DeqPush(s.bkt[i], op.side, op.x) else DeqPop(s.bkt[i], op.side).0]
    && s'.log == s.log + [Entry(t, op, if op.Push? then None else DeqPop(s.bkt[i], op.side).1)]
    && s'.left == NewLeft(s.left, op, if op.Push? then None else DeqPop(s.bkt[i], op.side).1)
  }

  /** The index the thread reads under its side's lock leads it to the right bucket. */
  lemma AccessTouches(s: State, t: nat)
    requires Sane(s) && t < |s.threads| && s.threads[t].pc.Have? && IndexOk(s, t)
    ensures Accesses(s, t, Access(s, t), s.threads[t].pc.op)
  {
    BucketMoves(s.left);
    BucketMoves(Right(s));
    BucketMoves(s.left + 1);
    BucketMoves(Right(s) - 1);
    hide Replay, Bucket, MoveLeft, MoveRight;
  }

  lemma AccessRefines(s: State, t: nat, s': State, op: Op)
    requires BucketsOk(s) && Legal(s.log) && Accesses(s, t, s', op)
    ensures s'.log == s.log + [Entry(t, op, Returned(Replay(s.log), op))]
    ensures s'.left == NewLeft(s.left, op, Returned(Replay(s.log), op))
    ensures Legal(s'.log) && Replay(s'.log) == After(Replay(s.log), op) && BucketsOk(s')
  {
    var a := Replay(s.log);
    hide Replay, Bucket, InBucket, NewLeft, Legal;
    forall b | 0 <= b < PDEQ_N_BKTS
      ensures s'.bkt[b] == InBucket(After(a, op), NewLeft(s.left, op, Returned(a, op)) + 1, b)
    {
      AccessBuckets(a, s.bkt, s.left, op, b);
    }
    AccessBuckets(a, s.bkt, s.left, op, 0);
    LegalGrows(s.log, Entry(t, op, Returned(a, op)));
  }

  // ----- every step keeps the invariant

  /** Left operations leave the right slot alone and right operations the left one. */
  lemma EndsMove(s: State, t: nat, s': State, op: Op)
    requires BucketsOk(s) && Legal(s.log) && Accesses(s, t, s', op)
    ensures op.side == L ==> Right(s') == Right(s)
    ensures op.side == R ==> s'.left == s.left
    ensures op.side == L && op.Push? ==> s'.left == s.left - 1
    ensures op.side == R && op.Push? ==> Right(s') == Right(s) + 1
    ensures op.Pop? && Returned(Replay(s.log), op) == None ==> s'.left == s.left && Right(s') == Right(s)
    ensures op.Pop? && Returned(Replay(s.log), op) != None && op.side == L ==> s'.left == s.left + 1
    ensures op.Pop? && Returned(Replay(s.log), op) != None && op.side == R ==> Right(s') == Right(s) - 1
  {
    AccessRefines(s, t, s', op);
  }

  /** What the thread will record, or has left in place, once its bucket operation is done. */
  lemma AccessResult(s: State, t: nat)
    requires Sane(s) && t < |s.threads| && s.threads[t].pc.Have?
    ensures var op := s.threads[t].pc.op; var pc := Access(s, t).threads[t].pc;
      var e := Access(s, t).log[|s.log|].result;
      (pc.Release? <==> op.Pop? && e == None)
        && (pc.Record? && op.side == L ==> pc.i == if op.Push? then MoveLeft(s.lidx) else MoveRight(s.lidx))
      && (pc.Record? && op.side == R ==> pc.i == if op.Push? then MoveRight(s.ridx) else MoveLeft(s.ridx))
  {
    hide NewLeft, MoveLeft, MoveRight;
  }

  lemma AccessIndex(s: State, t: nat)
    requires Inv(s) && t < |s.threads| && s.threads[t].pc.Have?
    ensures |Access(s, t).threads| == |s.threads| && IndexOk(Access(s, t), t)
  {
    hide Inv, Access, Accesses, BucketsOk, Legal, Right, Bucket, MoveLeft, MoveRight, Replay, NewLeft;
    InvMeaning(s, t);
    var op := s.threads[t].pc.op;
    var s' := Access(s, t);
    AccessShape(s, t);
    AccessTouches(s, t);
    AccessRefines(s, t, s', op);
    EndsMove(s, t, s', op);
    AccessResult(s, t);
    BucketMoves(s.left);
    BucketMoves(Right(s));
  }

  lemma InvMeaning(s: State, t: nat)
    requires Inv(s) && t < |s.threads|
    ensures Sane(s) && BucketsOk(s) && Legal(s.log) && IndexOk(s, t) && CallOk(s, t)
  {
  }

  lemma OneHolder(s: State, t: nat, u: nat, side: Side)
    requires LocksOk(s) && t < |s.threads| && u < |s.threads| && Holds(s.threads[t].pc, side)
    requires Holds(s.threads[u].pc, side)
    ensures t == u
  {
  }

  lemma AccessCall(s: State, t: nat, u: nat)
    requires Inv(s) && t < |s.threads| && s.threads[t].pc.Have? && u < |s.threads|
    ensures CallOk(Access(s, t), u)
  {
    var s' := Access(s, t);
    assert CallOk(s, t) && CallOk(s, u);
    hide Inv, NewLeft, MoveLeft, MoveRight;
    LogGrows(s.log, s'.log[|s.log|], u);
    hide CountOf, LatestOf;
  }

  lemma AccessShape(s: State, t: nat)
    requires Inv(s) && t < |s.threads| && s.threads[t].pc.Have?
    ensures Sane(Access(s, t)) && Access(s, t).lidx == s.lidx && Access(s, t).ridx == s.ridx
    ensures Access(s, t).llock == s.llock && Access(s, t).rlock == s.rlock && |Access(s, t).threads| == |s.threads|
    ensures Access(s, t).threads[t].pc.Record? || Access(s, t).threads[t].pc.Release?
    ensures Access(s, t).threads[t].pc.op == s.threads[t].pc.op
    ensures forall u :: 0 <= u < |s.threads| && u != t ==> Access(s, t).threads[u] == s.threads[u]
  {
    hide NewLeft, MoveLeft, MoveRight, LocksOk, BucketsOk, Legal, CallOk, IndexOk;
  }

  /** Only the lock holder's side is touched, so the other threads' indexes stay right. */
  lemma AccessKeepsInv(s: State, t: nat)
    requires Inv(s) && t < |s.threads| && s.threads[t].pc.Have?
    ensures Inv(Access(s, t))
  {
    hide Access, Accesses, BucketsOk, Legal, Right, Bucket, CallOk, Replay, NewLeft;
    var op := s.threads[t].pc.op;
    var s' := Access(s, t);
    assert IndexOk(s, t);
    AccessShape(s, t);
    AccessTouches(s, t);
    AccessRefines(s, t, s', op);
    EndsMove(s, t, s', op);
    forall u | 0 <= u < |s'.threads|
      ensures IndexOk(s', u) && CallOk(s', u)
    {
      AccessCall(s, t, u);
      if u == t {
        AccessIndex(s, t);
      } else {
        assert IndexOk(s, u);
        assert Holds(s.threads[t].pc, op.side);
        if Holds(s.threads[u].pc, op.side) { OneHolder(s, t, u, op.side); }
      }
    }
  }

  lemma ControlKeepsLocks(s: State, t: nat, s': State)
    requires Inv(s) && Step(s, t, s') && !s.threads[t].pc.Have?
    ensures LocksOk(s') && |s'.threads| == |s.threads|
    ensures s'.log == s.log && s'.bkt == s.bkt && s'.left == s.left
    ensures forall u :: 0 <= u < |s.threads| && u != t ==> s'.threads[u] == s.threads[u]
  {
    hide BucketsOk, Legal, IndexOk, CallOk;
  }

  lemma ControlKeepsIndex(s: State, t: nat, s': State)
    requires Inv(s) && Step(s, t, s') && !s.threads[t].pc.Have?
    ensures Sane(s') && (s'.llock == None ==> s'.lidx == Bucket(s.left))
    ensures s'.rlock == None ==> s'.ridx == Bucket(Right(s))
    ensures IndexOk(s', t) && CallOk(s', t)
  {
    hide BucketsOk, Legal, Replay, Bucket, CountOf, LatestOf, LocksOk, CallOk;
    assert IndexOk(s, t);
    BucketMoves(s.left);
    BucketMoves(Right(s));
    ControlKeepsCall(s, t, s');
  }

  lemma ControlKeepsCall(s: State, t: nat, s': State)
    requires Inv(s) && Step(s, t, s') && !s.threads[t].pc.Have?
    ensures t < |s'.threads| && CallOk(s', t)
  {
    hide BucketsOk, Legal, Replay, Bucket, CountOf, LatestOf, LocksOk, IndexOk;
    assert CallOk(s, t);
  }

  lemma ControlKeepsOthers(s: State, t: nat, s': State, u: nat)
    requires Inv(s) && Step(s, t, s') && !s.threads[t].pc.Have? && u < |s.threads| && u != t
    ensures u < |s'.threads| && IndexOk(s', u) && CallOk(s', u)
  {
    assert IndexOk(s, u) && CallOk(s, u);
    ControlKeepsLocks(s, t, s');
    hide BucketsOk, Legal, Replay, Bucket, CountOf, LatestOf;
    if s.threads[t].pc.Record? {
      var side := s.threads[t].pc.op.side;
      assert Holds(s.threads[t].pc, side);
      if Holds(s.threads[u].pc, side) { OneHolder(s, t, u, side); }
    }
  }

  lemma StepKeepsInv(s: State, t: nat, s': State)
    requires Inv(s) && Step(s, t, s')
    ensures Inv(s')
  {
    hide Legal, Bucket, InBucket, CallOk, IndexOk, LocksOk, Replay;
    if s.threads[t].pc.Have? {
      AccessKeepsInv(s, t);
    } else {
      ControlKeepsLocks(s, t, s');
      ControlKeepsIndex(s, t, s');
      forall u | 0 <= u < |s'.threads|
        ensures IndexOk(s', u) && CallOk(s', u)
      {
        if u != t { ControlKeepsOthers(s, t, s', u); }
      }
    }
  }

  lemma {:induction false} RunInv(run: seq<State>, who: seq<nat>, k: nat)
    requires IsRun(run, who) && k < |run|
    ensures Inv(run[k])
  {
    if k == 0 {
      assert forall b :: 0 <= b < PDEQ_N_BKTS ==> run[0].bkt[b] == InBucket([], 1, b);
    } else {
      RunInv(run, who, k - 1);
      hide Inv, Init;
      assert Step(run[k - 1], who[k - 1], run[k - 1 + 1]);
      StepKeepsInv(run[k - 1], who[k - 1], run[k]);
    }
  }

  // ----- what holds in every run

  /** Every concurrent run refines the sequential deque.  The log of bucket operations, each
      between its call's invocation and its return, is a history of the sequential deque; the
      buckets hold exactly that deque's contents; and every thread has returned from all its
      logged operations but the one it is about to return from, with the logged result. */
  lemma Linearizable(run: seq<State>, who: seq<nat>, k: nat)
    requires IsRun(run, who) && k < |run|
    ensures var s := run[k]; Legal(s.log) && BucketsOk(s) && forall t :: 0 <= t < |s.threads| ==> CallOk(s, t)
  {
    RunInv(run, who, k);
  }

  /** The log is append-only, so an operation that returned before another was invoked comes
      before it in the history. */
  lemma {:induction false} LogOnlyGrows(run: seq<State>, who: seq<nat>, i: nat, j: nat)
    requires IsRun(run, who) && i <= j < |run|
    ensures Prefix(run[i].log, run[j].log)
    decreases j
  {
    if i < j {
      LogOnlyGrows(run, who, i, j - 1);
      RunInv(run, who, j - 1);
      hide Inv, Init, NewLeft, MoveLeft, MoveRight;
      assert Step(run[j - 1], who[j - 1], run[j - 1 + 1]);
    }
  }

  /** A pop returns NULL only when nothing is queued at its bucket access. */
  lemma NullMeansEmpty(run: seq<State>, who: seq<nat>, k: nat)
    requires IsRun(run, who) && k < |who|
    requires who[k] < |run[k].threads| == |run[k + 1].threads| && run[k].threads[who[k]].pc.Have?
    requires run[k].threads[who[k]].pc.op.Pop?
    ensures run[k + 1].threads[who[k]].pc.Release? <==> Replay(run[k].log) == []
    ensures run[k + 1].threads[who[k]].pc.Release? ==>
      run[k + 1].threads[who[k]].pc.e == None && forall b :: 0 <= b < PDEQ_N_BKTS ==> run[k].bkt[b] == []
  {
    var s, t := run[k], who[k];
    RunInv(run, who, k);
    hide Inv, Init;
    assert Step(s, t, run[k + 1]);
    InvMeaning(s, t);
    AccessTouches(s, t);
    AccessRefines(s, t, Access(s, t), s.threads[t].pc.op);
    AccessResult(s, t);
  }

  // ----- what one call does

  /** A step leaves the other threads' calls alone, and logs only for its own. */
  lemma StepOfOther(s: State, u: nat, s': State, t: nat)
    requires Inv(s) && Step(s, u, s') && t < |s.threads| && t != u
    ensures t < |s'.threads| && s'.threads[t] == s.threads[t]
    ensures s'.log == s.log || exists e: Entry :: e.t == u && s'.log == s.log + [e]
  {
    hide Legal, LocksOk, BucketsOk, CallOk, IndexOk, NewLeft, MoveLeft, MoveRight, DeqPop, DeqPush;
  }

  /** The operation a call has in hand stays the one invoked; its result is the one logged. */
  lemma StepOfCall(s: State, t: nat, s': State)
    requires Step(s, t, s') && !s.threads[t].pc.Idle?
    ensures t < |s'.threads| && (s'.threads[t].pc.Idle? <==> s.threads[t].pc.Release?)
    ensures var pc, pc' := s.threads[t].pc, s'.threads[t].pc;
      !pc'.Idle? ==>
        pc'.op == pc.op
        && (pc.Want? ==> pc'.Have? && s'.log == s.log)
        && (pc.Have? ==> (pc'.Record? || pc'.Release?) && s'.log == s.log + [Entry(t, pc.op, pc'.e)])
        && (pc.Record? ==> pc'.Release? && pc'.e == pc.e && s'.log == s.log)
    ensures s'.threads[t].pc.Idle? ==> s'.log == s.log
  {
    hide NewLeft, MoveLeft, MoveRight, DeqPush;
  }

  /** What a call of op, begun when the log was `from` long, has logged so far. */
  ghost predicate CallSoFar(s: State, from: nat, t: nat, op: Op) {
    t < |s.threads| && from <= |s.log|
    && match s.threads[t].pc
       case Idle => false
       case Want(o) => o == op && LoggedNone(s.log, from, t)
       case Have(o) => o == op && LoggedNone(s.log, from, t)
       case Record(o, e, _) => o == op && LoggedOnce(s.log, from, Entry(t, op, e))
       case Release(o, e) => o == op && LoggedOnce(s.log, from, Entry(t, op, e))
  }

  lemma CallProceeds(s: State, u: nat, s': State, from: nat, t: nat, op: Op)
    requires Inv(s) && Step(s, u, s') && CallSoFar(s, from, t, op) && t < |s'.threads| && !s'.threads[t].pc.Idle?
    ensures CallSoFar(s', from, t, op)
  {
    hide Inv, Step, LoggedNone, LoggedOnce;
    var pc := s.threads[t].pc;
    if u == t {
      StepOfCall(s, t, s');
      if pc.Have? { NoneGrows(s.log, from, t, Entry(t, op, s'.threads[t].pc.e)); }
    } else {
      StepOfOther(s, u, s', t);
      if s'.log != s.log {
        var e: Entry :| e.t == u && s'.log == s.log + [e];
        if pc.Want? || pc.Have? {
          NoneGrows(s.log, from, t, e);
        } else {
          OnceGrows(s.log, from, Entry(t, op, pc.e), e);
        }
      }
    }
  }

  /** Thread t invokes op with its step at i and is inside the call until it returns at j. */
  ghost predicate CallReturns(run: seq<State>, who: seq<nat>, t: nat, op: Op, i: nat, j: nat) {
    IsRun(run, who) && i < j < |run| && who[i] == t && t < |run[i].threads| && run[i].threads[t].pc.Idle?
    && t < |run[i + 1].threads| && run[i + 1].threads[t].pc == Want(op)
    && t < |run[j].threads| && run[j].threads[t].pc.Idle?
    && forall x :: i < x < j ==> t < |run[x].threads| && !run[x].threads[t].pc.Idle?
  }

  lemma {:induction false} CallRuns(run: seq<State>, who: seq<nat>, t: nat, op: Op, i: nat, j: nat, x: nat)
    requires CallReturns(run, who, t, op, i, j) && i < x < j
    ensures CallSoFar(run[x], |run[i].log|, t, op)
    decreases x
  {
    hide Init, Inv, LoggedOnce;
    var s, u, s' := run[x - 1], who[x - 1], run[x - 1 + 1];
    assert Step(s, u, s');
    if x > i + 1 {
      CallRuns(run, who, t, op, i, j, x - 1);
      RunInv(run, who, x - 1);
      CallProceeds(s, u, s', |run[i].log|, t, op);
    }
  }

  /** A call does what it was invoked for, once: between invocation and return the history gains
      exactly one operation of the thread, the one invoked, and the call returns that entry's
      result, which is what the sequential deque returns there. */
  lemma CallTakesEffect(run: seq<State>, who: seq<nat>, t: nat, op: Op, i: nat, j: nat)
    requires CallReturns(run, who, t, op, i, j)
    ensures j > i + 1 && run[j - 1].threads[t].pc.Release?
    ensures TakesEffectOnce(run[j].log, |run[i].log|, t, op, run[j - 1].threads[t].pc.e)
  {
    hide Init, Inv, LoggedOnce, LoggedNone, Legal, TakesEffectOnce;
    var s, u, s' := run[j - 1], who[j - 1], run[j - 1 + 1];
    assert Step(s, u, s');
    CallRuns(run, who, t, op, i, j, j - 1);
    RunInv(run, who, j - 1);
    if u != t { StepOfOther(s, u, s', t); }
    StepOfCall(s, t, s');
    InvMeaning(s, t);
    OnceIsLegal(s.log, |run[i].log|, t, op, s.threads[t].pc.e);
  }

  /** A thread inside an operation can always take its next step, unless it waits for a lock
      that is taken. */
  lemma NobodyIsStuck(run: seq<State>, who: seq<nat>, k: nat, t: nat)
    requires IsRun(run, who) && k < |run| && t < |run[k].threads| && !run[k].threads[t].pc.Idle?
    requires run[k].threads[t].pc.Want? ==> LockOf(run[k], run[k].threads[t].pc.op.side) == None
    ensures exists s' :: Step(run[k], t, s')
  {
    hide Inv, Init, NewLeft, MoveLeft, MoveRight, DeqPop, DeqPush;
    var s := run[k];
    RunInv(run, who, k);
    InvMeaning(s, t);
    match s.threads[t].pc
    case Want(op) => assert Step(s, t, SetLock(Goto(s, t, Have(op)), op.side, Some(t)));
    case Have(op) => assert Step(s, t, Access(s, t));
    case Record(op, e, i) =>
      assert Step(s, t, if op.side == L then Goto(s, t, Release(op, e)).(lidx := i)
        else Goto(s, t, Release(op, e)).(ridx := i));
    case Release(op, e) =>
      assert Step(s, t, SetLock(s.(threads := s.threads[t := Thread(Idle, s.threads[t].calls + 1)]), op.side, None));
  }

  /** How many steps a call still takes. */
  function StepsLeft(pc: Pc): nat {
    match pc
    case Want(_) => 4
    case Have(_) => 3
    case Record(_, _, _) => 2
    case Release(_, _) => 1
    case Idle => 0
  }

  lemma CallBegins(s: State, t: nat, s': State)
    requires Step(s, t, s') && s.threads[t].pc.Idle?
    ensures t < |s'.threads| && s'.threads[t].pc.Want?
  {
    hide Access;
  }

  /** A call is over after at most five steps of its thread, however many others intervene. */
  lemma {:induction false} CallIsShort(run: seq<State>, who: seq<nat>, t: nat, i: nat, j: nat)
    requires IsRun(run, who) && i < j < |run| && who[i] == t && t < |run[i].threads| && run[i].threads[t].pc.Idle?
    requires forall x :: i < x <= j ==> t < |run[x].threads| && !run[x].threads[t].pc.Idle?
    ensures OwnSteps(who, t, i, j) + StepsLeft(run[j].threads[t].pc) <= 5
    decreases j
  {
    hide Init, Inv, Step;
    var s, u, s' := run[j - 1], who[j - 1], run[j - 1 + 1];
    assert Step(s, u, s');
    assert OwnSteps(who, t, i, i) == 0;
    if j == i + 1 {
      CallBegins(s, t, s');
    } else {
      CallIsShort(run, who, t, i, j - 1);
      RunInv(run, who, j - 1);
      if u == t { StepOfCall(s, t, s'); } else { StepOfOther(s, u, s', t); }
    }
  }
}
