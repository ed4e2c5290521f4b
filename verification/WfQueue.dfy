/** The queue with wait-free enqueue of advsync/wfenqueue.c as a state machine, for any number
    of pushers and of poppers serialized by the queue's mutex: one transition per access to
    head, tail or a next pointer.
 */
module WfQueue {
  import opened Common

  /** The element embedded in the queue; all others are named by other numbers. */
  const DUMMY: nat := 0

  /** n counts the times the current __q_pop has pushed the dummy back.  A thread pushing DUMMY
      is a popper inside its call of q_push. */
  datatype Pc =
    | Idle
    | Clear(ep: nat, n: nat)                             // q_push: about to store ep->next = NULL
    | Xchg(ep: nat, n: nat)                              // about to exchange ep into tail
    | Link(ep: nat, pred: nat, pos: nat, n: nat)          // about to store through the old tail
    | Lock
    | Test(n: nat)                                       // __q_pop: about to look for an empty queue
    | Wait(ep: nat, n: nat)                              // waiting for ep->next
    | Advance(ep: nat, n: nat)                           // about to store head = ep->next
    | Unlock(e: Option<nat>)

  /** tail names the element whose next field the tail pointer points to.  order lists all
      elements in the order of their exchanges, h is the position of head in it, pending maps
      the positions whose link is not stored yet to the threads that will, and popped lists the
      elements popped. */
  datatype State = State(head: nat, tail: nat, next: map<nat, Option<nat>>, mutex: Option<nat>, pcs: seq<Pc>,
                         order: seq<nat>, h: nat, pending: map<nat, nat>, popped: seq<nat>)

  function NextOf(s: State, e: nat): Option<nat> { if e in s.next then s.next[e] else None }

  /** A thread has the element to itself. */
  predicate HasAside(pc: Pc, e: nat) {
    (pc.Clear? && pc.ep == e) || (pc.Xchg? && pc.ep == e) || pc == Unlock(Some(e))
  }

  /** What a client may push: not the dummy, not queued, and not in another thread's hands. */
  ghost predicate MayPush(s: State, e: nat) {
    e != DUMMY && s.h <= |s.order| && e !in s.order[s.h..] && forall u :: 0 <= u < |s.pcs| ==> !HasAside(s.pcs[u], e)
  }

  function Goto(s: State, t: nat, pc: Pc): State
    requires t < |s.pcs|
  {
    s.(pcs := s.pcs[t := pc])
  }

  /** q_push after the call. */
  ghost predicate PushStep(s: State, t: nat, s': State)
    requires t < |s.pcs|
  {
    match s.pcs[t]
    case Clear(ep, n) => s' == Goto(s, t, Xchg(ep, n)).(next := s.next[ep := None])
    case Xchg(ep, n) => |s.order| > 0
      && s' == Goto(s, t, Link(ep, s.tail, |s.order| - 1, n)).(tail := ep, order := s.order + [ep],
         pending := s.pending[|s.order| - 1 := t])
    case Link(ep, pred, pos, n) =>
      s' == Goto(s, t, if ep == DUMMY then Test(n)
        else Idle).(next := s.next[pred := Some(ep)], pending := s.pending - {pos})
    case _ => false
  }

  /** q_pop and __q_pop. */
  ghost predicate PopStep(s: State, t: nat, s': State)
    requires t < |s.pcs|
  {
    match s.pcs[t]
    case Lock => s.mutex == None && s' == Goto(s, t, Test(0)).(mutex := Some(t))
    case Test(n) => s' == Goto(s, t, if s.head == DUMMY && s.tail == DUMMY then Unlock(None) else Wait(s.head, n))
    case Wait(ep, n) => s' == Goto(s, t, if NextOf(s, ep) == None then Wait(ep, n) else Advance(ep, n))
    case Advance(ep, n) => NextOf(s, ep).Some?
      && s' == Goto(s, t, if ep == DUMMY then Clear(ep, n + 1) else Unlock(Some(ep))).(
           head := NextOf(s, ep).value, h := s.h + 1, popped := if ep == DUMMY then s.popped else s.popped + [ep])
    case Unlock(e) => s' == Goto(s, t, Idle).(mutex := None)
    case _ => false
  }

  ghost predicate CallStep(s: State, t: nat, s': State)
    requires t < |s.pcs|
  {
    s.pcs[t].Idle? && (s' == Goto(s, t, Lock) || exists ep: nat :: MayPush(s, ep) && s' == Goto(s, t, Clear(ep, 0)))
  }

  ghost predicate Step(s: State, t: nat, s': State) {
    t < |s.pcs| && (PushStep(s, t, s') || PopStep(s, t, s') || CallStep(s, t, s'))
  }

  /** init_q. */
  ghost predicate Init(s: State) {
    s.head == DUMMY && s.tail == DUMMY && NextOf(s, DUMMY) == None && s.mutex == None && s.order == [DUMMY]
    && s.h == 0 && s.pending == map[] && s.popped == [] && forall t :: 0 <= t < |s.pcs| ==> s.pcs[t] == Idle
  }

  ghost predicate IsRun(run: seq<State>, who: seq<nat>) {
    |run| == |who| + 1 && Init(run[0]) && forall i :: 0 <= i < |who| ==> Step(run[i], who[i], run[i + 1])
  }

  // ----- the invariant

  /** Element e is queued: its exchange has happened and head is not past it. */
  ghost predicate Queued(s: State, e: nat) { exists k :: s.h <= k < |s.order| && s.order[k] == e }

  ghost predicate Ends(s: State) {
    s.h < |s.order| && s.head == s.order[s.h] && s.tail == s.order[|s.order| - 1]
    && NextOf(s, s.tail) == None && forall i, j :: s.h <= i < j < |s.order| ==> s.order[i] != s.order[j]
  }

  /** The list with its pending link stores spells out the order of the exchanges. */
  ghost predicate Linked(s: State) {
    (forall k :: s.h <= k < |s.order| - 1 && k !in s.pending ==> NextOf(s, s.order[k]) == Some(s.order[k + 1]))
    && (forall k :: k in s.pending ==>
       s.h <= k < |s.order| - 1 && NextOf(s, s.order[k]) == None && Storing(s, s.pending[k], k))
  }

  predicate Storing(s: State, t: nat, k: nat) { t < |s.pcs| && s.pcs[t].Link? && s.pcs[t].pos == k }

  predicate Holds(pc: Pc) {
    pc.Test? || pc.Wait? || pc.Advance? || pc.Unlock? || ((pc.Clear? || pc.Xchg? || pc.Link?) && pc.ep == DUMMY)
  }

  ghost predicate MutexOk(s: State) {
    (s.mutex == None ==> Queued(s, DUMMY)) && forall t: nat :: t < |s.pcs| ==> (Holds(s.pcs[t]) <==> s.mutex == Some(t))
  }

  ghost predicate PcOk(s: State, t: nat)
    requires t < |s.pcs|
  {
    match s.pcs[t]
    case Clear(ep, n) => !Queued(s, ep) && (ep == DUMMY ==> n == 1 && s.head != DUMMY)
    case Xchg(ep, n) => !Queued(s, ep) && NextOf(s, ep) == None && (ep == DUMMY ==> n == 1 && s.head != DUMMY)
    case Link(ep, pred, pos, n) =>
      pos in s.pending && s.pending[pos] == t && pos + 1 < |s.order| && pred == s.order[pos] && ep == s.order[pos + 1]
        && (ep == DUMMY ==> n == 1 && s.head != DUMMY)
    case Test(n) => Queued(s, DUMMY) && n <= 1 && (n == 1 ==> s.head != DUMMY)
    case Wait(ep, n) =>
      Queued(s, DUMMY) && ep == s.head && n <= 1 && (n == 1 ==> ep != DUMMY) && (ep == DUMMY ==> s.tail != DUMMY)
    case Advance(ep, n) => Queued(s, DUMMY) && ep == s.head && n <= 1 && (n == 1 ==> ep != DUMMY) && NextOf(s, ep).Some?
    case Unlock(Some(e)) =>
      e != DUMMY && !Queued(s, e) && Queued(s, DUMMY) && s.popped != [] && s.popped[|s.popped| - 1] == e
    case Unlock(None) => Queued(s, DUMMY)
    case _ => true
  }

  /** No element is in two threads' hands. */
  ghost predicate AsideOk(s: State) {
    forall t, u, e :: 0 <= t < |s.pcs| && 0 <= u < |s.pcs| && HasAside(s.pcs[t], e) && HasAside(s.pcs[u], e) ==> t == u
  }

  function Reals(order: seq<nat>): seq<nat> {
    if order == [] then [] else Reals(order[..|order| - 1]) + if order[|order| - 1] == DUMMY then []
      else [order[|order| - 1]]
  }

  ghost predicate Inv(s: State) {
    Ends(s) && Linked(s) && MutexOk(s) && AsideOk(s) && s.popped == Reals(s.order[..s.h])
    && forall t :: 0 <= t < |s.pcs| ==> PcOk(s, t)
  }

  // ----- every step keeps the invariant

  lemma InvPc(s: State, t: nat)
    requires Inv(s) && t < |s.pcs|
    ensures Ends(s) && Linked(s) && MutexOk(s) && AsideOk(s) && PcOk(s, t)
  {
  }

  /** Steps that leave the list alone: entering and leaving operations, and looking. */
  ghost predicate Control(s: State, t: nat, s': State) {
    t < |s.pcs| && s' == s.(pcs := s'.pcs, mutex := s'.mutex)
      && (s.pcs[t].Idle? || s.pcs[t].Lock? || s.pcs[t].Test? || s.pcs[t].Wait? || s.pcs[t].Unlock?)
  }

  lemma ClearQueued(s: State, t: nat, s': State)
    requires t < |s.pcs| && PushStep(s, t, s') && s.pcs[t].Clear?
    ensures forall e :: Queued(s', e) == Queued(s, e)
  {
  }

  lemma LinkQueued(s: State, t: nat, s': State)
    requires t < |s.pcs| && PushStep(s, t, s') && s.pcs[t].Link?
    ensures forall e :: Queued(s', e) == Queued(s, e)
  {
  }

  lemma XchgQueued(s: State, t: nat, s': State)
    requires t < |s.pcs| && PushStep(s, t, s') && s.pcs[t].Xchg? && s.h < |s.order|
    ensures forall e :: Queued(s', e) <==> Queued(s, e) || e == s.pcs[t].ep
  {
    forall e | Queued(s, e) || e == s.pcs[t].ep
      ensures Queued(s', e)
    {
      var k := if e == s.pcs[t].ep then |s.order| else var i :| s.h <= i < |s.order| && s.order[i] == e; i;
      assert s'.order[k] == e;
    }
  }

  lemma AdvanceQueued(s: State, t: nat, s': State)
    requires t < |s.pcs| && PopStep(s, t, s') && s.pcs[t].Advance? && Ends(s) && s.pcs[t].ep == s.head
    ensures forall e :: Queued(s', e) <==> Queued(s, e) && e != s.pcs[t].ep
    ensures Queued(s, s.pcs[t].ep)
  {
    assert s.order[s.h] == s.head;
    forall e | Queued(s, e) && e != s.pcs[t].ep
      ensures Queued(s', e)
    {
      var i :| s.h <= i < |s.order| && s.order[i] == e;
      assert s'.order[i] == e;
    }
  }

  lemma AdvanceReals(s: State, t: nat, s': State)
    requires Inv(s) && t < |s.pcs| && PopStep(s, t, s') && s.pcs[t].Advance? && s'.h <= |s'.order|
    ensures s'.popped == Reals(s'.order[..s'.h])
  {
    InvPc(s, t);
    assert s.order[..s.h + 1] == s.order[..s.h] + [s.order[s.h]];
  }

  lemma ClearList(s: State, t: nat, s': State)
    requires Inv(s) && t < |s.pcs| && PushStep(s, t, s') && s.pcs[t].Clear?
    ensures Ends(s') && Linked(s')
  {
    hide Inv, MutexOk, AsideOk, Reals, NextOf, Storing;
    InvPc(s, t);
    ClearNext(s, t, s');
    forall k | s.h <= k < |s.order| ensures s.order[k] != s.pcs[t].ep { assert Queued(s, s.order[k]); }
    forall k | k in s'.pending ensures Storing(s', s'.pending[k], k) { ClearStoring(s, t, s', k); }
  }

  lemma ClearStoring(s: State, t: nat, s': State, k: nat)
    requires Linked(s) && t < |s.pcs| && PushStep(s, t, s') && s.pcs[t].Clear? && k in s'.pending
    ensures Storing(s', s'.pending[k], k)
  {
    hide NextOf;
    assert Storing(s, s.pending[k], k);
  }

  lemma ClearNext(s: State, t: nat, s': State)
    requires t < |s.pcs| && PushStep(s, t, s') && s.pcs[t].Clear?
    ensures forall e :: NextOf(s', e) == if e == s.pcs[t].ep then None else NextOf(s, e)
  {
  }

  lemma ClearHands(s: State, t: nat, s': State)
    requires Inv(s) && t < |s.pcs| && PushStep(s, t, s') && s.pcs[t].Clear?
    ensures MutexOk(s') && AsideOk(s')
  {
    hide Inv, Ends, Linked, Reals;
    InvPc(s, t);
    ClearQueued(s, t, s');
  }

  lemma ClearPc(s: State, t: nat, s': State, u: nat)
    requires Inv(s) && t < |s.pcs| && PushStep(s, t, s') && s.pcs[t].Clear? && u < |s'.pcs|
    ensures PcOk(s', u)
  {
    hide Inv, AsideOk, Reals;
    InvPc(s, t);
    InvPc(s, u);
    ClearQueued(s, t, s');
  }

  lemma ClearKeepsInv(s: State, t: nat, s': State)
    requires Inv(s) && t < |s.pcs| && PushStep(s, t, s') && s.pcs[t].Clear?
    ensures Inv(s')
  {
    ClearList(s, t, s');
    ClearHands(s, t, s');
    forall u | 0 <= u < |s'.pcs| ensures PcOk(s', u) { ClearPc(s, t, s', u); }
  }

  lemma XchgEnds(s: State, t: nat, s': State)
    requires Inv(s) && t < |s.pcs| && PushStep(s, t, s') && s.pcs[t].Xchg?
    ensures Ends(s')
  {
    hide Inv, MutexOk, AsideOk, Reals;
    InvPc(s, t);
  }

  lemma XchgLinked(s: State, t: nat, s': State)
    requires Inv(s) && t < |s.pcs| && PushStep(s, t, s') && s.pcs[t].Xchg?
    ensures Linked(s')
  {
    hide Inv, MutexOk, AsideOk, Reals, Queued, Storing, PcOk, NextOf;
    InvPc(s, t);
    assert forall e :: NextOf(s', e) == NextOf(s, e) by { SameNext(s, t, s'); }
    forall k | k in s'.pending ensures Storing(s', s'.pending[k], k) { XchgStoring(s, t, s', k); }
  }

  lemma SameNext(s: State, t: nat, s': State)
    requires t < |s.pcs| && PushStep(s, t, s') && s.pcs[t].Xchg?
    ensures forall e :: NextOf(s', e) == NextOf(s, e)
  {
  }

  lemma XchgStoring(s: State, t: nat, s': State, k: nat)
    requires Linked(s) && t < |s.pcs| && PushStep(s, t, s') && s.pcs[t].Xchg? && k in s'.pending && s.order != []
    ensures Storing(s', s'.pending[k], k)
  {
    assert k in s.pending ==> Storing(s, s.pending[k], k);
  }

  lemma XchgHands(s: State, t: nat, s': State)
    requires Inv(s) && t < |s.pcs| && PushStep(s, t, s') && s.pcs[t].Xchg?
    ensures MutexOk(s') && AsideOk(s')
  {
    hide Inv, Ends, Linked, Reals;
    InvPc(s, t);
    XchgQueued(s, t, s');
  }

  lemma XchgPc(s: State, t: nat, s': State, u: nat)
    requires Inv(s) && t < |s.pcs| && PushStep(s, t, s') && s.pcs[t].Xchg? && u < |s'.pcs|
    ensures PcOk(s', u)
  {
    hide Inv, Queued, Linked, MutexOk, AsideOk, PcOk;
    InvPc(s, t);
    InvPc(s, u);
    XchgQueued(s, t, s');
    if u == t { XchgOwnPc(s, t, s'); } else { XchgOtherPc(s, t, s', u); }
  }

  lemma XchgOwnPc(s: State, t: nat, s': State)
    requires Ends(s) && t < |s.pcs| && PushStep(s, t, s') && s.pcs[t].Xchg? && PcOk(s, t)
    ensures t < |s'.pcs| && PcOk(s', t)
  {
    hide Queued;
  }

  lemma XchgOtherPc(s: State, t: nat, s': State, u: nat)
    requires Inv(s) && Ends(s) && t < |s.pcs| && PushStep(s, t, s') && s.pcs[t].Xchg? && u < |s.pcs| && u != t
    requires PcOk(s, u)
    requires forall e :: Queued(s', e) <==> Queued(s, e) || e == s.pcs[t].ep
    ensures u < |s'.pcs| && PcOk(s', u)
  {
    hide Inv, Queued;
    OtherHands(s, t, u);
  }

  /** Two threads never have the same element, or the mutex, in their hands. */
  lemma OtherHands(s: State, t: nat, u: nat)
    requires Inv(s) && t < |s.pcs| && s.pcs[t].Xchg? && u < |s.pcs| && u != t
    ensures !HasAside(s.pcs[u], s.pcs[t].ep) && (Holds(s.pcs[u]) ==> !Holds(s.pcs[t]))
  {
    hide Queued, Linked, Ends, PcOk, Reals;
    assert HasAside(s.pcs[t], s.pcs[t].ep);
  }

  lemma XchgKeepsInv(s: State, t: nat, s': State)
    requires Inv(s) && t < |s.pcs| && PushStep(s, t, s') && s.pcs[t].Xchg?
    ensures Inv(s')
  {
    XchgEnds(s, t, s');
    XchgLinked(s, t, s');
    XchgHands(s, t, s');
    assert s'.order[..s'.h] == s.order[..s.h];
    forall u | 0 <= u < |s'.pcs| ensures PcOk(s', u) { XchgPc(s, t, s', u); }
  }

  lemma LinkEnds(s: State, t: nat, s': State)
    requires Inv(s) && t < |s.pcs| && PushStep(s, t, s') && s.pcs[t].Link?
    ensures Ends(s')
  {
    hide Inv, MutexOk, AsideOk, Reals, Queued;
    InvPc(s, t);
  }

  lemma LinkLinked(s: State, t: nat, s': State)
    requires Inv(s) && t < |s.pcs| && PushStep(s, t, s') && s.pcs[t].Link?
    ensures Linked(s')
  {
    hide Inv, MutexOk, AsideOk, Reals, Queued, NextOf, Storing;
    InvPc(s, t);
    LinkStores(s, t, s');
    forall k | k in s'.pending ensures Storing(s', s'.pending[k], k) { LinkStoring(s, t, s', k); }
  }

  lemma LinkStoring(s: State, t: nat, s': State, k: nat)
    requires Linked(s) && t < |s.pcs| && PushStep(s, t, s') && s.pcs[t].Link? && k in s'.pending
    ensures Storing(s', s'.pending[k], k)
  {
    hide NextOf;
    assert Storing(s, s.pending[k], k);
  }


  /** The store reaches one next pointer only. */
  lemma LinkStores(s: State, t: nat, s': State)
    requires Ends(s) && Linked(s) && t < |s.pcs| && PushStep(s, t, s') && s.pcs[t].Link? && PcOk(s, t)
    ensures NextOf(s', s.order[s.pcs[t].pos]) == Some(s.order[s.pcs[t].pos + 1])
    ensures forall k :: s.h <= k < |s.order| && k != s.pcs[t].pos ==> NextOf(s', s.order[k]) == NextOf(s, s.order[k])
  {
    hide Queued;
    var pos := s.pcs[t].pos;
    forall k | s.h <= k < |s.order| && k != pos
      ensures NextOf(s', s.order[k]) == NextOf(s, s.order[k])
    {
      assert s.order[k] != s.order[pos];
    }
  }

  lemma LinkHands(s: State, t: nat, s': State)
    requires Inv(s) && t < |s.pcs| && PushStep(s, t, s') && s.pcs[t].Link?
    ensures MutexOk(s') && AsideOk(s')
  {
    hide Inv, Ends, Linked, Reals;
    InvPc(s, t);
    LinkQueued(s, t, s');
  }

  lemma LinkPc(s: State, t: nat, s': State, u: nat)
    requires Inv(s) && t < |s.pcs| && PushStep(s, t, s') && s.pcs[t].Link? && u < |s'.pcs|
    ensures PcOk(s', u)
  {
    hide Inv, Queued, MutexOk, AsideOk, Ends, Linked, NextOf, PcOk;
    InvPc(s, t);
    InvPc(s, u);
    LinkQueued(s, t, s');
    if u == t { LinkOwnPc(s, t, s'); } else { LinkOtherPc(s, t, s', u); }
  }

  lemma LinkOwnPc(s: State, t: nat, s': State)
    requires Linked(s) && t < |s.pcs| && PushStep(s, t, s') && s.pcs[t].Link? && PcOk(s, t)
    requires forall e :: Queued(s', e) == Queued(s, e)
    ensures t < |s'.pcs| && PcOk(s', t)
  {
    hide Queued, NextOf, Linked;
    LinkFits(s, t);
  }

  lemma LinkOtherPc(s: State, t: nat, s': State, u: nat)
    requires Linked(s) && t < |s.pcs| && PushStep(s, t, s') && s.pcs[t].Link? && u < |s.pcs| && u != t && PcOk(s, t)
    requires PcOk(s, u)
    requires forall e :: Queued(s', e) == Queued(s, e)
    ensures u < |s'.pcs| && PcOk(s', u)
  {
    hide Queued, NextOf, Linked;
    LinkFits(s, t);
    LinkNext(s, t, s');
  }

  lemma LinkNext(s: State, t: nat, s': State)
    requires t < |s.pcs| && PushStep(s, t, s') && s.pcs[t].Link?
    ensures forall e :: NextOf(s', e) == if e == s.pcs[t].pred then Some(s.pcs[t].ep) else NextOf(s, e)
  {
  }

  lemma LinkFits(s: State, t: nat)
    requires Linked(s) && t < |s.pcs| && PcOk(s, t) && s.pcs[t].Link?
    ensures s.h <= s.pcs[t].pos && Queued(s, s.pcs[t].pred) && Queued(s, s.pcs[t].ep)
  {
  }

  lemma LinkKeepsInv(s: State, t: nat, s': State)
    requires Inv(s) && t < |s.pcs| && PushStep(s, t, s') && s.pcs[t].Link?
    ensures Inv(s')
  {
    LinkEnds(s, t, s');
    LinkLinked(s, t, s');
    LinkHands(s, t, s');
    forall u | 0 <= u < |s'.pcs| ensures PcOk(s', u) { LinkPc(s, t, s', u); }
  }

  lemma AdvanceList(s: State, t: nat, s': State)
    requires Inv(s) && t < |s.pcs| && PopStep(s, t, s') && s.pcs[t].Advance?
    ensures Ends(s') && Linked(s')
  {
    hide Inv, MutexOk, AsideOk, Reals;
    InvPc(s, t);
  }

  lemma AdvanceHands(s: State, t: nat, s': State)
    requires Inv(s) && t < |s.pcs| && PopStep(s, t, s') && s.pcs[t].Advance?
    ensures MutexOk(s') && AsideOk(s')
  {
    hide Inv, Ends, Linked, Reals, Queued;
    InvPc(s, t);
    AdvanceQueued(s, t, s');
    forall u | 0 <= u < |s.pcs|
      ensures !HasAside(s.pcs[u], s.pcs[t].ep)
    {
      InvPc(s, u);
    }
  }

  lemma AdvancePc(s: State, t: nat, s': State, u: nat)
    requires Inv(s) && t < |s.pcs| && PopStep(s, t, s') && s.pcs[t].Advance? && u < |s'.pcs|
    ensures PcOk(s', u)
  {
    hide Inv, Queued;
    InvPc(s, t);
    InvPc(s, u);
    AdvanceQueued(s, t, s');
    assert u != t ==> !Holds(s.pcs[u]);
    AdvanceHead(s, t, s');
  }

  lemma AdvanceHead(s: State, t: nat, s': State)
    requires Inv(s) && t < |s.pcs| && PopStep(s, t, s') && s.pcs[t].Advance?
    ensures s.pcs[t].ep == DUMMY ==> s'.head != DUMMY
  {
    hide Inv, MutexOk, AsideOk, Reals, Queued;
    InvPc(s, t);
    AdvanceList(s, t, s');
    assert s.order[s.h] != s.order[s'.h];
  }

  lemma AdvanceKeepsInv(s: State, t: nat, s': State)
    requires Inv(s) && t < |s.pcs| && PopStep(s, t, s') && s.pcs[t].Advance?
    ensures Inv(s')
  {
    AdvanceList(s, t, s');
    AdvanceHands(s, t, s');
    AdvanceReals(s, t, s');
    forall u | 0 <= u < |s'.pcs| ensures PcOk(s', u) { AdvancePc(s, t, s', u); }
  }

  lemma ControlKeepsInv(s: State, t: nat, s': State)
    requires Inv(s) && Step(s, t, s') && Control(s, t, s')
    ensures Inv(s')
  {
    hide Queued, Reals, PcOk, Step, Ends, Linked, MutexOk, AsideOk;
    ControlList(s, t, s');
    ControlMutex(s, t, s');
    ControlAside(s, t, s');
    assert s'.order == s.order && s'.h == s.h && s'.popped == s.popped;
    forall u | 0 <= u < |s'.pcs| ensures PcOk(s', u) { ControlPc(s, t, s', u); }
  }

  lemma ControlList(s: State, t: nat, s': State)
    requires Inv(s) && Step(s, t, s') && Control(s, t, s')
    ensures Ends(s') && Linked(s')
  {
    hide AsideOk, MutexOk, PcOk, Reals, Queued;
  }

  lemma ControlMutex(s: State, t: nat, s': State)
    requires Inv(s) && Step(s, t, s') && Control(s, t, s')
    ensures MutexOk(s')
  {
    hide Inv, AsideOk, Ends, Linked, Reals, Queued;
    InvPc(s, t);
    ControlQueued(s, t, s');
  }

  lemma ControlQueued(s: State, t: nat, s': State)
    requires Control(s, t, s')
    ensures forall e :: Queued(s', e) == Queued(s, e)
  {
  }

  lemma ControlAside(s: State, t: nat, s': State)
    requires Inv(s) && Step(s, t, s') && Control(s, t, s')
    ensures AsideOk(s')
  {
    hide Ends, Linked, MutexOk, PcOk, Reals, Queued;
  }

  lemma ControlPc(s: State, t: nat, s': State, u: nat)
    requires Inv(s) && Step(s, t, s') && Control(s, t, s') && u < |s'.pcs|
    ensures PcOk(s', u)
  {
    hide Inv, Queued, AsideOk, Ends, Linked, Reals;
    InvPc(s, t);
    InvPc(s, u);
    ControlQueued(s, t, s');
    PushedIsAside(s);
    EndsFit(s);
    if u == t { ControlOwnPc(s, t, s'); } else { ControlOtherPc(s, t, s', u); }
  }

  lemma EndsFit(s: State)
    requires Ends(s)
    ensures s.h <= |s.order|
  {
  }

  lemma ControlOtherPc(s: State, t: nat, s': State, u: nat)
    requires u < |s.pcs| && u != t && PcOk(s, u) && Step(s, t, s') && Control(s, t, s')
    requires forall e :: Queued(s', e) == Queued(s, e)
    ensures u < |s'.pcs| && PcOk(s', u)
  {
    hide Queued, MayPush;
  }

  lemma ControlOwnPc(s: State, t: nat, s': State)
    requires t < |s.pcs| && PcOk(s, t) && Step(s, t, s') && Control(s, t, s') && MutexOk(s)
    requires (forall e :: Queued(s', e) == Queued(s, e)) && forall e :: MayPush(s, e) ==> !Queued(s, e) && e != DUMMY
    ensures t < |s'.pcs| && PcOk(s', t)
  {
    hide Queued, MayPush;
  }

  lemma PushedIsAside(s: State)
    ensures forall e :: MayPush(s, e) ==> !Queued(s, e) && e != DUMMY
  {
    forall e | MayPush(s, e) ensures !Queued(s, e) && e != DUMMY {}
  }

  lemma StepKeepsInv(s: State, t: nat, s': State)
    requires Inv(s) && Step(s, t, s')
    ensures Inv(s')
  {
    hide Inv;
    match s.pcs[t] {
      case Clear(_, _) => ClearKeepsInv(s, t, s');
      case Xchg(_, _) => XchgKeepsInv(s, t, s');
      case Link(_, _, _, _) => LinkKeepsInv(s, t, s');
      case Advance(_, _) => AdvanceKeepsInv(s, t, s');
      case _ => ControlKeepsInv(s, t, s');
    }
  }

  lemma {:induction false} RunInv(run: seq<State>, who: seq<nat>, k: nat)
    requires IsRun(run, who) && k < |run|
    ensures Inv(run[k])
  {
    if k == 0 {
      assert run[0].order[0] == DUMMY;
    } else {
      RunInv(run, who, k - 1);
      hide Inv, Init;
      assert Step(run[k - 1], who[k - 1], run[k - 1 + 1]);
      StepKeepsInv(run[k - 1], who[k - 1], run[k]);
    }
  }

  // ----- what holds in every run

  lemma {:induction false} RealsAppend(a: seq<nat>, b: seq<nat>)
    ensures Reals(a + b) == Reals(a) + Reals(b)
  {
    if b == [] {
      assert a + b == a;
    } else {
      assert (a + b)[..|a + b| - 1] == a + b[..|b| - 1];
      RealsAppend(a, b[..|b| - 1]);
    }
  }

  /** First in, first out: what has been popped, followed by what is queued, is what has been
      pushed, in the order of the exchanges. */
  lemma Fifo(run: seq<State>, who: seq<nat>, k: nat)
    requires IsRun(run, who) && k < |run|
    ensures run[k].h <= |run[k].order| && Reals(run[k].order) == run[k].popped + Reals(run[k].order[run[k].h..])
  {
    RunInv(run, who, k);
    var s := run[k];
    assert s.order == s.order[..s.h] + s.order[s.h..];
    RealsAppend(s.order[..s.h], s.order[s.h..]);
  }

  /** A pop removes and returns the oldest real element. */
  lemma PopReturnsOldest(run: seq<State>, who: seq<nat>, k: nat, ep: nat, n: nat)
    requires IsRun(run, who) && k < |who| && who[k] < |run[k].pcs| && run[k].pcs[who[k]] == Advance(ep, n)
    requires ep != DUMMY
    ensures run[k].h < |run[k].order| && Reals(run[k].order[run[k].h..]) == [ep] + Reals(run[k].order[run[k].h + 1..])
    ensures run[k + 1].h == run[k].h + 1 && run[k + 1].popped == run[k].popped + [ep]
    ensures who[k] < |run[k + 1].pcs| && run[k + 1].pcs[who[k]] == Unlock(Some(ep))
  {
    hide Inv, Init, Linked, MutexOk, AsideOk, Queued, Reals;
    RunInv(run, who, k);
    var s := run[k];
    assert Step(s, who[k], run[k + 1]);
    InvPc(s, who[k]);
    OldestFirst(s.order[s.h..], ep);
    assert s.order[s.h..][1..] == s.order[s.h + 1..];
  }

  lemma OldestFirst(q: seq<nat>, ep: nat)
    requires q != [] && q[0] == ep && ep != DUMMY
    ensures Reals(q) == [ep] + Reals(q[1..])
  {
    assert q == [ep] + q[1..];
    RealsAppend([ep], q[1..]);
    assert Reals([ep]) == [ep];
  }

  lemma {:induction false} NoReals(q: seq<nat>)
    requires forall i, j :: 0 <= i < j < |q| ==> q[i] != q[j]
    ensures Reals(q) == [] ==> |q| <= 1 && forall i :: 0 <= i < |q| ==> q[i] == DUMMY
  {
    if q != [] {
      var p := q[..|q| - 1];
      NoReals(p);
      if p != [] { assert q[0] != q[|q| - 1]; }
    }
  }

  /** A pop decides to return NULL exactly when no real element is queued. */
  lemma NullMeansEmpty(run: seq<State>, who: seq<nat>, k: nat, n: nat)
    requires IsRun(run, who) && k < |who| && who[k] < |run[k].pcs| && run[k].pcs[who[k]] == Test(n)
    ensures who[k] < |run[k + 1].pcs| && run[k].h <= |run[k].order|
    ensures run[k + 1].pcs[who[k]] == Unlock(None) <==> Reals(run[k].order[run[k].h..]) == []
  {
    RunInv(run, who, k);
    var s := run[k];
    assert Step(s, who[k], run[k + 1]);
    var q := s.order[s.h..];
    NoReals(q);
    assert q[0] == s.head && q[|q| - 1] == s.tail;
    if s.head == DUMMY && s.tail == DUMMY {
      assert |q| == 1;
      assert q[..0] == [];
    }
  }

  /** The dummy is queued whenever no pop is under way, and no pop pushes it back twice. */
  lemma DummyOncePerPop(run: seq<State>, who: seq<nat>, k: nat, t: nat)
    requires IsRun(run, who) && k < |run| && t < |run[k].pcs|
    ensures run[k].mutex == None ==> Queued(run[k], DUMMY)
    ensures var pc := run[k].pcs[t];
      pc.Test? || pc.Wait? || pc.Advance? || ((pc.Clear? || pc.Xchg? || pc.Link?) && pc.ep == DUMMY) ==> pc.n <= 1
    ensures var pc := run[k].pcs[t]; pc.Advance? && pc.n == 1 ==> pc.ep != DUMMY
  {
    RunInv(run, who, k);
    assert PcOk(run[k], t);
  }

  lemma LinkedMeaning(s: State)
    requires Linked(s) && s.h + 1 < |s.order|
    ensures s.h in s.pending || NextOf(s, s.order[s.h]) == Some(s.order[s.h + 1])
  {
  }

  /** A pop only ever waits for a pusher that has exchanged the tail but not stored its link. */
  lemma WaitsForPusher(run: seq<State>, who: seq<nat>, k: nat, t: nat, ep: nat, n: nat)
    requires IsRun(run, who) && k < |run| && t < |run[k].pcs| && run[k].pcs[t] == Wait(ep, n)
    requires NextOf(run[k], ep) == None
    ensures exists u :: 0 <= u < |run[k].pcs| && run[k].pcs[u].Link? && run[k].pcs[u].pred == ep
  {
    RunInv(run, who, k);
    var s := run[k];
    InvPc(s, t);
    var d :| s.h <= d < |s.order| && s.order[d] == DUMMY;
    assert s.h < |s.order| - 1;
    LinkedMeaning(s);
    assert Storing(s, s.pending[s.h], s.h);
    assert PcOk(s, s.pending[s.h]);
  }

  // ----- what one call does

  /** What b has beyond a. */
  function Gained(a: seq<nat>, b: seq<nat>): seq<nat> { if |a| <= |b| then b[|a|..] else [] }

  /** What thread t's own steps from i to j have added to the order of exchanges. */
  ghost function OwnPushed(run: seq<State>, who: seq<nat>, t: nat, i: nat, j: nat): seq<nat>
    requires i <= j <= |who| < |run|
    decreases j
  {
    if i == j then []
    else OwnPushed(run, who, t, i, j - 1) + if who[j - 1] == t then Gained(run[j - 1].order, run[j].order) else []
  }

  /** What they have popped. */
  ghost function OwnPopped(run: seq<State>, who: seq<nat>, t: nat, i: nat, j: nat): seq<nat>
    requires i <= j <= |who| < |run|
    decreases j
  {
    if i == j then []
    else OwnPopped(run, who, t, i, j - 1) + if who[j - 1] == t then Gained(run[j - 1].popped, run[j].popped) else []
  }

  /** A call of thread t begins with its step at i, in control state first, and returns at j. */
  ghost predicate CallReturns(run: seq<State>, who: seq<nat>, t: nat, first: Pc, i: nat, j: nat) {
    IsRun(run, who) && i < j < |run| && who[i] == t && t < |run[i].pcs| && run[i].pcs[t].Idle?
    && t < |run[i + 1].pcs| && run[i + 1].pcs[t] == first && t < |run[j].pcs| && run[j].pcs[t].Idle?
    && forall x :: i < x < j ==> t < |run[x].pcs| && !run[x].pcs[t].Idle?
  }

  lemma StepKinds(s: State, t: nat, s': State)
    requires Step(s, t, s')
    ensures t < |s.pcs|
    ensures var pc := s.pcs[t];
      if pc.Clear? || pc.Xchg? || pc.Link? then PushStep(s, t, s')
      else if pc.Idle? then CallStep(s, t, s')
      else PopStep(s, t, s')
  {
    hide NextOf, MayPush;
  }

  /** Exchanges and pops only ever add, and each step is its own thread's. */
  lemma StepAdds(s: State, u: nat, s': State, t: nat)
    requires Step(s, u, s') && t < |s.pcs|
    ensures |s'.pcs| == |s.pcs| && s.order <= s'.order && s.popped <= s'.popped
    ensures t != u ==> s'.pcs[t] == s.pcs[t]
    ensures u < |s.pcs| && (s.pcs[u].Idle? ==> s'.order == s.order && s'.popped == s.popped)
  {
    hide NextOf, MayPush, PushStep, PopStep, CallStep;
    StepKinds(s, u, s');
    var pc := s.pcs[u];
    if pc.Clear? || pc.Xchg? || pc.Link? {
      PushAdds(s, u, s', t);
    } else if !pc.Idle? {
      PopAdds(s, u, s', t);
    } else {
      CallAdds(s, u, s', t);
    }
  }

  lemma PushAdds(s: State, u: nat, s': State, t: nat)
    requires u < |s.pcs| && PushStep(s, u, s') && t < |s.pcs|
    ensures |s'.pcs| == |s.pcs| && s.order <= s'.order && s.popped == s'.popped && (t != u ==> s'.pcs[t] == s.pcs[t])
  {
  }

  lemma PopAdds(s: State, u: nat, s': State, t: nat)
    requires u < |s.pcs| && PopStep(s, u, s') && t < |s.pcs|
    ensures |s'.pcs| == |s.pcs| && s.order == s'.order && s.popped <= s'.popped && (t != u ==> s'.pcs[t] == s.pcs[t])
  {
    hide NextOf;
  }

  lemma CallAdds(s: State, u: nat, s': State, t: nat)
    requires u < |s.pcs| && CallStep(s, u, s') && t < |s.pcs|
    ensures |s'.pcs| == |s.pcs| && s.order == s'.order && s.popped == s'.popped && (t != u ==> s'.pcs[t] == s.pcs[t])
  {
    hide MayPush;
  }

  /** What a push of ep has done so far. */
  ghost predicate PushSoFar(pc: Pc, ep: nat, pushed: seq<nat>, popped: seq<nat>) {
    popped == []
    && match pc
       case Clear(e, _) => e == ep && pushed == []
       case Xchg(e, _) => e == ep && pushed == []
       case Link(e, _, _, _) => e == ep && pushed == [ep]
       case _ => false
  }

  lemma PushProceeds(s: State, t: nat, s': State, ep: nat, pushed: seq<nat>, popped: seq<nat>)
    requires Step(s, t, s') && PushSoFar(s.pcs[t], ep, pushed, popped) && ep != DUMMY
    ensures t < |s'.pcs|
    ensures var pushed', popped' := pushed + Gained(s.order, s'.order), popped + Gained(s.popped, s'.popped);
      if s'.pcs[t].Idle? then pushed' == [ep] && popped' == [] else PushSoFar(s'.pcs[t], ep, pushed', popped')
  {
  }

  /** What a pop has done so far.  It has pushed the dummy back n times. */
  ghost predicate PopSoFar(pc: Pc, pushed: seq<nat>, popped: seq<nat>) {
    match pc
    case Lock => pushed == [] == popped
    case Test(n) => popped == [] && pushed == (if n == 0 then [] else [DUMMY])
    case Wait(_, n) => popped == [] && pushed == (if n == 0 then [] else [DUMMY])
    case Advance(_, n) => popped == [] && pushed == (if n == 0 then [] else [DUMMY])
    case Clear(e, _) => e == DUMMY && pushed == [] == popped
    case Xchg(e, _) => e == DUMMY && pushed == [] == popped
    case Link(e, _, _, _) => e == DUMMY && pushed == [DUMMY] && popped == []
    case Unlock(e) => (pushed == [] || pushed == [DUMMY]) && popped == if e == None then [] else [e.value]
    case Idle => false
  }

  lemma PopProceeds(s: State, t: nat, s': State, pushed: seq<nat>, popped: seq<nat>)
    requires Step(s, t, s') && PcOk(s, t) && PopSoFar(s.pcs[t], pushed, popped)
    ensures t < |s'.pcs| && (s'.pcs[t].Idle? <==> s.pcs[t].Unlock?)
    ensures var pushed', popped' := pushed + Gained(s.order, s'.order), popped + Gained(s.popped, s'.popped);
      if s'.pcs[t].Idle? then pushed' == pushed && popped' == popped else PopSoFar(s'.pcs[t], pushed', popped')
  {
    hide Queued, NextOf, PopStep, PushStep, CallStep;
    StepKinds(s, t, s');
    if s.pcs[t].Clear? || s.pcs[t].Xchg? || s.pcs[t].Link? {
      DummyProceeds(s, t, s', pushed, popped);
    } else {
      PopMoves(s, t, s', pushed, popped);
    }
  }

  lemma DummyProceeds(s: State, t: nat, s': State, pushed: seq<nat>, popped: seq<nat>)
    requires t < |s.pcs| && PushStep(s, t, s') && PcOk(s, t) && PopSoFar(s.pcs[t], pushed, popped)
    ensures t < |s'.pcs| && !s'.pcs[t].Idle?
    ensures PopSoFar(s'.pcs[t], pushed + Gained(s.order, s'.order), popped + Gained(s.popped, s'.popped))
  {
    hide Queued, NextOf;
  }

  lemma PopMoves(s: State, t: nat, s': State, pushed: seq<nat>, popped: seq<nat>)
    requires t < |s.pcs| && PopStep(s, t, s') && PcOk(s, t) && PopSoFar(s.pcs[t], pushed, popped)
    ensures t < |s'.pcs| && (s'.pcs[t].Idle? <==> s.pcs[t].Unlock?)
    ensures var pushed', popped' := pushed + Gained(s.order, s'.order), popped + Gained(s.popped, s'.popped);
      if s'.pcs[t].Idle? then pushed' == pushed && popped' == popped else PopSoFar(s'.pcs[t], pushed', popped')
  {
    hide Queued, NextOf;
  }

  lemma NoneAdded(run: seq<State>, who: seq<nat>, t: nat, i: nat, x: nat)
    requires IsRun(run, who) && i < x < |run| && who[x - 1] != t
    ensures OwnPushed(run, who, t, i, x) == OwnPushed(run, who, t, i, x - 1)
    ensures OwnPopped(run, who, t, i, x) == OwnPopped(run, who, t, i, x - 1)
  {
    hide Init, Step, Gained;
    assert OwnPushed(run, who, t, i, x - 1) + [] == OwnPushed(run, who, t, i, x - 1);
    assert OwnPopped(run, who, t, i, x - 1) + [] == OwnPopped(run, who, t, i, x - 1);
  }

  lemma {:induction false} PushRuns(run: seq<State>, who: seq<nat>, t: nat, ep: nat, i: nat, j: nat, x: nat)
    requires CallReturns(run, who, t, Clear(ep, 0), i, j) && i < x < j && ep != DUMMY
    ensures PushSoFar(run[x].pcs[t], ep, OwnPushed(run, who, t, i, x), OwnPopped(run, who, t, i, x))
    decreases x
  {
    hide Init, PushSoFar, Step, Gained;
    if who[x - 1] != t { NoneAdded(run, who, t, i, x); }
    assert Step(run[x - 1], who[x - 1], run[x - 1 + 1]);
    if x == i + 1 {
      FirstStep(run, who, t, i);
      assert PushSoFar(Clear(ep, 0), ep, [], []) by { PushStarts(ep); }
    } else {
      PushRuns(run, who, t, ep, i, j, x - 1);
      StepAdds(run[x - 1], who[x - 1], run[x], t);
      if who[x - 1] == t {
        PushProceeds(run[x - 1], t, run[x], ep, OwnPushed(run, who, t, i, x - 1), OwnPopped(run, who, t, i, x - 1));
      }
    }
  }

  lemma PushStarts(ep: nat)
    ensures PushSoFar(Clear(ep, 0), ep, [], []) && PopSoFar(Lock, [], [])
  {
  }

  /** Calling adds nothing yet. */
  lemma FirstStep(run: seq<State>, who: seq<nat>, t: nat, i: nat)
    requires IsRun(run, who) && i < |who| && who[i] == t && t < |run[i].pcs| && run[i].pcs[t].Idle?
    ensures OwnPushed(run, who, t, i, i + 1) == [] == OwnPopped(run, who, t, i, i + 1)
  {
    hide Init, Step;
    assert Step(run[i], who[i], run[i + 1]);
    StepAdds(run[i], t, run[i + 1], t);
    assert OwnPushed(run, who, t, i, i) == [] == OwnPopped(run, who, t, i, i);
  }

  /** A push enqueues its element, once, and nothing else: between the call of q_push(ep) and
      its return the thread has exchanged exactly ep into the queue. */
  lemma PushEnqueuesOnce(run: seq<State>, who: seq<nat>, t: nat, ep: nat, i: nat, j: nat)
    requires CallReturns(run, who, t, Clear(ep, 0), i, j)
    ensures j > i + 1 && OwnPushed(run, who, t, i, j) == [ep] && OwnPopped(run, who, t, i, j) == []
  {
    hide Init, PushSoFar, PushStep, PopStep, Gained;
    assert Step(run[i], who[i], run[i + 1]);
    assert Step(run[j - 1], who[j - 1], run[j - 1 + 1]);
    assert ep != DUMMY by { PushedIsReal(run[i], t, run[i + 1], ep); }
    PushRuns(run, who, t, ep, i, j, j - 1);
    StepAdds(run[j - 1], who[j - 1], run[j], t);
    PushProceeds(run[j - 1], t, run[j], ep, OwnPushed(run, who, t, i, j - 1), OwnPopped(run, who, t, i, j - 1));
  }

  lemma PushedIsReal(s: State, t: nat, s': State, ep: nat)
    requires Step(s, t, s') && s.pcs[t].Idle? && t < |s'.pcs| && s'.pcs[t] == Clear(ep, 0)
    ensures ep != DUMMY
  {
  }

  lemma {:induction false} PopRuns(run: seq<State>, who: seq<nat>, t: nat, i: nat, j: nat, x: nat)
    requires CallReturns(run, who, t, Lock, i, j) && i < x < j
    ensures PopSoFar(run[x].pcs[t], OwnPushed(run, who, t, i, x), OwnPopped(run, who, t, i, x))
    decreases x
  {
    hide Init, PopSoFar, Step, Gained, Inv, PcOk, Ends, Linked, MutexOk, AsideOk;
    if who[x - 1] != t { NoneAdded(run, who, t, i, x); }
    assert Step(run[x - 1], who[x - 1], run[x - 1 + 1]);
    if x == i + 1 {
      FirstStep(run, who, t, i);
      PushStarts(0);
    } else {
      PopRuns(run, who, t, i, j, x - 1);
      StepAdds(run[x - 1], who[x - 1], run[x], t);
      RunInv(run, who, x - 1);
      InvPc(run[x - 1], t);
      if who[x - 1] == t {
        PopProceeds(run[x - 1], t, run[x], OwnPushed(run, who, t, i, x - 1), OwnPopped(run, who, t, i, x - 1));
      }
    }
  }

  /** A pop removes what it returns and nothing else: between the call of q_pop and its return
      the thread has popped exactly the returned element, nothing for NULL, and has put nothing
      into the queue except, at most once, the dummy. */
  lemma PopDequeuesOnce(run: seq<State>, who: seq<nat>, t: nat, i: nat, j: nat)
    requires CallReturns(run, who, t, Lock, i, j)
    ensures j > i + 1 && run[j - 1].pcs[t].Unlock?
    ensures var e := run[j - 1].pcs[t].e; OwnPopped(run, who, t, i, j) == if e == None then [] else [e.value]
    ensures OwnPushed(run, who, t, i, j) == [] || OwnPushed(run, who, t, i, j) == [DUMMY]
  {
    hide Init, Step, Gained, Inv, PcOk, Ends, Linked, MutexOk, AsideOk;
    assert Step(run[j - 1], who[j - 1], run[j - 1 + 1]);
    PopRuns(run, who, t, i, j, j - 1);
    StepAdds(run[j - 1], who[j - 1], run[j], t);
    RunInv(run, who, j - 1);
    InvPc(run[j - 1], t);
    PopProceeds(run[j - 1], t, run[j], OwnPushed(run, who, t, i, j - 1), OwnPopped(run, who, t, i, j - 1));
  }

  /** A thread inside an operation can always take its next step, unless it waits for the mutex
      while another thread has it. */
  lemma NobodyIsStuck(run: seq<State>, who: seq<nat>, k: nat, t: nat)
    requires IsRun(run, who) && k < |run| && t < |run[k].pcs| && !run[k].pcs[t].Idle?
    requires run[k].pcs[t].Lock? ==> run[k].mutex == None
    ensures exists s' :: Step(run[k], t, s')
  {
    hide Inv, Init, Linked, MutexOk, AsideOk, Queued, Reals, NextOf, MayPush;
    var s := run[k];
    RunInv(run, who, k);
    InvPc(s, t);
    var s' := match s.pcs[t]
      case Clear(ep, n) => Goto(s, t, Xchg(ep, n)).(next := s.next[ep := None])
      case Xchg(ep, n) =>
        Goto(s, t, Link(ep, s.tail, |s.order| - 1, n)).(tail := ep, order := s.order + [ep],
          pending := s.pending[|s.order| - 1 := t])
      case Link(ep, pred, pos, n) =>
        Goto(s, t, if ep == DUMMY then Test(n)
          else Idle).(next := s.next[pred := Some(ep)], pending := s.pending - {pos})
      case Lock => Goto(s, t, Test(0)).(mutex := Some(t))
      case Test(n) => Goto(s, t, if s.head == DUMMY && s.tail == DUMMY then Unlock(None) else Wait(s.head, n))
      case Wait(ep, n) => Goto(s, t, if NextOf(s, ep) == None then Wait(ep, n) else Advance(ep, n))
      case Advance(ep, n) =>
        Goto(s, t, if ep == DUMMY then Clear(ep, n + 1) else Unlock(Some(ep))).(
          head := NextOf(s, ep).value, h := s.h + 1, popped := if ep == DUMMY then s.popped else s.popped + [ep])
      case Unlock(e) => Goto(s, t, Idle).(mutex := None)
      case Idle => s;
    assert PushStep(s, t, s') || PopStep(s, t, s');
    assert Step(s, t, s');
  }

  /** How many steps a push still takes. */
  function StepsLeft(pc: Pc): nat {
    match pc
    case Clear(_, _) => 3
    case Xchg(_, _) => 2
    case Link(_, _, _, _) => 1
    case _ => 0
  }

  lemma PushAdvances(s: State, t: nat, s': State, ep: nat, pushed: seq<nat>, popped: seq<nat>)
    requires Step(s, t, s') && PushSoFar(s.pcs[t], ep, pushed, popped) && ep != DUMMY
    ensures t < |s'.pcs| && StepsLeft(s'.pcs[t]) == StepsLeft(s.pcs[t]) - 1
  {
    hide NextOf, Gained;
  }

  /** The enqueue is wait-free: whatever all other threads do, a push is over with its thread's
      fourth step, counting the call. */
  lemma {:induction false} PushIsWaitFree(run: seq<State>, who: seq<nat>, t: nat, ep: nat, i: nat, j: nat)
    requires CallReturns(run, who, t, Clear(ep, 0), i, j)
    ensures OwnSteps(who, t, i, j) == 4
  {
    hide Init, PushStep, PopStep, Gained, PushSoFar;
    assert Step(run[i], who[i], run[i + 1]);
    assert Step(run[j - 1], who[j - 1], run[j - 1 + 1]);
    assert ep != DUMMY by { PushedIsReal(run[i], t, run[i + 1], ep); }
    PushSteps(run, who, t, ep, i, j, j - 1);
    PushRuns(run, who, t, ep, i, j, j - 1);
    StepAdds(run[j - 1], who[j - 1], run[j], t);
    PushAdvances(run[j - 1], t, run[j], ep, OwnPushed(run, who, t, i, j - 1), OwnPopped(run, who, t, i, j - 1));
  }

  lemma {:induction false} PushSteps(run: seq<State>, who: seq<nat>, t: nat, ep: nat, i: nat, j: nat, x: nat)
    requires CallReturns(run, who, t, Clear(ep, 0), i, j) && i < x < j && ep != DUMMY
    ensures OwnSteps(who, t, i, x) + StepsLeft(run[x].pcs[t]) == 4
    decreases x
  {
    hide Init, PushSoFar, Step, Gained;
    assert Step(run[x - 1], who[x - 1], run[x - 1 + 1]);
    assert OwnSteps(who, t, i, i) == 0;
    if x > i + 1 {
      PushSteps(run, who, t, ep, i, j, x - 1);
      PushRuns(run, who, t, ep, i, j, x - 1);
      StepAdds(run[x - 1], who[x - 1], run[x], t);
      if who[x - 1] == t {
        PushAdvances(run[x - 1], t, run[x], ep, OwnPushed(run, who, t, i, x - 1), OwnPopped(run, who, t, i, x - 1));
      }
    }
  }
}
