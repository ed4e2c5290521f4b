/** The tandem deque of SMPdesign/locktdeq.c as a state machine: one transition per lock
    operation and per locked operation on one half, or on both halves where both locks are held.
 */
module TandemDeque {
  import opened Common
  import opened DequeSpec

  datatype Pc =
    | Idle
    | WantL(op: Op)
    | HaveL(op: Op)                          // about to operate on the left half
    | LWantR(op: Op)                         // pop_l found it empty: about to take the right lock too
    | LHaveR(op: Op)                         // pop_l holds both: about to pop from the right half and move the rest
    | LReleaseR(op: Op, e: Option<nat>)
    | ReleaseL(op: Op, e: Option<nat>)       // about to drop the left lock and return e
    | WantR(op: Op)
    | HaveR(op: Op)                          // about to operate on the right half
    | DropR(op: Op)                          // pop_r found it empty: about to start over with both locks
    | RWantL(op: Op)
    | RWantR(op: Op)
    | RHaveBoth(op: Op)
    | RReleaseL(op: Op, e: Option<nat>)
    | ReleaseR(op: Op, e: Option<nat>)       // about to drop the right lock and return e

  datatype Thread = Thread(pc: Pc, calls: nat)

  /** Each half lists its chain from the head, which is its right end. */
  datatype State = State(llock: Option<nat>, ldeq: seq<nat>, rlock: Option<nat>, rdeq: seq<nat>,
                         threads: seq<Thread>, log: seq<Entry>)

  function PopL(chain: seq<nat>): (r: (seq<nat>, Option<nat>)) {
    if chain == [] then (chain, None) else (chain[..|chain| - 1], Some(chain[|chain| - 1]))
  }

  function PopR(chain: seq<nat>): (r: (seq<nat>, Option<nat>)) {
    if chain == [] then (chain, None) else (chain[1..], Some(chain[0]))
  }

  /** cds_list_splice: list goes in at the head of dest. */
  function Splice(list: seq<nat>, dest: seq<nat>): seq<nat> { list + dest }

  /** What an operation on the chains leaves: the halves, the next control state, and what the
      operation returns if it is now decided. */
  datatype Outcome = Outcome(ldeq: seq<nat>, rdeq: seq<nat>, pc: Pc, result: Option<Option<nat>>)

  predicate Accessing(pc: Pc) { pc.HaveL? || pc.LHaveR? || pc.HaveR? || pc.RHaveBoth? }

  function Access(ldeq: seq<nat>, rdeq: seq<nat>, pc: Pc): Outcome
    requires Accessing(pc)
  {
    var op := pc.op;
    match pc
    case HaveL(_) =>
      if op.Push? then Outcome(ldeq + [op.x], rdeq, ReleaseL(op, None), Some(None))
      else
        var (chain, e) := PopL(ldeq);
        if e == None then Outcome(ldeq, rdeq, LWantR(op), None)
        else Outcome(chain, rdeq, ReleaseL(op, e), Some(e))
    case LHaveR(_) =>
      var (chain, e) := PopL(rdeq);
      Outcome(Splice(chain, ldeq), [], LReleaseR(op, e), Some(e))
    case HaveR(_) =>
      if op.Push? then Outcome(ldeq, [op.x] + rdeq, ReleaseR(op, None), Some(None))
      else
        var (chain, e) := PopR(rdeq);
        if e == None then Outcome(ldeq, rdeq, DropR(op), None)
        else Outcome(ldeq, chain, ReleaseR(op, e), Some(e))
    case RHaveBoth(_) =>
      var (chain, e) := PopR(rdeq);
      if e != None then Outcome(ldeq, chain, RReleaseL(op, e), Some(e))
      else
        var (rest, e') := PopR(ldeq);
        Outcome([], Splice(rest, chain), RReleaseL(op, e'), Some(e'))
  }

  /** A thread that wants a lock waits until it is free. */
  predicate MayMove(s: State, pc: Pc) {
    (pc.WantL? || pc.RWantL? ==> s.llock == None) && (pc.WantR? || pc.LWantR? || pc.RWantR? ==> s.rlock == None)
  }

  /** The control state after a lock operation. */
  function Control(pc: Pc): Pc {
    match pc
    case WantL(op) => HaveL(op)
    case LWantR(op) => LHaveR(op)
    case LReleaseR(op, e) => ReleaseL(op, e)
    case ReleaseL(op, e) => Idle
    case WantR(op) => HaveR(op)
    case DropR(op) => RWantL(op)
    case RWantL(op) => RWantR(op)
    case RWantR(op) => RHaveBoth(op)
    case RReleaseL(op, e) => ReleaseR(op, e)
    case ReleaseR(op, e) => Idle
    case _ => pc
  }

  function SetThread(s: State, t: nat, pc: Pc): State
    requires t < |s.threads|
  {
    var calls := s.threads[t].calls;
    s.(threads := s.threads[t := Thread(pc, if pc.Idle? then calls + 1 else calls)])
  }

  /** The step of a thread that is inside an operation and not kept waiting. */
  function Moved(s: State, t: nat): State
    requires t < |s.threads|
  {
    var pc := s.threads[t].pc;
    if Accessing(pc) then
      var o := Access(s.ldeq, s.rdeq, pc);
      SetThread(s, t, o.pc).(ldeq := o.ldeq, rdeq := o.rdeq,
                             log := if o.result.Some? then s.log + [Entry(t, pc.op, o.result.value)] else s.log)
    else
      SetThread(s, t, Control(pc)).(
        llock := if pc.WantL? || pc.RWantL? then Some(t) else if pc.ReleaseL? || pc.RReleaseL? then None else s.llock,
        rlock := if pc.WantR? || pc.LWantR? || pc.RWantR? then Some(t) else if pc.ReleaseR? || pc.LReleaseR?
          || pc.DropR? then None else s.rlock)
  }

  ghost predicate Step(s: State, t: nat, s': State) {
    t < |s.threads|
    && if s.threads[t].pc.Idle? then exists op: Op ::
       s' == SetThread(s, t, if op.side == L then WantL(op) else WantR(op))
       else MayMove(s, s.threads[t].pc) && s' == Moved(s, t)
  }

  ghost predicate Init(s: State) {
    s.llock == None && s.rlock == None && s.ldeq == [] && s.rdeq == [] && s.log == []
    && forall t :: 0 <= t < |s.threads| ==> s.threads[t] == Thread(Idle, 0)
  }

  ghost predicate IsRun(run: seq<State>, who: seq<nat>) {
    |run| == |who| + 1 && Init(run[0]) && forall i :: 0 <= i < |who| ==> Step(run[i], who[i], run[i + 1])
  }

  // ----- the invariant

  /** A chain read from its tail, which is its left end. */
  function FromLeft(chain: seq<nat>): (a: seq<nat>)
    ensures |a| == |chain|
  {
    if chain == [] then [] else FromLeft(chain[1..]) + [chain[0]]
  }

  lemma {:induction false} FromLeftTail(chain: seq<nat>, x: nat)
    ensures FromLeft(chain + [x]) == [x] + FromLeft(chain)
  {
    if chain == [] {
      assert (chain + [x])[1..] == [];
    } else {
      assert (chain + [x])[1..] == chain[1..] + [x];
      FromLeftTail(chain[1..], x);
    }
  }

  lemma FromLeftHead(chain: seq<nat>, x: nat)
    ensures FromLeft([x] + chain) == FromLeft(chain) + [x]
  {
    assert ([x] + chain)[1..] == chain;
  }

  /** Popping either end of a chain is popping that end of the sequence. */
  lemma PopsAgree(chain: seq<nat>)
    ensures PopL(chain).1 == Returned(FromLeft(chain), Pop(L))
    ensures FromLeft(PopL(chain).0) == After(FromLeft(chain), Pop(L))
    ensures PopR(chain).1 == Returned(FromLeft(chain), Pop(R))
    ensures FromLeft(PopR(chain).0) == After(FromLeft(chain), Pop(R))
  {
    if chain != [] {
      assert chain == chain[..|chain| - 1] + [chain[|chain| - 1]];
      FromLeftTail(chain[..|chain| - 1], chain[|chain| - 1]);
    }
  }

  predicate HoldsL(pc: Pc) {
    pc.HaveL? || pc.LWantR? || pc.LHaveR? || pc.LReleaseR? || pc.ReleaseL? || pc.RWantR? || pc.RHaveBoth?
      || pc.RReleaseL?
  }

  predicate HoldsR(pc: Pc) {
    pc.LHaveR? || pc.LReleaseR? || pc.HaveR? || pc.DropR? || pc.RHaveBoth? || pc.RReleaseL? || pc.ReleaseR?
  }

  ghost predicate LocksOk(s: State) {
    (s.llock.Some? ==> s.llock.value < |s.threads|) && (s.rlock.Some? ==> s.rlock.value < |s.threads|)
    && forall t: nat :: t < |s.threads| ==>
      (HoldsL(s.threads[t].pc) <==> s.llock == Some(t)) && (HoldsR(s.threads[t].pc) <==> s.rlock == Some(t))
  }

  /** The left half followed by the right half. */
  function Contents(s: State): seq<nat> { FromLeft(s.rdeq + s.ldeq) }

  predicate ReturnsNow(pc: Pc) { pc.LReleaseR? || pc.ReleaseL? || pc.RReleaseL? || pc.ReleaseR? }

  predicate LeftPc(pc: Pc) { pc.WantL? || pc.HaveL? || pc.LWantR? || pc.LHaveR? || pc.LReleaseR? || pc.ReleaseL? }

  ghost predicate CallOk(s: State, t: nat)
    requires t < |s.threads|
  {
    var pc := s.threads[t].pc;
    PcOk(pc, s.ldeq)
    && if ReturnsNow(pc) then
      CountOf(s.log, t) == s.threads[t].calls + 1 && LatestOf(s.log, t) == Some(Entry(t, pc.op, pc.e))
    else CountOf(s.log, t) == s.threads[t].calls
  }

  ghost predicate Inv(s: State) {
    LocksOk(s) && Legal(s.log) && Replay(s.log) == Contents(s)
    && forall t :: 0 <= t < |s.threads| ==> CallOk(s, t)
  }

  // ----- accesses are sequential operations

  /** An access that decides its operation is the sequential one on both halves together; one
      that does not changes nothing. */
  ghost predicate Sequential(ldeq: seq<nat>, rdeq: seq<nat>, op: Op, o: Outcome) {
    var a := FromLeft(rdeq + ldeq);
    if o.result.Some? then o.result.value == Returned(a, op) && FromLeft(o.rdeq + o.ldeq) == After(a, op)
    else o.ldeq == ldeq && o.rdeq == rdeq
  }

  /** The left half is the tail end of the whole chain, the right half its head end. */
  lemma ChainEnds(ldeq: seq<nat>, rdeq: seq<nat>, x: nat)
    ensures rdeq + (ldeq + [x]) == (rdeq + ldeq) + [x] && ([x] + rdeq) + ldeq == [x] + (rdeq + ldeq)
    ensures ldeq != [] ==> PopL(rdeq + ldeq) == (rdeq + PopL(ldeq).0, PopL(ldeq).1)
    ensures rdeq != [] ==> PopR(rdeq + ldeq) == (PopR(rdeq).0 + ldeq, PopR(rdeq).1)
    ensures rdeq + [] == rdeq && [] + ldeq == ldeq
  {
    if ldeq != [] { assert (rdeq + ldeq)[..|rdeq + ldeq| - 1] == rdeq + ldeq[..|ldeq| - 1]; }
    if rdeq != [] { assert (rdeq + ldeq)[1..] == rdeq[1..] + ldeq; }
  }

  lemma LeftAccess(ldeq: seq<nat>, rdeq: seq<nat>, op: Op)
    requires op.side == L
    ensures Sequential(ldeq, rdeq, op, Access(ldeq, rdeq, HaveL(op)))
  {
    hide FromLeft;
    ChainEnds(ldeq, rdeq, if op.Push? then op.x else 0);
    PopsAgree(rdeq + ldeq);
    if op.Push? { FromLeftTail(rdeq + ldeq, op.x); }
  }

  lemma LeftAccessBoth(rdeq: seq<nat>, op: Op)
    requires op == Pop(L)
    ensures Sequential([], rdeq, op, Access([], rdeq, LHaveR(op)))
  {
    hide FromLeft;
    ChainEnds([], rdeq, 0);
    ChainEnds(PopL(rdeq).0, [], 0);
    ChainEnds([], PopL(rdeq).0, 0);
    PopsAgree(rdeq);
  }

  lemma RightAccess(ldeq: seq<nat>, rdeq: seq<nat>, op: Op)
    requires op.side == R
    ensures Sequential(ldeq, rdeq, op, Access(ldeq, rdeq, HaveR(op)))
  {
    hide FromLeft;
    ChainEnds(ldeq, rdeq, if op.Push? then op.x else 0);
    PopsAgree(rdeq + ldeq);
    if op.Push? { FromLeftHead(rdeq + ldeq, op.x); }
  }

  lemma RightAccessBoth(ldeq: seq<nat>, rdeq: seq<nat>, op: Op)
    requires op == Pop(R)
    ensures Sequential(ldeq, rdeq, op, Access(ldeq, rdeq, RHaveBoth(op)))
  {
    hide FromLeft;
    ChainEnds(ldeq, rdeq, 0);
    ChainEnds([], PopR(ldeq).0, 0);
    PopsAgree(rdeq + ldeq);
    if rdeq == [] { PopsAgree(ldeq); }
  }

  /** What CallOk asks of a control state, apart from the log. */
  predicate PcOk(pc: Pc, ldeq: seq<nat>) {
    (!pc.Idle? ==> (LeftPc(pc) <==> pc.op.side == L)) && (pc.LWantR? || pc.LHaveR? ==> pc.op.Pop? && ldeq == [])
    && (pc.DropR? || pc.RWantL? || pc.RWantR? || pc.RHaveBoth? ==> pc.op.Pop?)
  }

  lemma AccessSequential(ldeq: seq<nat>, rdeq: seq<nat>, pc: Pc)
    requires Accessing(pc) && PcOk(pc, ldeq)
    ensures Sequential(ldeq, rdeq, pc.op, Access(ldeq, rdeq, pc))
  {
    hide Access, Sequential;
    match pc {
      case HaveL(op) => LeftAccess(ldeq, rdeq, op);
      case LHaveR(op) => LeftAccessBoth(rdeq, op);
      case HaveR(op) => RightAccess(ldeq, rdeq, op);
      case RHaveBoth(op) => RightAccessBoth(ldeq, rdeq, op);
    }
  }

  ghost predicate AccessPcOk(ldeq: seq<nat>, pc: Pc, o: Outcome)
    requires !pc.Idle?
  {
    PcOk(o.pc, o.ldeq) && !o.pc.Idle? && o.pc.op == pc.op && HoldsL(o.pc) == HoldsL(pc) && HoldsR(o.pc) == HoldsR(pc)
    && (ReturnsNow(o.pc) <==> o.result.Some?) && (ReturnsNow(o.pc) ==> Some(o.pc.e) == o.result)
       && (o.ldeq == ldeq || HoldsL(pc))
  }

  /** The control state an access leads to, and which locks it keeps. */
  lemma AccessPc(ldeq: seq<nat>, rdeq: seq<nat>, pc: Pc)
    requires Accessing(pc) && PcOk(pc, ldeq)
    ensures AccessPcOk(ldeq, pc, Access(ldeq, rdeq, pc))
  {
    match pc {
      case HaveL(op) =>
      case LHaveR(op) =>
      case HaveR(op) =>
      case RHaveBoth(op) =>
    }
  }

  // ----- every step keeps the invariant

  lemma StepKeepsLocks(s: State, t: nat, s': State)
    requires LocksOk(s) && Step(s, t, s') && PcOk(s.threads[t].pc, s.ldeq)
    ensures LocksOk(s') && |s'.threads| == |s.threads|
    ensures forall u :: 0 <= u < |s.threads| && u != t ==> s'.threads[u] == s.threads[u]
  {
    hide Access;
    var pc := s.threads[t].pc;
    if Accessing(pc) { AccessPc(s.ldeq, s.rdeq, pc); }
  }

  /** Either t performs its operation, or nothing visible changes. */
  lemma StepPerforms(s: State, t: nat, s': State)
    requires Inv(s) && Step(s, t, s')
    ensures Legal(s'.log) && Replay(s'.log) == Contents(s')
    ensures s'.log == s.log || exists e: Entry :: e.t == t && s'.log == s.log + [e]
  {
    var pc := s.threads[t].pc;
    assert CallOk(s, t);
    if Accessing(pc) {
      AccessSequential(s.ldeq, s.rdeq, pc);
      var o := Access(s.ldeq, s.rdeq, pc);
      if o.result.Some? {
        LegalGrows(s.log, Entry(t, pc.op, o.result.value));
      }
    }
    hide Legal, Access, Replay, CallOk, LocksOk, FromLeft;
  }

  lemma StepKeepsOwnCall(s: State, t: nat, s': State)
    requires Calling(s, t) && Step(s, t, s') && t < |s'.threads|
    ensures CallOk(s', t)
  {
    hide Access, CountOf, LatestOf;
    if Accessing(s.threads[t].pc) {
      AccessKeepsOwnCall(s, t);
    }
  }

  ghost predicate Calling(s: State, t: nat) { t < |s.threads| && CallOk(s, t) }

  lemma AccessKeepsOwnCall(s: State, t: nat)
    requires Calling(s, t) && Accessing(s.threads[t].pc)
    ensures Calling(Moved(s, t), t)
  {
    hide Access, CountOf, LatestOf;
    var pc := s.threads[t].pc;
    AccessPc(s.ldeq, s.rdeq, pc);
    var o := Access(s.ldeq, s.rdeq, pc);
    if o.result.Some? { LogGrows(s.log, Entry(t, pc.op, o.result.value), t); }
  }

  /** Another thread's control state stands; while it holds the left lock the left half is its. */
  lemma StepKeepsOtherCall(s: State, t: nat, s': State, u: nat)
    requires Inv(s) && Step(s, t, s') && u < |s.threads| && u != t
    ensures u < |s'.threads| && CallOk(s', u)
  {
    hide Step, Legal, Replay, CountOf, LatestOf, Access;
    assert t < |s.threads| by { StepCaller(s, t, s'); }
    assert CallOk(s, t) && CallOk(s, u);
    StepKeepsLocks(s, t, s');
    StepPerforms(s, t, s');
    if s'.log != s.log {
      var e: Entry :| e.t == t && s'.log == s.log + [e];
      LogGrows(s.log, e, u);
    }
    LeftHalfKept(s, t, s');
  }

  lemma StepCaller(s: State, t: nat, s': State)
    requires Step(s, t, s')
    ensures t < |s.threads|
  {
  }

  /** Only the holder of the left lock changes the left half. */
  lemma LeftHalfKept(s: State, t: nat, s': State)
    requires Step(s, t, s') && PcOk(s.threads[t].pc, s.ldeq)
    ensures s'.ldeq == s.ldeq || HoldsL(s.threads[t].pc)
  {
    hide Access;
    if Accessing(s.threads[t].pc) { AccessPc(s.ldeq, s.rdeq, s.threads[t].pc); }
  }

  lemma StepKeepsInv(s: State, t: nat, s': State)
    requires Inv(s) && Step(s, t, s')
    ensures Inv(s')
  {
    assert CallOk(s, t);
    StepKeepsLocks(s, t, s');
    StepPerforms(s, t, s');
    hide Step, Legal, Replay, CallOk, LocksOk;
    forall u | 0 <= u < |s'.threads|
      ensures CallOk(s', u)
    {
      if u == t { StepKeepsOwnCall(s, t, s'); } else { StepKeepsOtherCall(s, t, s', u); }
    }
  }

  lemma InitInv(s: State)
    requires Init(s)
    ensures Inv(s)
  {
  }

  lemma {:induction false} RunInv(run: seq<State>, who: seq<nat>, k: nat)
    requires IsRun(run, who) && k < |run|
    ensures Inv(run[k])
  {
    hide Inv, Init, Step;
    if k == 0 {
      InitInv(run[0]);
    } else {
      RunInv(run, who, k - 1);
      assert Step(run[k - 1], who[k - 1], run[k - 1 + 1]);
      StepKeepsInv(run[k - 1], who[k - 1], run[k]);
    }
  }

  // ----- what holds in every run

  /** Every concurrent run refines the sequential deque, whose contents are always the left half
      followed by the right half.  The log holds one entry, made between invocation and return
      and carrying the returned value, for every operation returned from. */
  lemma Linearizable(run: seq<State>, who: seq<nat>, k: nat)
    requires IsRun(run, who) && k < |run|
    ensures var s := run[k];
      Legal(s.log) && Replay(s.log) == Contents(s) && forall t :: 0 <= t < |s.threads| ==> CallOk(s, t)
  {
    RunInv(run, who, k);
  }

  lemma {:induction false} LogOnlyGrows(run: seq<State>, who: seq<nat>, i: nat, j: nat)
    requires IsRun(run, who) && i <= j < |run|
    ensures Prefix(run[i].log, run[j].log)
    decreases j
  {
    hide Init, Step;
    if i < j {
      LogOnlyGrows(run, who, i, j - 1);
      assert Step(run[j - 1], who[j - 1], run[j - 1 + 1]);
      StepLogs(run[j - 1], who[j - 1], run[j]);
    }
  }

  lemma StepLogs(s: State, t: nat, s': State)
    requires Step(s, t, s')
    ensures Prefix(s.log, s'.log)
  {
    hide Access, Control, MayMove;
  }

  lemma AccessEmpty(ldeq: seq<nat>, rdeq: seq<nat>, pc: Pc)
    requires Accessing(pc) && PcOk(pc, ldeq)
    ensures pc.op.Pop? && Access(ldeq, rdeq, pc).result == Some(None) ==> ldeq == [] && rdeq == []
    ensures var o := Access(ldeq, rdeq, pc);
      (ReturnsNow(o.pc) ==> Some(o.pc.e) == o.result) && !o.pc.Idle? && o.pc.op == pc.op
  {
    AccessSequential(ldeq, rdeq, pc);
    AccessPc(ldeq, rdeq, pc);
    hide Access;
    assert rdeq + ldeq == [] ==> rdeq == [] && ldeq == [];
  }

  /** A pop is about to return NULL only if the whole deque was empty at its logged access. */
  lemma NullMeansEmpty(run: seq<State>, who: seq<nat>, k: nat)
    requires IsRun(run, who) && k < |who| && who[k] < |run[k].threads|
    requires !ReturnsNow(run[k].threads[who[k]].pc)
    ensures who[k] < |run[k + 1].threads|
    ensures var pc := run[k + 1].threads[who[k]].pc;
      ReturnsNow(pc) && pc.op.Pop? && pc.e == None ==> run[k].ldeq == [] && run[k].rdeq == []
  {
    var s, t := run[k], who[k];
    RunInv(run, who, k);
    assert Step(s, t, run[k + 1]);
    assert CallOk(s, t);
    StepKeepsLocks(s, t, run[k + 1]);
    if Accessing(s.threads[t].pc) { AccessEmpty(s.ldeq, s.rdeq, s.threads[t].pc); }
    hide Access, Inv, Init, Legal, LocksOk, Splice;
  }

  /** The locks are always taken left before right, so some thread inside an operation can
      move whenever any thread is inside one. */
  lemma NoDeadlock(run: seq<State>, who: seq<nat>, k: nat, t: nat)
    requires IsRun(run, who) && k < |run| && t < |run[k].threads| && !run[k].threads[t].pc.Idle?
    ensures exists u, s' :: 0 <= u < |run[k].threads| && !run[k].threads[u].pc.Idle? && Step(run[k], u, s')
  {
    var s := run[k];
    RunInv(run, who, k);
    var u := if s.rlock.Some? then s.rlock.value else if s.llock.Some? then s.llock.value else t;
    assert Step(s, u, Moved(s, u));
  }

  // ----- what one call does

  /** The operation a call has in hand stays the one invoked; its result is the one logged. */
  lemma StepOfCall(s: State, t: nat, s': State)
    requires Step(s, t, s') && !s.threads[t].pc.Idle? && PcOk(s.threads[t].pc, s.ldeq)
    ensures t < |s'.threads|
    ensures var pc, pc' := s.threads[t].pc, s'.threads[t].pc;
      if pc'.Idle? then ReturnsNow(pc) && s'.log == s.log
      else
        pc'.op == pc.op
        && (ReturnsNow(pc) ==> ReturnsNow(pc') && pc'.e == pc.e && s'.log == s.log)
        && (!ReturnsNow(pc) ==> s'.log == if ReturnsNow(pc') then s.log + [Entry(t, pc.op, pc'.e)] else s.log)
  {
    hide Access;
    var pc := s.threads[t].pc;
    if Accessing(pc) { AccessPc(s.ldeq, s.rdeq, pc); }
  }

  /** What a call of op, begun when the log was `from` long, has logged so far. */
  ghost predicate CallSoFar(s: State, from: nat, t: nat, op: Op) {
    t < |s.threads| && from <= |s.log| && !s.threads[t].pc.Idle? && s.threads[t].pc.op == op
    && if ReturnsNow(s.threads[t].pc) then LoggedOnce(s.log, from, Entry(t, op, s.threads[t].pc.e))
       else LoggedNone(s.log, from, t)
  }

  lemma CallProceeds(s: State, u: nat, s': State, from: nat, t: nat, op: Op)
    requires Inv(s) && Step(s, u, s') && CallSoFar(s, from, t, op) && t < |s'.threads| && !s'.threads[t].pc.Idle?
    ensures CallSoFar(s', from, t, op)
  {
    hide Legal, Replay, CountOf, LatestOf, Step, LoggedNone, LoggedOnce, LocksOk;
    StepCaller(s, u, s');
    assert CallOk(s, u) && CallOk(s, t);
    var pc := s.threads[t].pc;
    if u == t {
      StepOfCall(s, t, s');
      if !ReturnsNow(pc) && ReturnsNow(s'.threads[t].pc) {
        NoneGrows(s.log, from, t, Entry(t, op, s'.threads[t].pc.e));
      }
    } else {
      StepKeepsLocks(s, u, s');
      StepPerforms(s, u, s');
      if s'.log != s.log {
        var e: Entry :| e.t == u && s'.log == s.log + [e];
        if ReturnsNow(pc) { OnceGrows(s.log, from, Entry(t, op, pc.e), e); } else { NoneGrows(s.log, from, t, e); }
      }
    }
  }

  /** Thread t invokes op with its step at i and is inside the call until it returns at j. */
  ghost predicate CallReturns(run: seq<State>, who: seq<nat>, t: nat, op: Op, i: nat, j: nat) {
    IsRun(run, who) && i < j < |run| && who[i] == t && t < |run[i].threads| && run[i].threads[t].pc.Idle?
    && t < |run[i + 1].threads| && run[i + 1].threads[t].pc == (if op.side == L then WantL(op) else WantR(op))
    && t < |run[j].threads| && run[j].threads[t].pc.Idle?
    && forall x :: i < x < j ==> t < |run[x].threads| && !run[x].threads[t].pc.Idle?
  }

  lemma {:induction false} CallRuns(run: seq<State>, who: seq<nat>, t: nat, op: Op, i: nat, j: nat, x: nat)
    requires CallReturns(run, who, t, op, i, j) && i < x < j
    ensures CallSoFar(run[x], |run[i].log|, t, op)
    decreases x
  {
    hide Init, Inv, Step;
    var s, u, s' := run[x - 1], who[x - 1], run[x - 1 + 1];
    assert Step(s, u, s');
    if x > i + 1 {
      hide CallSoFar;
      CallRuns(run, who, t, op, i, j, x - 1);
      RunInv(run, who, x - 1);
      CallProceeds(s, u, s', |run[i].log|, t, op);
    } else {
      CallEntered(s, t, s', op);
    }
  }

  lemma CallEntered(s: State, t: nat, s': State, op: Op)
    requires Step(s, t, s') && s.threads[t].pc.Idle?
    requires t < |s'.threads| && s'.threads[t].pc == if op.side == L then WantL(op) else WantR(op)
    ensures CallSoFar(s', |s.log|, t, op)
  {
    hide Access;
  }

  /** A call does what it was invoked for, once: between invocation and return the history gains
      exactly one operation of the thread, the one invoked, and the call returns that entry's
      result, which is what the sequential deque returns there. */
  lemma CallTakesEffect(run: seq<State>, who: seq<nat>, t: nat, op: Op, i: nat, j: nat)
    requires CallReturns(run, who, t, op, i, j)
    ensures j > i + 1 && ReturnsNow(run[j - 1].threads[t].pc)
    ensures TakesEffectOnce(run[j].log, |run[i].log|, t, op, run[j - 1].threads[t].pc.e)
  {
    hide Init, LoggedOnce, LoggedNone, Legal, Replay, TakesEffectOnce, Step, LocksOk, CountOf, LatestOf;
    var s, u, s' := run[j - 1], who[j - 1], run[j - 1 + 1];
    assert Step(s, u, s');
    StepCaller(s, u, s');
    CallRuns(run, who, t, op, i, j, j - 1);
    RunInv(run, who, j - 1);
    assert CallOk(s, u) && CallOk(s, t);
    if u != t { StepKeepsLocks(s, u, s'); }
    StepOfCall(s, t, s');
    OnceIsLegal(s.log, |run[i].log|, t, op, s.threads[t].pc.e);
  }

  /** How many steps a call still takes at most. */
  function StepsLeft(pc: Pc): nat {
    match pc
    case Idle => 0
    case WantL(_) => 6
    case HaveL(_) => 5
    case LWantR(_) => 4
    case LHaveR(_) => 3
    case LReleaseR(_, _) => 2
    case ReleaseL(_, _) => 1
    case WantR(_) => 8
    case HaveR(_) => 7
    case DropR(_) => 6
    case RWantL(_) => 5
    case RWantR(_) => 4
    case RHaveBoth(_) => 3
    case RReleaseL(_, _) => 2
    case ReleaseR(_, _) => 1
  }

  lemma OwnStepAdvances(s: State, t: nat, s': State)
    requires Step(s, t, s') && !s.threads[t].pc.Idle?
    ensures t < |s'.threads| && StepsLeft(s'.threads[t].pc) < StepsLeft(s.threads[t].pc)
  {
    hide PopL, PopR, Splice;
  }

  lemma CallBegins(s: State, t: nat, s': State)
    requires Step(s, t, s') && s.threads[t].pc.Idle?
    ensures t < |s'.threads| && StepsLeft(s'.threads[t].pc) <= 8
  {
    hide Moved;
  }

  /** A call is over after at most nine steps of its thread, however many others intervene: an
      empty half never keeps a pop from going on to the other. */
  lemma {:induction false} CallIsShort(run: seq<State>, who: seq<nat>, t: nat, i: nat, j: nat)
    requires IsRun(run, who) && i < j < |run| && who[i] == t && t < |run[i].threads| && run[i].threads[t].pc.Idle?
    requires forall x :: i < x <= j ==> t < |run[x].threads| && !run[x].threads[t].pc.Idle?
    ensures OwnSteps(who, t, i, j) + StepsLeft(run[j].threads[t].pc) <= 9
    decreases j
  {
    hide Init, LocksOk, Legal, Replay, CountOf, LatestOf, Step, PcOk, StepsLeft;
    var s, u, s' := run[j - 1], who[j - 1], run[j - 1 + 1];
    assert Step(s, u, s');
    assert OwnSteps(who, t, i, i) == 0;
    if j == i + 1 {
      CallBegins(s, t, s');
    } else {
      CallIsShort(run, who, t, i, j - 1);
      RunInv(run, who, j - 1);
      StepCaller(s, u, s');
      assert CallOk(s, u);
      if u == t { OwnStepAdvances(s, t, s'); } else { StepKeepsLocks(s, u, s'); }
    }
  }
}
