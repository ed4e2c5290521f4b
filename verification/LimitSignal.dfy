/** The signal-theft limit counter of count/count_lim_sig.c as a state machine: one transition
    per access to a variable that another thread or the signal handler may touch.  A locked
    region in which nothing waits is one transition.  A signal may arrive at any time; its
    handler runs between two steps of its own thread but interleaves with all others.
 */
module LimitSignal {

  const MAX_COUNTERMAX: nat := 100

  datatype Theft = IDLE | REQ | ACK | READY

  datatype Op = Op(add: bool, delta: nat)

  /** Where a thread is.  k is the thread a flush is working on. */
  datatype Pc =
    | Resting
    | Begin(op: Op)                      // about to set counting
    | CheckTheft(op: Op)                 // about to load theft
    | ReadMax(op: Op)                    // theft check passed, about to load countermax
    | ReadCounter(op: Op, cm: nat)       // about to load counter and compare
    | LoadCounter(op: Op)                // comparison passed, about to load counter again
    | StoreCounter(op: Op, c: nat)       // about to store the updated counter
    | EndCounting(op: Op, fast: bool)    // about to clear counting
    | CheckAck(op: Op, fast: bool)       // about to load theft
    | SetReady(op: Op, fast: bool)       // saw ACK, about to store READY
    | WantLock(op: Op)
    | Inspect(op: Op, k: nat)            // first flush loop: about to load *countermaxp[k]
    | PostReady(op: Op, k: nat)          // it was zero
    | PostRequest(op: Op, k: nat)        // it was not
    | Await(op: Op, k: nat)              // second flush loop: waiting for READY
    | Collect(op: Op, k: nat)
    | ZeroCounter(op: Op, k: nat)
    | Unreserve(op: Op, k: nat)
    | ZeroMax(op: Op, k: nat)
    | SetIdle(op: Op, k: nat)
    | Recheck(op: Op)

  /** The handler of SIGUSR1. */
  datatype Handler = NoSignal | SawRequest | Acked | SawNotCounting

  datatype Thread = Thread(pc: Pc, sig: Handler, theft: Theft, counting: bool, counter: nat, countermax: nat)

  datatype Lock = Free | HeldBy(t: nat)

  /** net is the net amount of all successful additions and subtractions so far. */
  datatype State = State(threads: seq<Thread>, globalcount: nat, globalreserve: int, globalcountmax: nat, lock: Lock,
      net: int)

  datatype Event =
    | Main(t: nat)                       // the next step of thread t
    | Call(t: nat, op: Op)
    | Signal(t: nat)                     // the next step of thread t's handler
    | Slow(t: nat, online: nat)          // take the lock; online = num_online_threads()
    | Final(t: nat, online: nat)         // the second check of the slow path

  // ----- the locked arithmetic

  function Min(a: int, b: int): int { if a < b then a else b }

  /** Room for an addition, or content for a subtraction. */
  predicate Fits(op: Op, globalcount: int, globalreserve: int, globalcountmax: int) {
    if op.add then globalcountmax - globalcount - globalreserve >= op.delta else globalcount >= op.delta
  }

  function Apply(op: Op, x: int): int { if op.add then x + op.delta else x - op.delta }

  /** The countermax and counter that balance_count gives the calling thread. */
  function BalanceMax(globalcount: int, globalreserve: int, globalcountmax: int, online: nat): int
    requires 0 < online
  {
    Min((globalcountmax - globalcount - globalreserve) / online, MAX_COUNTERMAX)
  }

  function BalanceCounter(globalcount: int, cm: int): int { Min(cm / 2, globalcount) }

  // ----- transitions

  function Set(s: State, t: nat, th: Thread): State
    requires t < |s.threads|
  {
    s.(threads := s.threads[t := th])
  }

  function Goto(s: State, t: nat, pc: Pc): State
    requires t < |s.threads|
  {
    Set(s, t, s.threads[t].(pc := pc))
  }

  predicate FastRoom(op: Op, cm: nat, c: nat) {
    if op.add then cm - c >= op.delta else c >= op.delta
  }

  /** The fast path of add_count and sub_count. */
  ghost predicate FastStep(s: State, t: nat, s': State)
    requires t < |s.threads|
  {
    var th := s.threads[t];
    match th.pc
    case Begin(op) => s' == Set(s, t, th.(pc := CheckTheft(op), counting := true))
    case CheckTheft(op) =>
      s' == Goto(s, t, if th.theft == IDLE || th.theft == REQ then ReadMax(op) else EndCounting(op, false))
    case ReadMax(op) => s' == Goto(s, t, ReadCounter(op, th.countermax))
    case ReadCounter(op, cm) =>
      s' == Goto(s, t, if FastRoom(op, cm, th.counter) then LoadCounter(op) else EndCounting(op, false))
    case LoadCounter(op) => s' == Goto(s, t, StoreCounter(op, th.counter))
    case StoreCounter(op, c) => Apply(op, c) >= 0
      && s' == Set(s, t, th.(pc := EndCounting(op, true), counter := Apply(op, c))).(net := Apply(op, s.net))
    case EndCounting(op, fast) => s' == Set(s, t, th.(pc := CheckAck(op, fast), counting := false))
    case CheckAck(op, fast) => s' == Goto(s, t,
      if th.theft == ACK then SetReady(op, fast) else if fast then Resting else WantLock(op))
    case SetReady(op, fast) => s' == Set(s, t, th.(theft := READY, pc := if fast then Resting else WantLock(op)))
    case _ => false
  }

  /** flush_local_count, run by the lock holder h. */
  ghost predicate FlushStep(s: State, h: nat, s': State)
    requires h < |s.threads|
  {
    match s.threads[h].pc
    case Inspect(op, k) =>
      if k < |s.threads| then s' == Goto(s, h, if s.threads[k].countermax == 0 then PostReady(op, k)
        else PostRequest(op, k))
      else s' == Goto(s, h, Await(op, 0))
    case PostReady(op, k) => k < |s.threads|
      && s' == Goto(Set(s, k, s.threads[k].(theft := READY)), h, Inspect(op, k + 1))
    case PostRequest(op, k) => k < |s.threads|
      && s' == Goto(Set(s, k, s.threads[k].(theft := REQ)), h, Inspect(op, k + 1))
    case Await(op, k) =>
      if k < |s.threads| then s.threads[k].theft == READY && s' == Goto(s, h, Collect(op, k))
      else s' == Goto(s, h, Recheck(op))
    case Collect(op, k) => k < |s.threads|
      && s' == Goto(s, h, ZeroCounter(op, k)).(globalcount := s.globalcount + s.threads[k].counter)
    case ZeroCounter(op, k) => k < |s.threads|
      && s' == Goto(Set(s, k, s.threads[k].(counter := 0)), h, Unreserve(op, k))
    case Unreserve(op, k) => k < |s.threads|
      && s' == Goto(s, h, ZeroMax(op, k)).(globalreserve := s.globalreserve - s.threads[k].countermax)
    case ZeroMax(op, k) => k < |s.threads|
      && s' == Goto(Set(s, k, s.threads[k].(countermax := 0)), h, SetIdle(op, k))
    case SetIdle(op, k) => k < |s.threads|
      && s' == Goto(Set(s, k, s.threads[k].(theft := IDLE)), h, Await(op, k + 1))
    case _ => false
  }

  ghost predicate HandlerStep(s: State, t: nat, s': State)
    requires t < |s.threads|
  {
    var th := s.threads[t];
    match th.sig
    case NoSignal => s' == Set(s, t, th.(sig := if th.theft == REQ then SawRequest else NoSignal))
    case SawRequest => s' == Set(s, t, th.(theft := ACK, sig := Acked))
    case Acked => s' == Set(s, t, th.(sig := if th.counting then NoSignal else SawNotCounting))
    case SawNotCounting => s' == Set(s, t, th.(theft := READY, sig := NoSignal))
  }

  /** A successful slow path: update the global count, refill the own cache, unlock. */
  function Settle(s: State, t: nat, op: Op, online: nat): State
    requires t < |s.threads| && 0 < online && Fits(op, s.globalcount, s.globalreserve, s.globalcountmax)
    requires s.globalcount + s.globalreserve <= s.globalcountmax
  {
    var g := Apply(op, s.globalcount);
    var cm := BalanceMax(g, s.globalreserve, s.globalcountmax, online);
    var c := BalanceCounter(g, cm);
    Set(s, t, s.threads[t].(pc := Resting, counter := c, countermax := cm))
      .(globalcount := g - c, globalreserve := s.globalreserve + cm, lock := Free, net := Apply(op, s.net))
  }

  function Globalized(s: State, t: nat): State
    requires t < |s.threads|
  {
    var th := s.threads[t];
    Set(s, t, th.(counter := 0, countermax := 0))
      .(globalcount := s.globalcount + th.counter, globalreserve := s.globalreserve - th.countermax)
  }

  /** Lock, globalize_count, and either finish or start a flush. */
  ghost predicate SlowStep(s: State, t: nat, online: nat, s': State)
    requires t < |s.threads|
  {
    s.threads[t].pc.WantLock? && s.lock == Free && 0 < online
    && var op, g := s.threads[t].pc.op, Globalized(s, t);
      g.globalcount + g.globalreserve <= g.globalcountmax
      && s' == if Fits(op, g.globalcount, g.globalreserve, g.globalcountmax) then Settle(g, t, op, online)
               else Goto(g, t, Inspect(op, 0)).(lock := HeldBy(t))
  }

  /** The check after the flush: succeed or return 0. */
  ghost predicate FinalStep(s: State, t: nat, online: nat, s': State)
    requires t < |s.threads|
  {
    s.threads[t].pc.Recheck? && 0 < online
    && s.globalcount + s.globalreserve <= s.globalcountmax
    && var op := s.threads[t].pc.op;
      s' == if Fits(op, s.globalcount, s.globalreserve, s.globalcountmax) then Settle(s, t, op, online)
            else Goto(s, t, Resting).(lock := Free)
  }

  ghost predicate Step(s: State, e: Event, s': State) {
    e.t < |s.threads|
    && (!e.Signal? ==> s.threads[e.t].sig == NoSignal)
    && match e
       case Main(t) => FastStep(s, t, s') || FlushStep(s, t, s')
       case Call(t, op) => s.threads[t].pc == Resting && s' == Goto(s, t, Begin(op))
       case Signal(t) => HandlerStep(s, t, s')
       case Slow(t, online) => SlowStep(s, t, online, s')
       case Final(t, online) => FinalStep(s, t, online, s')
  }

  ghost predicate Init(s: State) {
    s.globalcount == 0 && s.globalreserve == 0 && s.lock == Free && s.net == 0
    && forall i :: 0 <= i < |s.threads| ==> s.threads[i] == Thread(Resting, NoSignal, IDLE, false, 0, 0)
  }

  // ----- invariant

  predicate Flushing(pc: Pc) {
    pc.Inspect? || pc.PostReady? || pc.PostRequest? || pc.Await? || pc.Collect? || pc.ZeroCounter?
    || pc.Unreserve? || pc.ZeroMax? || pc.SetIdle? || pc.Recheck?
  }

  predicate Counting(pc: Pc) {
    pc.CheckTheft? || InWindow(pc) || pc.EndCounting?
  }

  /** Between a passed theft check and the store it guards. */
  predicate InWindow(pc: Pc) {
    pc.ReadMax? || pc.ReadCounter? || pc.LoadCounter? || pc.StoreCounter?
  }

  /** The lock holder's program counter, Resting when the lock is free. */
  function Holder(s: State): Pc {
    if s.lock.HeldBy? && s.lock.t < |s.threads| then s.threads[s.lock.t].pc else Resting
  }

  predicate Taking(hp: Pc) {
    hp.Collect? || hp.ZeroCounter? || hp.Unreserve? || hp.ZeroMax? || hp.SetIdle?
  }

  /** The theft values the holder's progress allows thread i. */
  predicate TheftStage(hp: Pc, i: nat, theft: Theft) {
    if hp.Inspect? || hp.PostReady? || hp.PostRequest? then (i < hp.k <==> theft != IDLE)
    else if hp.Await? then (i >= hp.k <==> theft != IDLE)
    else if Taking(hp) then (i >= hp.k <==> theft != IDLE) && (i == hp.k ==> theft == READY)
    else theft == IDLE
  }

  /** What the flush has already taken from thread i. */
  predicate TakenStage(hp: Pc, i: nat, th: Thread) {
    ((hp.Await? || Taking(hp)) && i < hp.k ==> th.countermax == 0)
    && (hp.Recheck? ==> th.countermax == 0)
    && (hp.PostReady? && i == hp.k ==> th.countermax == 0)
    && ((hp.Unreserve? || hp.ZeroMax? || hp.SetIdle?) && i == hp.k ==> th.counter == 0)
    && (hp.SetIdle? && i == hp.k ==> th.countermax == 0)
  }

  predicate Local(th: Thread) {
    th.counter <= th.countermax
    && (th.counting <==> Counting(th.pc))
    && (th.sig.SawRequest? ==> th.theft == REQ)
    && (th.sig.Acked? || th.sig.SawNotCounting? ==> th.theft == ACK)
    && (th.sig.SawNotCounting? ==> !th.counting)
    && (th.pc.SetReady? ==> th.theft == ACK && th.sig == NoSignal)
    && (InWindow(th.pc) && th.theft == READY ==> th.countermax == 0)
    && (th.pc.ReadCounter? ==> th.pc.cm == th.countermax)
    && (th.pc.LoadCounter? ==> FastRoom(th.pc.op, th.countermax, th.counter))
    && (th.pc.StoreCounter? ==> th.pc.c == th.counter && FastRoom(th.pc.op, th.countermax, th.counter))
    && (th.theft == ACK ==>
       th.sig.Acked? || th.sig.SawNotCounting? || th.counting || th.pc.CheckAck? || th.pc.SetReady?)
  }

  ghost predicate ThreadOk(s: State, i: nat)
    requires i < |s.threads|
  {
    var th, hp := s.threads[i], Holder(s);
    Local(th) && TheftStage(hp, i, th.theft) && TakenStage(hp, i, th)
    && (Flushing(th.pc) <==> s.lock == HeldBy(i))
  }

  function SumCounter(threads: seq<Thread>): nat {
    if threads == [] then 0 else SumCounter(threads[..|threads| - 1]) + threads[|threads| - 1].counter
  }

  function SumMax(threads: seq<Thread>): nat {
    if threads == [] then 0 else SumMax(threads[..|threads| - 1]) + threads[|threads| - 1].countermax
  }

  /** Conservation and the bound, with what the holder has in its hands accounted for. */
  ghost predicate GlobalOk(s: State) {
    var hp := Holder(s);
    (Taking(hp) ==> hp.k < |s.threads|)
    && (hp.PostReady? || hp.PostRequest? ==> hp.k < |s.threads|)
    && (hp.Await? || hp.Inspect? ==> hp.k <= |s.threads|)
    && SumMax(s.threads) == s.globalreserve + (if hp.ZeroMax? then s.threads[hp.k].countermax else 0)
    && s.globalcount + SumCounter(s.threads) - (if hp.ZeroCounter? then s.threads[hp.k].counter else 0) == s.net
    && s.globalcount + s.globalreserve
         - (if hp.ZeroCounter? then s.threads[hp.k].counter else if hp.Unreserve? then s.threads[hp.k].countermax
           else 0)
       <= s.globalcountmax
  }

  ghost predicate Inv(s: State) {
    (s.lock.HeldBy? ==> s.lock.t < |s.threads|)
    && (forall i :: 0 <= i < |s.threads| ==> ThreadOk(s, i))
    && GlobalOk(s)
  }

  // ----- preservation

  lemma {:induction false} SumUpdate(threads: seq<Thread>, k: nat, th: Thread)
    requires k < |threads|
    ensures SumCounter(threads[k := th]) == SumCounter(threads) - threads[k].counter + th.counter
    ensures SumMax(threads[k := th]) == SumMax(threads) - threads[k].countermax + th.countermax
    ensures threads[k].counter <= SumCounter(threads) && threads[k].countermax <= SumMax(threads)
  {
    var u := threads[k := th];
    var n := |threads| - 1;
    if k == n {
      assert u[..n] == threads[..n];
    } else {
      assert u[..n] == threads[..n][k := th];
      SumUpdate(threads[..n], k, th);
    }
  }

  /** A step of thread t outside the lock: its own fields only. */
  lemma OwnStep(s: State, s': State, t: nat, th: Thread)
    requires Inv(s) && t < |s.threads|
    requires s' == Set(s, t, th).(net := s.net + th.counter - s.threads[t].counter)
    requires th.countermax == s.threads[t].countermax && Local(th)
    requires TheftStage(Holder(s), t, th.theft)
    requires th.counter != s.threads[t].counter ==> s.threads[t].theft != READY
    requires Flushing(th.pc) == Flushing(s.threads[t].pc) && (Flushing(th.pc) ==> th.pc == s.threads[t].pc)
    ensures Inv(s')
  {
    hide SumCounter, SumMax, Local;
    SumUpdate(s.threads, t, th);
    assert ThreadOk(s, t);
    assert Holder(s') == Holder(s);
    forall i | 0 <= i < |s'.threads|
      ensures ThreadOk(s', i)
    {
      assert ThreadOk(s, i);
    }
  }

  lemma InvThread(s: State, i: nat)
    requires Inv(s) && i < |s.threads|
    ensures ThreadOk(s, i) && GlobalOk(s)
  {
  }

  lemma FastStepKeepsInv(s: State, t: nat, s': State)
    requires Inv(s) && t < |s.threads| && FastStep(s, t, s') && s.threads[t].sig == NoSignal
    ensures Inv(s')
  {
    hide Inv, GlobalOk, FastStep, Local, TakenStage;
    InvThread(s, t);
    FastLocal(s, t, s');
    OwnStep(s, s', t, s'.threads[t]);
  }

  /** A fast-path step keeps its thread's own invariant. */
  lemma FastLocal(s: State, t: nat, s': State)
    requires t < |s.threads| && FastStep(s, t, s') && s.threads[t].sig == NoSignal && Local(s.threads[t])
    ensures |s'.threads| == |s.threads| && Local(s'.threads[t])
    ensures var th, th' := s.threads[t], s'.threads[t];
      s' == Set(s, t, th').(net := s.net + th'.counter - th.counter) && th'.countermax == th.countermax
      && (th'.theft == th.theft || (th.theft == ACK && th'.theft == READY))
      && (th'.counter != th.counter ==> th.theft != READY) && !Flushing(th.pc) && !Flushing(th'.pc)
  {
    hide Local, FastRoom;
    if s.threads[t].pc.StoreCounter? {
      StoreLocal(s, t, s');
    } else {
      FastFrame(s, t, s');
    }
  }

  lemma StoreLocal(s: State, t: nat, s': State)
    requires t < |s.threads| && FastStep(s, t, s') && s.threads[t].sig == NoSignal && Local(s.threads[t])
    requires s.threads[t].pc.StoreCounter?
    ensures |s'.threads| == |s.threads| && Local(s'.threads[t])
    ensures var th, th' := s.threads[t], s'.threads[t];
      s' == Set(s, t, th').(net := s.net + th'.counter - th.counter) && th'.countermax == th.countermax
      && th'.theft == th.theft && (th'.counter != th.counter ==> th.theft != READY)
  {
  }

  lemma FastFrame(s: State, t: nat, s': State)
    requires t < |s.threads| && FastStep(s, t, s') && s.threads[t].sig == NoSignal && Local(s.threads[t])
    requires !s.threads[t].pc.StoreCounter?
    ensures |s'.threads| == |s.threads| && Local(s'.threads[t])
    ensures var th, th' := s.threads[t], s'.threads[t];
      s' == Set(s, t, th') && th'.countermax == th.countermax && th'.counter == th.counter
      && (th'.theft == th.theft || (th.theft == ACK && th'.theft == READY))
  {
  }

  lemma HandlerStepKeepsInv(s: State, t: nat, s': State)
    requires Inv(s) && t < |s.threads| && HandlerStep(s, t, s')
    ensures Inv(s')
  {
    assert ThreadOk(s, t);
    OwnStep(s, s', t, s'.threads[t]);
  }

  /** A flush step that moves only the holder's program counter. */
  predicate MovesOnly(pc: Pc) { pc.Inspect? || pc.Await? || pc.Collect? || pc.Unreserve? }

  /** A flush step that writes one variable of thread k. */
  predicate Writes(pc: Pc) { pc.PostReady? || pc.PostRequest? || pc.ZeroCounter? || pc.ZeroMax? || pc.SetIdle? }

  lemma HolderIs(s: State, h: nat)
    requires Inv(s) && h < |s.threads| && Flushing(s.threads[h].pc)
    ensures s.lock == HeldBy(h) && Holder(s) == s.threads[h].pc && GlobalOk(s)
  {
    assert ThreadOk(s, h);
  }

  /** The holder's own invariant does not depend on where in the flush it is. */
  lemma MovedLocal(th: Thread, th': Thread)
    requires Local(th) && Flushing(th.pc) && Flushing(th'.pc) && th' == th.(pc := th'.pc)
    ensures Local(th')
  {
  }

  lemma MoveShape(s: State, h: nat, s': State, i: nat)
    requires h < |s.threads| && FlushStep(s, h, s') && MovesOnly(s.threads[h].pc) && i < |s.threads|
    ensures |s'.threads| == |s.threads| && s'.lock == s.lock && Flushing(s.threads[h].pc) && Flushing(s'.threads[h].pc)
    ensures s'.threads[i] == if i == h then s.threads[i].(pc := s'.threads[h].pc) else s.threads[i]
  {
  }

  lemma MoveStages(s: State, h: nat, s': State, i: nat)
    requires h < |s.threads| && FlushStep(s, h, s') && MovesOnly(s.threads[h].pc) && i < |s.threads|
    requires TheftStage(s.threads[h].pc, i, s.threads[i].theft) && TakenStage(s.threads[h].pc, i, s.threads[i])
    ensures |s'.threads| == |s.threads|
    ensures TheftStage(s'.threads[h].pc, i, s.threads[i].theft) && TakenStage(s'.threads[h].pc, i, s.threads[i])
  {
  }

  lemma FlushMoveThread(s: State, h: nat, s': State, i: nat)
    requires Inv(s) && h < |s.threads| && FlushStep(s, h, s') && MovesOnly(s.threads[h].pc) && i < |s.threads|
    ensures ThreadOk(s', i)
  {
    hide GlobalOk, Inv, Local, FlushStep, TheftStage;
    MoveShape(s, h, s', i);
    HolderIs(s, h);
    InvThread(s, i);
    MoveStages(s, h, s', i);
    assert Holder(s') == s'.threads[h].pc;
    if i == h { MovedLocal(s.threads[i], s'.threads[i]); }
  }

  lemma FlushMoveGlobal(s: State, h: nat, s': State)
    requires Inv(s) && h < |s.threads| && FlushStep(s, h, s') && MovesOnly(s.threads[h].pc)
    ensures GlobalOk(s')
  {
    hide Inv, SumCounter, SumMax;
    HolderIs(s, h);
    assert Holder(s') == s'.threads[h].pc;
    SumUpdate(s.threads, h, s'.threads[h]);
  }

  /** What the flush writes keeps the invariants of the two threads concerned. */
  lemma WriteLocal(s: State, h: nat, s': State, k: nat)
    requires h < |s.threads| && FlushStep(s, h, s') && Writes(s.threads[h].pc) && k == s.threads[h].pc.k < |s.threads|
    requires Local(s.threads[h]) && Local(s.threads[k])
    requires TheftStage(s.threads[h].pc, k, s.threads[k].theft) && TakenStage(s.threads[h].pc, k, s.threads[k])
    ensures |s'.threads| == |s.threads| && Local(s'.threads[k]) && Local(s'.threads[h])
  {
  }

  /** Thread k after the flush's write to it. */
  function Written(hp: Pc, th: Thread): Thread {
    match hp
    case PostReady(_, _) => th.(theft := READY)
    case PostRequest(_, _) => th.(theft := REQ)
    case ZeroCounter(_, _) => th.(counter := 0)
    case ZeroMax(_, _) => th.(countermax := 0)
    case SetIdle(_, _) => th.(theft := IDLE)
    case _ => th
  }

  function AfterWrite(hp: Pc): Pc {
    match hp
    case PostReady(op, k) => Inspect(op, k + 1)
    case PostRequest(op, k) => Inspect(op, k + 1)
    case ZeroCounter(op, k) => Unreserve(op, k)
    case ZeroMax(op, k) => SetIdle(op, k)
    case SetIdle(op, k) => Await(op, k + 1)
    case _ => hp
  }

  lemma WriteShape(s: State, h: nat, s': State, i: nat)
    requires h < |s.threads| && FlushStep(s, h, s') && Writes(s.threads[h].pc) && i < |s.threads|
    ensures |s'.threads| == |s.threads| && s'.lock == s.lock && s'.threads[h].pc == AfterWrite(s.threads[h].pc)
    ensures var hp, th' := s.threads[h].pc, if i == s.threads[h].pc.k then Written(s.threads[h].pc, s.threads[i])
      else s.threads[i];
      hp.k < |s.threads| && s'.threads[i] == if i == h then th'.(pc := AfterWrite(hp)) else th'
  {
  }

  lemma WriteStages(hp: Pc, i: nat, th: Thread)
    requires Writes(hp) && TheftStage(hp, i, th.theft) && TakenStage(hp, i, th)
    ensures var th' := if i == hp.k then Written(hp, th) else th;
      TheftStage(AfterWrite(hp), i, th'.theft) && TakenStage(AfterWrite(hp), i, th')
  {
  }

  lemma FlushWriteThread(s: State, h: nat, s': State, i: nat)
    requires Inv(s) && h < |s.threads| && FlushStep(s, h, s') && Writes(s.threads[h].pc) && i < |s.threads|
    ensures ThreadOk(s', i)
  {
    hide GlobalOk, Inv, Local, FlushStep, TheftStage, AfterWrite, Written;
    var hp := s.threads[h].pc;
    HolderIs(s, h);
    InvThread(s, i);
    InvThread(s, h);
    WriteShape(s, h, s', i);
    InvThread(s, hp.k);
    WriteLocal(s, h, s', hp.k);
    WriteStages(hp, i, s.threads[i]);
    AfterWriteFlushes(hp);
    assert Holder(s') == AfterWrite(hp);
    assert Local(s'.threads[i]);
  }

  lemma AfterWriteFlushes(hp: Pc)
    requires Writes(hp)
    ensures Flushing(AfterWrite(hp)) && Flushing(hp) && forall th :: Written(hp, th).pc == th.pc
  {
  }

  lemma FlushWriteGlobal(s: State, h: nat, s': State)
    requires Inv(s) && h < |s.threads| && FlushStep(s, h, s') && Writes(s.threads[h].pc)
    requires s.threads[h].pc.k < |s.threads|
    ensures GlobalOk(s')
  {
    hide Inv, SumCounter, SumMax, Local, TheftStage, TakenStage, ThreadOk;
    var k := s.threads[h].pc.k;
    HolderIs(s, h);
    CachedWithin(s, k);
    assert Holder(s') == s'.threads[h].pc;
    WriteSums(s, h, s');
  }

  lemma CachedWithin(s: State, k: nat)
    requires Inv(s) && k < |s.threads|
    ensures s.threads[k].counter <= s.threads[k].countermax
  {
    assert ThreadOk(s, k);
  }

  lemma WriteSums(s: State, h: nat, s': State)
    requires h < |s.threads| && FlushStep(s, h, s') && Writes(s.threads[h].pc) && s.threads[h].pc.k < |s.threads|
    ensures var k := s.threads[h].pc.k;
      SumCounter(s'.threads) == SumCounter(s.threads) - s.threads[k].counter + s'.threads[k].counter
      && SumMax(s'.threads) == SumMax(s.threads) - s.threads[k].countermax + s'.threads[k].countermax
  {
    hide SumCounter, SumMax;
    var pc := s.threads[h].pc;
    var k := pc.k;
    var th := if k == h then s'.threads[k].(pc := pc) else s'.threads[k];
    SumUpdate(s.threads, k, th);
    SumUpdate(s.threads[k := th], h, s'.threads[h]);
    assert s'.threads == s.threads[k := th][h := s'.threads[h]];
  }

  lemma {:induction false} NothingCached(threads: seq<Thread>)
    requires forall i :: 0 <= i < |threads| ==> threads[i].counter <= threads[i].countermax == 0
    ensures SumCounter(threads) == 0 && SumMax(threads) == 0
  {
    if threads != [] { NothingCached(threads[..|threads| - 1]); }
  }

  lemma {:induction false} CachedWithinMax(threads: seq<Thread>)
    requires forall i :: 0 <= i < |threads| ==> threads[i].counter <= threads[i].countermax
    ensures SumCounter(threads) <= SumMax(threads)
  {
    if threads != [] { CachedWithinMax(threads[..|threads| - 1]); }
  }

  lemma BalanceIsBounded(g: int, r: int, max: int, online: nat)
    requires 0 <= g && g + r <= max && 0 < online
    ensures var cm := BalanceMax(g, r, max, online);
      0 <= cm <= max - g - r && cm <= MAX_COUNTERMAX && 0 <= BalanceCounter(g, cm) <= cm && BalanceCounter(g, cm) <= g
  {
    var room := max - g - r;
    assert 0 <= room / online <= room by { Quotient(room, online); }
  }

  lemma Quotient(a: int, b: int)
    requires 0 <= a && 0 < b
    ensures 0 <= a / b <= a
  {
    QuotientBound(a, b, a / b, a % b);
  }

  lemma {:induction false} QuotientBound(a: int, b: int, q: int, r: int)
    requires a == q * b + r && 0 <= r < b && 0 <= a
    ensures 0 <= q <= a
  {
    Product(q, b);
  }

  lemma {:induction false} Product(q: int, b: int)
    requires 0 < b
    ensures if q >= 0 then q * b >= q else q * b <= -b
  {
    if q >= 0 {
      assert q * b - q == q * (b - 1);
    } else {
      assert q * b + b == (q + 1) * b;
    }
  }

  /** Leaving the slow path with a refilled cache. */
  lemma SettleKeepsInv(s: State, t: nat, op: Op, online: nat)
    requires t < |s.threads| && 0 < online && Fits(op, s.globalcount, s.globalreserve, s.globalcountmax)
    requires s.globalcount + s.globalreserve <= s.globalcountmax
    requires Local(s.threads[t]) && s.threads[t].counter == 0 && s.threads[t].countermax == 0
    requires s.threads[t].pc.WantLock? || s.threads[t].pc.Recheck?
    requires s.threads[t].sig == NoSignal && s.threads[t].theft == IDLE
    requires forall i :: 0 <= i < |s.threads| ==> Local(s.threads[i]) && s.threads[i].theft == IDLE
    requires forall i :: 0 <= i < |s.threads| && i != t ==> !Flushing(s.threads[i].pc)
    requires SumMax(s.threads) == s.globalreserve && s.globalcount + SumCounter(s.threads) == s.net
    ensures Inv(Settle(s, t, op, online))
  {
    hide SumCounter, SumMax, BalanceMax, BalanceCounter;
    var g := Apply(op, s.globalcount);
    BalanceIsBounded(g, s.globalreserve, s.globalcountmax, online);
    var s' := Settle(s, t, op, online);
    SumUpdate(s.threads, t, s'.threads[t]);
    assert Holder(s') == Resting;
    forall i | 0 <= i < |s'.threads| ensures ThreadOk(s', i) { assert Local(s.threads[i]); }
  }

  lemma AllUnlocked(s: State)
    requires Inv(s) && s.lock == Free
    ensures forall i :: 0 <= i < |s.threads| ==>
      Local(s.threads[i]) && s.threads[i].theft == IDLE && !Flushing(s.threads[i].pc)
    ensures Holder(s) == Resting && GlobalOk(s)
  {
    hide GlobalOk, Local;
    forall i | 0 <= i < |s.threads|
      ensures Local(s.threads[i]) && s.threads[i].theft == IDLE && !Flushing(s.threads[i].pc)
    {
      assert ThreadOk(s, i);
    }
  }

  lemma SlowStepKeepsInv(s: State, t: nat, online: nat, s': State)
    requires Inv(s) && t < |s.threads| && SlowStep(s, t, online, s') && s.threads[t].sig == NoSignal
    ensures Inv(s')
  {
    hide Inv, SumCounter, SumMax, BalanceMax, BalanceCounter, Settle, ThreadOk, Local;
    var op, g := s.threads[t].pc.op, Globalized(s, t);
    AllUnlocked(s);
    SumUpdate(s.threads, t, g.threads[t]);
    assert Local(g.threads[t]) by { GlobalizedLocal(s.threads[t]); }
    if Fits(op, g.globalcount, g.globalreserve, g.globalcountmax) {
      SettleKeepsInv(g, t, op, online);
    } else {
      FlushBegins(g, t, op, s');
    }
  }

  lemma GlobalizedLocal(th: Thread)
    requires Local(th) && th.pc.WantLock?
    ensures Local(th.(counter := 0, countermax := 0))
  {
  }

  lemma FlushBegins(g: State, t: nat, op: Op, s': State)
    requires t < |g.threads| && s' == Goto(g, t, Inspect(op, 0)).(lock := HeldBy(t)) && g.threads[t].pc.WantLock?
    requires forall i :: 0 <= i < |g.threads| ==>
      Local(g.threads[i]) && g.threads[i].theft == IDLE && !Flushing(g.threads[i].pc)
    requires SumMax(g.threads) == g.globalreserve && g.globalcount + SumCounter(g.threads) == g.net
    requires g.globalcount + g.globalreserve <= g.globalcountmax
    ensures Inv(s')
  {
    hide SumCounter, SumMax;
    SumUpdate(g.threads, t, s'.threads[t]);
    assert Holder(s') == Inspect(op, 0);
    forall i | 0 <= i < |s'.threads| ensures ThreadOk(s', i) { assert Local(g.threads[i]); }
  }

  lemma FinalStepKeepsInv(s: State, t: nat, online: nat, s': State)
    requires Inv(s) && t < |s.threads| && FinalStep(s, t, online, s') && s.threads[t].sig == NoSignal
    ensures Inv(s')
  {
    var op := s.threads[t].pc.op;
    assert ThreadOk(s, t);
    assert Holder(s) == Recheck(op);
    forall i | 0 <= i < |s.threads|
      ensures Local(s.threads[i]) && s.threads[i].theft == IDLE && (i != t ==> !Flushing(s.threads[i].pc))
    {
      assert ThreadOk(s, i);
    }
    if Fits(op, s.globalcount, s.globalreserve, s.globalcountmax) {
      SettleKeepsInv(s, t, op, online);
    } else {
      SumUpdate(s.threads, t, s'.threads[t]);
      assert Holder(s') == Resting;
      forall i | 0 <= i < |s'.threads| ensures ThreadOk(s', i) { assert ThreadOk(s, i); }
    }
  }

  lemma StepKeepsInv(s: State, e: Event, s': State)
    requires Inv(s) && Step(s, e, s')
    ensures Inv(s')
  {
    hide Inv;
    match e
    case Main(t) =>
      if FastStep(s, t, s') {
        FastStepKeepsInv(s, t, s');
      } else {
        FlushStepKeepsInv(s, t, s');
      }
    case Call(t, op) => CallKeepsInv(s, t, op);
    case Signal(t) => HandlerStepKeepsInv(s, t, s');
    case Slow(t, online) => SlowStepKeepsInv(s, t, online, s');
    case Final(t, online) => FinalStepKeepsInv(s, t, online, s');
  }

  lemma FlushStepKeepsInv(s: State, h: nat, s': State)
    requires Inv(s) && h < |s.threads| && FlushStep(s, h, s')
    ensures Inv(s')
  {
    assert |s'.threads| == |s.threads| && s'.lock == s.lock;
    if MovesOnly(s.threads[h].pc) {
      hide FlushStep, GlobalOk, ThreadOk;
      FlushMoveGlobal(s, h, s');
      forall i | 0 <= i < |s.threads| ensures ThreadOk(s', i) { FlushMoveThread(s, h, s', i); }
    } else {
      assert Writes(s.threads[h].pc);
      hide FlushStep, GlobalOk, ThreadOk;
      FlushWriteGlobal(s, h, s');
      forall i | 0 <= i < |s.threads| ensures ThreadOk(s', i) { FlushWriteThread(s, h, s', i); }
    }
  }

  lemma CallKeepsInv(s: State, t: nat, op: Op)
    requires Inv(s) && t < |s.threads| && s.threads[t].pc == Resting && s.threads[t].sig == NoSignal
    ensures Inv(Goto(s, t, Begin(op)))
  {
    assert ThreadOk(s, t);
    OwnStep(s, Goto(s, t, Begin(op)), t, s.threads[t].(pc := Begin(op)));
  }

  // ----- what the invariant is for

  /** The two outcomes of the final check are exact: it succeeds if and only if the true total
      stays within [0, globalcountmax] after the operation. */
  lemma FinalCheckIsExact(s: State, t: nat)
    requires Inv(s) && t < |s.threads| && s.threads[t].pc.Recheck?
    ensures SumCounter(s.threads) == 0 && s.globalcount == s.net
    ensures var op := s.threads[t].pc.op;
      Fits(op, s.globalcount, s.globalreserve, s.globalcountmax) <==> 0 <= Apply(op, s.net) <= s.globalcountmax
  {
    assert ThreadOk(s, t);
    forall i | 0 <= i < |s.threads|
      ensures s.threads[i].counter <= s.threads[i].countermax == 0
    {
      assert ThreadOk(s, i);
    }
    NothingCached(s.threads);
  }

  /** No unsigned subtraction of the source wraps: the guards FastStep, SlowStep and FinalStep
      carry for that reason always hold. */
  lemma SubtractionsNeverWrap(s: State, t: nat)
    requires Inv(s) && t < |s.threads|
    ensures s.threads[t].counter <= s.threads[t].countermax
    ensures s.threads[t].pc.StoreCounter? ==> Apply(s.threads[t].pc.op, s.threads[t].pc.c) >= 0
    ensures s.threads[t].pc.WantLock? && s.lock == Free ==>
      s.threads[t].countermax <= s.globalreserve
      && Globalized(s, t).globalcount + Globalized(s, t).globalreserve <= s.globalcountmax
    ensures s.threads[t].pc.Recheck? ==> 0 <= s.globalreserve && s.globalcount + s.globalreserve <= s.globalcountmax
    ensures Holder(s).Unreserve? ==> s.threads[Holder(s).k].countermax <= s.globalreserve
  {
    assert ThreadOk(s, t);
    SumUpdate(s.threads, t, s.threads[t]);
    if Holder(s).Unreserve? { SumUpdate(s.threads, Holder(s).k, s.threads[Holder(s).k]); }
  }

  /** With the lock free nothing is in flight, and the total respects the limit. */
  lemma LockFreeIsExact(s: State)
    requires Inv(s) && s.lock == Free
    ensures s.globalcount + SumCounter(s.threads) == s.net
    ensures s.globalreserve == SumMax(s.threads)
    ensures 0 <= s.net <= s.globalcountmax
  {
    forall i | 0 <= i < |s.threads|
      ensures s.threads[i].counter <= s.threads[i].countermax
    {
      assert ThreadOk(s, i);
    }
    CachedWithinMax(s.threads);
  }

  /** While thread k's counter is being taken, k is outside its update window, or inside it
      with an empty cache, where its pending update changes nothing. */
  lemma TheftLosesNothing(s: State, k: nat)
    requires Inv(s) && k < |s.threads| && Taking(Holder(s)) && Holder(s).k == k
    ensures s.threads[k].theft == READY
    ensures InWindow(s.threads[k].pc) ==> s.threads[k].counter == 0 && s.threads[k].countermax == 0
    ensures s.threads[k].pc.StoreCounter? ==> Apply(s.threads[k].pc.op, s.threads[k].pc.c) == s.threads[k].counter
  {
    assert ThreadOk(s, k);
  }

  function MainRank(pc: Pc): nat {
    match pc
    case SetReady(_, _) => 1
    case CheckAck(_, _) => 2
    case EndCounting(_, _) => 3
    case StoreCounter(_, _) => 4
    case LoadCounter(_) => 5
    case ReadCounter(_, _) => 6
    case ReadMax(_) => 7
    case CheckTheft(_) => 8
    case _ => 9
  }

  function ReadyRank(th: Thread): nat {
    if th.theft == READY then 0
    else if th.sig == SawNotCounting then 1
    else if th.sig == Acked then 18
    else if th.sig == SawRequest then 19
    else if th.theft == REQ then 20
    else MainRank(th.pc)
  }

  /** The lock holder waits for thread k, which is not READY yet. */
  ghost predicate Waiting(s: State, k: nat) {
    k < |s.threads| && Holder(s).Await? && Holder(s).k == k && s.threads[k].theft != READY
  }

  /** A turn of the handshake: the signal arrives, its handler moves on, or the interrupted
      thread, having been asked to finish its update, does so. */
  ghost predicate Turn(s: State, e: Event, k: nat) {
    k < |s.threads|
    && (if s.threads[k].sig == NoSignal && s.threads[k].theft == ACK then e == Main(k) else e == Signal(k))
  }

  /** While the flusher waits for thread k, the next turn can always be taken. */
  lemma HandshakeStep(s: State, k: nat) returns (e: Event, s': State)
    requires Inv(s) && Waiting(s, k)
    ensures Step(s, e, s') && Turn(s, e, k)
  {
    assert ThreadOk(s, k);
    var th := s.threads[k];
    if th.sig != NoSignal || th.theft == REQ {
      e := Signal(k);
      var x := match th.sig
        case NoSignal => th.(sig := SawRequest)
        case SawRequest => th.(theft := ACK, sig := Acked)
        case Acked => th.(sig := if th.counting then NoSignal else SawNotCounting)
        case SawNotCounting => th.(theft := READY, sig := NoSignal);
      s' := Set(s, k, x);
    } else {
      e := Main(k);
      match th.pc {
        case CheckTheft(op) => s' := Goto(s, k, EndCounting(op, false));
        case ReadMax(op) => s' := Goto(s, k, ReadCounter(op, th.countermax));
        case ReadCounter(op, cm) =>
          s' := Goto(s, k, if FastRoom(op, cm, th.counter) then LoadCounter(op) else EndCounting(op, false));
        case LoadCounter(op) => s' := Goto(s, k, StoreCounter(op, th.counter));
        case StoreCounter(op, c) =>
          s' := Set(s, k, th.(pc := EndCounting(op, true), counter := Apply(op, c))).(net := Apply(op, s.net));
        case EndCounting(op, fast) => s' := Set(s, k, th.(pc := CheckAck(op, fast), counting := false));
        case CheckAck(op, fast) => s' := Goto(s, k, SetReady(op, fast));
        case SetReady(op, fast) => s' := Set(s, k, th.(theft := READY, pc := if fast then Resting else WantLock(op)));
      }
    }
  }

  // ----- runs

  ghost predicate IsRun(run: seq<State>, events: seq<Event>) {
    |run| == |events| + 1 && Init(run[0])
    && forall i :: 0 <= i < |events| ==> Step(run[i], events[i], run[i + 1])
  }

  lemma {:induction false} ZeroSums(threads: seq<Thread>)
    requires forall i :: 0 <= i < |threads| ==> threads[i].counter == threads[i].countermax == 0
    requires forall i :: 0 <= i < |threads| ==> threads[i].pc == Resting
    ensures SumCounter(threads) == 0 && SumMax(threads) == 0 && SumPending(threads) == 0
  {
    if threads != [] { ZeroSums(threads[..|threads| - 1]); }
  }

  lemma InitInv(s: State)
    requires Init(s)
    ensures Inv(s) && s.net == 0 == SumPending(s.threads)
  {
    ZeroSums(s.threads);
  }

  lemma {:induction false} RunInv(run: seq<State>, events: seq<Event>, n: nat)
    requires IsRun(run, events) && n < |run|
    ensures Inv(run[n])
  {
    if n == 0 {
      InitInv(run[0]);
    } else {
      RunInv(run, events, n - 1);
      StepKeepsInv(run[n - 1], events[n - 1], run[n - 1 + 1]);
    }
  }

  // ----- the handshake

  lemma HolderLocked(s: State)
    requires Inv(s) && Holder(s).Await?
    ensures s.lock.HeldBy? && s.lock.t < |s.threads| && Holder(s) == s.threads[s.lock.t].pc
  {
  }

  /** Whoever takes the next step, the flusher goes on waiting and k is no further from READY;
      every turn brings it closer. */
  lemma WaitingStep(s: State, e: Event, s': State, k: nat)
    requires Inv(s) && Step(s, e, s') && Waiting(s, k)
    ensures |s'.threads| == |s.threads| && (Waiting(s', k) || s'.threads[k].theft == READY)
    ensures ReadyRank(s'.threads[k]) + (if Turn(s, e, k) then 1 else 0) <= ReadyRank(s.threads[k])
  {
    hide Inv, GlobalOk, TakenStage, Settle, BalanceMax, BalanceCounter, Fits, Globalized;
    HolderLocked(s);
    InvThread(s, k);
    InvThread(s, e.t);
  }

  /** How many of the events from i to j are turns of the handshake with k. */
  ghost function Turns(run: seq<State>, events: seq<Event>, k: nat, i: nat, j: nat): nat
    requires i <= j <= |events| < |run|
    decreases j
  {
    if i == j then 0 else Turns(run, events, k, i, j - 1) + if Turn(run[j - 1], events[j - 1], k) then 1 else 0
  }

  /** The handshake completes on every schedule: from the moment the flusher waits for thread k,
      whatever all threads do in between, twenty turns make k READY, and until then the flusher
      keeps waiting for it. */
  lemma {:induction false} HandshakeCompletes(run: seq<State>, events: seq<Event>, k: nat, i: nat, j: nat)
    requires IsRun(run, events) && i <= j < |run| && Waiting(run[i], k)
    requires forall x :: i <= x < j ==> k < |run[x].threads| ==> run[x].threads[k].theft != READY
    ensures k < |run[j].threads| && (Waiting(run[j], k) || run[j].threads[k].theft == READY)
    ensures Turns(run, events, k, i, j) + ReadyRank(run[j].threads[k]) <= ReadyRank(run[i].threads[k]) <= 20
    ensures Turns(run, events, k, i, j) <= 20
    ensures Turns(run, events, k, i, j) == 20 ==> run[j].threads[k].theft == READY
    decreases j
  {
    hide Inv, Step, Init, Turn;
    if i < j {
      HandshakeCompletes(run, events, k, i, j - 1);
      RunInv(run, events, j - 1);
      WaitingStep(run[j - 1], events[j - 1], run[j - 1 + 1], k);
    }
    RankZero(run[j].threads[k]);
  }

  lemma RankZero(th: Thread)
    ensures ReadyRank(th) <= 20 && (ReadyRank(th) == 0 ==> th.theft == READY)
  {
  }

  // ----- conservation

  function Effect(op: Op): int { Apply(op, 0) }

  /** What an operation that has succeeded on the fast path, but not returned, has added. */
  function Pending(pc: Pc): int {
    if (pc.EndCounting? || pc.CheckAck? || pc.SetReady?) && pc.fast then Effect(pc.op) else 0
  }

  function SumPending(threads: seq<Thread>): int {
    if threads == [] then 0 else SumPending(threads[..|threads| - 1]) + Pending(threads[|threads| - 1].pc)
  }

  lemma {:induction false} PendingUpdate(threads: seq<Thread>, k: nat, th: Thread)
    requires k < |threads|
    ensures SumPending(threads[k := th]) == SumPending(threads) - Pending(threads[k].pc) + Pending(th.pc)
  {
    var u := threads[k := th];
    var n := |threads| - 1;
    if k == n {
      assert u[..n] == threads[..n];
    } else {
      assert u[..n] == threads[..n][k := th];
      PendingUpdate(threads[..n], k, th);
    }
  }

  /** In this step a call returns 1. */
  ghost predicate ReturnsOne(s: State, e: Event)
    requires e.t < |s.threads|
  {
    var pc := s.threads[e.t].pc;
    match e
    case Main(t) => ((pc.CheckAck? && s.threads[t].theft != ACK) || pc.SetReady?) && pc.fast
    case Slow(t, online) =>
      var g := Globalized(s, t);
      pc.WantLock? && Fits(pc.op, g.globalcount, g.globalreserve, g.globalcountmax)
    case Final(t, online) => pc.Recheck? && Fits(pc.op, s.globalcount, s.globalreserve, s.globalcountmax)
    case _ => false
  }

  /** What a call that returns 1 in this step has added; zero for every other step. */
  ghost function Delivered(s: State, e: Event): int
    requires e.t < |s.threads|
  {
    if ReturnsOne(s, e) then Effect(s.threads[e.t].pc.op) else 0
  }

  /** The sum over all calls that have returned 1 by step n. */
  ghost function DeliveredTotal(run: seq<State>, events: seq<Event>, n: nat): int
    requires n <= |events| < |run|
  {
    if n == 0 then
      0
    else
      var last := if events[n - 1].t < |run[n - 1].threads| then Delivered(run[n - 1], events[n - 1]) else 0;
      DeliveredTotal(run, events, n - 1) + last
  }

  lemma FlushDeliversNothing(s: State, h: nat, s': State)
    requires Inv(s) && h < |s.threads| && FlushStep(s, h, s')
    ensures s'.net == s.net && SumPending(s'.threads) == SumPending(s.threads)
  {
    hide Inv, ThreadOk, GlobalOk, SumPending;
    var pc := s.threads[h].pc;
    if Writes(pc) {
      var k := pc.k;
      var th := if k == h then s'.threads[k].(pc := pc) else s'.threads[k];
      PendingUpdate(s.threads, k, th);
      PendingUpdate(s.threads[k := th], h, s'.threads[h]);
      assert s'.threads == s.threads[k := th][h := s'.threads[h]];
    } else {
      PendingUpdate(s.threads, h, s'.threads[h]);
    }
  }

  lemma SettleDelivers(s: State, t: nat, op: Op, online: nat)
    requires t < |s.threads| && 0 < online && Fits(op, s.globalcount, s.globalreserve, s.globalcountmax)
    requires s.globalcount + s.globalreserve <= s.globalcountmax && Pending(s.threads[t].pc) == 0
    ensures var s' := Settle(s, t, op, online);
      s'.net == s.net + Effect(op) && SumPending(s'.threads) == SumPending(s.threads)
  {
    PendingUpdate(s.threads, t, Settle(s, t, op, online).threads[t]);
  }

  lemma OwnDelivers(s: State, e: Event, s': State)
    requires Step(s, e, s') && (e.Call? || e.Signal? || (e.Main? && FastStep(s, e.t, s')))
    ensures e.t < |s.threads| && s'.net - s.net == Delivered(s, e) + SumPending(s'.threads) - SumPending(s.threads)
  {
    hide SumPending;
    PendingUpdate(s.threads, e.t, s'.threads[e.t]);
  }

  lemma SlowDelivers(s: State, t: nat, online: nat, s': State)
    requires t < |s.threads| && SlowStep(s, t, online, s')
    ensures s'.net - s.net == Delivered(s, Slow(t, online)) + SumPending(s'.threads) - SumPending(s.threads)
  {
    hide SumPending, BalanceMax, BalanceCounter, Settle;
    var g := Globalized(s, t);
    PendingUpdate(s.threads, t, g.threads[t]);
    if Fits(s.threads[t].pc.op, g.globalcount, g.globalreserve, g.globalcountmax) {
      SettleDelivers(g, t, s.threads[t].pc.op, online);
    } else {
      PendingUpdate(g.threads, t, s'.threads[t]);
    }
  }

  lemma FinalDelivers(s: State, t: nat, online: nat, s': State)
    requires t < |s.threads| && FinalStep(s, t, online, s')
    ensures s'.net - s.net == Delivered(s, Final(t, online)) + SumPending(s'.threads) - SumPending(s.threads)
  {
    hide SumPending, BalanceMax, BalanceCounter, Settle;
    if Fits(s.threads[t].pc.op, s.globalcount, s.globalreserve, s.globalcountmax) {
      SettleDelivers(s, t, s.threads[t].pc.op, online);
    } else {
      PendingUpdate(s.threads, t, s'.threads[t]);
    }
  }

  /** Every step adds to the total what it delivers and what it leaves pending. */
  lemma DeliveredStep(s: State, e: Event, s': State)
    requires Inv(s) && Step(s, e, s')
    ensures e.t < |s.threads| && s'.net - s.net == Delivered(s, e) + SumPending(s'.threads) - SumPending(s.threads)
  {
    hide Inv, FastStep, FlushStep, SlowStep, FinalStep, HandlerStep, Fits, Globalized, SumPending, Effect;
    match e
    case Main(t) =>
      if FastStep(s, t, s') {
        OwnDelivers(s, e, s');
      } else {
        FlushDeliversNothing(s, t, s');
        FlushIsNotFast(s, t, s');
      }
    case Call(_, _) => OwnDelivers(s, e, s');
    case Signal(_) => OwnDelivers(s, e, s');
    case Slow(t, online) => SlowDelivers(s, t, online, s');
    case Final(t, online) => FinalDelivers(s, t, online, s');
  }

  lemma FlushIsNotFast(s: State, h: nat, s': State)
    requires h < |s.threads| && FlushStep(s, h, s')
    ensures Delivered(s, Main(h)) == 0
  {
  }

  /** Conservation over whole runs: whenever the lock is free, the global count plus all
      cached counters is the sum of all calls that returned 1, plus the fast-path successes
      that are about to; and that total is within the limit. */
  lemma {:induction false} Conservation(run: seq<State>, events: seq<Event>, n: nat)
    requires IsRun(run, events) && n < |run|
    ensures run[n].net == DeliveredTotal(run, events, n) + SumPending(run[n].threads)
    ensures run[n].lock == Free ==>
      run[n].globalcount + SumCounter(run[n].threads) == DeliveredTotal(run, events, n) + SumPending(run[n].threads)
    ensures run[n].lock == Free ==> 0 <= run[n].globalcount + SumCounter(run[n].threads) <= run[n].globalcountmax
  {
    hide Inv, Step, Init, SumPending, SumCounter, SumMax, Delivered;
    RunInv(run, events, n);
    if run[n].lock == Free { LockFreeIsExact(run[n]); }
    if n == 0 {
      InitInv(run[0]);
    } else {
      Conservation(run, events, n - 1);
      RunInv(run, events, n - 1);
      DeliveredStep(run[n - 1], events[n - 1], run[n - 1 + 1]);
    }
  }

  lemma {:induction false} OneLess(threads: seq<Thread>, k: nat)
    requires k < |threads| && threads[k].counter == 0
    requires forall i :: 0 <= i < |threads| ==> threads[i].counter <= threads[i].countermax
    ensures SumCounter(threads) <= SumMax(threads) - threads[k].countermax
  {
    var init := threads[..|threads| - 1];
    if k == |threads| - 1 { CachedWithinMax(init); } else { OneLess(init, k); }
  }

  /** The total that the successful operations add up to is within the limit at every moment,
      also while a flush has counters in its hands. */
  lemma TotalWithinLimit(run: seq<State>, events: seq<Event>, n: nat)
    requires IsRun(run, events) && n < |run|
    ensures 0 <= run[n].net <= run[n].globalcountmax
  {
    var s := run[n];
    RunInv(run, events, n);
    hide Inv, SumCounter, SumMax, Init, Step;
    var hp := Holder(s);
    assert GlobalOk(s) by { InvGlobal(s); }
    forall i | 0 <= i < |s.threads| ensures s.threads[i].counter <= s.threads[i].countermax { CachedWithin(s, i); }
    CachedWithinMax(s.threads);
    if hp.ZeroCounter? { SumUpdate(s.threads, hp.k, s.threads[hp.k]); }
    if hp.Unreserve? || hp.ZeroMax? {
      TakenIsZero(s);
      OneLess(s.threads, hp.k);
    }
  }

  lemma InvGlobal(s: State)
    requires Inv(s)
    ensures GlobalOk(s)
  {
  }

  lemma TakenIsZero(s: State)
    requires Inv(s) && (Holder(s).Unreserve? || Holder(s).ZeroMax?)
    ensures Holder(s).k < |s.threads| && s.threads[Holder(s).k].counter == 0
  {
    InvGlobal(s);
    InvThread(s, Holder(s).k);
  }

  // ----- what a call answers

  /** The sum of thread t's own changes to the net amount between steps i and j. */
  ghost function OwnNet(run: seq<State>, events: seq<Event>, t: nat, i: nat, j: nat): int
    requires i <= j <= |events| < |run|
    decreases j
  {
    if i == j then 0
    else OwnNet(run, events, t, i, j - 1) + if events[j - 1].t == t then run[j].net - run[j - 1].net else 0
  }

  /** Thread t holds the lock, every cache has been taken back, and the exact total leaves no
      room for op. */
  ghost predicate NoRoom(s: State, t: nat, op: Op) {
    s.lock == HeldBy(t) && SumCounter(s.threads) == 0 == SumMax(s.threads) && s.globalcount == s.net
    && !(0 <= Apply(op, s.net) <= s.globalcountmax)
  }

  /** Thread t called op with event i, is still inside the call just before step j, and returns
      from it in the step to j. */
  ghost predicate CallReturns(run: seq<State>, events: seq<Event>, t: nat, op: Op, i: nat, j: nat) {
    IsRun(run, events) && i < j < |run| && events[i] == Call(t, op) && t < |run[j].threads|
      && run[j].threads[t].pc == Resting
    && forall x :: i < x < j ==> t < |run[x].threads| && run[x].threads[t].pc != Resting
  }

  /** One own step inside a call of op: either the call goes on, and what it has added is what
      its control state says; or it returns, having added op and answering 1, or having added
      nothing and answering 0 because there was no room. */
  ghost predicate Answers(s: State, e: Event, s': State, t: nat)
    requires t < |s.threads| && s.threads[t].pc != Resting && t < |s'.threads| && e.t < |s.threads|
  {
    var pc, pc' := s.threads[t].pc, s'.threads[t].pc;
    var added := Pending(pc) + s'.net - s.net;
    if pc' != Resting then pc'.op == pc.op && Pending(pc') == added
    else if ReturnsOne(s, e) then added == Effect(pc.op)
    else added == 0 && NoRoom(s, t, pc.op)
  }

  lemma MainAnswers(s: State, e: Event, s': State, t: nat)
    requires t < |s.threads| && e.t == t && s.threads[t].pc != Resting && Step(s, e, s') && (e.Main? || e.Signal?)
    ensures |s'.threads| == |s.threads| && Answers(s, e, s', t)
  {
    hide NoRoom, FlushStep;
    if e.Main? && !FastStep(s, t, s') { FlushAnswers(s, e, s', t); }
  }

  lemma FlushAnswers(s: State, e: Event, s': State, t: nat)
    requires t < |s.threads| && e == Main(t) && s.threads[t].pc != Resting && FlushStep(s, t, s')
    ensures |s'.threads| == |s.threads| && Answers(s, e, s', t)
  {
    hide NoRoom, Effect;
  }

  lemma SlowAnswers(s: State, t: nat, online: nat, s': State)
    requires t < |s.threads| && SlowStep(s, t, online, s')
    ensures |s'.threads| == |s.threads| && Answers(s, Slow(t, online), s', t)
  {
    hide NoRoom, BalanceMax, BalanceCounter;
  }

  lemma FinalAnswers(s: State, t: nat, online: nat, s': State)
    requires Inv(s) && t < |s.threads| && FinalStep(s, t, online, s')
    ensures |s'.threads| == |s.threads| && Answers(s, Final(t, online), s', t)
  {
    hide SumCounter, SumMax, BalanceMax, BalanceCounter, GlobalOk;
    FinalCheckIsExact(s, t);
    NothingReserved(s, t);
  }

  /** After a completed flush the lock is held and nothing is cached anywhere. */
  lemma NothingReserved(s: State, t: nat)
    requires Inv(s) && t < |s.threads| && s.threads[t].pc.Recheck?
    ensures s.lock == HeldBy(t) && SumMax(s.threads) == 0
  {
    HolderIs(s, t);
    forall i | 0 <= i < |s.threads|
      ensures s.threads[i].counter <= s.threads[i].countermax == 0
    {
      InvThread(s, i);
    }
    NothingCached(s.threads);
  }

  lemma OwnStepInCall(s: State, e: Event, s': State, t: nat)
    requires Inv(s) && Step(s, e, s') && t < |s.threads| && e.t == t && s.threads[t].pc != Resting
    ensures |s'.threads| == |s.threads| && Answers(s, e, s', t)
  {
    hide Inv, FastStep, FlushStep, SlowStep, FinalStep, HandlerStep, Answers;
    match e
    case Main(_) => MainAnswers(s, e, s', t);
    case Signal(_) => MainAnswers(s, e, s', t);
    case Slow(_, online) => SlowAnswers(s, t, online, s');
    case Final(_, online) => FinalAnswers(s, t, online, s');
    case Call(_, _) =>
  }

  /** No other thread moves t in its call. */
  lemma OthersKeepPc(s: State, e: Event, s': State, t: nat)
    requires Step(s, e, s') && t < |s.threads| && e.t != t
    ensures |s'.threads| == |s.threads| && s'.threads[t].pc == s.threads[t].pc
  {
    hide BalanceMax, BalanceCounter, Fits, FastRoom, FlushStep, Effect;
    if e.Main? && FlushStep(s, e.t, s') {
      if MovesOnly(s.threads[e.t].pc) { MoveShape(s, e.t, s', t); } else { FlushKeepsPc(s, e.t, s', t); }
    }
  }

  lemma FlushKeepsPc(s: State, h: nat, s': State, t: nat)
    requires h < |s.threads| && FlushStep(s, h, s') && t < |s.threads| && h != t && !MovesOnly(s.threads[h].pc)
    ensures |s'.threads| == |s.threads| && s'.threads[t].pc == s.threads[t].pc
  {
  }

  /** Up to its return a call has added what its control state says. */
  lemma {:induction false} CallSoFar(run: seq<State>, events: seq<Event>, t: nat, op: Op, i: nat, j: nat)
    requires IsRun(run, events) && i < j < |run| && events[i] == Call(t, op)
    requires forall x :: i < x <= j ==> t < |run[x].threads| && run[x].threads[t].pc != Resting
    ensures run[j].threads[t].pc.op == op && OwnNet(run, events, t, i, j) == Pending(run[j].threads[t].pc)
    decreases j
  {
    hide Init, Inv, FastStep, FlushStep, SlowStep, FinalStep, HandlerStep, Effect;
    var s, e, s' := run[j - 1], events[j - 1], run[j - 1 + 1];
    assert Step(s, e, s');
    assert OwnNet(run, events, t, i, i) == 0;
    if j > i + 1 {
      CallSoFar(run, events, t, op, i, j - 1);
      RunInv(run, events, j - 1);
      if e.t == t { OwnStepInCall(s, e, s', t); } else { OthersKeepPc(s, e, s', t); }
    }
  }

  /** Every call's answer is right.  From its invocation to its return a call has either added
      exactly op to the total and answers 1; or it has added nothing and answers 0, and then its
      last step was made under the lock after a completed flush, when nothing was cached and the
      exact total had no room for op. */
  lemma CallIsExact(run: seq<State>, events: seq<Event>, t: nat, op: Op, i: nat, j: nat)
    requires CallReturns(run, events, t, op, i, j)
    ensures j > i + 1 && events[j - 1].t == t && t < |run[j - 1].threads|
    ensures if ReturnsOne(run[j - 1], events[j - 1]) then OwnNet(run, events, t, i, j) == Effect(op)
            else OwnNet(run, events, t, i, j) == 0 && NoRoom(run[j - 1], t, op)
  {
    hide Init, Inv, FastStep, FlushStep, SlowStep, FinalStep, HandlerStep, Effect, NoRoom, ReturnsOne;
    var s, e, s' := run[j - 1], events[j - 1], run[j - 1 + 1];
    assert Step(s, e, s');
    CallSoFar(run, events, t, op, i, j - 1);
    RunInv(run, events, j - 1);
    if e.t == t { OwnStepInCall(s, e, s', t); } else { OthersKeepPc(s, e, s', t); }
  }

  /** A thread inside a call can always take its next step, unless it waits for the lock, for
      another thread to become READY, or for its own signal handler. */
  lemma NobodyIsStuck(run: seq<State>, events: seq<Event>, n: nat, t: nat)
    requires IsRun(run, events) && n < |run| && t < |run[n].threads| && run[n].threads[t].pc != Resting
    requires run[n].threads[t].sig == NoSignal && (run[n].threads[t].pc.WantLock? ==> run[n].lock == Free)
    requires run[n].threads[t].pc.Await? ==> !Waiting(run[n], run[n].threads[t].pc.k)
    ensures exists e: Event, s' :: e.t == t && Step(run[n], e, s')
  {
    var s := run[n];
    var pc := s.threads[t].pc;
    RunInv(run, events, n);
    hide Inv, Init, SumCounter, SumMax, BalanceMax, BalanceCounter, GlobalOk, Local, Fits;
    SubtractionsNeverWrap(s, t);
    if pc.WantLock? {
      var g := Globalized(s, t);
      var s' := if Fits(pc.op, g.globalcount, g.globalreserve, g.globalcountmax) then Settle(g, t, pc.op, 1)
                else Goto(g, t, Inspect(pc.op, 0)).(lock := HeldBy(t));
      assert Step(s, Slow(t, 1), s');
    } else if pc.Recheck? {
      var s' := if Fits(pc.op, s.globalcount, s.globalreserve, s.globalcountmax) then Settle(s, t, pc.op, 1)
                else Goto(s, t, Resting).(lock := Free);
      assert Step(s, Final(t, 1), s');
    } else if Flushing(pc) {
      HolderIs(s, t);
      FlushMoves(s, t);
    } else {
      FastMoves(s, t);
    }
  }

  lemma FlushMoves(s: State, h: nat)
    requires GlobalOk(s) && h < |s.threads| && Flushing(s.threads[h].pc) && !s.threads[h].pc.Recheck?
    requires Holder(s) == s.threads[h].pc && s.threads[h].sig == NoSignal
    requires s.threads[h].pc.Await? ==> !Waiting(s, s.threads[h].pc.k)
    ensures exists e: Event, s' :: e.t == h && Step(s, e, s')
  {
    hide SumCounter, SumMax;
    var s' := match s.threads[h].pc
      case Inspect(op, k) =>
        Goto(s, h, if k >= |s.threads| then Await(op, 0) else if s.threads[k].countermax == 0 then PostReady(op, k)
                   else PostRequest(op, k))
      case PostReady(op, k) => Goto(Set(s, k, s.threads[k].(theft := READY)), h, Inspect(op, k + 1))
      case PostRequest(op, k) => Goto(Set(s, k, s.threads[k].(theft := REQ)), h, Inspect(op, k + 1))
      case Await(op, k) => Goto(s, h, if k < |s.threads| then Collect(op, k) else Recheck(op))
      case Collect(op, k) => Goto(s, h, ZeroCounter(op, k)).(globalcount := s.globalcount + s.threads[k].counter)
      case ZeroCounter(op, k) => Goto(Set(s, k, s.threads[k].(counter := 0)), h, Unreserve(op, k))
      case Unreserve(op, k) => Goto(s, h, ZeroMax(op, k)).(globalreserve := s.globalreserve - s.threads[k].countermax)
      case ZeroMax(op, k) => Goto(Set(s, k, s.threads[k].(countermax := 0)), h, SetIdle(op, k))
      case SetIdle(op, k) => Goto(Set(s, k, s.threads[k].(theft := IDLE)), h, Await(op, k + 1))
      case _ => s;
    assert FlushStep(s, h, s');
    assert Step(s, Main(h), s');
  }

  lemma FastMoves(s: State, t: nat)
    requires t < |s.threads| && s.threads[t].sig == NoSignal && s.threads[t].pc != Resting
    requires !Flushing(s.threads[t].pc) && !s.threads[t].pc.WantLock?
    requires s.threads[t].pc.StoreCounter? ==> Apply(s.threads[t].pc.op, s.threads[t].pc.c) >= 0
    ensures exists e: Event, s' :: e.t == t && Step(s, e, s')
  {
    hide FastRoom;
    var th := s.threads[t];
    var s' := match th.pc
      case Begin(op) => Set(s, t, th.(pc := CheckTheft(op), counting := true))
      case CheckTheft(op) =>
        Goto(s, t, if th.theft == IDLE || th.theft == REQ then ReadMax(op) else EndCounting(op, false))
      case ReadMax(op) => Goto(s, t, ReadCounter(op, th.countermax))
      case ReadCounter(op, cm) =>
        Goto(s, t, if FastRoom(op, cm, th.counter) then LoadCounter(op) else EndCounting(op, false))
      case LoadCounter(op) => Goto(s, t, StoreCounter(op, th.counter))
      case StoreCounter(op, c) =>
        Set(s, t, th.(pc := EndCounting(op, true), counter := Apply(op, c))).(net := Apply(op, s.net))
      case EndCounting(op, fast) => Set(s, t, th.(pc := CheckAck(op, fast), counting := false))
      case CheckAck(op, fast) =>
        Goto(s, t, if th.theft == ACK then SetReady(op, fast) else if fast then Resting else WantLock(op))
      case SetReady(op, fast) => Set(s, t, th.(theft := READY, pc := if fast then Resting else WantLock(op)))
      case _ => s;
    assert FastStep(s, t, s');
    assert Step(s, Main(t), s');
  }
}
