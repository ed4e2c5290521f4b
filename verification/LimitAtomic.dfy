/** The atomic-exchange limit counter of count/count_lim_atomic.c as a state machine: one
    transition per access to a counterandmax word another thread may touch.  globalcount and
    globalreserve are touched only under the lock.
 */
module LimitAtomic {
  import opened Common

  const MAX_COUNTERMAX: nat := 65535
  const TWO16: nat := 0x1_0000
  const TWO32: nat := 0x1_0000_0000

  // ----- the packed word

  type Field = x: nat | x <= MAX_COUNTERMAX

  /** The int value of 32 bits read as an unsigned number. */
  function Signed(u: nat): int { if u < TWO32 / 2 then u else u - TWO32 }

  /** merge_counterandmax, of which the result is an int: negative once c needs its top bit. */
  function Merge(c: Field, cm: Field): int { Signed(c * TWO16 + cm) }

  /** split_counterandmax_int: an arithmetic right shift, and masks. */
  function SplitCounter(cami: int): (c: Field) { (cami / TWO16) % TWO16 }

  function SplitMax(cami: int): (cm: Field) { cami % TWO16 }

  predicate IsInt(cami: int) { -(TWO32 / 2) <= cami < TWO32 / 2 }

  /** Both fields come back from every packed word, the sign bit notwithstanding. */
  lemma SplitMerge(c: Field, cm: Field)
    ensures IsInt(Merge(c, cm)) && SplitCounter(Merge(c, cm)) == c && SplitMax(Merge(c, cm)) == cm
  {
    var u := c * TWO16 + cm;
    if u < TWO32 / 2 {
      DivMod(u, c, cm);
    } else {
      DivMod(u - TWO32, c - TWO16, cm);
    }
  }

  lemma DivMod(x: int, q: int, r: int)
    requires x == q * TWO16 + r && 0 <= r < TWO16
    ensures x / TWO16 == q && x % TWO16 == r
  {
  }

  lemma MergeSplit(cami: int)
    requires IsInt(cami)
    ensures Merge(SplitCounter(cami), SplitMax(cami)) == cami
  {
    assert cami == (cami / TWO16) * TWO16 + cami % TWO16;
  }

  /** Comparing words, as atomic_cmpxchg does, is comparing both fields. */
  lemma MergeInjective(c: Field, cm: Field, c': Field, cm': Field)
    ensures Merge(c, cm) == Merge(c', cm') <==> c == c' && cm == cm'
  {
    SplitMerge(c, cm);
    SplitMerge(c', cm');
  }

  /** The same round trip on the bits themselves. */
  lemma BitsSplitMerge(c: bv32, cm: bv32)
    requires c <= 0xffff && cm <= 0xffff
    ensures ((c << 16) | cm) & 0xffff == cm && (((c << 16) | cm) >> 16) & 0xffff == c
    ensures ((((c << 16) | cm) >> 16) | 0xffff_0000) & 0xffff == c
  {
  }

  // ----- the machine

  datatype Op = Op(add: bool, delta: nat)

  datatype Pc =
    | Resting
    | Fast(op: Op)                     // about to read the word
    | Cas(op: Op, seen: int)            // about to compare and swap
    | WantLock(op: Op)
    | Flush(op: Op, k: nat)            // holds the lock, about to exchange thread k's word
    | Recheck(op: Op)                  // holds the lock, flushed

  datatype Thread = Thread(pc: Pc, word: int)

  /** net is the net amount of all successful additions and subtractions so far. */
  datatype State = State(threads: seq<Thread>, globalcount: int, globalreserve: int, globalcountmax: nat,
      lock: Option<nat>, net: int)

  datatype Event = Call(t: nat, op: Op) | Main(t: nat) | Slow(t: nat, online: nat) | Final(t: nat, online: nat)

  function Apply(op: Op, x: int): int { if op.add then x + op.delta else x - op.delta }

  /** The fast path applies. */
  predicate FastFits(op: Op, cami: int) {
    if op.add then op.delta <= MAX_COUNTERMAX
      && SplitCounter(cami) + op.delta <= SplitMax(cami) else op.delta <= SplitCounter(cami)
  }

  /** The word the fast path swaps in. */
  function FastNew(op: Op, cami: int): int
    requires FastFits(op, cami)
  {
    Merge(Apply(op, SplitCounter(cami)), SplitMax(cami))
  }

  predicate GlobalFits(op: Op, globalcount: int, globalreserve: int, globalcountmax: int) {
    if op.add then globalcountmax - globalcount - globalreserve >= op.delta else globalcount >= op.delta
  }

  function Min(a: int, b: int): int { if a < b then a else b }

  function SetPc(s: State, t: nat, pc: Pc): State
    requires t < |s.threads|
  {
    s.(threads := s.threads[t := s.threads[t].(pc := pc)])
  }

  function SetWord(s: State, t: nat, word: int): State
    requires t < |s.threads|
  {
    s.(threads := s.threads[t := s.threads[t].(word := word)])
  }

  /** globalize_count of thread t, and each round of flush_local_count: the word is taken back. */
  function TakeBack(s: State, t: nat): State
    requires t < |s.threads|
  {
    var w := s.threads[t].word;
    SetWord(s, t, Merge(0, 0)).(globalcount := s.globalcount + SplitCounter(w),
      globalreserve := s.globalreserve - SplitMax(w))
  }

  /** balance_count: limit is what is neither counted nor reserved. */
  function BalanceMax(globalcount: int, globalreserve: int, globalcountmax: nat, online: nat): int
    requires online > 0
  {
    Min((globalcountmax - globalcount - globalreserve) / online, MAX_COUNTERMAX)
  }

  ghost predicate Balanced(s: State, t: nat, online: nat, s': State)
    requires t < |s.threads|
  {
    online > 0
    && var cm := BalanceMax(s.globalcount, s.globalreserve, s.globalcountmax, online);
       var c := Min(cm / 2, s.globalcount);
       0 <= c <= cm && cm <= MAX_COUNTERMAX
       && s' == SetWord(s, t, Merge(c, cm)).(globalcount := s.globalcount - c, globalreserve := s.globalreserve + cm)
  }

  /** The end of a successful slow path, up to dropping the lock. */
  ghost predicate Succeeds(s: State, t: nat, op: Op, online: nat, s': State)
    requires t < |s.threads|
  {
    exists b :: Balanced(s.(globalcount := Apply(op, s.globalcount)), t, online, b) && |b.threads| == |s.threads|
      && s' == SetPc(b, t, Resting).(lock := None, net := Apply(op, s.net))
  }

  ghost predicate MainStep(s: State, t: nat, s': State)
    requires t < |s.threads|
  {
    var w := s.threads[t].word;
    match s.threads[t].pc
    case Fast(op) => s' == SetPc(s, t, if FastFits(op, w) then Cas(op, w) else WantLock(op))
    case Cas(op, seen) => FastFits(op, seen)
      && s' == if w == seen then SetPc(SetWord(s, t, FastNew(op, seen)), t, Resting).(net := Apply(op, s.net))
         else SetPc(s, t, Fast(op))
    case Flush(op, k) =>
      s' == if k < |s.threads| then SetPc(TakeBack(s, k), t, Flush(op, k + 1)) else SetPc(s, t, Recheck(op))
    case _ => false
  }

  /** Taking the lock, globalize_count and the first check. */
  ghost predicate SlowStep(s: State, t: nat, online: nat, s': State)
    requires t < |s.threads|
  {
    match s.threads[t].pc
    case WantLock(op) => s.lock == None &&
      var g := TakeBack(s, t);
      if GlobalFits(op, g.globalcount, g.globalreserve, g.globalcountmax) then Succeeds(g, t, op, online, s')
      else s' == SetPc(g, t, if g.globalreserve == 0 then Recheck(op) else Flush(op, 0)).(lock := Some(t))
    case _ => false
  }

  /** The second check: success, or failure with nothing changed. */
  ghost predicate FinalStep(s: State, t: nat, online: nat, s': State)
    requires t < |s.threads|
  {
    match s.threads[t].pc
    case Recheck(op) =>
      if GlobalFits(op, s.globalcount, s.globalreserve, s.globalcountmax) then Succeeds(s, t, op, online, s')
      else s' == SetPc(s, t, Resting).(lock := None)
    case _ => false
  }

  ghost predicate Step(s: State, e: Event, s': State) {
    match e
    case Call(t, op) => t < |s.threads| && s.threads[t].pc.Resting? && s' == SetPc(s, t, Fast(op))
    case Main(t) => t < |s.threads| && MainStep(s, t, s')
    case Slow(t, online) => t < |s.threads| && SlowStep(s, t, online, s')
    case Final(t, online) => t < |s.threads| && FinalStep(s, t, online, s')
  }

  ghost predicate Init(s: State) {
    s.globalcount == 0 && s.globalreserve == 0 && s.lock == None && s.net == 0
    && forall t :: 0 <= t < |s.threads| ==> s.threads[t] == Thread(Resting, Merge(0, 0))
  }

  ghost predicate IsRun(run: seq<State>, events: seq<Event>) {
    |run| == |events| + 1 && Init(run[0]) && forall i :: 0 <= i < |events| ==> Step(run[i], events[i], run[i + 1])
  }

  // ----- the invariant

  function SumCounters(threads: seq<Thread>): nat {
    if threads == [] then 0 else SumCounters(threads[..|threads| - 1]) + SplitCounter(threads[|threads| - 1].word)
  }

  function SumMaxes(threads: seq<Thread>): nat {
    if threads == [] then 0 else SumMaxes(threads[..|threads| - 1]) + SplitMax(threads[|threads| - 1].word)
  }

  lemma {:induction false} SumsUpdate(threads: seq<Thread>, t: nat, x: Thread)
    requires t < |threads|
    ensures SumCounters(threads[t := x]) == SumCounters(threads) - SplitCounter(threads[t].word) + SplitCounter(x.word)
    ensures SumMaxes(threads[t := x]) == SumMaxes(threads) - SplitMax(threads[t].word) + SplitMax(x.word)
  {
    var last := |threads| - 1;
    if t == last {
      assert threads[t := x][..last] == threads[..last];
    } else {
      SumsUpdate(threads[..last], t, x);
      assert threads[t := x][..last] == threads[..last][t := x];
    }
  }

  predicate Holds(pc: Pc) { pc.Flush? || pc.Recheck? }

  ghost predicate ThreadOk(s: State, t: nat)
    requires t < |s.threads|
  {
    var x := s.threads[t];
    IsInt(x.word) && SplitCounter(x.word) <= SplitMax(x.word) && (Holds(x.pc) <==> s.lock == Some(t))
    && (x.pc.Cas? ==> FastFits(x.pc.op, x.pc.seen))
    && (x.pc.Flush? ==>
       SplitMax(x.word) == 0 && forall u :: 0 <= u < x.pc.k && u < |s.threads| ==> SplitMax(s.threads[u].word) == 0)
    && (x.pc.Recheck? ==> s.globalreserve == 0)
  }

  /** Conservation, the sum of the maxima, and the bound. */
  ghost predicate Books(s: State) {
    s.globalcount + SumCounters(s.threads) == s.net && s.globalreserve == SumMaxes(s.threads)
    && 0 <= s.globalcount && s.globalcount + s.globalreserve <= s.globalcountmax
  }

  ghost predicate Inv(s: State) {
    Books(s) && (forall t :: 0 <= t < |s.threads| ==> ThreadOk(s, t)) && (s.lock.Some? ==> s.lock.value < |s.threads|)
  }

  // ----- steps that only move control

  lemma ControlKeepsInv(s: State, t: nat, pc: Pc)
    requires Inv(s) && t < |s.threads| && !Holds(pc) && !Holds(s.threads[t].pc)
    requires pc.Cas? ==> FastFits(pc.op, pc.seen)
    ensures Inv(SetPc(s, t, pc))
  {
    hide SplitCounter, SplitMax, FastFits, SumCounters, SumMaxes;
    var s' := SetPc(s, t, pc);
    SumsUpdate(s.threads, t, s'.threads[t]);
    forall u | 0 <= u < |s'.threads| ensures ThreadOk(s', u) { assert ThreadOk(s, u) && ThreadOk(s, t); }
  }

  /** A successful compare and swap. */
  lemma SwapKeepsInv(s: State, t: nat, op: Op)
    requires Inv(s) && t < |s.threads| && s.threads[t].pc == Cas(op, s.threads[t].word)
    requires FastFits(op, s.threads[t].word)
    ensures Inv(SetPc(SetWord(s, t, FastNew(op, s.threads[t].word)), t, Resting).(net := Apply(op, s.net)))
  {
    hide SplitCounter, SplitMax, SumCounters, SumMaxes, Merge, IsInt;
    var w := s.threads[t].word;
    var s' := SetPc(SetWord(s, t, FastNew(op, w)), t, Resting).(net := Apply(op, s.net));
    assert ThreadOk(s, t);
    SplitMerge(Apply(op, SplitCounter(w)), SplitMax(w));
    assert s'.threads == s.threads[t := Thread(Resting, FastNew(op, w))];
    SumsUpdate(s.threads, t, Thread(Resting, FastNew(op, w)));
    forall u | 0 <= u < |s'.threads| ensures ThreadOk(s', u) { assert ThreadOk(s, u); }
  }

  // ----- taking words back

  /** Taking a word back moves its counter to globalcount and gives up its reserve. */
  lemma TakeBackBooks(s: State, t: nat)
    requires Inv(s) && t < |s.threads|
    ensures Books(TakeBack(s, t)) && |TakeBack(s, t).threads| == |s.threads|
    ensures SplitMax(TakeBack(s, t).threads[t].word) == 0 == SplitCounter(TakeBack(s, t).threads[t].word)
    ensures IsInt(TakeBack(s, t).threads[t].word)
  {
    hide SplitCounter, SplitMax, SumCounters, SumMaxes, Merge, IsInt;
    assert ThreadOk(s, t);
    SplitMerge(0, 0);
    SumsUpdate(s.threads, t, s.threads[t].(word := Merge(0, 0)));
  }

  lemma FlushKeepsInv(s: State, t: nat, s': State)
    requires Inv(s) && t < |s.threads| && s.threads[t].pc.Flush? && MainStep(s, t, s')
    ensures Inv(s')
  {
    hide SplitCounter, SplitMax, SumCounters, SumMaxes, Merge, IsInt, FastFits;
    var op, k := s.threads[t].pc.op, s.threads[t].pc.k;
    assert ThreadOk(s, t);
    if k < |s.threads| {
      var b := TakeBack(s, k);
      TakeBackBooks(s, k);
      SumsUpdate(b.threads, t, s'.threads[t]);
      forall u | 0 <= u < |s'.threads| ensures ThreadOk(s', u) { assert ThreadOk(s, u); }
    } else {
      NoReserve(s.threads);
      SumsUpdate(s.threads, t, s'.threads[t]);
      forall u | 0 <= u < |s'.threads| ensures ThreadOk(s', u) { assert ThreadOk(s, u); }
    }
  }

  /** No thread has a maximum exactly if the maxima sum to nothing. */
  lemma {:induction false} NoReserve(threads: seq<Thread>)
    ensures SumMaxes(threads) == 0 <==> forall u :: 0 <= u < |threads| ==> SplitMax(threads[u].word) == 0
  {
    if threads != [] {
      var init := threads[..|threads| - 1];
      NoReserve(init);
      assert forall u :: 0 <= u < |init| ==> init[u] == threads[u];
    }
  }

  lemma {:induction false} NoCounters(threads: seq<Thread>)
    requires forall u :: 0 <= u < |threads| ==> SplitCounter(threads[u].word) == 0
    ensures SumCounters(threads) == 0
  {
    if threads != [] { NoCounters(threads[..|threads| - 1]); }
  }

  // ----- the slow path

  /** The share balance_count takes fits a field, and what is neither counted nor reserved. */
  lemma BalanceFits(globalcount: int, globalreserve: int, globalcountmax: nat, online: nat)
    requires 0 <= globalcount && 0 <= globalreserve && globalcount + globalreserve <= globalcountmax && online > 0
    ensures var cm := BalanceMax(globalcount, globalreserve, globalcountmax, online);
      0 <= cm <= MAX_COUNTERMAX && globalcount + globalreserve + cm <= globalcountmax
    ensures var cm := BalanceMax(globalcount, globalreserve, globalcountmax, online);
      0 <= Min(cm / 2, globalcount) <= cm
  {
    var room := globalcountmax - globalcount - globalreserve;
    ShareFits(room, online);
  }

  lemma ShareFits(room: nat, online: nat)
    requires online > 0
    ensures 0 <= room / online <= room
  {
    var q, r := room / online, room % online;
    assert room == online * q + r;
    ProductGrows(online, q);
  }

  lemma ProductGrows(a: int, b: int)
    requires a > 0
    ensures b >= 0 ==> a * b >= b
    ensures b < 0 ==> a * b <= b
  {
    if b >= 0 { assert (a - 1) * b >= 0; } else { assert (a - 1) * (-b) >= 0; }
  }

  lemma SucceedsKeepsInv(s: State, t: nat, op: Op, online: nat, s': State)
    requires Books(s) && t < |s.threads| && SplitMax(s.threads[t].word) == 0 == SplitCounter(s.threads[t].word)
    requires forall u :: 0 <= u < |s.threads| && u != t ==>
      !Holds(s.threads[u].pc) && IsInt(s.threads[u].word)
      && SplitCounter(s.threads[u].word) <= SplitMax(s.threads[u].word)
    requires forall u :: 0 <= u < |s.threads| && u != t && s.threads[u].pc.Cas? ==>
      FastFits(s.threads[u].pc.op, s.threads[u].pc.seen)
    requires GlobalFits(op, s.globalcount, s.globalreserve, s.globalcountmax) && Succeeds(s, t, op, online, s')
    ensures Inv(s')
  {
    hide SplitCounter, SplitMax, SumCounters, SumMaxes, Merge, IsInt, FastFits, BalanceMax;
    var g := s.(globalcount := Apply(op, s.globalcount));
    var b :| Balanced(g, t, online, b) && |b.threads| == |s.threads|
      && s' == SetPc(b, t, Resting).(lock := None, net := Apply(op, s.net));
    BalanceFits(g.globalcount, g.globalreserve, g.globalcountmax, online);
    var cm := BalanceMax(g.globalcount, g.globalreserve, g.globalcountmax, online);
    var c := Min(cm / 2, g.globalcount);
    SplitMerge(c, cm);
    assert s'.threads == s.threads[t := Thread(Resting, Merge(c, cm))];
    SumsUpdate(s.threads, t, Thread(Resting, Merge(c, cm)));
    forall u | 0 <= u < |s'.threads| ensures ThreadOk(s', u) { assert u != t ==> s'.threads[u] == s.threads[u]; }
  }

  lemma SlowKeepsInv(s: State, t: nat, online: nat, s': State)
    requires Inv(s) && t < |s.threads| && SlowStep(s, t, online, s')
    ensures Inv(s')
  {
    hide SplitCounter, SplitMax, SumCounters, SumMaxes, Merge, IsInt, FastFits, Succeeds;
    var op := s.threads[t].pc.op;
    var g := TakeBack(s, t);
    TakeBackBooks(s, t);
    assert ThreadOk(s, t);
    forall u | 0 <= u < |s.threads| && u != t ensures ThreadOk(s, u) && g.threads[u] == s.threads[u] {}
    if GlobalFits(op, g.globalcount, g.globalreserve, g.globalcountmax) {
      SucceedsKeepsInv(g, t, op, online, s');
    } else {
      SumsUpdate(g.threads, t, s'.threads[t]);
    }
  }

  lemma FinalKeepsInv(s: State, t: nat, online: nat, s': State)
    requires Inv(s) && t < |s.threads| && FinalStep(s, t, online, s')
    ensures Inv(s')
  {
    hide SplitCounter, SplitMax, SumCounters, SumMaxes, Merge, IsInt, FastFits, Succeeds;
    var op := s.threads[t].pc.op;
    assert ThreadOk(s, t);
    NoReserve(s.threads);
    assert SplitMax(s.threads[t].word) == 0;
    forall u | 0 <= u < |s.threads| && u != t
      ensures !Holds(s.threads[u].pc) && IsInt(s.threads[u].word)
      ensures SplitCounter(s.threads[u].word) <= SplitMax(s.threads[u].word) && ThreadOk(s, u)
    {
      assert ThreadOk(s, u);
    }
    if GlobalFits(op, s.globalcount, s.globalreserve, s.globalcountmax) {
      SucceedsKeepsInv(s, t, op, online, s');
    } else {
      SumsUpdate(s.threads, t, s'.threads[t]);
      forall u | 0 <= u < |s'.threads| ensures ThreadOk(s', u) { assert u != t ==> s'.threads[u] == s.threads[u]; }
    }
  }

  lemma StepKeepsInv(s: State, e: Event, s': State)
    requires Inv(s) && Step(s, e, s')
    ensures Inv(s')
  {
    hide Inv, SlowStep, FinalStep, FastFits, SplitMax, SplitCounter;
    match e {
      case Call(t, op) => ControlKeepsInv(s, t, Fast(op));
      case Main(t) => MainKeepsInv(s, t, s');
      case Slow(t, online) => SlowKeepsInv(s, t, online, s');
      case Final(t, online) => FinalKeepsInv(s, t, online, s');
    }
  }

  lemma MainKeepsInv(s: State, t: nat, s': State)
    requires Inv(s) && t < |s.threads| && MainStep(s, t, s')
    ensures Inv(s')
  {
    hide Inv, SplitMax, SplitCounter;
    var w := s.threads[t].word;
    match s.threads[t].pc {
      case Fast(op) => ControlKeepsInv(s, t, if FastFits(op, w) then Cas(op, w) else WantLock(op));
      case Cas(op, seen) => if w == seen { SwapKeepsInv(s, t, op); } else { ControlKeepsInv(s, t, Fast(op)); }
      case Flush(_, _) => FlushKeepsInv(s, t, s');
    }
  }

  lemma InitInv(s: State)
    requires Init(s)
    ensures Inv(s)
  {
    hide SumCounters, SumMaxes, Merge, SplitCounter, SplitMax, IsInt;
    SplitMerge(0, 0);
    NoReserve(s.threads);
    NoCounters(s.threads);
  }

  lemma {:induction false} RunInv(run: seq<State>, events: seq<Event>, i: nat)
    requires IsRun(run, events) && i < |run|
    ensures Inv(run[i])
  {
    hide Inv, Step, Init;
    if i == 0 {
      InitInv(run[0]);
    } else {
      RunInv(run, events, i - 1);
      assert Step(run[i - 1], events[i - 1], run[i - 1 + 1]);
      StepKeepsInv(run[i - 1], events[i - 1], run[i]);
    }
  }

  // ----- what holds in every run

  /** The counts are conserved, and stay within the limit, at every moment. */
  lemma Conservation(run: seq<State>, events: seq<Event>, i: nat)
    requires IsRun(run, events) && i < |run|
    ensures var s := run[i]; s.globalcount + SumCounters(s.threads) == s.net && 0 <= s.net <= s.globalcountmax
    ensures var s := run[i];
      s.globalreserve == SumMaxes(s.threads) && s.globalcount >= 0
      && s.globalcount + s.globalreserve <= s.globalcountmax
    ensures var s := run[i];
      forall t :: 0 <= t < |s.threads| ==> SplitCounter(s.threads[t].word) <= SplitMax(s.threads[t].word)
  {
    hide SplitCounter, SplitMax;
    RunInv(run, events, i);
    var s := run[i];
    forall t | 0 <= t < |s.threads|
      ensures SplitCounter(s.threads[t].word) <= SplitMax(s.threads[t].word)
    {
      assert ThreadOk(s, t);
    }
    CountersWithin(s.threads);
  }

  lemma {:induction false} CountersWithin(threads: seq<Thread>)
    requires forall t :: 0 <= t < |threads| ==> SplitCounter(threads[t].word) <= SplitMax(threads[t].word)
    ensures SumCounters(threads) <= SumMaxes(threads)
  {
    if threads != [] { CountersWithin(threads[..|threads| - 1]); }
  }

  /** An operation fails exactly when the exact total, at that moment, has no room for it. */
  lemma FailureIsExact(run: seq<State>, events: seq<Event>, i: nat, t: nat, online: nat, op: Op)
    requires IsRun(run, events) && i < |events| && events[i] == Final(t, online) && t < |run[i].threads|
    requires run[i].threads[t].pc == Recheck(op)
    ensures t < |run[i + 1].threads| && run[i + 1].threads[t].pc == Resting
    ensures run[i + 1].net == (if 0 <= Apply(op, run[i].net) <= run[i].globalcountmax then Apply(op, run[i].net)
      else run[i].net)
  {
    hide SplitCounter, SplitMax, Merge, BalanceMax, SumCounters, SumMaxes;
    RunInv(run, events, i);
    var s := run[i];
    assert Step(s, events[i], run[i + 1]);
    assert ThreadOk(s, t);
    NoReserve(s.threads);
    forall u | 0 <= u < |s.threads| ensures SplitCounter(s.threads[u].word) == 0 { assert ThreadOk(s, u); }
    NoCounters(s.threads);
  }

  /** The subtractions the code does on unsigned numbers never wrap: on a word about to be
      swapped, taken back, or checked under the lock. */
  lemma NothingWraps(run: seq<State>, events: seq<Event>, i: nat, t: nat)
    requires IsRun(run, events) && i < |run| && t < |run[i].threads|
    ensures run[i].globalreserve >= SplitMax(run[i].threads[t].word)
    ensures run[i].globalcountmax - run[i].globalcount - run[i].globalreserve >= 0
    ensures run[i].threads[t].pc.Cas? && !run[i].threads[t].pc.op.add ==>
      SplitCounter(run[i].threads[t].pc.seen) >= run[i].threads[t].pc.op.delta
  {
    hide SplitCounter, SplitMax;
    RunInv(run, events, i);
    assert ThreadOk(run[i], t);
    SumsUpdate(run[i].threads, t, Thread(Resting, Merge(0, 0)));
    SplitMerge(0, 0);
  }

  // ----- what a call answers

  /** The thread an event belongs to. */
  function Who(e: Event): nat {
    match e
    case Call(t, _) => t
    case Main(t) => t
    case Slow(t, _) => t
    case Final(t, _) => t
  }

  function Effect(op: Op): int { Apply(op, 0) }

  /** The sum of thread t's own changes to the net amount between steps i and j. */
  ghost function OwnNet(run: seq<State>, events: seq<Event>, t: nat, i: nat, j: nat): int
    requires i <= j <= |events| < |run|
    decreases j
  {
    if i == j then 0
    else OwnNet(run, events, t, i, j - 1) + if Who(events[j - 1]) == t then run[j].net - run[j - 1].net else 0
  }

  /** In this step a call returns 1. */
  ghost predicate ReturnsOne(s: State, e: Event)
    requires Who(e) < |s.threads|
  {
    var x := s.threads[Who(e)];
    match e
    case Main(_) => x.pc.Cas? && x.word == x.pc.seen
    case Slow(t, _) =>
      var g := TakeBack(s, t);
      x.pc.WantLock? && GlobalFits(x.pc.op, g.globalcount, g.globalreserve, g.globalcountmax)
    case Final(_, _) => x.pc.Recheck? && GlobalFits(x.pc.op, s.globalcount, s.globalreserve, s.globalcountmax)
    case _ => false
  }

  /** Thread t holds the lock, every cache has been taken back, and the exact total leaves no
      room for op. */
  ghost predicate NoRoom(s: State, t: nat, op: Op) {
    s.lock == Some(t) && SumCounters(s.threads) == 0 == SumMaxes(s.threads) && s.globalcount == s.net
    && !(0 <= Apply(op, s.net) <= s.globalcountmax)
  }

  /** Thread t calls op with event i, and returns from it in the step to j. */
  ghost predicate CallReturns(run: seq<State>, events: seq<Event>, t: nat, op: Op, i: nat, j: nat) {
    IsRun(run, events) && i < j < |run| && events[i] == Call(t, op)
    && t < |run[j].threads| && run[j].threads[t].pc == Resting
    && forall x :: i < x < j ==> t < |run[x].threads| && run[x].threads[t].pc != Resting
  }

  /** One own step inside a call: either the call goes on and has added nothing, or it returns,
      having added op and answering 1, or nothing and answering 0 because there was no room. */
  ghost predicate Answers(s: State, e: Event, s': State, t: nat)
    requires t < |s.threads| && s.threads[t].pc != Resting && t < |s'.threads| && Who(e) < |s.threads|
  {
    var pc, pc' := s.threads[t].pc, s'.threads[t].pc;
    if pc' != Resting then pc'.op == pc.op && s'.net == s.net
    else if ReturnsOne(s, e) then s'.net - s.net == Effect(pc.op)
    else s'.net == s.net && NoRoom(s, t, pc.op)
  }

  lemma MainAnswers(s: State, t: nat, s': State)
    requires t < |s.threads| && MainStep(s, t, s')
    ensures |s'.threads| == |s.threads| && Answers(s, Main(t), s', t)
  {
    hide NoRoom, SplitCounter, SplitMax, Merge, FastFits;
  }

  lemma SlowAnswers(s: State, t: nat, online: nat, s': State)
    requires t < |s.threads| && SlowStep(s, t, online, s')
    ensures |s'.threads| == |s.threads| && Answers(s, Slow(t, online), s', t)
  {
    hide NoRoom, SplitCounter, SplitMax, Merge, BalanceMax;
  }

  lemma FinalAnswers(s: State, t: nat, online: nat, s': State)
    requires Inv(s) && t < |s.threads| && FinalStep(s, t, online, s')
    ensures |s'.threads| == |s.threads| && Answers(s, Final(t, online), s', t)
  {
    hide SplitCounter, SplitMax, Merge, BalanceMax, SumCounters, SumMaxes;
    assert ThreadOk(s, t);
    NoReserve(s.threads);
    forall u | 0 <= u < |s.threads| ensures SplitCounter(s.threads[u].word) == 0 { assert ThreadOk(s, u); }
    NoCounters(s.threads);
  }

  lemma OwnStepInCall(s: State, e: Event, s': State, t: nat)
    requires Inv(s) && Step(s, e, s') && t < |s.threads| && Who(e) == t && s.threads[t].pc != Resting
    ensures |s'.threads| == |s.threads| && Answers(s, e, s', t)
  {
    hide Inv, MainStep, SlowStep, FinalStep, Answers;
    match e
    case Call(_, _) =>
    case Main(_) => MainAnswers(s, t, s');
    case Slow(_, online) => SlowAnswers(s, t, online, s');
    case Final(_, online) => FinalAnswers(s, t, online, s');
  }

  /** No other thread moves t in its call. */
  lemma OthersKeepPc(s: State, e: Event, s': State, t: nat)
    requires Step(s, e, s') && t < |s.threads| && Who(e) != t
    ensures |s'.threads| == |s.threads| && s'.threads[t].pc == s.threads[t].pc
  {
    hide SplitCounter, SplitMax, Merge, BalanceMax, FastFits, GlobalFits;
  }

  lemma {:induction false} CallSoFar(run: seq<State>, events: seq<Event>, t: nat, op: Op, i: nat, j: nat)
    requires IsRun(run, events) && i < j < |run| && events[i] == Call(t, op)
    requires forall x :: i < x <= j ==> t < |run[x].threads| && run[x].threads[t].pc != Resting
    ensures run[j].threads[t].pc.op == op && OwnNet(run, events, t, i, j) == 0
    decreases j
  {
    hide Init, Inv, MainStep, SlowStep, FinalStep, ReturnsOne, NoRoom;
    var s, e, s' := run[j - 1], events[j - 1], run[j - 1 + 1];
    assert Step(s, e, s');
    assert OwnNet(run, events, t, i, i) == 0;
    if j > i + 1 {
      CallSoFar(run, events, t, op, i, j - 1);
      RunInv(run, events, j - 1);
      if Who(e) == t { OwnStepInCall(s, e, s', t); } else { OthersKeepPc(s, e, s', t); }
    }
  }

  /** Every call's answer is right.  From its invocation to its return a call has either added
      exactly op to the total and answers 1; or it has added nothing and answers 0, and then its
      last step was made under the lock after a completed flush, when nothing was cached and the
      exact total had no room for op. */
  lemma CallIsExact(run: seq<State>, events: seq<Event>, t: nat, op: Op, i: nat, j: nat)
    requires CallReturns(run, events, t, op, i, j)
    ensures j > i + 1 && Who(events[j - 1]) == t && t < |run[j - 1].threads|
    ensures if ReturnsOne(run[j - 1], events[j - 1]) then OwnNet(run, events, t, i, j) == Effect(op)
            else OwnNet(run, events, t, i, j) == 0 && NoRoom(run[j - 1], t, op)
  {
    hide Init, Inv, MainStep, SlowStep, FinalStep, Effect, NoRoom, ReturnsOne;
    var s, e, s' := run[j - 1], events[j - 1], run[j - 1 + 1];
    assert Step(s, e, s');
    CallSoFar(run, events, t, op, i, j - 1);
    RunInv(run, events, j - 1);
    if Who(e) == t { OwnStepInCall(s, e, s', t); } else { OthersKeepPc(s, e, s', t); }
  }

  /** A thread inside a call can always take its next step, unless it waits for the lock. */
  lemma NobodyIsStuck(run: seq<State>, events: seq<Event>, i: nat, t: nat)
    requires IsRun(run, events) && i < |run| && t < |run[i].threads| && run[i].threads[t].pc != Resting
    requires run[i].threads[t].pc.WantLock? ==> run[i].lock == None
    ensures exists e, s' :: Who(e) == t && Step(run[i], e, s')
  {
    var s := run[i];
    RunInv(run, events, i);
    hide Inv, Init, SumCounters, SumMaxes, SplitCounter, SplitMax, Merge, FastFits, GlobalFits, BalanceMax;
    assert ThreadOk(s, t);
    match s.threads[t].pc
    case Fast(op) =>
      assert Step(s, Main(t),
        SetPc(s, t, if FastFits(op, s.threads[t].word) then Cas(op, s.threads[t].word) else WantLock(op)));
    case Cas(op, seen) =>
      var s' := if s.threads[t].word == seen then SetPc(SetWord(s, t, FastNew(op, seen)), t,
        Resting).(net := Apply(op, s.net))
                else SetPc(s, t, Fast(op));
      assert Step(s, Main(t), s');
    case Flush(op, k) =>
      assert Step(s, Main(t), if k < |s.threads| then SetPc(TakeBack(s, k), t, Flush(op, k + 1))
        else SetPc(s, t, Recheck(op)));
    case WantLock(op) =>
      var g := TakeBack(s, t);
      TakeBackBooks(s, t);
      if GlobalFits(op, g.globalcount, g.globalreserve, g.globalcountmax) {
        var s' := SuccessExists(g, t, op);
        assert Step(s, Slow(t, 1), s');
      } else {
        assert Step(s, Slow(t, 1),
          SetPc(g, t, if g.globalreserve == 0 then Recheck(op) else Flush(op, 0)).(lock := Some(t)));
      }
    case Recheck(op) =>
      if GlobalFits(op, s.globalcount, s.globalreserve, s.globalcountmax) {
        var s' := SuccessExists(s, t, op);
        assert Step(s, Final(t, 1), s');
      } else {
        assert Step(s, Final(t, 1), SetPc(s, t, Resting).(lock := None));
      }
  }

  lemma SuccessExists(s: State, t: nat, op: Op) returns (s': State)
    requires Books(s) && t < |s.threads| && GlobalFits(op, s.globalcount, s.globalreserve, s.globalcountmax)
    ensures Succeeds(s, t, op, 1, s')
  {
    hide SumCounters, SumMaxes, Merge;
    var g := s.(globalcount := Apply(op, s.globalcount));
    var cm := BalanceMax(g.globalcount, g.globalreserve, g.globalcountmax, 1);
    BalanceFits(g.globalcount, g.globalreserve, g.globalcountmax, 1);
    var c := Min(cm / 2, g.globalcount);
    var b := SetWord(g, t, Merge(c, cm)).(globalcount := g.globalcount - c, globalreserve := g.globalreserve + cm);
    assert Balanced(g, t, 1, b) && |b.threads| == |s.threads|;
    s' := SetPc(b, t, Resting).(lock := None, net := Apply(op, s.net));
  }
}
