/** Shared grace periods of defer/rcu_rcpls.c and defer/rcu_rcpls.h as a state machine: one
    transition per access to rcu_idx or to a thread's counter pair.
 */
module Rcpls {
  import opened Common

  /** Inside rcu_read_lock of an outermost section, or inside its rcu_read_unlock. */
  datatype ReadPc = Rest | Picked | Counted | Dropped

  /** serial numbers the thread's outermost sections. */
  datatype Reader = Reader(pc: ReadPc, nesting: nat, readIdx: nat, ref0: nat, ref1: nat, serial: nat)

  type Sections = set<(nat, nat)>

  /** synchronize_rcu: o is oldctr, seen the sections open when it was sampled, c the argument of
      flip_counter_and_wait, and again whether a second flip follows. */
  datatype Call =
    | Idle
    | Sample
    | WantLock(o: nat, seen: Sections)
    | Decide(o: nat, seen: Sections)
    | Flip(o: nat, seen: Sections, c: nat, again: bool)
    | Wait(o: nat, seen: Sections, c: nat, again: bool, k: nat)     // about to read thread k's counter
    | Unlock(o: nat, seen: Sections)

  datatype State = State(idx: nat, readers: seq<Reader>, calls: seq<Call>, lock: Option<nat>)

  datatype Event =
    | Pick(t: nat) | Count(t: nat) | Enter(t: nat) | Nest(t: nat)
    | Unnest(t: nat) | Drop(t: nat) | Leave(t: nat)
    | Synchronize(h: nat) | Advance(h: nat)

  function RefOf(r: Reader, i: nat): nat { if i == 0 then r.ref0 else r.ref1 }

  function AddRef(r: Reader, i: nat, d: int): Reader
    requires RefOf(r, i) + d >= 0
  {
    if i == 0 then r.(ref0 := r.ref0 + d) else r.(ref1 := r.ref1 + d)
  }

  /** The thread is inside a read-side critical section. */
  predicate Active(r: Reader) { r.pc.Rest? && r.nesting >= 1 }

  /** rcu_read_lock and rcu_read_unlock; only the outermost ones touch the counters. */
  ghost predicate ReadStep(idx: nat, r: Reader, e: Event, r': Reader) {
    match e
    case Pick(_) => r.pc.Rest? && r.nesting == 0 && r' == r.(pc := Picked, readIdx := idx % 2)
    case Count(_) => r.pc.Picked? && r' == AddRef(r, r.readIdx, 1).(pc := Counted)
    case Enter(_) => r.pc.Counted? && r' == r.(pc := Rest, nesting := r.nesting + 1, serial := r.serial + 1)
    case Nest(_) => r.pc.Rest? && r.nesting >= 1 && r' == r.(nesting := r.nesting + 1)
    case Unnest(_) => r.pc.Rest? && r.nesting > 1 && r' == r.(nesting := r.nesting - 1)
    case Drop(_) =>
      r.pc.Rest? && r.nesting == 1 && RefOf(r, r.readIdx) >= 1 && r' == AddRef(r, r.readIdx, -1).(pc := Dropped)
    case Leave(_) => r.pc.Dropped? && r.nesting >= 1 && r' == r.(pc := Rest, nesting := r.nesting - 1)
    case _ => false
  }

  ghost function OpenSections(readers: seq<Reader>): Sections {
    set t | 0 <= t < |readers| && Active(readers[t]) :: (t, readers[t].serial)
  }

  function SetCall(s: State, h: nat, c: Call): State
    requires h < |s.calls|
  {
    s.(calls := s.calls[h := c])
  }

  ghost predicate CallStep(s: State, h: nat, s': State)
    requires h < |s.calls|
  {
    match s.calls[h]
    case Idle => false
    case Sample => s' == SetCall(s, h, WantLock(s.idx, OpenSections(s.readers)))
    case WantLock(o, seen) => s.lock == None && s' == SetCall(s, h, Decide(o, seen)).(lock := Some(h))
    case Decide(o, seen) =>
      s' == SetCall(s, h, if s.idx - o >= 3 then Unlock(o, seen) else Flip(o, seen, s.idx, s.idx - o < 2))
    case Flip(o, seen, c, again) => s' == SetCall(s, h, Wait(o, seen, c, again, 0)).(idx := c + 1)
    case Wait(o, seen, c, again, k) =>
      if k < |s.readers| then
        s' == (if RefOf(s.readers[k], c % 2) != 0 then s else SetCall(s, h, Wait(o, seen, c, again, k + 1)))
      else s' == SetCall(s, h, if again then Flip(o, seen, c + 1, false) else Unlock(o, seen))
    case Unlock(o, seen) => s' == SetCall(s, h, Idle).(lock := None)
  }

  function Who(e: Event): nat {
    match e
    case Pick(t) => t case Count(t) => t case Enter(t) => t case Nest(t) => t case Unnest(t) => t
    case Drop(t) => t case Leave(t) => t case Synchronize(h) => h case Advance(h) => h
  }

  ghost predicate Step(s: State, e: Event, s': State) {
    match e
    case Synchronize(h) => h < |s.calls| && s.calls[h].Idle? && s' == SetCall(s, h, Sample)
    case Advance(h) => h < |s.calls| && CallStep(s, h, s')
    case _ =>
      Who(e) < |s.readers|
      && exists r :: ReadStep(s.idx, s.readers[Who(e)], e, r) && s' == s.(readers := s.readers[Who(e) := r])
  }

  ghost predicate Init(s: State) {
    s.idx == 0 && s.lock == None && (forall t :: 0 <= t < |s.readers| ==> s.readers[t] == Reader(Rest, 0, 0, 0, 0, 0))
    && forall h :: 0 <= h < |s.calls| ==> s.calls[h] == Idle
  }

  ghost predicate IsRun(run: seq<State>, events: seq<Event>) {
    |run| == |events| + 1 && Init(run[0]) && forall i :: 0 <= i < |events| ==> Step(run[i], events[i], run[i + 1])
  }

  // ----- the invariant

  /** A thread's counter is 1 exactly at the index of the section it has counted. */
  ghost predicate ReaderOk(r: Reader) {
    r.readIdx < 2 && r.ref0 == (if (r.pc.Counted? || Active(r)) && r.readIdx == 0 then 1 else 0)
    && r.ref1 == (if (r.pc.Counted? || Active(r)) && r.readIdx == 1 then 1 else 0)
    && (r.pc.Picked? || r.pc.Counted? ==> r.nesting == 0) && (r.pc.Dropped? ==> r.nesting == 1)
  }

  predicate Holds(c: Call) { c.Decide? || c.Flip? || c.Wait? || c.Unlock? }

  predicate Sampled(c: Call) { c.WantLock? || Holds(c) }

  /** How many flips have run to completion. */
  function Completed(s: State): int {
    if s.lock.Some? && s.lock.value < |s.calls| && s.calls[s.lock.value].Wait? then s.idx - 1 else s.idx
  }

  /** A section the call saw is still open in thread t, on counter i. */
  ghost predicate StillOpen(r: Reader, t: nat, seen: Sections, i: int) {
    Active(r) && (t, r.serial) in seen && r.readIdx == i
  }

  ghost predicate Gone(readers: seq<Reader>, upTo: nat, seen: Sections, i: int) {
    forall t :: 0 <= t < upTo && t < |readers| ==> !StillOpen(readers[t], t, seen, i)
  }

  ghost predicate CallOk(s: State, h: nat)
    requires h < |s.calls|
  {
    var c := s.calls[h];
    (Holds(c) <==> s.lock == Some(h)) && (c.Flip? ==> s.idx == c.c && (!c.again ==> c.c >= c.o + 1))
    && (c.Wait? ==> s.idx == c.c + 1 && c.k <= |s.readers| && c.c >= c.o && (!c.again ==> c.c >= c.o + 1))
    && (c.Unlock? ==> s.idx >= c.o + 2)
    && (Sampled(c) ==> c.o <= s.idx && SeenOk(s, c.seen) && FlipsDone(s, c.o, c.seen) && FlipUnderWay(s, c.o, c.seen))
  }

  /** Sections seen have serials no later than the threads' latest. */
  ghost predicate SeenOk(s: State, seen: Sections) {
    forall t, n :: 0 <= t < |s.readers| && (t, n) in seen ==> n <= s.readers[t].serial
  }

  /** Every flip completed since the sample has waited out its counter. */
  ghost predicate FlipsDone(s: State, o: nat, seen: Sections) {
    forall f :: o <= f < Completed(s) ==> Gone(s.readers, |s.readers|, seen, f % 2)
  }

  /** So has the flip under way, for the threads it has passed. */
  ghost predicate FlipUnderWay(s: State, o: nat, seen: Sections) {
    s.lock.Some? && s.lock.value < |s.calls| && s.calls[s.lock.value].Wait? && s.calls[s.lock.value].c >= o ==>
      Gone(s.readers, s.calls[s.lock.value].k, seen, s.calls[s.lock.value].c % 2)
  }

  ghost predicate Inv(s: State) {
    (forall t :: 0 <= t < |s.readers| ==> ReaderOk(s.readers[t])) && (forall h :: 0 <= h < |s.calls| ==> CallOk(s, h))
    && (s.lock.Some? ==> s.lock.value < |s.calls|)
  }

  // ----- readers

  /** No reader step reopens a section already seen, or moves it to another counter. */
  lemma ReadKeepsGone(idx: nat, r: Reader, e: Event, r': Reader, t: nat, seen: Sections, i: int)
    requires ReadStep(idx, r, e, r') && ReaderOk(r) && !StillOpen(r, t, seen, i) && (t, r.serial + 1) !in seen
    ensures ReaderOk(r') && !StillOpen(r', t, seen, i) && r'.serial >= r.serial
  {
  }

  lemma ReadKeepsReader(idx: nat, r: Reader, e: Event, r': Reader)
    requires ReadStep(idx, r, e, r') && ReaderOk(r)
    ensures ReaderOk(r') && (r'.serial == r.serial || r'.serial == r.serial + 1)
  {
  }

  lemma ReadersKeepGone(s: State, e: Event, s': State, upTo: nat, seen: Sections, i: int)
    requires Inv(s) && Step(s, e, s') && !e.Synchronize? && !e.Advance? && SeenOk(s, seen)
    requires Gone(s.readers, upTo, seen, i)
    ensures Gone(s'.readers, upTo, seen, i) && SeenOk(s', seen)
  {
    hide CallOk, StillOpen, ReaderOk, ReadStep;
    var t := Who(e);
    var r :| ReadStep(s.idx, s.readers[t], e, r) && s' == s.(readers := s.readers[t := r]);
    ReadKeepsReader(s.idx, s.readers[t], e, r);
    if t < upTo { ReadKeepsGone(s.idx, s.readers[t], e, r, t, seen, i); }
  }

  lemma ReadersKeepInv(s: State, e: Event, s': State)
    requires Inv(s) && Step(s, e, s') && !e.Synchronize? && !e.Advance?
    ensures Inv(s')
  {
    hide StillOpen, Gone, SeenOk, ReaderOk, ReadStep;
    var t := Who(e);
    var r :| ReadStep(s.idx, s.readers[t], e, r) && s' == s.(readers := s.readers[t := r]);
    ReadKeepsReader(s.idx, s.readers[t], e, r);
    forall h | 0 <= h < |s'.calls|
      ensures CallOk(s', h)
    {
      assert CallOk(s, h);
      var c := s.calls[h];
      if Sampled(c) {
        assert SeenOk(s', c.seen) by { SeenAfterRead(s, e, s', c.seen); }
        forall f | c.o <= f < Completed(s') ensures Gone(s'.readers, |s'.readers|, c.seen, f % 2) {
          ReadersKeepGone(s, e, s', |s.readers|, c.seen, f % 2);
        }
        if s.lock.Some? && s.calls[s.lock.value].Wait? && s.calls[s.lock.value].c >= c.o {
          ReadersKeepGone(s, e, s', s.calls[s.lock.value].k, c.seen, s.calls[s.lock.value].c % 2);
        }
      }
    }
  }

  lemma SeenAfterRead(s: State, e: Event, s': State, seen: Sections)
    requires Inv(s) && Step(s, e, s') && !e.Synchronize? && !e.Advance? && SeenOk(s, seen)
    ensures SeenOk(s', seen)
  {
    ReadersKeepGone(s, e, s', 0, seen, 0);
  }

  // ----- grace periods

  /** A zero counter means no section open on it. */
  lemma ZeroMeansNone(r: Reader, t: nat, seen: Sections, i: nat)
    requires ReaderOk(r) && i < 2 && RefOf(r, i) == 0
    ensures !StillOpen(r, t, seen, i)
  {
  }

  /** What is settled about the flips since a sample stays settled, and a flip that ends has
      waited for every thread. */
  lemma FlipsAfter(s: State, h: nat, s': State, o: nat, seen: Sections)
    requires Inv(s) && h < |s.calls| && CallStep(s, h, s') && o <= s.idx && FlipsDone(s, o, seen)
    requires FlipUnderWay(s, o, seen)
    ensures FlipsDone(s', o, seen) && FlipUnderWay(s', o, seen)
  {
    hide StillOpen, ReaderOk, SeenOk;
    assert CallOk(s, h);
    hide CallOk;
    var c := s.calls[h];
    if c.Wait? && c.k < |s.readers| && RefOf(s.readers[c.k], c.c % 2) == 0 && o <= c.c {
      ZeroMeansNone(s.readers[c.k], c.k, seen, c.c % 2);
    }
  }

  lemma CallFrame(s: State, h: nat, s': State)
    requires h < |s.calls| && CallStep(s, h, s')
    ensures |s'.calls| == |s.calls| && s'.readers == s.readers
    ensures forall u :: 0 <= u < |s.calls| && u != h ==> s'.calls[u] == s.calls[u]
  {
  }

  lemma OwnCall(s: State, h: nat, s': State)
    requires Inv(s) && h < |s.calls| && CallStep(s, h, s')
    ensures h < |s'.calls| && CallOk(s', h)
  {
    hide StillOpen, ReaderOk, Gone, FlipsDone, FlipUnderWay;
    assert CallOk(s, h);
    CallFrame(s, h, s');
    var c := s.calls[h];
    if Sampled(c) {
      FlipsAfter(s, h, s', c.o, c.seen);
    } else if c.Sample? {
      NewSample(s, h, s');
    }
  }

  lemma NewSample(s: State, h: nat, s': State)
    requires Inv(s) && h < |s.calls| && CallStep(s, h, s') && s.calls[h].Sample?
    ensures SeenOk(s', OpenSections(s.readers)) && FlipsDone(s', s.idx, OpenSections(s.readers))
    ensures FlipUnderWay(s', s.idx, OpenSections(s.readers))
  {
    hide ReaderOk;
    if s.lock.Some? { assert CallOk(s, s.lock.value); }
  }

  lemma OtherCall(s: State, h: nat, s': State, u: nat)
    requires Inv(s) && h < |s.calls| && CallStep(s, h, s') && u < |s.calls| && u != h
    ensures u < |s'.calls| && CallOk(s', u)
  {
    hide StillOpen, ReaderOk, Gone, FlipsDone, FlipUnderWay;
    assert CallOk(s, u) && CallOk(s, h);
    CallFrame(s, h, s');
    var c := s.calls[u];
    if Sampled(c) { FlipsAfter(s, h, s', c.o, c.seen); }
  }

  lemma CallKeepsInv(s: State, h: nat, s': State)
    requires Inv(s) && h < |s.calls| && CallStep(s, h, s')
    ensures Inv(s')
  {
    hide ReaderOk, CallOk;
    CallFrame(s, h, s');
    forall u | 0 <= u < |s'.calls|
      ensures CallOk(s', u)
    {
      if u == h { OwnCall(s, h, s'); } else { OtherCall(s, h, s', u); }
    }
  }

  lemma SynchronizeKeepsInv(s: State, h: nat, s': State)
    requires Inv(s) && h < |s.calls| && s.calls[h].Idle? && s' == SetCall(s, h, Sample)
    ensures Inv(s')
  {
    hide ReaderOk, Gone;
    assert CallOk(s, h);
    assert Completed(s') == Completed(s);
    forall u | 0 <= u < |s'.calls|
      ensures CallOk(s', u)
    {
      assert CallOk(s, u);
      if Sampled(s.calls[u]) { assert FlipsDone(s', s.calls[u].o, s.calls[u].seen); }
    }
  }

  lemma StepKeepsInv(s: State, e: Event, s': State)
    requires Inv(s) && Step(s, e, s')
    ensures Inv(s')
  {
    hide Inv, CallStep, ReadStep;
    match e {
      case Synchronize(h) => SynchronizeKeepsInv(s, h, s');
      case Advance(h) => CallKeepsInv(s, h, s');
      case _ => ReadersKeepInv(s, e, s');
    }
  }

  lemma {:induction false} RunInv(run: seq<State>, events: seq<Event>, i: nat)
    requires IsRun(run, events) && i < |run|
    ensures Inv(run[i])
  {
    hide Step;
    if i > 0 {
      RunInv(run, events, i - 1);
      assert Step(run[i - 1], events[i - 1], run[i - 1 + 1]);
      StepKeepsInv(run[i - 1], events[i - 1], run[i]);
    }
  }

  // ----- what holds in every run

  lemma BothRanksGone(s: State, o: nat, seen: Sections)
    requires Inv(s) && Gone(s.readers, |s.readers|, seen, o % 2) && Gone(s.readers, |s.readers|, seen, (o + 1) % 2)
    ensures OpenSections(s.readers) !! seen
  {
    forall t | 0 <= t < |s.readers| && Active(s.readers[t])
      ensures (t, s.readers[t].serial) !in seen
    {
      assert ReaderOk(s.readers[t]);
      assert !StillOpen(s.readers[t], t, seen, o % 2) && !StillOpen(s.readers[t], t, seen, (o + 1) % 2);
    }
  }

  /** Call h of synchronize_rcu sampled rcu_idx with event i and has not returned by j. */
  ghost predicate CallFrom(run: seq<State>, events: seq<Event>, i: nat, j: nat, h: nat) {
    IsRun(run, events) && i < j < |run| && h < |run[i].calls| && run[i].calls[h].Sample? && events[i] == Advance(h)
    && forall k :: i < k <= j ==> h < |run[k].calls| && !run[k].calls[h].Idle?
  }

  /** Seen sections are what was open as rcu_idx was sampled, and the call carries them along. */
  lemma {:induction false} SampleIsKept(run: seq<State>, events: seq<Event>, i: nat, j: nat, h: nat)
    requires CallFrom(run, events, i, j, h)
    ensures h < |run[j].calls| && Sampled(run[j].calls[h])
    ensures run[j].calls[h].o == run[i].idx && run[j].calls[h].seen == OpenSections(run[i].readers)
    decreases j
  {
    hide Init, ReadStep, OpenSections;
    assert Step(run[j - 1], events[j - 1], run[j - 1 + 1]);
    if j > i + 1 { SampleIsKept(run, events, i, j - 1, h); }
  }

  /** Whichever path synchronize_rcu took, when it drops the lock to return, every section that
      was open when it sampled rcu_idx has ended. */
  lemma GracePeriod(run: seq<State>, events: seq<Event>, i: nat, j: nat, h: nat)
    requires CallFrom(run, events, i, j, h) && h < |run[j].calls| && run[j].calls[h].Unlock?
    ensures OpenSections(run[j].readers) !! OpenSections(run[i].readers)
  {
    SampleIsKept(run, events, i, j, h);
    RunInv(run, events, j);
    var s := run[j];
    assert CallOk(s, h);
    BothRanksGone(s, s.calls[h].o, s.calls[h].seen);
  }

  /** A call that finds rcu_idx three ahead of its sample waits for nothing: the flips of other
      calls have served it. */
  lemma SharedGracePeriod(run: seq<State>, events: seq<Event>, i: nat, j: nat, h: nat)
    requires CallFrom(run, events, i, j, h) && h < |run[j].calls| && run[j].calls[h].Decide?
    requires run[j].idx - run[i].idx >= 3
    ensures OpenSections(run[j].readers) !! OpenSections(run[i].readers)
  {
    SampleIsKept(run, events, i, j, h);
    RunInv(run, events, j);
    var s := run[j];
    assert CallOk(s, h);
    BothRanksGone(s, s.calls[h].o, s.calls[h].seen);
  }

  // ----- sections by their events

  /** How many rcu_read_lock calls of thread t have returned within the first n events. */
  function Locks(events: seq<Event>, t: nat, n: nat): nat
    requires n <= |events|
  {
    if n == 0 then 0
    else Locks(events, t, n - 1) + if events[n - 1] == Enter(t) || events[n - 1] == Nest(t) then 1 else 0
  }

  /** How many of its rcu_read_unlock calls have returned. */
  function Unlocks(events: seq<Event>, t: nat, n: nat): nat
    requires n <= |events|
  {
    if n == 0 then 0
    else Unlocks(events, t, n - 1) + if events[n - 1] == Unnest(t) || events[n - 1] == Leave(t) then 1 else 0
  }

  /** How many have taken effect: an outermost one does with its decrement. */
  function Released(events: seq<Event>, t: nat, n: nat): nat
    requires n <= |events|
  {
    if n == 0 then 0
    else Released(events, t, n - 1) + if events[n - 1] == Unnest(t) || events[n - 1] == Drop(t) then 1 else 0
  }

  /** Thread t is in a section: it has locked more often than unlocked. */
  predicate IsOpen(events: seq<Event>, t: nat, n: nat)
    requires n <= |events|
  {
    Locks(events, t, n) > Released(events, t, n)
  }

  /** What one event does to thread t's nesting. */
  lemma NestingStep(s: State, e: Event, s': State, t: nat)
    requires Step(s, e, s') && t < |s.readers| && ReaderOk(s.readers[t])
    ensures |s'.readers| == |s.readers|
    ensures var r, r' := s.readers[t], s'.readers[t];
      r'.nesting - r.nesting ==
        (if e == Enter(t) || e == Nest(t) then 1 else 0) - (if e == Unnest(t) || e == Leave(t) then 1 else 0)
      && (r'.pc.Dropped? <==> e == Drop(t) || (r.pc.Dropped? && e != Leave(t))) && (e == Leave(t) ==> r.pc.Dropped?)
      && (e == Drop(t) ==> !r.pc.Dropped?) && (r'.serial != r.serial ==> e == Enter(t) && !Active(r))
  {
    hide OpenSections;
  }

  /** The nesting count is what the events say, and so is whether the thread is in a section. */
  lemma {:induction false} NestingCounts(run: seq<State>, events: seq<Event>, i: nat, t: nat)
    requires IsRun(run, events) && i < |run| && t < |run[0].readers|
    ensures t < |run[i].readers| && run[i].readers[t].nesting == Locks(events, t, i) - Unlocks(events, t, i)
    ensures Released(events, t, i) == Unlocks(events, t, i) + if run[i].readers[t].pc.Dropped? then 1 else 0
    ensures Active(run[i].readers[t]) <==> IsOpen(events, t, i)
  {
    hide Step, CallOk;
    if i > 0 {
      NestingCounts(run, events, i - 1, t);
      RunInv(run, events, i - 1);
      assert Step(run[i - 1], events[i - 1], run[i - 1 + 1]);
      NestingStep(run[i - 1], events[i - 1], run[i], t);
    }
    RunInv(run, events, i);
    assert ReaderOk(run[i].readers[t]);
  }

  /** A section opened by a lock stays open until as many unlocks as locks have taken effect: it
      keeps its serial number. */
  lemma {:induction false} SameSection(run: seq<State>, events: seq<Event>, i: nat, j: nat, t: nat)
    requires IsRun(run, events) && i <= j < |run| && t < |run[0].readers|
    requires forall b :: i <= b <= j ==> IsOpen(events, t, b)
    ensures t < |run[i].readers| && t < |run[j].readers| && run[j].readers[t].serial == run[i].readers[t].serial
    decreases j
  {
    hide Step, Init, CallOk, IsOpen;
    NestingCounts(run, events, i, t);
    if i < j {
      SameSection(run, events, i, j - 1, t);
      NestingCounts(run, events, j - 1, t);
      RunInv(run, events, j - 1);
      assert Step(run[j - 1], events[j - 1], run[j - 1 + 1]);
      NestingStep(run[j - 1], events[j - 1], run[j], t);
    }
  }

  lemma CallBegins(s: State, h: nat, s': State)
    requires Step(s, Synchronize(h), s')
    ensures h < |s'.calls| && s'.calls[h].Sample?
  {
    hide OpenSections;
  }

  lemma SamplesItself(s: State, e: Event, s': State, h: nat)
    requires Step(s, e, s') && h < |s.calls| && s.calls[h].Sample?
    ensures h < |s'.calls| && (s'.calls[h].Sample? || e == Advance(h))
  {
    hide OpenSections, ReadStep;
  }

  lemma CallEnds(s: State, e: Event, s': State, h: nat)
    requires Step(s, e, s') && h < |s.calls| && !s.calls[h].Idle? && h < |s'.calls| && s'.calls[h].Idle?
    ensures s.calls[h].Unlock?
  {
    hide OpenSections, ReadStep;
  }

  /** From its call on, synchronize_rcu is about to sample or has sampled. */
  lemma {:induction false} SamplePoint(run: seq<State>, events: seq<Event>, a: nat, x: nat, h: nat)
    requires IsRun(run, events) && a < x < |run| && events[a] == Synchronize(h)
    requires forall k :: a < k <= x ==> h < |run[k].calls| && !run[k].calls[h].Idle?
    ensures run[x].calls[h].Sample? || exists i :: a < i < x && CallFrom(run, events, i, x, h)
    decreases x
  {
    hide Init, Step;
    assert Step(run[x - 1], events[x - 1], run[x - 1 + 1]);
    if x == a + 1 {
      CallBegins(run[a], h, run[x]);
    } else {
      SamplePoint(run, events, a, x - 1, h);
      if run[x - 1].calls[h].Sample? {
        SamplesItself(run[x - 1], events[x - 1], run[x], h);
        assert run[x].calls[h].Sample? || CallFrom(run, events, x - 1, x, h);
      } else {
        var i :| a < i < x - 1 && CallFrom(run, events, i, x - 1, h);
        assert CallFrom(run, events, i, x, h);
      }
    }
  }

  /** Call h of synchronize_rcu is made with event a, and has returned at b. */
  ghost predicate Synchronizes(run: seq<State>, events: seq<Event>, a: nat, b: nat, h: nat) {
    IsRun(run, events) && a < b < |run| && events[a] == Synchronize(h) && h < |run[b].calls| && run[b].calls[h].Idle?
    && forall k :: a < k < b ==> h < |run[k].calls| && !run[k].calls[h].Idle?
  }

  /** A thread with more locks than unlocks throughout has one section open throughout. */
  lemma OpenThroughout(run: seq<State>, events: seq<Event>, i: nat, j: nat, t: nat)
    requires IsRun(run, events) && i <= j < |run| && t < |run[0].readers|
    requires forall b :: i <= b <= j ==> IsOpen(events, t, b)
    ensures exists x :: x in OpenSections(run[i].readers) && x in OpenSections(run[j].readers)
  {
    hide Step, Init, IsOpen, CallOk, ReaderOk;
    SameSection(run, events, i, j, t);
    NestingCounts(run, events, i, t);
    NestingCounts(run, events, j, t);
    assert (t, run[i].readers[t].serial) in OpenSections(run[i].readers);
    assert (t, run[i].readers[t].serial) in OpenSections(run[j].readers);
  }

  /** The grace period in terms of calls alone: if, when synchronize_rcu is called, a thread has
      made more locks than unlocks, then before it returns the thread's unlocks catch up. */
  lemma GracePeriodByCalls(run: seq<State>, events: seq<Event>, a: nat, b: nat, h: nat, t: nat)
    requires Synchronizes(run, events, a, b, h) && t < |run[0].readers|
    ensures IsOpen(events, t, a) ==> exists x :: a <= x <= b && !IsOpen(events, t, x)
  {
    hide Init, Step, IsOpen, OpenSections, CallFrom;
    assert Step(run[a], events[a], run[a + 1]) && Step(run[b - 1], events[b - 1], run[b - 1 + 1]);
    CallBegins(run[a], h, run[a + 1]);
    CallEnds(run[b - 1], events[b - 1], run[b], h);
    SamplePoint(run, events, a, b - 1, h);
    var i :| a < i < b - 1 && CallFrom(run, events, i, b - 1, h);
    GracePeriod(run, events, i, b - 1, h);
    if forall x :: a <= x <= b ==> IsOpen(events, t, x) { OpenThroughout(run, events, i, b - 1, t); }
  }

  /** A call of synchronize_rcu can always take its next step unless it waits for the lock, and
      a thread inside rcu_read_lock or rcu_read_unlock always can; one inside a section can
      always unlock. */
  lemma NobodyIsStuck(run: seq<State>, events: seq<Event>, i: nat, h: nat, t: nat)
    requires IsRun(run, events) && i < |run| && h < |run[i].calls| && t < |run[i].readers|
    ensures !run[i].calls[h].Idle? && (run[i].calls[h].WantLock? ==> run[i].lock == None) ==>
      exists s' :: Step(run[i], Advance(h), s')
    ensures !run[i].readers[t].pc.Rest? || run[i].readers[t].nesting >= 1 ==>
      exists e, s' :: e in {Count(t), Enter(t), Unnest(t), Drop(t), Leave(t)} && Step(run[i], e, s')
  {
    hide OpenSections;
    var s := run[i];
    RunInv(run, events, i);
    if !s.calls[h].Idle? && (s.calls[h].WantLock? ==> s.lock == None) { CallMoves(s, h); }
    if !s.readers[t].pc.Rest? || s.readers[t].nesting >= 1 { ReaderMoves(s, t); }
  }

  lemma CallMoves(s: State, h: nat)
    requires h < |s.calls| && !s.calls[h].Idle? && (s.calls[h].WantLock? ==> s.lock == None)
    ensures exists s' :: Step(s, Advance(h), s')
  {
    hide OpenSections;
    var s' := match s.calls[h]
      case Sample => SetCall(s, h, WantLock(s.idx, OpenSections(s.readers)))
      case WantLock(o, seen) => SetCall(s, h, Decide(o, seen)).(lock := Some(h))
      case Decide(o, seen) =>
        SetCall(s, h, if s.idx - o >= 3 then Unlock(o, seen) else Flip(o, seen, s.idx, s.idx - o < 2))
      case Flip(o, seen, c, again) => SetCall(s, h, Wait(o, seen, c, again, 0)).(idx := c + 1)
      case Wait(o, seen, c, again, k) =>
        if k >= |s.readers| then SetCall(s, h, if again then Flip(o, seen, c + 1, false) else Unlock(o, seen))
        else if RefOf(s.readers[k], c % 2) != 0 then s
        else SetCall(s, h, Wait(o, seen, c, again, k + 1))
      case Unlock(o, seen) => SetCall(s, h, Idle).(lock := None)
      case Idle => s;
    assert Step(s, Advance(h), s');
  }

  lemma ReaderMoves(s: State, t: nat)
    requires Inv(s) && t < |s.readers| && (!s.readers[t].pc.Rest? || s.readers[t].nesting >= 1)
    ensures exists e, s' :: e in {Count(t), Enter(t), Unnest(t), Drop(t), Leave(t)} && Step(s, e, s')
  {
    hide OpenSections, CallOk;
    var r := s.readers[t];
    assert ReaderOk(r);
    var e := if r.pc.Picked? then Count(t) else if r.pc.Counted? then Enter(t) else if r.pc.Dropped? then Leave(t)
             else if r.nesting > 1 then Unnest(t) else Drop(t);
    var r' := match e
      case Count(_) => AddRef(r, r.readIdx, 1).(pc := Counted)
      case Enter(_) => r.(pc := Rest, nesting := r.nesting + 1, serial := r.serial + 1)
      case Unnest(_) => r.(nesting := r.nesting - 1)
      case Drop(_) => AddRef(r, r.readIdx, -1).(pc := Dropped)
      case Leave(_) => r.(pc := Rest, nesting := r.nesting - 1)
      case _ => r;
    assert ReadStep(s.idx, r, e, r') && Who(e) == t;
    assert s.readers[Who(e)] == r;
    assert Step(s, e, s.(readers := s.readers[t := r']));
  }
}
