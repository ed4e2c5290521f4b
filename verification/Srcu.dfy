/** The sleepable-RCU grace period of defer/srcu.c as a state machine: one transition per
    access to `completed` or to one per-CPU counter.  synchronize_rcu() is a primitive that
    completes once every RCU section open at its start has closed.
 */
module Srcu {

  type SectionId = nat
  type TaskId = nat

  /** One read-side section; r is the counter rank it uses. */
  datatype Section =
    | Locking               // inside srcu_read_lock, `completed` not read yet
    | Picked(r: nat)        // rank chosen, counter not incremented yet
    | Counted(r: nat)       // counter incremented, srcu_read_lock about to return
    | Inside(r: nat)        // srcu_read_lock has returned
    | Leaving(r: nat)       // srcu_read_unlock called, counter not decremented yet
    | Dropped               // counter decremented, srcu_read_unlock about to return
    | Gone

  /** An RCU section opened inside srcu_read_lock (lock) or srcu_read_unlock. */
  datatype RcuSection = RcuSection(id: SectionId, lock: bool)

  /** A call of synchronize_srcu.  seen: the sections inside when it was called. */
  datatype Call =
    | Called(seen: set<SectionId>)
    | WantLock(seen: set<SectionId>, idx: int)
    | Locked(seen: set<SectionId>, idx: int)
    | FirstWait(seen: set<SectionId>, open: set<RcuSection>)
    | Flipped(seen: set<SectionId>, rank: nat)
    | SecondWait(seen: set<SectionId>, rank: nat, open: set<RcuSection>)
    | Summing(seen: set<SectionId>, rank: nat, cpu: nat, sum: int)
    | ThirdWait(seen: set<SectionId>, rank: nat, open: set<RcuSection>)
    | Returned(seen: set<SectionId>)

  datatype Mutex = Free | HeldBy(t: TaskId)

  datatype State = State(
    completed: nat,
    c: seq<seq<int>>,                  // c[rank][cpu]
    sections: map<SectionId, Section>,
    mutex: Mutex,
    calls: map<TaskId, Call>)

  datatype Event =
    | ReadLock(s: SectionId) | Pick(s: SectionId) | Increment(s: SectionId, cpu: nat) | ReadLockReturn(s: SectionId)
    | ReadUnlock(s: SectionId) | Decrement(s: SectionId, cpu: nat) | ReadUnlockReturn(s: SectionId)
    | Synchronize(t: TaskId) | ReadCompleted(t: TaskId) | Acquire(t: TaskId) | EarlyExit(t: TaskId)
    | StartFirstWait(t: TaskId) | Flip(t: TaskId) | StartSecondWait(t: TaskId) | EndSecondWait(t: TaskId)
    | AddCounter(t: TaskId) | Poll(t: TaskId) | StartThirdWait(t: TaskId) | Return(t: TaskId)

  ghost function OpenSections(s: State): set<RcuSection> {
    (set i | i in s.sections
      && (s.sections[i].Locking? || s.sections[i].Picked? || s.sections[i].Counted?) :: RcuSection(i, true))
    + (set i | i in s.sections && (s.sections[i].Leaving? || s.sections[i].Dropped?) :: RcuSection(i, false))
  }

  function Insides(sections: map<SectionId, Section>): set<SectionId> {
    set i | i in sections && sections[i].Inside?
  }

  function AddTo(c: seq<seq<int>>, r: nat, cpu: nat, d: int): seq<seq<int>>
    requires r < |c| && cpu < |c[r]|
  {
    c[r := c[r][cpu := c[r][cpu] + d]]
  }

  ghost predicate Init(s: State) {
    s.completed == 0 && |s.c| == 2 && |s.c[0]| == |s.c[1]| && s.sections == map[] && s.mutex == Free && s.calls == map[]
    && forall cpu :: 0 <= cpu < |s.c[0]| ==> s.c[0][cpu] == 0 && s.c[1][cpu] == 0
  }

  ghost predicate ReaderStep(s: State, e: Event, s': State) {
    match e
    case ReadLock(i) => i !in s.sections && s' == s.(sections := s.sections[i := Locking])
    case Pick(i) => i in s.sections && s.sections[i].Locking?
      && s' == s.(sections := s.sections[i := Picked(s.completed % 2)])
    case Increment(i, cpu) => i in s.sections && s.sections[i].Picked?
      && s.sections[i].r < |s.c| && cpu < |s.c[s.sections[i].r]|
      && s' == s.(sections := s.sections[i := Counted(s.sections[i].r)], c := AddTo(s.c, s.sections[i].r, cpu, 1))
    case ReadLockReturn(i) => i in s.sections && s.sections[i].Counted?
      && s' == s.(sections := s.sections[i := Inside(s.sections[i].r)])
    case ReadUnlock(i) => i in s.sections && s.sections[i].Inside?
      && s' == s.(sections := s.sections[i := Leaving(s.sections[i].r)])
    case Decrement(i, cpu) => i in s.sections && s.sections[i].Leaving?
      && s.sections[i].r < |s.c| && cpu < |s.c[s.sections[i].r]|
      && s' == s.(sections := s.sections[i := Dropped], c := AddTo(s.c, s.sections[i].r, cpu, -1))
    case ReadUnlockReturn(i) => i in s.sections && s.sections[i].Dropped?
      && s' == s.(sections := s.sections[i := Gone])
    case _ => false
  }

  ghost predicate UpdaterStep(s: State, e: Event, s': State) {
    match e
    case Synchronize(t) => (t in s.calls ==> s.calls[t].Returned?)
      && s' == s.(calls := s.calls[t := Called(Insides(s.sections))])
    case ReadCompleted(t) => t in s.calls && s.calls[t].Called?
      && s' == s.(calls := s.calls[t := WantLock(s.calls[t].seen, s.completed)])
    case Acquire(t) => t in s.calls && s.calls[t].WantLock? && s.mutex == Free
      && s' == s.(mutex := HeldBy(t), calls := s.calls[t := Locked(s.calls[t].seen, s.calls[t].idx)])
    case EarlyExit(t) => t in s.calls && s.calls[t].Locked? && s.completed - s.calls[t].idx >= 2
      && s' == s.(mutex := Free, calls := s.calls[t := Returned(s.calls[t].seen)])
    case StartFirstWait(t) => t in s.calls && s.calls[t].Locked? && s.completed - s.calls[t].idx < 2
      && s' == s.(calls := s.calls[t := FirstWait(s.calls[t].seen, OpenSections(s))])
    case Flip(t) => t in s.calls && s.calls[t].FirstWait? && s.calls[t].open !! OpenSections(s)
      && s' == s.(completed := s.completed + 1, calls := s.calls[t := Flipped(s.calls[t].seen, s.completed % 2)])
    case StartSecondWait(t) => t in s.calls && s.calls[t].Flipped?
      && s' == s.(calls := s.calls[t := SecondWait(s.calls[t].seen, s.calls[t].rank, OpenSections(s))])
    case EndSecondWait(t) => t in s.calls && s.calls[t].SecondWait? && s.calls[t].open !! OpenSections(s)
      && s' == s.(calls := s.calls[t := Summing(s.calls[t].seen, s.calls[t].rank, 0, 0)])
    case AddCounter(t) => t in s.calls && s.calls[t].Summing? && s.calls[t].rank < |s.c|
      && s.calls[t].cpu < |s.c[s.calls[t].rank]|
      && s' == s.(calls := s.calls[t := Summing(s.calls[t].seen, s.calls[t].rank, s.calls[t].cpu + 1,
                                                s.calls[t].sum + s.c[s.calls[t].rank][s.calls[t].cpu])])
    case Poll(t) => t in s.calls && s.calls[t].Summing? && s.calls[t].rank < |s.c|
      && s.calls[t].cpu == |s.c[s.calls[t].rank]| && s.calls[t].sum != 0
      && s' == s.(calls := s.calls[t := Summing(s.calls[t].seen, s.calls[t].rank, 0, 0)])
    case StartThirdWait(t) => t in s.calls && s.calls[t].Summing? && s.calls[t].rank < |s.c|
      && s.calls[t].cpu == |s.c[s.calls[t].rank]| && s.calls[t].sum == 0
      && s' == s.(calls := s.calls[t := ThirdWait(s.calls[t].seen, s.calls[t].rank, OpenSections(s))])
    case Return(t) => t in s.calls && s.calls[t].ThirdWait? && s.calls[t].open !! OpenSections(s)
      && s' == s.(mutex := Free, calls := s.calls[t := Returned(s.calls[t].seen)])
    case _ => false
  }

  ghost predicate Step(s: State, e: Event, s': State) {
    ReaderStep(s, e, s') || UpdaterStep(s, e, s')
  }

  // ----- invariant

  /** The rank a section still has a claim on. */
  predicate Uses(x: Section, r: nat) {
    (x.Picked? || x.Counted? || x.Inside? || x.Leaving?) && x.r == r
  }

  predicate RankInRange(x: Section) {
    x.Picked? || x.Counted? || x.Inside? || x.Leaving? ==> x.r < 2
  }

  /** srcu_read_lock has returned. */
  predicate Entered(x: Section) {
    !x.Locking? && !x.Picked? && !x.Counted?
  }

  predicate Counts(x: Section, r: nat) {
    (x.Counted? || x.Inside? || x.Leaving?) && x.r == r
  }

  function Active(sections: map<SectionId, Section>, r: nat): set<SectionId> {
    set i | i in sections && Counts(sections[i], r)
  }

  function Sum(c: seq<int>): int {
    if c == [] then 0 else Sum(c[..|c| - 1]) + c[|c| - 1]
  }

  ghost predicate Holding(u: Call) {
    u.Locked? || u.FirstWait? || u.Flipped? || u.SecondWait? || u.Summing? || u.ThirdWait?
  }

  ghost predicate AfterFlip(u: Call) {
    u.Flipped? || u.SecondWait? || u.Summing? || u.ThirdWait?
  }

  /** Flips whose wait has finished. */
  ghost function Finished(s: State): int {
    if s.mutex.HeldBy? && s.mutex.t in s.calls && AfterFlip(s.calls[s.mutex.t]) then s.completed - 1 else s.completed
  }

  ghost predicate Shape(s: State) {
    |s.c| == 2 && |s.c[0]| == |s.c[1]|
    && (forall i :: i in s.sections ==> RankInRange(s.sections[i]))
    && (forall t :: t in s.calls && Holding(s.calls[t]) <==> s.mutex == HeldBy(t))
  }

  /** The counters of each rank sum to the number of sections counted on it. */
  ghost predicate CountersExact(s: State) {
    |s.c| == 2 && forall r :: 0 <= r < 2 ==> Sum(s.c[r]) == |Active(s.sections, r)|
  }

  /** No section uses the non-current rank, unless a flip is being waited for. */
  ghost predicate OldRankIdle(s: State) {
    Finished(s) == s.completed ==> forall i :: i in s.sections ==> !Uses(s.sections[i], (s.completed + 1) % 2)
  }

  /** What the mutex holder knows after its flip. */
  ghost predicate FlipProgress(s: State, u: Call) {
    AfterFlip(u) ==>
      u.rank == (s.completed + 1) % 2 && |s.c| == 2 && u.rank < 2
      && (forall i :: i in u.seen && i in s.sections ==> !Uses(s.sections[i], s.completed % 2))
      && (u.SecondWait? ==> forall i :: i in s.sections && s.sections[i] == Picked(u.rank) ==>
         RcuSection(i, true) in u.open)
      && (u.Summing? || u.ThirdWait? ==> forall i :: i in s.sections ==> s.sections[i] != Picked(u.rank))
      && (u.Summing? ==> u.cpu <= |s.c[u.rank]| && u.sum >= Sum(s.c[u.rank][..u.cpu]))
      && (u.ThirdWait? ==> forall i :: i in s.sections ==> !Uses(s.sections[i], u.rank))
  }

  /** Each finished flip since the call read `completed` emptied one rank of its readers. */
  ghost predicate SeenDrained(s: State, u: Call) {
    (forall i :: i in u.seen ==> i in s.sections && Entered(s.sections[i]))
    && (u.WantLock? || u.Locked? ==> 0 <= u.idx <= s.completed)
    && (u.WantLock? || u.Locked? ==>
      forall i, k :: i in u.seen && u.idx <= k < Finished(s) ==> !Uses(s.sections[i], k % 2))
    && (u.Returned? ==> forall i :: i in u.seen ==> s.sections[i].Dropped? || s.sections[i].Gone?)
  }

  ghost predicate Inv(s: State) {
    Shape(s) && CountersExact(s) && OldRankIdle(s)
    && (forall t :: t in s.calls ==> FlipProgress(s, s.calls[t]))
    && (forall t :: t in s.calls ==> SeenDrained(s, s.calls[t]))
  }

  lemma {:induction false} SumUpdate(c: seq<int>, k: nat, v: int)
    requires k < |c|
    ensures Sum(c[k := v]) == Sum(c) - c[k] + v
  {
    var d := c[k := v];
    if k == |c| - 1 {
      assert d[..|c| - 1] == c[..|c| - 1];
    } else {
      assert d[..|c| - 1] == c[..|c| - 1][k := v];
      SumUpdate(c[..|c| - 1], k, v);
    }
  }

  /** A counter update moves the sum of any prefix by at most its own change. */
  lemma SumPrefixUpdate(c: seq<int>, k: nat, v: int, n: nat)
    requires k < |c| && n <= |c|
    ensures Sum(c[k := v][..n]) == Sum(c[..n]) + (if k < n then v - c[k] else 0)
  {
    if k < n {
      assert c[k := v][..n] == c[..n][k := v];
      SumUpdate(c[..n], k, v);
    } else {
      assert c[k := v][..n] == c[..n];
    }
  }

  lemma ActiveUpdate(sections: map<SectionId, Section>, i: SectionId, x: Section, r: nat)
    ensures var was := if i in sections && Counts(sections[i], r) then 1 else 0;
      |Active(sections[i := x], r)| == |Active(sections, r)| - was + (if Counts(x, r) then 1 else 0)
  {
    var a, b := Active(sections, r), Active(sections[i := x], r);
    assert b == if Counts(x, r) then a + {i} else a - {i};
  }

  lemma CountersStep(s: State, e: Event, s': State)
    requires Shape(s) && CountersExact(s) && ReaderStep(s, e, s')
    ensures CountersExact(s')
  {
    hide ReaderStep, Sum, Active;
    ReaderFrame(s, e, s');
    forall r | 0 <= r < 2 ensures Sum(s'.c[r]) == |Active(s'.sections, r)| { CounterStep(s, e, s', r); }
  }

  /** The sum of rank r changes with the number of sections counted on it. */
  lemma CounterStep(s: State, e: Event, s': State, r: nat)
    requires Shape(s) && ReaderStep(s, e, s') && r < 2 && Sum(s.c[r]) == |Active(s.sections, r)|
    ensures |s'.c| == 2 && Sum(s'.c[r]) == |Active(s'.sections, r)|
  {
    hide Sum, Active;
    ActiveUpdate(s.sections, e.s, s'.sections[e.s], r);
    if e.Increment? || e.Decrement? {
      var q, d := s.sections[e.s].r, if e.Increment? then 1 else -1;
      SumUpdate(s.c[q], e.cpu, s.c[q][e.cpu] + d);
    }
  }

  lemma ReaderFrame(s: State, e: Event, s': State)
    requires Shape(s) && ReaderStep(s, e, s')
    ensures s'.completed == s.completed && s'.mutex == s.mutex && s'.calls == s.calls
    ensures |s'.c| == 2 && |s'.c[0]| == |s.c[0]| && |s'.c[1]| == |s.c[1]|
  {
  }

  /** A reader step moves one section; only choosing a rank makes it use one, the current one. */
  lemma ReaderMove(s: State, e: Event, s': State) returns (i: SectionId, x: Section)
    requires Shape(s) && ReaderStep(s, e, s')
    ensures s'.sections == s.sections[i := x] && RankInRange(x)
    ensures forall r :: Uses(x, r) ==>
      i in s.sections && (Uses(s.sections[i], r) || (s.sections[i].Locking? && r == s.completed % 2))
    ensures forall r :: x == Picked(r) ==> i in s.sections && (s.sections[i] == Picked(r) || r == s.completed % 2)
    ensures i in s.sections && Entered(s.sections[i]) ==> Entered(x)
    ensures i in s.sections && (s.sections[i].Dropped? || s.sections[i].Gone?) ==> x.Dropped? || x.Gone?
  {
    i, x := e.s, s'.sections[e.s];
  }

  lemma ReaderEffect(s: State, e: Event, s': State)
    requires Shape(s) && ReaderStep(s, e, s')
    ensures s'.completed == s.completed && s'.mutex == s.mutex && s'.calls == s.calls
    ensures |s'.c| == 2 && |s'.c[0]| == |s.c[0]| && |s'.c[1]| == |s.c[1]|
    ensures forall i :: i in s.sections ==> i in s'.sections
    ensures forall i, r :: i in s'.sections && Uses(s'.sections[i], r) ==>
      i in s.sections && (Uses(s.sections[i], r) || (s.sections[i].Locking? && r == s.completed % 2))
    ensures forall i, r :: i in s'.sections && s'.sections[i] == Picked(r) ==>
      i in s.sections && (s.sections[i] == Picked(r) || r == s.completed % 2)
    ensures forall i :: i in s'.sections ==> RankInRange(s'.sections[i])
    ensures forall i :: i in s.sections && Entered(s.sections[i]) ==> Entered(s'.sections[i])
    ensures forall i :: i in s.sections && (s.sections[i].Dropped? || s.sections[i].Gone?) ==>
      s'.sections[i].Dropped? || s'.sections[i].Gone?
  {
    hide ReaderStep, Uses, Entered, RankInRange;
    ReaderFrame(s, e, s');
    var i, x := ReaderMove(s, e, s');
  }

  /** With no section about to increment rank r, every prefix sum of r can only fall. */
  lemma PrefixSumsFall(s: State, e: Event, s': State, r: nat, n: nat)
    requires Shape(s) && ReaderStep(s, e, s') && r < 2 && n <= |s.c[r]|
    requires forall i :: i in s.sections ==> s.sections[i] != Picked(r)
    ensures |s'.c[r]| == |s.c[r]| && Sum(s'.c[r][..n]) <= Sum(s.c[r][..n])
  {
    if e.Decrement? && s.sections[e.s].r == r {
      SumPrefixUpdate(s.c[r], e.cpu, s.c[r][e.cpu] - 1, n);
    }
  }

  lemma FlipProgressReader(s: State, e: Event, s': State, u: Call)
    requires Shape(s) && ReaderStep(s, e, s') && FlipProgress(s, u) && SeenDrained(s, u)
    ensures FlipProgress(s', u)
  {
    hide ReaderStep, Sum, Finished;
    ReaderEffect(s, e, s');
    if u.Summing? { PrefixSumsFall(s, e, s', u.rank, u.cpu); }
  }

  lemma SeenDrainedReader(s: State, e: Event, s': State, u: Call)
    requires Shape(s) && ReaderStep(s, e, s') && SeenDrained(s, u)
    ensures SeenDrained(s', u)
  {
    hide ReaderStep, Sum;
    ReaderEffect(s, e, s');
    assert Finished(s') == Finished(s);
  }

  lemma ReaderStepKeepsInv(s: State, e: Event, s': State)
    requires Inv(s) && ReaderStep(s, e, s')
    ensures Inv(s')
  {
    hide ReaderStep, CountersExact, FlipProgress, SeenDrained;
    CountersStep(s, e, s');
    ReaderEffect(s, e, s');
    forall t | t in s'.calls
      ensures FlipProgress(s', s'.calls[t]) && SeenDrained(s', s'.calls[t])
    {
      FlipProgressReader(s, e, s', s.calls[t]);
      SeenDrainedReader(s, e, s', s.calls[t]);
    }
  }

  /** A zero sum read one counter at a time proves the old rank is unused, because its
      counters can only have decreased since they were read. */
  lemma ZeroSumMeansIdle(s: State, u: Call)
    requires Inv(s) && u in s.calls.Values && u.Summing? && u.cpu == |s.c[u.rank]| && u.sum == 0
    ensures forall i :: i in s.sections ==> !Uses(s.sections[i], u.rank)
  {
    var t :| t in s.calls && s.calls[t] == u;
    assert FlipProgress(s, u);
    assert s.c[u.rank][..u.cpu] == s.c[u.rank];
    assert |Active(s.sections, u.rank)| == 0;
    forall i | i in s.sections
      ensures !Uses(s.sections[i], u.rank)
    {
      assert i !in Active(s.sections, u.rank);
    }
  }

  /** A step of task t that neither flips nor touches the mutex keeps what all other tasks know. */
  lemma QuietStep(s: State, s': State, t: TaskId, u: Call)
    requires Inv(s) && s' == s.(calls := s.calls[t := u])
    requires if t in s.calls then Holding(u) == Holding(s.calls[t]) && AfterFlip(u) == AfterFlip(s.calls[t])
             else !Holding(u) && !AfterFlip(u)
    requires FlipProgress(s', u) && SeenDrained(s', u)
    ensures Inv(s')
  {
    hide FlipProgress, Shape, CountersExact, Finished;
    QuietShape(s, s', t, u);
    forall o | o in s'.calls && o != t
      ensures FlipProgress(s', s'.calls[o]) && SeenDrained(s', s'.calls[o])
    {
      QuietProgress(s, s', s.calls[o]);
      assert SeenDrained(s, s.calls[o]);
    }
  }

  lemma QuietProgress(s: State, s': State, w: Call)
    requires FlipProgress(s, w) && s'.completed == s.completed && s'.c == s.c && s'.sections == s.sections
    ensures FlipProgress(s', w)
  {
  }

  lemma QuietShape(s: State, s': State, t: TaskId, u: Call)
    requires Shape(s) && CountersExact(s) && s' == s.(calls := s.calls[t := u])
    requires if t in s.calls then Holding(u) == Holding(s.calls[t]) && AfterFlip(u) == AfterFlip(s.calls[t])
             else !Holding(u) && !AfterFlip(u)
    ensures Shape(s') && CountersExact(s') && Finished(s') == Finished(s)
  {
    hide Sum, Active;
  }

  lemma SynchronizeKeepsInv(s: State, e: Event, s': State)
    requires Inv(s) && UpdaterStep(s, e, s') && e.Synchronize?
    ensures Inv(s')
  {
    hide CountersExact, OldRankIdle, OpenSections, Shape;
    QuietStep(s, s', e.t, s'.calls[e.t]);
  }

  lemma CallStepKeepsInv(s: State, e: Event, s': State)
    requires Inv(s) && UpdaterStep(s, e, s')
    requires e.ReadCompleted? || e.StartFirstWait? || e.Poll?
    ensures Inv(s')
  {
    hide CountersExact, OldRankIdle, OpenSections, Shape, Insides;
    assert FlipProgress(s, s.calls[e.t]) && SeenDrained(s, s.calls[e.t]);
    QuietStep(s, s', e.t, s'.calls[e.t]);
  }

  /** The second wait starts with every reader still on its way to the old rank in view ... */
  lemma StartSecondWaitKeepsInv(s: State, e: Event, s': State)
    requires Inv(s) && UpdaterStep(s, e, s') && e.StartSecondWait?
    ensures Inv(s')
  {
    hide CountersExact, OldRankIdle;
    assert FlipProgress(s, s.calls[e.t]) && SeenDrained(s, s.calls[e.t]);
    QuietStep(s, s', e.t, s'.calls[e.t]);
  }

  /** ... and ends when none of them is left on its way. */
  lemma EndSecondWaitKeepsInv(s: State, e: Event, s': State)
    requires Inv(s) && UpdaterStep(s, e, s') && e.EndSecondWait?
    ensures Inv(s')
  {
    hide CountersExact, OldRankIdle;
    var u := s.calls[e.t];
    assert FlipProgress(s, u) && SeenDrained(s, u);
    forall i | i in s.sections
      ensures s.sections[i] != Picked(u.rank)
    {
      if s.sections[i].Picked? { assert RcuSection(i, true) in OpenSections(s); }
    }
    QuietStep(s, s', e.t, s'.calls[e.t]);
  }

  lemma AddCounterKeepsInv(s: State, e: Event, s': State)
    requires Inv(s) && UpdaterStep(s, e, s') && e.AddCounter?
    ensures Inv(s')
  {
    hide CountersExact, OldRankIdle, OpenSections;
    var u := s.calls[e.t];
    assert FlipProgress(s, u) && SeenDrained(s, u);
    assert s.c[u.rank][..u.cpu + 1][..u.cpu] == s.c[u.rank][..u.cpu];
    QuietStep(s, s', e.t, s'.calls[e.t]);
  }

  lemma StartThirdWaitKeepsInv(s: State, e: Event, s': State)
    requires Inv(s) && UpdaterStep(s, e, s') && e.StartThirdWait?
    ensures Inv(s')
  {
    var u := s.calls[e.t];
    assert FlipProgress(s, u) && SeenDrained(s, u);
    assert u in s.calls.Values;
    ZeroSumMeansIdle(s, u);
    QuietStep(s, s', e.t, s'.calls[e.t]);
  }

  /** Taking or dropping the mutex, and flipping, touch neither sections nor counters. */
  lemma MutexShape(s: State, e: Event, s': State)
    requires Shape(s) && CountersExact(s) && UpdaterStep(s, e, s')
    requires e.Acquire? || e.EarlyExit? || e.Flip? || e.Return?
    ensures Shape(s') && CountersExact(s') && s'.sections == s.sections && s'.c == s.c && |s.c| == 2
  {
    hide OpenSections, Sum, Active;
  }

  lemma FinishedAfter(s: State, e: Event, s': State)
    requires Shape(s) && UpdaterStep(s, e, s') && (e.Acquire? || e.EarlyExit? || e.Flip? || e.Return?)
    ensures Finished(s') == Finished(s) + (if e.Return? then 1 else 0)
    ensures e.Flip? || e.Return? ==> Finished(s') == s.completed
    ensures s'.completed == s.completed + (if e.Flip? then 1 else 0)
  {
    hide OpenSections;
  }

  lemma AcquireKeepsInv(s: State, e: Event, s': State)
    requires Inv(s) && UpdaterStep(s, e, s') && e.Acquire?
    ensures Inv(s')
  {
    hide Shape, CountersExact, Finished;
    MutexShape(s, e, s');
    FinishedAfter(s, e, s');
    forall o | o in s'.calls
      ensures FlipProgress(s', s'.calls[o]) && SeenDrained(s', s'.calls[o])
    {
      assert FlipProgress(s, s.calls[o]) && SeenDrained(s, s.calls[o]);
    }
  }

  lemma EarlyExitKeepsInv(s: State, e: Event, s': State)
    requires Inv(s) && UpdaterStep(s, e, s') && e.EarlyExit?
    ensures Inv(s')
  {
    hide Shape, CountersExact, FlipProgress;
    MutexShape(s, e, s');
    FinishedAfter(s, e, s');
    EarlyExitDrained(s, e, s');
    forall o | o in s'.calls
      ensures FlipProgress(s', s'.calls[o]) && SeenDrained(s', s'.calls[o])
    {
      SameProgress(s, s', o);
      if o != e.t { assert SeenDrained(s, s.calls[o]); }
    }
  }

  lemma SameProgress(s: State, s': State, o: TaskId)
    requires Inv(s) && o in s'.calls && s'.completed == s.completed && s'.c == s.c && s'.sections == s.sections
    requires !AfterFlip(s'.calls[o]) || (o in s.calls && s'.calls[o] == s.calls[o])
    ensures FlipProgress(s', s'.calls[o])
  {
    hide Shape, CountersExact, SeenDrained;
    if AfterFlip(s'.calls[o]) { assert FlipProgress(s, s.calls[o]); }
  }

  /** Two finished flips have emptied both ranks of the seen sections. */
  lemma EarlyExitDrained(s: State, e: Event, s': State)
    requires Inv(s) && UpdaterStep(s, e, s') && e.EarlyExit?
    ensures e.t in s'.calls && !AfterFlip(s'.calls[e.t]) && SeenDrained(s', s'.calls[e.t])
  {
    hide CountersExact, FlipProgress, OldRankIdle;
    var u := s.calls[e.t];
    assert SeenDrained(s, u);
    assert Finished(s) == s.completed;
    forall i | i in u.seen
      ensures s.sections[i].Dropped? || s.sections[i].Gone?
    {
      assert !Uses(s.sections[i], u.idx % 2) && !Uses(s.sections[i], (u.idx + 1) % 2);
    }
  }

  lemma FlipKeepsInv(s: State, e: Event, s': State)
    requires Inv(s) && UpdaterStep(s, e, s') && e.Flip?
    ensures Inv(s')
  {
    hide Shape, CountersExact, Finished;
    MutexShape(s, e, s');
    FinishedAfter(s, e, s');
    AloneAfterFlip(s, e.t);
    forall o | o in s'.calls
      ensures FlipProgress(s', s'.calls[o]) && SeenDrained(s', s'.calls[o])
    {
      assert SeenDrained(s, s.calls[o]);
    }
  }

  /** Only the mutex holder can be after its flip. */
  lemma AloneAfterFlip(s: State, t: TaskId)
    requires Shape(s) && t in s.calls && Holding(s.calls[t])
    ensures forall o :: o in s.calls && o != t ==> !AfterFlip(s.calls[o])
  {
  }

  /** Releasing the mutex counts the flip as finished: its rank is idle. */
  lemma ReturnKeepsInv(s: State, e: Event, s': State)
    requires Inv(s) && UpdaterStep(s, e, s') && e.Return?
    ensures Inv(s')
  {
    hide Shape, CountersExact, Finished, OpenSections, SeenDrained;
    var u := s.calls[e.t];
    MutexShape(s, e, s');
    FinishedAfter(s, e, s');
    AloneAfterFlip(s, e.t);
    assert FlipProgress(s, u) && SeenDrained(s, u);
    assert forall i :: i in s.sections ==> RankInRange(s.sections[i]) by { ShapeRanks(s); }
    ReturnDrained(s, s', u);
    forall o | o in s'.calls && o != e.t
      ensures FlipProgress(s', s'.calls[o]) && SeenDrained(s', s'.calls[o])
    {
      assert SeenDrained(s, s.calls[o]);
      DrainedByFlip(s, s', u, s.calls[o]);
    }
  }

  lemma ShapeRanks(s: State)
    requires Shape(s)
    ensures forall i :: i in s.sections ==> RankInRange(s.sections[i])
  {
  }

  lemma ReturnDrained(s: State, s': State, u: Call)
    requires FlipProgress(s, u) && SeenDrained(s, u) && u.ThirdWait? && s'.sections == s.sections
    requires s'.completed == s.completed
    requires forall i :: i in s.sections ==> RankInRange(s.sections[i])
    ensures SeenDrained(s', Returned(u.seen)) && FlipProgress(s', Returned(u.seen))
  {
    forall i | i in u.seen
      ensures s.sections[i].Dropped? || s.sections[i].Gone?
    {
      assert !Uses(s.sections[i], u.rank) && !Uses(s.sections[i], s.completed % 2);
    }
  }

  lemma DrainedByFlip(s: State, s': State, u: Call, w: Call)
    requires FlipProgress(s, u) && u.ThirdWait? && SeenDrained(s, w) && !AfterFlip(w)
    requires s'.sections == s.sections && s'.completed == s.completed
    requires Finished(s) == s.completed - 1 && Finished(s') == s.completed
    ensures FlipProgress(s', w) && SeenDrained(s', w)
  {
    assert (s.completed - 1) % 2 == u.rank;
  }

  lemma StepKeepsInv(s: State, e: Event, s': State)
    requires Inv(s) && Step(s, e, s')
    ensures Inv(s')
  {
    hide Inv;
    if ReaderStep(s, e, s') {
      ReaderStepKeepsInv(s, e, s');
    } else if e.StartSecondWait? {
      StartSecondWaitKeepsInv(s, e, s');
    } else if e.EndSecondWait? {
      EndSecondWaitKeepsInv(s, e, s');
    } else if e.AddCounter? {
      AddCounterKeepsInv(s, e, s');
    } else if e.StartThirdWait? {
      StartThirdWaitKeepsInv(s, e, s');
    } else if e.Acquire? {
      AcquireKeepsInv(s, e, s');
    } else if e.EarlyExit? {
      EarlyExitKeepsInv(s, e, s');
    } else if e.Flip? {
      FlipKeepsInv(s, e, s');
    } else if e.Return? {
      ReturnKeepsInv(s, e, s');
    } else if e.Synchronize? {
      SynchronizeKeepsInv(s, e, s');
    } else {
      CallStepKeepsInv(s, e, s');
    }
  }

  lemma InitInv(s: State)
    requires Init(s)
    ensures Inv(s)
  {
    forall r | 0 <= r < 2
      ensures Sum(s.c[r]) == |Active(s.sections, r)|
    {
      ZeroSum(s.c[r]);
      assert Active(s.sections, r) == {};
    }
  }

  lemma {:induction false} ZeroSum(c: seq<int>)
    requires forall k :: 0 <= k < |c| ==> c[k] == 0
    ensures Sum(c) == 0
  {
    if c != [] { ZeroSum(c[..|c| - 1]); }
  }

  // ----- runs

  ghost predicate IsRun(run: seq<State>, events: seq<Event>) {
    |run| == |events| + 1 && Init(run[0])
    && forall k :: 0 <= k < |events| ==> Step(run[k], events[k], run[k + 1])
  }

  lemma {:induction false} RunInv(run: seq<State>, events: seq<Event>, n: nat)
    requires IsRun(run, events) && n < |run|
    ensures Inv(run[n])
  {
    if n == 0 {
      InitInv(run[0]);
    } else {
      RunInv(run, events, n - 1);
      StepKeepsInv(run[n - 1], events[n - 1], run[n - 1 + 1]);
    }
  }

  /** With the mutex free, no active or in-flight reader uses the non-current rank. */
  lemma FreeMutexOldRankIdle(run: seq<State>, events: seq<Event>, n: nat, i: SectionId)
    requires IsRun(run, events) && n < |run| && run[n].mutex == Free && i in run[n].sections
    ensures !Uses(run[n].sections[i], (run[n].completed + 1) % 2)
  {
    RunInv(run, events, n);
  }

  /** The grace-period guarantee: in every run, if synchronize_srcu was called at step m and
      has returned by step n, then every section that was inside at step m has left. */
  lemma GracePeriod(run: seq<State>, events: seq<Event>, m: nat, n: nat, t: TaskId, i: SectionId)
    requires IsRun(run, events) && m < n < |run|
    requires events[m] == Synchronize(t)
    requires i in run[m].sections && run[m].sections[i].Inside?
    requires t in run[n].calls && run[n].calls[t].Returned?
    requires forall k :: m < k < |events| && k < n ==> events[k] != Synchronize(t)
    ensures i in run[n].sections && (run[n].sections[i].Dropped? || run[n].sections[i].Gone?)
  {
    SeenIsFixed(run, events, m, n, t);
    RunInv(run, events, n);
    assert SeenDrained(run[n], run[n].calls[t]);
  }

  lemma {:induction false} SeenIsFixed(run: seq<State>, events: seq<Event>, m: nat, n: nat, t: TaskId)
    requires IsRun(run, events) && m < n < |run| && events[m] == Synchronize(t)
    requires forall k :: m < k < |events| && k < n ==> events[k] != Synchronize(t)
    ensures t in run[n].calls && run[n].calls[t].seen == Insides(run[m].sections)
  {
    assert Step(run[n - 1], events[n - 1], run[n - 1 + 1]);
    if n - 1 > m {
      SeenIsFixed(run, events, m, n - 1, t);
    }
  }

  // ----- the grace period by calls

  lemma StaysInside(s: State, e: Event, s': State, i: SectionId)
    requires Step(s, e, s') && i in s.sections && s.sections[i].Inside? && e != ReadUnlock(i)
    ensures i in s'.sections && s'.sections[i] == s.sections[i]
  {
    hide OpenSections, Insides, AddTo;
  }

  lemma Enters(s: State, s': State, i: SectionId)
    requires Step(s, ReadLockReturn(i), s')
    ensures i in s'.sections && s'.sections[i].Inside?
  {
    hide OpenSections, Insides, AddTo;
  }

  /** A section is inside from the return of srcu_read_lock to the call of srcu_read_unlock. */
  lemma {:induction false} InsideUntilUnlock(run: seq<State>, events: seq<Event>, a: nat, x: nat, i: SectionId)
    requires IsRun(run, events) && a < x < |run| && events[a] == ReadLockReturn(i)
    requires forall u :: a < u < x ==> events[u] != ReadUnlock(i)
    ensures i in run[x].sections && run[x].sections[i].Inside?
    decreases x
  {
    hide Init, Step;
    assert Step(run[x - 1], events[x - 1], run[x - 1 + 1]);
    if x == a + 1 {
      Enters(run[a], run[x], i);
    } else {
      InsideUntilUnlock(run, events, a, x - 1, i);
      StaysInside(run[x - 1], events[x - 1], run[x], i);
    }
  }

  lemma Returns(s: State, e: Event, s': State, t: TaskId)
    requires Step(s, e, s') && (e == Return(t) || e == EarlyExit(t))
    ensures t in s'.calls && s'.calls[t].Returned?
  {
    hide OpenSections, Insides, AddTo;
  }

  /** The grace period in terms of calls alone: a section whose srcu_read_lock has returned before
      synchronize_srcu is called has called srcu_read_unlock before synchronize_srcu returns,
      whether that returns at its end or early. */
  lemma GracePeriodByCalls(run: seq<State>, events: seq<Event>, a: nat, m: nat, n: nat, t: TaskId, i: SectionId)
    requires IsRun(run, events) && a < m < n < |events| && events[a] == ReadLockReturn(i)
    requires events[m] == Synchronize(t) && (events[n] == Return(t) || events[n] == EarlyExit(t))
    requires forall k :: m < k < n ==> events[k] != Synchronize(t)
    ensures exists u :: a < u < n && events[u] == ReadUnlock(i)
  {
    hide Init, Step;
    assert Step(run[n], events[n], run[n + 1]);
    Returns(run[n], events[n], run[n + 1], t);
    if forall u :: a < u < n ==> events[u] != ReadUnlock(i) {
      InsideUntilUnlock(run, events, a, m, i);
      InsideUntilUnlock(run, events, a, n + 1, i);
      GracePeriod(run, events, m, n + 1, t, i);
    }
  }

  /** A call of synchronize_srcu can always take its next step, unless it waits for the mutex or
      for RCU sections to close. */
  lemma NobodyIsStuck(run: seq<State>, events: seq<Event>, n: nat, t: TaskId)
    requires IsRun(run, events) && n < |run| && t in run[n].calls && !run[n].calls[t].Returned?
    requires run[n].calls[t].WantLock? ==> run[n].mutex == Free
    requires run[n].calls[t].FirstWait? || run[n].calls[t].SecondWait? || run[n].calls[t].ThirdWait? ==>
      run[n].calls[t].open !! OpenSections(run[n])
    ensures exists e, s' :: UpdaterStep(run[n], e, s') && t in s'.calls && s'.calls[t] != run[n].calls[t]
  {
    hide Inv, FlipProgress, OpenSections, Insides, Init, Step;
    var s, u := run[n], run[n].calls[t];
    RunInv(run, events, n);
    ProgressMeaning(s, t);
    var (e, u') := NextCall(s, t, u);
    var s' := match e
      case Acquire(_) => s.(mutex := HeldBy(t), calls := s.calls[t := u'])
      case EarlyExit(_) => s.(mutex := Free, calls := s.calls[t := u'])
      case Flip(_) => s.(completed := s.completed + 1, calls := s.calls[t := u'])
      case Return(_) => s.(mutex := Free, calls := s.calls[t := u'])
      case _ => s.(calls := s.calls[t := u']);
    assert UpdaterStep(s, e, s');
  }

  lemma ProgressMeaning(s: State, t: TaskId)
    requires Inv(s) && t in s.calls
    ensures var u := s.calls[t]; u.Summing? ==> u.rank < |s.c| && u.cpu <= |s.c[u.rank]|
  {
    assert FlipProgress(s, s.calls[t]);
  }

  /** The next event of a call that need not wait, and what becomes of the call. */
  ghost function NextCall(s: State, t: TaskId, u: Call): (Event, Call)
    requires u.Summing? ==> u.rank < |s.c|
  {
    match u
    case Called(seen) => (ReadCompleted(t), WantLock(seen, s.completed))
    case WantLock(seen, idx) => (Acquire(t), Locked(seen, idx))
    case Locked(seen, idx) =>
      if s.completed - idx >= 2 then (EarlyExit(t), Returned(seen))
      else (StartFirstWait(t), FirstWait(seen, OpenSections(s)))
    case FirstWait(seen, open) => (Flip(t), Flipped(seen, s.completed % 2))
    case Flipped(seen, rank) => (StartSecondWait(t), SecondWait(seen, rank, OpenSections(s)))
    case SecondWait(seen, rank, open) => (EndSecondWait(t), Summing(seen, rank, 0, 0))
    case Summing(seen, rank, cpu, sum) =>
      if cpu < |s.c[rank]| then (AddCounter(t), Summing(seen, rank, cpu + 1, sum + s.c[rank][cpu]))
      else if sum != 0 then (Poll(t), Summing(seen, rank, 0, 0))
      else (StartThirdWait(t), ThirdWait(seen, rank, OpenSections(s)))
    case ThirdWait(seen, rank, open) => (Return(t), Returned(seen))
    case Returned(seen) => (Synchronize(t), Called(Insides(s.sections)))
  }

  /** How far a section has come. */
  function Stage(x: Section): nat {
    match x
    case Locking => 0
    case Picked(_) => 1
    case Counted(_) => 2
    case Inside(_) => 3
    case Leaving(_) => 4
    case Dropped => 5
    case Gone => 6
  }

  /** A reader never waits: every section can always go on to its next stage. */
  lemma ReadersNeverWait(run: seq<State>, events: seq<Event>, n: nat, i: SectionId)
    requires IsRun(run, events) && n < |run| && i in run[n].sections && !run[n].sections[i].Gone?
    requires |run[n].c| > 0 && |run[n].c[0]| > 0
    ensures exists e, s' ::
      ReaderStep(run[n], e, s') && i in s'.sections && Stage(s'.sections[i]) == Stage(run[n].sections[i]) + 1
  {
    hide OpenSections, Insides, CountersExact, OldRankIdle, FlipProgress, SeenDrained, Init, Step;
    var s, x := run[n], run[n].sections[i];
    RunInv(run, events, n);
    assert RankInRange(x);
    hide Inv;
    var e, x', c := match x
      case Locking => Pick(i)
      case Picked(_) => Increment(i, 0)
      case Counted(_) => ReadLockReturn(i)
      case Inside(_) => ReadUnlock(i)
      case Leaving(_) => Decrement(i, 0)
      case Dropped => ReadUnlockReturn(i)
      case Gone => ReadLock(i),
      NextStage(s, x), if x.Picked? then AddTo(s.c, x.r, 0, 1) else if x.Leaving? then AddTo(s.c, x.r, 0, -1) else s.c;
    assert ReaderStep(s, e, s.(sections := s.sections[i := x'], c := c));
  }

  function NextStage(s: State, x: Section): Section {
    match x
    case Locking => Picked(s.completed % 2)
    case Picked(r) => Counted(r)
    case Counted(r) => Inside(r)
    case Inside(r) => Leaving(r)
    case Leaving(_) => Dropped
    case Dropped => Gone
    case Gone => Gone
  }
}
