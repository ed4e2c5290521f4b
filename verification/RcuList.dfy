/** One bucket list of datastruct/hash/hash_resize.c under RCU: an updater holding the bucket's
    lock adds at the head and deletes with cds_list_add_rcu and cds_list_del_rcu while readers
    traverse, one transition per pointer read.  Elements are numbered as they are added; a
    grace period passes before one is reused, so a number names it for good.
 */
module RcuList {
  import opened Common

  /** first and gone are the list's elements and the deleted ones as the reader began; seen
      collects what it has visited. */
  datatype Reader =
    | Outside
    | AtHead(first: set<nat>, gone: set<nat>, seen: set<nat>)
    | At(n: nat, first: set<nat>, gone: set<nat>, seen: set<nat>)
    | AtEnd(first: set<nat>, gone: set<nat>, seen: set<nat>)

  datatype State = State(head: Option<nat>, next: map<nat, Option<nat>>, born: nat, live: set<nat>, gone: set<nat>,
      readers: seq<Reader>)

  datatype Event = Add | Del(n: nat) | Read(t: nat)

  function NextOf(next: map<nat, Option<nat>>, n: nat): Option<nat> { if n in next then next[n] else None }

  ghost predicate AddStep(s: State, s': State) {
    s' == s.(head := Some(s.born), next := s.next[s.born := s.head], born := s.born + 1, live := s.live + {s.born})
  }

  /** The predecessor, or the head, is made to skip n; n keeps its own next pointer. */
  ghost predicate DelStep(s: State, n: nat, s': State) {
    n in s.live
    && if s.head == Some(n) then s' == s.(head := NextOf(s.next, n), live := s.live - {n}, gone := s.gone + {n})
       else exists p: nat ::
         p in s.live && NextOf(s.next, p) == Some(n)
         && s' == s.(next := s.next[p := NextOf(s.next, n)], live := s.live - {n}, gone := s.gone + {n})
  }

  function Arrive(to: Option<nat>, first: set<nat>, gone: set<nat>, seen: set<nat>): Reader {
    if to == None then AtEnd(first, gone, seen) else At(to.value, first, gone, seen + {to.value})
  }

  ghost predicate ReadStep(s: State, t: nat, s': State) {
    t < |s.readers| && s' == s.(readers := s.readers[t :=
      match s.readers[t]
      case Outside => AtHead(s.live, s.gone, {})
      case AtHead(first, gone, seen) => Arrive(s.head, first, gone, seen)
      case At(n, first, gone, seen) => Arrive(NextOf(s.next, n), first, gone, seen)
      case AtEnd(_, _, _) => Outside])
  }

  ghost predicate Step(s: State, e: Event, s': State) {
    match e
    case Add => AddStep(s, s')
    case Del(n) => DelStep(s, n, s')
    case Read(t) => ReadStep(s, t, s')
  }

  ghost predicate Init(s: State) {
    s.head == None && s.next == map[] && s.born == 0 && s.live == {} && s.gone == {}
      && forall t :: 0 <= t < |s.readers| ==> s.readers[t] == Outside
  }

  ghost predicate IsRun(run: seq<State>, events: seq<Event>) {
    |run| == |events| + 1 && Init(run[0]) && forall i :: 0 <= i < |events| ==> Step(run[i], events[i], run[i + 1])
  }

  // ----- the invariant

  /** A pointer to `to` skips no listed element older than n. */
  ghost predicate Covers(live: set<nat>, n: nat, to: Option<nat>) {
    (to.Some? ==> to.value < n) && forall e :: e in live && e < n ==> to.Some? && e <= to.value
  }

  /** Every element ever added, listed or deleted, points past no older listed element. */
  ghost predicate PointersOk(s: State) {
    Covers(s.live, s.born, s.head) && (forall n :: 0 <= n < s.born ==> Covers(s.live, n, NextOf(s.next, n)))
    && (forall n: nat :: n in s.live || n in s.gone <==> n < s.born) && s.live !! s.gone
    && (s.head.Some? ==> s.head.value in s.live)
       && forall n :: n in s.live && NextOf(s.next, n).Some? ==> NextOf(s.next, n).value in s.live
  }

  /** Nothing a reader can still reach was deleted before it began. */
  ghost predicate ReachOk(s: State, gone: set<nat>) {
    gone <= s.gone
      && forall n :: 0 <= n < s.born && n !in gone && NextOf(s.next, n).Some? ==> NextOf(s.next, n).value !in gone
  }

  ghost predicate ReaderOk(s: State, t: nat)
    requires t < |s.readers|
  {
    match s.readers[t]
    case Outside => true
    case AtHead(first, gone, seen) =>
      ReachOk(s, gone) && seen !! gone && forall e :: e in first ==> e in s.live || e in s.gone
    case At(n, first, gone, seen) => ReachOk(s, gone) && n < s.born && n !in gone && seen !! gone
        && forall e :: e in first ==> (e in s.live || e in s.gone) && (e in seen || e in s.gone || e < n)
    case AtEnd(first, gone, seen) => seen !! gone && forall e :: e in first ==> e in seen || e in s.gone
  }

  ghost predicate Inv(s: State) {
    PointersOk(s) && forall t :: 0 <= t < |s.readers| ==> ReaderOk(s, t)
  }

  lemma AddKeepsInv(s: State, s': State)
    requires Inv(s) && AddStep(s, s')
    ensures Inv(s')
  {
    assert forall x: nat :: NextOf(s'.next, x) == if x == s.born then s.head else NextOf(s.next, x);
    forall x | 0 <= x < s'.born
      ensures Covers(s'.live, x, NextOf(s'.next, x))
    {
      assert x < s.born ==> Covers(s.live, x, NextOf(s.next, x));
    }
    forall t | 0 <= t < |s'.readers| ensures ReaderOk(s', t) { assert ReaderOk(s, t); }
  }

  lemma DelPointers(s: State, n: nat, s': State)
    requires Inv(s) && DelStep(s, n, s')
    ensures PointersOk(s')
  {
    hide ReaderOk, Covers;
    forall x | 0 <= x < s'.born ensures Covers(s'.live, x, NextOf(s'.next, x)) { DelCovers(s, n, s', x); }
    DelCoversHead(s, n, s');
    OnePredecessor(s, n);
  }

  lemma DelCovers(s: State, n: nat, s': State, x: nat)
    requires PointersOk(s) && DelStep(s, n, s') && x < s.born
    ensures Covers(s'.live, x, NextOf(s'.next, x))
  {
    assert Covers(s.live, x, NextOf(s.next, x)) && Covers(s.live, n, NextOf(s.next, n));
  }

  lemma DelCoversHead(s: State, n: nat, s': State)
    requires PointersOk(s) && DelStep(s, n, s')
    ensures Covers(s'.live, s'.born, s'.head)
  {
    assert Covers(s.live, n, NextOf(s.next, n));
  }

  /** Only one listed element, or the head, points to n. */
  lemma OnePredecessor(s: State, n: nat)
    requires PointersOk(s) && n in s.live
    ensures forall p, q ::
      p in s.live && q in s.live && NextOf(s.next, p) == Some(n) && NextOf(s.next, q) == Some(n) ==> p == q
    ensures s.head == Some(n) ==> forall p :: p in s.live ==> NextOf(s.next, p) != Some(n)
  {
    forall p, q | p in s.live && q in s.live && NextOf(s.next, p) == Some(n) && NextOf(s.next, q) == Some(n)
      ensures p == q
    {
      assert Covers(s.live, p, NextOf(s.next, p)) && Covers(s.live, q, NextOf(s.next, q));
    }
    forall p | p in s.live
      ensures NextOf(s.next, p) == Some(n) ==> s.head != Some(n)
    {
      assert Covers(s.live, p, NextOf(s.next, p)) && Covers(s.live, s.born, s.head);
    }
  }

  lemma DelReach(s: State, n: nat, s': State, gone: set<nat>)
    requires Inv(s) && DelStep(s, n, s') && ReachOk(s, gone)
    ensures ReachOk(s', gone)
  {
    assert n !in gone;
    assert NextOf(s.next, n).Some? ==> NextOf(s.next, n).value !in gone;
    forall x | 0 <= x < s'.born && x !in gone && NextOf(s'.next, x).Some?
      ensures NextOf(s'.next, x).value !in gone
    {
      assert NextOf(s'.next, x) == NextOf(s.next, x) || NextOf(s'.next, x) == NextOf(s.next, n);
    }
  }

  lemma DelKeepsInv(s: State, n: nat, s': State)
    requires Inv(s) && DelStep(s, n, s')
    ensures Inv(s')
  {
    DelPointers(s, n, s');
    forall t | 0 <= t < |s'.readers|
      ensures ReaderOk(s', t)
    {
      assert ReaderOk(s, t);
      if !s.readers[t].Outside? && !s.readers[t].AtEnd? { DelReach(s, n, s', s.readers[t].gone); }
    }
  }

  lemma ReadKeepsInv(s: State, t: nat, s': State)
    requires Inv(s) && ReadStep(s, t, s')
    ensures Inv(s')
  {
    assert ReaderOk(s, t);
    forall u | 0 <= u < |s'.readers| ensures ReaderOk(s', u) { assert ReaderOk(s, u); }
  }

  lemma {:induction false} RunInv(run: seq<State>, events: seq<Event>, i: nat)
    requires IsRun(run, events) && i < |run|
    ensures Inv(run[i])
  {
    if i > 0 {
      RunInv(run, events, i - 1);
      var s, s' := run[i - 1], run[i - 1 + 1];
      assert Step(s, events[i - 1], s');
      match events[i - 1] {
        case Add => AddKeepsInv(s, s');
        case Del(n) => DelKeepsInv(s, n, s');
        case Read(t) => ReadKeepsInv(s, t, s');
      }
    }
  }

  // ----- what holds in every run

  /** A traversal visits every element that was listed when it began and was not deleted
      meanwhile, and no element that had been deleted before it began. */
  lemma TraversalIsFaithful(run: seq<State>, events: seq<Event>, i: nat, t: nat)
    requires IsRun(run, events) && i < |run| && t < |run[i].readers| && run[i].readers[t].AtEnd?
    ensures forall e :: e in run[i].readers[t].first && e !in run[i].gone ==> e in run[i].readers[t].seen
    ensures run[i].readers[t].seen !! run[i].readers[t].gone
  {
    RunInv(run, events, i);
    assert ReaderOk(run[i], t);
  }

  /** Each hop leads to an older element, so a traversal ends however many updates intervene. */
  lemma TraversalDescends(run: seq<State>, events: seq<Event>, i: nat, t: nat)
    requires IsRun(run, events) && i < |events| && events[i] == Read(t) && t < |run[i].readers| && run[i].readers[t].At?
    ensures t < |run[i + 1].readers|
    ensures run[i + 1].readers[t].At? ==> run[i + 1].readers[t].n < run[i].readers[t].n
    ensures run[i + 1].readers[t].At? || run[i + 1].readers[t].AtEnd?
  {
    RunInv(run, events, i);
    assert ReaderOk(run[i], t);
    assert Step(run[i], events[i], run[i + 1]);
  }
}
