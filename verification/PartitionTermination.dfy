/** How the children of SMPdesign/maze/maze_part.c come to an end.  Their exploration is bounded:
    only the tests of a final wait that find nothing can go on for ever.  So on any schedule that
    keeps giving every child its turns, either all return, or all wait and no walk through the
    maze leads from its start to its end.
 */
module PartitionTermination {
  import opened Common
  import opened MazeGrid
  import opened PartitionForest
  import opened PartitionRoute
  import opened PartitionGrowth
  import opened PartitionProgress

  // ----- a bound on what a child still does

  function PropagateLeft(k: nat): nat { if k >= 7 then 1 else 8 - k }

  function TryLeft(d: nat): nat { 2 + if d < 4 then 24 * (4 - d) else 0 }

  /** What is left of a call of maze_find_any_next_cell, and of what its result leads to. */
  function ScanLeft(pc: Pc): nat {
    match pc
    case Start => 1 + TryLeft(0)
    case Try(d) => TryLeft(d)
    case Cas(d, _) => 22 + TryLeft(d + 1)
    case LoadTid(d, _) => 21 + TryLeft(d + 1)
    case Record(k, d, _, _) => TryLeft(d + 1) + if k < 3 then 20 - k else 17
    case Propagate(_, _, k, Mirror(d, _)) => 8 + PropagateLeft(k) + TryLeft(d + 1)
    case Propagate(_, _, k, Tried(d)) => PropagateLeft(k) + TryLeft(d + 1)
    case SetDist(_) => 301
    case Append(_) => 300
    case Found(_) => 201
    case _ => 0
  }

  /** What is left of a call of maze_solve_child_done_check among n threads. */
  function CheckLeft(n: nat, pc: Pc): nat {
    match pc
    case CheckStart => 2
    case CheckEnd(need) => if need then 2 + TheirsLeft(n, 0) else 1
    case CheckAdj(i) => 1 + TheirsLeft(n, i)
    case CheckTheirs(i) => 10 + TheirsLeft(n, i + 1)
    case Propagate(_, _, k, Adj(i)) => 1 + PropagateLeft(k) + TheirsLeft(n, i + 1)
    case _ => 0
  }

  function TheirsLeft(n: nat, i: nat): nat { if i < n then 10 * (n - i) else 0 }

  /** A child between the tests of its final wait. */
  predicate Polling(pc: Pc) { pc.CheckStart? || pc == CheckEnd(false) || pc.CheckDone? }

  /** Each flag that a child notices costs it a round of propagation. */
  function FlagsLeft(n: nat, k: Child): nat {
    (if k.snapStart then 0 else 10 * n + 10) + if k.snapEnd then 0 else 10 * n + 10
  }

  function StageLeft(n: nat, k: Child): nat {
    if k.finishing && AtRest(k.pc) then
      if k.pc.Finished? then 0 else if Polling(k.pc) then 1 else 1 + CheckLeft(n, k.pc)
    else
      CellsLeft(k) + if AtRest(k.pc) then 100 + CheckLeft(n, k.pc) else ScanLeft(k.pc)
  }

  /** The cells the outer loop has yet to scan, and the rescan of one that follows the inner loop. */
  function CellsLeft(k: Child): nat {
    (if k.v < |k.list| then 98 * (|k.list| - k.v) else 0) + if k.inner then 101 else 0
  }

  function KidLeft(n: nat, k: Child): nat { FlagsLeft(n, k) + StageLeft(n, k) }

  function Total(n: nat, kids: seq<Child>): nat {
    if kids == [] then 0 else Total(n, kids[..|kids| - 1]) + KidLeft(n, kids[|kids| - 1])
  }

  function Unvisited(f: Forest): set<Rowcol> { f.tid.Keys - f.visited }

  /** What all children together still do, at most. */
  function Left(s: State): nat { 301 * |Unvisited(s.f)| + Total(|s.kids|, s.kids) }

  /** The child's next step is a test of its final wait that finds nothing. */
  predicate Polls(s: State, t: nat) {
    t < |s.kids|
    && var k := s.kids[t];
       k.finishing
       && match k.pc
          case CheckStart => k.snapStart || t !in s.seeStart
          case CheckEnd(need) => !need && (k.snapEnd || t !in s.seeEnd)
          case CheckDone => !s.done
          case _ => false
  }

  // ----- every other step leaves less

  lemma ExhaustedLeavesLess(done: bool, c: Child, n: nat)
    requires !AtRest(c.pc) && ScanLeft(c.pc) == 2
    ensures KidLeft(n, Exhausted(done, c)) < KidLeft(n, c)
  {
    hide TheirsLeft;
    assert ScanLeft(Start) == 99;
  }

  /** Within one scan nothing but the control state changes. */
  ghost predicate Scans(s: State, t: nat, c: Child) {
    var c' := TryNext(s, t, c);
    c' == c.(pc := c'.pc, dd := c'.dd) && !AtRest(c'.pc) && ScanLeft(c'.pc) < ScanLeft(c.pc)
  }

  lemma TryScans(s: State, t: nat, c: Child)
    requires c.pc.Start? || (c.pc.Try? && c.pc.d < 4) || (c.pc.Cas? && c.pc.to in s.f.visited)
    ensures Scans(s, t, c)
  {
    hide Open, DistOf, TidOf, Exhausted, PropagateLeft, Neighbour;
    match c.pc
    case Start =>
    case Try(d) =>
    case Cas(d, to) =>
  }

  lemma EncounterScans(s: State, t: nat, c: Child)
    requires c.pc.LoadTid? || c.pc.Record? || c.pc.SetDist?
    ensures Scans(s, t, c)
  {
    hide Open, DistOf, TidOf, Exhausted;
  }

  lemma FoundLeavesLess(s: State, t: nat, c: Child, n: nat)
    requires c.pc.Append? || c.pc.Found?
    ensures KidLeft(n, TryNext(s, t, c)) < KidLeft(n, c)
  {
    hide TheirsLeft, Exhausted;
  }

  lemma TryLeavesLess(s: State, t: nat, c: Child, n: nat)
    requires !AtRest(c.pc) && !c.pc.Propagate? && (c.pc.Cas? ==> c.pc.to in s.f.visited)
    ensures KidLeft(n, TryNext(s, t, c)) < KidLeft(n, c)
  {
    if c.pc.Append? || c.pc.Found? {
      FoundLeavesLess(s, t, c, n);
    } else if c.pc.Try? && c.pc.d >= 4 {
      ExhaustedLeavesLess(s.done, c, n);
    } else {
      assert Scans(s, t, c) by {
        if c.pc.LoadTid? || c.pc.Record? || c.pc.SetDist? { EncounterScans(s, t, c); } else { TryScans(s, t, c); }
      }
      hide TryNext, ScanLeft, CheckLeft, TheirsLeft, Exhausted;
    }
  }

  lemma PassingLeavesLess(seeStart: set<nat>, seeEnd: set<nat>, t: nat, c: Child, n: nat)
    requires c.pc.Propagate?
    ensures var pc := PropagateNext(seeStart, seeEnd, t, c.pc.a, c.pc.b, c.pc.k, c.pc.ret);
      AtRest(pc) == AtRest(c.pc) && !Polling(pc) && !pc.Finished?
      && if AtRest(pc) then CheckLeft(n, pc) < CheckLeft(n, c.pc) else ScanLeft(pc) < ScanLeft(c.pc)
  {
    hide TheirsLeft;
  }

  lemma PropagateLeavesLess(s: State, t: nat, c: Child, n: nat)
    requires c.pc.Propagate?
    ensures KidLeft(n, NextKid(s, t, c)) < KidLeft(n, c)
  {
    PassingLeavesLess(s.seeStart, s.seeEnd, t, c, n);
    hide PropagateNext, CheckLeft, ScanLeft, TheirsLeft, TryNext, CheckNext;
  }

  lemma TheirsMeaning(n: nat, i: nat)
    ensures i < n ==> TheirsLeft(n, i) == 10 + TheirsLeft(n, i + 1)
    ensures i >= n ==> TheirsLeft(n, i) == 0
    ensures TheirsLeft(n, 0) == 10 * n
  {
  }

  lemma LoopLeavesLess(s: State, t: nat, c: Child)
    requires c.pc.CheckAdj? || c.pc.CheckTheirs?
    ensures CheckNext(s, t, c) == c.(pc := CheckNext(s, t, c).pc) && !CheckNext(s, t, c).pc.Finished?
    ensures AtRest(CheckNext(s, t, c).pc)
    ensures CheckLeft(|s.kids|, CheckNext(s, t, c).pc) < CheckLeft(|s.kids|, c.pc)
  {
    TheirsMeaning(|s.kids|, c.pc.i);
    hide Met, TheirsLeft;
  }

  lemma TestLeavesLess(s: State, t: nat)
    requires t < |s.kids| && (s.kids[t].pc.CheckStart? || s.kids[t].pc.CheckEnd?)
    ensures var n, c := |s.kids|, s.kids[t];
      KidLeft(n, CheckNext(s, t, c)) + (if Polls(s, t) then 0 else 1) <= KidLeft(n, c)
  {
    TheirsMeaning(|s.kids|, 0);
    hide Met, TheirsLeft, CellsLeft;
  }

  lemma DoneLeavesLess(s: State, t: nat)
    requires t < |s.kids| && s.kids[t].pc.CheckDone?
    ensures var n, c := |s.kids|, s.kids[t];
      KidLeft(n, CheckNext(s, t, c)) + (if Polls(s, t) then 0 else 1) <= KidLeft(n, c)
  {
    hide Met, TheirsLeft;
  }

  lemma KidLeavesLess(s: State, t: nat)
    requires t < |s.kids| && !s.kids[t].pc.Finished? && !(s.kids[t].pc.Cas? && s.kids[t].pc.to !in s.f.visited)
    ensures var n, c := |s.kids|, s.kids[t];
      KidLeft(n, NextKid(s, t, c)) + (if Polls(s, t) then 0 else 1) <= KidLeft(n, c)
  {
    var c := s.kids[t];
    if c.pc.Propagate? {
      PropagateLeavesLess(s, t, c, |s.kids|);
    } else if c.pc.CheckAdj? || c.pc.CheckTheirs? {
      LoopLeavesLess(s, t, c);
      hide CheckNext, CheckLeft, TryNext;
    } else if c.pc.CheckDone? {
      DoneLeavesLess(s, t);
    } else if Checking(c.pc) {
      TestLeavesLess(s, t);
    } else {
      TryLeavesLess(s, t, c, |s.kids|);
    }
  }

  lemma ClaimCosts(s: State, t: nat, c: Child, n: nat)
    requires c.pc.Cas? && c.pc.to !in s.f.visited
    ensures KidLeft(n, TryNext(s, t, c)) < KidLeft(n, c) + 301
  {
    hide TheirsLeft, Exhausted, Open, DistOf, TidOf;
  }

  lemma {:induction false} TotalUpdate(n: nat, kids: seq<Child>, t: nat, c: Child)
    requires t < |kids|
    ensures Total(n, kids[t := c]) == Total(n, kids) - KidLeft(n, kids[t]) + KidLeft(n, c)
    decreases |kids|
  {
    hide KidLeft;
    var last := |kids| - 1;
    var was, now := kids[..last], kids[t := c][..last];
    if t == last {
      assert now == was;
    } else {
      assert now == was[t := c];
      TotalUpdate(n, was, t, c);
    }
  }

  /** A claimed cell is a cell less to claim. */
  lemma ClaimedOne(s: State, t: nat)
    requires Inv(s) && t < |s.kids| && s.kids[t].pc.Cas?
    ensures |Unvisited(TryForest(s.f, t, s.kids[t]))| == |Unvisited(s.f)| - if s.kids[t].pc.to in s.f.visited then 0
      else 1
  {
    hide Inv, EncounterFits;
    InvGivesKid(s, t);
    var to := s.kids[t].pc.to;
    if to !in s.f.visited {
      assert Unvisited(Claim(s.f, to, t)) == Unvisited(s.f) - {to};
    }
  }

  lemma SameUnvisited(s: State, t: nat)
    requires t < |s.kids| && !s.kids[t].pc.Cas?
    ensures Unvisited(TryForest(s.f, t, s.kids[t])) == Unvisited(s.f)
  {
  }

  /** Every step leaves less to do, but for a test of a final wait that finds nothing. */
  lemma StepLeavesLess(s: State, t: nat, s': State)
    requires Inv(s) && Step(s, t, s')
    ensures Left(s') + (if Polls(s, t) then 0 else 1) <= Left(s)
  {
    hide Inv, Next, NextKid, Polls, KidLeft, Unvisited, TryForest;
    var n, c := |s.kids|, s.kids[t];
    NextForest(s, t);
    NextKidIs(s, t);
    assert s'.kids == s.kids[t := s'.kids[t]];
    TotalUpdate(n, s.kids, t, s'.kids[t]);
    if c.pc.Cas? { ClaimedOne(s, t); } else { SameUnvisited(s, t); }
    if c.pc.Cas? && c.pc.to !in s.f.visited {
      ClaimCosts(s, t, c, n);
      assert NextKid(s, t, c) == TryNext(s, t, c) && !Polls(s, t) by { CasIsTry(s, t, c); }
    } else {
      KidLeavesLess(s, t);
    }
  }

  lemma CasIsTry(s: State, t: nat, c: Child)
    requires c.pc.Cas?
    ensures NextKid(s, t, c) == TryNext(s, t, c) && (t < |s.kids| && s.kids[t] == c ==> !Polls(s, t))
  {
    hide TryNext, CheckNext, PropagateNext;
  }

  // ----- over a run

  /** How many of the steps from i to j are not fruitless tests in a final wait. */
  ghost function Work(run: seq<State>, who: seq<nat>, i: nat, j: nat): nat
    requires i <= j <= |who| < |run|
    decreases j
  {
    if i == j then 0 else Work(run, who, i, j - 1) + if Polls(run[j - 1], who[j - 1]) then 0 else 1
  }

  lemma {:induction false} WorkSpends(run: seq<State>, who: seq<nat>, i: nat, j: nat)
    requires IsRun(run, who) && i <= j < |run|
    ensures Work(run, who, i, j) + Left(run[j]) <= Left(run[i])
    decreases j
  {
    hide Init, Step, Left, Polls;
    if i < j {
      WorkSpends(run, who, i, j - 1);
      RunInv(run, who, j - 1);
      hide Inv;
      assert Step(run[j - 1], who[j - 1], run[j - 1 + 1]);
      StepLeavesLess(run[j - 1], who[j - 1], run[j]);
    }
  }

  /** What n children do in a maze of some number of cells. */
  function MostWork(cells: nat, n: nat): nat { 301 * cells + n * (20 * n + 217) }

  lemma {:induction false} TotalAtMost(n: nat, kids: seq<Child>, most: nat)
    requires forall t :: 0 <= t < |kids| ==> KidLeft(n, kids[t]) <= most
    ensures Total(n, kids) <= |kids| * most
  {
    hide KidLeft;
    if kids != [] {
      TotalAtMost(n, kids[..|kids| - 1], most);
      assert (|kids| - 1) * most + most == |kids| * most;
    }
  }

  lemma InitLeft(s: State)
    requires Init(s)
    ensures Left(s) <= MostWork(|s.f.tid|, |s.kids|)
  {
    hide Init, KidLeft, Unvisited;
    var n := |s.kids|;
    forall t | 0 <= t < n
      ensures KidLeft(n, s.kids[t]) <= 20 * n + 217
    {
      FirstIs(s, t);
      FirstLeft(n, s.f.starts[t], t);
    }
    TotalAtMost(n, s.kids, 20 * n + 217);
    UnvisitedFits(s.f);
  }

  lemma FirstIs(s: State, t: nat)
    requires Init(s) && t < |s.kids|
    ensures t < |s.f.starts| && s.kids[t] == FirstChild(s.f.starts[t], t)
  {
  }

  lemma FirstLeft(n: nat, start: Rowcol, t: nat)
    ensures KidLeft(n, FirstChild(start, t)) <= 20 * n + 217
  {
  }

  lemma UnvisitedFits(f: Forest)
    ensures |Unvisited(f)| <= |f.tid|
  {
    assert Unvisited(f) <= f.tid.Keys;
    SubsetSize(Unvisited(f), f.tid.Keys);
  }

  lemma SubsetSize(a: set<Rowcol>, b: set<Rowcol>)
    requires a <= b
    ensures |a| <= |b|
  {
    assert |b| == |a| + |b - a| by { assert b == a + (b - a); }
  }

  /** In every run, however it is scheduled and however long it is, all but so many steps are
      tests of a final wait that find nothing. */
  lemma WorkIsBounded(run: seq<State>, who: seq<nat>)
    requires IsRun(run, who)
    ensures Work(run, who, 0, |who|) <= MostWork(|run[0].f.tid|, |run[0].kids|)
  {
    WorkSpends(run, who, 0, |who|);
    InitLeft(run[0]);
  }

  // ----- a quiet stretch, in which every child has had its turns

  function Place(pc: Pc): nat { if pc.CheckStart? then 0 else if pc.CheckEnd? then 1 else 2 }

  function PollAt(place: nat): Pc {
    if place == 0 then CheckStart else if place == 1 then CheckEnd(false) else CheckDone
  }

  /** The test at that place of child t's final wait would find nothing. */
  predicate Nothing(s: State, t: nat, place: nat)
    requires t < |s.kids|
  {
    if place == 0 then s.kids[t].snapStart || t !in s.seeStart
    else if place == 1 then s.kids[t].snapEnd || t !in s.seeEnd
    else !s.done
  }

  ghost predicate QuietStretch(run: seq<State>, who: seq<nat>, i: nat, j: nat) {
    IsRun(run, who) && i <= j < |run| && forall x :: i <= x < j ==> Polls(run[x], who[x])
  }

  lemma PollMoves(s: State, t: nat, s': State)
    requires Step(s, t, s') && Polls(s, t)
    ensures var c := s.kids[t];
      c.finishing && Polling(c.pc) && Nothing(s, t, Place(c.pc))
      && s' == s.(kids := s.kids[t := c.(pc := PollAt((Place(c.pc) + 1) % 3))])
  {
  }

  /** Only places in the polling loop change during a quiet stretch, and a child that takes c of
      its steps makes c consecutive tests. */
  ghost predicate KidSince(s: State, s': State, t: nat, c: nat)
    requires t < |s.kids| && t < |s'.kids|
  {
    var k := s.kids[t];
    s'.kids[t] == (if c == 0 then k else k.(pc := PollAt((Place(k.pc) + c) % 3)))
    && (c > 0 ==> k.finishing && Polling(k.pc))
    && forall m :: 0 <= m < c ==> TestFails(s, t, m)
  }

  /** The m-th test of child t from where it is in s. */
  predicate TestFails(s: State, t: nat, m: nat)
    requires t < |s.kids|
  {
    Nothing(s, t, (Place(s.kids[t].pc) + m) % 3)
  }

  ghost predicate SameMaze(s: State, s': State) {
    s'.f == s.f && s'.adj == s.adj && s'.seeStart == s.seeStart && s'.seeEnd == s.seeEnd && s'.done == s.done
    && |s'.kids| == |s.kids|
  }

  lemma PollKid(s: State, s': State, u: nat, s'': State, t: nat, c: nat)
    requires t < |s.kids| && SameMaze(s, s') && KidSince(s, s', t, c) && Step(s', u, s'') && Polls(s', u)
    ensures SameMaze(s, s'') && KidSince(s, s'', t, if u == t then c + 1 else c)
  {
    PollMoves(s', u, s'');
    hide Step, Polls;
    if u == t {
      var p := Place(s.kids[t].pc);
      assert Place(s'.kids[t].pc) == (p + c) % 3;
      assert Nothing(s', t, (p + c) % 3) == Nothing(s, t, (p + c) % 3);
      assert TestFails(s, t, c);
      assert ((p + c) % 3 + 1) % 3 == (p + (c + 1)) % 3;
    }
  }

  lemma {:induction false} QuietKid(run: seq<State>, who: seq<nat>, i: nat, j: nat, t: nat)
    requires QuietStretch(run, who, i, j) && t < |run[i].kids|
    ensures SameMaze(run[i], run[j]) && KidSince(run[i], run[j], t, OwnSteps(who, t, i, j))
    decreases j
  {
    hide Init, Step, Polls, KidSince;
    if i < j {
      QuietKid(run, who, i, j - 1, t);
      assert Step(run[j - 1], who[j - 1], run[j - 1 + 1]) && Polls(run[j - 1], who[j - 1]);
      PollKid(run[i], run[j - 1], who[j - 1], run[j], t, OwnSteps(who, t, i, j - 1));
    } else {
      NoStepsYet(run[i], t);
    }
  }

  lemma NoStepsYet(s: State, t: nat)
    requires t < |s.kids|
    ensures KidSince(s, s, t, 0)
  {
  }

  /** Three turns test everything: the child waits idly, and done is not set. */
  lemma ThreeTests(s: State, s': State, t: nat, c: nat)
    requires t < |s.kids| && SameMaze(s, s') && KidSince(s, s', t, c) && c >= 3 && SnapOk(s)
    ensures WaitsIdly(s', t) && !s'.done && !s'.kids[t].pc.Finished?
  {
    assert TestFails(s, t, 0) && TestFails(s, t, 1) && TestFails(s, t, 2);
    assert Snap(s.kids[t], SeesStart) ==> t in Seen(s, SeesStart);
    assert Snap(s.kids[t], SeesEnd) ==> t in Seen(s, SeesEnd);
  }

  // ----- every child that keeps getting turns ends

  /** All children have returned, or all wait for what cannot happen any more. */
  ghost predicate Ended(s: State) { AllFinished(s) || (AllWait(s) && !s.done) }

  lemma {:induction false} EndedStays(run: seq<State>, who: seq<nat>, i: nat, j: nat)
    requires IsRun(run, who) && i <= j < |run| && Ended(run[i])
    ensures Ended(run[j])
    decreases j
  {
    hide Init, Step, Ended;
    if i < j {
      EndedStays(run, who, i, j - 1);
      assert Step(run[j - 1], who[j - 1], run[j - 1 + 1]);
      EndedStep(run[j - 1], who[j - 1], run[j]);
    }
  }

  lemma EndedStep(s: State, t: nat, s': State)
    requires Ended(s) && Step(s, t, s')
    ensures Ended(s')
  {
    assert WaitsIdly(s, t);
    PollMoves(s, t, s');
    hide Step, Next;
    forall u | 0 <= u < |s'.kids| ensures WaitsIdly(s', u) { assert WaitsIdly(s, u); }
  }

  /** From i to j every child has had three turns, as far as it needed them. */
  ghost predicate GivesTurns(run: seq<State>, who: seq<nat>, i: nat, j: nat) {
    i <= j < |run| == |who| + 1
    && forall t :: 0 <= t < |run[j].kids| ==> run[j].kids[t].pc.Finished? || OwnSteps(who, t, i, j) >= 3
  }

  lemma QuietEnds(run: seq<State>, who: seq<nat>, i: nat, j: nat)
    requires QuietStretch(run, who, i, j) && GivesTurns(run, who, i, j)
    ensures Ended(run[j])
  {
    hide IsRun, ExploreInv, KidSince, WaitsIdly, SameMaze;
    RunProgress(run, who, i);
    RunFinished(run, who, j);
    assert SnapOk(run[i]);
    hide VisibilityInv, SnapOk;
    if t :| 0 <= t < |run[j].kids| && !run[j].kids[t].pc.Finished? {
      Tests(run, who, i, j, t);
      forall u | 0 <= u < |run[j].kids|
        ensures WaitsIdly(run[j], u)
      {
        assert !run[j].kids[u].pc.Finished?;
        Tests(run, who, i, j, u);
      }
    }
  }

  lemma Tests(run: seq<State>, who: seq<nat>, i: nat, j: nat, t: nat)
    requires QuietStretch(run, who, i, j) && GivesTurns(run, who, i, j) && SnapOk(run[i])
    requires t < |run[j].kids| && !run[j].kids[t].pc.Finished?
    ensures WaitsIdly(run[j], t) && !run[j].done
  {
    hide IsRun, KidSince, WaitsIdly, SnapOk;
    SameKids(run, who, i, j);
    QuietKid(run, who, i, j, t);
    ThreeTests(run[i], run[j], t, OwnSteps(who, t, i, j));
  }

  /** Consecutive stretches that each give every child its turns. */
  ghost predicate Rounds(run: seq<State>, who: seq<nat>, marks: seq<nat>) {
    marks != [] && marks[0] < |run|
    && forall r :: 0 <= r < |marks| - 1 ==> GivesTurns(run, who, marks[r], marks[r + 1])
  }

  lemma {:induction false} SameKids(run: seq<State>, who: seq<nat>, i: nat, j: nat)
    requires IsRun(run, who) && i <= j < |run|
    ensures |run[j].kids| == |run[i].kids|
    decreases j
  {
    hide Init, Next;
    if i < j {
      SameKids(run, who, i, j - 1);
      assert Step(run[j - 1], who[j - 1], run[j - 1 + 1]);
      NextForest(run[j - 1], who[j - 1]);
    }
  }

  lemma {:induction false} WorkAdds(run: seq<State>, who: seq<nat>, h: nat, i: nat, j: nat)
    requires h <= i <= j <= |who| < |run|
    ensures Work(run, who, h, j) == Work(run, who, h, i) + Work(run, who, i, j)
    decreases j
  {
    if i < j { WorkAdds(run, who, h, i, j - 1); }
  }

  lemma {:induction false} NoWorkIsQuiet(run: seq<State>, who: seq<nat>, i: nat, j: nat)
    requires IsRun(run, who) && i <= j < |run| && Work(run, who, i, j) == 0
    ensures QuietStretch(run, who, i, j)
    decreases j
  {
    hide Init, Step, Polls;
    if i < j { NoWorkIsQuiet(run, who, i, j - 1); }
  }

  /** Each round does some work, or finds that all have ended. */
  lemma {:induction false} RoundsWork(run: seq<State>, who: seq<nat>, marks: seq<nat>, r: nat)
    requires IsRun(run, who) && Rounds(run, who, marks) && r < |marks|
    ensures marks[0] <= marks[r] < |run|
    ensures Ended(run[marks[r]]) || Work(run, who, marks[0], marks[r]) >= r
  {
    hide IsRun, Ended, Work, QuietStretch;
    if r > 0 {
      RoundsWork(run, who, marks, r - 1);
      var i, j := marks[r - 1], marks[r - 1 + 1];
      assert GivesTurns(run, who, i, j);
      RunLength(run, who);
      if Ended(run[i]) {
        EndedStays(run, who, i, j);
      } else {
        WorkAdds(run, who, marks[0], i, j);
        if Work(run, who, i, j) == 0 {
          NoWorkIsQuiet(run, who, i, j);
          QuietEnds(run, who, i, j);
        }
      }
    }
  }

  lemma RunLength(run: seq<State>, who: seq<nat>)
    requires IsRun(run, who)
    ensures |run| == |who| + 1
  {
  }

  // ----- a route is a walk

  lemma WalksJoin(edges: set<Edge>, p: seq<Rowcol>, q: seq<Rowcol>, a: Rowcol, b: Rowcol, c: Rowcol)
    requires WalkFromTo(edges, p, a, b) && WalkFromTo(edges, q, b, c)
    ensures Reachable(edges, a, c)
  {
    var w := p + q[1..];
    forall i | 0 <= i < |w| - 1
      ensures (w[i], w[i + 1]) in edges
    {
      if i < |p| - 1 {
        assert (p[i], p[i + 1]) in edges;
      } else {
        assert (q[i - |p| + 1], q[i - |p| + 1 + 1]) in edges;
      }
    }
    assert WalkFromTo(edges, w, a, c);
  }

  /** Two threads that met have joined their starts. */
  lemma EncounterJoins(f: Forest, i: nat, j: nat, a: Rowcol, b: Rowcol)
    requires ForestOk(f) && i < |f.starts| && j < |f.starts| && a in f.visited && b in f.visited && (a, b) in f.edges
    requires a in f.tid && b in f.tid && f.tid[a] == i && f.tid[b] == j
    ensures Reachable(f.edges, f.starts[i], f.starts[j])
  {
    hide CellOk;
    assert SameTree(f, f.starts[i], a) && SameTree(f, b, f.starts[j]);
    TreePathSimple(f, f.starts[i], a);
    TreePathSimple(f, b, f.starts[j]);
    hide ForestOk, Walk;
    WalkAppend(f.edges, TreePath(f, f.starts[i], a), f.starts[i], a, b);
    WalksJoin(f.edges, TreePath(f, f.starts[i], a) + [b], TreePath(f, b, f.starts[j]), f.starts[i], b, f.starts[j]);
  }

  /** What FinishedRun says of the children's leavings. */
  ghost predicate LeftInOrder(s: State) {
    ForestOk(s.f) && |s.kids| == |s.f.starts|
    && forall i, j :: 0 <= i < |s.kids| && 0 <= j < |s.kids| ==>
       (i, j) in s.adj && EncounterOk(s.f, i, j, s.adj[(i, j)])
  }

  lemma LinkJoins(s: State, i: nat, j: nat)
    requires LeftInOrder(s) && i < |s.kids| && j < |s.kids| && (i, j) in MetLinks(s)
    ensures Reachable(s.f.edges, s.f.starts[i], s.f.starts[j])
  {
    assert EncounterOk(s.f, i, j, s.adj[(i, j)]) && EncounterOk(s.f, j, i, s.adj[(j, i)]);
    assert Symmetric(s.f.edges);
    hide ForestOk;
    if Met(s, i, j) {
      var e := s.adj[(i, j)];
      EncounterJoins(s.f, i, j, Mine(e), Theirs(e));
    } else {
      var e := s.adj[(j, i)];
      EncounterJoins(s.f, i, j, Theirs(e), Mine(e));
    }
  }

  lemma {:induction false} RouteJoins(s: State, r: seq<nat>, k: nat)
    requires LeftInOrder(s) && Route(MetLinks(s), |s.kids|, r) && k < |r|
    ensures r[k] < |s.kids| && Reachable(s.f.edges, s.f.starts[0], s.f.starts[r[k]])
  {
    hide MetLinks, ForestOk, EncounterOk, Walk;
    var edges, starts := s.f.edges, s.f.starts;
    if k == 0 {
      assert WalkFromTo(edges, [starts[0]], starts[0], starts[0]) by { OneCell(edges, starts[0]); }
    } else {
      RouteJoins(s, r, k - 1);
      assert (r[k - 1], r[k - 1 + 1]) in MetLinks(s);
      LinkJoins(s, r[k - 1], r[k]);
      var p :| WalkFromTo(edges, p, starts[0], starts[r[k - 1]]);
      var q :| WalkFromTo(edges, q, starts[r[k - 1]], starts[r[k]]);
      WalksJoin(edges, p, q, starts[0], starts[r[k - 1]], starts[r[k]]);
    }
  }

  lemma OneCell(edges: set<Edge>, c: Rowcol)
    ensures WalkFromTo(edges, [c], c, c)
  {
  }

  lemma FinishedIsReachable(run: seq<State>, who: seq<nat>, k: nat)
    requires IsRun(run, who) && k < |run| && AllFinished(run[k])
    ensures |run[k].f.starts| >= 3 && Reachable(run[k].f.edges, run[k].f.starts[0], run[k].f.starts[1])
  {
    FinishedRun(run, who, k);
    hide MetLinks, ForestOk, EncounterOk, IsRun;
    var r :| Route(MetLinks(run[k]), Nthreads(run[k]), r);
    RouteJoins(run[k], r, |r| - 1);
  }

  /** The parallel solver is live, and right in both directions: on every schedule that gives
      each child its turns in so many rounds, all children have returned if and only if the maze
      joins its start to its end; and if it does not, all wait with done not set. */
  lemma SolverEnds(run: seq<State>, who: seq<nat>, marks: seq<nat>)
    requires IsRun(run, who) && Rounds(run, who, marks)
    requires |marks| > MostWork(|run[0].f.tid|, |run[0].kids|) + 1
    ensures run[|who|].f.edges == run[0].f.edges && run[|who|].f.starts == run[0].f.starts && |run[0].f.starts| >= 3
    ensures Reachable(run[0].f.edges, run[0].f.starts[0], run[0].f.starts[1]) ==> AllFinished(run[|who|])
    ensures !Reachable(run[0].f.edges, run[0].f.starts[0], run[0].f.starts[1]) ==>
      AllWait(run[|who|]) && !run[|who|].done
  {
    var last := |marks| - 1;
    RoundsWork(run, who, marks, last);
    hide AllWait, Ended, MetLinks, Rounds, Work, MostWork;
    RunLength(run, who);
    if !Ended(run[marks[last]]) {
      WorkAdds(run, who, 0, marks[0], marks[last]);
      WorkAdds(run, who, 0, marks[last], |who|);
      WorkIsBounded(run, who);
      assert false;
    }
    EndedStays(run, who, marks[last], |who|);
    EndedMeans(run, who);
  }

  lemma EndedMeans(run: seq<State>, who: seq<nat>)
    requires IsRun(run, who) && Ended(run[|who|])
    ensures run[|who|].f.edges == run[0].f.edges && run[|who|].f.starts == run[0].f.starts && |run[0].f.starts| >= 3
    ensures Reachable(run[0].f.edges, run[0].f.starts[0], run[0].f.starts[1]) ==> AllFinished(run[|who|])
    ensures !Reachable(run[0].f.edges, run[0].f.starts[0], run[0].f.starts[1]) ==>
      AllWait(run[|who|]) && !run[|who|].done
  {
    RunKeepsOwners(run, who, 0, |who|);
    hide AllWait, MetLinks, Reachable;
    if AllFinished(run[|who|]) {
      FinishedIsReachable(run, who, |who|);
    } else {
      WaitingIsJustified(run, who, |who|);
    }
  }
}
