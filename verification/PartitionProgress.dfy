/** What the children of SMPdesign/maze/maze_part.c leave undone while they wait: nothing.  Once
    every child has stopped exploring and passed on what it can see, start and end are joined
    by recorded meetings exactly if done is set, and only if the maze joins them.
 */
module PartitionProgress {
  import opened Common
  import opened MazeGrid
  import opened PartitionForest
  import opened PartitionRoute
  import opened PartitionGrowth

  /** The two visibility flags of every thread, which are propagated in the same way. */
  datatype Flag = SeesStart | SeesEnd

  function Seen(s: State, flag: Flag): set<nat> { if flag.SeesStart? then s.seeStart else s.seeEnd }

  function Snap(c: Child, flag: Flag): bool { if flag.SeesStart? then c.snapStart else c.snapEnd }

  /** The last step of maze_solve_propagate that concerns the flag: its store. */
  function StoreAt(flag: Flag): nat { if flag.SeesStart? then 1 else 5 }

  // ----- what will still be propagated

  /** Thread t, where it is now, has yet to test whether a has the flag, and then give it to b. */
  predicate Covers(t: nat, pc: Pc, a: nat, b: nat, flag: Flag) {
    match pc
    case Record(k, _, _, their) => k >= 1 && ((t == a && their == b) || (their == a && t == b))
    case Propagate(x, y, k, ret) =>
      (x == a && y == b && k <= StoreAt(flag)) || (ret.Mirror? && ret.their == a && t == b)
        || (ret.Adj? && t == a && ret.i < b)
    case CheckEnd(need) => t == a && need
    case CheckAdj(i) => t == a && i <= b
    case CheckTheirs(i) => t == a && i <= b
    case _ => false
  }

  ghost predicate Covered(s: State, a: nat, b: nat, flag: Flag) {
    exists t :: 0 <= t < |s.kids| && Covers(t, s.kids[t].pc, a, b, flag)
  }

  /** a has the flag and has met b, which lacks it. */
  ghost predicate Owes(s: State, a: nat, b: nat, flag: Flag) {
    a < |s.kids| && b < |s.kids| && a != b && (a, b) in MetLinks(s) && a in Seen(s, flag) && b !in Seen(s, flag)
  }

  /** Such a flag is about to be passed on: a has not noticed it yet, or somebody is at it. */
  ghost predicate PassedOn(s: State, a: nat, b: nat, flag: Flag) {
    Owes(s, a, b, flag) ==> !Snap(s.kids[a], flag) || Covered(s, a, b, flag)
  }

  /** A thread notices only flags it has. */
  ghost predicate SnapOk(s: State) {
    forall t, flag :: 0 <= t < |s.kids| && Snap(s.kids[t], flag) ==> t in Seen(s, flag)
  }

  /** A check reads the other thread's entry only after finding its own empty. */
  ghost predicate TheirsOk(s: State) {
    forall t :: 0 <= t < |s.kids| && s.kids[t].pc.CheckTheirs? ==> !Met(s, t, s.kids[t].pc.i)
  }

  /** A thread that sees both ends is about to be found out. */
  ghost predicate BothSeen(s: State, b: nat) {
    b in s.seeStart && b in s.seeEnd && !s.done ==>
      exists t :: 0 <= t < |s.kids| && s.kids[t].pc.Propagate? && s.kids[t].pc.b == b && s.kids[t].pc.k in {2, 3, 6, 7}
  }

  ghost predicate VisibilityInv(s: State) {
    SnapOk(s) && TheirsOk(s) && 0 in s.seeStart && 1 in s.seeEnd
    && (forall a, b, flag :: PassedOn(s, a, b, flag)) && forall b: nat :: BothSeen(s, b)
  }

  // ----- one step

  lemma NextSeen(s: State, t: nat, flag: Flag)
    requires t < |s.kids|
    ensures Seen(Next(s, t), flag) == Seen(s, flag) + if s.kids[t].pc.Propagate?
      && s.kids[t].pc.k == StoreAt(flag) then {s.kids[t].pc.b} else {}
  {
  }

  /** Propagating: the flag is passed on, or there was none to pass on. */
  lemma PropagateCovers(s: State, t: nat, a: nat, b: nat, flag: Flag)
    requires t < |s.kids| && s.kids[t].pc.Propagate? && Covers(t, s.kids[t].pc, a, b, flag)
    ensures var pc := s.kids[t].pc;
      Covers(t, PropagateNext(s.seeStart, s.seeEnd, t, pc.a, pc.b, pc.k, pc.ret), a, b, flag)
      || a !in Seen(s, flag) || b in Seen(Next(s, t), flag)
  {
    NextSeen(s, t, flag);
    hide Next;
  }

  lemma CheckCovers(s: State, t: nat, c: Child, a: nat, b: nat, flag: Flag)
    requires Checking(c.pc) && Covers(t, c.pc, a, b, flag) && b < |s.kids| && a != b && (a, b) in MetLinks(s)
    requires c.pc.CheckTheirs? ==> !Met(s, t, c.pc.i)
    ensures Covers(t, CheckNext(s, t, c).pc, a, b, flag)
  {
  }

  lemma RecordCovers(s: State, t: nat, c: Child, a: nat, b: nat, flag: Flag)
    requires c.pc.Record? && Covers(t, c.pc, a, b, flag)
    ensures Covers(t, TryNext(s, t, c).pc, a, b, flag)
  {
  }

  /** Who was about to pass the flag on still is, unless it has done so or there was nothing. */
  lemma StepCovers(s: State, t: nat, u: nat, a: nat, b: nat, flag: Flag)
    requires t < |s.kids| && u < |s.kids| && TheirsOk(s)
    requires Covers(u, s.kids[u].pc, a, b, flag) && b < |s.kids| && a != b && (a, b) in MetLinks(s)
    ensures u < |Next(s, t).kids|
    ensures Covers(u, Next(s, t).kids[u].pc, a, b, flag) || a !in Seen(s, flag) || b in Seen(Next(s, t), flag)
  {
    hide Next, Covers, TryNext, CheckNext, PropagateNext, MetLinks, Seen;
    NextForest(s, t);
    NextKidIs(s, t);
    if u == t {
      var c := s.kids[t];
      if c.pc.Propagate? {
        PropagateCovers(s, t, a, b, flag);
      } else if Checking(c.pc) {
        CheckCovers(s, t, c, a, b, flag);
      } else {
        assert c.pc.Record? by { OnlyThese(t, c.pc, a, b, flag); }
        RecordCovers(s, t, c, a, b, flag);
      }
    }
  }

  lemma OnlyThese(t: nat, pc: Pc, a: nat, b: nat, flag: Flag)
    requires Covers(t, pc, a, b, flag)
    ensures pc.Record? || pc.Propagate? || Checking(pc)
  {
  }

  /** Noticing a flag starts a round of propagation. */
  lemma StepSnap(s: State, t: nat, a: nat, b: nat, flag: Flag)
    requires t < |s.kids| && a < |s.kids| && !Snap(s.kids[a], flag)
    ensures a < |Next(s, t).kids|
    ensures !Snap(Next(s, t).kids[a], flag) || Covers(a, Next(s, t).kids[a].pc, a, b, flag)
  {
    hide Next, PropagateNext;
    NextForest(s, t);
    NextKidIs(s, t);
    TrySnap(s, t, s.kids[t], flag);
    hide TryNext;
  }

  lemma TrySnap(s: State, t: nat, c: Child, flag: Flag)
    ensures Snap(TryNext(s, t, c), flag) == Snap(c, flag)
  {
  }

  /** Every new meeting is in the hands of the thread that stores it. */
  lemma NewMeeting(s: State, t: nat, a: nat, b: nat, flag: Flag)
    requires t < |s.kids| && (a, b) in MetLinks(Next(s, t)) && (a, b) !in MetLinks(s)
    ensures |Next(s, t).kids| == |s.kids| && Covers(t, Next(s, t).kids[t].pc, a, b, flag)
  {
    hide Next, CheckNext, PropagateNext;
    NextForest(s, t);
    NextKidIs(s, t);
    var c := s.kids[t];
    assert RecordEntry(s.adj, t, c) != s.adj;
    assert c.pc.Record?;
  }

  lemma NextSnap(s: State, t: nat, u: nat, flag: Flag)
    requires t < |s.kids| && u < |s.kids|
    ensures u < |Next(s, t).kids|
    ensures Snap(Next(s, t).kids[u], flag) ==>
      Snap(s.kids[u], flag) || (u == t && t in Seen(s, flag) && Checking(s.kids[t].pc))
  {
    hide Next, PropagateNext;
    NextForest(s, t);
    NextKidIs(s, t);
    TrySnap(s, t, s.kids[t], flag);
    hide TryNext;
  }

  lemma StepPassedOn(s: State, t: nat, a: nat, b: nat, flag: Flag)
    requires t < |s.kids| && SnapOk(s) && TheirsOk(s) && PassedOn(s, a, b, flag)
    ensures PassedOn(Next(s, t), a, b, flag)
  {
    hide Next, Seen, Snap, Covers, MetLinks, Checking, TheirsOk;
    var s' := Next(s, t);
    NextForest(s, t);
    NextSeen(s, t, flag);
    if Owes(s', a, b, flag) {
      if (a, b) !in MetLinks(s) {
        NewMeeting(s, t, a, b, flag);
      } else if a !in Seen(s, flag) {
        NextSnap(s, t, a, flag);
        assert !Checking(s.kids[t].pc) by { NotBoth(s.kids[t].pc); }
      } else if !Snap(s.kids[a], flag) {
        StepSnap(s, t, a, b, flag);
      } else {
        var u :| 0 <= u < |s.kids| && Covers(u, s.kids[u].pc, a, b, flag);
        StepCovers(s, t, u, a, b, flag);
      }
    }
  }

  lemma NotBoth(pc: Pc)
    ensures pc.Propagate? ==> !Checking(pc)
  {
  }

  lemma StepSnapOk(s: State, t: nat)
    requires t < |s.kids| && SnapOk(s)
    ensures SnapOk(Next(s, t))
  {
    hide Next, Seen, Snap;
    NextForest(s, t);
    forall u, flag | 0 <= u < |s.kids| && Snap(Next(s, t).kids[u], flag)
      ensures u in Seen(Next(s, t), flag)
    {
      NextSnap(s, t, u, flag);
      NextSeen(s, t, flag);
    }
  }

  lemma StepTheirsOk(s: State, t: nat)
    requires t < |s.kids| && TheirsOk(s)
    ensures TheirsOk(Next(s, t))
  {
    hide Next, NextKid, RecordEntry, SetField, Met;
    NextForest(s, t);
    NextKidIs(s, t);
    OwnTheirs(s, t, s.kids[t]);
    forall u | 0 <= u < |s.kids| && Next(s, t).kids[u].pc.CheckTheirs?
      ensures !Met(Next(s, t), u, Next(s, t).kids[u].pc.i)
    {
      SameMeetings(s, t, u, Next(s, t).kids[u].pc.i);
    }
  }

  /** A step of t changes no thread's meetings but t's, and those only while recording. */
  lemma SameMeetings(s: State, t: nat, u: nat, i: nat)
    requires t < |s.kids| && (u != t || !s.kids[t].pc.Record?)
    ensures Met(Next(s, t), u, i) == Met(s, u, i)
  {
    hide Next, SetField;
    NextForest(s, t);
  }

  lemma OwnTheirs(s: State, t: nat, c: Child)
    ensures var pc := NextKid(s, t, c).pc; pc.CheckTheirs? ==> !c.pc.Record? && !Met(s, t, pc.i)
  {
    hide TryNext, Met;
    if !c.pc.Propagate? && !Checking(c.pc) { TryTheirs(s, t, c); }
  }

  lemma TryTheirs(s: State, t: nat, c: Child)
    requires !Checking(c.pc)
    ensures !TryNext(s, t, c).pc.CheckTheirs?
  {
    hide Exhausted, DistOf, TidOf, Open;
    ExhaustedNot(s.done, c);
    match c.pc
    case Try(d) =>
    case Cas(d, to) =>
    case Found(to) =>
    case LoadTid(d, to) =>
    case Record(k, d, to, their) =>
    case _ =>
  }

  lemma ExhaustedNot(done: bool, c: Child)
    ensures !Exhausted(done, c).pc.CheckTheirs?
  {
  }

  lemma StepBothSeen(s: State, t: nat, b: nat)
    requires t < |s.kids| && BothSeen(s, b)
    ensures BothSeen(Next(s, t), b)
  {
    var s' := Next(s, t);
    NextForest(s, t);
    NextKidIs(s, t);
    hide TryNext, CheckNext;
    if b in s'.seeStart && b in s'.seeEnd && !s'.done {
      var pc := s.kids[t].pc;
      if b in s.seeStart && b in s.seeEnd {
        var u :| 0 <= u < |s.kids| && s.kids[u].pc.Propagate? && s.kids[u].pc.b == b && s.kids[u].pc.k in {2, 3, 6, 7};
        assert s'.kids[u].pc.Propagate? && s'.kids[u].pc.b == b && s'.kids[u].pc.k in {2, 3, 6, 7};
      } else {
        assert s'.kids[t].pc.Propagate? && s'.kids[t].pc.b == b && s'.kids[t].pc.k in {2, 6};
      }
    }
  }

  lemma StepVisibility(s: State, t: nat)
    requires t < |s.kids| && VisibilityInv(s)
    ensures VisibilityInv(Next(s, t))
  {
    hide Next, PassedOn, BothSeen, SnapOk, TheirsOk;
    StepSnapOk(s, t);
    StepTheirsOk(s, t);
    NextSeen(s, t, SeesStart);
    NextSeen(s, t, SeesEnd);
    forall a: nat, b: nat, flag ensures PassedOn(Next(s, t), a, b, flag) { StepPassedOn(s, t, a, b, flag); }
    forall b: nat ensures BothSeen(Next(s, t), b) { StepBothSeen(s, t, b); }
  }

  // ----- what has been explored

  /** If neighbour d of c is open to c, it has been visited, by thread t or by one t has met. */
  ghost predicate Dealt(f: Forest, links: Links, t: nat, c: Rowcol, d: nat)
    requires d < 4
  {
    var to := Neighbour(c, d);
    (c, to) in f.edges ==> to in f.visited && to in f.tid && (f.tid[to] == t || (t, f.tid[to]) in links)
  }

  ghost predicate DealtTo(f: Forest, links: Links, t: nat, c: Rowcol, d: nat) {
    forall e :: 0 <= e < d && e < 4 ==> Dealt(f, links, t, c, e)
  }

  ghost predicate Explored(f: Forest, links: Links, t: nat, c: Rowcol) { DealtTo(f, links, t, c, 4) }

  /** A scan has dealt with the neighbours before the one it is at. */
  ghost predicate ScanOk(f: Forest, links: Links, t: nat, cur: Rowcol, pc: Pc) {
    match pc
    case Try(d) => DealtTo(f, links, t, cur, d)
    case Cas(d, to) => d < 4 && DealtTo(f, links, t, cur, d) && to == Neighbour(cur, d)
    case LoadTid(d, to) =>
      d < 4 && DealtTo(f, links, t, cur, d) && to == Neighbour(cur, d) && to in f.visited && to in f.tid
    case Record(k, d, to, their) =>
      d < 4 && DealtTo(f, links, t, cur, d) && to == Neighbour(cur, d) && to in f.visited && to in f.tid
        && f.tid[to] == their
      && (k >= 1 ==> (t, their) in links)
    case Propagate(_, _, _, Mirror(d, _)) => DealtTo(f, links, t, cur, d + 1)
    case Propagate(_, _, _, Tried(d)) => DealtTo(f, links, t, cur, d + 1)
    case _ => true
  }

  predicate AtRest(pc: Pc) { Checking(pc) || pc.Finished? || (pc.Propagate? && pc.ret.Adj?) }

  /** The outer loop has explored the cells before list[v]; a child that has stopped exploring
      has explored its whole list, or done was set. */
  ghost predicate ListOk(f: Forest, links: Links, done: bool, t: nat, k: Child) {
    if k.finishing then
      AtRest(k.pc) && (done || forall i :: 0 <= i < |k.list| ==> Explored(f, links, t, k.list[i]))
    else
      k.v < |k.list| && (!k.inner ==> k.cur == k.list[k.v])
        && forall i :: 0 <= i < k.v ==> Explored(f, links, t, k.list[i])
  }

  ghost predicate KidExplores(f: Forest, links: Links, done: bool, t: nat, k: Child) {
    ScanOk(f, links, t, k.cur, k.pc) && ListOk(f, links, done, t, k)
  }

  /** Every visited cell is on its owner's list, or about to be. */
  ghost predicate OnList(s: State, c: Rowcol) {
    c in s.f.visited && c in s.f.tid ==>
      var t := s.f.tid[c];
      t < |s.kids| && (c in s.kids[t].list || s.kids[t].pc == SetDist(c) || s.kids[t].pc == Append(c))
  }

  ghost predicate ExploreInv(s: State) {
    (forall t :: 0 <= t < |s.kids| ==> KidExplores(s.f, MetLinks(s), s.done, t, s.kids[t]))
    && forall c :: OnList(s, c)
  }

  /** Visited cells keep their owners, and meetings stay recorded. */
  ghost predicate Keeps(f: Forest, links: Links, f': Forest, links': Links) {
    f'.edges == f.edges && f.visited <= f'.visited && links <= links'
    && forall c :: c in f.visited && c in f.tid ==> c in f'.tid && f'.tid[c] == f.tid[c]
  }

  lemma DealtStays(f: Forest, links: Links, f': Forest, links': Links, t: nat, c: Rowcol, d: nat)
    requires Keeps(f, links, f', links') && DealtTo(f, links, t, c, d)
    ensures DealtTo(f', links', t, c, d)
  {
    forall e | 0 <= e < d && e < 4 ensures Dealt(f', links', t, c, e) { assert Dealt(f, links, t, c, e); }
  }

  lemma ExploresStays(f: Forest, links: Links, f': Forest, links': Links, done: bool, done': bool, t: nat, k: Child)
    requires Keeps(f, links, f', links') && KidExplores(f, links, done, t, k) && (done ==> done')
    ensures KidExplores(f', links', done', t, k)
  {
    hide DealtTo;
    forall c, d | DealtTo(f, links, t, c, d)
      ensures DealtTo(f', links', t, c, d)
    {
      DealtStays(f, links, f', links', t, c, d);
    }
  }

  lemma StepKeeps(s: State, t: nat)
    requires Inv(s) && t < |s.kids|
    ensures Keeps(s.f, MetLinks(s), Next(s, t).f, MetLinks(Next(s, t))) && (s.done ==> Next(s, t).done)
  {
    hide Inv, Next, MetLinks, KidOk;
    StepKeepsOwners(s, t);
    StepMetLinks(s, t);
    NextForest(s, t);
    InvGivesKid(s, t);
    ShapeDomains(s);
    if s.done { DoneStays(s, t); }
    assert TryForest(s.f, t, s.kids[t]).edges == s.f.edges;
  }

  lemma DoneStays(s: State, t: nat)
    requires t < |s.kids| && s.done
    ensures Next(s, t).done
  {
  }

  // ----- one step of a scan

  lemma DealtMore(f: Forest, links: Links, t: nat, c: Rowcol, d: nat)
    requires DealtTo(f, links, t, c, d) && (d < 4 ==> Dealt(f, links, t, c, d))
    ensures DealtTo(f, links, t, c, d + 1)
  {
  }

  lemma DealtAll(f: Forest, links: Links, t: nat, c: Rowcol, d: nat)
    requires DealtTo(f, links, t, c, d) && d >= 4
    ensures Explored(f, links, t, c)
  {
  }

  lemma ExhaustedExplores(f: Forest, links: Links, done: bool, done': bool, t: nat, c: Child)
    requires !c.finishing && ListOk(f, links, done', t, c) && (!c.inner ==> Explored(f, links, t, c.cur))
    requires done ==> done'
    ensures KidExplores(f, links, done', t, Exhausted(done, c))
  {
    hide Explored;
  }

  lemma TryExplores(s: State, t: nat, c: Child, f': Forest, links': Links, done': bool)
    requires KidExplores(f', links', done', t, c) && (c.pc.Start? || c.pc.Try? || c.pc.Cas?)
    requires f'.edges == s.f.edges && s.f.visited <= f'.visited && (s.done ==> done')
    requires forall x :: x in s.f.visited ==> x in f'.tid
    ensures KidExplores(f', links', done', t, TryNext(s, t, c))
  {
    hide Explored, Exhausted;
    assert !AtRest(c.pc);
    match c.pc
    case Start =>
    case Try(d) =>
      if d >= 4 {
        DealtAll(f', links', t, c.cur, d);
        ExhaustedExplores(f', links', s.done, done', t, c);
      } else {
        if !Open(s, c.cur, Neighbour(c.cur, d)) { DealtMore(f', links', t, c.cur, d); }
        hide DealtTo;
      }
    case Cas(d, to) =>
  }

  lemma RecordExplores(s: State, t: nat, c: Child, f': Forest, links': Links, done': bool)
    requires KidExplores(f', links', done', t, c) && (c.pc.LoadTid? || c.pc.Record?)
    requires c.pc.LoadTid? ==> TidOf(s.f, c.pc.to) == TidOf(f', c.pc.to)
    requires c.pc.Record? ==> (t, c.pc.their) in links'
    ensures KidExplores(f', links', done', t, TryNext(s, t, c))
  {
    hide Explored;
    assert !AtRest(c.pc);
    var d := c.pc.d;
    if Dealt(f', links', t, c.cur, d) { DealtMore(f', links', t, c.cur, d); }
    hide DealtTo;
  }

  lemma ListGrows(f: Forest, links: Links, done: bool, t: nat, c: Child, to: Rowcol)
    requires ListOk(f, links, done, t, c) && !c.finishing && !AtRest(c.pc)
    ensures ListOk(f, links, done, t, c.(pc := Found(to), list := c.list + [to]))
  {
    hide Explored;
  }

  lemma FoundExplores(s: State, t: nat, c: Child, f': Forest, links': Links, done': bool)
    requires KidExplores(f', links', done', t, c) && (c.pc.SetDist? || c.pc.Append? || c.pc.Found? || c.pc.Finished?)
    requires s.done ==> done'
    ensures KidExplores(f', links', done', t, TryNext(s, t, c))
  {
    hide Explored, DealtTo;
    if c.pc.Append? { ListGrows(f', links', done', t, c, c.pc.to); }
  }

  lemma PassExplores(s: State, t: nat, c: Child, f': Forest, links': Links, done': bool)
    requires KidExplores(f', links', done', t, c) && c.pc.Propagate?
    ensures KidExplores(f', links', done', t,
      c.(pc := PropagateNext(s.seeStart, s.seeEnd, t, c.pc.a, c.pc.b, c.pc.k, c.pc.ret)))
  {
    hide Explored, DealtTo;
  }

  lemma CheckExplores(s: State, t: nat, c: Child, f': Forest, links': Links, done': bool)
    requires KidExplores(f', links', done', t, c) && Checking(c.pc) && (s.done ==> done')
    ensures KidExplores(f', links', done', t, CheckNext(s, t, c))
  {
    hide Explored, DealtTo;
  }

  lemma OwnExplores(s: State, t: nat)
    requires Inv(s) && t < |s.kids| && KidExplores(s.f, MetLinks(s), s.done, t, s.kids[t])
    ensures var s' := Next(s, t); t < |s'.kids| && KidExplores(s'.f, MetLinks(s'), s'.done, t, s'.kids[t])
  {
    hide Inv, Next, MetLinks, KidExplores, TryNext, CheckNext, PropagateNext, Shape, Keeps, KidOk;
    var s', c := Next(s, t), s.kids[t];
    NextForest(s, t);
    NextKidIs(s, t);
    StepKeeps(s, t);
    StepMetLinks(s, t);
    InvGivesKid(s, t);
    ExploresStays(s.f, MetLinks(s), s'.f, MetLinks(s'), s.done, s'.done, t, c);
    KeepsMeaning(s, MetLinks(s), s'.f, MetLinks(s'));
    if c.pc.Propagate? {
      PassExplores(s, t, c, s'.f, MetLinks(s'), s'.done);
    } else if Checking(c.pc) {
      CheckExplores(s, t, c, s'.f, MetLinks(s'), s'.done);
    } else if c.pc.Start? || c.pc.Try? || c.pc.Cas? {
      TryExplores(s, t, c, s'.f, MetLinks(s'), s'.done);
    } else if c.pc.LoadTid? || c.pc.Record? {
      if c.pc.LoadTid? { LoadedVisited(s.f, t, c); }
      RecordExplores(s, t, c, s'.f, MetLinks(s'), s'.done);
    } else {
      FoundExplores(s, t, c, s'.f, MetLinks(s'), s'.done);
    }
  }

  lemma KeepsMeaning(s: State, links: Links, f': Forest, links': Links)
    requires Shape(s) && Keeps(s.f, links, f', links')
    ensures f'.edges == s.f.edges && s.f.visited <= f'.visited
    ensures forall x :: x in s.f.visited ==> x in f'.tid && TidOf(f', x) == TidOf(s.f, x)
  {
  }

  lemma LoadedVisited(f: Forest, t: nat, c: Child)
    requires KidOk(f, t, c) && c.pc.LoadTid?
    ensures c.pc.to in f.visited
  {
  }

  lemma ExhaustedList(done: bool, c: Child)
    ensures Exhausted(done, c).list == c.list
  {
  }

  lemma ListKept(s: State, t: nat, c: Child)
    ensures c.list <= NextKid(s, t, c).list
    ensures c.pc.SetDist? ==> NextKid(s, t, c).pc == Append(c.pc.to)
    ensures c.pc.Append? ==> c.pc.to in NextKid(s, t, c).list
    ensures c.pc.Cas? && c.pc.to !in s.f.visited ==> NextKid(s, t, c).pc == SetDist(c.pc.to)
  {
    hide PropagateNext, CheckNext, TryNext;
    if Checking(c.pc) {
      CheckList(s, t, c);
    } else if !c.pc.Propagate? {
      TryList(s, t, c);
    }
  }

  lemma CheckList(s: State, t: nat, c: Child)
    ensures CheckNext(s, t, c).list == c.list
  {
  }

  lemma TryList(s: State, t: nat, c: Child)
    ensures c.list <= TryNext(s, t, c).list
    ensures c.pc.SetDist? ==> TryNext(s, t, c).pc == Append(c.pc.to)
    ensures c.pc.Append? ==> c.pc.to in TryNext(s, t, c).list
    ensures c.pc.Cas? && c.pc.to !in s.f.visited ==> TryNext(s, t, c).pc == SetDist(c.pc.to)
  {
    hide DistOf, TidOf, Open, Exhausted;
    assert Exhausted(s.done, c).list == c.list by { ExhaustedList(s.done, c); }
    if c.pc.Append? { assert (c.list + [c.pc.to])[|c.list|] == c.pc.to; }
  }

  lemma StepOnList(s: State, t: nat, c: Rowcol)
    requires t < |s.kids| && OnList(s, c) && s.f.visited <= s.f.tid.Keys
    ensures OnList(Next(s, t), c)
  {
    hide Next, NextKid;
    NextForest(s, t);
    NextKidIs(s, t);
    ListKept(s, t, s.kids[t]);
  }

  lemma StepExplores(s: State, t: nat)
    requires Inv(s) && t < |s.kids| && ExploreInv(s)
    ensures ExploreInv(Next(s, t))
  {
    hide Inv, Next, MetLinks, KidExplores, OnList, Keeps, KidOk;
    var s' := Next(s, t);
    NextForest(s, t);
    InvGivesKid(s, t);
    StepKeeps(s, t);
    forall u | 0 <= u < |s'.kids|
      ensures KidExplores(s'.f, MetLinks(s'), s'.done, u, s'.kids[u])
    {
      if u == t {
        OwnExplores(s, t);
      } else {
        ExploresStays(s.f, MetLinks(s), s'.f, MetLinks(s'), s.done, s'.done, u, s.kids[u]);
      }
    }
    forall c ensures OnList(s', c) { StepOnList(s, t, c); }
  }

  // ----- runs

  lemma InitProgress(s: State)
    requires Init(s)
    ensures VisibilityInv(s) && ExploreInv(s)
  {
    forall t, flag | 0 <= t < |s.kids| && Snap(s.kids[t], flag) ensures t in Seen(s, flag) {}
    assert MetLinks(s) == {};
    forall t | 0 <= t < |s.kids| ensures KidExplores(s.f, MetLinks(s), s.done, t, s.kids[t]) {}
    forall c ensures OnList(s, c) {
      if c in s.f.visited && c in s.f.tid {
        var t :| 0 <= t < |s.f.starts| && s.f.starts[t] == c;
        assert s.f.tid[c] == t && s.kids[t].list[0] == c;
      }
    }
  }

  lemma {:induction false} RunProgress(run: seq<State>, who: seq<nat>, k: nat)
    requires IsRun(run, who) && k < |run|
    ensures VisibilityInv(run[k]) && ExploreInv(run[k])
  {
    hide Init, Next, VisibilityInv, ExploreInv, Inv;
    if k == 0 {
      InitProgress(run[0]);
    } else {
      RunProgress(run, who, k - 1);
      RunInv(run, who, k - 1);
      assert Step(run[k - 1], who[k - 1], run[k - 1 + 1]);
      StepVisibility(run[k - 1], who[k - 1]);
      StepExplores(run[k - 1], who[k - 1]);
    }
  }

  // ----- what holds when every child waits

  /** The child is in its final wait, has noticed every flag it has, and is propagating nothing. */
  ghost predicate WaitsIdly(s: State, t: nat)
    requires t < |s.kids|
  {
    var k := s.kids[t];
    k.finishing && (k.pc.CheckStart? || k.pc == CheckEnd(false) || k.pc.CheckDone?)
    && k.snapStart == (t in s.seeStart) && k.snapEnd == (t in s.seeEnd)
  }

  ghost predicate AllWait(s: State) { forall t :: 0 <= t < |s.kids| ==> WaitsIdly(s, t) }

  lemma NothingOwed(s: State, a: nat, b: nat, flag: Flag)
    requires VisibilityInv(s) && AllWait(s)
    ensures !Owes(s, a, b, flag)
  {
    hide MetLinks;
    assert PassedOn(s, a, b, flag);
    if Owes(s, a, b, flag) {
      assert WaitsIdly(s, a);
      forall t | 0 <= t < |s.kids| ensures !Covers(t, s.kids[t].pc, a, b, flag) { assert WaitsIdly(s, t); }
    }
  }

  /** A flag reaches the far end of every walk over recorded meetings. */
  lemma {:induction false} FlagTravels(s: State, w: seq<nat>, a: nat, b: nat, flag: Flag)
    requires Shape(s) && VisibilityInv(s) && AllWait(s) && WalkBetween(MetLinks(s), w, a, b) && a in Seen(s, flag)
    ensures b in Seen(s, flag)
    decreases |w|
  {
    hide MetLinks, VisibilityInv, AllWait, Seen;
    if |w| > 1 {
      var v, x := w[..|w| - 1], w[|w| - 2];
      forall i | 0 <= i < |v| - 1 ensures (v[i], v[i + 1]) in MetLinks(s) { assert (w[i], w[i + 1]) in MetLinks(s); }
      FlagTravels(s, v, a, x, flag);
      assert (w[|w| - 2], w[|w| - 2 + 1]) in MetLinks(s);
      InTable(s, x, b);
      NothingOwed(s, x, b, flag);
    }
  }

  lemma InTable(s: State, a: nat, b: nat)
    requires Shape(s) && (a, b) in MetLinks(s)
    ensures a < |s.kids| && b < |s.kids|
  {
  }

  lemma NobodySeesBoth(s: State, b: nat)
    requires VisibilityInv(s) && AllWait(s) && !s.done
    ensures !(b in s.seeStart && b in s.seeEnd)
  {
    assert BothSeen(s, b);
    forall t | 0 <= t < |s.kids| ensures !s.kids[t].pc.Propagate? { assert WaitsIdly(s, t); }
  }

  /** Propagation is complete: waiting children see the start, or the end, exactly if recorded
      meetings join them to its thread. */
  lemma VisibilityIsComplete(run: seq<State>, who: seq<nat>, k: nat, t: nat)
    requires IsRun(run, who) && k < |run| && AllWait(run[k])
    ensures t in run[k].seeStart <==> Joined(MetLinks(run[k]), 0, t)
    ensures t in run[k].seeEnd <==> Joined(MetLinks(run[k]), 1, t)
  {
    var s := run[k];
    RunInv(run, who, k);
    RunProgress(run, who, k);
    hide MetLinks, AllWait;
    assert FlagsOk(MetLinks(s), s.seeStart, s.seeEnd, s.done);
    if w :| WalkBetween(MetLinks(s), w, 0, t) { FlagTravels(s, w, 0, t, SeesStart); }
    if w :| WalkBetween(MetLinks(s), w, 1, t) { FlagTravels(s, w, 1, t, SeesEnd); }
  }

  /** Exploration is complete: unless done was set, every open neighbour of a visited cell has
      been visited, by the same thread or by one its owner has met. */
  lemma NothingUnexplored(s: State, c: Rowcol, to: Rowcol)
    requires Inv(s) && ExploreInv(s) && AllWait(s) && !s.done && c in s.f.visited && (c, to) in s.f.edges
    ensures c in s.f.tid && to in s.f.visited && to in s.f.tid
    ensures s.f.tid[c] == s.f.tid[to] || (s.f.tid[c], s.f.tid[to]) in MetLinks(s)
  {
    hide MetLinks, KidOk, CellOk;
    assert OnList(s, c);
    var t := s.f.tid[c];
    assert WaitsIdly(s, t);
    assert KidExplores(s.f, MetLinks(s), s.done, t, s.kids[t]);
    var i :| 0 <= i < |s.kids[t].list| && s.kids[t].list[i] == c;
    assert Explored(s.f, MetLinks(s), t, s.kids[t].list[i]);
    NeighboursAreAll(c, to);
    assert Dealt(s.f, MetLinks(s), t, c, 0) && Dealt(s.f, MetLinks(s), t, c, 1);
    assert Dealt(s.f, MetLinks(s), t, c, 2) && Dealt(s.f, MetLinks(s), t, c, 3);
  }

  /** So a walk through the maze leads only through threads that are joined. */
  lemma {:induction false} WalkIsJoined(s: State, p: seq<Rowcol>, a: Rowcol, b: Rowcol)
    requires Inv(s) && ExploreInv(s) && AllWait(s) && !s.done
    requires WalkFromTo(s.f.edges, p, a, b) && a in s.f.visited
    ensures a in s.f.tid && b in s.f.visited && b in s.f.tid && Joined(MetLinks(s), s.f.tid[a], s.f.tid[b])
    decreases |p|
  {
    hide MetLinks, Inv, ExploreInv, AllWait;
    assert a in s.f.tid by { VisitedInTable(s, a); }
    if |p| > 1 {
      var q, x := p[..|p| - 1], p[|p| - 2];
      assert WalkFromTo(s.f.edges, q, a, x) by {
        forall i | 0 <= i < |q| - 1 ensures (q[i], q[i + 1]) in s.f.edges { assert (p[i], p[i + 1]) in s.f.edges; }
      }
      WalkIsJoined(s, q, a, x);
      assert (p[|p| - 2], p[|p| - 2 + 1]) in s.f.edges;
      NothingUnexplored(s, x, b);
      if s.f.tid[x] != s.f.tid[b] { JoinedStep(MetLinks(s), s.f.tid[a], s.f.tid[x], s.f.tid[b]); }
    } else {
      JoinedSelf(MetLinks(s), s.f.tid[a]);
    }
  }

  lemma VisitedInTable(s: State, a: Rowcol)
    requires Inv(s) && a in s.f.visited
    ensures a in s.f.tid
  {
    hide KidOk, EntryOk, FlagsOk, PassingOk, MetLinks, Settled;
  }

  lemma RouteIsJoined(links: Links, n: nat)
    ensures HasRoute(links, n) ==> Joined(links, 0, 1)
  {
    if r :| Route(links, n, r) { assert WalkBetween(links, r, 0, 1); }
  }

  /** The children never wait in vain: if all are in their final wait with nothing left to pass
      on, done is set exactly if recorded meetings join the start's thread to the end's, and if
      it is not set, no walk through the maze leads from start to end. */
  lemma WaitingIsJustified(run: seq<State>, who: seq<nat>, k: nat)
    requires IsRun(run, who) && k < |run| && AllWait(run[k])
    ensures run[k].done <==> HasRoute(MetLinks(run[k]), Nthreads(run[k]))
    ensures Nthreads(run[k]) == |run[k].f.starts| >= 3
    ensures !run[k].done ==> !Reachable(run[k].f.edges, run[k].f.starts[0], run[k].f.starts[1])
  {
    var s := run[k];
    RunInv(run, who, k);
    RunProgress(run, who, k);
    hide MetLinks, AllWait;
    VisibilityIsComplete(run, who, k, 1);
    if s.done {
      DoneMeansRoute(run, who, k);
    } else {
      NobodySeesBoth(s, 1);
      RouteIsJoined(MetLinks(s), Nthreads(s));
      if p :| WalkFromTo(s.f.edges, p, s.f.starts[0], s.f.starts[1]) {
        WalkIsJoined(s, p, s.f.starts[0], s.f.starts[1]);
      }
    }
  }
}
