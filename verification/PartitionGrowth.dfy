/** The child threads of SMPdesign/maze/maze_part.c as a state machine, for three or more
    threads: one transition per access to a cell word, a distance, an encounter field or a flag
    that another thread may touch.  Walls never change, so a wall test is part of the step that
    loads the cell word.
 */
module PartitionGrowth {
  import opened Common
  import opened MazeGrid
  import opened PartitionForest
  import opened PartitionRoute

  /** What follows a call of maze_solve_propagate. */
  datatype Return =
    | Mirror(d: nat, their: nat)         // record_encounter calls it again the other way round
    | Tried(d: nat)                      // neighbour d is dealt with
    | Adj(i: nat)                        // the loop of maze_solve_child_done_check

  datatype Pc =
    | Start                              // entering maze_find_any_next_cell for cur
    | Try(d: nat)                        // about to load the word of neighbour d
    | Cas(d: nat, to: Rowcol)            // it was unvisited: about to compare and swap
    | SetDist(to: Rowcol)
    | Append(to: Rowcol)
    | Found(to: Rowcol)                  // maze_find_any_next_cell returned 1
    | LoadTid(d: nat, to: Rowcol)        // it was visited: record_encounter
    | Record(k: nat, d: nat, to: Rowcol, their: nat)        // about to store field k
    | Propagate(a: nat, b: nat, k: nat, ret: Return)        // step k of maze_solve_propagate(a, b)
    | CheckStart                         // maze_solve_child_done_check
    | CheckEnd(need: bool)
    | CheckAdj(i: nat)
    | CheckTheirs(i: nat)
    | CheckDone
    | Finished

  /** list is the thread's own visited[], v its local index, dd the distance computed on entry
      to maze_find_any_next_cell; inner tells its inner from its outer loop. */
  datatype Child = Child(pc: Pc, list: seq<Rowcol>, v: nat, cur: Rowcol, dd: nat, inner: bool,
                         finishing: bool, snapStart: bool, snapEnd: bool)

  datatype State = State(f: Forest, adj: map<(nat, nat), Encounter>, seeStart: set<nat>, seeEnd: set<nat>,
                         done: bool, kids: seq<Child>)

  function Nthreads(s: State): nat { |s.kids| }

  /** ->mr of thread i's entry for thread j says that i met j. */
  predicate Met(s: State, i: nat, j: nat) { (i, j) in s.adj && s.adj[(i, j)].mr != -1 }

  /** maze_cells_connected on a symmetric maze. */
  predicate Open(s: State, a: Rowcol, b: Rowcol) { (a, b) in s.f.edges }

  function SetField(e: Encounter, k: nat, mine: Rowcol, theirs: Rowcol): Encounter {
    if k == 0 then e.(mr := mine.row)
    else if k == 1 then e.(mc := mine.col)
    else if k == 2 then e.(tr := theirs.row)
    else e.(tc := theirs.col)
  }

  /** maze_find_any_next_cell, maze_try_visit_cell and record_encounter: the next control state. */
  function TryNext(s: State, t: nat, c: Child): Child {
    match c.pc
    case Start => c.(pc := Try(0), dd := DistOf(s.f, c.cur) + 1)
    case Try(d) =>
      if d >= 4 then Exhausted(s.done, c)
      else if !Open(s, c.cur, Neighbour(c.cur, d)) then c.(pc := Try(d + 1))
      else if Neighbour(c.cur, d) in s.f.visited then c.(pc := LoadTid(d, Neighbour(c.cur, d)))
      else c.(pc := Cas(d, Neighbour(c.cur, d)))
    case Cas(d, to) => c.(pc := if to in s.f.visited then LoadTid(d, to) else SetDist(to))
    case SetDist(to) => c.(pc := Append(to))
    case Append(to) => c.(pc := Found(to), list := c.list + [to])
    case Found(to) =>
      if s.done then c.(pc := CheckStart, finishing := true) else c.(pc := Start, cur := to, inner := true)
    case LoadTid(d, to) => c.(pc := if TidOf(s.f, to) == t then Try(d + 1) else Record(0, d, to, TidOf(s.f, to)))
    case Record(k, d, to, their) =>
      c.(pc := if k < 3 then Record(k + 1, d, to, their) else Propagate(t, their, 0, Mirror(d, their)))
    case _ => c
  }

  function DistOf(f: Forest, c: Rowcol): nat { if c in f.dist then f.dist[c] else 0 }

  function TidOf(f: Forest, c: Rowcol): nat { if c in f.tid then f.tid[c] else 0 }

  /** maze_find_any_next_cell returned 0. */
  function Exhausted(done: bool, c: Child): Child {
    if c.inner then
      c.(pc := CheckStart, inner := false, cur := if c.v < |c.list| then c.list[c.v] else c.cur)
    else if c.v + 1 >= |c.list| || done then
      c.(pc := CheckStart, finishing := true, v := c.v + 1)
    else
      c.(pc := Start, v := c.v + 1, cur := c.list[c.v + 1])
  }

  /** The store, if any, to a cell word or a distance. */
  function TryForest(f: Forest, t: nat, c: Child): Forest {
    match c.pc
    case Cas(d, to) => if to in f.visited then f else Claim(f, to, t)
    case SetDist(to) => f.(dist := f.dist[to := c.dd])
    case _ => f
  }

  /** The successful compare and swap of VISITED | myid into a word whose tid field was clear. */
  function Claim(f: Forest, c: Rowcol, t: nat): Forest {
    f.(visited := f.visited + {c}, tid := f.tid[c := t])
  }

  /** The store, if any, to the thread's encounter with another. */
  function RecordEntry(adj: map<(nat, nat), Encounter>, t: nat, c: Child): map<(nat, nat), Encounter> {
    match c.pc
    case Record(k, d, to, their) =>
      adj[(t, their) := SetField(if (t, their) in adj then adj[(t, their)] else NoEncounter, k, c.cur, to)]
    case _ => adj
  }

  function Resume(t: nat, ret: Return): Pc {
    match ret
    case Mirror(d, their) => Propagate(their, t, 0, Tried(d))
    case Tried(d) => Try(d + 1)
    case Adj(i) => CheckAdj(i + 1)
  }

  /** maze_solve_propagate: the next control state. */
  function PropagateNext(seeStart: set<nat>, seeEnd: set<nat>, t: nat, a: nat, b: nat, k: nat, ret: Return): Pc {
    match k
    case 0 => Propagate(a, b, if a in seeStart then 1 else 4, ret)
    case 1 => Propagate(a, b, 2, ret)                                        // stores b's see_start
    case 2 => Propagate(a, b, if b in seeEnd then 3 else 4, ret)
    case 3 => Propagate(a, b, 4, ret)                                        // stores done
    case 4 => if a in seeEnd then Propagate(a, b, 5, ret) else Resume(t, ret)
    case 5 => Propagate(a, b, 6, ret)                                        // stores b's see_end
    case 6 => if b in seeStart then Propagate(a, b, 7, ret) else Resume(t, ret)
    case _ => Resume(t, ret)                                                 // stores done
  }

  /** maze_solve_child_done_check, between passes of the main loop or in the final wait. */
  function CheckNext(s: State, t: nat, c: Child): Child {
    match c.pc
    case CheckStart =>
      var need := !c.snapStart && t in s.seeStart;
      c.(pc := CheckEnd(need), snapStart := c.snapStart || need)
    case CheckEnd(need) =>
      var newly := !c.snapEnd && t in s.seeEnd;
      c.(pc := if need || newly then CheckAdj(0) else CheckDone, snapEnd := c.snapEnd || newly)
    case CheckAdj(i) =>
      c.(pc := if i >= |s.kids| then CheckDone else if i == t then CheckAdj(i + 1)
        else if Met(s, t, i) then Propagate(t, i, 0, Adj(i)) else CheckTheirs(i))
    case CheckTheirs(i) =>
      c.(pc := if Met(s, i, t) then Propagate(t, i, 0, Adj(i)) else CheckAdj(i + 1))
    case CheckDone =>
      if c.finishing then c.(pc := if s.done then Finished else CheckStart)
      else if s.done then c.(pc := CheckStart, finishing := true)
      else c.(pc := Start)
    case _ => c
  }

  /** One step of thread t. */
  function Next(s: State, t: nat): State
    requires t < |s.kids|
  {
    var c := s.kids[t];
    match c.pc
    case Propagate(a, b, k, ret) =>
      State(s.f, s.adj, if k == 1 then s.seeStart + {b} else s.seeStart, if k == 5 then s.seeEnd + {b} else s.seeEnd,
            s.done || k == 3 || k >= 7, s.kids[t := c.(pc := PropagateNext(s.seeStart, s.seeEnd, t, a, b, k, ret))])
    case CheckStart => s.(kids := s.kids[t := CheckNext(s, t, c)])
    case CheckEnd(_) => s.(kids := s.kids[t := CheckNext(s, t, c)])
    case CheckAdj(_) => s.(kids := s.kids[t := CheckNext(s, t, c)])
    case CheckTheirs(_) => s.(kids := s.kids[t := CheckNext(s, t, c)])
    case CheckDone => s.(kids := s.kids[t := CheckNext(s, t, c)])
    case _ => s.(kids := s.kids[t := TryNext(s, t, c)], f := TryForest(s.f, t, c), adj := RecordEntry(s.adj, t, c))
  }

  ghost predicate Step(s: State, t: nat, s': State) {
    t < |s.kids| && !s.kids[t].pc.Finished? && s' == Next(s, t)
  }

  /** After maze_solve_start: every thread owns its start, nothing else is visited. */
  ghost predicate Init(s: State) {
    var f := s.f;
    |s.kids| == |f.starts| >= 3 && ForestOk(f) && (forall c :: c in f.visited ==> c in f.starts)
      && (forall c :: c in f.tid ==> c.row >= 0)
    && (forall i: nat, j: nat :: (i, j) in s.adj <==> i < |s.kids| && j < |s.kids|)
    && (forall p :: p in s.adj ==> s.adj[p] == NoEncounter)
    && s.seeStart == {0} && s.seeEnd == {1} && !s.done
    && (forall t :: 0 <= t < |s.kids| ==> s.kids[t] == FirstChild(f.starts[t], t))
  }

  function FirstChild(start: Rowcol, t: nat): Child {
    Child(Start, [start], 0, start, 0, false, false, t == 0, t == 1)
  }

  ghost predicate IsRun(run: seq<State>, who: seq<nat>) {
    |run| == |who| + 1 && Init(run[0]) && forall i :: 0 <= i < |who| ==> Step(run[i], who[i], run[i + 1])
  }

  // ----- connectivity of the met partitions

  /** Both directions of every meeting recorded so far. */
  ghost function MetLinks(s: State): Links {
    set p | p in s.adj && (Met(s, p.0, p.1) || Met(s, p.1, p.0)) :: p
  }

  ghost predicate WalkBetween(links: Links, w: seq<nat>, a: nat, b: nat) {
    w != [] && w[0] == a && w[|w| - 1] == b && forall i :: 0 <= i < |w| - 1 ==> (w[i], w[i + 1]) in links
  }

  ghost predicate Joined(links: Links, a: nat, b: nat) { exists w :: WalkBetween(links, w, a, b) }

  lemma JoinedSelf(links: Links, a: nat)
    ensures Joined(links, a, a)
  {
    assert WalkBetween(links, [a], a, a);
  }

  lemma JoinedStep(links: Links, a: nat, b: nat, c: nat)
    requires Joined(links, a, b) && (b, c) in links
    ensures Joined(links, a, c)
  {
    var w :| WalkBetween(links, w, a, b);
    var v := w + [c];
    forall i | 0 <= i < |v| - 1
      ensures (v[i], v[i + 1]) in links
    {
      if i < |w| - 1 { assert (w[i], w[i + 1]) in links; }
    }
    assert WalkBetween(links, v, a, c);
  }

  lemma {:induction false} JoinedBack(links: Links, w: seq<nat>, x: nat, a: nat, b: nat)
    requires WalkBetween(links, w, a, b) && Joined(links, x, b) && forall p :: p in links ==> (p.1, p.0) in links
    ensures Joined(links, x, a)
    decreases |w|
  {
    if |w| > 1 {
      var v := w[..|w| - 1];
      assert (w[|w| - 2], w[|w| - 2 + 1]) in links;
      JoinedStep(links, x, b, w[|w| - 2]);
      forall i | 0 <= i < |v| - 1 ensures (v[i], v[i + 1]) in links { assert (w[i], w[i + 1]) in links; }
      JoinedBack(links, v, x, a, w[|w| - 2]);
    }
  }

  lemma JoinedGrows(links: Links, links': Links, a: nat, b: nat)
    requires Joined(links, a, b) && links <= links'
    ensures Joined(links', a, b)
  {
    var w :| WalkBetween(links, w, a, b);
    forall i | 0 <= i < |w| - 1 ensures (w[i], w[i + 1]) in links' { assert (w[i], w[i + 1]) in links; }
    assert WalkBetween(links', w, a, b);
  }

  // ----- the invariant

  ghost predicate Shape(s: State) {
    |s.kids| == |s.f.starts| >= 3 && Symmetric(s.f.edges)
    && (forall e :: e in s.f.edges ==> Adjacent(e.0, e.1) && e.0 in s.f.tid && e.1 in s.f.tid)
    && s.f.tid.Keys == s.f.dist.Keys && s.f.visited <= s.f.tid.Keys
    && (forall i: nat, j: nat :: (i, j) in s.adj <==> i < |s.kids| && j < |s.kids|)
    && (forall c :: c in s.f.tid ==> c.row >= 0)
    && (forall t :: 0 <= t < |s.f.starts| ==>
       s.f.starts[t] in s.f.visited && s.f.tid[s.f.starts[t]] == t && s.f.dist[s.f.starts[t]] == 1)
  }

  /** A visited cell whose distance is still 0 is the one its owner is about to set. */
  ghost predicate Settled(s: State, c: Rowcol)
    requires c in s.f.tid && c in s.f.dist
  {
    CellOk(s.f, c)
    || (c in s.f.visited && s.f.dist[c] == 0 && s.f.tid[c] < |s.kids| && s.kids[s.f.tid[c]].pc == SetDist(c))
  }

  /** A cell the thread has claimed and whose distance it has set. */
  ghost predicate Owned(f: Forest, t: nat, c: Rowcol) {
    c in f.visited && c in f.tid && c in f.dist && f.tid[c] == t && f.dist[c] >= 1
  }

  /** Everything on the thread's list, and the cell it works on, is its own. */
  ghost predicate HomeOk(f: Forest, t: nat, k: Child) {
    (forall c :: c in k.list ==> Owned(f, t, c)) && k.list != [] && (!k.finishing ==> k.v < |k.list|)
    && Owned(f, t, k.cur)
  }

  /** The distance a child is about to give is one more than its current cell's. */
  ghost predicate NextDistance(f: Forest, cur: Rowcol, dd: nat) { cur in f.dist && dd == f.dist[cur] + 1 }

  /** The control state agrees with the cells. */
  ghost predicate PcOk(f: Forest, t: nat, cur: Rowcol, dd: nat, pc: Pc) {
    match pc
    case Try(d) => NextDistance(f, cur, dd)
    case Cas(d, to) => NextDistance(f, cur, dd) && (cur, to) in f.edges
    case SetDist(to) =>
      NextDistance(f, cur, dd) && (cur, to) in f.edges && to in f.visited && to in f.tid && to in f.dist
      && f.tid[to] == t && f.dist[to] == 0
    case Append(to) => Owned(f, t, to)
    case Found(to) => Owned(f, t, to)
    case LoadTid(d, to) => NextDistance(f, cur, dd) && (cur, to) in f.edges && to in f.visited
    case Record(i, d, to, their) =>
      NextDistance(f, cur, dd) && i <= 3 && their < |f.starts| && EncounterFits(f, t, their, Full(cur, to))
    case Propagate(a, b, i, ret) => ret.Adj? || NextDistance(f, cur, dd)
    case _ => true
  }

  ghost predicate KidOk(f: Forest, t: nat, k: Child) { HomeOk(f, t, k) && PcOk(f, t, k.cur, k.dd, k.pc) }

  function Full(mine: Rowcol, theirs: Rowcol): Encounter { Encounter(mine.row, mine.col, theirs.row, theirs.col) }

  /** Thread t is between the first and the last store to its entry for thread j. */
  predicate MidRecord(k: Child, j: nat) { k.pc.Record? && k.pc.k > 0 && k.pc.their == j }

  /** Entry (i, j) is empty, complete, or has its first few fields stored. */
  ghost predicate EntryOk(s: State, i: nat, j: nat)
    requires i < |s.kids| && (i, j) in s.adj
  {
    var e := s.adj[(i, j)];
    if MidRecord(s.kids[i], j) then
      var full := Full(s.kids[i].cur, s.kids[i].pc.to);
      e.mr == full.mr && (s.kids[i].pc.k > 1 ==> e.mc == full.mc) && (s.kids[i].pc.k > 2 ==> e.tr == full.tr)
    else
      EncounterOk(s.f, i, j, e)
  }

  /** Visibility flags, and a propagation in progress, tell the truth. */
  ghost predicate FlagsOk(links: Links, seeStart: set<nat>, seeEnd: set<nat>, done: bool) {
    (forall t :: t in seeStart ==> Joined(links, 0, t)) && (forall t :: t in seeEnd ==> Joined(links, 1, t))
    && (done ==> Joined(links, 0, 1))
  }

  ghost predicate PassingOk(links: Links, t: nat, pc: Pc) {
    pc.Propagate? ==>
      (pc.a, pc.b) in links && pc.k <= 7 && (pc.k == 1 ==> Joined(links, 0, pc.a))
        && (pc.k in {2, 3} ==> Joined(links, 0, pc.b))
      && (pc.k == 3 || pc.k == 6 || pc.k == 7 ==> Joined(links, 1, pc.b)) && (pc.k == 5 ==> Joined(links, 1, pc.a))
      && (pc.k == 7 ==> Joined(links, 0, pc.b)) && (pc.ret.Mirror? ==> (pc.ret.their, t) in links)
  }

  ghost predicate Inv(s: State) {
    Shape(s) && (forall c :: c in s.f.tid ==> Settled(s, c))
    && (forall t :: 0 <= t < |s.kids| ==> KidOk(s.f, t, s.kids[t]))
    && (forall i, j :: 0 <= i < |s.kids| && 0 <= j < |s.kids| ==> EntryOk(s, i, j))
    && FlagsOk(MetLinks(s), s.seeStart, s.seeEnd, s.done)
    && (forall t :: 0 <= t < |s.kids| ==> PassingOk(MetLinks(s), t, s.kids[t].pc))
  }

  // ----- the invariant is kept

  /** The part of the forest thread u relies on only grows. */
  ghost predicate GrownFor(f: Forest, f': Forest, u: nat) {
    f'.edges == f.edges && f'.starts == f.starts && f.visited <= f'.visited
    && (forall c :: c in f.visited && c in f.tid ==> c in f'.tid && f'.tid[c] == f.tid[c])
    && (forall c :: c in f.visited && c in f.tid && c in f.dist && f.tid[c] == u ==>
       c in f'.dist && f'.dist[c] == f.dist[c])
  }

  lemma KidGrows(f: Forest, f': Forest, u: nat, k: Child)
    requires KidOk(f, u, k) && GrownFor(f, f', u)
    ensures KidOk(f', u, k)
  {
  }

  lemma EncounterGrows(f: Forest, f': Forest, u: nat, i: nat, j: nat, e: Encounter)
    requires EncounterOk(f, i, j, e) && GrownFor(f, f', u)
    ensures EncounterOk(f', i, j, e)
  {
  }

  // ----- control states

  ghost predicate CellsZero(f: Forest) { forall c :: c in f.dist && c !in f.visited ==> f.dist[c] == 0 }

  ghost predicate TidsBounded(f: Forest) { forall c :: c in f.visited && c in f.tid ==> f.tid[c] < |f.starts| }

  lemma ExhaustedKid(f: Forest, t: nat, done: bool, c: Child)
    requires HomeOk(f, t, c)
    ensures KidOk(f, t, Exhausted(done, c))
  {
    assert c.v + 1 < |c.list| ==> c.list[c.v + 1] in c.list;
    assert c.v < |c.list| ==> c.list[c.v] in c.list;
  }

  lemma TryKid(s: State, t: nat, c: Child)
    requires KidOk(s.f, t, c) && Shape(s) && CellsZero(s.f)
    ensures c.pc.Try? || c.pc.Start? ==> KidOk(s.f, t, TryNext(s, t, c)) && TryForest(s.f, t, c) == s.f
  {
    hide EncounterFits, Shape, CellsZero;
    if c.pc.Try? && c.pc.d >= 4 {
      ExhaustedKid(s.f, t, s.done, c);
    }
  }

  lemma ClaimKid(s: State, t: nat, c: Child)
    requires KidOk(s.f, t, c) && Shape(s) && CellsZero(s.f)
    ensures c.pc.Cas? ==> KidOk(TryForest(s.f, t, c), t, TryNext(s, t, c))
  {
    hide EncounterFits;
  }

  lemma MeasureKid(s: State, t: nat, c: Child)
    requires KidOk(s.f, t, c) && Shape(s)
    ensures c.pc.SetDist? ==> KidOk(TryForest(s.f, t, c), t, TryNext(s, t, c))
  {
    hide EncounterFits;
  }

  lemma FoundKid(s: State, t: nat, c: Child)
    requires KidOk(s.f, t, c) && Shape(s)
    ensures c.pc.Append? || c.pc.Found? ==> KidOk(s.f, t, TryNext(s, t, c)) && TryForest(s.f, t, c) == s.f
  {
    hide EncounterFits, Shape;
  }

  lemma RecordKid(s: State, t: nat, c: Child)
    requires KidOk(s.f, t, c) && Shape(s) && TidsBounded(s.f)
    ensures c.pc.LoadTid? || c.pc.Record? ==> KidOk(s.f, t, TryNext(s, t, c)) && TryForest(s.f, t, c) == s.f
  {
    hide Shape, TidsBounded;
    if c.pc.LoadTid? { LoadedFits(s, t, c); }
  }

  /** A visited neighbour that another thread owns makes a true encounter. */
  lemma LoadedFits(s: State, t: nat, c: Child)
    requires KidOk(s.f, t, c) && Shape(s) && TidsBounded(s.f) && c.pc.LoadTid?
    ensures var their := TidOf(s.f, c.pc.to);
      their < |s.f.starts| && (their != t ==> EncounterFits(s.f, t, their, Full(c.cur, c.pc.to)))
  {
  }

  lemma PropagateKid(f: Forest, seeStart: set<nat>, seeEnd: set<nat>, t: nat, c: Child)
    requires KidOk(f, t, c) && c.pc.Propagate?
    ensures KidOk(f, t, c.(pc := PropagateNext(seeStart, seeEnd, t, c.pc.a, c.pc.b, c.pc.k, c.pc.ret)))
  {
    hide EncounterFits, NextDistance, Owned;
  }

  lemma CheckKid(s: State, t: nat, c: Child)
    requires KidOk(s.f, t, c)
    ensures c.pc.CheckStart? || c.pc.CheckEnd? || c.pc.CheckAdj? || c.pc.CheckTheirs? || c.pc.CheckDone? ==>
      KidOk(s.f, t, CheckNext(s, t, c))
  {
    hide EncounterFits, NextDistance, Owned;
  }

  /** What a step changes in the forest. */
  lemma ForestGrows(s: State, t: nat, c: Child, u: nat)
    requires KidOk(s.f, t, c) && Shape(s)
    ensures u != t || !c.pc.SetDist? ==> GrownFor(s.f, TryForest(s.f, t, c), u)
  {
    hide EncounterFits, HomeOk;
  }

  lemma NextForest(s: State, t: nat)
    requires t < |s.kids|
    ensures Next(s, t).f == TryForest(s.f, t, s.kids[t]) && |Next(s, t).kids| == |s.kids|
    ensures forall u :: 0 <= u < |s.kids| && u != t ==> Next(s, t).kids[u] == s.kids[u]
    ensures Next(s, t).adj == RecordEntry(s.adj, t, s.kids[t])
  {
  }

  lemma InvGivesKid(s: State, t: nat)
    requires Inv(s) && t < |s.kids|
    ensures Shape(s) && KidOk(s.f, t, s.kids[t]) && CellsZero(s.f) && TidsBounded(s.f)
  {
    assert |s.kids| == |s.f.starts|;
    hide Shape, KidOk, EntryOk, FlagsOk, PassingOk, MetLinks;
    forall c | c in s.f.dist && c !in s.f.visited
      ensures s.f.dist[c] == 0
    {
      assert c in s.f.tid by { ShapeDomains(s); }
      assert Settled(s, c);
    }
    forall c | c in s.f.visited && c in s.f.tid
      ensures s.f.tid[c] < |s.f.starts|
    {
      ShapeDomains(s);
      assert Settled(s, c);
    }
  }

  lemma ShapeDomains(s: State)
    requires Shape(s)
    ensures forall c :: c in s.f.dist <==> c in s.f.tid
  {
    assert forall c :: c in s.f.dist.Keys <==> c in s.f.tid.Keys;
  }

  lemma StepKid(s: State, t: nat, u: nat)
    requires Inv(s) && t < |s.kids| && u < |s.kids|
    ensures u < |Next(s, t).kids| && KidOk(Next(s, t).f, u, Next(s, t).kids[u])
  {
    NextForest(s, t);
    InvGivesKid(s, t);
    InvGivesKid(s, u);
    var c := s.kids[t];
    hide Inv, Shape, KidOk;
    if u != t {
      ForestGrows(s, t, c, u);
      KidGrows(s.f, Next(s, t).f, u, s.kids[u]);
    } else {
      OwnKid(s, t);
    }
  }

  lemma OwnKid(s: State, t: nat)
    requires t < |s.kids| && KidOk(s.f, t, s.kids[t]) && Shape(s) && CellsZero(s.f) && TidsBounded(s.f)
    ensures KidOk(Next(s, t).f, t, Next(s, t).kids[t])
  {
    var c := s.kids[t];
    TryKid(s, t, c);
    ClaimKid(s, t, c);
    MeasureKid(s, t, c);
    FoundKid(s, t, c);
    RecordKid(s, t, c);
    CheckKid(s, t, c);
    if c.pc.Propagate? { PropagateKid(s.f, s.seeStart, s.seeEnd, t, c); }
    hide KidOk, Shape, CellsZero, TidsBounded, TryNext, CheckNext, PropagateNext;
  }

  // ----- cells

  lemma CellAfterClaim(f: Forest, to: Rowcol, t: nat, x: Rowcol)
    requires x in f.tid && x in f.dist && CellOk(f, x) && x != to && to !in f.visited && CellsZero(f) && to in f.dist
    requires to in f.tid
    ensures CellOk(Claim(f, to, t), x)
  {
    var g := Claim(f, to, t);
    if x in f.visited && f.dist[x] > 1 {
      var e :| IsPrev(f, x, e);
      assert IsPrev(g, x, e);
    }
  }

  lemma CellAfterMeasure(f: Forest, to: Rowcol, dd: nat, x: Rowcol)
    requires x in f.tid && x in f.dist && CellOk(f, x) && x != to && to in f.dist && f.dist[to] == 0
    ensures CellOk(f.(dist := f.dist[to := dd]), x)
  {
    var g := f.(dist := f.dist[to := dd]);
    if x in f.visited && f.dist[x] > 1 {
      var e :| IsPrev(f, x, e);
      assert IsPrev(g, x, e);
    }
  }

  lemma MeasuredCell(s: State, t: nat, c: Child)
    requires KidOk(s.f, t, c) && c.pc.SetDist? && Shape(s) && t < |s.f.starts|
    ensures CellOk(s.f.(dist := s.f.dist[c.pc.to := c.dd]), c.pc.to)
  {
    var g := s.f.(dist := s.f.dist[c.pc.to := c.dd]);
    assert c.pc.to != s.f.starts[t];
    assert IsPrev(g, c.pc.to, c.cur);
  }

  lemma StepCell(s: State, t: nat, x: Rowcol)
    requires Inv(s) && t < |s.kids| && x in s.f.tid
    ensures x in Next(s, t).f.tid && x in Next(s, t).f.dist && Settled(Next(s, t), x)
  {
    NextForest(s, t);
    InvGivesKid(s, t);
    ShapeDomains(s);
    var c := s.kids[t];
    assert Settled(s, x);
    assert |s.kids| == |s.f.starts|;
    if c.pc.Cas? && c.pc.to !in s.f.visited {
      ClaimCell(s, t, x);
    } else if c.pc.SetDist? {
      MeasureCell(s, t, x);
    } else {
      hide Inv, KidOk, Shape, CellOk;
    }
  }

  lemma ClaimCell(s: State, t: nat, x: Rowcol)
    requires Shape(s) && CellsZero(s.f) && t < |s.kids| && x in s.f.tid && x in s.f.dist && Settled(s, x)
    requires KidOk(s.f, t, s.kids[t]) && s.kids[t].pc.Cas? && s.kids[t].pc.to !in s.f.visited
    ensures x in Next(s, t).f.tid && x in Next(s, t).f.dist && Settled(Next(s, t), x)
  {
    var to := s.kids[t].pc.to;
    ShapeDomains(s);
    assert (s.kids[t].cur, to) in s.f.edges;
    assert to in s.f.tid;
    if x != to && CellOk(s.f, x) {
      CellAfterClaim(s.f, to, t, x);
    }
    hide Shape, CellOk, HomeOk;
  }

  lemma MeasureCell(s: State, t: nat, x: Rowcol)
    requires Shape(s) && t < |s.kids| && x in s.f.tid && x in s.f.dist && Settled(s, x)
    requires KidOk(s.f, t, s.kids[t]) && s.kids[t].pc.SetDist?
    ensures x in Next(s, t).f.tid && x in Next(s, t).f.dist && Settled(Next(s, t), x)
  {
    var to := s.kids[t].pc.to;
    ShapeDomains(s);
    MeasuredCell(s, t, s.kids[t]);
    if x != to && CellOk(s.f, x) {
      CellAfterMeasure(s.f, to, s.kids[t].dd, x);
    }
    hide Shape, CellOk, HomeOk;
  }

  lemma StepShape(s: State, t: nat)
    requires Inv(s) && t < |s.kids|
    ensures Shape(Next(s, t))
  {
    hide Inv, HomeOk, TryNext, CheckNext, PropagateNext, Next, CellsZero, EncounterFits, NextDistance, SetField;
    NextForest(s, t);
    InvGivesKid(s, t);
    var c := s.kids[t];
    assert c.pc.Record? ==> (t, c.pc.their) in s.adj by { RecordInTable(s, t); }
  }

  lemma RecordInTable(s: State, t: nat)
    requires Shape(s) && t < |s.kids| && KidOk(s.f, t, s.kids[t])
    ensures s.kids[t].pc.Record? ==> (t, s.kids[t].pc.their) in s.adj
  {
  }

  // ----- encounters

  lemma EntryMeaning(s: State, i: nat, j: nat)
    requires Inv(s) && i < |s.kids| && j < |s.kids|
    ensures (i, j) in s.adj && EntryOk(s, i, j)
  {
    hide KidOk, Settled, EntryOk, FlagsOk, PassingOk;
  }

  lemma StepEntry(s: State, t: nat, i: nat, j: nat)
    requires Inv(s) && t < |s.kids| && i < |s.kids| && j < |s.kids|
    ensures (i, j) in Next(s, t).adj && EntryOk(Next(s, t), i, j)
  {
    hide Inv, Shape, KidOk, EntryOk, Next;
    InvGivesKid(s, t);
    EntryMeaning(s, i, j);
    if t == i && s.kids[t].pc.Record? && s.kids[t].pc.their == j {
      StoreEntry(s, t);
    } else {
      QuietEntry(s, t, i, j, if s.kids[t].pc.SetDist? then t + 1 else t);
    }
  }

  /** Entries the step does not store to. */
  lemma QuietEntry(s: State, t: nat, i: nat, j: nat, u: nat)
    requires Shape(s) && t < |s.kids| && KidOk(s.f, t, s.kids[t]) && i < |s.kids| && (i, j) in s.adj && EntryOk(s, i, j)
    requires !(t == i && s.kids[t].pc.Record? && s.kids[t].pc.their == j) && (u != t || !s.kids[t].pc.SetDist?)
    ensures (i, j) in Next(s, t).adj && EntryOk(Next(s, t), i, j)
  {
    NextForest(s, t);
    ForestGrows(s, t, s.kids[t], u);
    hide Shape, KidOk, EncounterOk, EncounterFits;
    if !MidRecord(s.kids[i], j) {
      EncounterGrows(s.f, Next(s, t).f, u, i, j, s.adj[(i, j)]);
    }
    if t == i {
      NextKidIs(s, t);
      NotMid(s, t, s.kids[t], j);
    }
    hide GrownFor;
  }

  predicate Checking(pc: Pc) { pc.CheckStart? || pc.CheckEnd? || pc.CheckAdj? || pc.CheckTheirs? || pc.CheckDone? }

  function NextKid(s: State, t: nat, c: Child): Child {
    if c.pc.Propagate? then c.(pc := PropagateNext(s.seeStart, s.seeEnd, t, c.pc.a, c.pc.b, c.pc.k, c.pc.ret))
    else if Checking(c.pc) then CheckNext(s, t, c)
    else TryNext(s, t, c)
  }

  lemma NextKidIs(s: State, t: nat)
    requires t < |s.kids|
    ensures |Next(s, t).kids| == |s.kids| && Next(s, t).kids[t] == NextKid(s, t, s.kids[t])
  {
    hide TryNext, CheckNext, PropagateNext;
  }

  lemma NotMid(s: State, t: nat, c: Child, j: nat)
    requires !(c.pc.Record? && c.pc.their == j)
    ensures !MidRecord(NextKid(s, t, c), j)
  {
    hide TryNext, Exhausted;
    if !c.pc.Propagate? && !Checking(c.pc) { TryNotMid(s, t, c, j); }
  }

  lemma TryNotMid(s: State, t: nat, c: Child, j: nat)
    requires !(c.pc.Record? && c.pc.their == j)
    ensures !MidRecord(TryNext(s, t, c), j)
  {
    hide Exhausted, DistOf, TidOf, Open;
    assert !Exhausted(s.done, c).pc.Record? by { ExhaustedIsQuiet(s.done, c); }
    match c.pc
    case Try(d) =>
    case Cas(d, to) =>
    case Found(to) =>
    case LoadTid(d, to) =>
    case Record(k, d, to, their) =>
    case _ =>
  }

  /** A store to the entry adds the next field; the last one completes it. */
  lemma StoreEntry(s: State, t: nat)
    requires Shape(s) && t < |s.kids| && KidOk(s.f, t, s.kids[t]) && s.kids[t].pc.Record?
    requires (t, s.kids[t].pc.their) in s.adj && EntryOk(s, t, s.kids[t].pc.their)
    ensures (t, s.kids[t].pc.their) in Next(s, t).adj && EntryOk(Next(s, t), t, s.kids[t].pc.their)
  {
    var c := s.kids[t];
    var e := Next(s, t).adj[(t, c.pc.their)];
    hide Shape, HomeOk, EncounterFits;
    if c.pc.k == 3 {
      assert e == Full(c.cur, c.pc.to);
      FullMr(s.f, t, c.pc.their, e);
    }
  }

  lemma FullMr(f: Forest, i: nat, j: nat, e: Encounter)
    requires EncounterFits(f, i, j, e)
    ensures EncounterOk(f, i, j, e)
  {
  }

  /** Stores never make a met pair unmet. */
  lemma StepMetLinks(s: State, t: nat)
    requires Inv(s) && t < |s.kids|
    ensures MetLinks(s) <= MetLinks(Next(s, t))
    ensures s.kids[t].pc.Record? ==>
      (t, s.kids[t].pc.their) in MetLinks(Next(s, t)) && (s.kids[t].pc.their, t) in MetLinks(Next(s, t))
  {
    hide Inv, Shape, KidOk, EntryOk, Next;
    NextForest(s, t);
    InvGivesKid(s, t);
    var c := s.kids[t];
    if c.pc.Record? {
      RecordInTable(s, t);
      RecordMeets(s, t);
      hide SetField;
      assert forall p :: p in MetLinks(s) ==> p in MetLinks(Next(s, t));
    }
  }

  lemma RecordMeets(s: State, t: nat)
    requires Inv(s) && t < |s.kids| && s.kids[t].pc.Record?
    ensures var j := s.kids[t].pc.their;
      (t, j) in s.adj && (j, t) in s.adj && RecordEntry(s.adj, t, s.kids[t])[(t, j)].mr != -1
  {
    var j := s.kids[t].pc.their;
    InvGivesKid(s, t);
    RecordInTable(s, t);
    EntryMeaning(s, t, j);
    hide Inv, Shape, EncounterOk;
  }

  // ----- visibility

  lemma MetLinksSymmetric(s: State)
    requires Shape(s)
    ensures forall p :: p in MetLinks(s) ==> (p.1, p.0) in MetLinks(s)
  {
  }

  lemma MeetInMiddle(links: Links, b: nat)
    requires Joined(links, 0, b) && Joined(links, 1, b) && forall p :: p in links ==> (p.1, p.0) in links
    ensures Joined(links, 0, 1)
  {
    var w :| WalkBetween(links, w, 1, b);
    JoinedBack(links, w, 0, 1, b);
  }

  lemma AllJoinedGrow(links: Links, links': Links)
    requires links <= links'
    ensures forall a, b :: Joined(links, a, b) ==> Joined(links', a, b)
  {
    forall a, b | Joined(links, a, b) ensures Joined(links', a, b) { JoinedGrows(links, links', a, b); }
  }

  lemma FlagsMeaning(s: State, t: nat)
    requires Inv(s) && t < |s.kids|
    ensures FlagsOk(MetLinks(s), s.seeStart, s.seeEnd, s.done) && PassingOk(MetLinks(s), t, s.kids[t].pc)
  {
    hide Shape, KidOk, Settled, EntryOk, FlagsOk, PassingOk, MetLinks;
  }

  /** One step of maze_solve_propagate passes on only what is true. */
  lemma PropagateFlags(s: State, t: nat)
    requires Inv(s) && t < |s.kids| && s.kids[t].pc.Propagate?
    ensures MetLinks(Next(s, t)) == MetLinks(s)
    ensures FlagsOk(MetLinks(s), Next(s, t).seeStart, Next(s, t).seeEnd, Next(s, t).done)
    ensures PassingOk(MetLinks(s), t, Next(s, t).kids[t].pc)
  {
    hide Inv, Shape, KidOk, EntryOk, Joined;
    FlagsMeaning(s, t);
    InvGivesKid(s, t);
    MetLinksSymmetric(s);
    var links, pc := MetLinks(s), s.kids[t].pc;
    assert MetLinks(Next(s, t)) == links;
    hide MetLinks;
    if pc.k == 1 { JoinedStep(links, 0, pc.a, pc.b); }
    if pc.k == 5 { JoinedStep(links, 1, pc.a, pc.b); }
    if pc.k == 3 || pc.k == 7 { MeetInMiddle(links, pc.b); }
  }

  lemma CheckPasses(s: State, t: nat, c: Child)
    requires Shape(s) && t < |s.kids| && Checking(c.pc)
    ensures PassingOk(MetLinks(s), t, CheckNext(s, t, c).pc)
  {
    hide Joined;
    if c.pc.CheckAdj? {
      assert c.pc.i < |s.kids| ==> (t, c.pc.i) in s.adj && (c.pc.i, t) in s.adj;
    } else if c.pc.CheckTheirs? && Met(s, c.pc.i, t) {
      assert c.pc.i < |s.kids|;
      assert (t, c.pc.i) in s.adj;
    }
  }

  lemma TryPasses(s: State, t: nat, c: Child, links: Links)
    requires c.pc.Record? ==> (t, c.pc.their) in links && (c.pc.their, t) in links
    requires !c.pc.Propagate? && !Checking(c.pc)
    ensures PassingOk(links, t, TryNext(s, t, c).pc)
  {
    hide Joined, Exhausted, DistOf, TidOf, Open;
    ExhaustedIsQuiet(s.done, c);
    match c.pc
    case Try(d) =>
    case Cas(d, to) =>
    case Found(to) =>
    case LoadTid(d, to) =>
    case Record(k, d, to, their) =>
    case _ =>
  }

  lemma ExhaustedIsQuiet(done: bool, c: Child)
    ensures !Exhausted(done, c).pc.Propagate? && !Exhausted(done, c).pc.Record?
  {
  }

  lemma NextFlags(s: State, t: nat)
    requires t < |s.kids| && !s.kids[t].pc.Propagate?
    ensures Next(s, t).seeStart == s.seeStart && Next(s, t).seeEnd == s.seeEnd && Next(s, t).done == s.done
    ensures !s.kids[t].pc.Record? ==> Next(s, t).adj == s.adj
  {
  }

  lemma PassingGrows(links: Links, links': Links, t: nat, pc: Pc)
    requires PassingOk(links, t, pc) && links <= links'
    ensures PassingOk(links', t, pc)
  {
    AllJoinedGrow(links, links');
  }

  lemma OtherFlags(s: State, t: nat)
    requires Inv(s) && t < |s.kids| && !s.kids[t].pc.Propagate?
    ensures FlagsOk(MetLinks(Next(s, t)), Next(s, t).seeStart, Next(s, t).seeEnd, Next(s, t).done)
    ensures PassingOk(MetLinks(Next(s, t)), t, Next(s, t).kids[t].pc)
  {
    hide Inv, Shape, KidOk, EntryOk, Next, MetLinks, PassingOk, Joined, TryNext, CheckNext;
    FlagsMeaning(s, t);
    StepMetLinks(s, t);
    InvGivesKid(s, t);
    NextFlags(s, t);
    AllJoinedGrow(MetLinks(s), MetLinks(Next(s, t)));
    NextKidIs(s, t);
    var c := s.kids[t];
    if Checking(c.pc) {
      CheckPasses(s, t, c);
      PassingGrows(MetLinks(s), MetLinks(Next(s, t)), t, CheckNext(s, t, c).pc);
    } else {
      TryPasses(s, t, c, MetLinks(Next(s, t)));
    }
  }

  lemma StepFlags(s: State, t: nat, u: nat)
    requires Inv(s) && t < |s.kids| && u < |s.kids|
    ensures u < |Next(s, t).kids|
    ensures FlagsOk(MetLinks(Next(s, t)), Next(s, t).seeStart, Next(s, t).seeEnd, Next(s, t).done)
    ensures PassingOk(MetLinks(Next(s, t)), u, Next(s, t).kids[u].pc)
  {
    hide Inv, Next, MetLinks, PassingOk, FlagsOk;
    NextForest(s, t);
    FlagsMeaning(s, u);
    if s.kids[t].pc.Propagate? { PropagateFlags(s, t); } else { OtherFlags(s, t); }
    StepMetLinks(s, t);
    PassingGrows(MetLinks(s), MetLinks(Next(s, t)), u, s.kids[u].pc);
  }

  lemma StepKeepsInv(s: State, t: nat, s': State)
    requires Inv(s) && Step(s, t, s')
    ensures Inv(s')
  {
    hide Next, MetLinks, PassingOk, FlagsOk, Shape, KidOk, EntryOk, Settled;
    StepShape(s, t);
    NextForest(s, t);
    InvGivesKid(s, t);
    SameCells(s, t);
    ShapeDomains(s);
    ShapeDomains(s');
    forall c | c in s'.f.tid ensures Settled(s', c) { StepCell(s, t, c); }
    forall u | 0 <= u < |s'.kids| ensures KidOk(s'.f, u, s'.kids[u]) && PassingOk(MetLinks(s'), u, s'.kids[u].pc) {
      StepKid(s, t, u);
      StepFlags(s, t, u);
    }
    forall i, j | 0 <= i < |s'.kids| && 0 <= j < |s'.kids|
      ensures (i, j) in s'.adj && EntryOk(s', i, j)
    {
      StepEntry(s, t, i, j);
    }
    StepFlags(s, t, t);
  }

  lemma SameCells(s: State, t: nat)
    requires Shape(s) && t < |s.kids| && KidOk(s.f, t, s.kids[t])
    ensures forall c :: c in Next(s, t).f.tid <==> c in s.f.tid
  {
    NextForest(s, t);
  }

  lemma InitInv(s: State)
    requires Init(s)
    ensures Inv(s)
  {
    hide Shape, Settled, KidOk, EntryOk, FlagsOk, PassingOk, MetLinks;
    InitForest(s);
    InitKids(s);
    forall i, j | 0 <= i < |s.kids| && 0 <= j < |s.kids|
      ensures (i, j) in s.adj && EntryOk(s, i, j)
    {
      InitEntry(s, i, j);
    }
    assert FlagsOk(MetLinks(s), s.seeStart, s.seeEnd, s.done) by {
      JoinedSelf(MetLinks(s), 0);
      JoinedSelf(MetLinks(s), 1);
      InitFlags(s);
    }
  }

  lemma InitForest(s: State)
    requires Init(s)
    ensures Shape(s) && forall c :: c in s.f.tid ==> c in s.f.dist && Settled(s, c)
  {
    assert forall c :: c in s.f.dist.Keys <==> c in s.f.tid.Keys;
    hide EncounterFits;
  }

  lemma InitKids(s: State)
    requires Init(s)
    ensures forall t :: 0 <= t < |s.kids| ==> KidOk(s.f, t, s.kids[t]) && PassingOk(MetLinks(s), t, s.kids[t].pc)
  {
    hide MetLinks, EncounterFits;
  }

  lemma InitEntry(s: State, i: nat, j: nat)
    requires Init(s) && i < |s.kids| && j < |s.kids|
    ensures (i, j) in s.adj && EntryOk(s, i, j)
  {
    hide EncounterFits, CellOk;
  }

  lemma InitFlags(s: State)
    requires Init(s) && Joined(MetLinks(s), 0, 0) && Joined(MetLinks(s), 1, 1)
    ensures FlagsOk(MetLinks(s), s.seeStart, s.seeEnd, s.done)
  {
    hide MetLinks, Joined, CellOk;
  }

  lemma {:induction false} RunInv(run: seq<State>, who: seq<nat>, k: nat)
    requires IsRun(run, who) && k < |run|
    ensures Inv(run[k])
  {
    if k == 0 {
      InitInv(run[0]);
    } else {
      RunInv(run, who, k - 1);
      hide Inv, Init;
      assert Step(run[k - 1], who[k - 1], run[k - 1 + 1]);
      StepKeepsInv(run[k - 1], who[k - 1], run[k]);
    }
  }

  // ----- what holds in every run

  /** A cell keeps its owner for good, and its distance once that is set. */
  ghost predicate OwnersKept(f: Forest, f': Forest) {
    forall c :: c in f.visited && c in f.tid && c in f.dist ==>
      c in f'.visited && c in f'.tid && c in f'.dist && f'.tid[c] == f.tid[c]
        && (f.dist[c] != 0 ==> f'.dist[c] == f.dist[c])
  }

  lemma StepKeepsOwners(s: State, t: nat)
    requires Inv(s) && t < |s.kids|
    ensures OwnersKept(s.f, Next(s, t).f)
  {
    hide Inv, Next, HomeOk, Shape;
    NextForest(s, t);
    InvGivesKid(s, t);
  }

  lemma {:induction false} RunKeepsOwners(run: seq<State>, who: seq<nat>, i: nat, j: nat)
    requires IsRun(run, who) && i <= j < |run|
    ensures OwnersKept(run[i].f, run[j].f) && run[j].f.edges == run[i].f.edges && run[j].f.starts == run[i].f.starts
    decreases j
  {
    hide Inv, Init, Next, OwnersKept;
    if i < j {
      RunKeepsOwners(run, who, i, j - 1);
      RunInv(run, who, j - 1);
      assert Step(run[j - 1], who[j - 1], run[j - 1 + 1]);
      StepKeepsOwners(run[j - 1], who[j - 1]);
      NextForest(run[j - 1], who[j - 1]);
      OwnersTransitive(run[i].f, run[j - 1].f, run[j].f);
    } else {
      OwnersSelf(run[i].f);
    }
  }

  lemma OwnersSelf(f: Forest)
    ensures OwnersKept(f, f)
  {
  }

  lemma OwnersTransitive(f: Forest, g: Forest, h: Forest)
    requires OwnersKept(f, g) && OwnersKept(g, h)
    ensures OwnersKept(f, h)
  {
  }

  /** done is set only when the start's and the end's threads are joined by recorded meetings. */
  lemma DoneMeansRoute(run: seq<State>, who: seq<nat>, k: nat)
    requires IsRun(run, who) && k < |run| && run[k].done
    ensures HasRoute(MetLinks(run[k]), Nthreads(run[k]))
  {
    RunInv(run, who, k);
    var s := run[k];
    FlagsMeaning(s, 0);
    var w :| WalkBetween(MetLinks(s), w, 0, 1);
    forall i | 0 <= i < |w|
      ensures w[i] < Nthreads(s)
    {
      if i < |w| - 1 { assert (w[i], w[i + 1]) in MetLinks(s); }
    }
    var r := WalkGivesRoute(MetLinks(s), Nthreads(s), w);
  }

  ghost predicate FinishedOnlyWhenDone(s: State) {
    (exists u :: 0 <= u < |s.kids| && s.kids[u].pc.Finished?) ==> s.done
  }

  lemma StepFinished(s: State, t: nat)
    requires t < |s.kids| && FinishedOnlyWhenDone(s) && !s.kids[t].pc.Finished?
    ensures FinishedOnlyWhenDone(Next(s, t))
  {
    NextKidIs(s, t);
    NextForest(s, t);
    NextFinished(s, t, s.kids[t]);
    assert s.done ==> Next(s, t).done;
    hide NextKid, Next;
  }

  lemma NextFinished(s: State, t: nat, c: Child)
    requires !c.pc.Finished?
    ensures NextKid(s, t, c).pc.Finished? ==> s.done
  {
    if c.pc.Propagate? {
      hide TryNext, CheckNext;
    } else if Checking(c.pc) {
      hide TryNext, PropagateNext, Exhausted;
    } else {
      hide CheckNext, PropagateNext;
    }
  }

  lemma {:induction false} RunFinished(run: seq<State>, who: seq<nat>, k: nat)
    requires IsRun(run, who) && k < |run|
    ensures FinishedOnlyWhenDone(run[k])
  {
    if k > 0 {
      RunFinished(run, who, k - 1);
      hide Init, Next, FinishedOnlyWhenDone;
      assert Step(run[k - 1], who[k - 1], run[k - 1 + 1]);
      StepFinished(run[k - 1], who[k - 1]);
    }
  }

  ghost predicate AllFinished(s: State) { forall t :: 0 <= t < |s.kids| ==> s.kids[t].pc.Finished? }

  /** When every child has returned, what they leave is a forest with a true encounter table
      whose meetings join the start's thread to the end's. */
  lemma FinishedRun(run: seq<State>, who: seq<nat>, k: nat)
    requires IsRun(run, who) && k < |run| && AllFinished(run[k])
    ensures ForestOk(run[k].f) && HasRoute(MetLinks(run[k]), Nthreads(run[k]))
    ensures forall i, j :: 0 <= i < Nthreads(run[k]) && 0 <= j < Nthreads(run[k]) ==>
      (i, j) in run[k].adj && EncounterOk(run[k].f, i, j, run[k].adj[(i, j)])
    ensures Nthreads(run[k]) == |run[k].f.starts| >= 3
  {
    var s := run[k];
    RunInv(run, who, k);
    FinishedForest(s);
    RunFinished(run, who, k);
    DoneMeansRoute(run, who, k);
  }

  lemma FinishedForest(s: State)
    requires Inv(s) && AllFinished(s)
    ensures ForestOk(s.f) && 3 <= |s.kids| == |s.f.starts| && s.kids[0].pc.Finished?
    ensures forall i, j :: 0 <= i < |s.kids| && 0 <= j < |s.kids| ==>
      (i, j) in s.adj && EncounterOk(s.f, i, j, s.adj[(i, j)])
  {
    hide KidOk, FlagsOk, PassingOk, MetLinks, CellOk, EncounterOk;
    ShapeDomains(s);
    forall c | c in s.f.tid ensures CellOk(s.f, c) { assert Settled(s, c); }
    forall i, j | 0 <= i < |s.kids| && 0 <= j < |s.kids|
      ensures (i, j) in s.adj && EncounterOk(s.f, i, j, s.adj[(i, j)])
    {
      assert EntryOk(s, i, j);
    }
  }
}
