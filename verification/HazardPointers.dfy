/** Hazard pointers (defer/hazptr.h and defer/hazptr.c) as a state machine, for any number of
    hazard slots, pointer cells and retiring threads: one transition per access to a cell, to a
    hazard slot, or to a retired list.  Addresses are numbers; freed ones may be allocated again.
 */
module HazardPointers {
  import opened Common

  const NULL: nat := 0
  const HAZPTR_POISON: nat := 8

  /** hazptr_clean_pointer: the address without its mark bit. */
  function Clean(w: nat): nat { w - w % 2 }

  predicate IsNode(n: nat) { n % 2 == 0 && n != NULL && n != HAZPTR_POISON }

  /** What a cell may hold: NULL, poison, or a node's address, possibly marked. */
  predicate IsWord(w: nat) { w == NULL || w == HAZPTR_POISON || IsNode(Clean(w)) }

  /** A retired node is on the list of the thread that retired it. */
  datatype Status = Free | Live | Retired(t: nat)

  /** hp_record(p, hp) on the cell c. */
  datatype ReadPc = Idle | Load(c: nat) | Store(c: nat, tmp: nat) | Reload(c: nat, tmp: nat)

  /** held is the node the slot's last completed hp_record returned, until the slot is cleared
      or overwritten. */
  datatype Slot = Slot(p: nat, pc: ReadPc, held: Option<nat>)

  /** hazptr_scan: reading the slots one by one, then sweeping the list. */
  datatype ScanPc = Quiet | Reading(i: nat, plist: seq<nat>) | Sweeping(todo: seq<nat>, plist: seq<nat>)

  datatype Retirer = Retirer(rlist: seq<nat>, pc: ScanPc)

  datatype State = State(cells: seq<nat>, hp: seq<Slot>, threads: seq<Retirer>, status: map<nat, Status>)

  function StatusOf(s: State, n: nat): Status { if n in s.status then s.status[n] else Free }

  /** The threshold at which hazptr_free_later scans. */
  function Threshold(s: State): nat { 100 + 2 * |s.hp| }

  datatype Event =
    | Record(h: nat, c: nat)          // hp_record is called
    | Read(h: nat)                    // its next step
    | Clear(h: nat)                   // hp_clear
    | Update(c: nat, w: nat)          // a cell is made to hold w, unlinking what it held
    | Alloc(n: nat)
    | FreeLater(t: nat, n: nat)       // hazptr_free_later of a node no cell refers to
    | ScanStart(t: nat)               // hazptr_scan is called
    | Scan(t: nat)                    // its next step

  function SetSlot(s: State, h: nat, x: Slot): State
    requires h < |s.hp|
  {
    s.(hp := s.hp[h := x])
  }

  function SetThread(s: State, t: nat, x: Retirer): State
    requires t < |s.threads|
  {
    s.(threads := s.threads[t := x])
  }

  function ReadNext(cells: seq<nat>, x: Slot): Slot {
    match x.pc
    case Idle => x
    case Load(c) =>
      var tmp := if c < |cells| then cells[c] else NULL;
      x.(pc := if tmp == NULL then Idle else if tmp == HAZPTR_POISON then Load(c) else Store(c, tmp))
    case Store(c, tmp) => Slot(tmp, Reload(c, tmp), None)
    case Reload(c, tmp) =>
      if c < |cells| && cells[c] == tmp then Slot(x.p, Idle, Some(Clean(tmp))) else x.(pc := Load(c))
  }

  ghost predicate ScanStep(s: State, t: nat, s': State)
    requires t < |s.threads|
  {
    var x := s.threads[t];
    match x.pc
    case Quiet => false
    case Reading(i, plist) =>
      s' == SetThread(s, t,
        if i < |s.hp| then x.(pc := Reading(i + 1, if s.hp[i].p == NULL then plist else plist + [Clean(s.hp[i].p)]))
                            else Retirer([], Sweeping(x.rlist, plist)))
    case Sweeping(todo, plist) =>
      if todo == [] then s' == SetThread(s, t, x.(pc := Quiet))
      else if todo[0] in plist then s' == SetThread(s, t, Retirer([todo[0]] + x.rlist, Sweeping(todo[1..], plist)))
      else s' == SetThread(s, t, x.(pc := Sweeping(todo[1..], plist))).(status := s.status[todo[0] := Free])
  }

  ghost predicate Step(s: State, e: Event, s': State) {
    match e
    case Record(h, c) => h < |s.hp| && c < |s.cells| && s.hp[h].pc.Idle? && s' == SetSlot(s, h, s.hp[h].(pc := Load(c)))
    case Read(h) => h < |s.hp| && s' == SetSlot(s, h, ReadNext(s.cells, s.hp[h]))
    case Clear(h) => h < |s.hp| && s.hp[h].pc.Idle? && s' == SetSlot(s, h, Slot(NULL, Idle, None))
    case Update(c, w) =>
      c < |s.cells| && IsWord(w) && (IsNode(Clean(w)) ==> StatusOf(s, Clean(w)) == Live)
      && s' == s.(cells := s.cells[c := w])
    case Alloc(n) => IsNode(n) && StatusOf(s, n) == Free && s' == s.(status := s.status[n := Live])
    case FreeLater(t, n) => t < |s.threads| && s.threads[t].pc.Quiet? && StatusOf(s, n) == Live
      && (forall c :: 0 <= c < |s.cells| ==> Clean(s.cells[c]) != n)
      && s' == SetThread(s, t, Enlisted(s, t, n)).(status := s.status[n := Retired(t)])
    case ScanStart(t) =>
      t < |s.threads| && s.threads[t].pc.Quiet? && s' == SetThread(s, t, s.threads[t].(pc := Reading(0, [])))
    case Scan(t) => t < |s.threads| && ScanStep(s, t, s')
  }

  function Enlisted(s: State, t: nat, n: nat): Retirer
    requires t < |s.threads|
  {
    var rlist := [n] + s.threads[t].rlist;
    Retirer(rlist, if |rlist| >= Threshold(s) then Reading(0, []) else Quiet)
  }

  ghost predicate Init(s: State) {
    (forall c :: 0 <= c < |s.cells| ==> s.cells[c] == NULL)
      && (forall h :: 0 <= h < |s.hp| ==> s.hp[h] == Slot(NULL, Idle, None))
    && (forall t :: 0 <= t < |s.threads| ==> s.threads[t] == Retirer([], Quiet)) && s.status == map[]
  }

  ghost predicate IsRun(run: seq<State>, events: seq<Event>) {
    |run| == |events| + 1 && Init(run[0]) && forall i :: 0 <= i < |events| ==> Step(run[i], events[i], run[i + 1])
  }

  // ----- the invariant

  ghost predicate CellsOk(s: State) {
    forall c :: 0 <= c < |s.cells| ==>
      IsWord(s.cells[c]) && (IsNode(Clean(s.cells[c])) ==> StatusOf(s, Clean(s.cells[c])) == Live)
  }

  function Todo(x: Retirer): seq<nat> { if x.pc.Sweeping? then x.pc.todo else [] }

  /** Everything on a thread's list, or waiting to be swept, was retired by it, once. */
  ghost predicate ListOk(s: State, t: nat)
    requires t < |s.threads|
  {
    var x := s.threads[t];
    Distinct(x.rlist) && Distinct(Todo(x)) && (forall n :: n in x.rlist ==> n !in Todo(x))
    && (forall n :: n in x.rlist || n in Todo(x) ==> StatusOf(s, n) == Retired(t))
    && (x.pc.Reading? ==> x.pc.i <= |s.hp| && |x.pc.plist| <= x.pc.i)
    && (x.pc.Sweeping? ==> |x.pc.plist| <= |s.hp| && forall n :: n in x.rlist ==> n in x.pc.plist)
    && (x.pc.Quiet? ==> |x.rlist| < Threshold(s))
  }

  /** A scan past a slot has seen what the slot protects. */
  ghost predicate Noticed(s: State, h: nat, n: nat, t: nat)
    requires t < |s.threads|
  {
    var pc := s.threads[t].pc;
    (pc.Reading? && StatusOf(s, n) == Retired(t) && h < pc.i ==> n in pc.plist)
    && (pc.Sweeping? && n in pc.todo ==> n in pc.plist)
  }

  ghost predicate AllNoticed(s: State, h: nat, n: nat) { forall t :: 0 <= t < |s.threads| ==> Noticed(s, h, n, t) }

  ghost predicate SlotOk(s: State, h: nat)
    requires h < |s.hp|
  {
    var x := s.hp[h];
    (x.pc.Store? || x.pc.Reload? ==> IsNode(Clean(x.pc.tmp))) && (x.pc.Reload? ==> x.p == x.pc.tmp && x.held == None)
    && (x.held.Some? ==>
       IsNode(x.held.value) && Clean(x.p) == x.held.value && StatusOf(s, x.held.value) != Free
       && AllNoticed(s, h, x.held.value))
  }

  ghost predicate Inv(s: State) {
    CellsOk(s) && (forall t :: 0 <= t < |s.threads| ==> ListOk(s, t)) && forall h :: 0 <= h < |s.hp| ==> SlotOk(s, h)
  }

  // ----- readers

  lemma ReadKeepsInv(s: State, h: nat, s': State)
    requires Inv(s) && Step(s, Read(h), s')
    ensures Inv(s')
  {
    assert SlotOk(s, h);
    forall t | 0 <= t < |s'.threads| ensures ListOk(s', t) { assert ListOk(s, t); }
    forall g | 0 <= g < |s'.hp|
      ensures SlotOk(s', g)
    {
      assert SlotOk(s, g);
      if g == h {
        ReadSlot(s, h, s');
      } else if s.hp[g].held.Some? {
        var n := s.hp[g].held.value;
        forall t | 0 <= t < |s'.threads| ensures Noticed(s', g, n, t) { assert Noticed(s, g, n, t); }
      }
    }
  }

  /** A successful re-read finds its node live, so on no thread's list. */
  lemma ReadSlot(s: State, h: nat, s': State)
    requires Inv(s) && Step(s, Read(h), s')
    ensures SlotOk(s', h)
    ensures s.hp[h].held == None && s'.hp[h].held.Some? ==>
      var n := s'.hp[h].held.value;
      StatusOf(s', n) == Live
      && forall t :: 0 <= t < |s'.threads| ==> n !in s'.threads[t].rlist && n !in Todo(s'.threads[t])
  {
    assert SlotOk(s, h);
    var x, x' := s.hp[h], ReadNext(s.cells, s.hp[h]);
    assert s'.hp[h] == x';
    if x'.held.Some? {
      var n := x'.held.value;
      assert x.held == None ==> StatusOf(s, n) == Live;
      forall t | 0 <= t < |s'.threads|
        ensures Noticed(s', h, n, t)
        ensures x.held == None ==> n !in s'.threads[t].rlist && n !in Todo(s'.threads[t])
      {
        assert ListOk(s, t);
        assert x.held.Some? ==> Noticed(s, h, n, t);
      }
    }
  }

  lemma CallsKeepInv(s: State, e: Event, s': State)
    requires Inv(s) && Step(s, e, s') && (e.Record? || e.Clear? || e.Update? || e.Alloc? || e.ScanStart?)
    ensures Inv(s')
  {
    hide SlotOk;
    forall t | 0 <= t < |s'.threads| ensures ListOk(s', t) { assert ListOk(s, t); }
    forall g | 0 <= g < |s'.hp| ensures SlotOk(s', g) { CallsKeepSlot(s, e, s', g); }
  }

  lemma CallsKeepSlot(s: State, e: Event, s': State, g: nat)
    requires Inv(s) && Step(s, e, s') && (e.Record? || e.Clear? || e.Update? || e.Alloc? || e.ScanStart?) && g < |s'.hp|
    ensures SlotOk(s', g)
  {
    hide ListOk, CellsOk;
    assert SlotOk(s, g);
    if s.hp[g].held.Some? {
      var n := s.hp[g].held.value;
      forall t | 0 <= t < |s'.threads|
        ensures s'.hp[g].held.Some? ==> Noticed(s', g, n, t)
      {
        assert Noticed(s, g, n, t);
      }
    }
  }

  // ----- retiring and scanning

  lemma FreeLaterKeepsInv(s: State, t: nat, n: nat, s': State)
    requires Inv(s) && Step(s, FreeLater(t, n), s')
    ensures Inv(s')
  {
    forall u | 0 <= u < |s'.threads| ensures ListOk(s', u) { assert ListOk(s, u); }
    forall g | 0 <= g < |s'.hp|
      ensures SlotOk(s', g)
    {
      assert SlotOk(s, g);
      if s.hp[g].held.Some? {
        var m := s.hp[g].held.value;
        forall u | 0 <= u < |s'.threads| ensures Noticed(s', g, m, u) { assert Noticed(s, g, m, u); }
      }
    }
  }

  lemma ScanSlot(s: State, t: nat, s': State, g: nat)
    requires Inv(s) && Step(s, Scan(t), s') && g < |s.hp|
    ensures SlotOk(s', g)
  {
    assert SlotOk(s, g) && ListOk(s, t);
    assert s'.hp[g] == s.hp[g];
    if s.hp[g].held.Some? {
      var n := s.hp[g].held.value;
      assert Noticed(s, g, n, t);
      assert StatusOf(s', n) == StatusOf(s, n);
      forall u | 0 <= u < |s'.threads| ensures Noticed(s', g, n, u) { assert Noticed(s, g, n, u); }
    }
  }

  lemma ScanList(s: State, t: nat, s': State, u: nat)
    requires Inv(s) && Step(s, Scan(t), s') && u < |s.threads|
    ensures u < |s'.threads| && ListOk(s', u)
  {
    hide CellsOk, SlotOk;
    assert ListOk(s, u) && ListOk(s, t);
    if u == t { ScanOwnList(s, t, s'); } else { ScanOtherList(s, t, s', u); }
  }

  lemma ScanOtherList(s: State, t: nat, s': State, u: nat)
    requires t < |s.threads| && u < |s.threads| && u != t && ListOk(s, t) && ListOk(s, u) && ScanStep(s, t, s')
    ensures u < |s'.threads| && ListOk(s', u)
  {
    var todo := Todo(s.threads[t]);
    assert todo != [] ==> StatusOf(s, todo[0]) == Retired(t);
    assert s'.threads[u] == s.threads[u];
  }

  lemma ScanOwnList(s: State, t: nat, s': State)
    requires t < |s.threads| && ListOk(s, t) && ScanStep(s, t, s')
    ensures t < |s'.threads| && ListOk(s', t)
  {
    var x := s.threads[t];
    if x.pc.Sweeping? {
      if x.pc.todo == [] {
        KeptFits(x.rlist, x.pc.plist);
      } else {
        SweepLists(x.rlist, x.pc.todo);
        hide Distinct;
      }
    }
  }

  /** Moving or dropping the first node to sweep keeps all lists free of duplicates. */
  lemma SweepLists(rlist: seq<nat>, todo: seq<nat>)
    requires Distinct(rlist) && Distinct(todo) && todo != [] && forall n :: n in rlist ==> n !in todo
    ensures Distinct([todo[0]] + rlist) && Distinct(todo[1..]) && todo[0] in todo
    ensures forall n :: n in [todo[0]] + rlist <==> n == todo[0] || n in rlist
    ensures forall n :: n in todo[1..] ==> n in todo && n != todo[0]
    ensures forall n :: n in rlist ==> n != todo[0] && n !in todo[1..]
  {
    assert todo[0] in todo;
  }

  /** What survives a scan is hazardous, so there are no more survivors than slots. */
  lemma KeptFits(rlist: seq<nat>, plist: seq<nat>)
    requires Distinct(rlist) && forall n :: n in rlist ==> n in plist
    ensures |rlist| <= |plist|
  {
    MembersSize(rlist);
    MembersSize(plist);
    assert Members(plist) == Members(rlist) + (Members(plist) - Members(rlist));
  }

  lemma ScanKeepsInv(s: State, t: nat, s': State)
    requires Inv(s) && Step(s, Scan(t), s')
    ensures Inv(s')
  {
    hide SlotOk;
    assert ListOk(s, t);
    forall u | 0 <= u < |s'.threads| ensures ListOk(s', u) { ScanList(s, t, s', u); }
    forall g | 0 <= g < |s'.hp| ensures SlotOk(s', g) { ScanSlot(s, t, s', g); }
  }

  lemma StepKeepsInv(s: State, e: Event, s': State)
    requires Inv(s) && Step(s, e, s')
    ensures Inv(s')
  {
    hide Inv;
    match e {
      case Read(h) => ReadKeepsInv(s, h, s');
      case FreeLater(t, n) => FreeLaterKeepsInv(s, t, n, s');
      case Scan(t) => ScanKeepsInv(s, t, s');
      case _ => CallsKeepInv(s, e, s');
    }
  }

  lemma {:induction false} RunInv(run: seq<State>, events: seq<Event>, i: nat)
    requires IsRun(run, events) && i < |run|
    ensures Inv(run[i])
  {
    hide Step;
    if i > 0 {
      RunInv(run, events, i - 1);
      assert Step(run[i - 1], events[i - 1], run[i - 1 + 1]);
      StepKeepsInv(run[i - 1], events[i - 1], run[i]);
    }
  }

  // ----- what holds in every run

  /** A node hp_record has returned is not free while its slot still holds it. */
  lemma HeldIsNotFreed(run: seq<State>, events: seq<Event>, i: nat, h: nat)
    requires IsRun(run, events) && i < |run| && h < |run[i].hp| && run[i].hp[h].held.Some?
    ensures IsNode(run[i].hp[h].held.value) && StatusOf(run[i], run[i].hp[h].held.value) != Free
  {
    RunInv(run, events, i);
    assert SlotOk(run[i], h);
  }

  /** The hold lasts until the slot is cleared or overwritten, and at no moment until then is
      the node free, so it is not freed and allocated anew meanwhile either. */
  lemma {:induction false} HoldLasts(run: seq<State>, events: seq<Event>, i: nat, j: nat, h: nat)
    requires IsRun(run, events) && i <= j < |run| && h < |run[i].hp| && run[i].hp[h].held.Some?
    requires forall k :: i <= k < j ==> !EndsHold(run[k], events[k], h)
    ensures h < |run[j].hp| && run[j].hp[h].held == run[i].hp[h].held
    ensures StatusOf(run[j], run[i].hp[h].held.value) != Free
    decreases j
  {
    hide Step, Init;
    if i < j {
      HoldLasts(run, events, i, j - 1, h);
      assert Step(run[j - 1], events[j - 1], run[j - 1 + 1]);
      RunInv(run, events, j - 1);
      assert SlotOk(run[j - 1], h);
      HeldStep(run[j - 1], events[j - 1], run[j], h);
    }
    HeldIsNotFreed(run, events, j, h);
  }

  ghost predicate EndsHold(s: State, e: Event, h: nat) {
    e == Clear(h) || (e == Read(h) && h < |s.hp| && s.hp[h].pc.Store?)
  }

  lemma HeldStep(s: State, e: Event, s': State, h: nat)
    requires Step(s, e, s') && h < |s.hp| && s.hp[h].held.Some? && !EndsHold(s, e, h) && SlotOk(s, h)
    ensures h < |s'.hp| && s'.hp[h].held == s.hp[h].held
  {
  }

  /** Between scans a retired list stays below the threshold, and the one a scan leaves has at
      most as many nodes as there are slots. */
  lemma RetiredAreBounded(run: seq<State>, events: seq<Event>, i: nat, t: nat)
    requires IsRun(run, events) && i < |run| && t < |run[i].threads|
    ensures run[i].threads[t].pc.Quiet? ==> |run[i].threads[t].rlist| < Threshold(run[i])
    ensures run[i].threads[t].pc.Sweeping? ==> |run[i].threads[t].rlist| <= |run[i].hp|
  {
    RunInv(run, events, i);
    assert ListOk(run[i], t);
    var x := run[i].threads[t];
    if x.pc.Sweeping? { KeptFits(x.rlist, x.pc.plist); }
  }

  // ----- what hp_record returns

  /** What hp_record on cell c has done to its slot, which was x0 when it was called. */
  ghost predicate RecordSoFar(s: State, h: nat, c: nat, x0: Slot) {
    h < |s.hp| && c < |s.cells|
    && var x := s.hp[h];
       match x.pc
       case Idle => false
       case Load(k) => k == c && (x.held == None || (x.held == x0.held && x.p == x0.p))
       case Store(k, tmp) =>
         k == c && (x.held == None || (x.held == x0.held && x.p == x0.p)) && IsNode(Clean(tmp))
       case Reload(k, tmp) => k == c && x.held == None && x.p == tmp && IsNode(Clean(tmp))
  }

  /** hp_record has returned: NULL if the cell held NULL, and otherwise what the cell held. */
  ghost predicate Recorded(w: nat, x: Slot, x0: Slot) {
    if w == NULL then x.held == None || (x.held == x0.held && x.p == x0.p)
    else IsNode(Clean(w)) && x.held == Some(Clean(w)) && x.p == w
  }

  lemma RecordProceeds(s: State, e: Event, s': State, h: nat, c: nat, x0: Slot)
    requires Step(s, e, s') && RecordSoFar(s, h, c, x0) && CellsOk(s)
    ensures h < |s'.hp|
    ensures if s'.hp[h].pc.Idle? then e == Read(h) && Recorded(s.cells[c], s'.hp[h], x0) else RecordSoFar(s', h, c, x0)
  {
    hide Distinct, ScanStep, Enlisted, StatusOf;
    if e.Scan? { ScanLeavesSlots(s, e.t, s'); }
  }

  lemma ScanLeavesSlots(s: State, t: nat, s': State)
    requires t < |s.threads| && ScanStep(s, t, s')
    ensures s'.hp == s.hp && s'.cells == s.cells
  {
  }

  /** hp_record on cell c is called for slot h with event i, and has returned at j. */
  ghost predicate RecordReturns(run: seq<State>, events: seq<Event>, h: nat, c: nat, i: nat, j: nat) {
    IsRun(run, events) && i < j < |run| && events[i] == Record(h, c) && h < |run[i].hp|
    && h < |run[j].hp| && run[j].hp[h].pc.Idle?
    && forall x :: i < x < j ==> h < |run[x].hp| && !run[x].hp[h].pc.Idle?
  }

  lemma {:induction false} RecordRuns(run: seq<State>, events: seq<Event>, h: nat, c: nat, i: nat, j: nat, x: nat)
    requires RecordReturns(run, events, h, c, i, j) && i < x < j
    ensures RecordSoFar(run[x], h, c, run[i].hp[h])
    decreases x
  {
    hide Init, Inv, ScanStep;
    assert Step(run[x - 1], events[x - 1], run[x - 1 + 1]);
    if x > i + 1 {
      RecordRuns(run, events, h, c, i, j, x - 1);
      RunInv(run, events, x - 1);
      CellsFine(run[x - 1]);
      RecordProceeds(run[x - 1], events[x - 1], run[x], h, c, run[i].hp[h]);
    }
  }

  lemma CellsFine(s: State)
    requires Inv(s)
    ensures CellsOk(s)
  {
  }

  /** hp_record returns what the cell it was given holds at its last read: the node, which the
      slot then protects, or NULL, and then the slot holds nothing new. */
  lemma RecordReturnsCell(run: seq<State>, events: seq<Event>, h: nat, c: nat, i: nat, j: nat)
    requires RecordReturns(run, events, h, c, i, j)
    ensures j > i + 1 && events[j - 1] == Read(h) && c < |run[j - 1].cells|
    ensures Recorded(run[j - 1].cells[c], run[j].hp[h], run[i].hp[h])
  {
    hide Init, Inv, ScanStep, RecordSoFar, Recorded;
    assert Step(run[i], events[i], run[i + 1]) && Step(run[j - 1], events[j - 1], run[j - 1 + 1]);
    RecordRuns(run, events, h, c, i, j, j - 1);
    RunInv(run, events, j - 1);
    CellsFine(run[j - 1]);
    assert c < |run[j - 1].cells| by { RecordBounds(run[j - 1], h, c, run[i].hp[h]); }
    RecordProceeds(run[j - 1], events[j - 1], run[j], h, c, run[i].hp[h]);
  }

  lemma RecordBounds(s: State, h: nat, c: nat, x0: Slot)
    requires RecordSoFar(s, h, c, x0)
    ensures c < |s.cells|
  {
  }

  // ----- what becomes of retired nodes

  /** Every retired node is on its thread's list, or waiting to be swept. */
  ghost predicate Listed(s: State, n: nat) {
    StatusOf(s, n).Retired? ==>
      StatusOf(s, n).t < |s.threads|
        && (n in s.threads[StatusOf(s, n).t].rlist || n in Todo(s.threads[StatusOf(s, n).t]))
  }

  lemma StepListed(s: State, e: Event, s': State, n: nat)
    requires Inv(s) && Step(s, e, s') && Listed(s, n)
    ensures Listed(s', n) && |s'.threads| == |s.threads|
  {
    hide SlotOk, CellsOk, Distinct, ListOk;
    if e.Scan? { ScanListed(s, e.t, s', n); }
  }

  lemma ScanListed(s: State, t: nat, s': State, n: nat)
    requires Inv(s) && t < |s.threads| && ScanStep(s, t, s') && Listed(s, n)
    ensures Listed(s', n) && |s'.threads| == |s.threads|
  {
    hide SlotOk, CellsOk, Distinct;
    assert ListOk(s, t);
    var x := s.threads[t];
    if x.pc.Sweeping? && x.pc.todo != [] {
      assert x.pc.todo[0] in x.pc.todo;
      assert forall m :: m in x.pc.todo <==> m == x.pc.todo[0] || m in x.pc.todo[1..];
    }
  }

  /** No retired node is lost: in every run it is on the list of the thread that retired it. */
  lemma {:induction false} NothingIsLost(run: seq<State>, events: seq<Event>, i: nat, n: nat)
    requires IsRun(run, events) && i < |run|
    ensures Listed(run[i], n)
  {
    hide Inv, Step;
    if i > 0 {
      NothingIsLost(run, events, i - 1, n);
      RunInv(run, events, i - 1);
      assert Step(run[i - 1], events[i - 1], run[i - 1 + 1]);
      StepListed(run[i - 1], events[i - 1], run[i], n);
    }
  }

  /** Some slot contains the node's address. */
  ghost predicate InSlot(s: State, n: nat) {
    exists h :: 0 <= h < |s.hp| && s.hp[h].p != NULL && Clean(s.hp[h].p) == n
  }

  /** A scan of thread t begins at i and ends at j. */
  ghost predicate ScanRuns(run: seq<State>, events: seq<Event>, t: nat, i: nat, j: nat) {
    IsRun(run, events) && i < j < |run| && t < |run[i].threads| && run[i].threads[t].pc == Reading(0, [])
    && t < |run[j].threads| && run[j].threads[t].pc.Quiet?
    && forall x :: i <= x < j ==> t < |run[x].threads| && !run[x].threads[t].pc.Quiet?
  }

  function Plist(pc: ScanPc): seq<nat> { if pc.Quiet? then [] else pc.plist }

  /** What a step of a scan collects is in a slot, and the list it builds is of collected nodes. */
  lemma ScanCollects(s: State, e: Event, s': State, t: nat)
    requires Inv(s) && Step(s, e, s') && t < |s.threads| && !s.threads[t].pc.Quiet?
    ensures t < |s'.threads|
    ensures forall n :: n in Plist(s'.threads[t].pc) ==> n in Plist(s.threads[t].pc) || InSlot(s, n)
    ensures s'.threads[t].pc.Quiet? ==> forall n :: n in s'.threads[t].rlist ==> n in Plist(s.threads[t].pc)
  {
    hide SlotOk, CellsOk, Distinct;
    assert ListOk(s, t);
  }

  lemma {:induction false} Collected(run: seq<State>, events: seq<Event>, t: nat, i: nat, j: nat, x: nat, n: nat)
    requires ScanRuns(run, events, t, i, j) && i <= x < j && n in Plist(run[x].threads[t].pc)
    ensures exists y :: i <= y < j && InSlot(run[y], n)
    decreases x
  {
    hide Inv, Init, Step, InSlot;
    if x > i {
      RunInv(run, events, x - 1);
      assert Step(run[x - 1], events[x - 1], run[x - 1 + 1]);
      ScanCollects(run[x - 1], events[x - 1], run[x], t);
      if n in Plist(run[x - 1].threads[t].pc) { Collected(run, events, t, i, j, x - 1, n); }
    }
  }

  /** A retired node stays its thread's until it is freed. */
  lemma RetiredUntilFreed(s: State, e: Event, s': State, n: nat, t: nat)
    requires Inv(s) && Step(s, e, s') && StatusOf(s, n) == Retired(t)
    ensures StatusOf(s', n) == Retired(t) || StatusOf(s', n) == Free
  {
    hide SlotOk, CellsOk, ListOk, Distinct;
  }

  lemma {:induction false} FreedSince(run: seq<State>, events: seq<Event>, i: nat, j: nat, n: nat, t: nat)
    requires IsRun(run, events) && i <= j < |run| && StatusOf(run[i], n) == Retired(t)
    ensures StatusOf(run[j], n) == Retired(t) || exists x :: i < x <= j && StatusOf(run[x], n) == Free
    decreases j
  {
    hide Inv, Init, Step, StatusOf;
    if j > i {
      FreedSince(run, events, i, j - 1, n, t);
      RunInv(run, events, j - 1);
      assert Step(run[j - 1], events[j - 1], run[j - 1 + 1]);
      if StatusOf(run[j - 1], n) == Retired(t) { RetiredUntilFreed(run[j - 1], events[j - 1], run[j], n, t); }
    }
  }

  /** A scan keeps a node only if some slot contained it while the scan ran, and frees every
      other node that was on the list when it began. */
  lemma ScanIsExact(run: seq<State>, events: seq<Event>, t: nat, i: nat, j: nat, n: nat)
    requires ScanRuns(run, events, t, i, j) && n in run[i].threads[t].rlist
    ensures if n in run[j].threads[t].rlist then exists y :: i <= y < j && InSlot(run[y], n)
            else exists x :: i < x <= j && StatusOf(run[x], n) == Free
  {
    hide Inv, Init, Step, InSlot;
    RunInv(run, events, i);
    RunInv(run, events, j - 1);
    assert Step(run[j - 1], events[j - 1], run[j - 1 + 1]);
    ScanCollects(run[j - 1], events[j - 1], run[j], t);
    if n in run[j].threads[t].rlist {
      Collected(run, events, t, i, j, j - 1, n);
    } else {
      OnListIsRetired(run[i], t, n);
      FreedSince(run, events, i, j, n, t);
      NothingIsLost(run, events, j, n);
    }
  }

  lemma RetiresIt(s: State, t: nat, n: nat, s': State)
    requires Step(s, FreeLater(t, n), s')
    ensures StatusOf(s', n) == Retired(t)
  {
  }

  /** A node given to hp_free_later is on the caller's list, or waiting to be swept, until it is
      freed. */
  lemma FreeLaterRemembers(run: seq<State>, events: seq<Event>, i: nat, j: nat, t: nat, n: nat)
    requires IsRun(run, events) && i < j < |run| && events[i] == FreeLater(t, n)
    ensures (exists x :: i < x <= j && StatusOf(run[x], n) == Free)
      || (t < |run[j].threads| && (n in run[j].threads[t].rlist || n in Todo(run[j].threads[t])))
  {
    hide Init, Step, StatusOf;
    assert Step(run[i], events[i], run[i + 1]);
    RetiresIt(run[i], t, n, run[i + 1]);
    FreedSince(run, events, i + 1, j, n, t);
    NothingIsLost(run, events, j, n);
  }

  ghost predicate Blank(s: State, h: nat) { h < |s.hp| && s.hp[h] == Slot(NULL, Idle, None) }

  lemma BlankStep(s: State, e: Event, s': State, h: nat)
    requires Step(s, e, s') && (Blank(s, h) || e == Clear(h)) && forall c :: e != Record(h, c)
    ensures Blank(s', h)
  {
    hide StatusOf, Enlisted, ScanStep;
    if e.Scan? { ScanLeavesSlots(s, e.t, s'); }
    if e.Record? { assert e != Record(h, e.c); }
  }

  /** From hp_clear until the next hp_record, a slot holds and protects nothing. */
  lemma {:induction false} ClearReleases(run: seq<State>, events: seq<Event>, i: nat, j: nat, h: nat)
    requires IsRun(run, events) && i < j < |run| && events[i] == Clear(h)
    requires forall k, c :: i < k < j ==> events[k] != Record(h, c)
    ensures Blank(run[j], h)
    decreases j
  {
    hide Init, Step, Blank;
    assert Step(run[j - 1], events[j - 1], run[j - 1 + 1]);
    if j > i + 1 { ClearReleases(run, events, i, j - 1, h); }
    BlankStep(run[j - 1], events[j - 1], run[j], h);
  }

  lemma OnListIsRetired(s: State, t: nat, n: nat)
    requires Inv(s) && t < |s.threads| && n in s.threads[t].rlist
    ensures StatusOf(s, n) == Retired(t)
  {
    assert ListOk(s, t);
  }

  // ----- how long calls take

  /** How often an event occurs from i to j. */
  function Occurrences(events: seq<Event>, e: Event, i: nat, j: nat): nat
    requires i <= j <= |events|
    decreases j
  {
    if i == j then 0 else Occurrences(events, e, i, j - 1) + if events[j - 1] == e then 1 else 0
  }

  /** How many reads an undisturbed hp_record of a cell holding w still takes. */
  ghost predicate RecordNeeds(s: State, h: nat, c: nat, w: nat, left: nat) {
    h < |s.hp|
    && match s.hp[h].pc
       case Idle => left == 0
       case Load(k) => k == c && left == 3
       case Store(k, tmp) => k == c && tmp == w && left == 2
       case Reload(k, tmp) => k == c && tmp == w && left == 1
  }

  lemma RecordAdvances(s: State, e: Event, s': State, h: nat, c: nat, w: nat, left: nat)
    requires Step(s, e, s') && RecordNeeds(s, h, c, w, left) && left > 0 && c < |s.cells|
    requires s.cells[c] == w != HAZPTR_POISON
    ensures if e == Read(h) then RecordNeeds(s', h, c, w, left - 1) || RecordNeeds(s', h, c, w, 0)
            else RecordNeeds(s', h, c, w, left)
  {
    hide StatusOf, Enlisted, ScanStep;
    if e.Scan? { ScanLeavesSlots(s, e.t, s'); }
  }

  lemma RecordBegins(s: State, h: nat, c: nat, s': State, w: nat)
    requires Step(s, Record(h, c), s')
    ensures RecordNeeds(s', h, c, w, 3)
  {
  }

  lemma NeedsMeaning(s: State, h: nat, c: nat, w: nat)
    ensures h < |s.hp| && !s.hp[h].pc.Idle? ==> !RecordNeeds(s, h, c, w, 0)
  {
  }

  /** hp_record retries only when the cell changes under it: while the cell keeps its value, it
      takes at most three reads. */
  lemma {:induction false} RecordIsShort(run: seq<State>, events: seq<Event>, h: nat, c: nat, w: nat, i: nat, j: nat)
    requires IsRun(run, events) && i < j < |run| && events[i] == Record(h, c) && w != HAZPTR_POISON
    requires forall x :: i < x <= j ==> c < |run[x].cells| && run[x].cells[c] == w
    requires forall x :: i < x <= j ==> h < |run[x].hp| && !run[x].hp[h].pc.Idle?
    ensures Occurrences(events, Read(h), i, j) <= 2
    ensures RecordNeeds(run[j], h, c, w, 3 - Occurrences(events, Read(h), i, j))
    decreases j
  {
    hide Init, Step, RecordNeeds;
    assert Step(run[j - 1], events[j - 1], run[j - 1 + 1]);
    assert Occurrences(events, Read(h), i, i) == 0;
    NeedsMeaning(run[j], h, c, w);
    if j == i + 1 {
      RecordBegins(run[i], h, c, run[j], w);
    } else {
      RecordIsShort(run, events, h, c, w, i, j - 1);
      RecordAdvances(run[j - 1], events[j - 1], run[j], h, c, w, 3 - Occurrences(events, Read(h), i, j - 1));
    }
  }

  /** How many steps a scan still takes. */
  function ScanLeft(x: Retirer, slots: nat): int {
    match x.pc
    case Quiet => 0
    case Reading(i, _) => slots - i + |x.rlist| + 2
    case Sweeping(todo, _) => |todo| + 1
  }

  lemma ScanAdvances(s: State, e: Event, s': State, t: nat)
    requires Inv(s) && Step(s, e, s') && t < |s.threads| && !s.threads[t].pc.Quiet?
    ensures t < |s'.threads| && |s'.hp| == |s.hp|
    ensures ScanLeft(s'.threads[t], |s.hp|) == ScanLeft(s.threads[t], |s.hp|) - if e == Scan(t) then 1 else 0
  {
    hide SlotOk, CellsOk, Distinct, StatusOf;
    assert ListOk(s, t);
  }

  /** A scan takes one step a slot, one a node of its list, and two more, whatever all others do. */
  lemma {:induction false} ScanSteps(run: seq<State>, events: seq<Event>, t: nat, i: nat, j: nat, x: nat)
    requires ScanRuns(run, events, t, i, j) && i <= x <= j
    ensures t < |run[x].threads| && |run[x].hp| == |run[i].hp|
    ensures Occurrences(events, Scan(t), i, x) + ScanLeft(run[x].threads[t], |run[i].hp|)
         == |run[i].hp| + |run[i].threads[t].rlist| + 2
    decreases x
  {
    hide Init, Inv, Step;
    if x > i {
      ScanSteps(run, events, t, i, j, x - 1);
      RunInv(run, events, x - 1);
      assert Step(run[x - 1], events[x - 1], run[x - 1 + 1]);
      ScanAdvances(run[x - 1], events[x - 1], run[x], t);
    }
  }
}
