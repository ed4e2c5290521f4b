/** The sequential double-ended queue both concurrent deques of SMPdesign implement, and what
    it means for a log of completed operations to be one of its histories.
 */
module DequeSpec {
  import opened Common

  datatype Side = L | R

  /** Elements are list nodes, named by their addresses. */
  datatype Op = Pop(side: Side) | Push(side: Side, x: nat)

  /** The deque from left to right after op. */
  function After(a: seq<nat>, op: Op): seq<nat> {
    match op
    case Push(L, x) => [x] + a
    case Push(R, x) => a + [x]
    case Pop(L) => if a == [] then [] else a[1..]
    case Pop(R) => if a == [] then [] else a[..|a| - 1]
  }

  /** What op returns; None is NULL, and what pushes return. */
  function Returned(a: seq<nat>, op: Op): Option<nat> {
    match op
    case Push(_, _) => None
    case Pop(L) => if a == [] then None else Some(a[0])
    case Pop(R) => if a == [] then None else Some(a[|a| - 1])
  }

  datatype Entry = Entry(t: nat, op: Op, result: Option<nat>)

  function Replay(log: seq<Entry>): (a: seq<nat>) {
    if log == [] then [] else After(Replay(log[..|log| - 1]), log[|log| - 1].op)
  }

  /** Every logged result is the one the sequential deque gives. */
  ghost predicate Legal(log: seq<Entry>) {
    forall i :: 0 <= i < |log| ==> log[i].result == Returned(Replay(log[..i]), log[i].op)
  }

  lemma LegalGrows(log: seq<Entry>, e: Entry)
    requires Legal(log) && e.result == Returned(Replay(log), e.op)
    ensures Legal(log + [e]) && Replay(log + [e]) == After(Replay(log), e.op)
  {
    var longer := log + [e];
    assert longer[..|longer| - 1] == log;
    forall i | 0 <= i < |longer|
      ensures longer[i].result == Returned(Replay(longer[..i]), longer[i].op)
    {
      if i < |log| { assert longer[..i] == log[..i]; }
    }
  }

  /** How many operations of thread t the log holds. */
  function CountOf(log: seq<Entry>, t: nat): nat {
    if log == [] then 0 else CountOf(log[..|log| - 1], t) + if log[|log| - 1].t == t then 1 else 0
  }

  /** Thread t's latest entry. */
  function LatestOf(log: seq<Entry>, t: nat): Option<Entry> {
    if log == [] then None
    else if log[|log| - 1].t == t then Some(log[|log| - 1])
    else LatestOf(log[..|log| - 1], t)
  }

  lemma LogGrows(log: seq<Entry>, e: Entry, t: nat)
    ensures CountOf(log + [e], t) == CountOf(log, t) + if e.t == t then 1 else 0
    ensures LatestOf(log + [e], t) == if e.t == t then Some(e) else LatestOf(log, t)
  {
    var longer := log + [e];
    assert longer[..|longer| - 1] == log;
  }

  ghost predicate Prefix(log: seq<Entry>, log': seq<Entry>) { |log| <= |log'| && log'[..|log|] == log }

  // ----- one call's entry

  /** From position `from` on the log has nothing of thread t. */
  ghost predicate LoggedNone(log: seq<Entry>, from: nat, t: nat) {
    forall q :: from <= q < |log| ==> log[q].t != t
  }

  /** From position `from` on entry is its thread's only one. */
  ghost predicate LoggedOnce(log: seq<Entry>, from: nat, entry: Entry) {
    exists p :: from <= p < |log| && log[p] == entry && forall q :: from <= q < |log| && q != p ==> log[q].t != entry.t
  }

  /** From position `from` on thread t has done exactly one operation, op, with result e, which
      is what the sequential deque returns at that place of the history. */
  ghost predicate TakesEffectOnce(log: seq<Entry>, from: nat, t: nat, op: Op, e: Option<nat>) {
    exists p :: from <= p < |log| && log[p] == Entry(t, op, e) && e == Returned(Replay(log[..p]), op)
      && forall q :: from <= q < |log| && q != p ==> log[q].t != t
  }

  lemma NoneGrows(log: seq<Entry>, from: nat, t: nat, e: Entry)
    requires from <= |log| && LoggedNone(log, from, t)
    ensures if e.t == t then LoggedOnce(log + [e], from, e) else LoggedNone(log + [e], from, t)
  {
    assert (log + [e])[|log|] == e;
  }

  lemma OnceGrows(log: seq<Entry>, from: nat, entry: Entry, e: Entry)
    requires LoggedOnce(log, from, entry) && e.t != entry.t
    ensures LoggedOnce(log + [e], from, entry)
  {
    var p :| from <= p < |log| && log[p] == entry && forall q :: from <= q < |log| && q != p ==> log[q].t != entry.t;
    assert (log + [e])[p] == entry;
  }

  lemma OnceIsLegal(log: seq<Entry>, from: nat, t: nat, op: Op, e: Option<nat>)
    requires Legal(log) && LoggedOnce(log, from, Entry(t, op, e))
    ensures TakesEffectOnce(log, from, t, op, e)
  {
    var p :| from <= p < |log| && log[p] == Entry(t, op, e)
      && forall q :: from <= q < |log| && q != p ==> log[q].t != t;
    assert log[p].result == Returned(Replay(log[..p]), op);
  }
}
