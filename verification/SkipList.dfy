/** The global-lock skiplist of datastruct/skiplist/skiplist_glock.c and
    datastruct/skiplist/skiplist.h, used under its lock.  Keys are integers and sl_cmp compares
    them; random tower heights are parameters.
 */
module SkipList {

  const SL_MAX_LEVELS: nat := 8

  class Node {
    const key: int
    var toplevel: nat
    var deleted: bool
    var next: seq<Node?>

    constructor (key: int)
      ensures this.key == key && |next| == SL_MAX_LEVELS
    {
      this.key := key;
      toplevel := 0;
      deleted := false;
      next := seq(SL_MAX_LEVELS, _ => null);
    }
  }

  // ----- towers, as heights in list order; position 0 is the header

  /** The first position from j on whose tower reaches level l, |tops| if there is none. */
  function NextAt(tops: seq<nat>, j: nat, l: nat): (n: nat)
    requires j <= |tops|
    ensures j <= n <= |tops| && (n < |tops| ==> tops[n] >= l) && forall k :: j <= k < n ==> tops[k] < l
    decreases |tops| - j
  {
    if j == |tops| || tops[j] >= l then j else NextAt(tops, j + 1, l)
  }

  lemma NextAtIs(tops: seq<nat>, j: nat, l: nat, n: nat)
    requires j <= n <= |tops| && (n < |tops| ==> tops[n] >= l) && forall k :: j <= k < n ==> tops[k] < l
    ensures NextAt(tops, j, l) == n
  {
  }

  function Inserted<T>(s: seq<T>, p: nat, x: T): seq<T>
    requires p <= |s|
  {
    s[..p] + [x] + s[p..]
  }

  function Without<T>(s: seq<T>, p: nat): seq<T>
    requires p < |s|
  {
    s[..p] + s[p + 1..]
  }

  /** Where position i of a list goes when one is inserted at p. */
  function Shift(i: nat, p: nat): nat { if i < p then i else i + 1 }

  lemma InsertedAt<T>(s: seq<T>, p: nat, x: T, i: nat)
    requires p <= |s| && i < |s|
    ensures Inserted(s, p, x)[Shift(i, p)] == s[i] && Inserted(s, p, x)[p] == x && |Inserted(s, p, x)| == |s| + 1
  {
  }

  lemma InsertedAll<T>(s: seq<T>, p: nat, x: T)
    requires p <= |s|
    ensures |Inserted(s, p, x)| == |s| + 1 && Inserted(s, p, x)[p] == x
    ensures forall k :: 0 <= k < p ==> Inserted(s, p, x)[k] == s[k]
    ensures forall k :: p < k <= |s| ==> Inserted(s, p, x)[k] == s[k - 1]
  {
  }

  /** A tower at p takes over the links that cross it, at the levels it reaches. */
  lemma InsertNext(tops: seq<nat>, p: nat, top: nat, l: nat, i: nat)
    requires p <= |tops| && i < |tops|
    ensures |Inserted(tops, p, top)| == |tops| + 1
    ensures NextAt(Inserted(tops, p, top), Shift(i, p) + 1, l) ==
      (var n := NextAt(tops, i + 1, l); if i < p <= n && top >= l then p else Shift(n, p))
  {
    hide Inserted;
    InsertedAll(tops, p, top);
    NextAtIs(Inserted(tops, p, top), Shift(i, p) + 1, l, var n := NextAt(tops, i + 1, l);
      if i < p <= n && top >= l then p else Shift(n, p));
  }

  /** The new tower's own links are those that crossed its place. */
  lemma InsertedNext(tops: seq<nat>, p: nat, top: nat, l: nat)
    requires p <= |tops|
    ensures |Inserted(tops, p, top)| == |tops| + 1 && NextAt(Inserted(tops, p, top), p + 1, l) == NextAt(tops, p, l) + 1
  {
    hide Inserted;
    InsertedAll(tops, p, top);
    NextAtIs(Inserted(tops, p, top), p + 1, l, NextAt(tops, p, l) + 1);
  }

  // ----- the list

  ghost predicate NodeIs(x: Node, top: nat, key: int)
    reads x
  {
    x.toplevel == top < SL_MAX_LEVELS && x.key == key && !x.deleted && |x.next| == SL_MAX_LEVELS
  }

  /** All that is not about links: nodes[0] is the header, the rest are the elements in
      ascending key order; tops and keys are their tower heights and keys. */
  ghost predicate ShapeOf(head: Node, nodes: seq<Node>, tops: seq<nat>, keys: seq<int>)
    reads nodes
  {
    1 <= |nodes| == |tops| == |keys| && nodes[0] == head && tops[0] == SL_MAX_LEVELS - 1
    && (forall i, j :: 0 <= i < j < |nodes| ==> nodes[i] != nodes[j])
    && (forall i, j :: 1 <= i < j < |nodes| ==> keys[i] < keys[j])
    && forall i :: 0 <= i < |nodes| ==> NodeIs(nodes[i], tops[i], keys[i])
  }

  class SkipList {
    const head: Node
    var locked: bool
    ghost var nodes: seq<Node>
    ghost var tops: seq<nat>
    ghost var keys: seq<int>

    ghost predicate Shape()
      reads `nodes, `tops, `keys, nodes
    {
      ShapeOf(head, nodes, tops, keys)
    }

    ghost predicate Valid()
      reads `nodes, `tops, `keys, nodes
    {
      Shape() && forall l :: 0 <= l < SL_MAX_LEVELS ==> LevelOk(nodes, tops, l)
    }

    /** skiplist_init on an element that becomes the header. */
    constructor (slp: Node)
      requires |slp.next| == SL_MAX_LEVELS
      modifies slp
      ensures Valid() && Keys() == [] && head == slp && nodes == [slp] && !locked
    {
      head := slp;
      locked := false;
      nodes := [slp];
      tops := [SL_MAX_LEVELS - 1];
      keys := [slp.key];
      new;
      slp.toplevel := SL_MAX_LEVELS - 1;
      slp.deleted := false;
      var i := 0;
      while i < SL_MAX_LEVELS
        invariant 0 <= i <= SL_MAX_LEVELS && head == slp && !locked && nodes == [slp] && tops == [SL_MAX_LEVELS - 1]
        invariant keys == [slp.key]
        invariant slp.toplevel == SL_MAX_LEVELS - 1 && !slp.deleted && |slp.next| == SL_MAX_LEVELS
        invariant forall l :: 0 <= l < i ==> slp.next[l] == null
      {
        slp.next := slp.next[i := null];
        i := i + 1;
      }
    }

    /** The abstract contents. */
    ghost function Keys(): seq<int>
      requires Shape()
      reads `nodes, `tops, `keys, nodes
    {
      keys[1..]
    }

    /** Position i is the last whose element is below the key, as far as level l shows. */
    ghost predicate Before(i: nat, key: int, l: nat)
      requires |nodes| == |tops| == |keys|
      reads `nodes, `tops, `keys
    {
      i < |nodes| && l <= tops[i] && (i == 0 || keys[i] < key)
        && (NextAt(tops, i + 1, l) == |nodes| || keys[NextAt(tops, i + 1, l)] >= key)
    }

    /** The inner loop of every search: along one level while the next element is below the
        key.  result keeps the outcome of the latest comparison, if there was one. */
    method Walk(from: Node, level: nat, key: int, result0: int, ghost i0: nat)
      returns (slp: Node, result: int, ghost i: nat)
      requires Valid() && level < SL_MAX_LEVELS && i0 < |nodes| && from == nodes[i0] && level <= tops[i0]
      requires i0 == 0 || keys[i0] < key
      ensures i0 <= i && Before(i, key, level) && slp == nodes[i]
      ensures NextAt(tops, i + 1, level) < |nodes| ==> result == Cmp(keys[NextAt(tops, i + 1, level)], key)
    {
      hide LevelOk, NodeIs, ShapeOf;
      slp, result, i := from, result0, i0;
      LinkAt(i, level);
      var next := slp.next[level];
      while next != null && Cmp(next.key, key) < 0
        invariant i0 <= i < |nodes| && slp == nodes[i] && level <= tops[i] && (i == 0 || keys[i] < key)
        invariant next == Target(nodes, tops, i, level)
        decreases |nodes| - i
      {
        result := -1;
        i := NextAt(tops, i + 1, level);
        LinkAt(i, level);
        slp := next;
        next := slp.next[level];
      }
      if next != null {
        LinkAt(NextAt(tops, i + 1, level), level);
        result := Cmp(next.key, key);
      }
    }

    lemma LinkAt(i: nat, level: nat)
      requires Valid() && level < SL_MAX_LEVELS && i < |nodes|
      ensures |nodes| == |tops| == |keys| && nodes[i].key == keys[i] && level < |nodes[i].next|
      ensures nodes[i].next[level] == Target(nodes, tops, i, level)
      ensures !nodes[i].deleted && nodes[i].toplevel == tops[i] < SL_MAX_LEVELS
    {
      assert NodeIs(nodes[i], tops[i], keys[i]) && LevelOk(nodes, tops, level);
    }

    /** skiplist_lookup_help: the element preceding the key's place. */
    method LookupHelp(key: int) returns (slp: Node, ghost i: nat)
      requires Valid()
      ensures Before(i, key, 0) && slp == nodes[i]
    {
      slp, i := head, 0;
      var result := 0;
      var level: nat := SL_MAX_LEVELS;
      while level > 0
        invariant level <= SL_MAX_LEVELS && i < |nodes| && slp == nodes[i] && (i == 0 || keys[i] < key)
        invariant level > 0 ==> level - 1 <= tops[i]
        invariant level <= SL_MAX_LEVELS - 1 ==> Before(i, key, level)
      {
        level := level - 1;
        slp, result, i := Walk(slp, level, key, result, i);
      }
    }

    /** The predecessor search of skiplist_insert. */
    method FindPredecessors(key: int, toplevel: nat, update: array<Node?>)
      returns (slp: Node, ghost i: nat, ghost preds: seq<nat>)
      requires Valid() && update.Length == SL_MAX_LEVELS
      modifies update
      ensures Before(i, key, 0) && slp == nodes[i] && |preds| == SL_MAX_LEVELS
      ensures forall l :: 0 <= l < SL_MAX_LEVELS ==>
        Before(preds[l], key, l) && update[l] == if l > toplevel then null else nodes[preds[l]]
    {
      hide LevelOk, NodeIs, ShapeOf, NextAt;
      HeadReaches();
      slp, i := head, 0;
      preds := seq(SL_MAX_LEVELS, _ => 0);
      var result := 0;
      var level: nat := SL_MAX_LEVELS;
      while level > 0
        invariant level <= SL_MAX_LEVELS && i < |nodes| && slp == nodes[i] && (i == 0 || keys[i] < key)
        invariant level > 0 ==> level - 1 <= tops[i]
        invariant level <= SL_MAX_LEVELS - 1 ==> Before(i, key, level)
        invariant |preds| == SL_MAX_LEVELS
        invariant forall l :: level <= l < SL_MAX_LEVELS ==>
          Before(preds[l], key, l) && update[l] == if l > toplevel then null else nodes[preds[l]]
      {
        level := level - 1;
        slp, result, i := Walk(slp, level, key, result, i);
        preds := preds[level := i];
        update[level] := if level > toplevel then null else slp;
      }
    }

    lemma KeysAscend()
      requires Shape()
      ensures forall i, j :: 1 <= i < j < |keys| ==> keys[i] < keys[j]
    {
    }

    lemma HeadReaches()
      requires Valid()
      ensures 1 <= |nodes| == |tops| == |keys| && nodes[0] == head && tops[0] == SL_MAX_LEVELS - 1
    {
    }

    /** All that Insert needs to know about the position it found. */
    lemma PlacesFit(key: int, i: nat, l: nat, il: nat)
      requires Shape() && Before(i, key, 0) && Before(il, key, l) && (i + 1 == |nodes| || keys[i + 1] != key)
      ensures LastBefore(tops, i + 1, l, il) && |nodes| == |tops|
    {
      NextAtIs(tops, i + 1, 0, i + 1);
    }

    /** skiplist_insert: fails exactly on a duplicate, and otherwise adds the element, with a
        tower of the given height, at its place.  None of the BUG_ONs can trigger. */
    method Insert(new_slp: Node, key: int, toplevel: nat) returns (ok: bool, ghost p: nat)
      requires Valid() && !locked && new_slp !in nodes && new_slp.key == key && |new_slp.next| == SL_MAX_LEVELS
      requires toplevel < SL_MAX_LEVELS
      modifies this, nodes, new_slp
      ensures Valid() && !locked
      ensures ok <==> key !in old(Keys())
      ensures !ok ==> nodes == old(nodes) && tops == old(tops) && keys == old(keys)
      ensures ok ==>
        1 <= p <= old(|nodes|) && nodes == Inserted(old(nodes), p, new_slp) && tops == Inserted(old(tops), p, toplevel)
        && keys == Inserted(old(keys), p, key)
      ensures ok ==> KeySet(keys) == KeySet(old(keys)) + {key}
    {
      hide LevelOk, NodeIs, ShapeOf, NextAt, Before, Target, LastBefore, Inserted, KeySet;
      var update := new Node?[SL_MAX_LEVELS];
      locked := true;
      var slp, i, preds := FindPredecessors(key, toplevel, update);
      PlaceOf(key, i);
      LinkAt(i, 0);
      slp := slp.next[0];
      if slp != null && Cmp(slp.key, key) == 0 {
        LinkAt(i + 1, 0);
        locked := false;
        ok, p := false, 0;
        return;
      }
      if slp != null { LinkAt(i + 1, 0); }
      ok, p := true, i + 1;
      InsertNode(new_slp, key, toplevel, update, p, preds);
      InsertAddsKey(old(keys), p, key);
      locked := false;
    }

    /** The second half of skiplist_insert: fill in the new element and link it level by level. */
    method InsertNode(new_slp: Node, key: int, toplevel: nat, update: array<Node?>, ghost p: nat, ghost preds: seq<nat>)
      requires Valid() && new_slp !in nodes && new_slp.key == key && |new_slp.next| == SL_MAX_LEVELS
      requires toplevel < SL_MAX_LEVELS
      requires update.Length == SL_MAX_LEVELS == |preds| && 1 <= p <= |nodes| && Before(p - 1, key, 0)
      requires p == |nodes| || keys[p] != key
      requires forall l :: 0 <= l < SL_MAX_LEVELS ==>
        Before(preds[l], key, l) && update[l] == if l > toplevel then null else nodes[preds[l]]
      modifies this, nodes, new_slp
      ensures Valid() && locked == old(locked)
      ensures nodes == Inserted(old(nodes), p, new_slp) && tops == Inserted(old(tops), p, toplevel)
      ensures keys == Inserted(old(keys), p, key)
    {
      hide LevelOk, NodeIs, ShapeOf, NextAt, Before, Target, LastBefore, Inserted;
      new_slp.toplevel := toplevel;
      new_slp.deleted := false;
      ClearAbove(new_slp, toplevel);
      assert Valid();
      ShapeFacts();
      ghost var ns', ts' := Inserted(nodes, p, new_slp), Inserted(tops, p, toplevel);
      InsertedTop(nodes, p, new_slp);
      InsertedTop(tops, p, toplevel);
      var level := 0;
      while level <= toplevel
        invariant level <= toplevel + 1 && Shape() && locked == old(locked)
        invariant nodes == old(nodes) && tops == old(tops) && keys == old(keys)
        invariant new_slp.toplevel == toplevel && !new_slp.deleted && |new_slp.next| == SL_MAX_LEVELS
        invariant forall l :: toplevel < l < SL_MAX_LEVELS ==> new_slp.next[l] == null
        invariant forall l :: 0 <= l < level ==> LevelOk(ns', ts', l)
        invariant forall l :: level <= l < SL_MAX_LEVELS ==> LevelOk(nodes, tops, l)
      {
        PlacesFit(key, p - 1, level, preds[level]);
        BeforeFits(preds[level], key, level);
        assert update[level].toplevel >= level;
        LinkOne(update[level], new_slp, level, p, toplevel, preds[level]);
        level := level + 1;
      }
      ghost var was := nodes;
      forall l | toplevel < l < SL_MAX_LEVELS
        ensures LevelOk(ns', ts', l)
      {
        PlacesFit(key, p - 1, l, preds[l]);
        UnreachedLevel(nodes, tops, new_slp, l, p, toplevel, preds[l]);
      }
      assert NodeIs(new_slp, toplevel, key) by { FilledIn(new_slp, toplevel, key); }
      InsertedShape(new_slp, key, toplevel, p);
      nodes, tops, keys := ns', ts', Inserted(keys, p, key);
      assert Shape();
    }

    method LinkOne(upd: Node, x: Node, l: nat, ghost p: nat, ghost top: nat, ghost il: nat)
      requires Shape() && LevelOk(nodes, tops, l) && LastBefore(tops, p, l, il) && l <= top < SL_MAX_LEVELS
      requires il < |nodes| && upd == nodes[il] && x !in nodes && |x.next| == SL_MAX_LEVELS
      modifies upd`next, x`next
      ensures Shape() && p <= |nodes| == |tops| && |Inserted(nodes, p, x)| == |Inserted(tops, p, top)|
      ensures LevelOk(Inserted(nodes, p, x), Inserted(tops, p, top), l)
      ensures |x.next| == SL_MAX_LEVELS && forall m :: 0 <= m < SL_MAX_LEVELS && m != l ==> x.next[m] == old(x.next[m])
      ensures forall m :: 0 <= m < SL_MAX_LEVELS && m != l && old(LevelOk(nodes, tops, m)) ==> LevelOk(nodes, tops, m)
      ensures forall m ::
        0 <= m < SL_MAX_LEVELS && m != l && old(LevelOk(Inserted(nodes, p, x), Inserted(tops, p, top), m)) ==>
          LevelOk(Inserted(nodes, p, x), Inserted(tops, p, top), m)
    {
      hide LevelOk, NextAt, Target, LastBefore, Inserted;
      LastBeforeFits(tops, p, l, il);
      InsertedTop(nodes, p, x);
      InsertedTop(tops, p, top);
      assert forall i :: 0 <= i < |nodes| ==> NodeIs(nodes[i], tops[i], keys[i]);
      LinkLevel(upd, x, l, nodes, tops, p, top, il);
      assert forall i :: 0 <= i < |nodes| ==> NodeIs(nodes[i], tops[i], keys[i]);
    }

    /** The ghost lists with the new element still make sense. */
    lemma InsertedShape(x: Node, key: int, top: nat, p: nat)
      requires Shape() && x !in nodes && NodeIs(x, top, key)
      requires 1 <= p <= |nodes| && Before(p - 1, key, 0) && (p == |nodes| || keys[p] != key)
      ensures ShapeOf(head, Inserted(nodes, p, x), Inserted(tops, p, top), Inserted(keys, p, key))
    {
      hide Inserted, NextAt, NodeIs;
      NextAtIs(tops, p, 0, p);
      InsertedAll(nodes, p, x);
      InsertedAll(tops, p, top);
      InsertedAscending(keys, p, key);
      InsertedDistinct(nodes, p, x);
    }

    method ClearAbove(new_slp: Node, toplevel: nat)
      requires |new_slp.next| == SL_MAX_LEVELS && toplevel < SL_MAX_LEVELS
      modifies new_slp`next
      ensures |new_slp.next| == SL_MAX_LEVELS && forall l :: toplevel < l < SL_MAX_LEVELS ==> new_slp.next[l] == null
    {
      var level := toplevel + 1;
      while level < SL_MAX_LEVELS
        invariant toplevel < level <= SL_MAX_LEVELS && |new_slp.next| == SL_MAX_LEVELS
        invariant forall l :: toplevel < l < level ==> new_slp.next[l] == null
      {
        new_slp.next := new_slp.next[level := null];
        level := level + 1;
      }
    }

    lemma ShapeFacts()
      requires Shape()
      ensures 1 <= |nodes| == |tops| == |keys| && forall i, j :: 0 <= i < j < |nodes| ==> nodes[i] != nodes[j]
    {
    }

    lemma BeforeFits(i: nat, key: int, l: nat)
      requires Shape() && Before(i, key, l)
      ensures i < |nodes| && nodes[i].toplevel >= l
    {
      assert NodeIs(nodes[i], tops[i], keys[i]);
    }

    /** The predecessor search of skiplist_delete, which keeps a predecessor only where the
        latest comparison, possibly one made on a higher level, found the key. */
    method FindUnlinks(key: int, update: array<Node?>) returns (slp: Node, ghost i: nat, ghost preds: seq<nat>)
      requires Valid() && update.Length == SL_MAX_LEVELS
      modifies update
      ensures Before(i, key, 0) && slp == nodes[i] && |preds| == SL_MAX_LEVELS
      ensures forall l :: 0 <= l < SL_MAX_LEVELS ==> UnlinkOk(key, l, preds[l], update[l])
    {
      hide LevelOk, NodeIs, ShapeOf, NextAt;
      HeadReaches();
      slp, i := head, 0;
      preds := seq(SL_MAX_LEVELS, _ => 0);
      var result := 0;
      var level: nat := SL_MAX_LEVELS;
      while level > 0
        invariant level <= SL_MAX_LEVELS && i < |nodes| && slp == nodes[i] && (i == 0 || keys[i] < key)
        invariant level > 0 ==> level - 1 <= tops[i]
        invariant level <= SL_MAX_LEVELS - 1 ==> Before(i, key, level)
        invariant |preds| == SL_MAX_LEVELS
        invariant forall l :: level <= l < SL_MAX_LEVELS ==> UnlinkOk(key, l, preds[l], update[l])
      {
        level := level - 1;
        slp, result, i := Walk(slp, level, key, result, i);
        preds := preds[level := i];
        update[level] := if result != 0 then null else slp;
      }
    }

    /** Wherever the level links the key's element, its predecessor there was kept. */
    ghost predicate UnlinkOk(key: int, l: nat, il: nat, upd: Node?)
      requires |nodes| == |tops| == |keys|
      reads `nodes, `tops, `keys
    {
      Before(il, key, l) && (upd == null || upd == nodes[il])
      && (NextAt(tops, il + 1, l) < |nodes| && keys[NextAt(tops, il + 1, l)] == key ==> upd == nodes[il])
    }

    /** What the search of skiplist_delete found, once the key turns out to be at p. */
    lemma UnlinkFits(key: int, p: nat, l: nat, il: nat, upd: Node?)
      requires Shape() && 1 <= p < |nodes| && keys[p] == key && UnlinkOk(key, l, il, upd)
      ensures il < p && LastBefore(Without(tops, p), p, l, il) && Without(nodes, p)[il] == nodes[il]
      ensures l <= tops[p] ==> upd == nodes[il]
    {
      hide NodeIs, Without;
      WithoutAll(tops, p);
      WithoutAll(nodes, p);
      CrossingAt(key, p, l, il);
      NextFrom(tops, Without(tops, p), il + 1, l, p);
    }

    /** The first element at or above a present key, on a level it reaches, is the key's. */
    lemma CrossingAt(key: int, p: nat, l: nat, il: nat)
      requires Shape() && 1 <= p < |nodes| && keys[p] == key && Before(il, key, l)
      ensures il < p <= NextAt(tops, il + 1, l) && (l <= tops[p] ==> NextAt(tops, il + 1, l) == p)
    {
      hide NodeIs;
    }

    /** skiplist_delete: unlinks and returns the element with the key, at every level it
        reaches, and fails exactly if there is none.  None of the BUG_ONs can trigger. */
    method Delete(key: int) returns (slp: Node?, ghost p: nat)
      requires Valid() && !locked
      modifies this, nodes
      ensures Valid() && !locked
      ensures slp == null <==> key !in old(Keys())
      ensures slp == null ==> nodes == old(nodes) && tops == old(tops) && keys == old(keys)
      ensures slp != null ==> 1 <= p < old(|nodes|) && slp == old(nodes[p]) && slp.key == key && slp.deleted
      ensures slp != null ==>
        nodes == Without(old(nodes), p) && tops == Without(old(tops), p) && keys == Without(old(keys), p)
      ensures slp != null ==> KeySet(keys) == KeySet(old(keys)) - {key}
    {
      hide LevelOk, NodeIs, ShapeOf, NextAt, Before, Target, LastBefore, UnlinkOk, Without, KeySet;
      var update := new Node?[SL_MAX_LEVELS];
      locked := true;
      var prev, i, preds := FindUnlinks(key, update);
      PlaceOf(key, i);
      LinkAt(i, 0);
      slp := prev.next[0];
      p := i + 1;
      if slp != null { LinkAt(i + 1, 0); }
      if slp == null || Cmp(slp.key, key) != 0 {
        locked := false;
        slp := null;
        return;
      }
      KeysAscend();
      DeleteRemovesKey(keys, p);
      UnlinkNode(slp, key, update, p, preds);
      locked := false;
    }

    /** The second half of skiplist_delete. */
    method UnlinkNode(slp: Node, key: int, update: array<Node?>, ghost p: nat, ghost preds: seq<nat>)
      requires Valid() && 1 <= p < |nodes| && slp == nodes[p] && keys[p] == key
      requires update.Length == SL_MAX_LEVELS == |preds|
      requires forall l :: 0 <= l < SL_MAX_LEVELS ==> UnlinkOk(key, l, preds[l], update[l])
      modifies this, nodes
      ensures Valid() && locked == old(locked) && slp.deleted
      ensures nodes == Without(old(nodes), p) && tops == Without(old(tops), p) && keys == Without(old(keys), p)
    {
      hide LevelOk, NodeIs, ShapeOf, NextAt, Before, Target, LastBefore, UnlinkOk, Without;
      LinkAt(p, 0);
      ShapeFacts();
      WithoutAll(nodes, p);
      WithoutAll(tops, p);
      ghost var ns', ts' := Without(nodes, p), Without(tops, p);
      forall l | slp.toplevel < l < SL_MAX_LEVELS
        ensures LevelOk(ns', ts', l)
      {
        UnlinkFits(key, p, l, preds[l], update[l]);
        UncrossedLevel(nodes, tops, l, p, preds[l]);
      }
      var level: int := slp.toplevel;
      while level >= 0
        invariant nodes == old(nodes) && tops == old(tops) && keys == old(keys)
        invariant -1 <= level <= slp.toplevel == tops[p] < SL_MAX_LEVELS && Shape() && locked == old(locked)
        invariant forall l :: level < l < SL_MAX_LEVELS ==> LevelOk(ns', ts', l)
        invariant forall l :: 0 <= l <= level ==> LevelOk(nodes, tops, l)
      {
        UnlinkFits(key, p, level, preds[level], update[level]);
        assert update[level] != null;
        UnlinkOne(update[level], slp, level, p, preds[level]);
        level := level - 1;
      }
      WithoutShape(p);
      nodes, tops, keys := ns', ts', Without(keys, p);
      assert !slp.deleted;
      assert slp !in nodes;
      slp.deleted := true;
    }

    method UnlinkOne(upd: Node, x: Node, l: nat, ghost p: nat, ghost il: nat)
      requires Shape() && 1 <= p < |nodes| && x == nodes[p] && il < p && upd == nodes[il] && l <= tops[p]
      requires LevelOk(nodes, tops, l)
      requires LastBefore(Without(tops, p), p, l, il)
      modifies upd`next
      ensures Shape() && |Without(nodes, p)| == |Without(tops, p)| && LevelOk(Without(nodes, p), Without(tops, p), l)
      ensures forall m :: 0 <= m < SL_MAX_LEVELS && m != l && old(LevelOk(nodes, tops, m)) ==> LevelOk(nodes, tops, m)
      ensures forall m :: 0 <= m < SL_MAX_LEVELS && m != l && old(LevelOk(Without(nodes, p), Without(tops, p), m)) ==>
        LevelOk(Without(nodes, p), Without(tops, p), m)
    {
      hide LevelOk, NextAt, Target, LastBefore, Without;
      WithoutAll(nodes, p);
      WithoutAll(tops, p);
      assert forall i :: 0 <= i < |nodes| ==> NodeIs(nodes[i], tops[i], keys[i]);
      UnlinkLevel(upd, x, l, nodes, tops, p, il);
      assert forall i :: 0 <= i < |nodes| ==> NodeIs(nodes[i], tops[i], keys[i]);
    }

    lemma WithoutShape(p: nat)
      requires Shape() && 1 <= p < |nodes|
      ensures ShapeOf(head, Without(nodes, p), Without(tops, p), Without(keys, p)) && nodes[p] !in Without(nodes, p)
      ensures !nodes[p].deleted
    {
      hide Without;
      WithoutAll(nodes, p);
      WithoutAll(tops, p);
      WithoutAll(keys, p);
      assert NodeIs(nodes[p], tops[p], keys[p]);
    }

    /** Inserting an absent key and deleting it again gives the same element back and restores
        the list: its elements, their heights and keys, and every link on every level. */
    method InsertThenDelete(new_slp: Node, key: int, toplevel: nat) returns (slp: Node?)
      requires Valid() && !locked && key !in Keys()
      requires new_slp !in nodes && new_slp.key == key && |new_slp.next| == SL_MAX_LEVELS && toplevel < SL_MAX_LEVELS
      modifies this, nodes, new_slp
      ensures Valid() && !locked && slp == new_slp && slp.deleted
      ensures nodes == old(nodes) && tops == old(tops) && keys == old(keys)
      ensures forall x :: x in nodes ==> x.next == old(x.next)
    {
      hide LevelOk, NodeIs, ShapeOf, NextAt, Before, Target, LastBefore, UnlinkOk, Inserted, Without, KeySet;
      LinksAre();
      ShapeFacts();
      var ok, p := Insert(new_slp, key, toplevel);
      WithoutInserted(old(nodes), p, new_slp);
      WithoutInserted(old(tops), p, toplevel);
      WithoutInserted(old(keys), p, key);
      InsertedAll(old(nodes), p, new_slp);
      InsertedAll(old(keys), p, key);
      KeysAscend();
      KeysMatch();
      ghost var nodes', keys' := nodes, keys;
      assert keys[1..][p - 1] == key;
      ghost var q;
      slp, q := Delete(key);
      assert keys'[q] == nodes'[q].key == key;
      assert p == q;
      LinksAre();
    }

    lemma KeysMatch()
      requires Shape()
      ensures |nodes| == |keys| && forall i :: 0 <= i < |nodes| ==> nodes[i].key == keys[i]
    {
      assert forall i :: 0 <= i < |nodes| ==> NodeIs(nodes[i], tops[i], keys[i]);
    }

    /** The links of a valid list are determined by the order and heights of its elements. */
    lemma LinksAre()
      requires Valid()
      ensures |nodes| == |tops|
      ensures forall i :: 0 <= i < |nodes| ==> nodes[i].next == LinksOf(nodes, tops, i)
    {
      hide Target, NextAt;
      forall i | 0 <= i < |nodes|
        ensures nodes[i].next == LinksOf(nodes, tops, i)
      {
        assert NodeIs(nodes[i], tops[i], keys[i]);
        forall l | 0 <= l < SL_MAX_LEVELS
          ensures nodes[i].next[l] == Target(nodes, tops, i, l)
        {
          assert LevelOk(nodes, tops, l);
        }
      }
    }

    /** skiplist_fsck_one: no assertion of the code's own check can fail on a valid list. */
    method FsckOne(first: Node, ghost i: nat) returns (ok: bool)
      requires Valid() && i < |nodes| && first == nodes[i]
      ensures ok
    {
      hide LevelOk, NodeIs, ShapeOf, NextAt;
      LinkAt(i, 0);
      NextAtIs(tops, i + 1, 0, i + 1);
      var slp := first.next[0];
      ghost var j := i + 1;
      var l := 1;
      while l <= first.toplevel
        invariant 1 <= l <= first.toplevel + 1 && first.toplevel == tops[i] < SL_MAX_LEVELS
        invariant i < j <= |nodes| && slp == (if j < |nodes| then nodes[j] else null) && j <= NextAt(tops, i + 1, l)
      {
        ok, slp, j := FsckLevel(first, slp, l, i, j);
        if !ok { return; }
        NextLevelUp(i, l);
        l := l + 1;
      }
      while l < SL_MAX_LEVELS
        invariant first.toplevel < l <= SL_MAX_LEVELS
      {
        LinkAt(i, l);
        if first.next[l] != null { return false; }
        l := l + 1;
      }
      ok := true;
    }

    /** Along level 0 to the element that level l links first to, which is tall enough. */
    method FsckLevel(first: Node, slp0: Node?, l: nat, ghost i: nat, ghost j0: nat)
      returns (ok: bool, slp: Node?, ghost j: nat)
      requires Valid() && i < |nodes| && first == nodes[i] && l < SL_MAX_LEVELS && l <= tops[i]
      requires i < j0 <= |nodes| && j0 <= NextAt(tops, i + 1, l) && slp0 == if j0 < |nodes| then nodes[j0] else null
      ensures ok && i < j <= |nodes| && j == NextAt(tops, i + 1, l) && slp == if j < |nodes| then nodes[j] else null
    {
      hide LevelOk, NodeIs, ShapeOf, NextAt;
      slp, j := slp0, j0;
      LinkAt(i, l);
      while slp != first.next[l]
        invariant i < j <= NextAt(tops, i + 1, l) && j <= |nodes| && slp == if j < |nodes| then nodes[j] else null
        decreases |nodes| - j
      {
        if slp == null { ok := false; return; }
        LinkAt(j, 0);
        NextAtIs(tops, j + 1, 0, j + 1);
        slp := slp.next[0];
        j := j + 1;
      }
      ok := true;
      if slp != null {
        Same(j, NextAt(tops, i + 1, l));
        LinkAt(j, 0);
        ok := slp.toplevel >= l;
      }
    }

    lemma Same(j: nat, n: nat)
      requires Shape() && j < |nodes| && n < |nodes| && nodes[j] == nodes[n]
      ensures j == n
    {
      hide NodeIs;
    }

    lemma NextLevelUp(i: nat, l: nat)
      requires |tops| == |nodes| && i < |nodes|
      ensures NextAt(tops, i + 1, l) <= NextAt(tops, i + 1, l + 1)
    {
    }

    /** skiplist_lookup_lock: exact, and holds the lock exactly on success. */
    method LookupLock(key: int) returns (found: Node?)
      requires Valid() && !locked
      modifies this`locked
      ensures Valid() && locked == (found != null)
      ensures found == null <==> key !in Keys()
      ensures found != null ==> found in nodes[1..] && found.key == key && !found.deleted
    {
      hide LevelOk, NodeIs, ShapeOf, Before, NextAt;
      locked := true;
      var slp_prev, i := LookupHelp(key);
      PlaceOf(key, i);
      LinkAt(i, 0);
      found := slp_prev.next[0];
      if found != null {
        LinkAt(i + 1, 0);
        if !found.deleted && Cmp(found.key, key) == 0 {
          assert found == nodes[1..][i];
          return;
        }
      }
      found := null;
      locked := false;
    }

    /** The key is present exactly if the element after its place has it. */
    lemma PlaceOf(key: int, i: nat)
      requires Shape() && Before(i, key, 0)
      ensures i < |nodes| == |tops| == |keys| && (key in Keys() <==> i + 1 < |nodes| && keys[i + 1] == key)
      ensures Target(nodes, tops, i, 0) == if i + 1 < |nodes| then nodes[i + 1] else null
    {
      NextAtIs(tops, i + 1, 0, i + 1);
      if i + 1 < |nodes| && keys[i + 1] == key { assert keys[1..][i] == key; }
      if key in Keys() {
        var k :| 0 <= k < |keys[1..]| && keys[1..][k] == key;
        assert keys[k + 1] == key;
      }
    }
  }

  /** sl_cmp. */
  function Cmp(a: int, b: int): int { if a < b then -1 else if a == b then 0 else 1 }

  /** Level l links exactly the nodes whose towers reach it, in order. */
  ghost predicate LevelOk(nodes: seq<Node>, tops: seq<nat>, l: nat)
    requires |nodes| == |tops|
    reads nodes
  {
    forall i :: 0 <= i < |nodes| ==> l < |nodes[i].next| && nodes[i].next[l] == Target(nodes, tops, i, l)
  }

  ghost function Target(nodes: seq<Node>, tops: seq<nat>, i: nat, l: nat): Node?
    requires i < |nodes| == |tops|
  {
    var n := NextAt(tops, i + 1, l);
    if l <= tops[i] && n < |nodes| then nodes[n] else null
  }

  ghost function LinksOf(nodes: seq<Node>, tops: seq<nat>, i: nat): seq<Node?>
    requires i < |nodes| == |tops|
  {
    seq(SL_MAX_LEVELS, l requires 0 <= l < SL_MAX_LEVELS => Target(nodes, tops, i, l))
  }

  // ----- what inserting does to one level

  /** il is the last position before p whose tower reaches level l. */
  ghost predicate LastBefore(tops: seq<nat>, p: nat, l: nat, il: nat) {
    il < p <= |tops| && l <= tops[il] && NextAt(tops, il + 1, l) >= p
  }

  lemma InsertTarget(nodes: seq<Node>, tops: seq<nat>, p: nat, x: Node, top: nat, l: nat, il: nat, i: nat)
    requires |nodes| == |tops| && i < |nodes| && LastBefore(tops, p, l, il)
    ensures |Inserted(nodes, p, x)| == |Inserted(tops, p, top)| == |nodes| + 1 && Shift(i, p) <= |nodes|
    ensures Target(Inserted(nodes, p, x), Inserted(tops, p, top), Shift(i, p), l) == if i == il
      && l <= top then x else Target(nodes, tops, i, l)
  {
    hide Inserted;
    InsertNext(tops, p, top, l, i);
    InsertedAt(tops, p, top, i);
    InsertedAt(nodes, p, x, i);
    var n := NextAt(tops, i + 1, l);
    if n < |nodes| { InsertedAt(nodes, p, x, n); }
  }

  lemma InsertTargetNew(nodes: seq<Node>, tops: seq<nat>, p: nat, x: Node, top: nat, l: nat, il: nat)
    requires |nodes| == |tops| && LastBefore(tops, p, l, il)
    ensures |Inserted(nodes, p, x)| == |Inserted(tops, p, top)| == |nodes| + 1
    ensures Target(Inserted(nodes, p, x), Inserted(tops, p, top), p, l) == if l <= top then Target(nodes, tops, il, l)
      else null
  {
    hide Inserted;
    InsertedNext(tops, p, top, l);
    InsertedAll(tops, p, top);
    InsertedAt(nodes, p, x, 0);
    var n := NextAt(tops, il + 1, l);
    NextAtIs(tops, p, l, n);
    if n < |nodes| { InsertedAt(nodes, p, x, n); }
  }

  /** One round of the linking loop: the new element goes between update[level] and what that
      was linked to. */
  method LinkLevel(upd: Node, x: Node, l: nat, ghost nodes: seq<Node>, ghost tops: seq<nat>, ghost p: nat,
      ghost top: nat, ghost il: nat)
    requires |nodes| == |tops| && LevelOk(nodes, tops, l) && LastBefore(tops, p, l, il) && l <= top && upd == nodes[il]
    requires x !in nodes
    requires |x.next| == SL_MAX_LEVELS && l < SL_MAX_LEVELS
    requires forall i :: 0 <= i < |nodes| ==> |nodes[i].next| == SL_MAX_LEVELS
    requires forall i, j :: 0 <= i < j < |nodes| ==> nodes[i] != nodes[j]
    modifies upd`next, x`next
    ensures |Inserted(nodes, p, x)| == |Inserted(tops, p, top)|
    ensures LevelOk(Inserted(nodes, p, x), Inserted(tops, p, top), l)
    ensures |x.next| == |upd.next| == SL_MAX_LEVELS
    ensures forall m :: 0 <= m < SL_MAX_LEVELS && m != l ==> x.next[m] == old(x.next[m])
    ensures forall m :: 0 <= m < SL_MAX_LEVELS && m != l && old(LevelOk(nodes, tops, m)) ==> LevelOk(nodes, tops, m)
    ensures forall m ::
      0 <= m < SL_MAX_LEVELS && m != l && old(LevelOk(Inserted(nodes, p, x), Inserted(tops, p, top), m)) ==>
        LevelOk(Inserted(nodes, p, x), Inserted(tops, p, top), m)
  {
    hide Inserted, Target, LastBefore, NextAt;
    LastBeforeFits(tops, p, l, il);
    InsertedTop(nodes, p, x);
    InsertedTop(tops, p, top);
    x.next := x.next[l := upd.next[l]];
    upd.next := upd.next[l := x];
    LinkedLevel(nodes, tops, x, l, p, top, il);
  }

  lemma LinkedLevel(nodes: seq<Node>, tops: seq<nat>, x: Node, l: nat, p: nat, top: nat, il: nat)
    requires |nodes| == |tops| && LastBefore(tops, p, l, il) && l <= top && l < |x.next|
    requires x.next[l] == Target(nodes, tops, il, l)
    requires forall i :: 0 <= i < |nodes| ==>
      l < |nodes[i].next| && nodes[i].next[l] == if i == il then x else Target(nodes, tops, i, l)
    ensures |Inserted(nodes, p, x)| == |Inserted(tops, p, top)|
    ensures LevelOk(Inserted(nodes, p, x), Inserted(tops, p, top), l)
  {
    hide Inserted, Target, LastBefore;
    LastBeforeFits(tops, p, l, il);
    var nodes', tops' := Inserted(nodes, p, x), Inserted(tops, p, top);
    InsertTargetNew(nodes, tops, p, x, top, l, il);
    forall j | 0 <= j < |nodes'|
      ensures l < |nodes'[j].next| && nodes'[j].next[l] == Target(nodes', tops', j, l)
    {
      if j == p {
        InsertedTop(nodes, p, x);
      } else {
        var i := if j < p then j else j - 1;
        InsertTarget(nodes, tops, p, x, top, l, il, i);
        InsertedAt(nodes, p, x, i);
      }
    }
  }

  lemma LastBeforeFits(tops: seq<nat>, p: nat, l: nat, il: nat)
    requires LastBefore(tops, p, l, il)
    ensures il < p <= |tops|
  {
  }

  lemma InsertedTop<T>(s: seq<T>, p: nat, x: T)
    requires p <= |s|
    ensures |Inserted(s, p, x)| == |s| + 1 && Inserted(s, p, x)[p] == x
  {
  }

  /** A level the new tower does not reach is unchanged. */
  lemma UnreachedLevel(nodes: seq<Node>, tops: seq<nat>, x: Node, l: nat, p: nat, top: nat, il: nat)
    requires |nodes| == |tops| && LevelOk(nodes, tops, l) && LastBefore(tops, p, l, il) && l > top && l < |x.next|
    requires x.next[l] == null
    ensures |Inserted(nodes, p, x)| == |Inserted(tops, p, top)|
    ensures LevelOk(Inserted(nodes, p, x), Inserted(tops, p, top), l)
  {
    hide Inserted, Target, LastBefore;
    LastBeforeFits(tops, p, l, il);
    var nodes', tops' := Inserted(nodes, p, x), Inserted(tops, p, top);
    InsertTargetNew(nodes, tops, p, x, top, l, il);
    forall j | 0 <= j < |nodes'|
      ensures l < |nodes'[j].next| && nodes'[j].next[l] == Target(nodes', tops', j, l)
    {
      if j == p {
        InsertedTop(nodes, p, x);
      } else {
        var i := if j < p then j else j - 1;
        InsertTarget(nodes, tops, p, x, top, l, il, i);
        InsertedAt(nodes, p, x, i);
      }
    }
  }

  lemma FilledIn(x: Node, top: nat, key: int)
    requires x.toplevel == top < SL_MAX_LEVELS && x.key == key && !x.deleted && |x.next| == SL_MAX_LEVELS
    ensures NodeIs(x, top, key)
  {
  }

  lemma InsertedAscending(keys: seq<int>, p: nat, key: int)
    requires 1 <= p <= |keys| && (forall i, j :: 1 <= i < j < |keys| ==> keys[i] < keys[j])
    requires (p == 1 || keys[p - 1] < key) && (p == |keys| || key < keys[p])
    ensures |Inserted(keys, p, key)| == |keys| + 1 && Inserted(keys, p, key)[0] == keys[0]
    ensures Inserted(keys, p, key)[p] == key
    ensures forall k :: 0 <= k < p ==> Inserted(keys, p, key)[k] == keys[k]
    ensures forall k :: p < k <= |keys| ==> Inserted(keys, p, key)[k] == keys[k - 1]
    ensures forall i, j :: 1 <= i < j <= |keys| ==> Inserted(keys, p, key)[i] < Inserted(keys, p, key)[j]
  {
    hide Inserted;
    InsertedAll(keys, p, key);
    var k' := Inserted(keys, p, key);
    forall i, j | 1 <= i < j <= |keys|
      ensures k'[i] < k'[j]
    {
      if j == p {
        assert i == p - 1 || keys[i] < keys[p - 1];
      } else if i == p {
        assert j == p + 1 || keys[p] < keys[j - 1];
      }
    }
  }

  lemma InsertedDistinct<T>(s: seq<T>, p: nat, x: T)
    requires p <= |s| && x !in s && forall i, j :: 0 <= i < j < |s| ==> s[i] != s[j]
    ensures |Inserted(s, p, x)| == |s| + 1
    ensures forall i, j :: 0 <= i < j <= |s| ==> Inserted(s, p, x)[i] != Inserted(s, p, x)[j]
  {
    hide Inserted;
    InsertedAll(s, p, x);
  }

  // ----- what deleting does to one level

  lemma WithoutAll<T>(s: seq<T>, p: nat)
    requires p < |s|
    ensures |Without(s, p)| == |s| - 1 && Inserted(Without(s, p), p, s[p]) == s
    ensures forall k :: 0 <= k < p ==> Without(s, p)[k] == s[k]
    ensures forall k :: p <= k < |s| - 1 ==> Without(s, p)[k] == s[k + 1]
  {
  }

  /** A search that passes p in one list passes it in any list that agrees up to p. */
  lemma NextFrom(tops: seq<nat>, tops': seq<nat>, j: nat, l: nat, p: nat)
    requires j <= p <= |tops| && p <= |tops'| && NextAt(tops, j, l) >= p
    requires forall k :: 0 <= k < p ==> tops'[k] == tops[k]
    ensures NextAt(tops', j, l) >= p
  {
  }

  /** A level the deleted tower does not reach is unchanged. */
  lemma UncrossedLevel(nodes: seq<Node>, tops: seq<nat>, l: nat, p: nat, il: nat)
    requires p < |nodes| == |tops| && LevelOk(nodes, tops, l) && LastBefore(Without(tops, p), p, l, il) && l > tops[p]
    ensures |Without(nodes, p)| == |Without(tops, p)| && LevelOk(Without(nodes, p), Without(tops, p), l)
  {
    hide Inserted, Without, Target, LastBefore;
    WithoutAll(nodes, p);
    WithoutAll(tops, p);
    var nodes', tops' := Without(nodes, p), Without(tops, p);
    forall i | 0 <= i < |nodes'|
      ensures l < |nodes'[i].next| && nodes'[i].next[l] == Target(nodes', tops', i, l)
    {
      InsertTarget(nodes', tops', p, nodes[p], tops[p], l, il, i);
      assert nodes'[i] == nodes[Shift(i, p)];
    }
  }

  /** One round of the unlinking loop. */
  method UnlinkLevel(upd: Node, x: Node, l: nat, ghost nodes: seq<Node>, ghost tops: seq<nat>, ghost p: nat,
      ghost il: nat)
    requires il < p < |nodes| == |tops| && LevelOk(nodes, tops, l) && LastBefore(Without(tops, p), p, l, il)
    requires l <= tops[p] && upd == nodes[il] && x == nodes[p]
    requires l < SL_MAX_LEVELS && (forall i :: 0 <= i < |nodes| ==> |nodes[i].next| == SL_MAX_LEVELS)
    requires forall i, j :: 0 <= i < j < |nodes| ==> nodes[i] != nodes[j]
    modifies upd`next
    ensures |Without(nodes, p)| == |Without(tops, p)| && LevelOk(Without(nodes, p), Without(tops, p), l)
    ensures |upd.next| == SL_MAX_LEVELS
    ensures forall m :: 0 <= m < SL_MAX_LEVELS && m != l && old(LevelOk(nodes, tops, m)) ==> LevelOk(nodes, tops, m)
    ensures forall m :: 0 <= m < SL_MAX_LEVELS && m != l && old(LevelOk(Without(nodes, p), Without(tops, p), m)) ==>
      LevelOk(Without(nodes, p), Without(tops, p), m)
  {
    hide Inserted, Without, Target, LastBefore, NextAt;
    WithoutAll(nodes, p);
    WithoutAll(tops, p);
    ghost var nodes', tops' := Without(nodes, p), Without(tops, p);
    forall i | 0 <= i < |nodes'|
      ensures nodes'[i].next[l] == (if i == il then x else Target(nodes', tops', i, l))
      ensures x.next[l] == Target(nodes', tops', il, l)
    {
      InsertTarget(nodes', tops', p, x, tops[p], l, il, i);
      InsertTargetNew(nodes', tops', p, x, tops[p], l, il);
      assert nodes'[i] == nodes[Shift(i, p)];
    }
    upd.next := upd.next[l := x.next[l]];
  }

  // ----- the abstract key set

  ghost function KeySet(keys: seq<int>): set<int> { set k | 1 <= k < |keys| :: keys[k] }

  lemma InsertAddsKey(keys: seq<int>, p: nat, key: int)
    requires 1 <= p <= |keys|
    ensures KeySet(Inserted(keys, p, key)) == KeySet(keys) + {key}
  {
    hide Inserted;
    InsertedAll(keys, p, key);
    var k' := Inserted(keys, p, key);
    forall x | x in KeySet(keys) + {key}
      ensures x in KeySet(k')
    {
      var k := if x == key then p else var j :| 1 <= j < |keys| && keys[j] == x; Shift(j, p);
      assert k'[k] == x;
    }
  }

  lemma DeleteRemovesKey(keys: seq<int>, p: nat)
    requires 1 <= p < |keys| && forall i, j :: 1 <= i < j < |keys| ==> keys[i] < keys[j]
    ensures KeySet(Without(keys, p)) == KeySet(keys) - {keys[p]}
  {
    hide Without;
    WithoutAll(keys, p);
    var k' := Without(keys, p);
    forall x | x in KeySet(keys) - {keys[p]}
      ensures x in KeySet(k')
    {
      var j :| 1 <= j < |keys| && keys[j] == x;
      assert k'[if j < p then j else j - 1] == x;
    }
    forall x | x in KeySet(k')
      ensures x in KeySet(keys) && x != keys[p]
    {
      var j :| 1 <= j < |k'| && k'[j] == x;
      assert keys[Shift(j, p)] == x;
    }
  }

  /** Taking an element out again where it was put in. */
  lemma WithoutInserted<T>(s: seq<T>, p: nat, x: T)
    requires p <= |s|
    ensures p < |Inserted(s, p, x)| && Without(Inserted(s, p, x), p) == s
  {
    InsertedAll(s, p, x);
    assert Inserted(s, p, x)[..p] == s[..p] && Inserted(s, p, x)[p + 1..] == s[p..];
  }

  // ----- tower heights

  function TrailingOnes(r: nat): nat { if r % 2 == 0 then 0 else 1 + TrailingOnes(r / 2) }

  /** random_level on the random number r. */
  method RandomLevel(r: nat) returns (level: nat)
    ensures level < SL_MAX_LEVELS
    ensures level == if TrailingOnes(r) < SL_MAX_LEVELS then TrailingOnes(r) else SL_MAX_LEVELS - 1
  {
    var i := 0;
    var rest := r;
    while rest % 2 == 1
      invariant i + TrailingOnes(rest) == TrailingOnes(r)
      decreases rest
    {
      i := i + 1;
      rest := rest / 2;
    }
    level := if i >= SL_MAX_LEVELS then SL_MAX_LEVELS - 1 else i;
  }
}
