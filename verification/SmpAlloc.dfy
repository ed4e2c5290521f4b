/** The pool allocator of SMPdesign/smpalloc.c.  A thread touches only its own pool and, under
    the lock and at most once per call, the global one, so calls are taken as atomic.
 */
module SmpAlloc {
  import opened Common

  const TARGET_POOL_SIZE: nat := 3
  const GLOBAL_POOL_SIZE: nat := 40

  /** The memory blocks, by their index in memblocks[]. */
  ghost function {:induction false} Blocks(n: nat): (s: set<nat>)
    ensures |s| == n && forall b: nat :: b in s <==> b < n
  {
    if n == 0 then {} else Blocks(n - 1) + {n - 1}
  }

  lemma NoBlocks()
    ensures Blocks(0) == {}
  {
  }

  lemma BlocksLeft(n: nat, i: nat)
    requires i <= n
    ensures i < n ==> i in Blocks(n) - Blocks(i) && (Blocks(n) - Blocks(i)) - {i} == Blocks(n) - Blocks(i + 1)
    ensures i == n ==> Blocks(n) - Blocks(i) == {}
  {
  }

  /** What the threads' pools hold together. */
  ghost function Pooled(local: seq<seq<nat>>): multiset<nat> {
    if local == [] then multiset{} else multiset(local[0]) + Pooled(local[1..])
  }

  lemma {:induction false} PooledUpdate(local: seq<seq<nat>>, t: nat, x: seq<nat>)
    requires t < |local|
    ensures Pooled(local[t := x]) + multiset(local[t]) == Pooled(local) + multiset(x)
  {
    if t == 0 {
      assert local[0 := x][1..] == local[1..];
    } else {
      PooledUpdate(local[1..], t - 1, x);
      assert local[t := x][1..] == local[1..][t - 1 := x];
      Regroup(multiset(local[0]), Pooled(local[1..][t - 1 := x]), multiset(local[t]), Pooled(local[1..]), multiset(x));
    }
  }

  lemma Regroup(a: multiset<nat>, b: multiset<nat>, c: multiset<nat>, d: multiset<nat>, e: multiset<nat>)
    requires b + c == d + e
    ensures (a + b) + c == (a + d) + e
  {
    forall x: nat ensures ((a + b) + c)[x] == ((a + d) + e)[x] { assert (b + c)[x] == (d + e)[x]; }
  }

  lemma {:induction false} PooledHas(local: seq<seq<nat>>, t: nat)
    requires t < |local|
    ensures multiset(local[t]) <= Pooled(local)
  {
    if t > 0 { PooledHas(local[1..], t - 1); }
  }

  /** Every block is in exactly one place: the global pool, one thread's pool, or held. */
  ghost predicate EachOnce(global: seq<nat>, local: seq<seq<nat>>, held: set<nat>) {
    multiset(global) + Pooled(local) + multiset(held) == multiset(Blocks(GLOBAL_POOL_SIZE))
  }

  /** Conservation bounds the global pool by what is elsewhere. */
  lemma GlobalFits(global: seq<nat>, local: seq<seq<nat>>, held: set<nat>, t: nat)
    requires EachOnce(global, local, held) && t < |local|
    ensures |global| + |local[t]| + |held| <= GLOBAL_POOL_SIZE
  {
    PooledHas(local, t);
    var rest := Pooled(local) - multiset(local[t]);
    assert |multiset(Blocks(GLOBAL_POOL_SIZE))| == |Blocks(GLOBAL_POOL_SIZE)|;
    assert multiset(global) + (multiset(local[t]) + rest) + multiset(held) == multiset(Blocks(GLOBAL_POOL_SIZE));
    assert |multiset(global) + (multiset(local[t]) + rest) + multiset(held)| == |global| + |local[t]| + |rest| + |held|;
  }

  /** A pooled block is not held. */
  lemma PooledNotHeld(global: seq<nat>, local: seq<seq<nat>>, held: set<nat>, b: nat)
    requires EachOnce(global, local, held) && (multiset(global) + Pooled(local))[b] > 0
    ensures b !in held && b < GLOBAL_POOL_SIZE
  {
    assert multiset(Blocks(GLOBAL_POOL_SIZE))[b] <= 1;
    assert (multiset(global) + Pooled(local) + multiset(held))[b] == multiset(Blocks(GLOBAL_POOL_SIZE))[b];
  }

  /** Blocks move between a thread's pool and the rest: nothing is lost or duplicated. */
  lemma MoveOnce(global: seq<nat>, local: seq<seq<nat>>, held: set<nat>, t: nat, global': seq<nat>, pool: seq<nat>,
      held': set<nat>)
    requires EachOnce(global, local, held) && t < |local|
    requires multiset(global') + multiset(pool) + multiset(held') == multiset(global) + multiset(local[t])
      + multiset(held)
    ensures EachOnce(global', local[t := pool], held')
  {
    PooledUpdate(local, t, pool);
    var all, all' :=
      multiset(global) + Pooled(local) + multiset(held), multiset(global') + Pooled(local[t := pool]) + multiset(held');
    forall b: nat
      ensures all'[b] == all[b]
    {
      assert (Pooled(local[t := pool]) + multiset(local[t]))[b] == (Pooled(local) + multiset(pool))[b];
      assert (multiset(global') + multiset(pool) + multiset(held'))[b] == (multiset(global) + multiset(local[t])
        + multiset(held))[b];
    }
  }

  lemma PopOnce(global: seq<nat>, local: seq<seq<nat>>, held: set<nat>, t: nat, rest: seq<nat>, b: nat)
    requires EachOnce(global, local, held) && t < |local| && local[t] == rest + [b]
    ensures b !in held && b < GLOBAL_POOL_SIZE && EachOnce(global, local[t := rest], held + {b})
  {
    hide EachOnce, Pooled, Blocks;
    PooledHas(local, t);
    InLocal(rest, b);
    PooledNotHeld(global, local, held, b);
    MoveHeld(global, rest, held, b);
    MoveOnce(global, local, held, t, global, rest, held + {b});
  }

  lemma InLocal(rest: seq<nat>, b: nat)
    ensures multiset(rest + [b])[b] > 0
  {
  }

  lemma MoveHeld(global: seq<nat>, rest: seq<nat>, held: set<nat>, b: nat)
    requires b !in held
    ensures multiset(global) + multiset(rest) + multiset(held + {b}) == multiset(global) + multiset(rest + [b])
      + multiset(held)
  {
    assert multiset(held + {b}) == multiset(held) + multiset{b};
    assert multiset(rest + [b]) == multiset(rest) + multiset{b};
  }

  lemma PushOnce(global: seq<nat>, local: seq<seq<nat>>, held: set<nat>, t: nat, b: nat)
    requires EachOnce(global, local, held) && t < |local| && b in held
    ensures EachOnce(global, local[t := local[t] + [b]], held - {b})
  {
    assert multiset(held) == multiset(held - {b}) + multiset{b};
    MoveOnce(global, local, held, t, global, local[t] + [b], held - {b});
  }

  lemma RefillOnce(global: seq<nat>, local: seq<seq<nat>>, held: set<nat>, t: nat, n: nat)
    requires EachOnce(global, local, held) && t < |local| && local[t] == [] && n <= |global|
    ensures EachOnce(global[..|global| - n], local[t := TakeLast(global, n)], held)
  {
    TakeLastConserves(global, n);
    MoveOnce(global, local, held, t, global[..|global| - n], TakeLast(global, n), held);
  }

  lemma SpillOnce(global: seq<nat>, local: seq<seq<nat>>, held: set<nat>, t: nat, n: nat)
    requires EachOnce(global, local, held) && t < |local| && n <= |local[t]|
    ensures EachOnce(global + TakeLast(local[t], n), local[t := local[t][..|local[t]| - n]], held)
  {
    hide EachOnce, TakeLast;
    TakeLastConserves(local[t], n);
    var taken, rest := TakeLast(local[t], n), local[t][..|local[t]| - n];
    assert multiset(global + taken) == multiset(global) + multiset(taken);
    MoveOnce(global, local, held, t, global + taken, rest, held);
  }

  function Min(a: nat, b: nat): nat { if a < b then a else b }

  /** The last n blocks of a pool, last first. */
  function TakeLast(pool: seq<nat>, n: nat): (r: seq<nat>)
    requires n <= |pool|
    ensures |r| == n
  {
    if n == 0 then [] else TakeLast(pool, n - 1) + [pool[|pool| - n]]
  }

  lemma {:induction false} TakeLastConserves(pool: seq<nat>, n: nat)
    requires n <= |pool|
    ensures multiset(TakeLast(pool, n)) + multiset(pool[..|pool| - n]) == multiset(pool)
  {
    hide TakeLast;
    TakeLastStep(pool, n);
    if n == 0 {
      assert pool[..|pool|] == pool;
    } else {
      TakeLastConserves(pool, n - 1);
      TakeOver(TakeLast(pool, n - 1), pool[..|pool| - n], pool[|pool| - n]);
      LastKept(pool, n);
    }
  }

  lemma TakeLastStep(pool: seq<nat>, n: nat)
    requires n <= |pool|
    ensures TakeLast(pool, n) == if n == 0 then [] else TakeLast(pool, n - 1) + [pool[|pool| - n]]
  {
  }

  lemma LastKept(pool: seq<nat>, n: nat)
    requires 0 < n <= |pool|
    ensures pool[..|pool| - (n - 1)] == pool[..|pool| - n] + [pool[|pool| - n]]
  {
  }

  lemma TakeOver(taken: seq<nat>, rest: seq<nat>, x: nat)
    ensures multiset(taken + [x]) + multiset(rest) == multiset(taken) + multiset(rest + [x])
  {
  }

  /** A refill of up to TARGET_POOL_SIZE blocks, of which the last taken is handed out. */
  ghost predicate Refilled(global: seq<nat>, local: seq<seq<nat>>, t: nat, global': seq<nat>, local': seq<seq<nat>>,
      p: Option<nat>)
    requires global != [] && t < |local|
  {
    var n := Min(TARGET_POOL_SIZE, |global|);
    var taken := TakeLast(global, n);
    global' == global[..|global| - n] && local' == local[t := taken[..n - 1]] && p == Some(taken[n - 1])
  }

  function At(pool: seq<nat>, i: nat): Option<nat> { if i < |pool| then Some(pool[i]) else None }

  class Allocator {
    const perPool: array2<Option<nat>>
    const perCur: array<int>
    const pool: array<Option<nat>>
    var cur: int
    ghost var global: seq<nat>
    ghost var local: seq<seq<nat>>
    ghost var held: set<nat>

    /** The pool arrays hold their blocks at the bottom, and NULL above them. */
    ghost predicate Cells()
      reads `global, `local, perPool, pool
    {
      perPool.Length0 == |local| && perPool.Length1 == 2 * TARGET_POOL_SIZE && pool.Length == GLOBAL_POOL_SIZE
      && |global| <= GLOBAL_POOL_SIZE && (forall i :: 0 <= i < GLOBAL_POOL_SIZE ==> pool[i] == At(global, i))
      && forall t, j :: 0 <= t < |local| && 0 <= j < 2 * TARGET_POOL_SIZE ==> perPool[t, j] == At(local[t], j)
    }

    /** The indices point to the topmost blocks. */
    ghost predicate Shape()
      reads this, perPool, perCur, pool
    {
      Cells() && cur == |global| - 1 && perCur.Length == |local|
      && forall t :: 0 <= t < |local| ==> |local[t]| <= 2 * TARGET_POOL_SIZE && perCur[t] == |local[t]| - 1
    }

    ghost predicate Valid()
      reads this, perPool, perCur, pool
    {
      Shape() && EachOnce(global, local, held)
    }

    /** One pass of the refill loop: the topmost global block goes to position i of t's pool. */
    method TakeOne(t: nat, i: nat)
      requires Cells() && t < |local| && i == |local[t]| < 2 * TARGET_POOL_SIZE && global != [] && cur == |global| - 1
      modifies `cur, `global, `local, perPool, pool
      ensures Cells() && cur == old(cur) - 1 && global == old(global)[..old(|global|) - 1]
      ensures local == old(local)[t := old(local[t]) + [old(global)[old(|global|) - 1]]]
    {
      ghost var b := global[|global| - 1];
      perPool[t, i] := pool[cur];
      pool[cur] := None;
      cur := cur - 1;
      global := global[..|global| - 1];
      local := local[t := local[t] + [b]];
    }

    /** The refill loop of memblock_alloc. */
    method Refill(t: nat)
      requires Shape() && t < |local| && local[t] == []
      modifies this, perPool, perCur, pool
      ensures Shape() && held == old(held)
      ensures var n := Min(TARGET_POOL_SIZE, old(|global|));
        global == old(global)[..old(|global|) - n] && local == old(local)[t := TakeLast(old(global), n)]
    {
      hide Cells;
      CellsMeaning();
      var i := 0;
      while i < TARGET_POOL_SIZE && cur >= 0
        invariant 0 <= i <= Min(TARGET_POOL_SIZE, old(|global|)) && held == old(held) && Cells()
        invariant cur == old(cur) - i && global == old(global)[..old(|global|) - i]
        invariant local == old(local)[t := TakeLast(old(global), i)] && perCur[..] == old(perCur[..])
      {
        TakeOne(t, i);
        i := i + 1;
      }
      perCur[t] := i - 1;
    }

    lemma CellsMeaning()
      requires Cells()
      ensures |global| <= GLOBAL_POOL_SIZE && perPool.Length0 == |local|
    {
    }

    /** memblock_alloc: NULL only if the thread's own pool and the global pool are empty. */
    method Alloc(t: nat) returns (p: Option<nat>)
      requires Valid() && t < |local|
      modifies this, perPool, perCur, pool
      ensures Valid() && |local| == old(|local|)
      ensures p == None <==> old(local[t]) == [] && old(global) == []
      ensures p == None ==> global == old(global) && local == old(local) && held == old(held)
      ensures p.Some? ==> p.value !in old(held) && p.value < GLOBAL_POOL_SIZE && held == old(held) + {p.value}
      ensures old(local[t]) != [] ==>
        global == old(global) && p == Some(old(local[t])[|old(local[t])| - 1])
        && local == old(local)[t := old(local[t])[..|old(local[t])| - 1]]
      ensures old(local[t]) == [] && old(global) != [] ==> Refilled(old(global), old(local), t, global, local, p)
    {
      hide EachOnce, TakeLast, Pooled, Blocks;
      if perCur[t] < 0 {
        Refill(t);
        RefillOnce(old(global), old(local), held, t, Min(TARGET_POOL_SIZE, old(|global|)));
      }
      p := None;
      if perCur[t] >= 0 {
        p := PopLocal(t);
      }
    }

    /** The end of memblock_alloc. */
    method PopLocal(t: nat) returns (p: Option<nat>)
      requires Valid() && t < |local| && local[t] != []
      modifies this, perPool, perCur
      ensures Valid() && global == old(global) && local == old(local)[t := old(local[t])[..|old(local[t])| - 1]]
      ensures p == Some(old(local[t])[|old(local[t])| - 1]) && p.value !in old(held) && p.value < GLOBAL_POOL_SIZE
      ensures held == old(held) + {p.value}
    {
      hide EachOnce, TakeLast, Pooled, Blocks;
      p := perPool[t, perCur[t]];
      perPool[t, perCur[t]] := None;
      perCur[t] := perCur[t] - 1;
      ghost var rest := local[t][..|local[t]| - 1];
      assert local[t] == rest + [p.value];
      PopOnce(global, local, held, t, rest, p.value);
      local := local[t := rest];
      held := held + {p.value};
    }

    /** One pass of the spill loop: the topmost block, at position i of t's pool, goes to the
        global pool. */
    method GiveOne(t: nat, i: nat)
      requires Cells() && t < |local| && i + 1 == |local[t]| <= 2 * TARGET_POOL_SIZE && |global| < GLOBAL_POOL_SIZE
      requires cur == |global| - 1
      modifies `cur, `global, `local, perPool, pool
      ensures Cells() && cur == old(cur) + 1 && global == old(global) + [old(local[t][i])]
      ensures local == old(local)[t := old(local[t])[..i]]
    {
      cur := cur + 1;
      pool[cur] := perPool[t, i];
      perPool[t, i] := None;
      global := global + [local[t][i]];
      local := local[t := local[t][..i]];
    }

    /** The spill loop of memblock_free: the global pool has room for what it takes. */
    method Spill(t: nat)
      requires Valid() && t < |local| && |local[t]| == 2 * TARGET_POOL_SIZE
      modifies this, perPool, perCur, pool
      ensures Shape() && held == old(held)
      ensures global == old(global) + TakeLast(old(local[t]), TARGET_POOL_SIZE)
      ensures local == old(local)[t := old(local[t])[..TARGET_POOL_SIZE]]
    {
      hide EachOnce, Pooled, Blocks, Cells;
      GlobalFits(global, local, held, t);
      CellsMeaning();
      assert local[t][..2 * TARGET_POOL_SIZE] == local[t];
      var i := perCur[t];
      while i >= TARGET_POOL_SIZE
        invariant TARGET_POOL_SIZE - 1 <= i < 2 * TARGET_POOL_SIZE && held == old(held) && Cells()
        invariant local == old(local)[t := old(local[t])[..i + 1]] && perCur[..] == old(perCur[..])
        invariant global == old(global) + TakeLast(old(local[t]), 2 * TARGET_POOL_SIZE - 1 - i) && cur == |global| - 1
      {
        assert local[t][..i] == old(local[t])[..i];
        GiveOne(t, i);
        i := i - 1;
      }
      perCur[t] := i;
    }

    /** memblock_free, of a block its caller holds. */
    method Free(t: nat, p: nat)
      requires Valid() && t < |local| && p in held
      modifies this, perPool, perCur, pool
      ensures Valid() && |local| == old(|local|) && held == old(held) - {p}
      ensures old(|local[t]|) < 2 * TARGET_POOL_SIZE ==>
        global == old(global) && local == old(local)[t := old(local[t]) + [p]]
      ensures old(|local[t]|) == 2 * TARGET_POOL_SIZE ==>
        local == old(local)[t := old(local[t])[..TARGET_POOL_SIZE] + [p]]
      ensures old(|local[t]|) == 2 * TARGET_POOL_SIZE ==>
        global == old(global) + TakeLast(old(local[t]), TARGET_POOL_SIZE)
    {
      hide EachOnce, TakeLast, Pooled, Blocks;
      if perCur[t] >= 2 * TARGET_POOL_SIZE - 1 {
        Spill(t);
        SpillOnce(old(global), old(local), held, t, TARGET_POOL_SIZE);
      }
      PushLocal(t, p);
    }

    /** The end of memblock_free. */
    method PushLocal(t: nat, p: nat)
      requires Valid() && t < |local| && |local[t]| < 2 * TARGET_POOL_SIZE && p in held
      modifies this, perPool, perCur
      ensures Valid() && global == old(global) && local == old(local)[t := old(local[t]) + [p]]
      ensures held == old(held) - {p}
    {
      hide EachOnce, TakeLast, Pooled, Blocks;
      perCur[t] := perCur[t] + 1;
      perPool[t, perCur[t]] := Some(p);
      PushOnce(global, local, held, t, p);
      local := local[t := local[t] + [p]];
      held := held - {p};
    }

    /** initpools, run by thread t: every block ends up pooled. */
    constructor (threads: nat, t: nat)
      requires t < threads
      ensures Valid() && |local| == threads && held == {} && fresh(perPool) && fresh(perCur) && fresh(pool)
    {
      hide Blocks, Pooled;
      perPool := new Option<nat>[threads, 2 * TARGET_POOL_SIZE]((_, _) => None);
      perCur := new int[threads](_ => -1);
      pool := new Option<nat>[GLOBAL_POOL_SIZE](_ => None);
      cur := -1;
      global := [];
      local := seq(threads, _ => []);
      held := Blocks(GLOBAL_POOL_SIZE);
      new;
      NothingPooled(local);
      NoBlocks();
      for i := 0 to GLOBAL_POOL_SIZE
        invariant Valid() && |local| == threads && held == Blocks(GLOBAL_POOL_SIZE) - Blocks(i)
        invariant fresh(perPool) && fresh(perCur) && fresh(pool)
      {
        BlocksLeft(GLOBAL_POOL_SIZE, i);
        Free(t, i);
      }
      BlocksLeft(GLOBAL_POOL_SIZE, GLOBAL_POOL_SIZE);
    }
  }

  lemma {:induction false} NothingPooled(local: seq<seq<nat>>)
    requires forall t :: 0 <= t < |local| ==> local[t] == []
    ensures Pooled(local) == multiset{}
  {
    if local != [] { NothingPooled(local[1..]); }
  }

  /** The global pool never overflows, and all blocks are pooled exactly when none is held. */
  lemma PoolsBounded(a: Allocator)
    requires a.Valid() && |a.local| > 0
    ensures a.cur < GLOBAL_POOL_SIZE && |Pooled(a.local)| + |a.global| + |a.held| == GLOBAL_POOL_SIZE
  {
    assert |multiset(a.global) + Pooled(a.local) + multiset(a.held)| == |a.global| + |Pooled(a.local)| + |a.held|;
    assert |multiset(Blocks(GLOBAL_POOL_SIZE))| == |Blocks(GLOBAL_POOL_SIZE)|;
  }
}
