/** The per-thread Park-Miller generator of lib/random.c.

    The 32-bit machine range is explicit: every intermediate of the Schrage step is
    shown to fit a signed 32-bit integer, so modelling the C `long` by `int` loses nothing.
 */
module ParkMiller {

  const M: int := 0x7fff_ffff
  const MULTIPLIER: int := 16807
  const QUOTIENT: int := 127773
  const REMAINDER: int := 2836
  // 16807 * INVERSE == 11017 * M + 1
  const INVERSE: int := 1407677000

  predicate ValidSeed(x: int) { 1 <= x < M }

  predicate FitsInt32(x: int) { -0x8000_0000 <= x < 0x8000_0000 }

  /** The recurrence the source cites: x' = 7^5 x mod (2^31 - 1). */
  function NextSeed(x: int): int { MULTIPLIER * x % M }

  /** The unadjusted Schrage value. */
  function Schrage(x: int): int
    requires 0 <= x
  {
    MULTIPLIER * (x % QUOTIENT) - REMAINDER * (x / QUOTIENT)
  }

  lemma ModUnique(a: int, q: int, r: int)
    requires a == q * M + r && 0 <= r < M
    ensures a % M == r
  {
    var q' := a / M;
    assert a == q' * M + a % M;
    assert (q - q') * M == a % M - r;
  }

  /** Schrage's decomposition is congruent to the product, and never overflows. */
  lemma SchrageCongruent(x: int)
    requires ValidSeed(x)
    ensures var hi, lo := x / QUOTIENT, x % QUOTIENT;
      FitsInt32(MULTIPLIER * lo) && FitsInt32(REMAINDER * hi) && FitsInt32(Schrage(x))
    ensures Schrage(x) == MULTIPLIER * x - (x / QUOTIENT) * M
    ensures -M < Schrage(x) < M
  {
    var hi, lo := x / QUOTIENT, x % QUOTIENT;
    assert x == QUOTIENT * hi + lo;
    assert MULTIPLIER * QUOTIENT + REMAINDER == M;
    assert hi <= 16807;
  }

  /** No valid seed maps to the absorbing state: 16807 is invertible modulo 2^31 - 1. */
  lemma InverseUndoesStep(x: int)
    requires ValidSeed(x)
    ensures INVERSE * NextSeed(x) % M == x
    ensures ValidSeed(NextSeed(x))
  {
    var y := NextSeed(x);
    var q := MULTIPLIER * x / M;
    assert MULTIPLIER * x == q * M + y;
    assert INVERSE * MULTIPLIER == 11017 * M + 1;
    assert INVERSE * y == (11017 * x - INVERSE * q) * M + x;
    ModUnique(INVERSE * y, 11017 * x - INVERSE * q, x);
  }

  /** Every valid state has exactly one valid predecessor. */
  lemma StepIsPermutation(y: int)
    requires ValidSeed(y)
    ensures ValidSeed(INVERSE * y % M) && NextSeed(INVERSE * y % M) == y
    ensures forall x :: ValidSeed(x) && NextSeed(x) == y ==> x == INVERSE * y % M
  {
    var x := INVERSE * y % M;
    var q := INVERSE * y / M;
    assert INVERSE * y == q * M + x;
    assert MULTIPLIER * INVERSE == 11017 * M + 1;
    assert MULTIPLIER * x == (11017 * y - MULTIPLIER * q) * M + y;
    ModUnique(MULTIPLIER * x, 11017 * y - MULTIPLIER * q, y);
    forall z | ValidSeed(z) && NextSeed(z) == y
      ensures z == x
    {
      InverseUndoesStep(z);
    }
  }

  /** The state reached after n draws from seed x. */
  function Iterate(x: int, n: nat): int {
    if n == 0 then x else NextSeed(Iterate(x, n - 1))
  }

  /** A seeded generator never leaves its state space, so the abort() guard never fires,
      and two generators that agree after n draws agreed from the start. */
  lemma {:induction false} DrawsStayValidAndDistinct(x: int, y: int, n: nat)
    requires ValidSeed(x) && ValidSeed(y)
    ensures ValidSeed(Iterate(x, n))
    ensures ValidSeed(Iterate(y, n))
    ensures Iterate(x, n) == Iterate(y, n) ==> x == y
  {
    if n == 0 {
    } else {
      DrawsStayValidAndDistinct(x, y, n - 1);
      InverseUndoesStep(Iterate(x, n - 1));
      InverseUndoesStep(Iterate(y, n - 1));
    }
  }

  datatype Draw = Value(v: int) | Abort

  /** One thread's generator; randseed is zero until the thread seeds itself. */
  class Generator {
    var randseed: int

    ghost predicate Valid()
      reads this
    {
      randseed == 0 || ValidSeed(randseed)
    }

    constructor ()
      ensures Valid() && randseed == 0
    {
      randseed := 0;
    }

    /** Seeds congruent to zero are mapped to one, all others are reduced. */
    method SetRandom(seed: int)
      requires 0 <= seed < 0x1_0000_0000
      modifies this
      ensures Valid() && ValidSeed(randseed)
      ensures seed % M != 0 ==> (randseed - seed) % M == 0
      ensures seed % M == 0 ==> randseed == 1
    {
      randseed := seed % M;
      assert seed == (seed / M) * M + randseed;
      ModUnique(randseed - seed, -(seed / M), 0);
      if randseed == 0 {
        randseed := 1;
      }
    }

    /** The thread's seed depends only on its identifier, and is always valid. */
    method SetRandomThread(id: int)
      requires 0 <= id < 0x1_0000_0000
      modifies this
      ensures Valid() && ValidSeed(randseed)
      ensures var hash := 2654435761 * ((id + 1) % 0x1_0000_0000) % 0x1_0000_0000;
        if hash % M == 0 then randseed == 1 else (randseed - hash) % M == 0
    {
      SetRandom(2654435761 * ((id + 1) % 0x1_0000_0000) % 0x1_0000_0000);
    }

    /** A draw aborts exactly when the thread was never seeded; otherwise it is the
        Park-Miller successor and becomes the new state. */
    method MyRandom() returns (d: Draw)
      requires Valid()
      modifies this
      ensures Valid()
      ensures old(randseed) == 0 ==> d == Abort && randseed == 0
      ensures ValidSeed(old(randseed)) ==>
        randseed == MULTIPLIER * old(randseed) % M && d == Value(randseed) && ValidSeed(randseed)
    {
      if randseed == 0 || randseed > 0x7fff_fffe {
        return Abort;
      }
      var x := randseed;
      SchrageCongruent(x);
      InverseUndoesStep(x);
      var hi := x / 127773;
      var lo := x % 127773;
      var t := 16807 * lo - 2836 * hi;
      assert t == Schrage(x);
      if t < 0 { ModUnique(MULTIPLIER * x, hi - 1, t + M); } else { ModUnique(MULTIPLIER * x, hi, t); }
      if t <= 0 {
        t := t + 0x7fff_ffff;
      }
      randseed := t;
      d := Value(t);
    }
  }
}
