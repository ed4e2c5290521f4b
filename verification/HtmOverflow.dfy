/** The cache-overflow pattern enumerator of future/HTMovf.c.

    A pattern spreads `nrefs` references over `nsets` cache sets: a nonincreasing vector
    with that sum.  report_pattern is modelled by appending the vector to `out`.
 */
module HtmOverflow {
  import opened Common

  function Sum(p: seq<int>): int {
    if p == [] then 0 else Sum(p[..|p|-1]) + p[|p|-1]
  }

  ghost predicate Nonincreasing(p: seq<int>) {
    forall i, j :: 0 <= i <= j < |p| ==> 0 <= p[j] <= p[i]
  }

  /** p is a partition of n into at most k parts, padded with zeros. */
  ghost predicate IsPattern(p: seq<int>, n: int, k: nat) {
    |p| == k && Nonincreasing(p) && Sum(p) == n
  }

  ghost predicate ZeroFrom(s: seq<int>, next: nat) {
    forall i :: next <= i < |s| ==> s[i] == 0
  }

  /** What spread_failure must report below position `next` of vector s. */
  ghost predicate FailTarget(p: seq<int>, s: seq<int>, next: nat, assoc: int) {
    IsPattern(p, Sum(s), |s|) && 0 < |p| && p[0] > assoc
    && forall i :: 1 <= i < next && i < |s| ==> p[i] == s[i]
  }

  /** What spread_success must report below position `next` of vector s. */
  ghost predicate SuccTarget(p: seq<int>, s: seq<int>, next: nat, max: int, n: int) {
    next < |s| && IsPattern(p, Sum(s) + n, |s|) && p[next] <= max
    && forall i :: 0 <= i < next ==> p[i] == s[i]
  }

  lemma {:induction false} SumUpdate(p: seq<int>, i: nat, v: int)
    requires i < |p|
    ensures Sum(p[i := v]) == Sum(p) - p[i] + v
  {
    var q := p[i := v];
    if i == |p| - 1 {
      assert q[..|p|-1] == p[..|p|-1];
    } else {
      assert q[..|p|-1] == p[..|p|-1][i := v];
      SumUpdate(p[..|p|-1], i, v);
    }
  }

  lemma {:induction false} SumMonotone(q: seq<int>, p: seq<int>)
    requires |q| == |p| && forall i :: 0 <= i < |p| ==> q[i] <= p[i]
    ensures Sum(q) <= Sum(p)
    ensures Sum(q) == Sum(p) ==> q == p
  {
    if p != [] {
      var k := |p| - 1;
      SumMonotone(q[..k], p[..k]);
      assert p == p[..k] + [p[k]] && q == q[..k] + [q[k]];
    }
  }

  lemma {:induction false} SumZero(s: seq<int>)
    requires ZeroFrom(s, 0)
    ensures Sum(s) == 0
  {
    if s != [] { SumZero(s[..|s|-1]); }
  }

  /** The references left over once position next is chosen bound position 0. */
  lemma FailBounds(p: seq<int>, s: seq<int>, next: nat, assoc: int)
    requires 1 <= next < |s| && ZeroFrom(s, next) && FailTarget(p, s, next, assoc)
    ensures p[0] + p[next] <= s[0]
    ensures p[next] == 0 ==> p == s
    ensures next == |s| - 1 ==> p == s[0 := s[0] - p[next]][next := p[next]]
  {
    var q := s[0 := p[0]][next := p[next]];
    SumUpdate(s, 0, p[0]);
    SumUpdate(s[0 := p[0]], next, p[next]);
    SumMonotone(q, p);
    if p[next] == 0 || next == |s| - 1 {
      assert p == q;
    }
  }

  lemma SuccBounds(p: seq<int>, s: seq<int>, next: nat, max: int, n: int)
    requires 1 <= n && next < |s| && ZeroFrom(s, next) && SuccTarget(p, s, next, max, n)
    ensures 1 <= p[next] <= n
    ensures p[next] == n || next == |s| - 1 ==> p == s[next := n]
  {
    var q := s[next := p[next]];
    SumUpdate(s, next, p[next]);
    SumMonotone(q, p);
    if p[next] == 0 || next == |s| - 1 {
      assert p == q;
    }
  }

  lemma DistinctAppend<T>(a: seq<T>, b: seq<T>)
    requires Distinct(a) && Distinct(b) && forall x :: x in a ==> x !in b
    ensures Distinct(a + b)
  {
    forall i, j | 0 <= i < j < |a + b|
      ensures (a + b)[i] != (a + b)[j]
    {
      if i < |a| <= j { assert a[i] in a && b[j - |a|] in b; }
    }
  }

  /** `found` is a complete, duplicate-free report for position next of s ... */
  ghost predicate FailReport(found: seq<seq<int>>, s: seq<int>, next: nat, assoc: int) {
    Distinct(found) && forall p :: p in found <==> FailTarget(p, s, next, assoc)
  }

  /** ... or only for the patterns placing at most k there. */
  ghost predicate FailReportTo(found: seq<seq<int>>, s: seq<int>, next: nat, assoc: int, k: int) {
    next < |s| && Distinct(found) && forall p :: p in found <==> FailTarget(p, s, next, assoc) && p[next] <= k
  }

  ghost predicate SuccReport(found: seq<seq<int>>, s: seq<int>, next: nat, max: int, n: int) {
    Distinct(found) && forall p :: p in found <==> SuccTarget(p, s, next, max, n)
  }

  ghost predicate SuccReportAbove(found: seq<seq<int>>, s: seq<int>, next: nat, max: int, n: int, i: int) {
    Distinct(found) && forall p :: p in found <==> SuccTarget(p, s, next, max, n) && p[next] > i
  }

  /** Vector s with k references moved from position 0 to position next. */
  function Moved(s: seq<int>, next: nat, k: int): seq<int>
    requires 1 <= next < |s|
  {
    s[0 := s[0] - k][next := k]
  }

  lemma ZeroAt(s: seq<int>, next: nat)
    requires next < |s| && ZeroFrom(s, next)
    ensures s[next] == 0
  {
  }

  lemma StartFacts(s: seq<int>, next: nat)
    requires 1 <= next < |s| && Nonincreasing(s) && ZeroFrom(s, next)
    ensures s[next] == 0 && s[0] >= 0
  {
  }

  /** Moving one more reference keeps a partition as long as neither end of the move overtakes
      its neighbour. */
  lemma StillNonincreasing(s: seq<int>, next: nat, k: nat)
    requires 1 <= next < |s| && Nonincreasing(s) && ZeroFrom(s, next)
    requires var t := Moved(s, next, k); t[next] <= t[next - 1] && t[0] >= t[1]
    ensures Nonincreasing(Moved(s, next, k)) && ZeroFrom(Moved(s, next, k), next + 1)
  {
  }

  lemma MovedSum(s: seq<int>, next: nat, k: int)
    requires 1 <= next < |s| && s[next] == 0
    ensures Sum(Moved(s, next, k)) == Sum(s)
  {
    hide Sum;
    SumUpdate(s, 0, s[0] - k);
    SumUpdate(s[0 := s[0] - k], next, k);
  }

  lemma FailStart(s: seq<int>, next: nat, assoc: int)
    requires 1 <= next < |s| && Nonincreasing(s) && ZeroFrom(s, next)
    ensures s[0] > assoc ==> FailReportTo([s], s, next, assoc, 0)
    ensures s[0] <= assoc ==> FailReport([], s, next, assoc)
  {
    forall p | FailTarget(p, s, next, assoc)
      ensures s[0] > assoc && (p[next] == 0 ==> p == s)
    {
      FailBounds(p, s, next, assoc);
    }
  }

  /** The break condition of the loop: nothing is left to report. */
  lemma FailStop(found: seq<seq<int>>, s: seq<int>, next: nat, assoc: int, k: int)
    requires 1 <= next < |s| && Nonincreasing(s) && ZeroFrom(s, next) && 1 <= k
    requires FailReportTo(found, s, next, assoc, k - 1)
    requires var t := Moved(s, next, k); t[next] > t[next - 1] || t[0] < t[1] || t[0] <= assoc
    ensures FailReport(found, s, next, assoc)
  {
    forall p | FailTarget(p, s, next, assoc)
      ensures p[next] < k
    {
      FailBounds(p, s, next, assoc);
    }
  }

  lemma FailStep(found: seq<seq<int>>, more: seq<seq<int>>, s: seq<int>, next: nat, assoc: int, k: int)
    requires 1 <= next && next + 1 < |s| && Nonincreasing(s) && ZeroFrom(s, next) && 1 <= k
    requires FailReportTo(found, s, next, assoc, k - 1)
    requires FailReport(more, Moved(s, next, k), next + 1, assoc)
    ensures FailReportTo(found + more, s, next, assoc, k)
  {
    MovedSum(s, next, k);
    var t := Moved(s, next, k);
    forall p
      ensures FailTarget(p, t, next + 1, assoc) <==> FailTarget(p, s, next, assoc) && p[next] == k
    {
    }
    DistinctAppend(found, more);
  }

  lemma FailLast(found: seq<seq<int>>, s: seq<int>, assoc: int, k: int)
    requires 2 <= |s| && Nonincreasing(s) && ZeroFrom(s, |s| - 1) && 1 <= k
    requires FailReportTo(found, s, |s| - 1, assoc, k - 1)
    requires Nonincreasing(Moved(s, |s| - 1, k)) && s[0] - k > assoc
    ensures FailReportTo(found + [Moved(s, |s| - 1, k)], s, |s| - 1, assoc, k)
  {
    var next, t := |s| - 1, Moved(s, |s| - 1, k);
    MovedSum(s, next, k);
    forall p | FailTarget(p, s, next, assoc) && p[next] == k
      ensures p == t
    {
      FailBounds(p, s, next, assoc);
    }
    DistinctAppend(found, [t]);
  }

  /** Nothing exceeds min(max, n), and placing everything at next is the only way to reach n. */
  lemma SuccStart(s: seq<int>, next: nat, max: int, n: int)
    requires 1 <= n && 1 <= max && next < |s| && Nonincreasing(s) && ZeroFrom(s, next)
    requires next > 0 ==> s[next - 1] == max
    ensures n <= max ==> SuccReportAbove([s[next := n]], s, next, max, n, n - 1)
    ensures n > max ==> SuccReportAbove([], s, next, max, n, max)
    ensures next == |s| - 1 ==> SuccReport(if n <= max then [s[next := n]] else [], s, next, max, n)
  {
    forall p | SuccTarget(p, s, next, max, n)
      ensures 1 <= p[next] <= n && (p[next] == n || next == |s| - 1 ==> p == s[next := n])
    {
      SuccBounds(p, s, next, max, n);
    }
    SumUpdate(s, next, n);
  }

  lemma SuccStep(found: seq<seq<int>>, more: seq<seq<int>>, s: seq<int>, next: nat, max: int, n: int, i: int)
    requires next + 1 < |s| && Nonincreasing(s) && ZeroFrom(s, next)
    requires next > 0 ==> s[next - 1] == max
    requires 1 <= i <= max && i < n
    requires SuccReportAbove(found, s, next, max, n, i)
    requires SuccReport(more, s[next := i], next + 1, i, n - i)
    ensures SuccReportAbove(found + more, s, next, max, n, i - 1)
  {
    SumUpdate(s, next, i);
    var t := s[next := i];
    forall p
      ensures SuccTarget(p, t, next + 1, i, n - i) <==> SuccTarget(p, s, next, max, n) && p[next] == i
    {
    }
    DistinctAppend(found, more);
  }

  lemma SuccStop(found: seq<seq<int>>, s: seq<int>, next: nat, max: int, n: int)
    requires 1 <= n && next < |s| && ZeroFrom(s, next)
    requires SuccReportAbove(found, s, next, max, n, 0)
    ensures SuccReport(found, s, next, max, n)
  {
    forall p | SuccTarget(p, s, next, max, n)
      ensures 1 <= p[next]
    {
      SuccBounds(p, s, next, max, n);
    }
  }

  lemma ChosenNonincreasing(s: seq<int>, next: nat, i: int)
    requires next < |s| && Nonincreasing(s) && ZeroFrom(s, next) && 0 <= i && (next > 0 ==> i <= s[next - 1])
    ensures Nonincreasing(s[next := i]) && ZeroFrom(s[next := i], next + 1)
  {
  }

  class Spreader {
    var s: array<int>
    var out: seq<seq<int>>
    const assoc: int

    constructor (nsets: nat, assoc: int)
      ensures s.Length == nsets && out == [] && this.assoc == assoc && fresh(s)
    {
      s := new int[nsets];
      out := [];
      this.assoc := assoc;
    }

    /** Reports, exactly once each, the overflowing patterns that agree with s between
        positions 1 and next; restores s. */
    method SpreadFailure(lb: nat, next: nat) returns (ghost found: seq<seq<int>>)
      requires 1 <= assoc && 1 <= next < s.Length && lb == next - 1
      requires Nonincreasing(s[..]) && ZeroFrom(s[..], next)
      modifies s, this`out
      ensures s[..] == old(s[..])
      ensures out == old(out) + found && FailReport(found, s[..], next, assoc)
      decreases s.Length - next
    {
      hide FailReport, FailReportTo, Sum, Nonincreasing, ZeroFrom;
      StartFacts(s[..], next);
      ghost var S := s[..];
      FailStart(S, next, assoc);
      found := [];
      if s[0] > assoc {
        out := out + [s[..]];
        found := [S];
      } else {
        return;
      }
      ghost var k := 0;
      while true
        invariant 0 <= k && s[..] == Moved(S, next, k) && s[0] > assoc
        invariant out == old(out) + found && FailReportTo(found, S, next, assoc, k)
        decreases s[0]
      {
        s[0] := s[0] - 1;
        s[next] := s[next] + 1;
        k := k + 1;
        ghost var T := Moved(S, next, k);
        assert s[..] == T;
        if s[next] > s[lb] || s[0] < s[1] || s[0] <= assoc {
          FailStop(found, S, next, assoc, k);
          break;
        }
        StillNonincreasing(S, next, k);
        if next < s.Length - 1 {
          ghost var more := SpreadFailure(next, next + 1);
          FailStep(found, more, S, next, assoc, k);
          found := found + more;
        } else if s[0] > assoc {
          out := out + [s[..]];
          FailLast(found, S, assoc, k);
          found := found + [T];
        }
      }
      assert s[0] == S[0] - k && s[next] == k && S[next] == 0;
      s[0] := s[0] + s[next];
      s[next] := 0;
      assert s[..] == Moved(S, next, k)[0 := S[0]][next := 0] == S;
    }

    /** Reports, exactly once each, the ways to place n more references at positions next
        and up with parts of at most max; restores s.  The result is always 1: the value 0
        that would prune the search is never produced. */
    method SpreadSuccess(next: nat, max: int, n: int) returns (r: int, ghost found: seq<seq<int>>)
      requires 1 <= max && 1 <= n && next < s.Length
      requires Nonincreasing(s[..]) && ZeroFrom(s[..], next) && (next > 0 ==> s[next - 1] == max)
      modifies s, this`out
      ensures s[..] == old(s[..]) && r == 1
      ensures out == old(out) + found && SuccReport(found, s[..], next, max, n)
      decreases s.Length - next
    {
      hide SuccReport, SuccReportAbove, SuccTarget, Sum, Nonincreasing, ZeroFrom, IsPattern, Distinct;
      ghost var S := s[..];
      ZeroAt(S, next);
      SuccStart(S, next, max, n);
      found := if n <= max then [S[next := n]] else [];
      var i: int;
      if n < max {
        s[next] := n;
        assert s[..] == S[next := n];
        out := out + [s[..]];
        if next == s.Length - 1 {
          s[next] := 0;
          assert s[..] == S[next := 0] == S;
          return 1, found;
        }
        i := n - 1;
      } else {
        s[next] := max;
        assert s[..] == S[next := max];
        if n == max {
          out := out + [s[..]];
        }
        if next == s.Length - 1 {
          s[next] := 0;
          assert s[..] == S[next := 0] == S;
          return 1, found;
        }
        if n > max {
          ghost var more;
          ChosenNonincreasing(S, next, max);
          r, more := SpreadSuccess(next + 1, max, n - max);
          SuccStep(found, more, S, next, max, n, max);
          found := found + more;
          if r == 0 {
            assert false;
          }
        }
        i := max - 1;
      }
      while i > 0
        invariant 0 <= i < n && i < max
        invariant s[..] == S[next := s[next]]
        invariant out == old(out) + found && SuccReportAbove(found, S, next, max, n, i)
        decreases i
      {
        s[next] := i;
        assert s[..] == S[next := i];
        var q;
        ghost var more;
        ChosenNonincreasing(S, next, i);
        q, more := SpreadSuccess(next + 1, i, n - i);
        SuccStep(found, more, S, next, max, n, i);
        found := found + more;
        if q == 0 {
          assert false;
        }
        i := i - 1;
      }
      SuccStop(found, S, next, max, n);
      s[next] := 0;
      assert s[..] == S[next := 0] == S;
      r := 1;
    }

    /** All patterns that overflow some set. */
    method DoFailure(nrefs: int) returns (ghost found: seq<seq<int>>)
      requires 2 <= s.Length && 1 <= assoc && 1 <= nrefs
      modifies s, this`out
      ensures out == old(out) + found && Distinct(found)
      ensures forall p :: p in found <==> IsPattern(p, nrefs, s.Length) && p[0] > assoc
    {
      s[0] := nrefs;
      for i := 1 to s.Length
        invariant s[0] == nrefs && forall j :: 1 <= j < i ==> s[j] == 0
        invariant out == old(out)
      {
        s[i] := 0;
      }
      ghost var Z := s[..][0 := 0];
      SumZero(Z);
      SumUpdate(Z, 0, nrefs);
      assert Z[0 := nrefs] == s[..];
      found := SpreadFailure(0, 1);
    }

    /** All patterns that fit. */
    method DoSuccess(nrefs: int) returns (ghost found: seq<seq<int>>)
      requires 1 <= s.Length && 1 <= assoc && 1 <= nrefs
      modifies s, this`out
      ensures out == old(out) + found && Distinct(found)
      ensures forall p :: p in found <==> IsPattern(p, nrefs, s.Length) && p[0] <= assoc
    {
      for i := 0 to s.Length
        invariant forall j :: 0 <= j < i ==> s[j] == 0
        invariant out == old(out)
      {
        s[i] := 0;
      }
      SumZero(s[..]);
      var r;
      r, found := SpreadSuccess(0, assoc, nrefs);
    }

    /** main in mode C: the overflowing patterns and then the others, with how many of each.
        Between them the two reports list every pattern exactly once. */
    method CheckPatterns(nrefs: int) returns (nf: nat, ns: nat, ghost patterns: seq<seq<int>>)
      requires 2 <= s.Length && 1 <= assoc && 1 <= nrefs
      modifies s, this`out
      ensures out == old(out) + patterns && Distinct(patterns) && nf + ns == |patterns|
      ensures forall p :: p in patterns <==> IsPattern(p, nrefs, s.Length)
      ensures forall i :: 0 <= i < |patterns| ==> |patterns[i]| > 0 && (i < nf <==> patterns[i][0] > assoc)
    {
      var start := |out|;
      var failures := DoFailure(nrefs);
      nf := |out| - start;
      var successes := DoSuccess(nrefs);
      ns := |out| - start - nf;
      patterns := failures + successes;
      assert out == old(out) + patterns;
      DistinctAppend(failures, successes);
      forall i | 0 <= i < |patterns|
        ensures |patterns[i]| > 0 && (i < nf <==> patterns[i][0] > assoc)
      {
        assert patterns[i] in if i < nf then failures else successes;
      }
    }
  }
}
