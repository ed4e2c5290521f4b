/** What the models share: optional values, lists without duplicates, and counting the steps of
    one thread in a run.
 */
module Common {

  datatype Option<T> = None | Some(value: T)

  ghost predicate Distinct<T>(s: seq<T>) {
    forall i, j :: 0 <= i < j < |s| ==> s[i] != s[j]
  }

  ghost function Members<T>(s: seq<T>): set<T> { set x | x in s }

  /** A list has as many members as elements exactly when nothing is listed twice. */
  lemma {:induction false} MembersSize<T>(s: seq<T>)
    ensures |Members(s)| <= |s|
    ensures Distinct(s) <==> |Members(s)| == |s|
  {
    if s == [] {
      assert Members(s) == {};
    } else {
      var rest := s[1..];
      MembersSize(rest);
      assert s == [s[0]] + rest;
      assert Members(s) == {s[0]} + Members(rest);
      if s[0] in rest {
        assert Members(s) == Members(rest);
      } else {
        assert Distinct(rest) ==> Distinct(s);
      }
      assert Distinct(s) ==> Distinct(rest) && s[0] !in rest by {
        if Distinct(s) {
          forall i, j | 0 <= i < j < |rest| ensures rest[i] != rest[j] { assert s[i + 1] != s[j + 1]; }
          forall i | 0 <= i < |rest| ensures rest[i] != s[0] { assert s[0] != s[i + 1]; }
        }
      }
    }
  }

  /** How many of the steps from i to j are thread t's. */
  function OwnSteps(who: seq<nat>, t: nat, i: nat, j: nat): nat
    requires i <= j <= |who|
    decreases j
  {
    if i == j then 0 else OwnSteps(who, t, i, j - 1) + if who[j - 1] == t then 1 else 0
  }
}
