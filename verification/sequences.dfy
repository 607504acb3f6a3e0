/** Sequences without repetition. */
module Sequences {
  predicate Distinct<T(==)>(s: seq<T>) { forall i, j :: 0 <= i < j < |s| ==> s[i] != s[j] }

  /** s without its i-th element. */
  function Without<T>(s: seq<T>, i: nat): seq<T>
    requires i < |s|
  {
    s[..i] + s[i + 1..]
  }

  lemma WithoutEnds<T>(s: seq<T>, i: nat, r: seq<T>)
    requires Distinct(s) && i < |s| && r == Without(s, i)
    ensures Distinct(r) && s[i] !in r && forall t :: t in r ==> t in s
    ensures r != [] ==> (r[0] == s[0] <==> s[i] != s[0]) && (r[|r| - 1] == s[|s| - 1] <==> s[i] != s[|s| - 1])
  {
    assert forall k :: 0 <= k < |r| ==> r[k] == s[if k < i then k else k + 1];
    if r != [] {
      assert r[0] == if i == 0 then s[1] else s[0];
      assert r[|r| - 1] == if i == |s| - 1 then s[|s| - 2] else s[|s| - 1];
    }
  }
}
