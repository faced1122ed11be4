/** Sequence helpers shared by the graph and its queries. */
module Seqs {

  /** No element occurs twice. */
  predicate Distinct<T(==)>(s: seq<T>) {
    forall i, j :: 0 <= i < j < |s| ==> s[i] != s[j]
  }

  /** `s` with every occurrence of `x` removed and the other elements kept in order. */
  function Without<T(==,!new)>(s: seq<T>, x: T): (r: seq<T>)
    ensures |r| <= |s|
    ensures forall y :: y in r <==> y in s && y != x
  {
    if s == [] then []
    else Without(s[..|s| - 1], x) + (if s[|s| - 1] == x then [] else [s[|s| - 1]])
  }

  /** Removing an element that does not occur changes nothing. */
  lemma {:induction false} WithoutAbsent<T(!new)>(s: seq<T>, x: T)
    requires x !in s
    ensures Without(s, x) == s
  {
    if s != [] {
      WithoutAbsent(s[..|s| - 1], x);
      assert s[..|s| - 1] + [s[|s| - 1]] == s;
    }
  }

  /** Removal distributes over concatenation, so order is preserved. */
  lemma {:induction false} WithoutAppend<T(!new)>(a: seq<T>, b: seq<T>, x: T)
    ensures Without(a + b, x) == Without(a, x) + Without(b, x)
  {
    if b == [] {
      assert a + b == a;
    } else {
      var b' := b[..|b| - 1];
      WithoutAppend(a, b', x);
      assert (a + b)[..|a + b| - 1] == a + b';
    }
  }
}
