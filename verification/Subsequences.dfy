/** Keeping an order while leaving entries out. */
module Subsequences {
  /** `a` is what is left of `b` after leaving out some entries. */
  predicate Subsequence<T(==)>(a: seq<T>, b: seq<T>) {
    if a == [] then
      true
    else
      && b != []
      && ((a[|a| - 1] == b[|b| - 1] && Subsequence(a[..|a| - 1], b[..|b| - 1])) || Subsequence(a, b[..|b| - 1]))
  }

  lemma SubsequenceGrows<T>(a: seq<T>, b: seq<T>, x: T)
    requires Subsequence(a, b)
    ensures Subsequence(a, b + [x]) && Subsequence(a + [x], b + [x])
  {
    assert (b + [x])[..|b|] == b && (a + [x])[..|a|] == a;
  }

  lemma {:induction false} SubsequenceOfLonger<T>(a: seq<T>, b: seq<T>, c: seq<T>)
    requires Subsequence(a, b)
    ensures Subsequence(a, b + c)
  {
    if c == [] {
      assert b + c == b;
    } else {
      SubsequenceOfLonger(a, b, c[..|c| - 1]);
      SubsequenceGrows(a, b + c[..|c| - 1], c[|c| - 1]);
      assert b + c[..|c| - 1] + [c[|c| - 1]] == b + c;
    }
  }

  lemma {:induction false} SubsequenceOfItself<T>(a: seq<T>)
    ensures Subsequence(a, a) && Subsequence([], a)
  {
    if a != [] {
      SubsequenceOfItself(a[..|a| - 1]);
    }
  }
}
