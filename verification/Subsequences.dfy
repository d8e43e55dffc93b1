/** Order-preserving selections from a list: nothing duplicated, nothing reordered. */
module Subsequences {
  /** `f` lists, in increasing order, the positions of `b` that make up `a`. */
  predicate Picks<T(==)>(f: seq<nat>, a: seq<T>, b: seq<T>) {
    && |f| == |a|
    && (forall i, j | 0 <= i < j < |f| :: f[i] < f[j])
    && (forall i | 0 <= i < |f| :: f[i] < |b| && a[i] == b[f[i]])
  }

  ghost predicate Subsequence<T>(a: seq<T>, b: seq<T>) {
    exists f :: Picks(f, a, b)
  }

  lemma EmptyIsSubsequence<T>(b: seq<T>)
    ensures Subsequence([], b)
  {
    assert Picks([], [], b);
  }

  lemma SelfIsSubsequence<T>(a: seq<T>)
    ensures Subsequence(a, a)
  {
    assert Picks(seq(|a|, i requires 0 <= i < |a| => i), a, a);
  }

  lemma SubsequenceParts<T>(a: seq<T>, b: seq<T>, c: seq<T>, d: seq<T>)
    requires Subsequence(a, b) && Subsequence(c, d)
    ensures Subsequence(a + c, b + d)
  {
    var f :| Picks(f, a, b);
    var g :| Picks(g, c, d);
    var h := f + seq(|g|, i requires 0 <= i < |g| => |b| + g[i]);
    assert Picks(h, a + c, b + d);
  }

  lemma SubsequenceTransitive<T>(a: seq<T>, b: seq<T>, c: seq<T>)
    requires Subsequence(a, b) && Subsequence(b, c)
    ensures Subsequence(a, c)
  {
    var f :| Picks(f, a, b);
    var g :| Picks(g, b, c);
    var h := seq(|f|, i requires 0 <= i < |f| => g[f[i]]);
    assert Picks(h, a, c);
  }

  /** A part of `b` from its beginning, and selections from it. */
  lemma SubsequenceOfPrefix<T>(a: seq<T>, b: seq<T>, c: seq<T>)
    requires Subsequence(a, b)
    ensures Subsequence(a, b + c)
  {
    EmptyIsSubsequence(c);
    SubsequenceParts(a, b, [], c);
    assert a + [] == a;
  }

  /** Nothing is duplicated: no element occurs more often in the selection than in the list. */
  lemma {:induction false} SubsequenceCounts<T>(a: seq<T>, b: seq<T>)
    requires Subsequence(a, b)
    ensures multiset(a) <= multiset(b)
    decreases |b|
  {
    if a != [] {
      var f :| Picks(f, a, b);
      var k := f[|f| - 1];
      var rest := a[..|a| - 1];
      assert Picks(f[..|f| - 1], rest, b[..k]);
      SubsequenceCounts(rest, b[..k]);
      assert a == rest + [a[|a| - 1]];
      assert b == b[..k] + [b[k]] + b[k + 1..];
    }
  }
}
