/**
  Order-preserving sequence operations behind the dataframe steps:
  row filters, `head(n)`, and `Series.unique()`.
 */
module Sequences {

  /** `a` is obtained from `b` by deleting elements, keeping the order of the rest. */
  predicate IsSubsequence<T(==)>(a: seq<T>, b: seq<T>)
    decreases |b|
  {
    a == [] || (b != [] && ((a[0] == b[0] && IsSubsequence(a[1..], b[1..])) || IsSubsequence(a, b[1..])))
  }

  lemma {:induction false} SubsequenceReflexive<T>(a: seq<T>)
    ensures IsSubsequence(a, a)
    decreases |a|
  {
    if a != [] {
      SubsequenceReflexive(a[1..]);
    }
  }

  lemma {:induction false} SubsequencePrepend<T>(a: seq<T>, b: seq<T>, p: seq<T>)
    requires IsSubsequence(a, b)
    ensures IsSubsequence(a, p + b)
    decreases |p|
  {
    if p != [] {
      SubsequencePrepend(a, b, p[1..]);
      assert (p + b)[1..] == p[1..] + b;
    } else {
      assert p + b == b;
    }
  }

  /** Subsequences concatenate. */
  lemma {:induction false} SubsequenceConcat<T>(a: seq<T>, b: seq<T>, c: seq<T>, d: seq<T>)
    requires IsSubsequence(a, b) && IsSubsequence(c, d)
    ensures IsSubsequence(a + c, b + d)
    decreases |b|
  {
    if a == [] {
      assert a + c == c;
      SubsequencePrepend(c, d, b);
    } else {
      assert b != [];
      assert (b + d)[1..] == b[1..] + d;
      if a[0] == b[0] && IsSubsequence(a[1..], b[1..]) {
        SubsequenceConcat(a[1..], b[1..], c, d);
        assert (a + c)[1..] == a[1..] + c;
      } else {
        SubsequenceConcat(a, b[1..], c, d);
      }
    }
  }

  lemma {:induction false} SubsequenceTransitive<T>(a: seq<T>, b: seq<T>, c: seq<T>)
    requires IsSubsequence(a, b) && IsSubsequence(b, c)
    ensures IsSubsequence(a, c)
    decreases |c|, |b|
  {
    if a != [] {
      assert b != [] && c != [];
      if IsSubsequence(b, c[1..]) {
        SubsequenceTransitive(a, b, c[1..]);
      } else {
        assert b[0] == c[0] && IsSubsequence(b[1..], c[1..]);
        if a[0] == b[0] && IsSubsequence(a[1..], b[1..]) {
          SubsequenceTransitive(a[1..], b[1..], c[1..]);
        } else {
          SubsequenceTransitive(a, b[1..], c[1..]);
        }
      }
    }
  }

  lemma SubsequenceOfPrefix<T>(p: seq<T>, s: seq<T>)
    requires p <= s
    ensures IsSubsequence(p, s)
  {
    SubsequenceReflexive(p);
    assert s == p + s[|p|..];
    SubsequenceConcat(p, p, [], s[|p|..]);
    assert p + [] == p;
  }

  /** Elements of a subsequence come from the sequence. */
  lemma {:induction false} SubsequenceMembers<T>(a: seq<T>, b: seq<T>)
    requires IsSubsequence(a, b)
    ensures forall x :: x in a ==> x in b
    decreases |b|
  {
    if a != [] {
      if a[0] == b[0] && IsSubsequence(a[1..], b[1..]) {
        SubsequenceMembers(a[1..], b[1..]);
        assert a == [a[0]] + a[1..];
      } else {
        SubsequenceMembers(a, b[1..]);
      }
      assert b == [b[0]] + b[1..];
    }
  }

  function Min(a: nat, b: nat): (m: nat) {
    if a <= b then a else b
  }

  /** The elements of `s` satisfying `keep`, in order. */
  function Select<T>(s: seq<T>, keep: T -> bool): (r: seq<T>)
    decreases |s|
  {
    if s == [] then []
    else if keep(s[0]) then [s[0]] + Select(s[1..], keep)
    else Select(s[1..], keep)
  }

  lemma {:induction false} SelectFacts<T(!new)>(s: seq<T>, keep: T -> bool)
    ensures IsSubsequence(Select(s, keep), s)
    ensures forall i :: 0 <= i < |Select(s, keep)| ==> keep(Select(s, keep)[i])
    ensures forall x :: multiset(Select(s, keep))[x] == if keep(x) then multiset(s)[x] else 0
    decreases |s|
  {
    if s != [] {
      var rest := Select(s[1..], keep);
      SelectFacts(s[1..], keep);
      assert s == [s[0]] + s[1..];
      if keep(s[0]) {
        assert ([s[0]] + rest)[1..] == rest;
      } else {
        SubsequencePrepend(rest, s[1..], [s[0]]);
      }
    }
  }

  /**
    Boolean-mask selection `df[mask]`: the rows satisfying `keep`, in their
    original order and with their original multiplicities.
   */
  function Filter<T(!new)>(s: seq<T>, keep: T -> bool): (r: seq<T>)
    ensures IsSubsequence(r, s)
    ensures forall i :: 0 <= i < |r| ==> keep(r[i])
    ensures forall x :: multiset(r)[x] == if keep(x) then multiset(s)[x] else 0
  {
    SelectFacts(s, keep);
    Select(s, keep)
  }

  lemma {:induction false} SelectConcat<T>(a: seq<T>, b: seq<T>, keep: T -> bool)
    ensures Select(a + b, keep) == Select(a, keep) + Select(b, keep)
    decreases |a|
  {
    if a == [] {
      assert a + b == b;
    } else {
      assert (a + b)[0] == a[0];
      assert (a + b)[1..] == a[1..] + b;
      SelectConcat(a[1..], b, keep);
    }
  }

  /** Filtering a concatenation filters each part. */
  lemma FilterConcat<T(!new)>(a: seq<T>, b: seq<T>, keep: T -> bool)
    ensures Filter(a + b, keep) == Filter(a, keep) + Filter(b, keep)
  {
    SelectConcat(a, b, keep);
  }

  lemma {:induction false} SelectSelect<T>(s: seq<T>, p: T -> bool, q: T -> bool, both: T -> bool)
    requires forall x :: both(x) == (p(x) && q(x))
    ensures Select(Select(s, p), q) == Select(s, both)
    decreases |s|
  {
    if s != [] {
      SelectSelect(s[1..], p, q, both);
      if p(s[0]) {
        var rest := Select(s[1..], p);
        assert ([s[0]] + rest)[0] == s[0];
        assert ([s[0]] + rest)[1..] == rest;
      }
    }
  }

  /** Two masks applied one after the other select what their conjunction selects. */
  lemma FilterFilter<T(!new)>(s: seq<T>, p: T -> bool, q: T -> bool, both: T -> bool)
    requires forall x :: both(x) == (p(x) && q(x))
    ensures Filter(Filter(s, p), q) == Filter(s, both)
  {
    SelectSelect(s, p, q, both);
  }

  /** `head(n)`: the first `n` rows, or all of them when there are fewer. */
  function Take<T>(s: seq<T>, n: nat): (r: seq<T>)
    ensures r <= s
    ensures |r| == Min(n, |s|)
  {
    s[..Min(n, |s|)]
  }

  /** Taking from a sequence with one more element gains it only while there is room. */
  lemma TakeSnoc<T>(s: seq<T>, x: T, n: nat)
    ensures Take(s + [x], n) == if |s| < n then s + [x] else Take(s, n)
  {
    if |s| >= n {
      assert (s + [x])[..n] == s[..n];
    }
  }

  /** Index of the first occurrence of `x` in `s`. */
  function IndexOf<T(==)>(s: seq<T>, x: T): (k: nat)
    requires x in s
    ensures k < |s| && s[k] == x
    ensures forall j :: 0 <= j < k ==> s[j] != x
  {
    if s[0] == x then 0 else 1 + IndexOf(s[1..], x)
  }

  /**
    `Series.unique()` after skipping the values of `seen`: every remaining
    value once, in order of first occurrence.
   */
  function UniqueFrom<T(==,!new)>(s: seq<T>, seen: set<T>): (r: seq<T>)
    ensures forall x :: x in r <==> x in s && x !in seen
    ensures forall i, j :: 0 <= i < j < |r| ==> r[i] != r[j]
    ensures forall i, j :: 0 <= i < j < |r| ==> IndexOf(s, r[i]) < IndexOf(s, r[j])
    decreases |s|
  {
    if s == [] then []
    else
      assert s == [s[0]] + s[1..];
      if s[0] in seen then UniqueFrom(s[1..], seen)
      else [s[0]] + UniqueFrom(s[1..], seen + {s[0]})
  }
}
