/**
  Python's ordering of `str` values and the `sorted(...)` of a set of strings.
  Python compares strings lexicographically by code point, a proper prefix
  coming first; Dafny's own `<` on sequences means "proper prefix", so the
  order is defined here.
 */
module StringOrder {

  /** `a < b` on Python strings. */
  predicate Less(a: string, b: string)
    decreases |a|
  {
    if |a| == 0 then |b| > 0
    else if |b| == 0 then false
    else if a[0] != b[0] then a[0] < b[0]
    else Less(a[1..], b[1..])
  }

  predicate LessEq(a: string, b: string) {
    a == b || Less(a, b)
  }

  /** Every element is strictly below every later one (so there are no duplicates). */
  predicate StrictlyAscending(s: seq<string>) {
    forall i, j {:trigger Less(s[i], s[j])} :: 0 <= i < j < |s| ==> Less(s[i], s[j])
  }

  /** `m` is the least element of `s`. */
  predicate IsLeast(s: set<string>, m: string) {
    m in s && forall y {:trigger LessEq(m, y)} :: y in s ==> LessEq(m, y)
  }

  lemma {:induction false} LessIrreflexive(a: string)
    ensures !Less(a, a)
    decreases |a|
  {
    if |a| > 0 {
      LessIrreflexive(a[1..]);
    }
  }

  lemma {:induction false} LessAsymmetric(a: string, b: string)
    requires Less(a, b)
    ensures !Less(b, a)
    decreases |a|
  {
    if |a| > 0 && |b| > 0 && a[0] == b[0] {
      LessAsymmetric(a[1..], b[1..]);
    }
  }

  lemma {:induction false} LessTransitive(a: string, b: string, c: string)
    requires Less(a, b) && Less(b, c)
    ensures Less(a, c)
    decreases |a|
  {
    if |a| > 0 && |b| > 0 && |c| > 0 && a[0] == b[0] && b[0] == c[0] {
      LessTransitive(a[1..], b[1..], c[1..]);
    }
  }

  /** Any two distinct strings are ordered one way or the other. */
  lemma {:induction false} LessTotal(a: string, b: string)
    ensures a == b || Less(a, b) || Less(b, a)
    decreases |a|
  {
    if |a| > 0 && |b| > 0 && a[0] == b[0] {
      LessTotal(a[1..], b[1..]);
      if a[1..] == b[1..] {
        assert a == [a[0]] + a[1..];
        assert b == [b[0]] + b[1..];
      }
    }
  }

  lemma {:induction false} LeastExists(s: set<string>)
    requires s != {}
    ensures exists m :: IsLeast(s, m)
    decreases |s|
  {
    var x :| x in s;
    if s == {x} {
      assert IsLeast(s, x);
    } else {
      var rest := s - {x};
      LeastExists(rest);
      var m :| IsLeast(rest, m);
      LessTotal(m, x);
      if Less(x, m) {
        forall y | y in s
          ensures LessEq(x, y)
        {
          if y != x && y != m {
            assert y in rest && LessEq(m, y);
            LessTransitive(x, m, y);
          }
        }
        assert IsLeast(s, x);
      } else {
        assert IsLeast(s, m);
      }
    }
  }

  lemma LeastUnique(s: set<string>)
    ensures forall m1, m2 :: IsLeast(s, m1) && IsLeast(s, m2) ==> m1 == m2
  {
    forall m1, m2 | IsLeast(s, m1) && IsLeast(s, m2)
      ensures m1 == m2
    {
      if m1 != m2 {
        assert LessEq(m1, m2) && LessEq(m2, m1);
        LessAsymmetric(m1, m2);
      }
    }
  }

  /** Python's `min` of a non-empty set of strings. */
  function MinOf(s: set<string>): (m: string)
    requires s != {}
    ensures m in s
    ensures forall y {:trigger LessEq(m, y)} :: y in s ==> LessEq(m, y)
  {
    LeastExists(s);
    LeastUnique(s);
    var m :| IsLeast(s, m);
    m
  }

  /** `sorted(s)` for a set of distinct strings. */
  function SortSet(s: set<string>): (r: seq<string>)
    ensures |r| == |s|
    ensures forall x :: x in r <==> x in s
    ensures StrictlyAscending(r)
    decreases |s|
  {
    if s == {} then []
    else
      var m := MinOf(s);
      var t := SortSet(s - {m});
      assert forall j :: 0 <= j < |t| ==> Less(m, t[j]) by {
        forall j | 0 <= j < |t|
          ensures Less(m, t[j])
        {
          assert t[j] in s - {m} && LessEq(m, t[j]);
        }
      }
      [m] + t
  }

  /**
    A strictly ascending enumeration of a set is unique: whatever list
    Python's `sorted` produces from the same strings, it is `SortSet`'s.
   */
  lemma {:induction false} AscendingEnumerationUnique(a: seq<string>, b: seq<string>)
    requires StrictlyAscending(a) && StrictlyAscending(b)
    requires forall x :: x in a <==> x in b
    ensures a == b
    decreases |a|
  {
    assert b != [] ==> b[0] in b;
    if a != [] {
      assert a[0] in a;
      assert b != [];
      if a[0] != b[0] {
        var i :| 0 <= i < |a| && a[i] == b[0];
        var j :| 0 <= j < |b| && b[j] == a[0];
        assert Less(a[0], b[0]);
        assert Less(b[0], a[0]);
        LessAsymmetric(a[0], b[0]);
      }
      forall x | x in a[1..]
        ensures x in b[1..]
      {
        var i :| 1 <= i < |a| && a[i] == x;
        LessIrreflexive(a[0]);
        assert x != b[0];
        assert x in a;
        var j :| 0 <= j < |b| && b[j] == x;
        assert j != 0;
      }
      forall x | x in b[1..]
        ensures x in a[1..]
      {
        var j :| 1 <= j < |b| && b[j] == x;
        LessIrreflexive(b[0]);
        assert x != a[0];
        assert x in b;
        var i :| 0 <= i < |a| && a[i] == x;
        assert i != 0;
      }
      AscendingEnumerationUnique(a[1..], b[1..]);
      assert a == [a[0]] + a[1..];
      assert b == [b[0]] + b[1..];
    }
  }
}
