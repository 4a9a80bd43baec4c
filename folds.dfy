/**
 * Folds over sequences used to state what an accumulation computes: the sum of a
 * real-valued measure over a sequence, and the concatenation of per-element
 * sequences.  Both are proved insensitive to how the input is split, and the sum
 * insensitive to the order of the input.
 */
module Folds {

  /** f summed over s, left to right. */
  function SumOf<T>(s: seq<T>, f: T -> real): real
  {
    if s == [] then 0.0 else SumOf(s[..|s| - 1], f) + f(s[|s| - 1])
  }

  /** f(s[0]) + f(s[1]) + ..., concatenated left to right. */
  function Concat<T, U>(s: seq<T>, f: T -> seq<U>): seq<U>
  {
    if s == [] then [] else Concat(s[..|s| - 1], f) + f(s[|s| - 1])
  }

  lemma SumOfSnoc<T>(s: seq<T>, x: T, f: T -> real)
    ensures SumOf(s + [x], f) == SumOf(s, f) + f(x)
  {
    assert (s + [x])[..|s|] == s;
  }

  lemma {:induction false} SumOfAppend<T>(s: seq<T>, t: seq<T>, f: T -> real)
    ensures SumOf(s + t, f) == SumOf(s, f) + SumOf(t, f)
    decreases |t|
  {
    if t == [] {
      assert s + t == s;
    } else {
      assert (s + t)[..|s + t| - 1] == s + t[..|t| - 1];
      SumOfAppend(s, t[..|t| - 1], f);
    }
  }

  lemma {:induction false} ConcatAppend<T, U>(s: seq<T>, t: seq<T>, f: T -> seq<U>)
    ensures Concat(s + t, f) == Concat(s, f) + Concat(t, f)
    decreases |t|
  {
    if t == [] {
      assert s + t == s;
    } else {
      assert (s + t)[..|s + t| - 1] == s + t[..|t| - 1];
      ConcatAppend(s, t[..|t| - 1], f);
    }
  }

  lemma ConcatSingle<T, U>(x: T, f: T -> seq<U>)
    ensures Concat([x], f) == f(x)
  {
    assert [x][..0] == [];
  }

  /** Taking out one occurrence of x from two sequences with equal multisets. */
  lemma MultisetRemove<T>(a: seq<T>, x: T, b: seq<T>, k: int)
    requires multiset(a + [x]) == multiset(b) && 0 <= k < |b| && b[k] == x
    ensures multiset(a) == multiset(b[..k] + b[k + 1..])
  {
    assert b == b[..k] + [x] + b[k + 1..];
    assert multiset(b) == multiset(b[..k] + b[k + 1..]) + multiset{x};
    assert multiset(a + [x]) == multiset(a) + multiset{x};
    forall y
      ensures multiset(a)[y] == multiset(b[..k] + b[k + 1..])[y]
    {
      assert (multiset(a) + multiset{x})[y] == (multiset(b[..k] + b[k + 1..]) + multiset{x})[y];
    }
  }

  /** A sum does not depend on the order of its terms. */
  lemma {:induction false} SumOfPermutation<T>(a: seq<T>, b: seq<T>, f: T -> real)
    requires multiset(a) == multiset(b)
    ensures SumOf(a, f) == SumOf(b, f)
    decreases |a|
  {
    if a == [] {
      assert |b| == |multiset(b)| == 0;
    } else {
      var x := a[|a| - 1];
      var a' := a[..|a| - 1];
      assert a == a' + [x];
      assert x in multiset(b);
      var k :| 0 <= k < |b| && b[k] == x;
      MultisetRemove(a', x, b, k);
      SumOfPermutation(a', b[..k] + b[k + 1..], f);
      assert b == b[..k] + [x] + b[k + 1..];
      SumOfAppend(b[..k], b[k + 1..], f);
      SumOfAppend(b[..k] + [x], b[k + 1..], f);
      SumOfSnoc(b[..k], x, f);
    }
  }

  /** Concatenations of permuted inputs are permutations of each other. */
  lemma {:induction false} ConcatPermutation<T, U>(a: seq<T>, b: seq<T>, f: T -> seq<U>)
    requires multiset(a) == multiset(b)
    ensures multiset(Concat(a, f)) == multiset(Concat(b, f))
    decreases |a|
  {
    if a == [] {
      assert |b| == |multiset(b)| == 0;
    } else {
      var x := a[|a| - 1];
      var a' := a[..|a| - 1];
      assert a == a' + [x];
      assert x in multiset(b);
      var k :| 0 <= k < |b| && b[k] == x;
      MultisetRemove(a', x, b, k);
      ConcatPermutation(a', b[..k] + b[k + 1..], f);
      assert b == b[..k] + [x] + b[k + 1..];
      ConcatAppend(b[..k], b[k + 1..], f);
      ConcatAppend(b[..k] + [x], b[k + 1..], f);
      ConcatAppend(b[..k], [x], f);
      ConcatSingle(x, f);
    }
  }

  /** A sum of equal terms is their count times the term. */
  lemma {:induction false} SumOfConstant<T>(s: seq<T>, f: T -> real, c: real)
    requires forall k :: 0 <= k < |s| ==> f(s[k]) == c
    ensures SumOf(s, f) == |s| as real * c
  {
    if s != [] {
      SumOfConstant(s[..|s| - 1], f, c);
    }
  }

  /** A sum of non-negative terms is non-negative, and positive exactly when one term is. */
  lemma {:induction false} SumOfNonNegative<T>(s: seq<T>, f: T -> real)
    requires forall k :: 0 <= k < |s| ==> f(s[k]) >= 0.0
    ensures SumOf(s, f) >= 0.0
    ensures SumOf(s, f) > 0.0 <==> exists k :: 0 <= k < |s| && f(s[k]) > 0.0
  {
    if s != [] {
      var s' := s[..|s| - 1];
      SumOfNonNegative(s', f);
      if SumOf(s', f) > 0.0 {
        var k :| 0 <= k < |s'| && f(s'[k]) > 0.0;
        assert s[k] == s'[k];
      }
      if exists k :: 0 <= k < |s| && f(s[k]) > 0.0 {
        var k :| 0 <= k < |s| && f(s[k]) > 0.0;
        if k < |s'| {
          assert s'[k] == s[k];
        }
      }
    }
  }
}
