/** Generic sequence helpers: filtering and summing. */
module Seqs {

  /** The elements of `s` that satisfy `p`, in their original order (a Python list comprehension with an `if`). */
  function Filter<T>(s: seq<T>, p: T -> bool): (r: seq<T>)
    ensures |r| <= |s|
    ensures forall i :: 0 <= i < |r| ==> p(r[i]) && r[i] in s
    ensures forall x :: x in s && p(x) ==> x in r
  {
    if |s| == 0 then []
    else Filter(s[..|s| - 1], p) + (if p(s[|s| - 1]) then [s[|s| - 1]] else [])
  }

  /** Filtering distributes over concatenation, so it keeps the relative order of what it keeps. */
  lemma {:induction false} FilterAppend<T>(a: seq<T>, b: seq<T>, p: T -> bool)
    ensures Filter(a + b, p) == Filter(a, p) + Filter(b, p)
    decreases |b|
  {
    if |b| == 0 {
      assert a + b == a;
    } else {
      var b' := b[..|b| - 1];
      assert (a + b)[..|a + b| - 1] == a + b';
      assert (a + b)[|a + b| - 1] == b[|b| - 1];
      FilterAppend(a, b', p);
    }
  }

  /** Filtering keeps nothing exactly when no element satisfies the predicate. */
  lemma {:induction false} FilterEmpty<T>(s: seq<T>, p: T -> bool)
    ensures Filter(s, p) == [] <==> forall x :: x in s ==> !p(x)
  {
    if |s| > 0 {
      var s' := s[..|s| - 1];
      FilterEmpty(s', p);
      assert forall x :: x in s <==> x in s' || x == s[|s| - 1];
    }
  }

  /** Sum of `f` over the elements of `s`. */
  function SumOf<T>(s: seq<T>, f: T -> int): int
  {
    if |s| == 0 then 0 else SumOf(s[..|s| - 1], f) + f(s[|s| - 1])
  }

  /** Summing over a concatenation adds the two partial sums. */
  lemma {:induction false} SumOfAppend<T>(a: seq<T>, b: seq<T>, f: T -> int)
    ensures SumOf(a + b, f) == SumOf(a, f) + SumOf(b, f)
    decreases |b|
  {
    if |b| == 0 {
      assert a + b == a;
    } else {
      var b' := b[..|b| - 1];
      assert (a + b)[..|a + b| - 1] == a + b';
      SumOfAppend(a, b', f);
    }
  }

  /** Replacing one element changes the sum by exactly the difference of the two values. */
  lemma {:induction false} SumOfUpdate<T>(s: seq<T>, k: nat, x: T, f: T -> int)
    requires k < |s|
    ensures SumOf(s[k := x], f) == SumOf(s, f) - f(s[k]) + f(x)
  {
    var pre, post := s[..k], s[k + 1..];
    assert s == pre + [s[k]] + post;
    assert s[k := x] == pre + [x] + post;
    SumOfAppend(pre + [s[k]], post, f);
    SumOfAppend(pre + [x], post, f);
    SumOfAppend(pre, [s[k]], f);
    SumOfAppend(pre, [x], f);
    assert SumOf([x], f) == f(x) by {
      assert [x][..0] == [];
    }
    assert SumOf([s[k]], f) == f(s[k]) by {
      assert [s[k]][..0] == [];
    }
  }

  /** Filtering with a predicate every element satisfies keeps the whole sequence. */
  lemma {:induction false} FilterAll<T>(s: seq<T>, p: T -> bool)
    requires forall i :: 0 <= i < |s| ==> p(s[i])
    ensures Filter(s, p) == s
  {
    if |s| > 0 {
      var q := s[..|s| - 1];
      assert s == q + [s[|s| - 1]];
      FilterAll(q, p);
    }
  }

  /** Two sums agree when their terms agree position by position. */
  lemma {:induction false} SumOfPointwise<T, U>(s: seq<T>, t: seq<U>, f: T -> int, g: U -> int)
    requires |s| == |t|
    requires forall i :: 0 <= i < |s| ==> f(s[i]) == g(t[i])
    ensures SumOf(s, f) == SumOf(t, g)
  {
    if |s| > 0 {
      SumOfPointwise(s[..|s| - 1], t[..|t| - 1], f, g);
    }
  }

  /** Extending a prefix by one element adds that element's term to a filtered sum exactly when it is kept. */
  lemma FilterSumStep<T>(s: seq<T>, i: nat, p: T -> bool, f: T -> int)
    requires i < |s|
    ensures SumOf(Filter(s[..i + 1], p), f) == SumOf(Filter(s[..i], p), f) + (if p(s[i]) then f(s[i]) else 0)
  {
    assert s[..i + 1][..i] == s[..i];
    var x := s[i];
    SumOfAppend(Filter(s[..i], p), if p(x) then [x] else [], f);
    assert SumOf([x], f) == f(x) by {
      assert [x][..0] == [];
    }
  }

  /** Sums `f` over the elements of `s` that satisfy `p`, skipping the others, in one pass. */
  method SumKept<T>(s: seq<T>, p: T -> bool, f: T -> int) returns (total: int)
    ensures total == SumOf(Filter(s, p), f)
  {
    total := 0;
    var i := 0;
    while i < |s|
      invariant 0 <= i <= |s|
      invariant total == SumOf(Filter(s[..i], p), f)
    {
      FilterSumStep(s, i, p, f);
      if p(s[i]) {
        total := total + f(s[i]);
      }
      i := i + 1;
    }
    assert s[..i] == s;
  }
}
