/**
 * The `reduce((sum, x) => sum + f(x), 0)` idiom the application uses for all
 * of its totals, as a left fold over a sequence, together with an independent
 * reference definition of the sum and the facts the totals rely on.
 */
module Reduce {

  /**
   * Array.prototype.reduce with the callback `(acc, x) => acc + f(x)`: a left
   * fold, which from `acc` comes to `acc` plus the sum of the elements.
   */
  function FoldSum<T>(s: seq<T>, f: T -> real, acc: real): (r: real)
    ensures r == acc + Sum(s, f)
  {
    if s == [] then acc else FoldSum(s[1..], f, acc + f(s[0]))
  }

  /** `s.reduce((sum, x) => sum + f(x), 0)`: exactly the sum of the elements. */
  function ReduceSum<T>(s: seq<T>, f: T -> real): (r: real)
    ensures r == Sum(s, f)
  {
    FoldSum(s, f, 0.0)
  }

  /** Reference definition: the mathematical sum of `f` over `s`. */
  function Sum<T>(s: seq<T>, f: T -> real): real
  {
    if s == [] then 0.0 else f(s[0]) + Sum(s[1..], f)
  }

  /** The sum over a concatenation is the sum of the sums. */
  lemma {:induction false} SumConcat<T>(a: seq<T>, b: seq<T>, f: T -> real)
    ensures Sum(a + b, f) == Sum(a, f) + Sum(b, f)
  {
    if a != [] {
      assert (a + b)[1..] == a[1..] + b;
      SumConcat(a[1..], b, f);
    } else {
      assert a + b == b;
    }
  }

  /** Appending one element adds exactly that element's value to the reduce. */
  lemma ReduceSnoc<T>(s: seq<T>, x: T, f: T -> real)
    ensures ReduceSum(s + [x], f) == ReduceSum(s, f) + f(x)
  {
    SumConcat(s, [x], f);
    assert Sum([x], f) == f(x) + Sum([x][1..], f);
  }

  /** Taking one element out of the sum leaves the sum of the rest. */
  lemma SumRemoveAt<T>(b: seq<T>, i: nat, f: T -> real)
    requires i < |b|
    ensures Sum(b, f) == f(b[i]) + Sum(b[..i] + b[i + 1..], f)
  {
    var x := b[i];
    assert b == b[..i] + ([x] + b[i + 1..]);
    SumConcat(b[..i], [x] + b[i + 1..], f);
    assert Sum([x] + b[i + 1..], f) == f(x) + Sum(b[i + 1..], f) by {
      assert ([x] + b[i + 1..])[1..] == b[i + 1..];
    }
    SumConcat(b[..i], b[i + 1..], f);
  }

  /** Removing the same element from two equal multisets leaves equal multisets. */
  lemma MultisetRemoveAt<T>(a: seq<T>, b: seq<T>, i: nat)
    requires multiset(a) == multiset(b) && a != [] && i < |b| && b[i] == a[0]
    ensures multiset(a[1..]) == multiset(b[..i] + b[i + 1..])
  {
    assert b == b[..i] + [b[i]] + b[i + 1..];
    assert a == [a[0]] + a[1..];
    assert multiset(b) == multiset(b[..i]) + multiset{b[i]} + multiset(b[i + 1..]);
    assert multiset(b[..i] + b[i + 1..]) == multiset(b[..i]) + multiset(b[i + 1..]);
    assert multiset(a) == multiset{a[0]} + multiset(a[1..]);
    calc {
      multiset(a[1..]);
      multiset(a) - multiset{a[0]};
      multiset(b) - multiset{b[i]};
      multiset(b[..i] + b[i + 1..]);
    }
  }

  /** The reduce does not depend on the order of the elements. */
  lemma {:induction false} SumPermutation<T>(a: seq<T>, b: seq<T>, f: T -> real)
    requires multiset(a) == multiset(b)
    ensures Sum(a, f) == Sum(b, f)
  {
    if a == [] {
      assert |multiset(b)| == 0;
    } else {
      assert a[0] in multiset(b) by { assert a[0] in multiset(a); }
      var i :| 0 <= i < |b| && b[i] == a[0];
      MultisetRemoveAt(a, b, i);
      SumPermutation(a[1..], b[..i] + b[i + 1..], f);
      SumRemoveAt(b, i, f);
    }
  }

  /** The totals do not depend on the order in which the records were logged. */
  lemma ReducePermutation<T>(a: seq<T>, b: seq<T>, f: T -> real)
    requires multiset(a) == multiset(b)
    ensures ReduceSum(a, f) == ReduceSum(b, f)
  {
    SumPermutation(a, b, f);
  }

  /** A sum of non-negative values is non-negative. */
  lemma {:induction false} SumNonNegative<T>(s: seq<T>, f: T -> real)
    requires forall i :: 0 <= i < |s| ==> f(s[i]) >= 0.0
    ensures Sum(s, f) >= 0.0
  {
    if s != [] {
      assert f(s[0]) >= 0.0;
      SumNonNegative(s[1..], f);
    }
  }
}
