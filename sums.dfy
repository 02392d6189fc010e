/** Exact sums over sequences of reals, element-wise arithmetic, and sequence
    reversal: the vocabulary the distance and Laplacian computations share. */
module Sums {

  /** The sum of all entries (numpy's `np.sum` along one axis). */
  function Sum(s: seq<real>): real
  {
    if s == [] then 0.0 else s[0] + Sum(s[1..])
  }

  /** `np.square` on one value. */
  function Square(v: real): real
  {
    v * v
  }

  function Min(a: real, b: real): real
  {
    if a <= b then a else b
  }

  /** Element-wise difference `a - b`. */
  function Minus(a: seq<real>, b: seq<real>): seq<real>
    requires |a| == |b|
  {
    seq(|a|, i requires 0 <= i < |a| => a[i] - b[i])
  }

  /** Every entry multiplied by `c`. */
  function Scale(c: real, s: seq<real>): seq<real>
  {
    seq(|s|, i requires 0 <= i < |s| => c * s[i])
  }

  /** The same entries in the opposite order. */
  function Reverse<T>(s: seq<T>): seq<T>
  {
    seq(|s|, i requires 0 <= i < |s| => s[|s| - 1 - i])
  }

  predicate AllNonNegative(s: seq<real>)
  {
    forall i :: 0 <= i < |s| ==> s[i] >= 0.0
  }

  lemma ReverseInvolution<T>(s: seq<T>)
    ensures Reverse(Reverse(s)) == s
  {
    assert forall i :: 0 <= i < |s| ==> Reverse(Reverse(s))[i] == s[i];
  }

  lemma {:induction false} SumAppend(a: seq<real>, b: seq<real>)
    ensures Sum(a + b) == Sum(a) + Sum(b)
  {
    if a == [] {
      assert a + b == b;
    } else {
      assert (a + b)[1..] == a[1..] + b;
      SumAppend(a[1..], b);
    }
  }

  /** Summation does not depend on the order of the entries. */
  lemma {:induction false} SumReverse(s: seq<real>)
    ensures Sum(Reverse(s)) == Sum(s)
  {
    if s != [] {
      assert Reverse(s) == Reverse(s[1..]) + [s[0]];
      SumReverse(s[1..]);
      SumAppend(Reverse(s[1..]), [s[0]]);
      assert Sum([s[0]]) == s[0] + Sum([]);
    }
  }

  lemma {:induction false} SumNonNegative(s: seq<real>)
    requires AllNonNegative(s)
    ensures Sum(s) >= 0.0
  {
    if s != [] {
      SumNonNegative(s[1..]);
    }
  }

  /** A sum of non-negative entries is zero exactly when every entry is. */
  lemma {:induction false} SumZeroIff(s: seq<real>)
    requires AllNonNegative(s)
    ensures Sum(s) == 0.0 <==> forall i :: 0 <= i < |s| ==> s[i] == 0.0
  {
    if s != [] {
      SumZeroIff(s[1..]);
      SumNonNegative(s[1..]);
      if Sum(s) == 0.0 {
        assert s[0] == 0.0;
        forall i | 0 <= i < |s| ensures s[i] == 0.0 {
          if i > 0 { assert s[i] == s[1..][i - 1]; }
        }
      }
    }
  }

  /** A sum of non-negative entries bounds each entry from above. */
  lemma {:induction false} SumAtLeastEntry(s: seq<real>, k: int)
    requires AllNonNegative(s) && 0 <= k < |s|
    ensures Sum(s) >= s[k]
  {
    SumNonNegative(s[1..]);
    if k > 0 {
      SumAtLeastEntry(s[1..], k - 1);
    }
  }

  /** When every entry but the k-th is zero, the sum is that entry. */
  lemma {:induction false} SumSingleEntry(s: seq<real>, k: int)
    requires 0 <= k < |s|
    requires forall i :: 0 <= i < |s| && i != k ==> s[i] == 0.0
    ensures Sum(s) == s[k]
  {
    if k == 0 {
      assert AllNonNegative(s[1..]);
      SumZeroIff(s[1..]);
    } else {
      SumSingleEntry(s[1..], k - 1);
    }
  }

  lemma {:induction false} SumMinus(a: seq<real>, b: seq<real>)
    requires |a| == |b|
    ensures Sum(Minus(a, b)) == Sum(a) - Sum(b)
  {
    if a != [] {
      assert Minus(a, b)[1..] == Minus(a[1..], b[1..]);
      SumMinus(a[1..], b[1..]);
    }
  }

  lemma {:induction false} SumScale(c: real, s: seq<real>)
    ensures Sum(Scale(c, s)) == c * Sum(s)
  {
    if s != [] {
      assert forall i :: 0 <= i < |s| - 1 ==> Scale(c, s)[1..][i] == Scale(c, s[1..])[i];
      assert Scale(c, s)[1..] == Scale(c, s[1..]);
      SumScale(c, s[1..]);
      assert c * Sum(s) == c * s[0] + c * Sum(s[1..]);
    }
  }

  // Facts about squares. Each is stated so that the solver never has to
  // relate a square to a strict inequality directly.

  lemma SquareNonNegative(v: real)
    ensures Square(v) >= 0.0
  {
  }

  lemma MulPositive(a: real, b: real)
    requires a > 0.0 && b > 0.0
    ensures a * b > 0.0
  {
  }

  /** Beyond a positive bound, the square exceeds the bound's square. */
  lemma SquareGrows(x: real, l: real)
    requires 0.0 < l < x
    ensures Square(l) < Square(x)
  {
    MulPositive(x - l, x + l);
    assert (x - l) * (x + l) == Square(x) - Square(l);
  }

  /** A value whose square is at most `l * l`, for a positive `l`, lies in `[-l, l]`. */
  lemma SquareBound(x: real, l: real)
    requires l > 0.0 && Square(x) <= Square(l)
    ensures -l <= x <= l
  {
    if x > l {
      SquareGrows(x, l);
    } else if x < -l {
      assert Square(-x) == Square(x);
      SquareGrows(-x, l);
    }
  }

  /** Only zero squares to zero. */
  lemma SquareZero(v: real)
    requires Square(v) == 0.0
    ensures v == 0.0
  {
    if v > 0.0 {
      SquareNonNegative(v / 2.0);
      SquareBound(v, v / 2.0);
    } else if v < 0.0 {
      SquareNonNegative(-v / 2.0);
      SquareBound(v, -v / 2.0);
    }
  }

  lemma SquareNonZero(v: real)
    requires v != 0.0
    ensures Square(v) != 0.0
  {
    if Square(v) == 0.0 {
      SquareZero(v);
    }
  }
}
