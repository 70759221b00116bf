/** Finite sums of reals, accumulated left to right as the blur loops do. */
module Sums {

  /** The sum of `s`, adding one element at a time from the front. */
  function Sum(s: seq<real>): real
  {
    if |s| == 0 then 0.0 else Sum(s[..|s| - 1]) + s[|s| - 1]
  }

  /** Adding the next element to a running prefix sum. */
  lemma SumPrefixStep(s: seq<real>, i: nat)
    requires i < |s|
    ensures Sum(s[..i + 1]) == Sum(s[..i]) + s[i]
  {
    assert s[..i + 1][..i] == s[..i];
  }

  /** The same step, stated for the prefix that ends at `i`. */
  lemma SumPrefixLast(s: seq<real>, i: int)
    requires 0 < i <= |s|
    ensures Sum(s[..i]) == Sum(s[..i - 1]) + s[i - 1]
  {
    SumPrefixStep(s, i - 1);
  }

  /** Appending one term adds it to the sum. */
  lemma SumSnoc(s: seq<real>, v: real)
    ensures Sum(s + [v]) == Sum(s) + v
  {
    assert (s + [v])[..|s|] == s;
  }

  lemma {:induction false} SumAppend(a: seq<real>, b: seq<real>)
    ensures Sum(a + b) == Sum(a) + Sum(b)
    decreases |b|
  {
    if |b| == 0 {
      assert a + b == a;
    } else {
      assert (a + b)[..|a + b| - 1] == a + b[..|b| - 1];
      SumAppend(a, b[..|b| - 1]);
    }
  }

  /** Each term of `s` is `c` times the matching term of `w`. */
  predicate ScaledBy(s: seq<real>, w: seq<real>, c: real)
  {
    |s| == |w| && forall i :: 0 <= i < |s| ==> s[i] == c * w[i]
  }

  /** Pulling a common factor out of a sum. */
  lemma {:induction false} SumScaled(s: seq<real>, w: seq<real>, c: real)
    requires ScaledBy(s, w, c)
    ensures Sum(s) == c * Sum(w)
  {
    if |s| > 0 {
      SumScaled(s[..|s| - 1], w[..|w| - 1], c);
    }
  }

  /** Every term of `w` multiplied by `c`. */
  function Scaled(w: seq<real>, c: real): (s: seq<real>)
    ensures |s| == |w|
  {
    seq(|w|, i requires 0 <= i < |w| => c * w[i])
  }

  /** Scaling every term scales the sum. */
  lemma SumOfScaled(w: seq<real>, c: real)
    ensures Sum(Scaled(w, c)) == c * Sum(w)
  {
    SumScaled(Scaled(w, c), w, c);
  }

  /** Scaling terms that add up to one by `c` gives a sum of `c`. */
  lemma SumScaledUnit(s: seq<real>, w: seq<real>, c: real)
    requires ScaledBy(s, w, c) && Sum(w) == 1.0
    ensures Sum(s) == c
  {
    SumScaled(s, w, c);
  }

  /** Joining two sequences of positive terms gives one. */
  lemma AppendPositive(a: seq<real>, b: seq<real>)
    requires forall i :: 0 <= i < |a| ==> a[i] > 0.0
    requires forall i :: 0 <= i < |b| ==> b[i] > 0.0
    ensures forall i :: 0 <= i < |a + b| ==> (a + b)[i] > 0.0
  {
    forall i | 0 <= i < |a + b|
      ensures (a + b)[i] > 0.0
    {
      if i >= |a| {
        assert (a + b)[i] == b[i - |a|];
      }
    }
  }

  /** Each term of `s` lies between zero and `c` times the matching term of
      `w`. */
  predicate Between(s: seq<real>, w: seq<real>, c: real)
  {
    |s| == |w| && forall i :: 0 <= i < |s| ==> 0.0 <= s[i] <= c * w[i]
  }

  /** Terms between zero and `c` times their weights add up to between zero
      and `c` times the total weight. */
  lemma {:induction false} SumBetween(s: seq<real>, w: seq<real>, c: real)
    requires Between(s, w, c)
    ensures 0.0 <= Sum(s) <= c * Sum(w)
  {
    if |s| > 0 {
      var m := |s| - 1;
      SumBetween(s[..m], w[..m], c);
      assert c * Sum(w) == c * Sum(w[..m]) + c * w[m];
    }
  }

  /** Terms between zero and `c` times weights that add up to one add up to
      between zero and `c`. */
  lemma SumBetweenUnit(s: seq<real>, w: seq<real>, c: real)
    requires Between(s, w, c) && Sum(w) == 1.0
    ensures 0.0 <= Sum(s) <= c
  {
    SumBetween(s, w, c);
  }

  lemma {:induction false} SumPositive(s: seq<real>)
    requires |s| > 0
    requires forall i :: 0 <= i < |s| ==> s[i] > 0.0
    ensures Sum(s) > 0.0
  {
    if |s| > 1 {
      SumPositive(s[..|s| - 1]);
    }
  }

  lemma DivAdd(a: real, b: real, d: real)
    requires d != 0.0
    ensures a / d + b / d == (a + b) / d
  {
    var x, y, z := a / d, b / d, (a + b) / d;
    assert x * d == a && y * d == b && z * d == a + b;
    assert (x + y - z) * d == 0.0;
  }

  lemma DivPositive(a: real, d: real)
    requires a > 0.0 && d > 0.0
    ensures a / d > 0.0
  {
  }

  lemma DivSelf(d: real)
    requires d != 0.0
    ensures d / d == 1.0
  {
  }

  /** A total made of two parts that are multiples of `c` is the sum of the
      factors times `c`. */
  lemma Distribute(total: real, left: real, a: real, b: real, ab: real, c: real)
    requires left == a * c && total == left + b * c && ab == a + b
    ensures total == ab * c
  {
  }

  lemma ZeroProduct(u: real, v: real)
    requires v != 0.0 && u * v == 0.0
    ensures u == 0.0
  {
  }

  /** Equal factors give equal products. */
  lemma MulCongruence(a: real, b: real, c: real, d: real)
    requires a == c && b == d
    ensures a * b == c * d
  {
  }

  /** A non-zero factor common to both sides cancels. */
  lemma CancelFactor(u: real, v: real, c: real)
    requires c != 0.0 && u * c == v * c
    ensures u == v
  {
    assert (u - v) * c == u * c - v * c;
    ZeroProduct(u - v, c);
  }

  function Square(v: real): real
  {
    v * v
  }

  /** A quotient of products over the square of `d` splits into a product of
      quotients by `d`. */
  lemma QuotientOfProducts(num: real, den: real, a: real, b: real, d: real)
    requires d > 0.0 && den > 0.0 && num == a * b && den == Square(d)
    ensures num / den == (a / d) * (b / d)
  {
    var x, y, z := a / d, b / d, num / den;
    assert z * den == num;
    assert x * d == a && y * d == b;
    assert (x * y) * den == (x * d) * (y * d);
    MulCongruence(x * d, y * d, a, b);
    CancelFactor(x * y, z, den);
  }

  /** A quotient of squares is the square of the quotient. */
  lemma QuotientOfSquares(num: real, den: real, a: real, d: real)
    requires d > 0.0 && den > 0.0 && num == Square(a) && den == Square(d)
    ensures num / den == Square(a / d)
  {
    QuotientOfProducts(num, den, a, a, d);
  }

  /** Dividing every term by `d` divides the sum by `d`. */
  lemma {:induction false} SumDivided(s: seq<real>, w: seq<real>, d: real)
    requires |s| == |w| && d != 0.0
    requires forall i :: 0 <= i < |s| ==> s[i] == w[i] / d
    ensures Sum(s) == Sum(w) / d
  {
    if |s| > 0 {
      var m := |s| - 1;
      SumDivided(s[..m], w[..m], d);
      DivAdd(Sum(w[..m]), w[m], d);
    }
  }

  /** Terms divided by their common total `d` add up to one. */
  lemma SumNormalised(s: seq<real>, w: seq<real>, d: real)
    requires |s| == |w| && d == Sum(w) && d != 0.0
    requires forall i :: 0 <= i < |s| ==> s[i] == w[i] / d
    ensures Sum(s) == 1.0
  {
    SumDivided(s, w, d);
    DivSelf(d);
  }
}
