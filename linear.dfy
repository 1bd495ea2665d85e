/** Pure linear algebra over exact reals: the values that the matrix buffers hold.
    Every function is total; where two operands disagree in length the shorter one wins,
    and the model layer always supplies agreeing shapes. */
module Linear {

  type Vector = seq<real>
  type Matrix = seq<Vector>

  function Min(a: nat, b: nat): nat
  {
    if a <= b then a else b
  }

  /** The sum of a vector, defined from the front. */
  function Sum(v: Vector): real
    decreases |v|
  {
    if |v| == 0 then 0.0 else v[0] + Sum(v[1..])
  }

  /** Appending one element adds it to the sum; this ties the front-recursive Sum to a
      running total accumulated from the left, which is how every loop of the source sums. */
  lemma {:induction false} SumSnoc(v: Vector, x: real)
    ensures Sum(v + [x]) == Sum(v) + x
  {
    if |v| == 0 {
      assert v + [x] == [x];
      assert [x][1..] == [];
    } else {
      assert (v + [x])[1..] == v[1..] + [x];
      SumSnoc(v[1..], x);
    }
  }

  /** One step of a left-to-right running total over a prefix. */
  lemma SumPrefix(v: Vector, k: nat)
    requires k < |v|
    ensures Sum(v[..k + 1]) == Sum(v[..k]) + v[k]
  {
    assert v[..k + 1] == v[..k] + [v[k]];
    SumSnoc(v[..k], v[k]);
  }

  /** The mean of a vector of one element is that element. */
  lemma MeanSingle(v: Vector, n: real)
    requires |v| == 1 && n == 1.0
    ensures Sum(v) / n == v[0]
  {
    assert v[1..] == [];
  }

  /** The sum of the first k elements, accumulated from the left as every loop of the
      engine accumulates. */
  function SumTo(v: Vector, k: nat): real
    requires k <= |v|
  {
    if k == 0 then 0.0 else SumTo(v, k - 1) + v[k - 1]
  }

  /** The running total over all elements is the sum. */
  lemma SumToIsSum(v: Vector)
    ensures SumTo(v, |v|) == Sum(v)
  {
    SumToPrefix(v, |v|);
    assert v[..|v|] == v;
  }

  lemma {:induction false} SumToPrefix(v: Vector, k: nat)
    requires k <= |v|
    ensures SumTo(v, k) == Sum(v[..k])
  {
    if k > 0 {
      SumToPrefix(v, k - 1);
      SumPrefix(v, k - 1);
    }
  }

  /** A sum of non-negative terms is non-negative. */
  lemma {:induction false} SumNonNegative(v: Vector)
    requires forall k :: 0 <= k < |v| ==> v[k] >= 0.0
    ensures Sum(v) >= 0.0
  {
    if |v| > 0 {
      SumNonNegative(v[1..]);
    }
  }

  /** A sum of non-negative terms is zero exactly when every term is zero. */
  lemma {:induction false} SumZeroIff(v: Vector)
    requires forall k :: 0 <= k < |v| ==> v[k] >= 0.0
    ensures Sum(v) == 0.0 <==> forall k :: 0 <= k < |v| ==> v[k] == 0.0
  {
    if |v| > 0 {
      SumNonNegative(v[1..]);
      SumZeroIff(v[1..]);
      if Sum(v) == 0.0 {
        forall k | 0 <= k < |v| ensures v[k] == 0.0 {
          if k > 0 { assert v[k] == v[1..][k - 1]; }
        }
      }
    }
  }

  /** Pointwise products x[k]*y[k]. */
  function Products(x: Vector, y: Vector): (p: Vector)
    ensures |p| == Min(|x|, |y|)
  {
    seq(Min(|x|, |y|), k requires 0 <= k < Min(|x|, |y|) => x[k] * y[k])
  }

  /** The dot product Σ_k x[k]*y[k]. */
  function Dot(x: Vector, y: Vector): real
  {
    Sum(Products(x, y))
  }

  /** Dot product computed by recursion on the first pair: an independent definition
      that Dot agrees with. */
  function DotRec(x: Vector, y: Vector): real
    decreases |x|
  {
    if |x| == 0 || |y| == 0 then 0.0 else x[0] * y[0] + DotRec(x[1..], y[1..])
  }

  lemma {:induction false} DotIsDotRec(x: Vector, y: Vector)
    ensures Dot(x, y) == DotRec(x, y)
  {
    if |x| > 0 && |y| > 0 {
      assert forall k :: 0 <= k < |Products(x[1..], y[1..])| ==>
        Products(x, y)[1..][k] == Products(x[1..], y[1..])[k];
      assert Products(x, y)[1..] == Products(x[1..], y[1..]);
      DotIsDotRec(x[1..], y[1..]);
    }
  }

  /** Σ_{k < n} x[k]*y[k], accumulated from the left. */
  function DotTo(x: Vector, y: Vector, n: nat): real
    requires n <= |x| && n <= |y|
  {
    if n == 0 then 0.0 else DotTo(x, y, n - 1) + x[n - 1] * y[n - 1]
  }

  lemma DotToIsDot(x: Vector, y: Vector)
    requires |x| == |y|
    ensures DotTo(x, y, |x|) == Dot(x, y)
  {
    DotToSumTo(x, y, |x|);
    SumToIsSum(Products(x, y));
  }

  lemma {:induction false} DotToSumTo(x: Vector, y: Vector, n: nat)
    requires n <= |x| == |y|
    ensures DotTo(x, y, n) == SumTo(Products(x, y), n)
  {
    if n > 0 {
      DotToSumTo(x, y, n - 1);
    }
  }

  /** Column j of a matrix (0 where a row is too short). */
  function Col(a: Matrix, j: nat): (c: Vector)
    ensures |c| == |a|
  {
    seq(|a|, i requires 0 <= i < |a| => if j < |a[i]| then a[i][j] else 0.0)
  }

  /** r rows of c copies of x. */
  function Constant(r: nat, c: nat, x: real): (a: Matrix)
    ensures |a| == r && forall i :: 0 <= i < r ==> |a[i]| == c
  {
    seq(r, i => seq(c, j => x))
  }

  /** True when a is r × c. */
  predicate IsShape(a: Matrix, r: nat, c: nat)
  {
    |a| == r && forall i :: 0 <= i < r ==> |a[i]| == c
  }

  /** n zeros. */
  function Zeros(n: nat): (v: Vector)
    ensures |v| == n && forall k :: 0 <= k < n ==> v[k] == 0.0
  {
    seq(n, k => 0.0)
  }

  /** Every element multiplied by c. */
  function Scaled(c: real, v: Vector): (u: Vector)
    ensures |u| == |v| && forall k :: 0 <= k < |v| ==> u[k] == c * v[k]
  {
    seq(|v|, k requires 0 <= k < |v| => c * v[k])
  }

  /** 2 to the power n. */
  function Pow2(n: nat): real
  {
    if n == 0 then 1.0 else 2.0 * Pow2(n - 1)
  }

  /** x doubled k times, that is 2^k * x. */
  function Doubled(k: nat, x: real): real
  {
    if k == 0 then x else 2.0 * Doubled(k - 1, x)
  }

  lemma {:induction false} DoubledIsPow2(k: nat, x: real)
    ensures Doubled(k, x) == Pow2(k) * x
  {
    if k > 0 {
      DoubledIsPow2(k - 1, x);
      assert 2.0 * (Pow2(k - 1) * x) == (2.0 * Pow2(k - 1)) * x;
    }
  }

  lemma {:induction false} DoubledAdd(k: nat, x: real, y: real)
    ensures Doubled(k, x + y) == Doubled(k, x) + Doubled(k, y)
  {
    if k > 0 {
      DoubledAdd(k - 1, x, y);
    }
  }

  lemma {:induction false} DoubledDivided(k: nat, x: real, d: real)
    requires d != 0.0
    ensures Doubled(k, x) / d == Doubled(k, x / d)
  {
    if k > 0 {
      DoubledDivided(k - 1, x, d);
      assert (2.0 * Doubled(k - 1, x)) / d == 2.0 * (Doubled(k - 1, x) / d);
    }
  }

  /** A sum of doubled terms is the doubled sum. */
  lemma {:induction false} SumDoubled(k: nat, u: Vector, v: Vector)
    requires |u| == |v| && forall i :: 0 <= i < |v| ==> u[i] == Doubled(k, v[i])
    ensures Sum(u) == Doubled(k, Sum(v))
    decreases |v|
  {
    if |v| == 0 {
      assert Doubled(k, 0.0) == Pow2(k) * 0.0 by { DoubledIsPow2(k, 0.0); }
    } else {
      SumDoubled(k, u[1..], v[1..]);
      DoubledAdd(k, v[0], Sum(v[1..]));
    }
  }

  /** Each element of u is the matching element of v doubled k times. */
  predicate DoubledEach(k: nat, u: Vector, v: Vector)
  {
    |u| == |v| && forall i :: 0 <= i < |v| ==> u[i] == Doubled(k, v[i])
  }

  /** Doubling every element k times doubles the mean k times. */
  lemma MeanDoubled(k: nat, u: Vector, v: Vector, n: real)
    requires n != 0.0 && DoubledEach(k, u, v)
    ensures Sum(u) / n == Doubled(k, Sum(v) / n)
  {
    SumDoubled(k, u, v);
    DoubledDivided(k, Sum(v), n);
  }

  /** Doubling k > 0 times changes every x but 0. */
  lemma {:induction false} DoubledFixed(k: nat, x: real)
    ensures Doubled(k, x) == x <==> k == 0 || x == 0.0
  {
    if k > 0 {
      Pow2AtLeastTwo(k);
      DoubledIsPow2(k, x);
      if x != 0.0 {
        assert Pow2(k) != 1.0;
        assert Pow2(k) * x - x == (Pow2(k) - 1.0) * x;
      }
    }
  }

  lemma {:induction false} Pow2AtLeastTwo(k: nat)
    requires k > 0
    ensures Pow2(k) >= 2.0
  {
    if k > 1 {
      Pow2AtLeastTwo(k - 1);
    }
  }

  /** Scaling twice is scaling by the product. */
  lemma ScaledScaled(c: real, d: real, v: Vector)
    ensures Scaled(c, Scaled(d, v)) == Scaled(c * d, v)
  {
    forall k | 0 <= k < |v| ensures Scaled(c, Scaled(d, v))[k] == Scaled(c * d, v)[k] {
      assert c * (d * v[k]) == (c * d) * v[k];
    }
  }

  /** A sum is linear in a common factor. */
  lemma {:induction false} SumScaled(c: real, v: Vector)
    ensures Sum(Scaled(c, v)) == c * Sum(v)
    decreases |v|
  {
    if |v| > 0 {
      assert forall k :: 0 <= k < |v| - 1 ==> Scaled(c, v)[1..][k] == Scaled(c, v[1..])[k];
      assert Scaled(c, v)[1..] == Scaled(c, v[1..]);
      SumScaled(c, v[1..]);
    }
  }

  /** A dot product is linear in a common factor of its first operand. */
  lemma DotScaled(c: real, x: Vector, y: Vector)
    ensures Dot(Scaled(c, x), y) == c * Dot(x, y)
  {
    var p := Products(x, y);
    forall k | 0 <= k < |p| ensures Products(Scaled(c, x), y)[k] == Scaled(c, p)[k] {
      assert (c * x[k]) * y[k] == c * (x[k] * y[k]);
    }
    assert Products(Scaled(c, x), y) == Scaled(c, p);
    SumScaled(c, p);
  }

  /** Every element divided by d. */
  function Divided(a: Matrix, d: real): (q: Matrix)
    requires d != 0.0
    ensures |q| == |a| && forall i :: 0 <= i < |a| ==> |q[i]| == |a[i]|
  {
    seq(|a|, i requires 0 <= i < |a| => seq(|a[i]|, j requires 0 <= j < |a[i]| => a[i][j] / d))
  }

  /** x moved by -rate*d. */
  function StepCell(x: real, d: real, rate: real): real
  {
    x - rate * d
  }

  /** Every element a(i, j) moved by -rate*g(i, j). */
  function Moved(a: Matrix, g: Matrix, rate: real): (c: Matrix)
    requires |g| == |a| && forall i :: 0 <= i < |a| ==> |g[i]| == |a[i]|
    ensures |c| == |a| && forall i :: 0 <= i < |a| ==> |c[i]| == |a[i]|
  {
    seq(|a|, i requires 0 <= i < |a| => seq(|a[i]|, j requires 0 <= j < |a[i]| => StepCell(a[i][j], g[i][j], rate)))
  }
}
