/**
 The normal equations of `rtnc_tx_eq_design` are a Gram matrix plus the regularization,
 so elimination with partial pivoting never lacks a pivot.
 */
module TxPivots {
  import opened Numbers
  import opened LinearSolver
  import opened TxEq
  import opened TxOptimal

  /** The quadratic form of the points, over the first n of them and r directions. */
  function Quadratic(d: Design, x: seq<real>, n: nat, r: nat): real
    requires d.Valid() && n <= |d.p.frequencies| && |x| == COEFFICIENTS && r <= COEFFICIENTS
  {
    if r == 0 then 0.0 else Quadratic(d, x, n, r - 1) + Product(x[r - 1], Left(d, x, r - 1, n, COEFFICIENTS))
  }

  lemma {:induction false} QuadraticStep(d: Design, x: seq<real>, n: nat, r: nat)
    requires d.Valid() && 0 < n <= |d.p.frequencies| && |x| == COEFFICIENTS && r <= COEFFICIENTS
    ensures Quadratic(d, x, n, r) == Quadratic(d, x, n - 1, r)
         + if d.Counts(n - 1) then Product(Model(d, n - 1, x, r), Model(d, n - 1, x, COEFFICIENTS)) else 0.0
  {
    hide Left, B, Product;
    if r > 0 {
      QuadraticStep(d, x, n, r - 1);
      LeftStep(d, x, r - 1, n, COEFFICIENTS);
      if d.Counts(n - 1) {
        var b, e := B(d, n - 1, r - 1), Model(d, n - 1, x, COEFFICIENTS);
        ProductSum(Left(d, x, r - 1, n - 1, COEFFICIENTS), Product(b, e), x[r - 1]);
        Swap(x[r - 1], b, e);
        ProductSum(Model(d, n - 1, x, r - 1), Product(b, x[r - 1]), e);
      }
    } else if d.Counts(n - 1) {
      ProductNothing(Model(d, n - 1, x, COEFFICIENTS));
    }
  }

  lemma Swap(x: real, b: real, e: real)
    ensures Product(x, Product(b, e)) == Product(Product(b, x), e)
  {}

  lemma {:induction false} NoPoints(d: Design, x: seq<real>, r: nat)
    requires d.Valid() && |x| == COEFFICIENTS && r <= COEFFICIENTS
    ensures Quadratic(d, x, 0, r) == 0.0
  {
    if r > 0 {
      NoPoints(d, x, r - 1);
      LeftOfNothing(d, x, r - 1, COEFFICIENTS);
      ProductNothing(x[r - 1]);
    }
  }

  /** The form is the energy of the response: never negative. */
  lemma {:induction false} QuadraticIsEnergy(d: Design, x: seq<real>, n: nat)
    requires d.Valid() && n <= |d.p.frequencies| && |x| == COEFFICIENTS
    ensures Quadratic(d, x, n, COEFFICIENTS) == Energy(d, x, n)
  {
    hide Quadratic, Model, Product;
    if n == 0 {
      NoPoints(d, x, COEFFICIENTS);
    } else {
      QuadraticIsEnergy(d, x, n - 1);
      QuadraticStep(d, x, n, COEFFICIENTS);
    }
  }

  /** The quadratic form of the matrix over its first r rows. */
  function Form(m: Matrix, x: seq<real>, r: nat): real
    requires Shaped(m, COEFFICIENTS) && |x| == COEFFICIENTS && r <= COEFFICIENTS
  {
    if r == 0 then 0.0 else Form(m, x, r - 1) + Product(x[r - 1], Dot(m[r - 1], x, COEFFICIENTS))
  }

  lemma ProductScaled(x: real, a: real)
    ensures Product(x, a + REGULARIZATION * x) == Product(x, a) + REGULARIZATION * Product(x, x)
  {
    assert x * (a + REGULARIZATION * x) == x * a + REGULARIZATION * (x * x);
  }

  lemma {:induction false} FormIs(d: Design, m: Matrix, x: seq<real>, r: nat)
    requires d.Valid() && NormalSystem(m, d.p, d.cos, d.reference, d.low, d.high) && |x| == COEFFICIENTS && r <= COEFFICIENTS
    ensures Form(m, x, r) == Quadratic(d, x, |d.p.frequencies|, r) + REGULARIZATION * Length(x, r)
  {
    hide Left, Product, Dot, Normal;
    if r > 0 {
      FormIs(d, m, x, r - 1);
      RowIs(d, m, x, r - 1, COEFFICIENTS);
      ProductScaled(x[r - 1], Left(d, x, r - 1, |d.p.frequencies|, COEFFICIENTS));
    }
  }

  lemma TinyProduct(x: real, t: real)
    requires -TINY < t < TINY
    ensures Product(x, t) <= TINY * (1.0 + Product(x, x))
  {
    var size := if x < 0.0 then -x else x;
    assert x * t <= size * TINY by {
      Between(size, if x < 0.0 then -t else t);
    }
    assert 1.0 + x * x >= size by {
      assert (size - 1.0) * (size - 1.0) >= 0.0;
    }
    Between2(size, 1.0 + x * x);
  }

  lemma Between(size: real, t: real)
    requires size >= 0.0 && t < TINY
    ensures size * t <= size * TINY
  {}

  lemma Between2(size: real, bound: real)
    requires size <= bound
    ensures size * TINY <= TINY * bound
  {}

  /** A direction that is all but annihilated has next to no quadratic form. */
  lemma {:induction false} TinyForm(m: Matrix, x: seq<real>, column: nat, r: nat)
    requires Shaped(m, COEFFICIENTS) && |x| == COEFFICIENTS && NearlyNull(m, x, column, COEFFICIENTS) && r <= COEFFICIENTS
    ensures Form(m, x, r) <= TINY * (r as real + Length(x, r))
  {
    hide Dot, Product;
    if r > 0 {
      TinyForm(m, x, column, r - 1);
      TinyProduct(x[r - 1], Dot(m[r - 1], x, COEFFICIENTS));
    }
  }

  lemma {:induction false} LongEnough(x: seq<real>, column: nat, n: nat)
    requires column < n <= |x| && x[column] == 1.0
    ensures Length(x, n) >= 1.0
  {
    Square(x[n - 1]);
    if column < n - 1 {
      LongEnough(x, column, n - 1);
    }
  }

  /** The normal equations annihilate no direction, not even nearly. */
  lemma NormalIsRegular(m: Matrix, p: Points, cos: Cosine, reference: real, low: real, high: real)
    requires |p.frequencies| == |p.amplitudes|
    requires forall k | 0 <= k < |p.frequencies| && InBand(p.frequencies[k], low, high) :: p.amplitudes[k] > 0.0
    requires NormalSystem(m, p, cos, reference, low, high)
    ensures !NearlySingular(m, COEFFICIENTS)
  {
    var d := Design(p, cos, reference, low, high);
    forall x: seq<real>, column: nat | |x| == COEFFICIENTS ensures !NearlyNull(m, x, column, COEFFICIENTS) {
      if NearlyNull(m, x, column, COEFFICIENTS) {
        var n := |p.frequencies|;
        FormIs(d, m, x, COEFFICIENTS);
        QuadraticIsEnergy(d, x, n);
        LongEnough(x, column, COEFFICIENTS);
        TinyForm(m, x, column, COEFFICIENTS);
        hide Form, Quadratic, Energy, Length, NormalSystem;
        assert false;
      }
    }
  }
}
