/**
 What the normal equations of `rtnc_tx_eq_design` are for: their solution is the one
 vector of coefficients with the least regularized squared error over the band.
 */
module TxOptimal {
  import opened Numbers
  import opened LinearSolver
  import opened TxEq

  /** Points, target and band of one design. */
  datatype Design = Design(p: Points, cos: Cosine, reference: real, low: real, high: real) {
    ghost predicate Valid() {
      |p.frequencies| == |p.amplitudes| && forall k | 0 <= k < |p.frequencies| && InBand(p.frequencies[k], low, high) :: p.amplitudes[k] > 0.0
    }

    predicate Counts(k: nat)
      requires k < |p.frequencies|
    {
      InBand(p.frequencies[k], low, high)
    }
  }

  function B(d: Design, k: nat, c: nat): real
    requires k < |d.p.frequencies|
  {
    Basis(d.cos, d.p.frequencies[k], c)
  }

  /** Response of the coefficients at point k, over the first n of them. */
  function Model(d: Design, k: nat, x: seq<real>, n: nat): real
    requires k < |d.p.frequencies| && n <= |x|
  {
    if n == 0 then 0.0 else Model(d, k, x, n - 1) + Product(B(d, k, n - 1), x[n - 1])
  }

  function Error(d: Design, k: nat, x: seq<real>): real
    requires d.Valid() && k < |d.p.frequencies| && d.Counts(k) && |x| == COEFFICIENTS
  {
    Model(d, k, x, COEFFICIENTS) - Desired(d.reference, d.p.amplitudes[k])
  }

  /** Squared error over the in-band points among the first n. */
  function Misfit(d: Design, x: seq<real>, n: nat): real
    requires d.Valid() && n <= |d.p.frequencies| && |x| == COEFFICIENTS
  {
    if n == 0 then 0.0
    else Misfit(d, x, n - 1) + if d.Counts(n - 1) then Product(Error(d, n - 1, x), Error(d, n - 1, x)) else 0.0
  }

  function Identity(c: nat): real {
    if c == 0 then 1.0 else 0.0
  }

  /** Squared distance from the identity filter. */
  function Distance(x: seq<real>, n: nat): real
    requires n <= |x|
  {
    if n == 0 then 0.0 else Distance(x, n - 1) + Product(x[n - 1] - Identity(n - 1), x[n - 1] - Identity(n - 1))
  }

  function Cost(d: Design, x: seq<real>): real
    requires d.Valid() && |x| == COEFFICIENTS
  {
    Misfit(d, x, |d.p.frequencies|) + 0.03 * Distance(x, COEFFICIENTS)
  }

  // ---------------------------------------------------------------- the gradient

  /** Half the derivative of the squared error in direction r, over the first n points. */
  function Slope(d: Design, x: seq<real>, r: nat, n: nat): real
    requires d.Valid() && n <= |d.p.frequencies| && |x| == COEFFICIENTS
  {
    if n == 0 then 0.0 else Slope(d, x, r, n - 1) + if d.Counts(n - 1) then Product(B(d, n - 1, r), Error(d, n - 1, x)) else 0.0
  }

  /** Left-hand side of the normal equation r over the first n points and c coefficients. */
  function Left(d: Design, x: seq<real>, r: nat, n: nat, c: nat): real
    requires d.Valid() && n <= |d.p.frequencies| && c <= |x|
  {
    if c == 0 then 0.0 else Left(d, x, r, n, c - 1) + Product(Normal(d.p, d.cos, d.reference, d.low, d.high, n, r, c - 1), x[c - 1])
  }

  lemma ProductSum(a: real, b: real, x: real)
    ensures Product(a + b, x) == Product(a, x) + Product(b, x) && Product(x, a + b) == Product(x, a) + Product(x, b)
  {}

  lemma ProductTwice(a: real, b: real, x: real)
    ensures Product(Product(a, b), x) == Product(a, Product(b, x)) == Product(b, Product(a, x))
  {}

  lemma {:induction false} LeftStep(d: Design, x: seq<real>, r: nat, n: nat, c: nat)
    requires d.Valid() && 0 < n <= |d.p.frequencies| && c <= |x| == COEFFICIENTS
    ensures Left(d, x, r, n, c) == Left(d, x, r, n - 1, c) + if d.Counts(n - 1) then Product(B(d, n - 1, r), Model(d, n - 1, x, c)) else 0.0
  {
    hide Product, Basis, Normal;
    if c > 0 {
      LeftStep(d, x, r, n, c - 1);
      NormalEntry(d, r, n, c - 1);
      if d.Counts(n - 1) {
        var b, e := B(d, n - 1, r), B(d, n - 1, c - 1);
        ProductSum(Normal(d.p, d.cos, d.reference, d.low, d.high, n - 1, r, c - 1), Product(b, e), x[c - 1]);
        ProductTwice(b, e, x[c - 1]);
        ProductSum(Model(d, n - 1, x, c - 1), Product(e, x[c - 1]), b);
      }
    } else if d.Counts(n - 1) {
      ProductNothing(B(d, n - 1, r));
    }
  }

  lemma ProductNothing(a: real)
    ensures Product(a, 0.0) == 0.0 == Product(0.0, a)
  {}

  lemma NormalEntry(d: Design, r: nat, n: nat, c: nat)
    requires d.Valid() && 0 < n <= |d.p.frequencies| && c < COEFFICIENTS
    ensures Normal(d.p, d.cos, d.reference, d.low, d.high, n, r, c)
         == Normal(d.p, d.cos, d.reference, d.low, d.high, n - 1, r, c)
            + if d.Counts(n - 1) then Product(B(d, n - 1, r), B(d, n - 1, c)) else 0.0
  {
    hide Basis, Desired;
  }

  lemma NormalCons(d: Design, r: nat, n: nat)
    requires d.Valid() && 0 < n <= |d.p.frequencies|
    ensures Normal(d.p, d.cos, d.reference, d.low, d.high, n, r, COEFFICIENTS)
         == Normal(d.p, d.cos, d.reference, d.low, d.high, n - 1, r, COEFFICIENTS)
            + if d.Counts(n - 1) then Product(B(d, n - 1, r), Desired(d.reference, d.p.amplitudes[n - 1])) else 0.0
  {
    hide Basis, Desired;
  }

  lemma SlopeCons(d: Design, x: seq<real>, r: nat, n: nat)
    requires d.Valid() && 0 < n <= |d.p.frequencies| && |x| == COEFFICIENTS
    ensures Slope(d, x, r, n) == Slope(d, x, r, n - 1) + if d.Counts(n - 1) then Product(B(d, n - 1, r), Error(d, n - 1, x)) else 0.0
  {
    hide Basis, Desired, Error;
  }

  lemma ErrorIs(d: Design, k: nat, x: seq<real>)
    requires d.Valid() && k < |d.p.frequencies| && d.Counts(k) && |x| == COEFFICIENTS
    ensures Error(d, k, x) == Model(d, k, x, COEFFICIENTS) - Desired(d.reference, d.p.amplitudes[k])
  {}

  lemma ProductDifference(b: real, m: real, t: real)
    ensures Product(b, m) - Product(b, t) == Product(b, m - t)
  {}

  /** A normal equation says that the squared error has slope zero, but for the regularization. */
  lemma {:induction false} EquationIsSlope(d: Design, x: seq<real>, r: nat, n: nat)
    requires d.Valid() && n <= |d.p.frequencies| && |x| == COEFFICIENTS && r < COEFFICIENTS
    ensures Left(d, x, r, n, COEFFICIENTS) - Normal(d.p, d.cos, d.reference, d.low, d.high, n, r, COEFFICIENTS) == Slope(d, x, r, n)
  {
    if n == 0 {
      LeftOfNothing(d, x, r, COEFFICIENTS);
      hide Left;
    } else {
      EquationIsSlope(d, x, r, n - 1);
      LeftStep(d, x, r, n, COEFFICIENTS);
      NormalCons(d, r, n);
      SlopeCons(d, x, r, n);
      hide Left, Normal, Slope, Model, Error, Basis, Desired, B, Product;
      if d.Counts(n - 1) {
        ErrorIs(d, n - 1, x);
        ProductDifference(B(d, n - 1, r), Model(d, n - 1, x, COEFFICIENTS), Desired(d.reference, d.p.amplitudes[n - 1]));
      }
    }
  }

  lemma {:induction false} LeftOfNothing(d: Design, x: seq<real>, r: nat, c: nat)
    requires d.Valid() && c <= |x|
    ensures Left(d, x, r, 0, c) == 0.0
  {
    if c > 0 {
      LeftOfNothing(d, x, r, c - 1);
      ProductNothing(x[c - 1]);
    }
  }

  // ---------------------------------------------------------------- the system solved

  /** Row r of the solved matrix, in terms of the points and the pull towards the identity. */
  lemma {:induction false} RowIs(d: Design, m: Matrix, x: seq<real>, r: nat, c: nat)
    requires d.Valid() && NormalSystem(m, d.p, d.cos, d.reference, d.low, d.high) && |x| == COEFFICIENTS && r < COEFFICIENTS && c <= COEFFICIENTS
    ensures Dot(m[r], x, c) == Left(d, x, r, |d.p.frequencies|, c) + if r < c then REGULARIZATION * x[r] else 0.0
  {
    hide Normal;
    if c > 0 {
      RowIs(d, m, x, r, c - 1);
      var a := Normal(d.p, d.cos, d.reference, d.low, d.high, |d.p.frequencies|, r, c - 1);
      assert m[r][c - 1] == a + Pull(r, c - 1);
      ProductSum(a, Pull(r, c - 1), x[c - 1]);
    }
  }

  /** At the solution the slope of the squared error balances the pull towards the identity. */
  lemma Balanced(d: Design, m: Matrix, x: seq<real>, r: nat)
    requires d.Valid() && NormalSystem(m, d.p, d.cos, d.reference, d.low, d.high) && |x| == COEFFICIENTS && r < COEFFICIENTS
    requires Solves(m, x)
    ensures Slope(d, x, r, |d.p.frequencies|) + REGULARIZATION * (x[r] - Identity(r)) == 0.0
  {
    assert Holds(m[r], x);
    RowIs(d, m, x, r, COEFFICIENTS);
    EquationIsSlope(d, x, r, |d.p.frequencies|);
    assert m[r][COEFFICIENTS] == Normal(d.p, d.cos, d.reference, d.low, d.high, |d.p.frequencies|, r, COEFFICIENTS) + Pull(r, COEFFICIENTS);
    hide Normal, Left, Slope, Dot;
  }

  // ---------------------------------------------------------------- moving away from the solution

  function Minus(x: seq<real>, c: seq<real>): (y: seq<real>)
    requires |x| == |c|
    ensures |y| == |x|
  {
    seq(|x|, i requires 0 <= i < |x| => x[i] - c[i])
  }

  lemma {:induction false} ModelMoves(d: Design, k: nat, x: seq<real>, c: seq<real>, n: nat)
    requires k < |d.p.frequencies| && |x| == |c| && n <= |x|
    ensures Model(d, k, x, n) == Model(d, k, c, n) + Model(d, k, Minus(x, c), n)
  {
    hide B, Product;
    if n > 0 {
      ModelMoves(d, k, x, c, n - 1);
      var y := Minus(x, c)[n - 1];
      assert x[n - 1] == c[n - 1] + y;
      ProductSum(c[n - 1], y, B(d, k, n - 1));
    }
  }

  /** Errors at the solution against the response of the move. */
  function Cross(d: Design, c: seq<real>, y: seq<real>, n: nat): real
    requires d.Valid() && n <= |d.p.frequencies| && |c| == |y| == COEFFICIENTS
  {
    if n == 0 then 0.0 else Cross(d, c, y, n - 1) + if d.Counts(n - 1) then Product(Error(d, n - 1, c), Model(d, n - 1, y, COEFFICIENTS)) else 0.0
  }

  /** Energy of the move's response. */
  function Energy(d: Design, y: seq<real>, n: nat): (e: real)
    requires d.Valid() && n <= |d.p.frequencies| && |y| == COEFFICIENTS
    ensures e >= 0.0
  {
    if n == 0 then 0.0
    else
      Square(Model(d, n - 1, y, COEFFICIENTS));
      Energy(d, y, n - 1) + if d.Counts(n - 1) then Product(Model(d, n - 1, y, COEFFICIENTS), Model(d, n - 1, y, COEFFICIENTS)) else 0.0
  }

  lemma Square(x: real)
    ensures Product(x, x) >= 0.0
  {
    assert x * x >= 0.0;
  }

  lemma PositiveProduct(a: real, b: real)
    requires a > 0.0 && b > 0.0
    ensures Product(a, b) > 0.0
  {}

  lemma SquareOfOpposite(a: real)
    ensures Product(a, a) == Product(-a, -a)
  {}

  lemma NoSquare(x: real)
    requires x != 0.0
    ensures Product(x, x) > 0.0
  {
    hide Product;
    if x > 0.0 {
      PositiveProduct(x, x);
    } else {
      SquareOfOpposite(x);
      PositiveProduct(-x, -x);
    }
  }

  lemma Binomial(a: real, b: real)
    ensures Product(a + b, a + b) == Product(a, a) + 2.0 * Product(a, b) + Product(b, b)
  {
    assert (a + b) * (a + b) == a * a + 2.0 * (a * b) + b * b;
  }

  lemma ErrorMoves(d: Design, k: nat, x: seq<real>, c: seq<real>)
    requires d.Valid() && k < |d.p.frequencies| && d.Counts(k) && |x| == |c| == COEFFICIENTS
    ensures Error(d, k, x) == Error(d, k, c) + Model(d, k, Minus(x, c), COEFFICIENTS)
  {
    ModelMoves(d, k, x, c, COEFFICIENTS);
    hide Model, Desired, Minus;
  }

  lemma {:induction false} MisfitMoves(d: Design, x: seq<real>, c: seq<real>, n: nat)
    requires d.Valid() && n <= |d.p.frequencies| && |x| == |c| == COEFFICIENTS
    ensures Misfit(d, x, n) == Misfit(d, c, n) + 2.0 * Cross(d, c, Minus(x, c), n) + Energy(d, Minus(x, c), n)
  {
    if n > 0 {
      MisfitMoves(d, x, c, n - 1);
      if d.Counts(n - 1) {
        ErrorMoves(d, n - 1, x, c);
        hide Error, Model, Minus, Product;
        Binomial(Error(d, n - 1, c), Model(d, n - 1, Minus(x, c), COEFFICIENTS));
      }
    }
  }

  /** The move along the slopes of the first r directions. */
  function Along(d: Design, c: seq<real>, y: seq<real>, n: nat, r: nat): real
    requires d.Valid() && n <= |d.p.frequencies| && |c| == |y| == COEFFICIENTS && r <= COEFFICIENTS
  {
    if r == 0 then 0.0 else Along(d, c, y, n, r - 1) + Product(Slope(d, c, r - 1, n), y[r - 1])
  }

  lemma {:induction false} AlongStep(d: Design, c: seq<real>, y: seq<real>, n: nat, r: nat)
    requires d.Valid() && 0 < n <= |d.p.frequencies| && |c| == |y| == COEFFICIENTS && r <= COEFFICIENTS
    ensures Along(d, c, y, n, r) == Along(d, c, y, n - 1, r) + if d.Counts(n - 1) then Product(Error(d, n - 1, c), Model(d, n - 1, y, r)) else 0.0
  {
    hide Slope, Error, B, Product;
    if r > 0 {
      AlongStep(d, c, y, n, r - 1);
      SlopeCons(d, c, r - 1, n);
      if d.Counts(n - 1) {
        var b, e := B(d, n - 1, r - 1), Error(d, n - 1, c);
        ProductSum(Slope(d, c, r - 1, n - 1), Product(b, e), y[r - 1]);
        ProductTwice(b, e, y[r - 1]);
        ProductSum(Model(d, n - 1, y, r - 1), Product(b, y[r - 1]), e);
      }
    } else if d.Counts(n - 1) {
      ProductNothing(Error(d, n - 1, c));
    }
  }

  lemma {:induction false} CrossIsAlong(d: Design, c: seq<real>, y: seq<real>, n: nat)
    requires d.Valid() && n <= |d.p.frequencies| && |c| == |y| == COEFFICIENTS
    ensures Cross(d, c, y, n) == Along(d, c, y, n, COEFFICIENTS)
  {
    hide Slope, Error, Model;
    if n > 0 {
      CrossIsAlong(d, c, y, n - 1);
      AlongStep(d, c, y, n, COEFFICIENTS);
      hide Along;
    } else {
      AlongNothing(d, c, y, COEFFICIENTS);
    }
  }

  lemma {:induction false} AlongNothing(d: Design, c: seq<real>, y: seq<real>, r: nat)
    requires d.Valid() && |c| == |y| == COEFFICIENTS && r <= COEFFICIENTS
    ensures Along(d, c, y, 0, r) == 0.0
  {
    if r > 0 {
      AlongNothing(d, c, y, r - 1);
      ProductNothing(y[r - 1]);
    }
  }

  /** The move against the pull towards the identity, and its length squared. */
  function Drift(c: seq<real>, y: seq<real>, n: nat): real
    requires n <= |c| && n <= |y|
  {
    if n == 0 then 0.0 else Drift(c, y, n - 1) + Product(c[n - 1] - Identity(n - 1), y[n - 1])
  }

  function Length(y: seq<real>, n: nat): (e: real)
    requires n <= |y|
    ensures e >= 0.0 && (e == 0.0 ==> forall i | 0 <= i < n :: y[i] == 0.0)
  {
    if n == 0 then 0.0
    else
      Square(y[n - 1]);
      assert y[n - 1] != 0.0 ==> Product(y[n - 1], y[n - 1]) > 0.0 by {
        if y[n - 1] != 0.0 {
          NoSquare(y[n - 1]);
        }
      }
      Length(y, n - 1) + Product(y[n - 1], y[n - 1])
  }

  lemma {:induction false} DistanceMoves(x: seq<real>, c: seq<real>, n: nat)
    requires |x| == |c| && n <= |x|
    ensures Distance(x, n) == Distance(c, n) + 2.0 * Drift(c, Minus(x, c), n) + Length(Minus(x, c), n)
  {
    if n > 0 {
      DistanceMoves(x, c, n - 1);
      hide Product;
      var y := Minus(x, c)[n - 1];
      assert x[n - 1] - Identity(n - 1) == (c[n - 1] - Identity(n - 1)) + y;
      Binomial(c[n - 1] - Identity(n - 1), y);
    }
  }

  lemma Opposite(s: real, g: real, y: real)
    requires s + REGULARIZATION * g == 0.0
    ensures Product(s, y) + REGULARIZATION * Product(g, y) == 0.0
  {
    assert s == -(REGULARIZATION * g);
  }

  /** At the solution the first-order terms cancel, direction by direction. */
  lemma {:induction false} FirstOrder(d: Design, c: seq<real>, y: seq<real>, r: nat)
    requires d.Valid() && |c| == |y| == COEFFICIENTS && r <= COEFFICIENTS
    requires forall i | 0 <= i < COEFFICIENTS :: Slope(d, c, i, |d.p.frequencies|) + REGULARIZATION * (c[i] - Identity(i)) == 0.0
    ensures Along(d, c, y, |d.p.frequencies|, r) + REGULARIZATION * Drift(c, y, r) == 0.0
  {
    hide Slope;
    if r > 0 {
      FirstOrder(d, c, y, r - 1);
      var s, g := Slope(d, c, r - 1, |d.p.frequencies|), c[r - 1] - Identity(r - 1);
      Opposite(s, g, y[r - 1]);
      hide Product;
    }
  }

  /**
   The solution of the normal system costs least: any other vector costs more, by at
   least the regularization times its squared distance.
   */
  lemma SolutionIsOptimal(d: Design, m: Matrix, c: seq<real>, x: seq<real>)
    requires d.Valid() && NormalSystem(m, d.p, d.cos, d.reference, d.low, d.high) && |c| == |x| == COEFFICIENTS && Solves(m, c)
    ensures Cost(d, x) >= Cost(d, c) + REGULARIZATION * Length(Minus(x, c), COEFFICIENTS)
    ensures x != c ==> Cost(d, x) > Cost(d, c)
  {
    var y, n := Minus(x, c), |d.p.frequencies|;
    forall i | 0 <= i < COEFFICIENTS ensures Slope(d, c, i, n) + REGULARIZATION * (c[i] - Identity(i)) == 0.0 {
      Balanced(d, m, c, i);
    }
    MisfitMoves(d, x, c, n);
    CrossIsAlong(d, c, y, n);
    DistanceMoves(x, c, COEFFICIENTS);
    FirstOrder(d, c, y, COEFFICIENTS);
    hide Misfit, Cross, Energy, Along, Distance, Drift, Length, NormalSystem, Solves, Slope;
    if Length(y, COEFFICIENTS) == 0.0 {
      forall i | 0 <= i < COEFFICIENTS ensures x[i] == c[i] {
        assert y[i] == 0.0;
      }
    }
  }

  /** No other coefficients have so small a regularized error towards this reference. */
  ghost predicate Optimal(d: Design, c: seq<real>)
    requires d.Valid() && |c| == COEFFICIENTS
  {
    forall x: seq<real> | |x| == COEFFICIENTS && x != c :: Cost(d, x) > Cost(d, c)
  }
}
