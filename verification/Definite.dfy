// Symmetric matrices, quadratic forms and positive definiteness.

module Definite {
  import opened Sums
  import opened Triangular

  /** The symmetric matrix given by one triangle of S. */
  ghost function Sym(S: Mat, uplo: Uplo): Mat {
    (i: int, j: int) => if (if uplo.Upper? then i <= j else j <= i) then S(i, j) else S(j, i)
  }

  /** x' * M * x over the indices 0..n. */
  ghost function Quad(M: Mat, n: int, x: Vec): real { Sum(0, n, Times(x, Apply(M, n, x))) }

  ghost predicate NonZero(n: int, x: Vec) { exists i :: 0 <= i < n && x(i) != 0.0 }

  /** x vanishes outside lo..hi. */
  ghost predicate Supported(n: int, x: Vec, lo: int, hi: int) {
    forall i :: 0 <= i < n && !(lo <= i < hi) ==> x(i) == 0.0
  }

  /** The principal block lo..hi of M is positive definite. */
  ghost predicate DefiniteOn(M: Mat, n: int, lo: int, hi: int) {
    forall x: Vec {:trigger Quad(M, n, x)} :: NonZero(n, x) && Supported(n, x, lo, hi) ==> Quad(M, n, x) > 0.0
  }

  ghost predicate PositiveDefinite(M: Mat, n: int) {
    forall x: Vec {:trigger Quad(M, n, x)} :: NonZero(n, x) ==> Quad(M, n, x) > 0.0
  }

  // ----- W * diag(d) * W' -----

  ghost function Weighted(d: Vec, W: Mat): Mat { (l: int, k: int) => d(l) * W(k, l) }

  ghost function Gram(W: Mat, d: Vec, n: int): Mat { Product(W, Weighted(d, W), n) }

  ghost function WeightedSquares(d: Vec, y: Vec): Vec { (l: int) => d(l) * Square(y(l)) }

  /** The quadratic form of W * diag(d) * W' is the weighted sum of the squares of W' * x. */
  lemma QuadGram(W: Mat, d: Vec, n: int, x: Vec)
    ensures Quad(Gram(W, d, n), n, x) == Sum(0, n, WeightedSquares(d, Apply(Transpose(W), n, x)))
  {
    hide Sum, Square;
    var y := Apply(Transpose(W), n, x);
    var z := Apply(Weighted(d, W), n, x);
    forall l | 0 <= l < n ensures z(l) == d(l) * y(l) {
      WeightedRow(W, d, n, x, l);
    }
    var V: Mat := (i: int, l: int) => x(i) * (W(i, l) * z(l));
    forall i | 0 <= i < n ensures RowSums(V, 0, n)(i) == Times(x, Apply(Gram(W, d, n), n, x))(i) {
      ProductApply(W, Weighted(d, W), n, x, i);
      SumScale(0, n, x(i), RowTimes(W, i, z), RowOf(V, i));
    }
    SumEq(0, n, RowSums(V, 0, n), Times(x, Apply(Gram(W, d, n), n, x)));
    forall l | 0 <= l < n ensures ColSums(V, 0, n)(l) == WeightedSquares(d, y)(l) {
      SquareColumn(W, n, x, V, z(l), l);
      Squared(d(l), y(l));
    }
    SumEq(0, n, ColSums(V, 0, n), WeightedSquares(d, y));
    SumSwap(0, n, 0, n, V);
  }

  lemma WeightedRow(W: Mat, d: Vec, n: int, x: Vec, l: int)
    ensures Apply(Weighted(d, W), n, x)(l) == d(l) * Apply(Transpose(W), n, x)(l)
  {
    hide Sum;
    forall i | 0 <= i < n
      ensures RowTimes(Weighted(d, W), l, x)(i) == d(l) * RowTimes(Transpose(W), l, x)(i)
    {
      Reassociate(d(l), W(i, l), x(i));
    }
    SumScale(0, n, d(l), RowTimes(Transpose(W), l, x), RowTimes(Weighted(d, W), l, x));
  }

  lemma SquareColumn(W: Mat, n: int, x: Vec, V: Mat, zl: real, l: int)
    requires forall i :: 0 <= i < n ==> V(i, l) == x(i) * (W(i, l) * zl)
    ensures Sum(0, n, ColOf(V, l)) == zl * Apply(Transpose(W), n, x)(l)
  {
    hide Sum;
    forall i | 0 <= i < n ensures ColOf(V, l)(i) == zl * RowTimes(Transpose(W), l, x)(i) {
      Rotate(x(i), W(i, l), zl);
    }
    SumScale(0, n, zl, RowTimes(Transpose(W), l, x), ColOf(V, l));
  }

  lemma Reassociate(a: real, b: real, c: real)
    ensures a * b * c == a * (b * c)
  {
  }

  lemma Rotate(a: real, b: real, c: real)
    ensures a * (b * c) == c * (b * a)
  {
  }

  lemma Squared(d: real, y: real)
    ensures d * y * y == d * Square(y)
  {
  }

  /** Only the block of M that x lives on matters. */
  lemma QuadSupported(M: Mat, M': Mat, n: int, x: Vec, lo: int, hi: int)
    requires Supported(n, x, lo, hi)
    requires forall i, j :: 0 <= i < n && 0 <= j < n && lo <= i < hi && lo <= j < hi ==> M(i, j) == M'(i, j)
    ensures Quad(M, n, x) == Quad(M', n, x)
  {
    hide Sum;
    forall i | 0 <= i < n ensures Times(x, Apply(M, n, x))(i) == Times(x, Apply(M', n, x))(i) {
      if lo <= i < hi {
        SumEq(0, n, RowTimes(M, i, x), RowTimes(M', i, x));
      }
    }
    SumEq(0, n, Times(x, Apply(M, n, x)), Times(x, Apply(M', n, x)));
  }

  // ----- the two directions -----

  /** With a nonsingular triangular W and positive weights on the block, W * diag(d) * W' is definite there. */
  lemma GramDefinite(M: Mat, W: Mat, d: Vec, n: int, uplo: Uplo, lo: int, hi: int)
    requires IsTri(W, n, uplo) && NonZeroDiag(W, n)
    requires forall i, j :: 0 <= i < n && 0 <= j < n && lo <= i < hi && lo <= j < hi ==> M(i, j) == Gram(W, d, n)(i, j)
    requires forall l :: 0 <= l < n ==> (if lo <= l < hi then d(l) > 0.0 else d(l) == 0.0)
    requires Block(W, n, lo, hi)
    ensures DefiniteOn(M, n, lo, hi)
  {
    hide Sum, Quad, Gram;
    forall x: Vec | NonZero(n, x) && Supported(n, x, lo, hi) ensures Quad(M, n, x) > 0.0 {
      QuadSupported(M, Gram(W, d, n), n, x, lo, hi);
      QuadGram(W, d, n, x);
      var y := Apply(Transpose(W), n, x);
      var l := NonZeroImage(W, n, uplo, x, lo, hi);
      forall i | 0 <= i < n ensures WeightedSquares(d, y)(i) >= 0.0 {
        SquareSign(d, y, i);
      }
      SquareSign(d, y, l);
      SumNonNegative(0, n, WeightedSquares(d, y));
    }
  }

  /** W is the identity outside the block lo..hi. */
  ghost predicate Block(W: Mat, n: int, lo: int, hi: int) {
    forall i, l :: 0 <= i < n && 0 <= l < n && !(lo <= i < hi && lo <= l < hi) ==> W(i, l) == if i == l then 1.0 else 0.0
  }

  lemma SquareSign(d: Vec, y: Vec, l: int)
    ensures d(l) >= 0.0 ==> WeightedSquares(d, y)(l) >= 0.0
    ensures d(l) > 0.0 && y(l) != 0.0 ==> WeightedSquares(d, y)(l) > 0.0
  {
    hide Square;
    SquareIsPositive(y(l));
    ProductSign(d(l), Square(y(l)), WeightedSquares(d, y)(l));
  }

  lemma SquareIsPositive(a: real)
    ensures Square(a) >= 0.0
    ensures a != 0.0 ==> Square(a) > 0.0
  {
    if a > 0.0 {
      ProductSign(a, a, Square(a));
    } else {
      ProductSign(-a, -a, Square(a));
    }
  }

  lemma ProductSign(a: real, b: real, t: real)
    requires t == a * b
    ensures a >= 0.0 && b >= 0.0 ==> t >= 0.0
    ensures a > 0.0 && b > 0.0 ==> t > 0.0
  {
  }

  lemma TransposeIsTri(W: Mat, n: int, uplo: Uplo)
    requires IsTri(W, n, uplo) && NonZeroDiag(W, n)
    ensures IsTri(Transpose(W), n, if uplo.Upper? then Lower else Upper) && NonZeroDiag(Transpose(W), n)
  {
  }

  lemma NonZeroImage(W: Mat, n: int, uplo: Uplo, x: Vec, lo: int, hi: int) returns (l: int)
    requires IsTri(W, n, uplo) && NonZeroDiag(W, n) && Block(W, n, lo, hi)
    requires NonZero(n, x) && Supported(n, x, lo, hi)
    ensures 0 <= l < n && lo <= l < hi && Apply(Transpose(W), n, x)(l) != 0.0
  {
    hide Sum;
    var T := Transpose(W);
    if forall i :: 0 <= i < n && lo <= i < hi ==> Apply(T, n, x)(i) == 0.0 {
      forall i | 0 <= i < n ensures Apply(T, n, x)(i) == Zero(i) {
        if !(lo <= i < hi) {
          SumSingle(0, n, i, RowTimes(T, i, x));
        }
      }
      TransposeIsTri(W, n, uplo);
      TriInjective(T, n, if uplo.Upper? then Lower else Upper, x, n);
      assert false;
    }
    l :| 0 <= l < n && lo <= l < hi && Apply(T, n, x)(l) != 0.0;
  }

  ghost function Unit(p: int): Vec { (i: int) => if i == p then 1.0 else 0.0 }

  /** If a weight p of the block is not positive, some vector of the block has a form that is not positive. */
  lemma GramIndefinite(M: Mat, W: Mat, d: Vec, n: int, uplo: Uplo, lo: int, hi: int, p: int) returns (x: Vec)
    requires IsTri(W, n, uplo) && NonZeroDiag(W, n) && Block(W, n, lo, hi)
    requires forall i, j :: 0 <= i < n && 0 <= j < n && lo <= i < hi && lo <= j < hi ==> M(i, j) == Gram(W, d, n)(i, j)
    requires 0 <= p < n && lo <= p < hi && d(p) <= 0.0
    ensures NonZero(n, x) && Supported(n, x, lo, hi) && Quad(M, n, x) == d(p) <= 0.0
  {
    hide Sum, Quad, Gram;
    var T := Transpose(W);
    TransposeIsTri(W, n, uplo);
    x := TriSolvable(T, n, if uplo.Upper? then Lower else Upper, Unit(p), n);
    SubstitutionDone(T, Unit(p), Zero, x, n);
    var y := Apply(T, n, x);
    assert y(p) == 1.0;
    forall i | 0 <= i < n && !(lo <= i < hi) ensures x(i) == 0.0 {
      SumSingle(0, n, i, RowTimes(T, i, x));
      assert y(i) == 0.0;
    }
    if !NonZero(n, x) {
      SumZero(0, n, RowTimes(T, p, x));
    }
    QuadSupported(M, Gram(W, d, n), n, x, lo, hi);
    QuadGram(W, d, n, x);
    forall i | 0 <= i < n && i != p ensures WeightedSquares(d, y)(i) == 0.0 {
      assert y(i) == 0.0;
    }
    SumSingle(0, n, p, WeightedSquares(d, y));
  }

  lemma {:induction false} TriSolvable(T: Mat, n: int, uplo: Uplo, c: Vec, k: int) returns (x: Vec)
    requires IsTri(T, n, uplo) && NonZeroDiag(T, n) && 0 <= k <= n
    ensures uplo.Lower? ==> Substituted(T, c, Zero, x, n, 0, k)
    ensures uplo.Upper? ==> Substituted(T, c, Zero, x, n, n - k, n)
    decreases k
  {
    hide Sum;
    if k == 0 {
      x := Zero;
    } else {
      var x0 := TriSolvable(T, n, uplo, c, k - 1);
      if uplo.Lower? {
        x := SolveNext(T, n, c, x0, 0, k - 1, 0, k, k - 1);
      } else {
        x := SolveNext(T, n, c, x0, n - k + 1, n, n - k, n, n - k);
      }
    }
  }

  lemma SolveNext(T: Mat, n: int, c: Vec, x0: Vec, lo: int, hi: int, lo': int, hi': int, k: int) returns (x: Vec)
    requires Grows(n, lo, hi, lo', hi', k) && Substituted(T, c, Zero, x0, n, lo, hi) && T(k, k) != 0.0
    requires forall i :: lo <= i < hi ==> T(i, k) == 0.0
    ensures Substituted(T, c, Zero, x, n, lo', hi')
  {
    hide Sum, Substituted;
    var v := (c(k) - Sum(lo, hi, RowTimes(T, k, x0))) / T(k, k);
    x := (i: int) => if i == k then v else x0(i);
    SubstitutionStep(T, c, Zero, x0, x, n, lo, hi, lo', hi', k);
  }
}
