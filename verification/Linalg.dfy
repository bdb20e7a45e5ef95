// The matrix library on top of the Level 3 routines, and how the routines fit together.

module Linalg {
  import opened Sums
  import opened Storage
  import opened Kernels
  import opened Triangular
  import opened Definite
  import opened TriangularSolve
  import opened Products
  import opened CholeskyFactorization

  // ----- the wrappers -----

  /** The wrappers pass n as a leading dimension, so the argument check inside them fails for n == 0. */
  lemma WrapperArguments(n: int, m: int)
    ensures TrInfo(Left, n, m, n, n) == 0 <==> 1 <= n && 0 <= m
    ensures TrInfo(Right, m, n, n, m) == 0 <==> 1 <= n && 1 <= m
    ensures SyrkInfo(NoTrans, n, m, n, n) == 0 <==> 1 <= n && 0 <= m
    ensures SymmInfo(Left, n, m, n, n, n) == 0 <==> 1 <= n && 0 <= m
  {
  }

  /** Solve op(A) * X = B, A lower triangular. */
  method Trisolve(a: array<real>, b: array<real>, n: int, m: int, tp: Trans)
    requires a != b && 1 <= n && 0 <= m && Holds(a, n, n, n) && Holds(b, n, n, m)
    requires NonZeroDiag(Entries(a[..], n), n)
    modifies b
    ensures OnlyWindow(b[..], old(b[..]), n, n, m)
    ensures Equation(Left, Op(Low(a[..], n), tp), Entries(b[..], n), 1.0, Entries(old(b[..]), n), n, m)
  {
    hide At, Equation, OnlyWindow;
    var result := Strsm(Left, Lower, tp, NonUnit, n, m, 1.0, a, n, b, n);
    assert result == 0;
  }

  /** Solve X * op(L) = A, L lower triangular. */
  method TrisolveRight(l: array<real>, a: array<real>, n: int, m: int, tp: Trans)
    requires l != a && 1 <= n && 1 <= m && Holds(l, n, n, n) && Holds(a, m, m, n)
    requires NonZeroDiag(Entries(l[..], n), n)
    modifies a
    ensures OnlyWindow(a[..], old(a[..]), m, m, n)
    ensures Equation(Right, Op(Low(l[..], n), tp), Entries(a[..], m), 1.0, Entries(old(a[..]), m), m, n)
  {
    hide At, Equation, OnlyWindow;
    var result := Strsm(Right, Lower, tp, NonUnit, m, n, 1.0, l, n, a, m);
    assert result == 0;
  }

  /** P := P - E * E' on the upper triangle. */
  method SymmetricRankUpdate(lanes: bool, p: array<real>, e: array<real>, n: int, m: int)
    requires p != e && 1 <= n && 0 <= m && Holds(e, n, n, m) && Holds(p, n, n, n)
    modifies p
    ensures forall i, j {:trigger At(p[..], n, i, j)} :: 0 <= i < n ==>
      At(p[..], n, i, j) ==
      old(At(p[..], n, i, j)) -
      (if i <= j < n then Product(Entries(e[..], n), Transpose(Entries(e[..], n)), m)(i, j) else 0.0)
  {
    hide Sum, At, Product;
    OpIs(Entries(e[..], n));
    var result := Ssyrk(lanes, Upper, NoTrans, n, m, -1.0, e, n, 1.0, p, n);
    assert result == 0;
  }

  /** C := alpha * op(A) * op(B) + beta * C, all matrices stored without gaps. */
  method Matmul(lanes: bool, ta: Trans, tb: Trans, n: int, k: int, m: int, alpha: real, a: array<real>, b: array<real>,
                beta: real, c: array<real>)
    requires a != c && b != c
    requires 1 <= n && 0 <= k && 0 <= m && (ta.Transposed? || tb.NoTrans? ==> 1 <= m) && (tb.Transposed? ==> 1 <= k)
    requires HoldsOp(a, if ta.Transposed? then m else n, ta, n, m)
    requires HoldsOp(b, if tb.Transposed? then k else m, tb, m, k) && Holds(c, n, n, k)
    modifies c
    ensures OnlyWindow(c[..], old(c[..]), n, n, k)
    ensures MulAdd(Entries(c[..], n), alpha, Op(Entries(a[..], if ta.Transposed? then m else n), ta),
                   Op(Entries(b[..], if tb.Transposed? then k else m), tb), m, beta, Entries(old(c[..]), n), n, k)
  {
    hide Sum, At, Product, Op, MulAdd, OnlyWindow;
    var lda := if ta.Transposed? then m else n;
    var ldb := if tb.Transposed? then k else m;
    var result := Sgemm(lanes, ta, tb, n, k, m, alpha, a, lda, b, ldb, beta, c, n);
    assert result == 0;
  }

  /** C := A * B, A symmetric and given by its upper triangle. */
  method MatmulSym(lanes: bool, a: array<real>, b: array<real>, n: int, m: int, c: array<real>)
    requires a != c && b != c && 1 <= n && 0 <= m && Holds(a, n, n, n) && Holds(b, n, n, m) && Holds(c, n, n, m)
    modifies c
    ensures OnlyWindow(c[..], old(c[..]), n, n, m)
    ensures forall i, j {:trigger At(c[..], n, i, j)} :: 0 <= i < n && 0 <= j < m ==>
      At(c[..], n, i, j) == Product(Sym(Entries(a[..], n), Upper), Entries(b[..], n), n)(i, j)
  {
    hide Sum, At, Product, Sym, OnlyWindow;
    var result := Ssymm(lanes, Left, Upper, n, m, 1.0, a, n, b, n, 0.0, c, n);
    assert result == 0;
    forall i, j | 0 <= i < n && 0 <= j < m
      ensures At(c[..], n, i, j) == Product(Sym(Entries(a[..], n), Upper), Entries(b[..], n), n)(i, j)
    {
      assert At(c[..], n, i, j) == Entries(c[..], n)(i, j);
    }
  }

  // ----- factor and solve -----

  /** Solving with the factor, then with its transpose, solves with the factored matrix. */
  lemma FactorSolves(L: Mat, M: Mat, X: Mat, Y: Mat, B: Mat, n: int, m: int)
    requires IsFactor(L, M, n)
    requires Equation(Left, L, Y, 1.0, B, n, m) && Equation(Left, Transpose(L), X, 1.0, Y, n, m)
    ensures Equation(Left, M, X, 1.0, B, n, m)
  {
    hide Sum;
    forall i, j | 0 <= i < n && 0 <= j < m ensures Product(M, X, n)(i, j) == B(i, j) {
      LeftSystem(L, L, Y, 1.0, B, n, m, j);
      LeftSystem(Transpose(L), Transpose(L), X, 1.0, Y, n, m, j);
      UnitScale(Transpose(L), n, ColOf(X, j), ColOf(Y, j));
      SolvesProduct(L, Transpose(L), n, ColOf(X, j), ColOf(Y, j), Scaled(1.0, ColOf(B, j)));
      assert Apply(Product(L, Transpose(L), n), n, ColOf(X, j))(i) == Scaled(1.0, ColOf(B, j))(i);
      SumEq(0, n, ProductTerms(M, X, i, j), RowTimes(Product(L, Transpose(L), n), i, ColOf(X, j)));
    }
  }

  lemma UnitScale(T: Mat, n: int, x: Vec, y: Vec)
    requires Solves(T, n, x, Scaled(1.0, y))
    ensures Solves(T, n, x, y)
  {
    hide Sum;
    forall i | 0 <= i < n ensures Apply(T, n, x)(i) == y(i) {
      assert Scaled(1.0, y)(i) == y(i);
    }
  }

  /** Factor A, then overwrite B by the solution of A * X = B; fails exactly when A is not positive definite. */
  method FactorAndSolve(sqrt: real -> real, a: array<real>, b: array<real>, n: int, m: int) returns (ret: int)
    requires IsSqrt(sqrt) && a != b && 1 <= n && 0 <= m && Holds(a, n, n, n) && Holds(b, n, n, m)
    modifies a, b
    ensures ret == 0 <==> PositiveDefinite(Sym(Entries(old(a[..]), n), Lower), n)
    ensures ret != 0 ==> b[..] == old(b[..])
    ensures ret == 0 ==> OnlyWindow(b[..], old(b[..]), n, n, m)
    ensures ret == 0 ==>
      Equation(Left, Sym(Entries(old(a[..]), n), Lower), Entries(b[..], n), 1.0, Entries(old(b[..]), n), n, m)
  {
    hide Sum, At, Equation, PositiveDefinite;
    ghost var M := Sym(Entries(a[..], n), Lower);
    ghost var B := b[..];
    ret := Cholesky(sqrt, a, n, false);
    if ret != 0 {
      return;
    }
    ghost var L := Low(a[..], n);
    FactorDiagonal(L, M, a[..], n);
    hide IsFactor;
    OpIs(L);
    Trisolve(a, b, n, m, NoTrans);
    ghost var Y := b[..];
    Trisolve(a, b, n, m, Transposed);
    FactorSolves(L, M, Entries(b[..], n), Entries(Y, n), Entries(B, n), n, m);
  }

  lemma FactorDiagonal(L: Mat, M: Mat, s: seq<real>, n: int)
    requires IsFactor(L, M, n) && L == Low(s, n)
    ensures NonZeroDiag(Entries(s, n), n)
  {
    hide At, Product;
    forall i | 0 <= i < n ensures Entries(s, n)(i, i) != 0.0 {
      assert L(i, i) == Entries(s, n)(i, i);
    }
  }

  // ----- the routines agree with one another -----

  /** A buffer that holds the mirrored matrix in full. */
  ghost predicate Mirrors(F: Mat, A: Mat, uplo: Uplo, k: int) {
    forall i, j :: 0 <= i < k && 0 <= j < k ==> F(i, j) == Sym(A, uplo)(i, j)
  }

  /** SSYMM on one triangle leaves what SGEMM leaves on the mirrored matrix, A on either side. */
  lemma SymmAgreesWithGemm(side: Side, uplo: Uplo, A: Mat, F: Mat, B: Mat, C: Mat, X: Mat, Y: Mat,
                           alpha: real, beta: real, m: int, n: int)
    requires Mirrors(F, A, uplo, Order(side, m, n))
    requires MulAdd(X, alpha, if side.Left? then Sym(A, uplo) else B, if side.Left? then B else Sym(A, uplo),
                    Order(side, m, n), beta, C, m, n)
    requires MulAdd(Y, alpha, if side.Left? then F else B, if side.Left? then B else F,
                    Order(side, m, n), beta, C, m, n)
    ensures forall i, j :: 0 <= i < m && 0 <= j < n ==> X(i, j) == Y(i, j)
  {
    hide Sum, Sym;
    forall i, j | 0 <= i < m && 0 <= j < n ensures X(i, j) == Y(i, j) {
      if side.Left? {
        SumEq(0, m, ProductTerms(Sym(A, uplo), B, i, j), ProductTerms(F, B, i, j));
      } else {
        SumEq(0, n, ProductTerms(B, Sym(A, uplo), i, j), ProductTerms(B, F, i, j));
      }
    }
  }

  /** SSYRK leaves on its triangle what SGEMM leaves for A * A' (or A' * A), and that product is symmetric. */
  lemma SyrkAgreesWithGemm(uplo: Uplo, trans: Trans, A: Mat, s': seq<real>, s: seq<real>, Y: Mat, ld: int,
                           alpha: real, beta: real, n: int, k: int)
    requires n <= ld
    requires TriangleUpdated(s', s, ld, uplo, n, n, alpha, Product(Op(A, trans), Transpose(Op(A, trans)), k), beta)
    requires MulAdd(Y, alpha, Op(A, trans), Op(A, if trans.NoTrans? then Transposed else NoTrans), k, beta, Entries(s, ld), n, n)
    ensures forall i, j :: 0 <= i < n && 0 <= j < n && InTriangle(uplo, i, j) ==> At(s', ld, i, j) == Y(i, j)
    ensures forall i, j :: 0 <= i < n && 0 <= j < n && !InTriangle(uplo, i, j) ==> At(s', ld, i, j) == At(s, ld, i, j)
    ensures forall i, j ::
      Product(Op(A, trans), Transpose(Op(A, trans)), k)(i, j) == Product(Op(A, trans), Transpose(Op(A, trans)), k)(j, i)
  {
    hide Sum, At;
    var X := Op(A, trans);
    var Z := Op(A, if trans.NoTrans? then Transposed else NoTrans);
    forall i, j | 0 <= i < n && 0 <= j < n && InTriangle(uplo, i, j) ensures At(s', ld, i, j) == Y(i, j) {
      SumEq(0, k, ProductTerms(X, Transpose(X), i, j), ProductTerms(X, Z, i, j));
      assert Y(i, j) == alpha * Product(X, Z, k)(i, j) + beta * Entries(s, ld)(i, j);
    }
    forall i, j ensures Product(X, Transpose(X), k)(i, j) == Product(X, Transpose(X), k)(j, i) {
      SumEq(0, k, ProductTerms(X, Transpose(X), i, j), ProductTerms(X, Transpose(X), j, i));
    }
  }

  /** The triangle that CHOLESKY looks at decides: here the upper triangle alone would be positive definite. */
  lemma LowerTriangleDecides()
    ensures var S: Mat := (i, j) => if i == j then 1.0 else if i == 1 && j == 0 then 2.0 else 0.0;
            PositiveDefinite(Sym(S, Upper), 2) && !PositiveDefinite(Sym(S, Lower), 2)
  {
    var S: Mat := (i, j) => if i == j then 1.0 else if i == 1 && j == 0 then 2.0 else 0.0;
    var I: Mat := (i: int, j: int) => if i == j then 1.0 else 0.0;
    forall i, j | 0 <= i < 2 && 0 <= j < 2 ensures Sym(S, Upper)(i, j) == Gram(I, Ones, 2)(i, j) {
      hide Sum;
      SumSingle(0, 2, i, ProductTerms(I, Weighted(Ones, I), i, j));
    }
    GramDefinite(Sym(S, Upper), I, Ones, 2, Upper, 0, 2);
    var x: Vec := (i: int) => if i == 0 then 1.0 else -1.0;
    var M := Sym(S, Lower);
    assert Apply(M, 2, x)(0) == -1.0 by { SumTwo(RowTimes(M, 0, x)); }
    assert Apply(M, 2, x)(1) == 1.0 by { SumTwo(RowTimes(M, 1, x)); }
    assert Quad(M, 2, x) == -2.0 by { SumTwo(Times(x, Apply(M, 2, x))); }
    assert x(0) != 0.0;
    assert NonZero(2, x);
  }

  lemma SumTwo(f: Vec)
    ensures Sum(0, 2, f) == f(0) + f(1)
  {
    assert Sum(0, 1, f) == f(0);
  }
}
