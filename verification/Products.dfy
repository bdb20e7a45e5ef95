// SGEMM, SSYRK and SSYMM: C := alpha * (a product) + beta * C.

module Products {
  import opened Sums
  import opened Storage
  import opened Kernels
  import opened Triangular
  import opened Definite
  import opened TriangularSolve

  /** Rows r0..r1 of column j of C' are alpha * P + beta * C; no other entry differs. */
  ghost predicate ColumnUpdated(s': seq<real>, s: seq<real>, ld: int, r0: int, r1: int, j: int,
                                alpha: real, P: Mat, beta: real) {
    && |s'| == |s|
    && forall r, c {:trigger At(s', ld, r, c)} :: 0 <= r < ld ==>
         At(s', ld, r, c) ==
         if c == j && r0 <= r < r1 then alpha * P(r, c) + beta * At(s, ld, r, c) else At(s, ld, r, c)
  }

  /** The leading rows and columns of op(A): rows of A when it is not transposed. */
  ghost predicate HoldsOp(a: array<real>, lda: int, trans: Trans, rows: int, cols: int) {
    if trans.NoTrans? then Holds(a, lda, rows, cols) else Holds(a, lda, cols, rows)
  }

  lemma NextProductTerm(alpha: real, beta: real, A: Mat, B: Mat, i: int, j: int, l: int, c: real, c': real, C: real, v: real)
    requires 0 <= l && v == B(l, j)
    requires c == alpha * Sum(0, l, ProductTerms(A, B, i, j)) + beta * C
    requires c' == if v != 0.0 then c + alpha * v * A(i, l) else c
    ensures c' == alpha * Sum(0, l + 1, ProductTerms(A, B, i, j)) + beta * C
  {
    hide Sum;
    SumLast(0, l, ProductTerms(A, B, i, j));
    DistributeTerm(alpha, Sum(0, l, ProductTerms(A, B, i, j)), A(i, l), v);
  }

  lemma DistributeTerm(alpha: real, x: real, y: real, z: real)
    ensures alpha * (x + y * z) == alpha * x + alpha * z * y
  {
    assert alpha * (x + y * z) == alpha * x + alpha * (y * z);
  }

  /** beta * C on rows r0..r1 of column j. */
  method ScaleStart(lanes: bool, r0: int, r1: int, beta: real, c: array<real>, ldc: int, j: int)
    requires 0 <= j && 0 <= r0 <= r1 && Holds(c, ldc, r1, j + 1)
    modifies c
    ensures forall r, q {:trigger At(c[..], ldc, r, q)} :: 0 <= r < ldc ==>
      At(c[..], ldc, r, q) ==
      if q == j && r0 <= r < r1 then beta * old(At(c[..], ldc, r, q)) else old(At(c[..], ldc, r, q))
  {
    hide At;
    if beta == 0.0 {
      ZeroColumn(lanes, c, ldc, j, r0, r1);
    } else if beta != 1.0 {
      ScaleColumn(lanes, c, ldc, j, r0, r1, beta);
    }
  }

  /** Entry (l, j) of op(B). */
  method GetOp(b: array<real>, ldb: int, transb: Trans, l: int, j: int) returns (v: real)
    requires 0 <= l && 0 <= j && HoldsOp(b, ldb, transb, l + 1, j + 1)
    ensures v == Op(Entries(b[..], ldb), transb)(l, j)
  {
    hide At;
    if transb.NoTrans? {
      v := Get(b, ldb, l, j);
    } else {
      v := Get(b, ldb, j, l);
    }
  }

  /** Column j of C, A not transposed: multiples of the columns of A are added. */
  method AddProducts(lanes: bool, transb: Trans, r0: int, r1: int, k: int, alpha: real, a: array<real>, lda: int,
                     b: array<real>, ldb: int, beta: real, c: array<real>, ldc: int, j: int)
    requires a != c && b != c && 0 <= j && 0 <= r0 <= r1
    requires Holds(a, lda, r1, k) && HoldsOp(b, ldb, transb, k, j + 1) && Holds(c, ldc, r1, j + 1)
    modifies c
    ensures ColumnUpdated(c[..], old(c[..]), ldc, r0, r1, j, alpha,
              Product(Entries(a[..], lda), Op(Entries(b[..], ldb), transb), k), beta)
  {
    hide Sum, At, Op;
    HoldsLess(a, lda, r1, k);
    HoldsLess(b, ldb, if transb.NoTrans? then k else j + 1, if transb.NoTrans? then j + 1 else k);
    ghost var A, B, C := a[..], b[..], c[..];
    ghost var M, N := Entries(A, lda), Op(Entries(B, ldb), transb);
    hide ColumnUpdated;
    ScaleStart(lanes, r0, r1, beta, c, ldc, j);
    ProductsStart(c[..], C, ldc, r0, r1, j, alpha, M, N, beta);
    var l := 0;
    while l < k
      invariant 0 <= l <= k && a[..] == A && b[..] == B
      invariant ColumnUpdated(c[..], C, ldc, r0, r1, j, alpha, Product(M, N, l), beta)
    {
      ghost var s := c[..];
      ghost var v := N(l, j);
      AddProduct(lanes, transb, r0, r1, alpha, a, lda, b, ldb, c, ldc, j, l);
      ProductsStep(c[..], s, C, ldc, r0, r1, j, alpha, M, N, beta, l, v);
      l := l + 1;
    }
  }

  /** One turn of the inner loop: skipped when the entry of op(B) is zero. */
  method AddProduct(lanes: bool, transb: Trans, r0: int, r1: int, alpha: real, a: array<real>, lda: int,
                    b: array<real>, ldb: int, c: array<real>, ldc: int, j: int, l: int)
    requires a != c && b != c && 0 <= j && 0 <= l && 0 <= r0 <= r1
    requires Holds(a, lda, r1, l + 1) && HoldsOp(b, ldb, transb, l + 1, j + 1) && Holds(c, ldc, r1, j + 1)
    modifies c
    ensures forall r, q {:trigger At(c[..], ldc, r, q)} :: 0 <= r < ldc ==>
      At(c[..], ldc, r, q) ==
      if Op(Entries(b[..], ldb), transb)(l, j) != 0.0 && q == j && r0 <= r < r1
      then old(At(c[..], ldc, r, q)) + alpha * Op(Entries(b[..], ldb), transb)(l, j) * At(a[..], lda, r, l)
      else old(At(c[..], ldc, r, q))
  {
    hide At, Op;
    var v := GetOp(b, ldb, transb, l, j);
    if v != 0.0 {
      var temp := alpha * v;
      AddColumn(lanes, c, ldc, j, a, lda, l, r0, r1, temp);
    }
  }

  lemma ProductsStart(s: seq<real>, C: seq<real>, ld: int, r0: int, r1: int, j: int, alpha: real, M: Mat, N: Mat, beta: real)
    requires |s| == |C|
    requires forall r, q {:trigger At(s, ld, r, q)} :: 0 <= r < ld ==>
      At(s, ld, r, q) == if q == j && r0 <= r < r1 then beta * At(C, ld, r, q) else At(C, ld, r, q)
    ensures ColumnUpdated(s, C, ld, r0, r1, j, alpha, Product(M, N, 0), beta)
  {
    hide Sum, At;
    forall r | r0 <= r < r1 ensures alpha * Product(M, N, 0)(r, j) == 0.0 {
      SumEmpty(0, ProductTerms(M, N, r, j));
    }
  }

  lemma ProductsStep(s': seq<real>, s: seq<real>, C: seq<real>, ld: int, r0: int, r1: int, j: int,
                     alpha: real, M: Mat, N: Mat, beta: real, l: int, v: real)
    requires 0 <= l && v == N(l, j) && |s'| == |s| && ColumnUpdated(s, C, ld, r0, r1, j, alpha, Product(M, N, l), beta)
    requires forall r, q {:trigger At(s', ld, r, q)} :: 0 <= r < ld ==>
      At(s', ld, r, q) ==
      if v != 0.0 && q == j && r0 <= r < r1 then At(s, ld, r, q) + alpha * v * M(r, l) else At(s, ld, r, q)
    ensures ColumnUpdated(s', C, ld, r0, r1, j, alpha, Product(M, N, l + 1), beta)
  {
    hide Sum, At;
    forall r | r0 <= r < r1 && 0 <= r < ld
      ensures At(s', ld, r, j) == alpha * Product(M, N, l + 1)(r, j) + beta * At(C, ld, r, j)
    {
      NextProductTerm(alpha, beta, M, N, r, j, l, At(s, ld, r, j), At(s', ld, r, j), At(C, ld, r, j), v);
    }
  }

  /** The inner product of column i of A with column j of op(B). */
  method DotOp(lanes: bool, transb: Trans, k: int, a: array<real>, lda: int, i: int, b: array<real>, ldb: int, j: int)
    returns (temp: real)
    requires 0 <= i && 0 <= j && 0 <= k && Holds(a, lda, k, i + 1) && HoldsOp(b, ldb, transb, k, j + 1)
    ensures temp == Product(Transpose(Entries(a[..], lda)), Op(Entries(b[..], ldb), transb), k)(i, j)
  {
    hide Sum, At;
    HoldsLess(a, lda, k, i + 1);
    HoldsLess(b, ldb, if transb.NoTrans? then k else j + 1, if transb.NoTrans? then j + 1 else k);
    ghost var f := ProductTerms(Transpose(Entries(a[..], lda)), Op(Entries(b[..], ldb), transb), i, j);
    if transb.NoTrans? {
      temp := DotColumns(lanes, a, lda, i, b, ldb, j, 0, k);
      SumEq(0, k, f, Times(Col(a[..], lda, i), Col(b[..], ldb, j)));
    } else {
      temp := 0.0;
      SumEmpty(0, f);
      var l := 0;
      while l < k
        invariant 0 <= l <= k
        invariant temp == Sum(0, l, f)
      {
        var x := Get(a, lda, l, i);
        var y := Get(b, ldb, j, l);
        SumLast(0, l, f);
        assert f(l) == x * y;
        temp := temp + x * y;
        l := l + 1;
      }
    }
  }

  /** Column j of C, A transposed: one inner product per entry. */
  method DotProducts(lanes: bool, transb: Trans, r0: int, r1: int, k: int, alpha: real, a: array<real>, lda: int,
                     b: array<real>, ldb: int, beta: real, c: array<real>, ldc: int, j: int)
    requires a != c && b != c && 0 <= j && 0 <= r0 <= r1
    requires Holds(a, lda, k, r1) && HoldsOp(b, ldb, transb, k, j + 1) && Holds(c, ldc, r1, j + 1)
    modifies c
    ensures ColumnUpdated(c[..], old(c[..]), ldc, r0, r1, j, alpha,
              Product(Transpose(Entries(a[..], lda)), Op(Entries(b[..], ldb), transb), k), beta)
  {
    hide Sum, At, Op, Product;
    HoldsLess(a, lda, k, r1);
    HoldsLess(c, ldc, r1, j + 1);
    ghost var A, B, C := a[..], b[..], c[..];
    ghost var P := Product(Transpose(Entries(A, lda)), Op(Entries(B, ldb), transb), k);
    var i := r0;
    while i < r1
      invariant r0 <= i <= r1 && a[..] == A && b[..] == B
      invariant ColumnUpdated(c[..], C, ldc, r0, i, j, alpha, P, beta)
    {
      hide ColumnUpdated;
      ghost var s := c[..];
      var temp := DotOp(lanes, transb, k, a, lda, i, b, ldb, j);
      if beta == 0.0 {
        Put(c, ldc, i, j, alpha * temp);
      } else {
        var v := Get(c, ldc, i, j);
        Put(c, ldc, i, j, alpha * temp + beta * v);
      }
      DotStep(c[..], s, C, ldc, r0, i, j, alpha, P, beta);
      i := i + 1;
    }
  }

  lemma DotStep(s': seq<real>, s: seq<real>, C: seq<real>, ld: int, r0: int, i: int, j: int, alpha: real, P: Mat, beta: real)
    requires r0 <= i < ld && 0 <= i && |s'| == |s| && ColumnUpdated(s, C, ld, r0, i, j, alpha, P, beta)
    requires forall r, q {:trigger At(s', ld, r, q)} :: 0 <= r < ld && !(r == i && q == j) ==>
      At(s', ld, r, q) == At(s, ld, r, q)
    requires At(s', ld, i, j) == alpha * P(i, j) + (if beta == 0.0 then 0.0 else beta * At(s, ld, i, j))
    ensures ColumnUpdated(s', C, ld, r0, i + 1, j, alpha, P, beta)
  {
    hide At;
  }

  // ----- SGEMM -----

  /** C' == alpha * A * B + beta * C on the m-by-n window; A * B sums over k terms. */
  ghost predicate MulAdd(C': Mat, alpha: real, A: Mat, B: Mat, k: int, beta: real, C: Mat, m: int, n: int) {
    forall i, j {:trigger C'(i, j)} :: 0 <= i < m && 0 <= j < n ==>
      C'(i, j) == alpha * Product(A, B, k)(i, j) + beta * C(i, j)
  }

  function AtLeast(x: int): int { if x > 1 then x else 1 }

  function GemmInfo(transa: Trans, transb: Trans, m: int, n: int, k: int, lda: int, ldb: int, ldc: int): int {
    if m < 0 then 3
    else if n < 0 then 4
    else if k < 0 then 5
    else if lda < AtLeast(if transa.NoTrans? then m else k) then 8
    else if ldb < AtLeast(if transb.NoTrans? then k else n) then 10
    else if ldc < AtLeast(m) then 13
    else 0
  }

  /** The window after some columns have been updated. */
  ghost predicate WindowUpdated(s': seq<real>, s: seq<real>, ld: int, m: int, n: int, alpha: real, P: Mat, beta: real) {
    && |s'| == |s|
    && forall r, c {:trigger At(s', ld, r, c)} :: 0 <= r < ld ==>
         At(s', ld, r, c) ==
         if r < m && 0 <= c < n then alpha * P(r, c) + beta * At(s, ld, r, c) else At(s, ld, r, c)
  }

  lemma WindowGrows(s'': seq<real>, s': seq<real>, s: seq<real>, ld: int, m: int, j: int, alpha: real, P: Mat, beta: real)
    requires 0 <= j && WindowUpdated(s', s, ld, m, j, alpha, P, beta) && ColumnUpdated(s'', s', ld, 0, m, j, alpha, P, beta)
    ensures WindowUpdated(s'', s, ld, m, j + 1, alpha, P, beta)
  {
    hide At;
  }

  lemma WindowStart(s: seq<real>, ld: int, m: int, alpha: real, P: Mat, beta: real)
    ensures WindowUpdated(s, s, ld, m, 0, alpha, P, beta)
  {
  }

  lemma WindowDone(s': seq<real>, s: seq<real>, ld: int, m: int, n: int, alpha: real, A: Mat, B: Mat, k: int, beta: real)
    requires m <= ld && WindowUpdated(s', s, ld, m, n, alpha, Product(A, B, k), beta)
    ensures OnlyWindow(s', s, ld, m, n) && MulAdd(Entries(s', ld), alpha, A, B, k, beta, Entries(s, ld), m, n)
  {
    hide At, Product;
  }

  /** Leaving C alone is right when nothing is added and beta is 1. */
  lemma WindowUntouched(s: seq<real>, ld: int, m: int, n: int, alpha: real, A: Mat, B: Mat, k: int, beta: real)
    requires m == 0 || n == 0 || ((alpha == 0.0 || k == 0) && beta == 1.0)
    ensures OnlyWindow(s, s, ld, m, n) && MulAdd(Entries(s, ld), alpha, A, B, k, beta, Entries(s, ld), m, n)
  {
    NothingToAdd(alpha, A, B, k, m, n);
    hide At, Product;
  }

  method ScaleWindow(m: int, n: int, beta: real, c: array<real>, ldc: int, ghost P: Mat)
    requires Holds(c, ldc, m, n)
    modifies c
    ensures WindowUpdated(c[..], old(c[..]), ldc, m, n, 0.0, P, beta)
  {
    hide At;
    HoldsLess(c, ldc, m, n);
    ghost var C := c[..];
    var j := 0;
    while j < n
      invariant 0 <= j <= n && WindowUpdated(c[..], C, ldc, m, j, 0.0, P, beta)
    {
      ghost var s := c[..];
      if beta == 0.0 {
        ZeroColumn(false, c, ldc, j, 0, m);
      } else {
        ScaleColumn(false, c, ldc, j, 0, m, beta);
      }
      WindowGrows(c[..], s, C, ldc, m, j, 0.0, P, beta);
      j := j + 1;
    }
  }

  method Sgemm(lanes: bool, transa: Trans, transb: Trans, m: int, n: int, k: int, alpha: real, a: array<real>, lda: int,
               b: array<real>, ldb: int, beta: real, c: array<real>, ldc: int) returns (info: int)
    requires a != c && b != c
    requires GemmInfo(transa, transb, m, n, k, lda, ldb, ldc) == 0 ==>
      HoldsOp(a, lda, transa, m, k) && HoldsOp(b, ldb, transb, k, n) && Holds(c, ldc, m, n)
    modifies c
    ensures info == GemmInfo(transa, transb, m, n, k, lda, ldb, ldc)
    ensures info == 0 <==> 0 <= m && 0 <= n && 0 <= k && 1 <= lda && (if transa.NoTrans? then m else k) <= lda &&
                           1 <= ldb && (if transb.NoTrans? then k else n) <= ldb && 1 <= ldc && m <= ldc
    ensures (info == 3 <==> m < 0) && (info == 4 <==> 0 <= m && n < 0) && (info == 5 <==> 0 <= m && 0 <= n && k < 0)
    ensures info == 8 ==> lda < 1 || lda < (if transa.NoTrans? then m else k)
    ensures info == 10 ==> ldb < 1 || ldb < (if transb.NoTrans? then k else n)
    ensures info == 13 ==> ldc < 1 || ldc < m
    ensures info in {0, 3, 4, 5, 8, 10, 13}
    ensures info != 0 ==> c[..] == old(c[..])
    ensures info == 0 ==> OnlyWindow(c[..], old(c[..]), ldc, m, n)
    ensures info == 0 ==>
      MulAdd(Entries(c[..], ldc), alpha, Op(Entries(a[..], lda), transa), Op(Entries(b[..], ldb), transb), k,
             beta, Entries(old(c[..]), ldc), m, n)
  {
    hide Sum, At, Op, Product, WindowUpdated, ColumnUpdated, MulAdd, OnlyWindow, Entries;
    info := GemmInfo(transa, transb, m, n, k, lda, ldb, ldc);
    if info != 0 {
      return;
    }
    ghost var A, B, C := a[..], b[..], c[..];
    ghost var M, N := Op(Entries(A, lda), transa), Op(Entries(B, ldb), transb);
    if m == 0 || n == 0 || ((alpha == 0.0 || k == 0) && beta == 1.0) {
      WindowUntouched(C, ldc, m, n, alpha, M, N, k, beta);
    } else if alpha == 0.0 {
      ScaleWindow(m, n, beta, c, ldc, Product(M, N, k));
      WindowDone(c[..], C, ldc, m, n, alpha, M, N, k, beta);
    } else {
      WindowStart(C, ldc, m, alpha, Product(M, N, k), beta);
      OpIs(Entries(A, lda));
      var j := 0;
      while j < n
        invariant 0 <= j <= n && a[..] == A && b[..] == B
        invariant WindowUpdated(c[..], C, ldc, m, j, alpha, Product(M, N, k), beta)
      {
        ghost var s := c[..];
        HoldsLess(c, ldc, m, n);
        HoldsLess(b, ldb, if transb.NoTrans? then k else n, if transb.NoTrans? then n else k);
        if transa.NoTrans? {
          AddProducts(lanes, transb, 0, m, k, alpha, a, lda, b, ldb, beta, c, ldc, j);
        } else {
          DotProducts(lanes, transb, 0, m, k, alpha, a, lda, b, ldb, beta, c, ldc, j);
        }
        WindowGrows(c[..], s, C, ldc, m, j, alpha, Product(M, N, k), beta);
        j := j + 1;
      }
      WindowDone(c[..], C, ldc, m, n, alpha, M, N, k, beta);
    }
  }

  lemma OpIs(M: Mat)
    ensures Op(M, NoTrans) == M && Op(M, Transposed) == Transpose(M)
  {
  }

  lemma NothingToAdd(alpha: real, M: Mat, N: Mat, k: int, m: int, n: int)
    requires m == 0 || n == 0 || alpha == 0.0 || k == 0
    ensures forall i, j :: 0 <= i < m && 0 <= j < n ==> alpha * Product(M, N, k)(i, j) == 0.0
  {
  }

  // ----- SSYRK -----

  ghost predicate InTriangle(uplo: Uplo, i: int, j: int) { if uplo.Upper? then i <= j else j <= i }

  function SyrkInfo(trans: Trans, n: int, k: int, lda: int, ldc: int): int {
    if n < 0 then 3
    else if k < 0 then 4
    else if lda < AtLeast(if trans.NoTrans? then n else k) then 7
    else if ldc < AtLeast(n) then 10
    else 0
  }

  /** The first columns of the named triangle have been updated; nothing else differs. */
  ghost predicate TriangleUpdated(s': seq<real>, s: seq<real>, ld: int, uplo: Uplo, m: int, n: int,
                                  alpha: real, P: Mat, beta: real) {
    && |s'| == |s|
    && forall r, c {:trigger At(s', ld, r, c)} :: 0 <= r < ld ==>
         At(s', ld, r, c) ==
         if r < m && 0 <= c < n && InTriangle(uplo, r, c) then alpha * P(r, c) + beta * At(s, ld, r, c)
         else At(s, ld, r, c)
  }

  lemma TriangleGrows(s'': seq<real>, s': seq<real>, s: seq<real>, ld: int, uplo: Uplo, m: int, j: int,
                      alpha: real, P: Mat, beta: real)
    requires 0 <= j < m && TriangleUpdated(s', s, ld, uplo, m, j, alpha, P, beta)
    requires ColumnUpdated(s'', s', ld, if uplo.Upper? then 0 else j, if uplo.Upper? then j + 1 else m, j, alpha, P, beta)
    ensures TriangleUpdated(s'', s, ld, uplo, m, j + 1, alpha, P, beta)
  {
    hide At;
  }

  method Ssyrk(lanes: bool, uplo: Uplo, trans: Trans, n: int, k: int, alpha: real, a: array<real>, lda: int,
               beta: real, c: array<real>, ldc: int) returns (info: int)
    requires a != c
    requires SyrkInfo(trans, n, k, lda, ldc) == 0 ==> HoldsOp(a, lda, trans, n, k) && Holds(c, ldc, n, n)
    modifies c
    ensures info == SyrkInfo(trans, n, k, lda, ldc)
    ensures info == 0 <==> 0 <= n && 0 <= k && 1 <= lda && (if trans.NoTrans? then n else k) <= lda && 1 <= ldc && n <= ldc
    ensures (info == 3 <==> n < 0) && (info == 4 <==> 0 <= n && k < 0) && info in {0, 3, 4, 7, 10}
    ensures info == 7 <==> 0 <= n && 0 <= k && (lda < 1 || lda < (if trans.NoTrans? then n else k))
    ensures info != 0 ==> c[..] == old(c[..])
    ensures info == 0 ==>
      TriangleUpdated(c[..], old(c[..]), ldc, uplo, n, n, alpha,
        Product(Op(Entries(a[..], lda), trans), Transpose(Op(Entries(a[..], lda), trans)), k), beta)
  {
    hide Sum, At, Op, Product;
    info := SyrkInfo(trans, n, k, lda, ldc);
    if info != 0 {
      return;
    }
    ghost var A, C := a[..], c[..];
    ghost var X := Op(Entries(A, lda), trans);
    ghost var P := Product(X, Transpose(X), k);
    if n == 0 || ((alpha == 0.0 || k == 0) && beta == 1.0) {
      NothingToAdd(alpha, X, Transpose(X), k, n, n);
      return;
    }
    HoldsLess(c, ldc, n, n);
    HoldsLess(a, lda, if trans.NoTrans? then n else k, if trans.NoTrans? then k else n);
    var j := 0;
    while j < n
      invariant 0 <= j <= n && a[..] == A
      invariant TriangleUpdated(c[..], C, ldc, uplo, n, j, alpha, P, beta)
    {
      hide TriangleUpdated, ColumnUpdated;
      ghost var s := c[..];
      var r0, r1 := if uplo.Upper? then 0 else j, if uplo.Upper? then j + 1 else n;
      OpIs(Entries(A, lda));
      if alpha == 0.0 {
        ScaleTriangleColumn(r0, r1, beta, c, ldc, j, P);
      } else if trans.NoTrans? {
        AddProducts(lanes, Transposed, r0, r1, k, alpha, a, lda, a, lda, beta, c, ldc, j);
      } else {
        DotProducts(lanes, NoTrans, r0, r1, k, alpha, a, lda, a, lda, beta, c, ldc, j);
        DoubleTranspose(Entries(A, lda), k, j, r0, r1, s, c[..], ldc, alpha, beta);
      }
      TriangleGrows(c[..], s, C, ldc, uplo, n, j, alpha, P, beta);
      j := j + 1;
    }
  }

  method ScaleTriangleColumn(r0: int, r1: int, beta: real, c: array<real>, ldc: int, j: int, ghost P: Mat)
    requires 0 <= j && 0 <= r0 <= r1 && Holds(c, ldc, r1, j + 1)
    modifies c
    ensures ColumnUpdated(c[..], old(c[..]), ldc, r0, r1, j, 0.0, P, beta)
  {
    hide At;
    if beta == 0.0 {
      ZeroColumn(false, c, ldc, j, r0, r1);
    } else {
      ScaleColumn(false, c, ldc, j, r0, r1, beta);
    }
  }

  lemma DoubleTranspose(A: Mat, k: int, j: int, r0: int, r1: int, s: seq<real>, s': seq<real>, ld: int, alpha: real, beta: real)
    requires ColumnUpdated(s', s, ld, r0, r1, j, alpha, Product(Transpose(A), A, k), beta)
    ensures ColumnUpdated(s', s, ld, r0, r1, j, alpha, Product(Transpose(A), Transpose(Transpose(A)), k), beta)
  {
    hide Sum, At;
    forall r, c ensures Product(Transpose(A), A, k)(r, c) == Product(Transpose(A), Transpose(Transpose(A)), k)(r, c) {
      SumEq(0, k, ProductTerms(Transpose(A), A, r, c), ProductTerms(Transpose(A), Transpose(Transpose(A)), r, c));
    }
  }

  // ----- SSYMM -----

  function SymmInfo(side: Side, m: int, n: int, lda: int, ldb: int, ldc: int): int {
    if m < 0 then 3
    else if n < 0 then 4
    else if lda < AtLeast(Order(side, m, n)) then 7
    else if ldb < AtLeast(m) then 9
    else if ldc < AtLeast(m) then 12
    else 0
  }

  /** Rows lo..hi of column j hold beta * C plus the products over lo..hi; the others are untouched. */
  ghost predicate SymmetricDone(s': seq<real>, s: seq<real>, ld: int, m: int, j: int, alpha: real, S: Mat, b: Vec,
                                beta: real, lo: int, hi: int) {
    && |s'| == |s|
    && forall r, c {:trigger At(s', ld, r, c)} :: 0 <= r < ld ==>
         At(s', ld, r, c) ==
         if c == j && lo <= r < hi then beta * At(s, ld, r, c) + alpha * Sum(lo, hi, RowTimes(S, r, b))
         else At(s, ld, r, c)
  }

  lemma SymmetricStep(s'': seq<real>, s': seq<real>, s: seq<real>, ld: int, m: int, j: int, alpha: real, S: Mat, b: Vec,
                      beta: real, lo: int, hi: int, lo': int, hi': int, i: int)
    requires m <= ld && Grows(m, lo, hi, lo', hi', i) && SymmetricDone(s', s, ld, m, j, alpha, S, b, beta, lo, hi)
    requires |s''| == |s'|
    requires forall r, c {:trigger At(s'', ld, r, c)} :: 0 <= r < ld && !(r == i && c == j) ==>
      At(s'', ld, r, c) ==
      if c == j && lo <= r < hi then At(s', ld, r, c) + alpha * b(i) * S(r, i) else At(s', ld, r, c)
    requires At(s'', ld, i, j) ==
      beta * At(s', ld, i, j) + alpha * b(i) * S(i, i) + alpha * Sum(lo, hi, RowTimes(S, i, b))
    ensures SymmetricDone(s'', s, ld, m, j, alpha, S, b, beta, lo', hi')
  {
    hide Sum, At;
    forall r | lo' <= r < hi'
      ensures At(s'', ld, r, j) == beta * At(s, ld, r, j) + alpha * Sum(lo', hi', RowTimes(S, r, b))
    {
      SumGrows(m, lo, hi, lo', hi', i, RowTimes(S, r, b));
      assert RowTimes(S, r, b)(i) == S(r, i) * b(i);
      DistributeTerm(alpha, Sum(lo, hi, RowTimes(S, r, b)), S(r, i), b(i));
    }
  }

  /** Row i of column j, and its reflection in rows lo..hi. */
  method SymmetricRow(lanes: bool, uplo: Uplo, m: int, alpha: real, a: array<real>, lda: int, b: array<real>, ldb: int,
                      beta: real, c: array<real>, ldc: int, j: int, i: int, lo: int, hi: int)
    requires a != c && b != c && 0 <= j && 0 <= i < m && 0 <= lo <= hi <= m && (if uplo.Upper? then lo == 0 && hi == i else lo == i + 1 && hi == m)
    requires Holds(a, lda, m, m) && Holds(b, ldb, m, j + 1) && Holds(c, ldc, m, j + 1)
    modifies c
    ensures forall r, q {:trigger At(c[..], ldc, r, q)} :: 0 <= r < ldc && !(r == i && q == j) ==>
      At(c[..], ldc, r, q) ==
      if q == j && lo <= r < hi then old(At(c[..], ldc, r, q)) + alpha * At(b[..], ldb, i, j) * At(a[..], lda, r, i)
      else old(At(c[..], ldc, r, q))
    ensures At(c[..], ldc, i, j) ==
      beta * old(At(c[..], ldc, i, j)) + alpha * At(b[..], ldb, i, j) * At(a[..], lda, i, i) +
      alpha * Sum(lo, hi, Times(Col(b[..], ldb, j), Col(a[..], lda, i)))
  {
    hide Sum, At;
    HoldsLess(a, lda, m, m);
    HoldsLess(b, ldb, m, j + 1);
    HoldsLess(c, ldc, m, j + 1);
    var v := Get(b, ldb, i, j);
    var temp1 := alpha * v;
    var temp2 := DotColumns(lanes, b, ldb, j, a, lda, i, lo, hi);
    AddColumn(lanes, c, ldc, j, a, lda, i, lo, hi, temp1);
    var d := Get(a, lda, i, i);
    if beta == 0.0 {
      Put(c, ldc, i, j, temp1 * d + alpha * temp2);
    } else {
      var old_c := Get(c, ldc, i, j);
      Put(c, ldc, i, j, beta * old_c + temp1 * d + alpha * temp2);
    }
  }

  lemma ReflectedSum(A: Mat, uplo: Uplo, b: Vec, i: int, lo: int, hi: int, a: Vec)
    requires if uplo.Upper? then hi <= i else i < lo
    requires forall l :: lo <= l < hi ==> a(l) == A(l, i)
    ensures Sum(lo, hi, Times(b, a)) == Sum(lo, hi, RowTimes(Sym(A, uplo), i, b))
  {
    hide Sum;
    SumEq(lo, hi, Times(b, a), RowTimes(Sym(A, uplo), i, b));
  }

  /** C := alpha * A * B + beta * C: one column. */
  method SymmetricColumn(lanes: bool, uplo: Uplo, m: int, alpha: real, a: array<real>, lda: int, b: array<real>, ldb: int,
                         beta: real, c: array<real>, ldc: int, j: int)
    requires a != c && b != c && 0 <= j && Holds(a, lda, m, m) && Holds(b, ldb, m, j + 1) && Holds(c, ldc, m, j + 1)
    modifies c
    ensures SymmetricDone(c[..], old(c[..]), ldc, m, j, alpha, Sym(Entries(a[..], lda), uplo), Col(b[..], ldb, j), beta, 0, m)
  {
    hide Sum, At;
    ghost var A, B, C := a[..], b[..], c[..];
    ghost var S, x := Sym(Entries(A, lda), uplo), Col(B, ldb, j);
    if uplo.Upper? {
      var i := 0;
      while i < m
        invariant 0 <= i <= m && a[..] == A && b[..] == B
        invariant SymmetricDone(c[..], C, ldc, m, j, alpha, S, x, beta, 0, i)
      {
        hide SymmetricDone;
        ghost var s := c[..];
        SymmetricRow(lanes, uplo, m, alpha, a, lda, b, ldb, beta, c, ldc, j, i, 0, i);
        ReflectedSum(Entries(A, lda), uplo, x, i, 0, i, Col(A, lda, i));
        SymmetricStep(c[..], s, C, ldc, m, j, alpha, S, x, beta, 0, i, 0, i + 1, i);
        i := i + 1;
      }
    } else {
      var i := m - 1;
      while i >= 0
        invariant -1 <= i < m && a[..] == A && b[..] == B
        invariant SymmetricDone(c[..], C, ldc, m, j, alpha, S, x, beta, i + 1, m)
      {
        hide SymmetricDone;
        ghost var s := c[..];
        SymmetricRow(lanes, uplo, m, alpha, a, lda, b, ldb, beta, c, ldc, j, i, i + 1, m);
        ReflectedSum(Entries(A, lda), uplo, x, i, i + 1, m, Col(A, lda, i));
        SymmetricStep(c[..], s, C, ldc, m, j, alpha, S, x, beta, i + 1, m, i, m, i);
        i := i - 1;
      }
    }
  }

  lemma SymmetricColumnDone(s': seq<real>, s: seq<real>, ld: int, m: int, j: int, alpha: real, S: Mat, B: Mat, b: Vec, beta: real)
    requires SymmetricDone(s', s, ld, m, j, alpha, S, b, beta, 0, m)
    requires forall l :: 0 <= l < m ==> b(l) == B(l, j)
    ensures ColumnUpdated(s', s, ld, 0, m, j, alpha, Product(S, B, m), beta)
  {
    hide Sum, At;
    forall r | 0 <= r < m ensures Sum(0, m, RowTimes(S, r, b)) == Product(S, B, m)(r, j) {
      SumEq(0, m, RowTimes(S, r, b), ProductTerms(S, B, r, j));
    }
  }

  /** Entry (k, j) of the symmetric matrix, read from its stored triangle. */
  method GetSym(uplo: Uplo, a: array<real>, lda: int, n: int, k: int, j: int) returns (v: real)
    requires 0 <= k < n && 0 <= j < n && Holds(a, lda, n, n)
    ensures v == Sym(Entries(a[..], lda), uplo)(k, j)
  {
    hide At;
    HoldsLess(a, lda, n, n);
    if (if uplo.Upper? then k <= j else j <= k) {
      v := Get(a, lda, k, j);
    } else {
      v := Get(a, lda, j, k);
    }
  }

  /** alpha times the terms lo..hi of B * A are added to column j. */
  method AddSymmetric(lanes: bool, uplo: Uplo, m: int, n: int, alpha: real, a: array<real>, lda: int, b: array<real>, ldb: int,
                      c: array<real>, ldc: int, j: int, lo: int, hi: int)
    requires a != c && b != c && 0 <= j < n && 0 <= lo <= hi <= n
    requires Holds(a, lda, n, n) && Holds(b, ldb, m, n) && Holds(c, ldc, m, n)
    modifies c
    ensures TermsAdded(c[..], old(c[..]), ldc, m, j, alpha, Entries(b[..], ldb), Sym(Entries(a[..], lda), uplo), lo, hi)
  {
    hide Sum, At;
    HoldsLess(b, ldb, m, n);
    HoldsLess(c, ldc, m, n);
    ghost var A, B, C := a[..], b[..], c[..];
    ghost var S, M := Sym(Entries(A, lda), uplo), Entries(B, ldb);
    hide TermsAdded;
    TermsStart(C, ldc, m, j, alpha, M, S, lo);
    var k := lo;
    while k < hi
      invariant lo <= k <= hi && a[..] == A && b[..] == B
      invariant TermsAdded(c[..], C, ldc, m, j, alpha, M, S, lo, k)
    {
      ghost var s := c[..];
      var v := GetSym(uplo, a, lda, n, k, j);
      var temp1 := alpha * v;
      AddColumn(lanes, c, ldc, j, b, ldb, k, 0, m, temp1);
      TermsStep(c[..], s, C, ldc, m, j, alpha, M, S, lo, k);
      k := k + 1;
    }
  }

  /** Column j has gained alpha times the terms lo..hi of M * S. */
  ghost predicate TermsAdded(s': seq<real>, s: seq<real>, ld: int, m: int, j: int, alpha: real, M: Mat, S: Mat,
                             lo: int, hi: int) {
    && |s'| == |s|
    && forall r, q {:trigger At(s', ld, r, q)} :: 0 <= r < ld ==>
         At(s', ld, r, q) ==
         if q == j && r < m then At(s, ld, r, q) + alpha * Sum(lo, hi, ProductTerms(M, S, r, j)) else At(s, ld, r, q)
  }

  lemma TermsStart(s: seq<real>, ld: int, m: int, j: int, alpha: real, M: Mat, S: Mat, lo: int)
    ensures TermsAdded(s, s, ld, m, j, alpha, M, S, lo, lo)
  {
    hide Sum, At;
    forall r ensures alpha * Sum(lo, lo, ProductTerms(M, S, r, j)) == 0.0 {
      SumEmpty(lo, ProductTerms(M, S, r, j));
    }
  }

  lemma TermsStep(s': seq<real>, s: seq<real>, C: seq<real>, ld: int, m: int, j: int, alpha: real, M: Mat, S: Mat,
                  lo: int, k: int)
    requires lo <= k && m <= ld && |s'| == |s| && TermsAdded(s, C, ld, m, j, alpha, M, S, lo, k)
    requires forall r, q {:trigger At(s', ld, r, q)} :: 0 <= r < ld ==>
      At(s', ld, r, q) == if q == j && r < m then At(s, ld, r, q) + alpha * S(k, j) * M(r, k) else At(s, ld, r, q)
    ensures TermsAdded(s', C, ld, m, j, alpha, M, S, lo, k + 1)
  {
    hide Sum, At;
    forall r | 0 <= r < m
      ensures At(s', ld, r, j) == At(C, ld, r, j) + alpha * Sum(lo, k + 1, ProductTerms(M, S, r, j))
    {
      SumLast(lo, k, ProductTerms(M, S, r, j));
      DistributeTerm(alpha, Sum(lo, k, ProductTerms(M, S, r, j)), M(r, k), S(k, j));
    }
  }

  /** C := alpha * B * A + beta * C: one column. */
  method SymmetricRightColumn(lanes: bool, uplo: Uplo, m: int, n: int, alpha: real, a: array<real>, lda: int,
                              b: array<real>, ldb: int, beta: real, c: array<real>, ldc: int, j: int)
    requires a != c && b != c && 0 <= j < n
    requires Holds(a, lda, n, n) && Holds(b, ldb, m, n) && Holds(c, ldc, m, n)
    modifies c
    ensures ColumnUpdated(c[..], old(c[..]), ldc, 0, m, j, alpha,
              Product(Entries(b[..], ldb), Sym(Entries(a[..], lda), uplo), n), beta)
  {
    hide Sum, At, TermsAdded, ColumnUpdated;
    HoldsLess(b, ldb, m, n);
    HoldsLess(c, ldc, m, n);
    ghost var A, B, C := a[..], b[..], c[..];
    ghost var S, M := Sym(Entries(A, lda), uplo), Entries(B, ldb);
    var v := GetSym(uplo, a, lda, n, j, j);
    var temp1 := alpha * v;
    BlendColumn(lanes, c, ldc, j, b, ldb, j, 0, m, temp1, beta);
    ghost var s1 := c[..];
    AddSymmetric(lanes, uplo, m, n, alpha, a, lda, b, ldb, c, ldc, j, 0, j);
    ghost var s2 := c[..];
    AddSymmetric(lanes, uplo, m, n, alpha, a, lda, b, ldb, c, ldc, j, j + 1, n);
    RightColumnEffect(c[..], s2, s1, C, ldc, m, n, j, alpha, beta, M, S);
  }

  lemma RightColumnEffect(s3: seq<real>, s2: seq<real>, s1: seq<real>, s: seq<real>, ld: int, m: int, n: int, j: int,
                          alpha: real, beta: real, M: Mat, S: Mat)
    requires 0 <= j < n && m <= ld && |s1| == |s|
    requires forall r, q {:trigger At(s1, ld, r, q)} :: 0 <= r < ld ==>
      At(s1, ld, r, q) ==
      if q == j && r < m then beta * At(s, ld, r, q) + alpha * S(j, j) * M(r, j) else At(s, ld, r, q)
    requires TermsAdded(s2, s1, ld, m, j, alpha, M, S, 0, j) && TermsAdded(s3, s2, ld, m, j, alpha, M, S, j + 1, n)
    ensures ColumnUpdated(s3, s, ld, 0, m, j, alpha, Product(M, S, n), beta)
  {
    hide Sum, At;
    forall r | 0 <= r < m ensures At(s3, ld, r, j) == alpha * Product(M, S, n)(r, j) + beta * At(s, ld, r, j) {
      ThreeParts(alpha, beta, M, S, r, j, n, At(s, ld, r, j), At(s1, ld, r, j), At(s2, ld, r, j), At(s3, ld, r, j));
    }
  }

  lemma ThreeParts(alpha: real, beta: real, M: Mat, S: Mat, r: int, j: int, n: int, c: real, c1: real, c2: real, c3: real)
    requires 0 <= j < n
    requires c1 == beta * c + alpha * S(j, j) * M(r, j)
    requires c2 == c1 + alpha * Sum(0, j, ProductTerms(M, S, r, j))
    requires c3 == c2 + alpha * Sum(j + 1, n, ProductTerms(M, S, r, j))
    ensures c3 == alpha * Product(M, S, n)(r, j) + beta * c
  {
    hide Sum;
    var f := ProductTerms(M, S, r, j);
    SumSplit(0, j, n, f);
    SumFirst(j, n, f);
    var p, q := Sum(0, j, f), Sum(j + 1, n, f);
    Gather(alpha, p, M(r, j), S(j, j), q);
  }

  lemma Gather(alpha: real, p: real, x: real, y: real, q: real)
    ensures alpha * (p + (x * y + q)) == alpha * p + alpha * y * x + alpha * q
  {
    assert alpha * (p + (x * y + q)) == alpha * p + alpha * (x * y) + alpha * q;
  }

  /** One column of either product. */
  method SymmetricProductColumn(lanes: bool, side: Side, uplo: Uplo, m: int, n: int, alpha: real, a: array<real>, lda: int,
                                b: array<real>, ldb: int, beta: real, c: array<real>, ldc: int, j: int)
    requires a != c && b != c && 0 <= j < n && 0 <= m
    requires Holds(a, lda, Order(side, m, n), Order(side, m, n)) && Holds(b, ldb, m, n) && Holds(c, ldc, m, n)
    modifies c
    ensures
      var S, M := Sym(Entries(a[..], lda), uplo), Entries(b[..], ldb);
      ColumnUpdated(c[..], old(c[..]), ldc, 0, m, j, alpha,
        Product(if side.Left? then S else M, if side.Left? then M else S, Order(side, m, n)), beta)
  {
    hide Sum, At, ColumnUpdated, SymmetricDone, Product, Sym;
    HoldsLess(b, ldb, m, n);
    HoldsLess(c, ldc, m, n);
    ghost var s := c[..];
    if side.Left? {
      SymmetricColumn(lanes, uplo, m, alpha, a, lda, b, ldb, beta, c, ldc, j);
      SymmetricColumnDone(c[..], s, ldc, m, j, alpha, Sym(Entries(a[..], lda), uplo), Entries(b[..], ldb),
                          Col(b[..], ldb, j), beta);
    } else {
      SymmetricRightColumn(lanes, uplo, m, n, alpha, a, lda, b, ldb, beta, c, ldc, j);
    }
  }

  method Ssymm(lanes: bool, side: Side, uplo: Uplo, m: int, n: int, alpha: real, a: array<real>, lda: int,
               b: array<real>, ldb: int, beta: real, c: array<real>, ldc: int) returns (info: int)
    requires a != c && b != c
    requires SymmInfo(side, m, n, lda, ldb, ldc) == 0 ==>
      Holds(a, lda, Order(side, m, n), Order(side, m, n)) && Holds(b, ldb, m, n) && Holds(c, ldc, m, n)
    modifies c
    ensures info == SymmInfo(side, m, n, lda, ldb, ldc)
    ensures info == 0 <==> 0 <= m && 0 <= n && 1 <= lda && (if side.Left? then m else n) <= lda &&
                           1 <= ldb && m <= ldb && 1 <= ldc && m <= ldc
    ensures (info == 3 <==> m < 0) && (info == 4 <==> 0 <= m && n < 0) && info in {0, 3, 4, 7, 9, 12}
    ensures info == 7 ==> lda < 1 || lda < (if side.Left? then m else n)
    ensures (info == 9 ==> ldb < 1 || ldb < m) && (info == 12 ==> ldc < 1 || ldc < m)
    ensures info != 0 ==> c[..] == old(c[..])
    ensures info == 0 ==> OnlyWindow(c[..], old(c[..]), ldc, m, n)
    ensures info == 0 ==>
      MulAdd(Entries(c[..], ldc), alpha,
             if side.Left? then Sym(Entries(a[..], lda), uplo) else Entries(b[..], ldb),
             if side.Left? then Entries(b[..], ldb) else Sym(Entries(a[..], lda), uplo),
             Order(side, m, n), beta, Entries(old(c[..]), ldc), m, n)
  {
    hide Sum, At, Product, Sym, WindowUpdated, ColumnUpdated, MulAdd, OnlyWindow, Entries;
    info := SymmInfo(side, m, n, lda, ldb, ldc);
    if info != 0 {
      return;
    }
    ghost var A, B, C := a[..], b[..], c[..];
    ghost var S, M := Sym(Entries(A, lda), uplo), Entries(B, ldb);
    ghost var F, G, k := if side.Left? then S else M, if side.Left? then M else S, Order(side, m, n);
    if m == 0 || n == 0 || (alpha == 0.0 && beta == 1.0) {
      WindowUntouched(C, ldc, m, n, alpha, F, G, k, beta);
    } else if alpha == 0.0 {
      ScaleWindow(m, n, beta, c, ldc, Product(F, G, k));
      WindowDone(c[..], C, ldc, m, n, alpha, F, G, k, beta);
    } else {
      WindowStart(C, ldc, m, alpha, Product(F, G, k), beta);
      var j := 0;
      while j < n
        invariant 0 <= j <= n && a[..] == A && b[..] == B
        invariant WindowUpdated(c[..], C, ldc, m, j, alpha, Product(F, G, k), beta)
      {
        ghost var s := c[..];
        SymmetricProductColumn(lanes, side, uplo, m, n, alpha, a, lda, b, ldb, beta, c, ldc, j);
        WindowGrows(c[..], s, C, ldc, m, j, alpha, Product(F, G, k), beta);
        j := j + 1;
      }
      WindowDone(c[..], C, ldc, m, n, alpha, F, G, k, beta);
    }
  }
}
