// STRMM: B := alpha * op(A) * B or B := alpha * B * op(A), in place.

module TriangularMultiply {
  import opened Sums
  import opened Storage
  import opened Kernels
  import opened Triangular
  import opened TriangularSolve

  /** The pivot that row or column k is multiplied by. */
  ghost function DiagonalFactor(A: Mat, diag: Diag, k: int): real { if diag.UnitDiag? then 1.0 else A(k, k) }

  // ----- one column of B, A on the left, no transpose -----

  /** What spreading entry k of column j does: its multiples are added to rows r0..r1, then it is multiplied itself. */
  ghost predicate Spreads(A: Mat, diag: Diag, alpha: real, s': seq<real>, s: seq<real>, ldb: int, j: int, k: int,
                          r0: int, r1: int) {
    && |s'| == |s|
    && At(s', ldb, k, j) == alpha * (DiagonalFactor(A, diag, k) * At(s, ldb, k, j))
    && forall r, c {:trigger At(s', ldb, r, c)} :: 0 <= r < ldb && !(r == k && c == j) ==>
         At(s', ldb, r, c) ==
         if c == j && r0 <= r < r1 then At(s, ldb, r, c) + alpha * (A(r, k) * At(s, ldb, k, j)) else At(s, ldb, r, c)
  }

  lemma Regroup(alpha: real, v: real, a: real)
    ensures alpha * v * a == alpha * (a * v)
  {
  }

  method Spread(diag: Diag, alpha: real, a: array<real>, lda: int, b: array<real>, ldb: int, j: int, k: int,
                r0: int, r1: int)
    requires a != b && 0 <= j && 0 <= k && 0 <= r0 <= r1 && (r1 <= k || k < r0)
    requires Holds(a, lda, k + 1, k + 1) && Holds(a, lda, r1, k + 1)
    requires Holds(b, ldb, k + 1, j + 1) && Holds(b, ldb, r1, j + 1)
    modifies b
    ensures Spreads(Entries(a[..], lda), diag, alpha, b[..], old(b[..]), ldb, j, k, r0, r1)
  {
    hide At;
    ghost var B, A := b[..], a[..];
    var v := Get(b, ldb, k, j);
    if v != 0.0 {
      var temp := alpha * v;
      AddColumn(false, b, ldb, j, a, lda, k, r0, r1, temp);
      forall r | r0 <= r < r1 ensures At(b[..], ldb, r, j) == At(B, ldb, r, j) + alpha * (At(A, lda, r, k) * v) {
        Regroup(alpha, v, At(A, lda, r, k));
      }
      if diag.NonUnit? {
        var d := Get(a, lda, k, k);
        Regroup(alpha, v, d);
        temp := temp * d;
      }
      Put(b, ldb, k, j, temp);
    }
  }

  lemma SpreadStep(A: Mat, uplo: Uplo, diag: Diag, alpha: real, B: seq<real>, s: seq<real>, s': seq<real>,
                   ldb: int, j: int, m: int, lo: int, hi: int, lo': int, hi': int, k: int)
    requires m <= ldb && Grows(m, lo, hi, lo', hi', k)
    requires if uplo.Upper? then lo == 0 && hi == k else lo == k + 1 && hi == m
    requires Spreads(A, diag, alpha, s', s, ldb, j, k, lo, hi)
    requires Accumulated(Tri(A, uplo, diag), alpha, Col(B, ldb, j), Col(s, ldb, j), m, lo, hi)
    ensures Accumulated(Tri(A, uplo, diag), alpha, Col(B, ldb, j), Col(s', ldb, j), m, lo', hi')
  {
    hide Sum, At;
    assert Col(s, ldb, j)(k) == Col(B, ldb, j)(k);
    hide Accumulated;
    AccumulationStep(Tri(A, uplo, diag), alpha, Col(B, ldb, j), Col(s, ldb, j), Col(s', ldb, j), m,
                     lo, hi, lo', hi', k);
  }

  /** Column j of the window is alpha * T times what it was. */
  ghost predicate ColumnMultiplied(T: Mat, alpha: real, s: seq<real>, B: seq<real>, ldb: int, m: int, j: int) {
    forall i {:trigger At(s, ldb, i, j)} :: 0 <= i < m ==>
      At(s, ldb, i, j) == alpha * Apply(T, m, Col(B, ldb, j))(i)
  }

  lemma AccumulatedDone(T: Mat, alpha: real, B: seq<real>, s: seq<real>, ldb: int, j: int, m: int)
    requires Accumulated(T, alpha, Col(B, ldb, j), Col(s, ldb, j), m, 0, m)
    ensures ColumnMultiplied(T, alpha, s, B, ldb, m, j)
  {
    hide Sum, At;
    forall i | 0 <= i < m ensures At(s, ldb, i, j) == alpha * Apply(T, m, Col(B, ldb, j))(i) {
      assert At(s, ldb, i, j) == Col(s, ldb, j)(i);
    }
  }

  /** B := alpha * A * B, A upper: one column. */
  method LeftUpper(diag: Diag, m: int, alpha: real, a: array<real>, lda: int, b: array<real>, ldb: int, j: int)
    requires a != b && 0 <= j && Holds(a, lda, m, m) && Holds(b, ldb, m, j + 1)
    modifies b
    ensures OnlyColumn(b[..], old(b[..]), ldb, m, j)
    ensures ColumnMultiplied(OpA(a[..], lda, Upper, NoTrans, diag), alpha, b[..], old(b[..]), ldb, m, j)
  {
    hide Sum, At, ColumnMultiplied;
    HoldsLess(a, lda, m, m);
    HoldsLess(b, ldb, m, j + 1);
    ghost var B, A := b[..], a[..];
    ghost var T := OpA(A, lda, Upper, NoTrans, diag);
    var k := 0;
    while k < m
      invariant 0 <= k <= m && a[..] == A && OnlyColumn(b[..], B, ldb, m, j)
      invariant Accumulated(T, alpha, Col(B, ldb, j), Col(b[..], ldb, j), m, 0, k)
    {
      hide Accumulated;
      ghost var s := b[..];
      Spread(diag, alpha, a, lda, b, ldb, j, k, 0, k);
      SpreadStep(Entries(A, lda), Upper, diag, alpha, B, s, b[..], ldb, j, m, 0, k, 0, k + 1, k);
      k := k + 1;
    }
    AccumulatedDone(T, alpha, B, b[..], ldb, j, m);
  }

  /** B := alpha * A * B, A lower: one column. */
  method LeftLower(diag: Diag, m: int, alpha: real, a: array<real>, lda: int, b: array<real>, ldb: int, j: int)
    requires a != b && 0 <= j && Holds(a, lda, m, m) && Holds(b, ldb, m, j + 1)
    modifies b
    ensures OnlyColumn(b[..], old(b[..]), ldb, m, j)
    ensures ColumnMultiplied(OpA(a[..], lda, Lower, NoTrans, diag), alpha, b[..], old(b[..]), ldb, m, j)
  {
    hide Sum, At, ColumnMultiplied;
    HoldsLess(a, lda, m, m);
    HoldsLess(b, ldb, m, j + 1);
    ghost var B, A := b[..], a[..];
    ghost var T := OpA(A, lda, Lower, NoTrans, diag);
    var k := m - 1;
    while k >= 0
      invariant -1 <= k < m && a[..] == A && OnlyColumn(b[..], B, ldb, m, j)
      invariant Accumulated(T, alpha, Col(B, ldb, j), Col(b[..], ldb, j), m, k + 1, m)
    {
      hide Accumulated;
      ghost var s := b[..];
      Spread(diag, alpha, a, lda, b, ldb, j, k, k + 1, m);
      SpreadStep(Entries(A, lda), Lower, diag, alpha, B, s, b[..], ldb, j, m, k + 1, m, k, m, k);
      k := k - 1;
    }
    AccumulatedDone(T, alpha, B, b[..], ldb, j, m);
  }

  // ----- one column of B, A on the left, transposed -----

  /** Entry i of column j becomes alpha times its row of the product over itself and entries p..q. */
  ghost predicate RowMultiplied(A: Mat, diag: Diag, alpha: real, s': seq<real>, s: seq<real>, ldb: int, j: int,
                                i: int, p: int, q: int) {
    && |s'| == |s|
    && At(s', ldb, i, j) ==
       alpha * (DiagonalFactor(A, diag, i) * At(s, ldb, i, j) + Sum(p, q, Times(ColOf(A, i), Col(s, ldb, j))))
    && forall r, c {:trigger At(s', ldb, r, c)} :: 0 <= r < ldb && !(r == i && c == j) ==>
         At(s', ldb, r, c) == At(s, ldb, r, c)
  }

  method MultiplyRow(diag: Diag, alpha: real, a: array<real>, lda: int, b: array<real>, ldb: int, j: int,
                     i: int, p: int, q: int)
    requires a != b && 0 <= j && 0 <= i && 0 <= p <= q
    requires Holds(a, lda, i + 1, i + 1) && Holds(a, lda, q, i + 1)
    requires Holds(b, ldb, i + 1, j + 1) && Holds(b, ldb, q, j + 1)
    modifies b
    ensures RowMultiplied(Entries(a[..], lda), diag, alpha, b[..], old(b[..]), ldb, j, i, p, q)
  {
    hide At, Sum;
    HoldsLess(a, lda, q, i + 1);
    HoldsLess(b, ldb, q, j + 1);
    ghost var A, B := a[..], b[..];
    ghost var f := Times(ColOf(Entries(A, lda), i), Col(B, ldb, j));
    var temp := Get(b, ldb, i, j);
    if diag.NonUnit? {
      var d := Get(a, lda, i, i);
      temp := temp * d;
    }
    ghost var start := temp;
    SumEmpty(p, f);
    var k := p;
    while k < q
      invariant p <= k <= q && a[..] == A && b[..] == B
      invariant temp == start + Sum(p, k, f)
    {
      var x := Get(a, lda, k, i);
      var y := Get(b, ldb, k, j);
      SumLast(p, k, f);
      temp := temp + x * y;
      k := k + 1;
    }
    Put(b, ldb, i, j, alpha * temp);
  }

  lemma MultiplyRowStep(A: Mat, uplo: Uplo, diag: Diag, alpha: real, B: seq<real>, s: seq<real>, s': seq<real>,
                        ldb: int, j: int, m: int, lo: int, hi: int, lo': int, hi': int, i: int, p: int, q: int)
    requires m <= ldb && Grows(m, lo, hi, lo', hi', i)
    requires if uplo.Upper? then hi == m && p == 0 && q == i else lo == 0 && p == i + 1 && q == m
    requires RowMultiplied(A, diag, alpha, s', s, ldb, j, i, p, q)
    requires Replaced(Op(Tri(A, uplo, diag), Transposed), alpha, Col(B, ldb, j), Col(s, ldb, j), m, lo, hi)
    ensures Replaced(Op(Tri(A, uplo, diag), Transposed), alpha, Col(B, ldb, j), Col(s', ldb, j), m, lo', hi')
  {
    hide Sum, At, Replaced;
    var T := Op(Tri(A, uplo, diag), Transposed);
    SumEq(p, q, RowTimes(T, i, Col(s, ldb, j)), Times(ColOf(A, i), Col(s, ldb, j)));
    ReplacementStep(T, alpha, Col(B, ldb, j), Col(s, ldb, j), Col(s', ldb, j), m, lo, hi, lo', hi', i, p, q);
  }

  lemma ReplacedDone(T: Mat, alpha: real, B: seq<real>, s: seq<real>, ldb: int, j: int, m: int)
    requires Replaced(T, alpha, Col(B, ldb, j), Col(s, ldb, j), m, 0, m)
    ensures ColumnMultiplied(T, alpha, s, B, ldb, m, j)
  {
    hide Sum, At;
    forall i | 0 <= i < m ensures At(s, ldb, i, j) == alpha * Apply(T, m, Col(B, ldb, j))(i) {
      assert At(s, ldb, i, j) == Col(s, ldb, j)(i);
    }
  }

  /** B := alpha * A' * B, A upper: one column. */
  method LeftUpperTrans(diag: Diag, m: int, alpha: real, a: array<real>, lda: int, b: array<real>, ldb: int, j: int)
    requires a != b && 0 <= j && Holds(a, lda, m, m) && Holds(b, ldb, m, j + 1)
    modifies b
    ensures OnlyColumn(b[..], old(b[..]), ldb, m, j)
    ensures ColumnMultiplied(OpA(a[..], lda, Upper, Transposed, diag), alpha, b[..], old(b[..]), ldb, m, j)
  {
    hide Sum, At, ColumnMultiplied;
    HoldsLess(a, lda, m, m);
    HoldsLess(b, ldb, m, j + 1);
    ghost var B, A := b[..], a[..];
    ghost var T := OpA(A, lda, Upper, Transposed, diag);
    var i := m - 1;
    while i >= 0
      invariant -1 <= i < m && a[..] == A && OnlyColumn(b[..], B, ldb, m, j)
      invariant Replaced(T, alpha, Col(B, ldb, j), Col(b[..], ldb, j), m, i + 1, m)
    {
      hide Replaced;
      ghost var s := b[..];
      MultiplyRow(diag, alpha, a, lda, b, ldb, j, i, 0, i);
      MultiplyRowStep(Entries(A, lda), Upper, diag, alpha, B, s, b[..], ldb, j, m, i + 1, m, i, m, i, 0, i);
      i := i - 1;
    }
    ReplacedDone(T, alpha, B, b[..], ldb, j, m);
  }

  /** B := alpha * A' * B, A lower: one column. */
  method LeftLowerTrans(diag: Diag, m: int, alpha: real, a: array<real>, lda: int, b: array<real>, ldb: int, j: int)
    requires a != b && 0 <= j && Holds(a, lda, m, m) && Holds(b, ldb, m, j + 1)
    modifies b
    ensures OnlyColumn(b[..], old(b[..]), ldb, m, j)
    ensures ColumnMultiplied(OpA(a[..], lda, Lower, Transposed, diag), alpha, b[..], old(b[..]), ldb, m, j)
  {
    hide Sum, At, ColumnMultiplied;
    HoldsLess(a, lda, m, m);
    HoldsLess(b, ldb, m, j + 1);
    ghost var B, A := b[..], a[..];
    ghost var T := OpA(A, lda, Lower, Transposed, diag);
    var i := 0;
    while i < m
      invariant 0 <= i <= m && a[..] == A && OnlyColumn(b[..], B, ldb, m, j)
      invariant Replaced(T, alpha, Col(B, ldb, j), Col(b[..], ldb, j), m, 0, i)
    {
      hide Replaced;
      ghost var s := b[..];
      MultiplyRow(diag, alpha, a, lda, b, ldb, j, i, i + 1, m);
      MultiplyRowStep(Entries(A, lda), Lower, diag, alpha, B, s, b[..], ldb, j, m, 0, i, 0, i + 1, i, i + 1, m);
      i := i + 1;
    }
    ReplacedDone(T, alpha, B, b[..], ldb, j, m);
  }

  // ----- all rows of B at once, A on the right, no transpose -----

  ghost predicate ColumnReplaced(A: Mat, diag: Diag, alpha: real, s': seq<real>, s: seq<real>, ldb: int, m: int,
                                 j: int, p: int, q: int) {
    && OnlyColumn(s', s, ldb, m, j)
    && forall r {:trigger At(s', ldb, r, j)} :: 0 <= r < m ==>
         At(s', ldb, r, j) ==
         alpha * (DiagonalFactor(A, diag, j) * At(s, ldb, r, j) + Sum(p, q, Times(ColOf(A, j), Row(s, ldb, r))))
  }

  lemma NextProduct(A: Mat, alpha: real, B: seq<real>, s: seq<real>, s': seq<real>, ldb: int, j: int,
                    p: int, k: int, r: int)
    requires p <= k
    requires At(s, ldb, r, j) == At(B, ldb, r, j) + alpha * Sum(p, k, Times(ColOf(A, j), Row(B, ldb, r)))
    requires At(s, ldb, r, k) == At(B, ldb, r, k)
    requires if A(k, j) != 0.0 then At(s', ldb, r, j) == At(s, ldb, r, j) + alpha * A(k, j) * At(s, ldb, r, k)
             else At(s', ldb, r, j) == At(s, ldb, r, j)
    ensures At(s', ldb, r, j) == At(B, ldb, r, j) + alpha * Sum(p, k + 1, Times(ColOf(A, j), Row(B, ldb, r)))
  {
    hide Sum, At;
    SumLast(p, k, Times(ColOf(A, j), Row(B, ldb, r)));
    AddInside(alpha, Sum(p, k, Times(ColOf(A, j), Row(B, ldb, r))), A(k, j), At(B, ldb, r, k));
  }

  lemma AddInside(alpha: real, x: real, y: real, z: real)
    ensures alpha * (x + y * z) == alpha * x + alpha * y * z
  {
    assert alpha * (x + y * z) == alpha * x + alpha * (y * z);
  }

  method AddColumns(m: int, alpha: real, a: array<real>, lda: int, b: array<real>, ldb: int, j: int, p: int, q: int)
    requires a != b && 0 <= j && 0 <= p <= q && (q <= j || j < p)
    requires Holds(a, lda, q, j + 1) && Holds(b, ldb, m, j + 1) && Holds(b, ldb, m, q)
    modifies b
    ensures OnlyColumn(b[..], old(b[..]), ldb, m, j)
    ensures forall r {:trigger At(b[..], ldb, r, j)} :: 0 <= r < m ==>
      At(b[..], ldb, r, j) ==
      old(At(b[..], ldb, r, j)) + alpha * Sum(p, q, Times(ColOf(Entries(a[..], lda), j), Row(old(b[..]), ldb, r)))
  {
    hide Sum, At;
    HoldsLess(a, lda, q, j + 1);
    HoldsLess(b, ldb, m, q);
    ghost var A, B := a[..], b[..];
    ghost var M := Entries(A, lda);
    forall r | 0 <= r < m ensures alpha * Sum(p, p, Times(ColOf(M, j), Row(B, ldb, r))) == 0.0 {
      SumEmpty(p, Times(ColOf(M, j), Row(B, ldb, r)));
    }
    var k := p;
    while k < q
      invariant p <= k <= q && a[..] == A && OnlyColumn(b[..], B, ldb, m, j)
      invariant forall r {:trigger At(b[..], ldb, r, j)} :: 0 <= r < m ==>
        At(b[..], ldb, r, j) == At(B, ldb, r, j) + alpha * Sum(p, k, Times(ColOf(M, j), Row(B, ldb, r)))
    {
      ghost var s := b[..];
      var v := Get(a, lda, k, j);
      assert v == M(k, j);
      if v != 0.0 {
        var temp := alpha * v;
        AddColumn(false, b, ldb, j, b, ldb, k, 0, m, temp);
      }
      forall r | 0 <= r < m
        ensures At(b[..], ldb, r, j) == At(B, ldb, r, j) + alpha * Sum(p, k + 1, Times(ColOf(M, j), Row(B, ldb, r)))
      {
        NextProduct(M, alpha, B, s, b[..], ldb, j, p, k, r);
      }
      k := k + 1;
    }
  }

  method MultiplyColumn(diag: Diag, m: int, alpha: real, a: array<real>, lda: int, b: array<real>, ldb: int, j: int,
                        p: int, q: int)
    requires a != b && 0 <= j && 0 <= p <= q && (q <= j || j < p)
    requires Holds(a, lda, j + 1, j + 1) && Holds(a, lda, q, j + 1)
    requires Holds(b, ldb, m, j + 1) && Holds(b, ldb, m, q)
    modifies b
    ensures ColumnReplaced(Entries(a[..], lda), diag, alpha, b[..], old(b[..]), ldb, m, j, p, q)
  {
    hide Sum, At, DiagonalFactor;
    ghost var A, B := a[..], b[..];
    var temp := Factor(diag, alpha, a, lda, j);
    ScaleColumn(false, b, ldb, j, 0, m, temp);
    ghost var s := b[..];
    AddColumns(m, alpha, a, lda, b, ldb, j, p, q);
    MultiplyColumnEffect(Entries(A, lda), diag, alpha, b[..], s, B, ldb, m, j, p, q);
  }

  lemma MultiplyColumnEffect(A: Mat, diag: Diag, alpha: real, s': seq<real>, s: seq<real>, B: seq<real>,
                             ldb: int, m: int, j: int, p: int, q: int)
    requires |s| == |B| && m <= ldb && 0 <= p && (q <= j || j < p)
    requires forall r, c {:trigger At(s, ldb, r, c)} :: 0 <= r < ldb ==>
      At(s, ldb, r, c) ==
      if c == j && 0 <= r < m then alpha * DiagonalFactor(A, diag, j) * At(B, ldb, r, c) else At(B, ldb, r, c)
    requires OnlyColumn(s', s, ldb, m, j)
    requires forall r {:trigger At(s', ldb, r, j)} :: 0 <= r < m ==>
      At(s', ldb, r, j) == At(s, ldb, r, j) + alpha * Sum(p, q, Times(ColOf(A, j), Row(s, ldb, r)))
    ensures ColumnReplaced(A, diag, alpha, s', B, ldb, m, j, p, q)
  {
    hide Sum, At, DiagonalFactor;
    forall r | 0 <= r < m
      ensures At(s', ldb, r, j) ==
        alpha * (DiagonalFactor(A, diag, j) * At(B, ldb, r, j) + Sum(p, q, Times(ColOf(A, j), Row(B, ldb, r))))
    {
      SumEq(p, q, Times(ColOf(A, j), Row(s, ldb, r)), Times(ColOf(A, j), Row(B, ldb, r)));
      Factored(alpha, DiagonalFactor(A, diag, j), At(B, ldb, r, j), Sum(p, q, Times(ColOf(A, j), Row(B, ldb, r))));
    }
  }

  lemma Factored(alpha: real, d: real, x: real, y: real)
    ensures alpha * d * x + alpha * y == alpha * (d * x + y)
  {
    Associate(alpha, d, x);
  }

  /** x := alpha * T * x for row r, with T = op(A)': the state of the row-wise replacement. */
  ghost predicate RowsReplaced(A: Mat, uplo: Uplo, diag: Diag, alpha: real, B: seq<real>, s: seq<real>,
                               ldb: int, m: int, n: int, lo: int, hi: int) {
    forall r {:trigger Row(s, ldb, r)} :: 0 <= r < m ==>
      Replaced(Transpose(Tri(A, uplo, diag)), alpha, Row(B, ldb, r), Row(s, ldb, r), n, lo, hi)
  }

  lemma MultiplyColumnStep(A: Mat, uplo: Uplo, diag: Diag, alpha: real, B: seq<real>, s: seq<real>, s': seq<real>,
                           ldb: int, m: int, n: int, lo: int, hi: int, lo': int, hi': int, j: int, p: int, q: int, r: int)
    requires m <= ldb && Grows(n, lo, hi, lo', hi', j) && 0 <= r < m
    requires if uplo.Upper? then hi == n && p == 0 && q == j else lo == 0 && p == j + 1 && q == n
    requires ColumnReplaced(A, diag, alpha, s', s, ldb, m, j, p, q)
    requires Replaced(Transpose(Tri(A, uplo, diag)), alpha, Row(B, ldb, r), Row(s, ldb, r), n, lo, hi)
    ensures Replaced(Transpose(Tri(A, uplo, diag)), alpha, Row(B, ldb, r), Row(s', ldb, r), n, lo', hi')
  {
    hide Sum, At, Replaced;
    var T := Transpose(Tri(A, uplo, diag));
    SumEq(p, q, RowTimes(T, j, Row(s, ldb, r)), Times(ColOf(A, j), Row(s, ldb, r)));
    assert Row(s', ldb, r)(j) == alpha * (T(j, j) * Row(s, ldb, r)(j) + Sum(p, q, RowTimes(T, j, Row(s, ldb, r))));
    ReplacementStep(T, alpha, Row(B, ldb, r), Row(s, ldb, r), Row(s', ldb, r), n, lo, hi, lo', hi', j, p, q);
  }

  lemma ColumnReplacedWindow(A: Mat, diag: Diag, alpha: real, s': seq<real>, s: seq<real>, B: seq<real>, ldb: int,
                             m: int, n: int, j: int, p: int, q: int)
    requires ColumnReplaced(A, diag, alpha, s', s, ldb, m, j, p, q) && OnlyWindow(s, B, ldb, m, n) && 0 <= j < n
    ensures OnlyWindow(s', B, ldb, m, n)
  {
    hide Sum, At;
  }

  /** B := alpha * B * A, A upper. */
  method RightUpper(diag: Diag, m: int, n: int, alpha: real, a: array<real>, lda: int, b: array<real>, ldb: int)
    requires a != b && Holds(a, lda, n, n) && Holds(b, ldb, m, n)
    modifies b
    ensures OnlyWindow(b[..], old(b[..]), ldb, m, n)
    ensures RowsReplaced(Entries(a[..], lda), Upper, diag, alpha, old(b[..]), b[..], ldb, m, n, 0, n)
  {
    hide Sum, At;
    HoldsLess(a, lda, n, n);
    HoldsLess(b, ldb, m, n);
    ghost var B, A := b[..], a[..];
    var j := n - 1;
    while j >= 0
      invariant -1 <= j < n && a[..] == A && OnlyWindow(b[..], B, ldb, m, n)
      invariant RowsReplaced(Entries(A, lda), Upper, diag, alpha, B, b[..], ldb, m, n, j + 1, n)
    {
      hide Replaced, ColumnReplaced;
      ghost var s := b[..];
      MultiplyColumn(diag, m, alpha, a, lda, b, ldb, j, 0, j);
      ColumnReplacedWindow(Entries(A, lda), diag, alpha, b[..], s, B, ldb, m, n, j, 0, j);
      forall r | 0 <= r < m
        ensures Replaced(Transpose(Tri(Entries(A, lda), Upper, diag)), alpha, Row(B, ldb, r), Row(b[..], ldb, r), n, j, n)
      {
        MultiplyColumnStep(Entries(A, lda), Upper, diag, alpha, B, s, b[..], ldb, m, n, j + 1, n, j, n, j, 0, j, r);
      }
      j := j - 1;
    }
  }

  /** B := alpha * B * A, A lower. */
  method RightLower(diag: Diag, m: int, n: int, alpha: real, a: array<real>, lda: int, b: array<real>, ldb: int)
    requires a != b && Holds(a, lda, n, n) && Holds(b, ldb, m, n)
    modifies b
    ensures OnlyWindow(b[..], old(b[..]), ldb, m, n)
    ensures RowsReplaced(Entries(a[..], lda), Lower, diag, alpha, old(b[..]), b[..], ldb, m, n, 0, n)
  {
    hide Sum, At;
    HoldsLess(a, lda, n, n);
    HoldsLess(b, ldb, m, n);
    ghost var B, A := b[..], a[..];
    var j := 0;
    while j < n
      invariant 0 <= j <= n && a[..] == A && OnlyWindow(b[..], B, ldb, m, n)
      invariant RowsReplaced(Entries(A, lda), Lower, diag, alpha, B, b[..], ldb, m, n, 0, j)
    {
      hide Replaced, ColumnReplaced;
      ghost var s := b[..];
      MultiplyColumn(diag, m, alpha, a, lda, b, ldb, j, j + 1, n);
      ColumnReplacedWindow(Entries(A, lda), diag, alpha, b[..], s, B, ldb, m, n, j, j + 1, n);
      forall r | 0 <= r < m
        ensures Replaced(Transpose(Tri(Entries(A, lda), Lower, diag)), alpha, Row(B, ldb, r), Row(b[..], ldb, r), n, 0, j + 1)
      {
        MultiplyColumnStep(Entries(A, lda), Lower, diag, alpha, B, s, b[..], ldb, m, n, 0, j, 0, j + 1, j, j + 1, n, r);
      }
      j := j + 1;
    }
  }

  // ----- all rows of B at once, A on the right, transposed -----

  ghost predicate ColumnSpread(A: Mat, diag: Diag, alpha: real, s': seq<real>, s: seq<real>, ldb: int, m: int, k: int,
                               lo: int, hi: int) {
    && |s'| == |s|
    && (forall r {:trigger At(s', ldb, r, k)} :: 0 <= r < m ==>
          At(s', ldb, r, k) == alpha * (DiagonalFactor(A, diag, k) * At(s, ldb, r, k)))
    && (forall r, c {:trigger At(s', ldb, r, c)} :: 0 <= r < m && lo <= c < hi ==>
          At(s', ldb, r, c) == At(s, ldb, r, c) + alpha * (A(c, k) * At(s, ldb, r, k)))
    && (forall r, c {:trigger At(s', ldb, r, c)} :: 0 <= r < ldb && !(r < m && (c == k || lo <= c < hi)) ==>
          At(s', ldb, r, c) == At(s, ldb, r, c))
  }

  /** Columns lo..hi of B gain their multiples of column k. */
  method AddMultiples(m: int, alpha: real, a: array<real>, lda: int, b: array<real>, ldb: int, k: int, lo: int, hi: int)
    requires a != b && 0 <= k && 0 <= lo <= hi && (hi <= k || k < lo)
    requires Holds(a, lda, hi, k + 1) && Holds(b, ldb, m, k + 1) && Holds(b, ldb, m, hi)
    modifies b
    ensures forall r, c {:trigger At(b[..], ldb, r, c)} :: 0 <= r < ldb ==>
      At(b[..], ldb, r, c) ==
      if r < m && lo <= c < hi
      then old(At(b[..], ldb, r, c)) + alpha * (At(a[..], lda, c, k) * old(At(b[..], ldb, r, k)))
      else old(At(b[..], ldb, r, c))
  {
    hide At;
    HoldsLess(a, lda, hi, k + 1);
    HoldsLess(b, ldb, m, hi);
    ghost var A, B := a[..], b[..];
    var j := lo;
    while j < hi
      invariant lo <= j <= hi && a[..] == A
      invariant forall r, c {:trigger At(b[..], ldb, r, c)} :: 0 <= r < ldb ==>
        At(b[..], ldb, r, c) ==
        if r < m && lo <= c < j then At(B, ldb, r, c) + alpha * (At(A, lda, c, k) * At(B, ldb, r, k))
        else At(B, ldb, r, c)
    {
      ghost var s := b[..];
      var v := Get(a, lda, j, k);
      if v != 0.0 {
        var temp := alpha * v;
        AddColumn(false, b, ldb, j, b, ldb, k, 0, m, temp);
      }
      forall r | 0 <= r < m ensures At(b[..], ldb, r, j) == At(B, ldb, r, j) + alpha * (v * At(B, ldb, r, k)) {
        Regroup(alpha, v, At(B, ldb, r, k));
        assert At(s, ldb, r, k) == At(B, ldb, r, k);
      }
      j := j + 1;
    }
  }

  method SpreadColumn(diag: Diag, m: int, alpha: real, a: array<real>, lda: int, b: array<real>, ldb: int, k: int,
                      lo: int, hi: int)
    requires a != b && 0 <= k && 0 <= lo <= hi && (hi <= k || k < lo)
    requires Holds(a, lda, k + 1, k + 1) && Holds(a, lda, hi, k + 1)
    requires Holds(b, ldb, m, k + 1) && Holds(b, ldb, m, hi)
    modifies b
    ensures ColumnSpread(Entries(a[..], lda), diag, alpha, b[..], old(b[..]), ldb, m, k, lo, hi)
  {
    hide At;
    ghost var A, B := a[..], b[..];
    AddMultiples(m, alpha, a, lda, b, ldb, k, lo, hi);
    ghost var s := b[..];
    hide DiagonalFactor;
    var temp := Factor(diag, alpha, a, lda, k);
    if temp != 1.0 {
      ScaleColumn(false, b, ldb, k, 0, m, temp);
    }
    SpreadColumnEffect(Entries(A, lda), diag, alpha, b[..], s, B, ldb, m, k, lo, hi);
  }

  lemma SpreadColumnEffect(A: Mat, diag: Diag, alpha: real, s': seq<real>, s: seq<real>, B: seq<real>,
                           ldb: int, m: int, k: int, lo: int, hi: int)
    requires |s'| == |s| == |B| && m <= ldb && (hi <= k || k < lo)
    requires forall r, c {:trigger At(s, ldb, r, c)} :: 0 <= r < ldb ==>
      At(s, ldb, r, c) ==
      if r < m && lo <= c < hi then At(B, ldb, r, c) + alpha * (A(c, k) * At(B, ldb, r, k)) else At(B, ldb, r, c)
    requires forall r, c {:trigger At(s', ldb, r, c)} :: 0 <= r < ldb ==>
      At(s', ldb, r, c) ==
      if c == k && r < m && alpha * DiagonalFactor(A, diag, k) != 1.0 then (alpha * DiagonalFactor(A, diag, k)) * At(s, ldb, r, c)
      else At(s, ldb, r, c)
    ensures ColumnSpread(A, diag, alpha, s', B, ldb, m, k, lo, hi)
  {
    hide At, DiagonalFactor;
    forall r | 0 <= r < m ensures At(s', ldb, r, k) == alpha * (DiagonalFactor(A, diag, k) * At(B, ldb, r, k)) {
      Associate(alpha, DiagonalFactor(A, diag, k), At(B, ldb, r, k));
    }
  }

  /** alpha times the pivot. */
  method Factor(diag: Diag, alpha: real, a: array<real>, lda: int, k: int) returns (temp: real)
    requires 0 <= k && Holds(a, lda, k + 1, k + 1)
    ensures temp == alpha * DiagonalFactor(Entries(a[..], lda), diag, k)
  {
    hide At;
    temp := alpha;
    if diag.NonUnit? {
      var d := Get(a, lda, k, k);
      temp := temp * d;
    }
  }

  lemma Associate(x: real, y: real, z: real)
    ensures x * y * z == x * (y * z)
  {
  }

  ghost predicate RowsAccumulated(A: Mat, uplo: Uplo, diag: Diag, alpha: real, B: seq<real>, s: seq<real>,
                                  ldb: int, m: int, n: int, lo: int, hi: int) {
    forall r {:trigger Row(s, ldb, r)} :: 0 <= r < m ==>
      Accumulated(Tri(A, uplo, diag), alpha, Row(B, ldb, r), Row(s, ldb, r), n, lo, hi)
  }

  lemma SpreadColumnStep(A: Mat, uplo: Uplo, diag: Diag, alpha: real, B: seq<real>, s: seq<real>, s': seq<real>,
                         ldb: int, m: int, n: int, lo: int, hi: int, lo': int, hi': int, k: int, r: int)
    requires m <= ldb && Grows(n, lo, hi, lo', hi', k) && 0 <= r < m
    requires if uplo.Upper? then lo == 0 && hi == k else lo == k + 1 && hi == n
    requires ColumnSpread(A, diag, alpha, s', s, ldb, m, k, lo, hi)
    requires Accumulated(Tri(A, uplo, diag), alpha, Row(B, ldb, r), Row(s, ldb, r), n, lo, hi)
    ensures Accumulated(Tri(A, uplo, diag), alpha, Row(B, ldb, r), Row(s', ldb, r), n, lo', hi')
  {
    hide Sum, At;
    assert Row(s, ldb, r)(k) == Row(B, ldb, r)(k);
    hide Accumulated;
    AccumulationStep(Tri(A, uplo, diag), alpha, Row(B, ldb, r), Row(s, ldb, r), Row(s', ldb, r), n,
                     lo, hi, lo', hi', k);
  }

  lemma ColumnSpreadWindow(A: Mat, diag: Diag, alpha: real, s': seq<real>, s: seq<real>, B: seq<real>, ldb: int,
                           m: int, n: int, k: int, lo: int, hi: int)
    requires ColumnSpread(A, diag, alpha, s', s, ldb, m, k, lo, hi) && OnlyWindow(s, B, ldb, m, n)
    requires 0 <= k < n && 0 <= lo && hi <= n
    ensures OnlyWindow(s', B, ldb, m, n)
  {
    hide At;
  }

  /** B := alpha * B * A', A upper. */
  method RightUpperTrans(diag: Diag, m: int, n: int, alpha: real, a: array<real>, lda: int, b: array<real>, ldb: int)
    requires a != b && Holds(a, lda, n, n) && Holds(b, ldb, m, n)
    modifies b
    ensures OnlyWindow(b[..], old(b[..]), ldb, m, n)
    ensures RowsAccumulated(Entries(a[..], lda), Upper, diag, alpha, old(b[..]), b[..], ldb, m, n, 0, n)
  {
    hide Sum, At;
    HoldsLess(a, lda, n, n);
    HoldsLess(b, ldb, m, n);
    ghost var B, A := b[..], a[..];
    var k := 0;
    while k < n
      invariant 0 <= k <= n && a[..] == A && OnlyWindow(b[..], B, ldb, m, n)
      invariant RowsAccumulated(Entries(A, lda), Upper, diag, alpha, B, b[..], ldb, m, n, 0, k)
    {
      hide Accumulated, ColumnSpread;
      ghost var s := b[..];
      SpreadColumn(diag, m, alpha, a, lda, b, ldb, k, 0, k);
      ColumnSpreadWindow(Entries(A, lda), diag, alpha, b[..], s, B, ldb, m, n, k, 0, k);
      forall r | 0 <= r < m
        ensures Accumulated(Tri(Entries(A, lda), Upper, diag), alpha, Row(B, ldb, r), Row(b[..], ldb, r), n, 0, k + 1)
      {
        SpreadColumnStep(Entries(A, lda), Upper, diag, alpha, B, s, b[..], ldb, m, n, 0, k, 0, k + 1, k, r);
      }
      k := k + 1;
    }
  }

  /** B := alpha * B * A', A lower. */
  method RightLowerTrans(diag: Diag, m: int, n: int, alpha: real, a: array<real>, lda: int, b: array<real>, ldb: int)
    requires a != b && Holds(a, lda, n, n) && Holds(b, ldb, m, n)
    modifies b
    ensures OnlyWindow(b[..], old(b[..]), ldb, m, n)
    ensures RowsAccumulated(Entries(a[..], lda), Lower, diag, alpha, old(b[..]), b[..], ldb, m, n, 0, n)
  {
    hide Sum, At;
    HoldsLess(a, lda, n, n);
    HoldsLess(b, ldb, m, n);
    ghost var B, A := b[..], a[..];
    var k := n - 1;
    while k >= 0
      invariant -1 <= k < n && a[..] == A && OnlyWindow(b[..], B, ldb, m, n)
      invariant RowsAccumulated(Entries(A, lda), Lower, diag, alpha, B, b[..], ldb, m, n, k + 1, n)
    {
      hide Accumulated, ColumnSpread;
      ghost var s := b[..];
      SpreadColumn(diag, m, alpha, a, lda, b, ldb, k, k + 1, n);
      ColumnSpreadWindow(Entries(A, lda), diag, alpha, b[..], s, B, ldb, m, n, k, k + 1, n);
      forall r | 0 <= r < m
        ensures Accumulated(Tri(Entries(A, lda), Lower, diag), alpha, Row(B, ldb, r), Row(b[..], ldb, r), n, k, n)
      {
        SpreadColumnStep(Entries(A, lda), Lower, diag, alpha, B, s, b[..], ldb, m, n, k + 1, n, k, n, k, r);
      }
      k := k - 1;
    }
  }

  // ----- the routine -----

  /** R is alpha times the product with op(A), on the m-by-n window. */
  ghost predicate Multiplied(side: Side, T: Mat, R: Mat, alpha: real, B: Mat, m: int, n: int) {
    forall i, j {:trigger R(i, j)} :: 0 <= i < m && 0 <= j < n ==>
      R(i, j) == alpha * (if side.Left? then Product(T, B, m)(i, j) else Product(B, T, n)(i, j))
  }

  ghost predicate ColumnsMultiplied(T: Mat, alpha: real, s: seq<real>, B: seq<real>, ldb: int, m: int, n: int) {
    forall j {:trigger Col(B, ldb, j)} :: 0 <= j < n ==> ColumnMultiplied(T, alpha, s, B, ldb, m, j)
  }

  lemma LeftMultiplied(T: Mat, alpha: real, s: seq<real>, B: seq<real>, ldb: int, m: int, n: int)
    requires ColumnsMultiplied(T, alpha, s, B, ldb, m, n)
    ensures Multiplied(Left, T, Entries(s, ldb), alpha, Entries(B, ldb), m, n)
  {
    hide Sum, At;
    forall i, j | 0 <= i < m && 0 <= j < n
      ensures Entries(s, ldb)(i, j) == alpha * Product(T, Entries(B, ldb), m)(i, j)
    {
      assert ColumnMultiplied(T, alpha, s, B, ldb, m, j) by { var c := Col(B, ldb, j); }
      SumEq(0, m, ProductTerms(T, Entries(B, ldb), i, j), RowTimes(T, i, Col(B, ldb, j)));
    }
  }

  lemma RightMultiplied(T: Mat, T': Mat, alpha: real, s: seq<real>, B: seq<real>, ldb: int, m: int, n: int)
    requires forall i, j :: 0 <= i < n && 0 <= j < n ==> T'(i, j) == T(j, i)
    requires forall r {:trigger Row(s, ldb, r)} :: 0 <= r < m ==>
      (Replaced(T', alpha, Row(B, ldb, r), Row(s, ldb, r), n, 0, n) ||
       Accumulated(T', alpha, Row(B, ldb, r), Row(s, ldb, r), n, 0, n))
    ensures Multiplied(Right, T, Entries(s, ldb), alpha, Entries(B, ldb), m, n)
  {
    hide Sum, At;
    forall i, j | 0 <= i < m && 0 <= j < n
      ensures Entries(s, ldb)(i, j) == alpha * Product(Entries(B, ldb), T, n)(i, j)
    {
      SumEq(0, n, ProductTerms(Entries(B, ldb), T, i, j), RowTimes(T', j, Row(B, ldb, i)));
      assert Row(s, ldb, i)(j) == alpha * Apply(T', n, Row(B, ldb, i))(j);
    }
  }

  lemma MultipliedColumnsKept(T: Mat, alpha: real, s': seq<real>, s: seq<real>, B: seq<real>, ldb: int, m: int, j: int)
    requires m <= ldb && OnlyWindow(s, B, ldb, m, j) && OnlyColumn(s', s, ldb, m, j) && 0 <= j
    requires ColumnsMultiplied(T, alpha, s, B, ldb, m, j)
    requires ColumnMultiplied(T, alpha, s', s, ldb, m, j)
    ensures OnlyWindow(s', B, ldb, m, j + 1)
    ensures ColumnsMultiplied(T, alpha, s', B, ldb, m, j + 1)
  {
    hide Sum, At;
    forall c | 0 <= c < j + 1 ensures ColumnMultiplied(T, alpha, s', B, ldb, m, c) {
      forall i | 0 <= i < m ensures At(s', ldb, i, c) == alpha * Apply(T, m, Col(B, ldb, c))(i) {
        if c < j {
          var x := Col(B, ldb, c);
          assert ColumnMultiplied(T, alpha, s, B, ldb, m, c);
          assert At(s', ldb, i, c) == At(s, ldb, i, c);
        } else {
          assert SameVec(m, Col(s, ldb, j), Col(B, ldb, j)) by {
            forall l | 0 <= l < m ensures Col(s, ldb, j)(l) == Col(B, ldb, j)(l) {
              assert At(s, ldb, l, j) == At(B, ldb, l, j);
            }
          }
          ApplyEq(T, m, Col(s, ldb, j), Col(B, ldb, j), i);
        }
      }
    }
  }

  method MultiplyLeft(uplo: Uplo, trans: Trans, diag: Diag, m: int, n: int, alpha: real,
                      a: array<real>, lda: int, b: array<real>, ldb: int)
    requires a != b && Holds(a, lda, m, m) && Holds(b, ldb, m, n)
    modifies b
    ensures OnlyWindow(b[..], old(b[..]), ldb, m, n)
    ensures Multiplied(Left, OpA(a[..], lda, uplo, trans, diag), Entries(b[..], ldb), alpha, Entries(old(b[..]), ldb), m, n)
  {
    hide Sum, At, ColumnMultiplied;
    HoldsLess(b, ldb, m, n);
    ghost var B, A := b[..], a[..];
    ghost var T := OpA(A, lda, uplo, trans, diag);
    var j := 0;
    while j < n
      invariant 0 <= j <= n && a[..] == A && OnlyWindow(b[..], B, ldb, m, j)
      invariant ColumnsMultiplied(T, alpha, b[..], B, ldb, m, j)
    {
      hide ColumnsMultiplied, OnlyWindow, OnlyColumn;
      ghost var s := b[..];
      match (uplo, trans) {
        case (Upper, NoTrans) => LeftUpper(diag, m, alpha, a, lda, b, ldb, j);
        case (Lower, NoTrans) => LeftLower(diag, m, alpha, a, lda, b, ldb, j);
        case (Upper, Transposed) => LeftUpperTrans(diag, m, alpha, a, lda, b, ldb, j);
        case (Lower, Transposed) => LeftLowerTrans(diag, m, alpha, a, lda, b, ldb, j);
      }
      MultipliedColumnsKept(T, alpha, b[..], s, B, ldb, m, j);
      j := j + 1;
    }
    LeftMultiplied(T, alpha, b[..], B, ldb, m, n);
  }

  method MultiplyRight(uplo: Uplo, trans: Trans, diag: Diag, m: int, n: int, alpha: real,
                       a: array<real>, lda: int, b: array<real>, ldb: int)
    requires a != b && Holds(a, lda, n, n) && Holds(b, ldb, m, n)
    modifies b
    ensures OnlyWindow(b[..], old(b[..]), ldb, m, n)
    ensures Multiplied(Right, OpA(a[..], lda, uplo, trans, diag), Entries(b[..], ldb), alpha, Entries(old(b[..]), ldb), m, n)
  {
    hide Sum, At, OnlyWindow, Replaced, Accumulated, Multiplied;
    ghost var B, A := b[..], Entries(a[..], lda);
    ghost var T := OpA(a[..], lda, uplo, trans, diag);
    match (uplo, trans) {
      case (Upper, NoTrans) => RightUpper(diag, m, n, alpha, a, lda, b, ldb);
      case (Lower, NoTrans) => RightLower(diag, m, n, alpha, a, lda, b, ldb);
      case (Upper, Transposed) => RightUpperTrans(diag, m, n, alpha, a, lda, b, ldb);
      case (Lower, Transposed) => RightLowerTrans(diag, m, n, alpha, a, lda, b, ldb);
    }
    RightMultiplied(T, if trans.NoTrans? then Transpose(Tri(A, uplo, diag)) else Tri(A, uplo, diag),
                    alpha, b[..], B, ldb, m, n);
  }

  method Strmm(side: Side, uplo: Uplo, trans: Trans, diag: Diag, m: int, n: int, alpha: real,
               a: array<real>, lda: int, b: array<real>, ldb: int) returns (info: int)
    requires a != b
    requires TrInfo(side, m, n, lda, ldb) == 0 ==>
      Holds(a, lda, Order(side, m, n), Order(side, m, n)) && Holds(b, ldb, m, n)
    modifies b
    ensures info == 0 || info == -1
    ensures info == 0 <==> 0 <= m && 0 <= n && 1 <= lda && (if side.Left? then m else n) <= lda && 1 <= ldb && m <= ldb
    ensures info != 0 ==> b[..] == old(b[..])
    ensures info == 0 ==> OnlyWindow(b[..], old(b[..]), ldb, m, n)
    ensures info == 0 ==>
      Multiplied(side, OpA(a[..], lda, uplo, trans, diag), Entries(b[..], ldb), alpha, Entries(old(b[..]), ldb), m, n)
  {
    if TrInfo(side, m, n, lda, ldb) != 0 {
      return -1;
    }
    info := 0;
    if m == 0 || n == 0 {
      return;
    }
    hide Sum, At, OnlyWindow;
    if alpha == 0.0 {
      ZeroWindow(m, n, b, ldb);
    } else if side.Left? {
      hide Multiplied;
      MultiplyLeft(uplo, trans, diag, m, n, alpha, a, lda, b, ldb);
    } else {
      hide Multiplied;
      MultiplyRight(uplo, trans, diag, m, n, alpha, a, lda, b, ldb);
    }
  }

  /** Multiplying by op(A) undoes solving with op(A), up to the factor alpha, and touches nothing else. */
  lemma MultiplyUndoesSolve(side: Side, T: Mat, B: seq<real>, X: seq<real>, R: seq<real>, ldb: int,
                            alpha: real, m: int, n: int)
    requires OnlyWindow(X, B, ldb, m, n) && OnlyWindow(R, X, ldb, m, n)
    requires Equation(side, T, Entries(X, ldb), alpha, Entries(B, ldb), m, n)
    requires Multiplied(side, T, Entries(R, ldb), 1.0, Entries(X, ldb), m, n)
    ensures |R| == |B|
    ensures forall r, c :: 0 <= r < ldb ==>
      At(R, ldb, r, c) == if r < m && 0 <= c < n then alpha * At(B, ldb, r, c) else At(B, ldb, r, c)
  {
    hide Sum, At;
    forall r, c | 0 <= r < ldb
      ensures At(R, ldb, r, c) == if r < m && 0 <= c < n then alpha * At(B, ldb, r, c) else At(B, ldb, r, c)
    {
      if r < m && 0 <= c < n {
        assert At(R, ldb, r, c) == Entries(R, ldb)(r, c);
        assert At(B, ldb, r, c) == Entries(B, ldb)(r, c);
      }
    }
  }

  /** STRSM with alpha, then STRMM with 1 and the same arguments. */
  method SolveThenMultiply(side: Side, uplo: Uplo, trans: Trans, diag: Diag, m: int, n: int, alpha: real,
                           a: array<real>, lda: int, b: array<real>, ldb: int)
    requires a != b && TrInfo(side, m, n, lda, ldb) == 0
    requires Holds(a, lda, Order(side, m, n), Order(side, m, n)) && Holds(b, ldb, m, n)
    requires alpha != 0.0 && diag.NonUnit? ==> NonZeroDiag(Entries(a[..], lda), Order(side, m, n))
    modifies b
    ensures forall r, c :: 0 <= r < ldb ==>
      At(b[..], ldb, r, c) ==
      if r < m && 0 <= c < n then alpha * old(At(b[..], ldb, r, c)) else old(At(b[..], ldb, r, c))
  {
    hide Sum, At, OnlyWindow, Equation, Multiplied;
    ghost var B := b[..];
    var info := Strsm(side, uplo, trans, diag, m, n, alpha, a, lda, b, ldb);
    ghost var X := b[..];
    var info' := Strmm(side, uplo, trans, diag, m, n, 1.0, a, lda, b, ldb);
    MultiplyUndoesSolve(side, OpA(a[..], lda, uplo, trans, diag), B, X, b[..], ldb, alpha, m, n);
  }
}
