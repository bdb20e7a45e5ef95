// STRSM: solve op(A) * X = alpha * B or X * op(A) = alpha * B, X overwriting B.

module TriangularSolve {
  import opened Sums
  import opened Storage
  import opened Kernels
  import opened Triangular

  datatype Side = Left | Right

  /** The argument check that STRSM and STRMM share; 0 means the arguments are accepted. */
  function TrInfo(side: Side, m: int, n: int, lda: int, ldb: int): int {
    var nrowa := if side.Left? then m else n;
    if m < 0 then 5
    else if n < 0 then 6
    else if lda < (if nrowa > 1 then nrowa else 1) then 9
    else if ldb < (if m > 1 then m else 1) then 11
    else 0
  }

  /** The number of rows and columns of A. */
  function Order(side: Side, m: int, n: int): int { if side.Left? then m else n }

  /** op(A), as far as the routine may look at A. */
  ghost function OpA(s: seq<real>, lda: int, uplo: Uplo, trans: Trans, diag: Diag): Mat {
    Op(Tri(Entries(s, lda), uplo, diag), trans)
  }

  /** Only the m-by-n window of the buffer may differ. */
  ghost predicate OnlyWindow(s': seq<real>, s: seq<real>, ld: int, m: int, n: int) {
    && |s'| == |s|
    && forall r, c {:trigger At(s', ld, r, c)} :: 0 <= r < ld && !(r < m && 0 <= c < n) ==>
         At(s', ld, r, c) == At(s, ld, r, c)
  }

  /** Every cell of the buffer that lies outside the m-by-n window keeps its value. */
  ghost predicate CellsKept(s': seq<real>, s: seq<real>, ld: int, m: int, n: int)
    requires 0 < ld
  {
    |s'| == |s| && forall p :: 0 <= p < |s| && !(p % ld < m && p / ld < n) ==> s'[p] == s[p]
  }

  /** In terms of the flat buffer: the window is the only part written to. */
  lemma OnlyWindowCells(s': seq<real>, s: seq<real>, ld: int, m: int, n: int)
    requires OnlyWindow(s', s, ld, m, n) && 0 < ld
    ensures CellsKept(s', s, ld, m, n)
  {
    forall p | 0 <= p < |s| && !(p % ld < m && p / ld < n) ensures s'[p] == s[p] {
      IndexSurjective(ld, p);
      assert At(s', ld, p % ld, p / ld) == At(s, ld, p % ld, p / ld);
    }
  }

  /** Only column j of the window may differ. */
  ghost predicate OnlyColumn(s': seq<real>, s: seq<real>, ld: int, m: int, j: int) {
    && |s'| == |s|
    && forall r, c {:trigger At(s', ld, r, c)} :: 0 <= r < ld && !(r < m && c == j) ==>
         At(s', ld, r, c) == At(s, ld, r, c)
  }

  lemma Quotient(v: real, d: real)
    requires d != 0.0
    ensures d * (v / d) == v
  {
  }

  // ----- one column of B, A on the left, no transpose -----

  /** What eliminating unknown k of column j does: it is divided by the pivot and moved out of rows r0..r1. */
  ghost predicate Pivoted(A: Mat, diag: Diag, s': seq<real>, s: seq<real>, ldb: int, j: int, k: int, r0: int, r1: int) {
    && |s'| == |s|
    && (if diag.UnitDiag? then 1.0 else A(k, k)) * At(s', ldb, k, j) == At(s, ldb, k, j)
    && forall r, c {:trigger At(s', ldb, r, c)} :: 0 <= r < ldb && !(r == k && c == j) ==>
         At(s', ldb, r, c) ==
         if c == j && r0 <= r < r1 then At(s, ldb, r, c) - At(s', ldb, k, j) * A(r, k) else At(s, ldb, r, c)
  }

  method Pivot(diag: Diag, a: array<real>, lda: int, b: array<real>, ldb: int, j: int, k: int, r0: int, r1: int)
    requires a != b && 0 <= j && 0 <= k && 0 <= r0 <= r1 && (r1 <= k || k < r0)
    requires Holds(a, lda, k + 1, k + 1) && Holds(a, lda, r1, k + 1)
    requires Holds(b, ldb, k + 1, j + 1) && Holds(b, ldb, r1, j + 1)
    requires diag.NonUnit? ==> At(a[..], lda, k, k) != 0.0
    modifies b
    ensures Pivoted(Entries(a[..], lda), diag, b[..], old(b[..]), ldb, j, k, r0, r1)
  {
    hide At;
    var v := Get(b, ldb, k, j);
    if v != 0.0 {
      if diag.NonUnit? {
        var d := Get(a, lda, k, k);
        Quotient(v, d);
        v := v / d;
        Put(b, ldb, k, j, v);
      }
      AddColumn(false, b, ldb, j, a, lda, k, r0, r1, -v);
    }
  }

  lemma PivotStep(A: Mat, uplo: Uplo, diag: Diag, s: seq<real>, s': seq<real>, ldb: int, j: int, m: int, c: Vec,
                  lo: int, hi: int, lo': int, hi': int, k: int, r0: int, r1: int)
    requires m <= ldb && Grows(m, lo, hi, lo', hi', k)
    requires if uplo.Upper? then hi == m && r0 == 0 && r1 == k else lo == 0 && r0 == k + 1 && r1 == m
    requires Pivoted(A, diag, s', s, ldb, j, k, r0, r1)
    requires Eliminated(Tri(A, uplo, diag), 1.0, c, Col(s, ldb, j), m, lo, hi)
    ensures Eliminated(Tri(A, uplo, diag), 1.0, c, Col(s', ldb, j), m, lo', hi')
  {
    hide Sum, At, Eliminated;
    EliminationStep(Tri(A, uplo, diag), 1.0, c, Col(s, ldb, j), Col(s', ldb, j), m, lo, hi, lo', hi', k);
  }

  /** B := alpha * inv(A) * B, A upper: one column. */
  method LeftUpper(diag: Diag, m: int, alpha: real, a: array<real>, lda: int, b: array<real>, ldb: int, j: int)
    requires a != b && 0 <= j && Holds(a, lda, m, m) && Holds(b, ldb, m, j + 1)
    requires diag.NonUnit? ==> NonZeroDiag(Entries(a[..], lda), m)
    modifies b
    ensures OnlyColumn(b[..], old(b[..]), ldb, m, j)
    ensures Solves(OpA(a[..], lda, Upper, NoTrans, diag), m, Col(b[..], ldb, j), Scaled(alpha, Col(old(b[..]), ldb, j)))
  {
    hide Sum, At, Eliminated, Solves;
    HoldsLess(a, lda, m, m);
    HoldsLess(b, ldb, m, j + 1);
    ghost var B, A := b[..], a[..];
    ghost var T := OpA(A, lda, Upper, NoTrans, diag);
    ghost var c := Scaled(alpha, Col(B, ldb, j));
    if alpha != 1.0 {
      ScaleColumn(false, b, ldb, j, 0, m, alpha);
    }
    var k := m - 1;
    EliminationStart(T, 1.0, c, Col(b[..], ldb, j), m, m);
    while k >= 0
      invariant -1 <= k < m && a[..] == A && OnlyColumn(b[..], B, ldb, m, j)
      invariant Eliminated(T, 1.0, c, Col(b[..], ldb, j), m, k + 1, m)
    {
      ghost var s := b[..];
      assert diag.NonUnit? ==> At(A, lda, k, k) == Entries(A, lda)(k, k);
      Pivot(diag, a, lda, b, ldb, j, k, 0, k);
      PivotStep(Entries(A, lda), Upper, diag, s, b[..], ldb, j, m, c, k + 1, m, k, m, k, 0, k);
      k := k - 1;
    }
    EliminationDone(T, 1.0, c, Col(b[..], ldb, j), m);
  }

  /** B := alpha * inv(A) * B, A lower: one column. */
  method LeftLower(diag: Diag, m: int, alpha: real, a: array<real>, lda: int, b: array<real>, ldb: int, j: int)
    requires a != b && 0 <= j && Holds(a, lda, m, m) && Holds(b, ldb, m, j + 1)
    requires diag.NonUnit? ==> NonZeroDiag(Entries(a[..], lda), m)
    modifies b
    ensures OnlyColumn(b[..], old(b[..]), ldb, m, j)
    ensures Solves(OpA(a[..], lda, Lower, NoTrans, diag), m, Col(b[..], ldb, j), Scaled(alpha, Col(old(b[..]), ldb, j)))
  {
    hide Sum, At, Eliminated, Solves;
    HoldsLess(a, lda, m, m);
    HoldsLess(b, ldb, m, j + 1);
    ghost var B, A := b[..], a[..];
    ghost var T := OpA(A, lda, Lower, NoTrans, diag);
    ghost var c := Scaled(alpha, Col(B, ldb, j));
    if alpha != 1.0 {
      ScaleColumn(false, b, ldb, j, 0, m, alpha);
    }
    var k := 0;
    EliminationStart(T, 1.0, c, Col(b[..], ldb, j), m, 0);
    while k < m
      invariant 0 <= k <= m && a[..] == A && OnlyColumn(b[..], B, ldb, m, j)
      invariant Eliminated(T, 1.0, c, Col(b[..], ldb, j), m, 0, k)
    {
      ghost var s := b[..];
      assert diag.NonUnit? ==> At(A, lda, k, k) == Entries(A, lda)(k, k);
      Pivot(diag, a, lda, b, ldb, j, k, k + 1, m);
      PivotStep(Entries(A, lda), Lower, diag, s, b[..], ldb, j, m, c, 0, k, 0, k + 1, k, k + 1, m);
      k := k + 1;
    }
    EliminationDone(T, 1.0, c, Col(b[..], ldb, j), m);
  }

  // ----- one column of B, A on the left, transposed -----

  /** What solving equation i of column j does: the known unknowns lo..hi are moved to the right. */
  ghost predicate RowSolved(A: Mat, diag: Diag, alpha: real, s': seq<real>, s: seq<real>, ldb: int, j: int,
                            i: int, lo: int, hi: int) {
    && |s'| == |s|
    && (if diag.UnitDiag? then 1.0 else A(i, i)) * At(s', ldb, i, j) ==
       alpha * At(s, ldb, i, j) - Sum(lo, hi, Times(ColOf(A, i), Col(s, ldb, j)))
    && forall r, c {:trigger At(s', ldb, r, c)} :: 0 <= r < ldb && !(r == i && c == j) ==>
         At(s', ldb, r, c) == At(s, ldb, r, c)
  }

  method SolveRow(diag: Diag, alpha: real, a: array<real>, lda: int, b: array<real>, ldb: int, j: int,
                  i: int, lo: int, hi: int)
    requires a != b && 0 <= j && 0 <= i && 0 <= lo <= hi
    requires Holds(a, lda, i + 1, i + 1) && Holds(a, lda, hi, i + 1)
    requires Holds(b, ldb, i + 1, j + 1) && Holds(b, ldb, hi, j + 1)
    requires diag.NonUnit? ==> At(a[..], lda, i, i) != 0.0
    modifies b
    ensures RowSolved(Entries(a[..], lda), diag, alpha, b[..], old(b[..]), ldb, j, i, lo, hi)
  {
    hide At, Sum;
    HoldsLess(a, lda, hi, i + 1);
    HoldsLess(b, ldb, hi, j + 1);
    ghost var A, B := a[..], b[..];
    ghost var f := Times(ColOf(Entries(A, lda), i), Col(B, ldb, j));
    var v := Get(b, ldb, i, j);
    var temp := alpha * v;
    SumEmpty(lo, f);
    var k := lo;
    while k < hi
      invariant lo <= k <= hi && a[..] == A && b[..] == B
      invariant temp == alpha * v - Sum(lo, k, f)
    {
      var x := Get(a, lda, k, i);
      var y := Get(b, ldb, k, j);
      SumLast(lo, k, f);
      temp := temp - x * y;
      k := k + 1;
    }
    if diag.NonUnit? {
      var d := Get(a, lda, i, i);
      Quotient(temp, d);
      temp := temp / d;
    }
    Put(b, ldb, i, j, temp);
  }

  lemma SolveRowStep(A: Mat, uplo: Uplo, diag: Diag, alpha: real, B: seq<real>, s: seq<real>, s': seq<real>,
                     ldb: int, j: int, m: int, lo: int, hi: int, lo': int, hi': int, i: int)
    requires m <= ldb && Grows(m, lo, hi, lo', hi', i)
    requires if uplo.Upper? then lo == 0 && hi == i else lo == i + 1 && hi == m
    requires RowSolved(A, diag, alpha, s', s, ldb, j, i, lo, hi)
    requires Substituted(Op(Tri(A, uplo, diag), Transposed), Scaled(alpha, Col(B, ldb, j)), Col(B, ldb, j),
                         Col(s, ldb, j), m, lo, hi)
    ensures Substituted(Op(Tri(A, uplo, diag), Transposed), Scaled(alpha, Col(B, ldb, j)), Col(B, ldb, j),
                        Col(s', ldb, j), m, lo', hi')
  {
    hide Sum, At;
    var T := Op(Tri(A, uplo, diag), Transposed);
    SumEq(lo, hi, RowTimes(T, i, Col(s, ldb, j)), Times(ColOf(A, i), Col(s, ldb, j)));
    assert Col(s, ldb, j)(i) == Col(B, ldb, j)(i);
    hide Substituted;
    SubstitutionStep(T, Scaled(alpha, Col(B, ldb, j)), Col(B, ldb, j), Col(s, ldb, j), Col(s', ldb, j), m,
                     lo, hi, lo', hi', i);
  }

  /** B := alpha * inv(A') * B, A upper: one column. */
  method LeftUpperTrans(diag: Diag, m: int, alpha: real, a: array<real>, lda: int, b: array<real>, ldb: int, j: int)
    requires a != b && 0 <= j && Holds(a, lda, m, m) && Holds(b, ldb, m, j + 1)
    requires diag.NonUnit? ==> NonZeroDiag(Entries(a[..], lda), m)
    modifies b
    ensures OnlyColumn(b[..], old(b[..]), ldb, m, j)
    ensures Solves(OpA(a[..], lda, Upper, Transposed, diag), m, Col(b[..], ldb, j), Scaled(alpha, Col(old(b[..]), ldb, j)))
  {
    hide Sum, At, Solves;
    HoldsLess(a, lda, m, m);
    HoldsLess(b, ldb, m, j + 1);
    ghost var B, A := b[..], a[..];
    ghost var T := OpA(A, lda, Upper, Transposed, diag);
    ghost var c := Scaled(alpha, Col(B, ldb, j));
    var i := 0;
    while i < m
      invariant 0 <= i <= m && a[..] == A && OnlyColumn(b[..], B, ldb, m, j)
      invariant Substituted(T, c, Col(B, ldb, j), Col(b[..], ldb, j), m, 0, i)
    {
      hide Substituted;
      ghost var s := b[..];
      assert diag.NonUnit? ==> At(A, lda, i, i) == Entries(A, lda)(i, i);
      SolveRow(diag, alpha, a, lda, b, ldb, j, i, 0, i);
      SolveRowStep(Entries(A, lda), Upper, diag, alpha, B, s, b[..], ldb, j, m, 0, i, 0, i + 1, i);
      i := i + 1;
    }
    SubstitutionDone(T, c, Col(B, ldb, j), Col(b[..], ldb, j), m);
  }

  /** B := alpha * inv(A') * B, A lower: one column. */
  method LeftLowerTrans(diag: Diag, m: int, alpha: real, a: array<real>, lda: int, b: array<real>, ldb: int, j: int)
    requires a != b && 0 <= j && Holds(a, lda, m, m) && Holds(b, ldb, m, j + 1)
    requires diag.NonUnit? ==> NonZeroDiag(Entries(a[..], lda), m)
    modifies b
    ensures OnlyColumn(b[..], old(b[..]), ldb, m, j)
    ensures Solves(OpA(a[..], lda, Lower, Transposed, diag), m, Col(b[..], ldb, j), Scaled(alpha, Col(old(b[..]), ldb, j)))
  {
    hide Sum, At, Solves;
    HoldsLess(a, lda, m, m);
    HoldsLess(b, ldb, m, j + 1);
    ghost var B, A := b[..], a[..];
    ghost var T := OpA(A, lda, Lower, Transposed, diag);
    ghost var c := Scaled(alpha, Col(B, ldb, j));
    var i := m - 1;
    while i >= 0
      invariant -1 <= i < m && a[..] == A && OnlyColumn(b[..], B, ldb, m, j)
      invariant Substituted(T, c, Col(B, ldb, j), Col(b[..], ldb, j), m, i + 1, m)
    {
      hide Substituted;
      ghost var s := b[..];
      assert diag.NonUnit? ==> At(A, lda, i, i) == Entries(A, lda)(i, i);
      SolveRow(diag, alpha, a, lda, b, ldb, j, i, i + 1, m);
      SolveRowStep(Entries(A, lda), Lower, diag, alpha, B, s, b[..], ldb, j, m, i + 1, m, i, m, i);
      i := i - 1;
    }
    SubstitutionDone(T, c, Col(B, ldb, j), Col(b[..], ldb, j), m);
  }

  // ----- all rows of B at once, A on the right, no transpose -----

  /** What solving column j does to every row: the known columns lo..hi are moved to the right. */
  ghost predicate ColumnSolved(A: Mat, diag: Diag, alpha: real, s': seq<real>, s: seq<real>, ldb: int, m: int, j: int,
                               lo: int, hi: int) {
    && OnlyColumn(s', s, ldb, m, j)
    && forall r {:trigger At(s', ldb, r, j)} :: 0 <= r < m ==>
         (if diag.UnitDiag? then 1.0 else A(j, j)) * At(s', ldb, r, j) ==
         alpha * At(s, ldb, r, j) - Sum(lo, hi, Times(ColOf(A, j), Row(s, ldb, r)))
  }

  lemma Reciprocal(d: real, y: real)
    requires d != 0.0
    ensures d * (1.0 / d * y) == y
  {
    assert d * (1.0 / d) == 1.0;
  }

  lemma NextTerm(A: Mat, B: seq<real>, s: seq<real>, s': seq<real>, ldb: int, j: int, lo: int, k: int, r: int, alpha: real)
    requires lo <= k
    requires At(s, ldb, r, j) == alpha * At(B, ldb, r, j) - Sum(lo, k, Times(ColOf(A, j), Row(B, ldb, r)))
    requires At(s, ldb, r, k) == At(B, ldb, r, k)
    requires if A(k, j) != 0.0 then At(s', ldb, r, j) == At(s, ldb, r, j) + -A(k, j) * At(s, ldb, r, k)
             else At(s', ldb, r, j) == At(s, ldb, r, j)
    ensures At(s', ldb, r, j) == alpha * At(B, ldb, r, j) - Sum(lo, k + 1, Times(ColOf(A, j), Row(B, ldb, r)))
  {
    hide Sum, At;
    SumLast(lo, k, Times(ColOf(A, j), Row(B, ldb, r)));
  }

  method SubtractColumns(m: int, alpha: real, a: array<real>, lda: int, b: array<real>, ldb: int, j: int,
                         lo: int, hi: int)
    requires a != b && 0 <= j && 0 <= lo <= hi && (hi <= j || j < lo)
    requires Holds(a, lda, hi, j + 1) && Holds(b, ldb, m, j + 1) && Holds(b, ldb, m, hi)
    modifies b
    ensures OnlyColumn(b[..], old(b[..]), ldb, m, j)
    ensures forall r {:trigger At(b[..], ldb, r, j)} :: 0 <= r < m ==>
      At(b[..], ldb, r, j) ==
      alpha * old(At(b[..], ldb, r, j)) -
      Sum(lo, hi, Times(ColOf(Entries(a[..], lda), j), Row(old(b[..]), ldb, r)))
  {
    hide Sum, At;
    HoldsLess(a, lda, hi, j + 1);
    HoldsLess(b, ldb, m, hi);
    ghost var A, B := a[..], b[..];
    ghost var M := Entries(A, lda);
    if alpha != 1.0 {
      ScaleColumn(false, b, ldb, j, 0, m, alpha);
    }
    forall r | 0 <= r < m ensures Sum(lo, lo, Times(ColOf(M, j), Row(B, ldb, r))) == 0.0 {
      SumEmpty(lo, Times(ColOf(M, j), Row(B, ldb, r)));
    }
    var k := lo;
    while k < hi
      invariant lo <= k <= hi && a[..] == A && OnlyColumn(b[..], B, ldb, m, j)
      invariant forall r {:trigger At(b[..], ldb, r, j)} :: 0 <= r < m ==>
        At(b[..], ldb, r, j) == alpha * At(B, ldb, r, j) - Sum(lo, k, Times(ColOf(M, j), Row(B, ldb, r)))
    {
      ghost var s := b[..];
      var v := Get(a, lda, k, j);
      assert v == M(k, j);
      if v != 0.0 {
        AddColumn(false, b, ldb, j, b, ldb, k, 0, m, -v);
      }
      forall r | 0 <= r < m
        ensures At(b[..], ldb, r, j) == alpha * At(B, ldb, r, j) - Sum(lo, k + 1, Times(ColOf(M, j), Row(B, ldb, r)))
      {
        NextTerm(M, B, s, b[..], ldb, j, lo, k, r, alpha);
      }
      k := k + 1;
    }
  }

  method SolveColumn(diag: Diag, m: int, alpha: real, a: array<real>, lda: int, b: array<real>, ldb: int, j: int,
                     lo: int, hi: int)
    requires a != b && 0 <= j && 0 <= lo <= hi && (hi <= j || j < lo)
    requires Holds(a, lda, j + 1, j + 1) && Holds(a, lda, hi, j + 1)
    requires Holds(b, ldb, m, j + 1) && Holds(b, ldb, m, hi)
    requires diag.NonUnit? ==> At(a[..], lda, j, j) != 0.0
    modifies b
    ensures ColumnSolved(Entries(a[..], lda), diag, alpha, b[..], old(b[..]), ldb, m, j, lo, hi)
  {
    hide Sum, At;
    ghost var A, B := a[..], b[..];
    SubtractColumns(m, alpha, a, lda, b, ldb, j, lo, hi);
    ghost var s := b[..];
    if diag.NonUnit? {
      var d := Get(a, lda, j, j);
      var temp := 1.0 / d;
      ScaleColumn(false, b, ldb, j, 0, m, temp);
      forall r | 0 <= r < m ensures d * At(b[..], ldb, r, j) == At(s, ldb, r, j) {
        Reciprocal(d, At(s, ldb, r, j));
      }
    }
  }

  /** T * x == alpha * b for row r, with T = op(A)': the state of the row-wise substitution. */
  ghost predicate RowsSubstituted(A: Mat, uplo: Uplo, diag: Diag, alpha: real, B: seq<real>, s: seq<real>,
                                  ldb: int, m: int, n: int, lo: int, hi: int) {
    forall r {:trigger Row(s, ldb, r)} :: 0 <= r < m ==>
      Substituted(Transpose(Tri(A, uplo, diag)), Scaled(alpha, Row(B, ldb, r)), Row(B, ldb, r), Row(s, ldb, r), n, lo, hi)
  }

  lemma SolveColumnStep(A: Mat, uplo: Uplo, diag: Diag, alpha: real, B: seq<real>, s: seq<real>, s': seq<real>,
                        ldb: int, m: int, n: int, lo: int, hi: int, lo': int, hi': int, j: int, r: int)
    requires m <= ldb && Grows(n, lo, hi, lo', hi', j) && 0 <= r < m
    requires if uplo.Upper? then lo == 0 && hi == j else lo == j + 1 && hi == n
    requires ColumnSolved(A, diag, alpha, s', s, ldb, m, j, lo, hi)
    requires Substituted(Transpose(Tri(A, uplo, diag)), Scaled(alpha, Row(B, ldb, r)), Row(B, ldb, r),
                         Row(s, ldb, r), n, lo, hi)
    ensures Substituted(Transpose(Tri(A, uplo, diag)), Scaled(alpha, Row(B, ldb, r)), Row(B, ldb, r),
                        Row(s', ldb, r), n, lo', hi')
  {
    hide Sum, At;
    var T := Transpose(Tri(A, uplo, diag));
    SumEq(lo, hi, RowTimes(T, j, Row(s, ldb, r)), Times(ColOf(A, j), Row(s, ldb, r)));
    assert Row(s, ldb, r)(j) == Row(B, ldb, r)(j);
    assert T(j, j) * Row(s', ldb, r)(j) == alpha * At(s, ldb, r, j) - Sum(lo, hi, Times(ColOf(A, j), Row(s, ldb, r)));
    hide Substituted;
    SubstitutionStep(T, Scaled(alpha, Row(B, ldb, r)), Row(B, ldb, r), Row(s, ldb, r), Row(s', ldb, r), n,
                     lo, hi, lo', hi', j);
  }

  /** B := alpha * B * inv(A), A upper. */
  method RightUpper(diag: Diag, m: int, n: int, alpha: real, a: array<real>, lda: int, b: array<real>, ldb: int)
    requires a != b && Holds(a, lda, n, n) && Holds(b, ldb, m, n)
    requires diag.NonUnit? ==> NonZeroDiag(Entries(a[..], lda), n)
    modifies b
    ensures OnlyWindow(b[..], old(b[..]), ldb, m, n)
    ensures RowsSubstituted(Entries(a[..], lda), Upper, diag, alpha, old(b[..]), b[..], ldb, m, n, 0, n)
  {
    hide Sum, At;
    HoldsLess(a, lda, n, n);
    HoldsLess(b, ldb, m, n);
    ghost var B, A := b[..], a[..];
    var j := 0;
    while j < n
      invariant 0 <= j <= n && a[..] == A && OnlyWindow(b[..], B, ldb, m, n)
      invariant RowsSubstituted(Entries(A, lda), Upper, diag, alpha, B, b[..], ldb, m, n, 0, j)
    {
      hide Substituted, ColumnSolved;
      ghost var s := b[..];
      assert diag.NonUnit? ==> At(A, lda, j, j) == Entries(A, lda)(j, j);
      SolveColumn(diag, m, alpha, a, lda, b, ldb, j, 0, j);
      ColumnSolvedWindow(Entries(A, lda), diag, alpha, b[..], s, B, ldb, m, n, j, 0, j);
      forall r | 0 <= r < m
        ensures Substituted(Transpose(Tri(Entries(A, lda), Upper, diag)), Scaled(alpha, Row(B, ldb, r)), Row(B, ldb, r),
                            Row(b[..], ldb, r), n, 0, j + 1)
      {
        SolveColumnStep(Entries(A, lda), Upper, diag, alpha, B, s, b[..], ldb, m, n, 0, j, 0, j + 1, j, r);
      }
      j := j + 1;
    }
  }

  lemma ColumnSolvedWindow(A: Mat, diag: Diag, alpha: real, s': seq<real>, s: seq<real>, B: seq<real>, ldb: int,
                           m: int, n: int, j: int, lo: int, hi: int)
    requires ColumnSolved(A, diag, alpha, s', s, ldb, m, j, lo, hi) && OnlyWindow(s, B, ldb, m, n) && 0 <= j < n
    ensures OnlyWindow(s', B, ldb, m, n)
  {
    hide Sum, At;
  }

  /** B := alpha * B * inv(A), A lower. */
  method RightLower(diag: Diag, m: int, n: int, alpha: real, a: array<real>, lda: int, b: array<real>, ldb: int)
    requires a != b && Holds(a, lda, n, n) && Holds(b, ldb, m, n)
    requires diag.NonUnit? ==> NonZeroDiag(Entries(a[..], lda), n)
    modifies b
    ensures OnlyWindow(b[..], old(b[..]), ldb, m, n)
    ensures RowsSubstituted(Entries(a[..], lda), Lower, diag, alpha, old(b[..]), b[..], ldb, m, n, 0, n)
  {
    hide Sum, At;
    HoldsLess(a, lda, n, n);
    HoldsLess(b, ldb, m, n);
    ghost var B, A := b[..], a[..];
    var j := n - 1;
    while j >= 0
      invariant -1 <= j < n && a[..] == A && OnlyWindow(b[..], B, ldb, m, n)
      invariant RowsSubstituted(Entries(A, lda), Lower, diag, alpha, B, b[..], ldb, m, n, j + 1, n)
    {
      hide Substituted, ColumnSolved;
      ghost var s := b[..];
      assert diag.NonUnit? ==> At(A, lda, j, j) == Entries(A, lda)(j, j);
      SolveColumn(diag, m, alpha, a, lda, b, ldb, j, j + 1, n);
      ColumnSolvedWindow(Entries(A, lda), diag, alpha, b[..], s, B, ldb, m, n, j, j + 1, n);
      forall r | 0 <= r < m
        ensures Substituted(Transpose(Tri(Entries(A, lda), Lower, diag)), Scaled(alpha, Row(B, ldb, r)), Row(B, ldb, r),
                            Row(b[..], ldb, r), n, j, n)
      {
        SolveColumnStep(Entries(A, lda), Lower, diag, alpha, B, s, b[..], ldb, m, n, j + 1, n, j, n, j, r);
      }
      j := j - 1;
    }
  }

  // ----- all rows of B at once, A on the right, transposed -----

  /** What eliminating column k does to every row: it is divided by the pivot and moved out of columns lo..hi. */
  ghost predicate ColumnPivoted(A: Mat, diag: Diag, alpha: real, s': seq<real>, s: seq<real>, ldb: int, m: int, k: int,
                                lo: int, hi: int) {
    && |s'| == |s|
    && (forall r {:trigger At(s', ldb, r, k)} :: 0 <= r < m ==>
          (if diag.UnitDiag? then 1.0 else A(k, k)) * At(s', ldb, r, k) == alpha * At(s, ldb, r, k))
    && (forall r, c {:trigger At(s', ldb, r, c)} :: 0 <= r < m && lo <= c < hi ==>
          alpha * At(s', ldb, r, c) == alpha * At(s, ldb, r, c) - A(c, k) * At(s', ldb, r, k))
    && (forall r, c {:trigger At(s', ldb, r, c)} :: 0 <= r < ldb && !(r < m && (c == k || lo <= c < hi)) ==>
          At(s', ldb, r, c) == At(s, ldb, r, c))
  }

  /** Columns lo..hi of B lose their multiples of column k. */
  method SubtractPivot(m: int, a: array<real>, lda: int, b: array<real>, ldb: int, k: int, lo: int, hi: int)
    requires a != b && 0 <= k && 0 <= lo <= hi && (hi <= k || k < lo)
    requires Holds(a, lda, hi, k + 1) && Holds(b, ldb, m, k + 1) && Holds(b, ldb, m, hi)
    modifies b
    ensures forall r, c {:trigger At(b[..], ldb, r, c)} :: 0 <= r < ldb ==>
      At(b[..], ldb, r, c) ==
      if r < m && lo <= c < hi then old(At(b[..], ldb, r, c)) - At(a[..], lda, c, k) * old(At(b[..], ldb, r, k))
      else old(At(b[..], ldb, r, c))
  {
    hide At;
    HoldsLess(a, lda, hi, k + 1);
    HoldsLess(b, ldb, m, hi);
    ghost var A, B := a[..], b[..];
    var j := lo;
    while j < hi
      invariant lo <= j <= hi && a[..] == A
      invariant forall r, c {:trigger At(b[..], ldb, r, c)} :: 0 <= r < ldb ==>
        At(b[..], ldb, r, c) ==
        if r < m && lo <= c < j then At(B, ldb, r, c) - At(A, lda, c, k) * At(B, ldb, r, k) else At(B, ldb, r, c)
    {
      var temp := Get(a, lda, j, k);
      if temp != 0.0 {
        AddColumn(false, b, ldb, j, b, ldb, k, 0, m, -temp);
      }
      j := j + 1;
    }
  }

  method PivotColumn(diag: Diag, m: int, alpha: real, a: array<real>, lda: int, b: array<real>, ldb: int, k: int,
                     lo: int, hi: int)
    requires a != b && 0 <= k && 0 <= lo <= hi && (hi <= k || k < lo)
    requires Holds(a, lda, k + 1, k + 1) && Holds(a, lda, hi, k + 1)
    requires Holds(b, ldb, m, k + 1) && Holds(b, ldb, m, hi)
    requires diag.NonUnit? ==> At(a[..], lda, k, k) != 0.0
    modifies b
    ensures ColumnPivoted(Entries(a[..], lda), diag, alpha, b[..], old(b[..]), ldb, m, k, lo, hi)
  {
    hide At;
    ghost var A, B := a[..], b[..];
    if diag.NonUnit? {
      var d := Get(a, lda, k, k);
      var temp := 1.0 / d;
      ScaleColumn(false, b, ldb, k, 0, m, temp);
      forall r | 0 <= r < m ensures d * At(b[..], ldb, r, k) == At(B, ldb, r, k) {
        Reciprocal(d, At(B, ldb, r, k));
      }
    }
    ghost var z := b[..];
    assert forall r {:trigger At(z, ldb, r, k)} :: 0 <= r < m ==>
      (if diag.UnitDiag? then 1.0 else At(A, lda, k, k)) * At(z, ldb, r, k) == At(B, ldb, r, k);
    SubtractPivot(m, a, lda, b, ldb, k, lo, hi);
    ghost var s := b[..];
    if alpha != 1.0 {
      ScaleColumn(false, b, ldb, k, 0, m, alpha);
    }
    PivotColumnEffect(Entries(A, lda), diag, alpha, b[..], s, z, B, ldb, m, k, lo, hi);
  }

  lemma PivotColumnEffect(A: Mat, diag: Diag, alpha: real, s': seq<real>, s: seq<real>, z: seq<real>, B: seq<real>,
                          ldb: int, m: int, k: int, lo: int, hi: int)
    requires |s'| == |s| == |z| == |B| && m <= ldb && (hi <= k || k < lo)
    requires forall r {:trigger At(z, ldb, r, k)} :: 0 <= r < m ==>
      (if diag.UnitDiag? then 1.0 else A(k, k)) * At(z, ldb, r, k) == At(B, ldb, r, k)
    requires forall r, c {:trigger At(z, ldb, r, c)} :: 0 <= r < ldb && !(r < m && c == k) ==>
      At(z, ldb, r, c) == At(B, ldb, r, c)
    requires forall r, c {:trigger At(s, ldb, r, c)} :: 0 <= r < ldb ==>
      At(s, ldb, r, c) ==
      if r < m && lo <= c < hi then At(z, ldb, r, c) - A(c, k) * At(z, ldb, r, k) else At(z, ldb, r, c)
    requires forall r, c {:trigger At(s', ldb, r, c)} :: 0 <= r < ldb ==>
      At(s', ldb, r, c) == if c == k && r < m then alpha * At(s, ldb, r, c) else At(s, ldb, r, c)
    ensures ColumnPivoted(A, diag, alpha, s', B, ldb, m, k, lo, hi)
  {
    hide At;
    forall r | 0 <= r < m
      ensures (if diag.UnitDiag? then 1.0 else A(k, k)) * At(s', ldb, r, k) == alpha * At(B, ldb, r, k)
    {
      Reorder(if diag.UnitDiag? then 1.0 else A(k, k), alpha, At(z, ldb, r, k));
    }
    forall r, c | 0 <= r < m && lo <= c < hi
      ensures alpha * At(s', ldb, r, c) == alpha * At(B, ldb, r, c) - A(c, k) * At(s', ldb, r, k)
    {
      Reorder(A(c, k), alpha, At(z, ldb, r, k));
      Distribute(alpha, At(z, ldb, r, c), -A(c, k) * At(z, ldb, r, k));
    }
  }

  lemma Reorder(d: real, alpha: real, z: real)
    ensures d * (alpha * z) == alpha * (d * z)
  {
  }

  ghost predicate RowsEliminated(A: Mat, uplo: Uplo, diag: Diag, alpha: real, B: seq<real>, s: seq<real>,
                                 ldb: int, m: int, n: int, lo: int, hi: int) {
    forall r {:trigger Row(s, ldb, r)} :: 0 <= r < m ==>
      Eliminated(Tri(A, uplo, diag), alpha, Scaled(alpha, Row(B, ldb, r)), Row(s, ldb, r), n, lo, hi)
  }

  lemma PivotColumnStep(A: Mat, uplo: Uplo, diag: Diag, alpha: real, B: seq<real>, s: seq<real>, s': seq<real>,
                        ldb: int, m: int, n: int, lo: int, hi: int, lo': int, hi': int, k: int, r: int)
    requires m <= ldb && Grows(n, lo, hi, lo', hi', k) && 0 <= r < m
    requires if uplo.Upper? then hi == n && lo' == k else lo == 0 && hi == k
    requires ColumnPivoted(A, diag, alpha, s', s, ldb, m, k, if uplo.Upper? then 0 else k + 1, if uplo.Upper? then k else n)
    requires Eliminated(Tri(A, uplo, diag), alpha, Scaled(alpha, Row(B, ldb, r)), Row(s, ldb, r), n, lo, hi)
    ensures Eliminated(Tri(A, uplo, diag), alpha, Scaled(alpha, Row(B, ldb, r)), Row(s', ldb, r), n, lo', hi')
  {
    hide Sum, At, Eliminated;
    EliminationStep(Tri(A, uplo, diag), alpha, Scaled(alpha, Row(B, ldb, r)), Row(s, ldb, r), Row(s', ldb, r), n,
                    lo, hi, lo', hi', k);
  }

  lemma ColumnPivotedWindow(A: Mat, diag: Diag, alpha: real, s': seq<real>, s: seq<real>, B: seq<real>, ldb: int,
                            m: int, n: int, k: int, lo: int, hi: int)
    requires ColumnPivoted(A, diag, alpha, s', s, ldb, m, k, lo, hi) && OnlyWindow(s, B, ldb, m, n)
    requires 0 <= k < n && 0 <= lo && hi <= n
    ensures OnlyWindow(s', B, ldb, m, n)
  {
    hide At;
  }

  /** B := alpha * B * inv(A'), A upper. */
  method RightUpperTrans(diag: Diag, m: int, n: int, alpha: real, a: array<real>, lda: int, b: array<real>, ldb: int)
    requires a != b && Holds(a, lda, n, n) && Holds(b, ldb, m, n)
    requires diag.NonUnit? ==> NonZeroDiag(Entries(a[..], lda), n)
    modifies b
    ensures OnlyWindow(b[..], old(b[..]), ldb, m, n)
    ensures RowsEliminated(Entries(a[..], lda), Upper, diag, alpha, old(b[..]), b[..], ldb, m, n, 0, n)
  {
    hide Sum, At;
    HoldsLess(a, lda, n, n);
    HoldsLess(b, ldb, m, n);
    ghost var B, A := b[..], a[..];
    EliminationStarts(Entries(A, lda), Upper, diag, alpha, B, ldb, m, n, n);
    var k := n - 1;
    while k >= 0
      invariant -1 <= k < n && a[..] == A && OnlyWindow(b[..], B, ldb, m, n)
      invariant RowsEliminated(Entries(A, lda), Upper, diag, alpha, B, b[..], ldb, m, n, k + 1, n)
    {
      hide Eliminated, ColumnPivoted;
      ghost var s := b[..];
      assert diag.NonUnit? ==> At(A, lda, k, k) == Entries(A, lda)(k, k);
      PivotColumn(diag, m, alpha, a, lda, b, ldb, k, 0, k);
      ColumnPivotedWindow(Entries(A, lda), diag, alpha, b[..], s, B, ldb, m, n, k, 0, k);
      forall r | 0 <= r < m
        ensures Eliminated(Tri(Entries(A, lda), Upper, diag), alpha, Scaled(alpha, Row(B, ldb, r)),
                           Row(b[..], ldb, r), n, k, n)
      {
        PivotColumnStep(Entries(A, lda), Upper, diag, alpha, B, s, b[..], ldb, m, n, k + 1, n, k, n, k, r);
      }
      k := k - 1;
    }
  }

  lemma EliminationStarts(A: Mat, uplo: Uplo, diag: Diag, alpha: real, B: seq<real>, ldb: int, m: int, n: int, k: int)
    ensures RowsEliminated(A, uplo, diag, alpha, B, B, ldb, m, n, k, k)
  {
    hide At;
  }

  /** B := alpha * B * inv(A'), A lower. */
  method RightLowerTrans(diag: Diag, m: int, n: int, alpha: real, a: array<real>, lda: int, b: array<real>, ldb: int)
    requires a != b && Holds(a, lda, n, n) && Holds(b, ldb, m, n)
    requires diag.NonUnit? ==> NonZeroDiag(Entries(a[..], lda), n)
    modifies b
    ensures OnlyWindow(b[..], old(b[..]), ldb, m, n)
    ensures RowsEliminated(Entries(a[..], lda), Lower, diag, alpha, old(b[..]), b[..], ldb, m, n, 0, n)
  {
    hide Sum, At;
    HoldsLess(a, lda, n, n);
    HoldsLess(b, ldb, m, n);
    ghost var B, A := b[..], a[..];
    EliminationStarts(Entries(A, lda), Lower, diag, alpha, B, ldb, m, n, 0);
    var k := 0;
    while k < n
      invariant 0 <= k <= n && a[..] == A && OnlyWindow(b[..], B, ldb, m, n)
      invariant RowsEliminated(Entries(A, lda), Lower, diag, alpha, B, b[..], ldb, m, n, 0, k)
    {
      hide Eliminated, ColumnPivoted;
      ghost var s := b[..];
      assert diag.NonUnit? ==> At(A, lda, k, k) == Entries(A, lda)(k, k);
      PivotColumn(diag, m, alpha, a, lda, b, ldb, k, k + 1, n);
      ColumnPivotedWindow(Entries(A, lda), diag, alpha, b[..], s, B, ldb, m, n, k, k + 1, n);
      forall r | 0 <= r < m
        ensures Eliminated(Tri(Entries(A, lda), Lower, diag), alpha, Scaled(alpha, Row(B, ldb, r)),
                           Row(b[..], ldb, r), n, 0, k + 1)
      {
        PivotColumnStep(Entries(A, lda), Lower, diag, alpha, B, s, b[..], ldb, m, n, 0, k, 0, k + 1, k, r);
      }
      k := k + 1;
    }
  }

  // ----- the routine -----

  /** The equation the routine solves, on the m-by-n window. */
  ghost predicate Equation(side: Side, T: Mat, X: Mat, alpha: real, B: Mat, m: int, n: int) {
    forall i, j {:trigger B(i, j)} :: 0 <= i < m && 0 <= j < n ==>
      (if side.Left? then Product(T, X, m)(i, j) else Product(X, T, n)(i, j)) == alpha * B(i, j)
  }

  ghost predicate ColumnsSolved(T: Mat, alpha: real, s: seq<real>, B: seq<real>, ldb: int, m: int, n: int) {
    forall j {:trigger Col(s, ldb, j)} :: 0 <= j < n ==>
      Solves(T, m, Col(s, ldb, j), Scaled(alpha, Col(B, ldb, j)))
  }

  ghost predicate RowsSolved(T: Mat, alpha: real, s: seq<real>, B: seq<real>, ldb: int, m: int, n: int) {
    forall r {:trigger Row(s, ldb, r)} :: 0 <= r < m ==>
      Solves(T, n, Row(s, ldb, r), Scaled(alpha, Row(B, ldb, r)))
  }

  lemma LeftEquation(T: Mat, alpha: real, s: seq<real>, B: seq<real>, ldb: int, m: int, n: int)
    requires ColumnsSolved(T, alpha, s, B, ldb, m, n)
    ensures Equation(Left, T, Entries(s, ldb), alpha, Entries(B, ldb), m, n)
  {
    hide Sum, At;
    forall i, j | 0 <= i < m && 0 <= j < n
      ensures Product(T, Entries(s, ldb), m)(i, j) == alpha * Entries(B, ldb)(i, j)
    {
      SumEq(0, m, ProductTerms(T, Entries(s, ldb), i, j), RowTimes(T, i, Col(s, ldb, j)));
      assert Apply(T, m, Col(s, ldb, j))(i) == Scaled(alpha, Col(B, ldb, j))(i);
    }
  }

  lemma RightEquation(T: Mat, T': Mat, alpha: real, s: seq<real>, B: seq<real>, ldb: int, m: int, n: int)
    requires RowsSolved(T', alpha, s, B, ldb, m, n)
    requires forall i, j :: 0 <= i < n && 0 <= j < n ==> T'(i, j) == T(j, i)
    ensures Equation(Right, T, Entries(s, ldb), alpha, Entries(B, ldb), m, n)
  {
    hide Sum, At;
    forall i, j | 0 <= i < m && 0 <= j < n
      ensures Product(Entries(s, ldb), T, n)(i, j) == alpha * Entries(B, ldb)(i, j)
    {
      SumEq(0, n, ProductTerms(Entries(s, ldb), T, i, j), RowTimes(T', j, Row(s, ldb, i)));
      assert Apply(T', n, Row(s, ldb, i))(j) == Scaled(alpha, Row(B, ldb, i))(j);
    }
  }

  lemma ColumnsKept(T: Mat, alpha: real, s': seq<real>, s: seq<real>, B: seq<real>, ldb: int, m: int, j: int)
    requires m <= ldb && OnlyWindow(s, B, ldb, m, j) && OnlyColumn(s', s, ldb, m, j) && 0 <= j
    requires ColumnsSolved(T, alpha, s, B, ldb, m, j)
    requires Solves(T, m, Col(s', ldb, j), Scaled(alpha, Col(s, ldb, j)))
    ensures OnlyWindow(s', B, ldb, m, j + 1)
    ensures ColumnsSolved(T, alpha, s', B, ldb, m, j + 1)
  {
    hide Sum, At;
    forall c | 0 <= c < j + 1 ensures Solves(T, m, Col(s', ldb, c), Scaled(alpha, Col(B, ldb, c))) {
      if c < j {
        hide Solves;
        assert SameVec(m, Col(s, ldb, c), Col(s', ldb, c));
        SolvesEq(T, m, Col(s, ldb, c), Col(s', ldb, c), Scaled(alpha, Col(B, ldb, c)));
      } else {
        forall i | 0 <= i < m ensures Scaled(alpha, Col(s, ldb, j))(i) == Scaled(alpha, Col(B, ldb, j))(i) {
          assert At(s, ldb, i, j) == At(B, ldb, i, j);
        }
      }
    }
  }

  method SolveLeft(uplo: Uplo, trans: Trans, diag: Diag, m: int, n: int, alpha: real,
                   a: array<real>, lda: int, b: array<real>, ldb: int)
    requires a != b && Holds(a, lda, m, m) && Holds(b, ldb, m, n)
    requires diag.NonUnit? ==> NonZeroDiag(Entries(a[..], lda), m)
    modifies b
    ensures OnlyWindow(b[..], old(b[..]), ldb, m, n)
    ensures Equation(Left, OpA(a[..], lda, uplo, trans, diag), Entries(b[..], ldb), alpha, Entries(old(b[..]), ldb), m, n)
  {
    hide Sum, At, Solves, NonZeroDiag;
    HoldsLess(b, ldb, m, n);
    ghost var B, A := b[..], a[..];
    ghost var T := OpA(A, lda, uplo, trans, diag);
    var j := 0;
    while j < n
      invariant 0 <= j <= n && a[..] == A && OnlyWindow(b[..], B, ldb, m, j)
      invariant ColumnsSolved(T, alpha, b[..], B, ldb, m, j)
    {
      hide ColumnsSolved, OnlyWindow, OnlyColumn;
      ghost var s := b[..];
      match (uplo, trans) {
        case (Upper, NoTrans) => LeftUpper(diag, m, alpha, a, lda, b, ldb, j);
        case (Lower, NoTrans) => LeftLower(diag, m, alpha, a, lda, b, ldb, j);
        case (Upper, Transposed) => LeftUpperTrans(diag, m, alpha, a, lda, b, ldb, j);
        case (Lower, Transposed) => LeftLowerTrans(diag, m, alpha, a, lda, b, ldb, j);
      }
      ColumnsKept(T, alpha, b[..], s, B, ldb, m, j);
      j := j + 1;
    }
    LeftEquation(T, alpha, b[..], B, ldb, m, n);
  }

  lemma RowsSubstitutedDone(A: Mat, uplo: Uplo, diag: Diag, alpha: real, B: seq<real>, s: seq<real>, ldb: int, m: int, n: int)
    requires RowsSubstituted(A, uplo, diag, alpha, B, s, ldb, m, n, 0, n)
    ensures RowsSolved(Transpose(Tri(A, uplo, diag)), alpha, s, B, ldb, m, n)
  {
    hide Sum, At, Substituted, Solves;
    forall r | 0 <= r < m
      ensures Solves(Transpose(Tri(A, uplo, diag)), n, Row(s, ldb, r), Scaled(alpha, Row(B, ldb, r)))
    {
      SubstitutionDone(Transpose(Tri(A, uplo, diag)), Scaled(alpha, Row(B, ldb, r)), Row(B, ldb, r), Row(s, ldb, r), n);
    }
  }

  lemma RowsEliminatedDone(A: Mat, uplo: Uplo, diag: Diag, alpha: real, B: seq<real>, s: seq<real>, ldb: int, m: int, n: int)
    requires RowsEliminated(A, uplo, diag, alpha, B, s, ldb, m, n, 0, n)
    ensures RowsSolved(Tri(A, uplo, diag), alpha, s, B, ldb, m, n)
  {
    hide Sum, At, Eliminated, Solves;
    forall r | 0 <= r < m ensures Solves(Tri(A, uplo, diag), n, Row(s, ldb, r), Scaled(alpha, Row(B, ldb, r))) {
      EliminationDone(Tri(A, uplo, diag), alpha, Scaled(alpha, Row(B, ldb, r)), Row(s, ldb, r), n);
    }
  }

  method SolveRight(uplo: Uplo, trans: Trans, diag: Diag, m: int, n: int, alpha: real,
                    a: array<real>, lda: int, b: array<real>, ldb: int)
    requires a != b && Holds(a, lda, n, n) && Holds(b, ldb, m, n)
    requires diag.NonUnit? ==> NonZeroDiag(Entries(a[..], lda), n)
    modifies b
    ensures OnlyWindow(b[..], old(b[..]), ldb, m, n)
    ensures Equation(Right, OpA(a[..], lda, uplo, trans, diag), Entries(b[..], ldb), alpha, Entries(old(b[..]), ldb), m, n)
  {
    hide Sum, At, OnlyWindow, NonZeroDiag, RowsSubstituted, RowsEliminated, RowsSolved, Equation;
    ghost var B, A := b[..], Entries(a[..], lda);
    ghost var T := OpA(a[..], lda, uplo, trans, diag);
    match (uplo, trans) {
      case (Upper, NoTrans) => RightUpper(diag, m, n, alpha, a, lda, b, ldb);
      case (Lower, NoTrans) => RightLower(diag, m, n, alpha, a, lda, b, ldb);
      case (Upper, Transposed) => RightUpperTrans(diag, m, n, alpha, a, lda, b, ldb);
      case (Lower, Transposed) => RightLowerTrans(diag, m, n, alpha, a, lda, b, ldb);
    }
    if trans.NoTrans? {
      RowsSubstitutedDone(A, uplo, diag, alpha, B, b[..], ldb, m, n);
      RightEquation(T, Transpose(Tri(A, uplo, diag)), alpha, b[..], B, ldb, m, n);
    } else {
      RowsEliminatedDone(A, uplo, diag, alpha, B, b[..], ldb, m, n);
      RightEquation(T, Tri(A, uplo, diag), alpha, b[..], B, ldb, m, n);
    }
  }

  method ZeroWindow(m: int, n: int, b: array<real>, ldb: int)
    requires Holds(b, ldb, m, n)
    modifies b
    ensures OnlyWindow(b[..], old(b[..]), ldb, m, n)
    ensures forall r, c {:trigger At(b[..], ldb, r, c)} :: 0 <= r < m && 0 <= c < n ==> At(b[..], ldb, r, c) == 0.0
  {
    hide At;
    HoldsLess(b, ldb, m, n);
    ghost var B := b[..];
    var j := 0;
    while j < n
      invariant 0 <= j <= n && OnlyWindow(b[..], B, ldb, m, j)
      invariant forall r, c {:trigger At(b[..], ldb, r, c)} :: 0 <= r < m && 0 <= c < j ==> At(b[..], ldb, r, c) == 0.0
    {
      ZeroColumn(false, b, ldb, j, 0, m);
      j := j + 1;
    }
  }

  /** The zero matrix solves the equation with right-hand side 0 * B, whatever op(A) is. */
  lemma ZeroEquation(side: Side, T: Mat, X: Mat, B: Mat, m: int, n: int)
    requires forall i, j :: 0 <= i < m && 0 <= j < n ==> X(i, j) == 0.0
    ensures Equation(side, T, X, 0.0, B, m, n)
  {
    hide Sum;
    forall i, j | 0 <= i < m && 0 <= j < n
      ensures (if side.Left? then Product(T, X, m)(i, j) else Product(X, T, n)(i, j)) == 0.0
    {
      if side.Left? {
        SumZero(0, m, ProductTerms(T, X, i, j));
      } else {
        SumZero(0, n, ProductTerms(X, T, i, j));
      }
    }
  }

  method Strsm(side: Side, uplo: Uplo, trans: Trans, diag: Diag, m: int, n: int, alpha: real,
               a: array<real>, lda: int, b: array<real>, ldb: int) returns (info: int)
    requires a != b
    requires TrInfo(side, m, n, lda, ldb) == 0 ==>
      Holds(a, lda, Order(side, m, n), Order(side, m, n)) && Holds(b, ldb, m, n)
    requires TrInfo(side, m, n, lda, ldb) == 0 && alpha != 0.0 && diag.NonUnit? ==>
      NonZeroDiag(Entries(a[..], lda), Order(side, m, n))
    modifies b
    ensures info == TrInfo(side, m, n, lda, ldb)
    ensures info == 0 <==> 0 <= m && 0 <= n && 1 <= lda && (if side.Left? then m else n) <= lda && 1 <= ldb && m <= ldb
    ensures (info == 5 <==> m < 0) && (info == 6 <==> 0 <= m && n < 0) && info in {0, 5, 6, 9, 11}
    ensures info == 9 <==> 0 <= m && 0 <= n && (lda < 1 || lda < (if side.Left? then m else n))
    ensures info != 0 ==> b[..] == old(b[..])
    ensures info == 0 ==> ldb > 0 && CellsKept(b[..], old(b[..]), ldb, m, n) && OnlyWindow(b[..], old(b[..]), ldb, m, n)
    ensures info == 0 ==>
      Equation(side, OpA(a[..], lda, uplo, trans, diag), Entries(b[..], ldb), alpha, Entries(old(b[..]), ldb), m, n)
  {
    info := TrInfo(side, m, n, lda, ldb);
    if info != 0 || m == 0 || n == 0 {
      return;
    }
    hide Sum, At, Equation, OnlyWindow, CellsKept;
    if alpha == 0.0 {
      ghost var B := b[..];
      ZeroWindow(m, n, b, ldb);
      ZeroEquation(side, OpA(a[..], lda, uplo, trans, diag), Entries(b[..], ldb), Entries(B, ldb), m, n);
    } else if side.Left? {
      SolveLeft(uplo, trans, diag, m, n, alpha, a, lda, b, ldb);
    } else {
      SolveRight(uplo, trans, diag, m, n, alpha, a, lda, b, ldb);
    }
    OnlyWindowCells(b[..], old(b[..]), ldb, m, n);
  }

  // ----- what the equation determines -----

  /** The named triangle of A, and its diagonal when A is not unit triangular. */
  ghost predicate SameTriangle(A: Mat, A': Mat, k: int, uplo: Uplo, diag: Diag) {
    forall i, j :: 0 <= i < k && 0 <= j < k && (if i == j then diag.NonUnit? else if uplo.Upper? then i < j else j < i)
      ==> A(i, j) == A'(i, j)
  }

  /**
   * The result is the only solution, and it depends on A through the named triangle alone:
   * runs on matrices that agree there leave the same window.
   */
  lemma ResultDetermined(side: Side, uplo: Uplo, trans: Trans, diag: Diag, A: Mat, A': Mat, X: Mat, X': Mat,
                         alpha: real, B: Mat, m: int, n: int)
    requires SameTriangle(A, A', Order(side, m, n), uplo, diag)
    requires diag.NonUnit? ==> NonZeroDiag(A, Order(side, m, n))
    requires Equation(side, Op(Tri(A, uplo, diag), trans), X, alpha, B, m, n)
    requires Equation(side, Op(Tri(A', uplo, diag), trans), X', alpha, B, m, n)
    ensures forall i, j :: 0 <= i < m && 0 <= j < n ==> X(i, j) == X'(i, j)
  {
    hide Sum;
    var T, T' := Op(Tri(A, uplo, diag), trans), Op(Tri(A', uplo, diag), trans);
    forall i, j | 0 <= i < m && 0 <= j < n ensures X(i, j) == X'(i, j) {
      OpIsTri(A, Order(side, m, n), uplo, trans, diag);
      var shape := if uplo.Upper? == trans.NoTrans? then Upper else Lower;
      if side.Left? {
        LeftSystem(T, T, X, alpha, B, m, n, j);
        LeftSystem(T, T', X', alpha, B, m, n, j);
        SolutionUnique(T, m, shape, ColOf(X, j), ColOf(X', j), Scaled(alpha, ColOf(B, j)));
        assert ColOf(X, j)(i) == ColOf(X', j)(i);
      } else {
        RightSystem(T, T, X, alpha, B, m, n, i);
        RightSystem(T, T', X', alpha, B, m, n, i);
        SolutionUnique(Transpose(T), n, if shape.Upper? then Lower else Upper, RowOf(X, i), RowOf(X', i),
                       Scaled(alpha, RowOf(B, i)));
        assert RowOf(X, i)(j) == RowOf(X', i)(j);
      }
    }
  }

  lemma LeftSystem(T: Mat, T': Mat, X: Mat, alpha: real, B: Mat, m: int, n: int, j: int)
    requires Equation(Left, T', X, alpha, B, m, n) && 0 <= j < n
    requires forall i, l :: 0 <= i < m && 0 <= l < m ==> T(i, l) == T'(i, l)
    ensures Solves(T, m, ColOf(X, j), Scaled(alpha, ColOf(B, j)))
  {
    hide Sum;
    forall i | 0 <= i < m ensures Apply(T, m, ColOf(X, j))(i) == alpha * B(i, j) {
      SumEq(0, m, RowTimes(T, i, ColOf(X, j)), ProductTerms(T', X, i, j));
    }
  }

  lemma RightSystem(T: Mat, T': Mat, X: Mat, alpha: real, B: Mat, m: int, n: int, i: int)
    requires Equation(Right, T', X, alpha, B, m, n) && 0 <= i < m
    requires forall l, j :: 0 <= l < n && 0 <= j < n ==> T(l, j) == T'(l, j)
    ensures Solves(Transpose(T), n, RowOf(X, i), Scaled(alpha, RowOf(B, i)))
  {
    hide Sum;
    forall j | 0 <= j < n ensures Apply(Transpose(T), n, RowOf(X, i))(j) == alpha * B(i, j) {
      SumEq(0, n, RowTimes(Transpose(T), j, RowOf(X, i)), ProductTerms(X, T', i, j));
    }
  }

}
