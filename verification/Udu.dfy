// The UDU' decomposition of a symmetric matrix given by its upper triangle.

module UduDecomposition {
  import opened Sums
  import opened Storage
  import opened Triangular
  import opened Definite
  import opened TriangularSolve

  ghost function Diagonal(d: seq<real>): Vec { (l: int) => if 0 <= l < |d| then d[l] else 0.0 }

  /** U is unit upper triangular in columns j..m. */
  ghost predicate UnitUpper(u: seq<real>, m: int, j: int) {
    forall i, c {:trigger At(u, m, i, c)} :: 0 <= i < m && j <= c < m ==>
      (i == c ==> At(u, m, i, c) == 1.0) && (c < i ==> At(u, m, i, c) == 0.0)
  }

  /** Columns 0..j of U are still zero. */
  ghost predicate ZeroBefore(u: seq<real>, m: int, j: int) {
    forall i, c {:trigger At(u, m, i, c)} :: 0 <= i < m && 0 <= c < j ==> At(u, m, i, c) == 0.0
  }

  /** The terms that columns l of the factors contribute to entry (i, c). */
  ghost function Terms(u: seq<real>, m: int, d: Vec, i: int, c: int): Vec {
    (l: int) => At(u, m, i, l) * d(l) * At(u, m, c, l)
  }

  /** Columns j..m of the upper triangle of A, from row r on, are explained by columns j..m of U and d. */
  ghost predicate Decomposed(u: seq<real>, d: Vec, A: Mat, m: int, j: int, r: int) {
    && UnitUpper(u, m, j)
    && (forall i, c {:trigger A(i, c)} :: r <= i <= c && j <= c < m ==> Sum(j, m, Terms(u, m, d, i, c)) == A(i, c))
  }

  /** Column j computed down to row i. */
  ghost predicate ColumnDone(u': seq<real>, d': Vec, u: seq<real>, d: Vec, A: Mat, m: int, j: int, i: int) {
    && |u'| == |u|
    && (forall l :: 0 <= l < m && l != j ==> d'(l) == d(l))
    && (forall r, c {:trigger At(u', m, r, c)} :: 0 <= r < m && !(i < r <= j && c == j) ==> At(u', m, r, c) == At(u, m, r, c))
    && (i < j ==> At(u', m, j, j) == 1.0 && A(j, j) - Sum(j + 1, m, Terms(u, m, d, j, j)) == d'(j))
    && (i + 1 < j ==> d'(j) > 0.0)
    && (forall r {:trigger At(u', m, r, j)} :: i < r < j ==>
          At(u', m, r, j) * d'(j) == A(r, j) - Sum(j + 1, m, Terms(u, m, d, r, j)))
  }

  lemma EntryStep(u: seq<real>, d: Vec, u': seq<real>, d': Vec, A: Mat, m: int, j: int, k: int, i: int, c: int)
    requires 0 <= j < m && 0 <= i <= c && j <= c < m && k < j && (c == j ==> k < i)
    requires Decomposed(u, d, A, m, j + 1, 0) && ZeroBefore(u, m, j + 1) && ColumnDone(u', d', u, d, A, m, j, k)
    ensures Sum(j, m, Terms(u', m, d', i, c)) == A(i, c)
  {
    hide Sum, At;
    var f, g := Terms(u, m, d, i, c), Terms(u', m, d', i, c);
    SumFirst(j, m, g);
    forall l | j + 1 <= l < m ensures f(l) == g(l) {
      assert At(u', m, i, l) == At(u, m, i, l);
      assert At(u', m, c, l) == At(u, m, c, l);
    }
    SumEq(j + 1, m, f, g);
    assert g(j) == At(u', m, i, j) * d'(j) * At(u', m, c, j);
    if c == j {
      assert At(u', m, j, j) == 1.0;
      if i == j {
        assert d'(j) == A(j, j) - Sum(j + 1, m, f);
      }
    } else {
      assert At(u', m, c, j) == At(u, m, c, j) == 0.0;
    }
  }

  /** Columns j..m are explained from row k + 1 on once column j is computed down to row k. */
  lemma ColumnStep(u: seq<real>, d: Vec, u': seq<real>, d': Vec, A: Mat, m: int, j: int, k: int)
    requires 0 <= j < m && -1 <= k < j
    requires Decomposed(u, d, A, m, j + 1, 0) && ZeroBefore(u, m, j + 1) && ColumnDone(u', d', u, d, A, m, j, k)
    ensures Decomposed(u', d', A, m, j, k + 1) && ZeroBefore(u', m, j)
  {
    hide Sum, At;
    forall i, c | k + 1 <= i <= c && j <= c < m ensures Sum(j, m, Terms(u', m, d', i, c)) == A(i, c) {
      EntryStep(u, d, u', d', A, m, j, k, i, c);
    }
  }

  // ----- what the outcome says about A -----

  /** The decomposed part of U, completed by the identity. */
  ghost function Trailing(u: seq<real>, m: int, j: int): Mat {
    (i: int, l: int) => if j <= i && j <= l then At(u, m, i, l) else if i == l then 1.0 else 0.0
  }

  ghost function TrailingWeights(d: Vec, j: int): Vec { (l: int) => if j <= l then d(l) else 0.0 }

  lemma TrailingGram(u: seq<real>, d: Vec, A: Mat, m: int, j: int, i: int, c: int)
    requires 0 <= j <= m && Decomposed(u, d, A, m, j, j) && j <= i <= c < m
    ensures Gram(Trailing(u, m, j), TrailingWeights(d, j), m)(i, c) == A(i, c)
    ensures Gram(Trailing(u, m, j), TrailingWeights(d, j), m)(c, i) == A(i, c)
  {
    hide Sum, At;
    var W, w := Trailing(u, m, j), TrailingWeights(d, j);
    var g, h := ProductTerms(W, Weighted(w, W), i, c), ProductTerms(W, Weighted(w, W), c, i);
    SumSplit(0, j, m, g);
    SumZero(0, j, g);
    forall l | j <= l < m ensures g(l) == Terms(u, m, d, i, c)(l) {
      Reassociate(At(u, m, i, l), d(l), At(u, m, c, l));
    }
    SumEq(j, m, g, Terms(u, m, d, i, c));
    forall l | 0 <= l < m ensures g(l) == h(l) {
      Rotate(W(i, l), w(l), W(c, l));
    }
    SumEq(0, m, g, h);
  }

  lemma TrailingShape(u: seq<real>, m: int, j: int)
    requires UnitUpper(u, m, j)
    ensures IsTri(Trailing(u, m, j), m, Upper) && NonZeroDiag(Trailing(u, m, j), m) && Block(Trailing(u, m, j), m, j, m)
  {
    hide At;
    forall i, l | 0 <= i < m && 0 <= l < m ensures l < i ==> Trailing(u, m, j)(i, l) == 0.0 {
    }
  }

  lemma TrailingAgrees(u: seq<real>, d: Vec, A: Mat, m: int, j: int)
    requires 0 <= j <= m && Decomposed(u, d, A, m, j, j)
    ensures forall i, c :: 0 <= i < m && 0 <= c < m && j <= i < m && j <= c < m ==>
      Sym(A, Upper)(i, c) == Gram(Trailing(u, m, j), TrailingWeights(d, j), m)(i, c)
  {
    hide Gram, Decomposed;
    forall i, c | 0 <= i < m && 0 <= c < m && j <= i < m && j <= c < m
      ensures Sym(A, Upper)(i, c) == Gram(Trailing(u, m, j), TrailingWeights(d, j), m)(i, c)
    {
      if i <= c {
        TrailingGram(u, d, A, m, j, i, c);
      } else {
        TrailingGram(u, d, A, m, j, c, i);
      }
    }
  }

  /** Positive weights from j on: the trailing block is positive definite. */
  lemma TrailingDefinite(u: seq<real>, d: Vec, A: Mat, m: int, j: int)
    requires 0 <= j <= m && Decomposed(u, d, A, m, j, j)
    requires forall l :: j <= l < m ==> d(l) > 0.0
    ensures DefiniteOn(Sym(A, Upper), m, j, m)
  {
    hide Sum, At, Gram, Quad, DefiniteOn;
    TrailingShape(u, m, j);
    TrailingAgrees(u, d, A, m, j);
    hide Trailing;
    GramDefinite(Sym(A, Upper), Trailing(u, m, j), TrailingWeights(d, j), m, Upper, j, m);
  }

  /** A weight that is not positive: no block that contains its column is positive definite. */
  lemma TrailingIndefinite(u: seq<real>, d: Vec, A: Mat, m: int, j: int, k: int)
    requires 0 <= k <= j < m && Decomposed(u, d, A, m, j, j) && d(j) <= 0.0
    ensures !DefiniteOn(Sym(A, Upper), m, k, m)
  {
    hide Sum, At, Gram, Quad;
    TrailingShape(u, m, j);
    TrailingAgrees(u, d, A, m, j);
    hide Trailing;
    var x := GramIndefinite(Sym(A, Upper), Trailing(u, m, j), TrailingWeights(d, j), m, Upper, j, m, j);
    assert Supported(m, x, k, m);
  }

  // ----- the code -----

  /** sigma = A(i, j) minus what the columns behind j contribute. */
  method Residue(a: array<real>, u: array<real>, d: array<real>, m: int, j: int, i: int) returns (sigma: real)
    requires 0 <= i <= j < m && d.Length >= m && Holds(a, m, m, m) && Holds(u, m, m, m)
    ensures sigma == At(a[..], m, i, j) - Sum(j + 1, m, Terms(u[..], m, Diagonal(d[..]), i, j))
  {
    hide Sum, At;
    HoldsLess(a, m, m, m);
    HoldsLess(u, m, m, m);
    ghost var f := Terms(u[..], m, Diagonal(d[..]), i, j);
    sigma := Get(a, m, i, j);
    SumEmpty(j + 1, f);
    var k := j + 1;
    while k < m
      invariant j + 1 <= k <= m
      invariant sigma == At(a[..], m, i, j) - Sum(j + 1, k, f)
    {
      var x := Get(u, m, i, k);
      var y := Get(u, m, j, k);
      SumLast(j + 1, k, f);
      assert f(k) == x * d[k] * y;
      sigma := sigma - x * d[k] * y;
      k := k + 1;
    }
  }

  /** Column j from row j up to row 0; fails at the first division by a pivot that is not positive. */
  method Column(a: array<real>, u: array<real>, d: array<real>, m: int, j: int) returns (ok: bool)
    requires a != u && a != d && u != d && 0 <= j < m && d.Length >= m && Holds(a, m, m, m) && Holds(u, m, m, m)
    modifies u, d
    ensures ok <==> j == 0 || d[j] > 0.0
    ensures ok ==> ColumnDone(u[..], Diagonal(d[..]), old(u[..]), Diagonal(old(d[..])), Entries(a[..], m), m, j, -1)
    ensures !ok ==> ColumnDone(u[..], Diagonal(d[..]), old(u[..]), Diagonal(old(d[..])), Entries(a[..], m), m, j, j - 1)
  {
    hide Sum, At, ColumnDone;
    HoldsLess(a, m, m, m);
    HoldsLess(u, m, m, m);
    ghost var U, D, A := u[..], Diagonal(d[..]), a[..];
    ColumnStart(U, D, Entries(A, m), m, j);
    var i := j;
    while i >= 0
      invariant -1 <= i <= j && a[..] == A
      invariant i < j - 1 ==> d[j] > 0.0
      invariant ColumnDone(u[..], Diagonal(d[..]), U, D, Entries(A, m), m, j, i)
    {
      ghost var u0, d0 := u[..], Diagonal(d[..]);
      var sigma := Residue(a, u, d, m, j, i);
      SameTerms(u[..], Diagonal(d[..]), U, D, Entries(A, m), m, j, i);
      if i == j {
        d[j] := sigma;
        Put(u, m, j, j, 1.0);
      } else {
        if d[j] <= 0.0 {
          assert i == j - 1;
          return false;
        }
        Quotient(sigma, d[j]);
        Put(u, m, i, j, sigma / d[j]);
      }
      ColumnExtended(u[..], Diagonal(d[..]), u0, d0, U, D, Entries(A, m), m, j, i);
      i := i - 1;
    }
    return true;
  }

  lemma ColumnStart(u: seq<real>, d: Vec, A: Mat, m: int, j: int)
    ensures ColumnDone(u, d, u, d, A, m, j, j)
  {
  }

  lemma ColumnExtended(u'': seq<real>, d'': Vec, u': seq<real>, d': Vec, u: seq<real>, d: Vec, A: Mat, m: int, j: int, i: int)
    requires 0 <= i <= j < m && |u''| == |u'| && ColumnDone(u', d', u, d, A, m, j, i)
    requires forall r, c {:trigger At(u'', m, r, c)} :: 0 <= r < m && !(r == i && c == j) ==> At(u'', m, r, c) == At(u', m, r, c)
    requires forall l :: 0 <= l < m && (l != j || i < j) ==> d''(l) == d'(l)
    requires var sigma := A(i, j) - Sum(j + 1, m, Terms(u, m, d, i, j));
      if i == j then d''(j) == sigma && At(u'', m, j, j) == 1.0 else d''(j) > 0.0 && At(u'', m, i, j) * d''(j) == sigma
    ensures ColumnDone(u'', d'', u, d, A, m, j, i - 1)
  {
    hide Sum, At;
  }

  lemma SameTerms(u': seq<real>, d': Vec, u: seq<real>, d: Vec, A: Mat, m: int, j: int, i: int)
    requires 0 <= i <= j < m && ColumnDone(u', d', u, d, A, m, j, i)
    ensures Sum(j + 1, m, Terms(u', m, d', i, j)) == Sum(j + 1, m, Terms(u, m, d, i, j))
  {
    hide Sum, At;
    SumEq(j + 1, m, Terms(u', m, d', i, j), Terms(u, m, d, i, j));
  }

  method Udu(a: array<real>, u: array<real>, d: array<real>, m: int) returns (ret: int)
    requires a != u && a != d && u != d && 0 <= m <= d.Length && Holds(a, m, m, m) && Holds(u, m, m, m)
    modifies u, d
    ensures ret == 0 || ret == -1
    ensures ret == 0 <==> DefiniteOn(Sym(Entries(a[..], m), Upper), m, 1, m)
    ensures ret == 0 ==> IsUdu(Entries(u[..], m), Diagonal(d[..]), Sym(Entries(a[..], m), Upper), m)
    ensures ret == 0 && 0 < m ==> (d[0] > 0.0 <==> DefiniteOn(Sym(Entries(a[..], m), Upper), m, 0, m))
  {
    hide Sum, At, IsUdu, DefiniteOn, Decomposed, ColumnDone;
    ghost var A := Entries(a[..], m);
    ghost var S := a[..];
    ZeroWindow(m, m, u, m);
    ZeroDiagonal(d, m);
    DecomposedStart(u[..], Diagonal(d[..]), A, m);
    var j := m - 1;
    while j >= 0
      invariant -1 <= j < m && a[..] == S
      invariant Decomposed(u[..], Diagonal(d[..]), A, m, j + 1, 0) && ZeroBefore(u[..], m, j + 1)
      invariant forall l :: j < l < m && 0 < l ==> d[l] > 0.0
    {
      ghost var U, D := u[..], Diagonal(d[..]);
      var ok := Column(a, u, d, m, j);
      if !ok {
        ColumnFailed(U, D, u[..], Diagonal(d[..]), A, m, j);
        return -1;
      }
      assert forall l :: j < l < m ==> Diagonal(d[..])(l) == D(l) by { KeptDiagonal(U, D, u[..], Diagonal(d[..]), A, m, j); }
      assert forall l :: j < l < m && 0 < l ==> d[l] == Diagonal(d[..])(l);
      ColumnStep(U, D, u[..], Diagonal(d[..]), A, m, j, -1);
      j := j - 1;
    }
    Finished(u[..], d[..], A, m);
    return 0;
  }

  lemma KeptDiagonal(u: seq<real>, d: Vec, u': seq<real>, d': Vec, A: Mat, m: int, j: int)
    requires ColumnDone(u', d', u, d, A, m, j, -1) && 0 <= j
    ensures forall l :: j < l < m ==> d'(l) == d(l)
  {
  }

  lemma DecomposedStart(u: seq<real>, d: Vec, A: Mat, m: int)
    requires forall r, c {:trigger At(u, m, r, c)} :: 0 <= r < m && 0 <= c < m ==> At(u, m, r, c) == 0.0
    ensures Decomposed(u, d, A, m, m, 0) && ZeroBefore(u, m, m)
  {
    hide At;
  }

  method ZeroDiagonal(d: array<real>, m: int)
    requires 0 <= m <= d.Length
    modifies d
    ensures forall l :: 0 <= l < m ==> d[l] == 0.0
  {
    var i := 0;
    while i < m
      invariant 0 <= i <= m
      invariant forall l :: 0 <= l < i ==> d[l] == 0.0
    {
      d[i] := 0.0;
      i := i + 1;
    }
  }

  /** U * diag(d) * U' == M, U unit upper triangular, and every pivot but the first positive. */
  ghost predicate IsUdu(U: Mat, d: Vec, M: Mat, m: int) {
    && IsTri(U, m, Upper)
    && (forall i :: 0 <= i < m ==> U(i, i) == 1.0)
    && (forall i :: 1 <= i < m ==> d(i) > 0.0)
    && (forall i, c :: 0 <= i < m && 0 <= c < m ==> Gram(U, d, m)(i, c) == M(i, c))
  }

  lemma ColumnFailed(u: seq<real>, d: Vec, u': seq<real>, d': Vec, A: Mat, m: int, j: int)
    requires 1 <= j < m && Decomposed(u, d, A, m, j + 1, 0) && ZeroBefore(u, m, j + 1)
    requires ColumnDone(u', d', u, d, A, m, j, j - 1) && d'(j) <= 0.0
    ensures !DefiniteOn(Sym(A, Upper), m, 1, m)
  {
    hide Decomposed, ColumnDone, ZeroBefore, DefiniteOn;
    ColumnStep(u, d, u', d', A, m, j, j - 1);
    TrailingIndefinite(u', d', A, m, j, 1);
  }

  /** The block without the first row and column does not need column 0. */
  lemma WithoutFirst(u: seq<real>, d: Vec, A: Mat, m: int)
    requires 0 < m && Decomposed(u, d, A, m, 0, 0)
    ensures Decomposed(u, d, A, m, 1, 1)
  {
    hide Sum, At;
    forall i, c | 1 <= i <= c < m ensures Sum(1, m, Terms(u, m, d, i, c)) == A(i, c) {
      SumFirst(0, m, Terms(u, m, d, i, c));
      assert At(u, m, c, 0) == 0.0;
    }
  }

  lemma Finished(u: seq<real>, d: seq<real>, A: Mat, m: int)
    requires 0 <= m <= |d| && Decomposed(u, Diagonal(d), A, m, 0, 0)
    requires forall l :: 0 < l < m ==> d[l] > 0.0
    ensures DefiniteOn(Sym(A, Upper), m, 1, m)
    ensures IsUdu(Entries(u, m), Diagonal(d), Sym(A, Upper), m)
    ensures 0 < m ==> (d[0] > 0.0 <==> DefiniteOn(Sym(A, Upper), m, 0, m))
  {
    hide Decomposed, DefiniteOn, IsUdu;
    FinishedFactors(u, Diagonal(d), A, m);
    if m == 0 {
      NothingDefinite(Sym(A, Upper));
    } else {
      WithoutFirst(u, Diagonal(d), A, m);
      TrailingDefinite(u, Diagonal(d), A, m, 1);
      if d[0] > 0.0 {
        TrailingDefinite(u, Diagonal(d), A, m, 0);
      } else {
        TrailingIndefinite(u, Diagonal(d), A, m, 0, 0);
      }
    }
  }

  lemma NothingDefinite(M: Mat)
    ensures DefiniteOn(M, 0, 1, 0)
  {
  }

  lemma FinishedFactors(u: seq<real>, d: Vec, A: Mat, m: int)
    requires 0 <= m && Decomposed(u, d, A, m, 0, 0)
    requires forall l :: 0 < l < m ==> d(l) > 0.0
    ensures IsUdu(Entries(u, m), d, Sym(A, Upper), m)
  {
    hide Sum, At;
    var U, W := Entries(u, m), Trailing(u, m, 0);
    TrailingAgrees(u, d, A, m, 0);
    forall i, c | 0 <= i < m && 0 <= c < m ensures Gram(U, d, m)(i, c) == Sym(A, Upper)(i, c) {
      SumEq(0, m, ProductTerms(U, Weighted(d, U), i, c), ProductTerms(W, Weighted(TrailingWeights(d, 0), W), i, c));
    }
  }

  /**
   * The result code alone does not say that the matrix is positive definite: column 0 is never divided by
   * its pivot, so the pivot is never tested. The 1-by-1 matrix -1 passes.
   */
  lemma FirstPivotUntested()
    ensures var M: Mat := (i, j) => -1.0; DefiniteOn(M, 1, 1, 1) && !DefiniteOn(M, 1, 0, 1)
  {
    var M: Mat := (i, j) => -1.0;
    var x: Vec := (i: int) => 1.0;
    SumSingle(0, 1, 0, RowTimes(M, 0, x));
    SumSingle(0, 1, 0, Times(x, Apply(M, 1, x)));
    assert NonZero(1, x) by { assert x(0) != 0.0; }
    assert Quad(M, 1, x) == -1.0;
  }
}
