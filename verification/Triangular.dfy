// Triangular systems one vector at a time: what the elimination and the
// substitution loops keep, and why the answer is the only one.

module Triangular {
  import opened Sums

  datatype Uplo = Upper | Lower
  datatype Trans = NoTrans | Transposed
  datatype Diag = UnitDiag | NonUnit

  /** The triangular matrix that the named triangle of S stands for. */
  ghost function Tri(S: Mat, uplo: Uplo, diag: Diag): Mat {
    (i: int, j: int) =>
      if i == j then (if diag.UnitDiag? then 1.0 else S(i, i))
      else if (if uplo.Upper? then i < j else j < i) then S(i, j)
      else 0.0
  }

  ghost function Op(M: Mat, trans: Trans): Mat {
    if trans.Transposed? then Transpose(M) else M
  }

  /** M has no entry below (uplo upper) or above (uplo lower) its diagonal. */
  ghost predicate IsTri(M: Mat, n: int, uplo: Uplo) {
    forall i, j :: 0 <= i < n && 0 <= j < n && (if uplo.Upper? then j < i else i < j) ==> M(i, j) == 0.0
  }

  ghost function Zero(i: int): real { 0.0 }

  ghost predicate NonZeroDiag(M: Mat, n: int) {
    forall i :: 0 <= i < n ==> M(i, i) != 0.0
  }

  // The loops grow a range lo..hi of finished indices by one index k, at either end.
  ghost predicate Grows(n: int, lo: int, hi: int, lo': int, hi': int, k: int) {
    && 0 <= lo <= hi <= n
    && 0 <= k < n
    && ((k == hi && lo' == lo && hi' == hi + 1) || (k == lo - 1 && lo' == k && hi' == hi))
  }

  lemma SumGrows(n: int, lo: int, hi: int, lo': int, hi': int, k: int, f: Vec)
    requires Grows(n, lo, hi, lo', hi', k)
    ensures Sum(lo', hi', f) == Sum(lo, hi, f) + f(k)
  {
    if k != hi {
      SumFirst(lo', hi', f);
    }
  }

  // ----- solving T * x == c -----

  /** Column-wise elimination: unknowns lo..hi are known and moved to the left. */
  ghost predicate Eliminated(T: Mat, w: real, c: Vec, x: Vec, n: int, lo: int, hi: int) {
    forall i {:trigger RowTimes(T, i, x)} :: 0 <= i < n ==>
      (if lo <= i < hi then 0.0 else w * x(i)) + Sum(lo, hi, RowTimes(T, i, x)) == c(i)
  }

  lemma EliminationStart(T: Mat, w: real, c: Vec, x: Vec, n: int, k: int)
    requires forall i :: 0 <= i < n ==> w * x(i) == c(i)
    ensures Eliminated(T, w, c, x, n, k, k)
  {
  }

  lemma EliminationStep(T: Mat, w: real, c: Vec, x: Vec, x': Vec, n: int,
                        lo: int, hi: int, lo': int, hi': int, k: int)
    requires Grows(n, lo, hi, lo', hi', k) && Eliminated(T, w, c, x, n, lo, hi)
    requires forall i :: lo <= i < hi ==> T(i, k) == 0.0 && x'(i) == x(i)
    requires T(k, k) * x'(k) == w * x(k)
    requires forall i :: 0 <= i < n && !(lo' <= i < hi') ==> w * x'(i) == w * x(i) - T(i, k) * x'(k)
    ensures Eliminated(T, w, c, x', n, lo', hi')
  {
    hide Sum;
    forall i | 0 <= i < n
      ensures (if lo' <= i < hi' then 0.0 else w * x'(i)) + Sum(lo', hi', RowTimes(T, i, x')) == c(i)
    {
      if lo <= i < hi {
        ZeroTimes(T(i, k), x'(k));
      }
      EliminationRow(RowTimes(T, i, x), RowTimes(T, i, x'), n, lo, hi, lo', hi', k, i, w * x(i), w * x'(i), c(i));
    }
  }

  lemma EliminationRow(f: Vec, g: Vec, n: int, lo: int, hi: int, lo': int, hi': int, k: int, i: int,
                       u: real, u': real, c: real)
    requires Grows(n, lo, hi, lo', hi', k) && forall l :: lo <= l < hi ==> f(l) == g(l)
    requires (if lo <= i < hi then 0.0 else u) + Sum(lo, hi, f) == c
    requires lo <= i < hi ==> g(k) == 0.0
    requires i == k ==> g(k) == u
    requires !(lo' <= i < hi') ==> u' == u - g(k)
    ensures (if lo' <= i < hi' then 0.0 else u') + Sum(lo', hi', g) == c
  {
    hide Sum;
    SumGrows(n, lo, hi, lo', hi', k, g);
    SumEq(lo, hi, f, g);
  }

  lemma ZeroTimes(a: real, b: real)
    requires a == 0.0
    ensures a * b == 0.0
  {
  }

  lemma EliminationDone(T: Mat, w: real, c: Vec, x: Vec, n: int)
    requires Eliminated(T, w, c, x, n, 0, n)
    ensures Solves(T, n, x, c)
  {
  }

  /** Row-wise substitution: equations lo..hi are solved, the rest still hold the right-hand side. */
  ghost predicate Substituted(T: Mat, c: Vec, b: Vec, x: Vec, n: int, lo: int, hi: int) {
    && (forall i {:trigger RowTimes(T, i, x)} :: lo <= i < hi ==> Sum(lo, hi, RowTimes(T, i, x)) == c(i))
    && (forall i :: 0 <= i < n && !(lo <= i < hi) ==> x(i) == b(i))
  }

  lemma SubstitutionStep(T: Mat, c: Vec, b: Vec, x: Vec, x': Vec, n: int,
                         lo: int, hi: int, lo': int, hi': int, k: int)
    requires Grows(n, lo, hi, lo', hi', k) && Substituted(T, c, b, x, n, lo, hi)
    requires forall i :: lo <= i < hi ==> T(i, k) == 0.0
    requires forall i :: 0 <= i < n && i != k ==> x'(i) == x(i)
    requires Sum(lo, hi, RowTimes(T, k, x)) + T(k, k) * x'(k) == c(k)
    ensures Substituted(T, c, b, x', n, lo', hi')
  {
    hide Sum;
    forall i | lo' <= i < hi' ensures Sum(lo', hi', RowTimes(T, i, x')) == c(i) {
      SumGrows(n, lo, hi, lo', hi', k, RowTimes(T, i, x'));
      SumEq(lo, hi, RowTimes(T, i, x), RowTimes(T, i, x'));
    }
  }

  lemma SubstitutionDone(T: Mat, c: Vec, b: Vec, x: Vec, n: int)
    requires Substituted(T, c, b, x, n, 0, n)
    ensures Solves(T, n, x, c)
  {
  }

  // ----- multiplying x := alpha * T * x in place -----

  /** Column-wise: entries lo..hi hold the product so far, the rest are untouched. */
  ghost predicate Accumulated(T: Mat, alpha: real, b: Vec, x: Vec, n: int, lo: int, hi: int) {
    && (forall i {:trigger RowTimes(T, i, b)} :: lo <= i < hi ==> x(i) == alpha * Sum(lo, hi, RowTimes(T, i, b)))
    && (forall i :: 0 <= i < n && !(lo <= i < hi) ==> x(i) == b(i))
  }

  lemma Distribute(a: real, x: real, y: real)
    ensures a * (x + y) == a * x + a * y
  {
  }

  lemma AccumulationStep(T: Mat, alpha: real, b: Vec, x: Vec, x': Vec, n: int,
                         lo: int, hi: int, lo': int, hi': int, k: int)
    requires Grows(n, lo, hi, lo', hi', k) && Accumulated(T, alpha, b, x, n, lo, hi)
    requires forall i :: lo <= i < hi ==> T(k, i) == 0.0 && x'(i) == x(i) + alpha * (T(i, k) * b(k))
    requires x'(k) == alpha * (T(k, k) * b(k))
    requires forall i :: 0 <= i < n && !(lo' <= i < hi') ==> x'(i) == x(i)
    ensures Accumulated(T, alpha, b, x', n, lo', hi')
  {
    hide Sum;
    forall i | lo' <= i < hi' ensures x'(i) == alpha * Sum(lo', hi', RowTimes(T, i, b)) {
      AccumulationRow(alpha, RowTimes(T, i, b), n, lo, hi, lo', hi', k, if i == k then 0.0 else x(i));
    }
  }

  /** One entry: either it grows by the new term, or its earlier terms are all zero. */
  lemma AccumulationRow(alpha: real, f: Vec, n: int, lo: int, hi: int, lo': int, hi': int, k: int, v: real)
    requires Grows(n, lo, hi, lo', hi', k)
    requires v == alpha * Sum(lo, hi, f) || (v == 0.0 && forall l :: lo <= l < hi ==> f(l) == 0.0)
    ensures alpha * Sum(lo', hi', f) == v + alpha * f(k)
  {
    hide Sum;
    SumGrows(n, lo, hi, lo', hi', k, f);
    Distribute(alpha, Sum(lo, hi, f), f(k));
    if v == 0.0 && forall l :: lo <= l < hi ==> f(l) == 0.0 {
      SumZero(lo, hi, f);
    }
  }

  /** Row-wise: entries lo..hi hold the whole product, the rest are untouched. */
  ghost predicate Replaced(T: Mat, alpha: real, b: Vec, x: Vec, n: int, lo: int, hi: int) {
    && (forall i :: lo <= i < hi ==> x(i) == alpha * Apply(T, n, b)(i))
    && (forall i :: 0 <= i < n && !(lo <= i < hi) ==> x(i) == b(i))
  }

  /** Only the unfinished part of row k of T is non-zero, so its product can still be formed. */
  lemma ReplacementStep(T: Mat, alpha: real, b: Vec, x: Vec, x': Vec, n: int,
                        lo: int, hi: int, lo': int, hi': int, k: int, p: int, q: int)
    requires Grows(n, lo, hi, lo', hi', k) && Replaced(T, alpha, b, x, n, lo, hi)
    requires 0 <= p <= q <= n && (q <= lo' || hi' <= p)
    requires forall l :: 0 <= l < n && l != k && !(p <= l < q) ==> T(k, l) == 0.0
    requires forall i :: 0 <= i < n && i != k ==> x'(i) == x(i)
    requires x'(k) == alpha * (T(k, k) * x(k) + Sum(p, q, RowTimes(T, k, x)))
    ensures Replaced(T, alpha, b, x', n, lo', hi')
  {
    hide Sum;
    SumEq(p, q, RowTimes(T, k, x), RowTimes(T, k, b));
    RowParts(T, b, n, k, p, q);
    assert x(k) == b(k);
    assert T(k, k) * x(k) + Sum(p, q, RowTimes(T, k, x)) == Apply(T, n, b)(k);
  }

  lemma RowParts(T: Mat, b: Vec, n: int, k: int, p: int, q: int)
    requires 0 <= k < n && 0 <= p <= q <= n && (q <= k || k < p)
    requires forall l :: 0 <= l < n && l != k && !(p <= l < q) ==> T(k, l) == 0.0
    ensures Apply(T, n, b)(k) == T(k, k) * b(k) + Sum(p, q, RowTimes(T, k, b))
  {
    hide Sum;
    SumParts(RowTimes(T, k, b), n, k, p, q);
  }

  lemma SumParts(f: Vec, n: int, k: int, p: int, q: int)
    requires 0 <= k < n && 0 <= p <= q <= n && (q <= k || k < p)
    requires forall l :: 0 <= l < n && l != k && !(p <= l < q) ==> f(l) == 0.0
    ensures Sum(0, n, f) == f(k) + Sum(p, q, f)
  {
    hide Sum;
    SumSplit(0, p, n, f);
    SumSplit(p, q, n, f);
    if q <= k {
      SumZero(0, p, f);
      SumSingle(q, n, k, f);
    } else {
      SumSingle(0, p, k, f);
      SumZero(q, n, f);
    }
  }

  // ----- the solution is unique -----

  /** A triangular matrix with a non-zero diagonal maps only zero to zero. */
  lemma {:induction false} TriInjective(T: Mat, n: int, uplo: Uplo, d: Vec, k: int)
    requires IsTri(T, n, uplo) && NonZeroDiag(T, n) && 0 <= k <= n
    requires Solves(T, n, d, Zero)
    ensures forall i :: (if uplo.Lower? then 0 <= i < k else n - k <= i < n) ==> d(i) == 0.0
    decreases k
  {
    hide Sum;
    if k > 0 {
      TriInjective(T, n, uplo, d, k - 1);
      var i := if uplo.Lower? then k - 1 else n - k;
      forall l | 0 <= l < n && l != i ensures RowTimes(T, i, d)(l) == 0.0 {
      }
      SumSingle(0, n, i, RowTimes(T, i, d));
      assert Apply(T, n, d)(i) == 0.0;
      ProductZero(T(i, i), d(i));
    }
  }

  lemma ProductZero(a: real, b: real)
    requires a * b == 0.0 && a != 0.0
    ensures b == 0.0
  {
  }

  lemma SolutionUnique(T: Mat, n: int, uplo: Uplo, x: Vec, y: Vec, c: Vec)
    requires IsTri(T, n, uplo) && NonZeroDiag(T, n)
    requires Solves(T, n, x, c) && Solves(T, n, y, c)
    ensures SameVec(n, x, y)
  {
    hide Sum;
    var d: Vec := (i: int) => x(i) - y(i);
    forall i | 0 <= i < n ensures Apply(T, n, d)(i) == 0.0 {
      SumAdd(0, n, RowTimes(T, i, d), RowTimes(T, i, y), RowTimes(T, i, x));
      assert Apply(T, n, x)(i) == c(i) == Apply(T, n, y)(i);
    }
    if n >= 0 {
      TriInjective(T, n, uplo, d, n);
      forall i | 0 <= i < n ensures x(i) == y(i) {
        assert d(i) == 0.0;
      }
    }
  }

  lemma OpIsTri(S: Mat, n: int, uplo: Uplo, trans: Trans, diag: Diag)
    ensures IsTri(Op(Tri(S, uplo, diag), trans), n, if uplo.Upper? == trans.NoTrans? then Upper else Lower)
  {
  }
}
