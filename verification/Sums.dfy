// Finite sums over the reals, and the vectors and matrices they range over.

module Sums {
  type Vec = int -> real
  type Mat = (int, int) -> real

  ghost function Sum(lo: int, hi: int, f: Vec): real
    decreases hi - lo
  {
    if lo >= hi then 0.0 else Sum(lo, hi - 1, f) + f(hi - 1)
  }

  lemma SumEmpty(lo: int, f: Vec)
    ensures forall hi :: hi <= lo ==> Sum(lo, hi, f) == 0.0
  {
  }

  lemma SumLast(lo: int, k: int, f: Vec)
    requires lo <= k
    ensures Sum(lo, k + 1, f) == Sum(lo, k, f) + f(k)
  {
  }

  lemma {:induction false} SumEq(lo: int, hi: int, f: Vec, g: Vec)
    requires forall i :: lo <= i < hi ==> f(i) == g(i)
    ensures Sum(lo, hi, f) == Sum(lo, hi, g)
    decreases hi - lo
  {
    if lo < hi {
      SumEq(lo, hi - 1, f, g);
    }
  }

  lemma {:induction false} SumZero(lo: int, hi: int, f: Vec)
    requires forall i :: lo <= i < hi ==> f(i) == 0.0
    ensures Sum(lo, hi, f) == 0.0
    decreases hi - lo
  {
    if lo < hi {
      SumZero(lo, hi - 1, f);
    }
  }

  lemma {:induction false} SumSplit(lo: int, mid: int, hi: int, f: Vec)
    requires lo <= mid <= hi
    ensures Sum(lo, hi, f) == Sum(lo, mid, f) + Sum(mid, hi, f)
    decreases hi - mid
  {
    if mid < hi {
      SumSplit(lo, mid, hi - 1, f);
    }
  }

  lemma SumFirst(lo: int, hi: int, f: Vec)
    requires lo < hi
    ensures Sum(lo, hi, f) == f(lo) + Sum(lo + 1, hi, f)
  {
    SumSplit(lo, lo + 1, hi, f);
    assert Sum(lo, lo + 1, f) == Sum(lo, lo, f) + f(lo);
  }

  /** A sum with at most one non-zero term. */
  lemma SumSingle(lo: int, hi: int, k: int, f: Vec)
    requires lo <= k < hi
    requires forall i :: lo <= i < hi && i != k ==> f(i) == 0.0
    ensures Sum(lo, hi, f) == f(k)
  {
    SumSplit(lo, k, hi, f);
    SumFirst(k, hi, f);
    SumZero(lo, k, f);
    SumZero(k + 1, hi, f);
  }

  lemma {:induction false} SumAdd(lo: int, hi: int, f: Vec, g: Vec, h: Vec)
    requires forall i :: lo <= i < hi ==> h(i) == f(i) + g(i)
    ensures Sum(lo, hi, h) == Sum(lo, hi, f) + Sum(lo, hi, g)
    decreases hi - lo
  {
    if lo < hi {
      SumAdd(lo, hi - 1, f, g, h);
    }
  }

  lemma {:induction false} SumScale(lo: int, hi: int, c: real, f: Vec, g: Vec)
    requires forall i :: lo <= i < hi ==> g(i) == c * f(i)
    ensures Sum(lo, hi, g) == c * Sum(lo, hi, f)
    decreases hi - lo
  {
    if lo < hi {
      SumScale(lo, hi - 1, c, f, g);
    }
  }

  lemma {:induction false} SumNonNegative(lo: int, hi: int, f: Vec)
    requires forall i :: lo <= i < hi ==> f(i) >= 0.0
    ensures Sum(lo, hi, f) >= 0.0
    ensures forall i :: lo <= i < hi ==> f(i) <= Sum(lo, hi, f)
    decreases hi - lo
  {
    if lo < hi {
      SumNonNegative(lo, hi - 1, f);
    }
  }

  lemma {:induction false} SumShift(lo: int, hi: int, d: int, f: Vec, g: Vec)
    requires forall i :: lo <= i < hi ==> f(i) == g(i + d)
    ensures Sum(lo, hi, f) == Sum(lo + d, hi + d, g)
    decreases hi - lo
  {
    if lo < hi {
      SumShift(lo, hi - 1, d, f, g);
    }
  }

  ghost function Square(y: real): real { y * y }

  ghost function RowOf(M: Mat, i: int): Vec { (j: int) => M(i, j) }
  ghost function ColOf(M: Mat, j: int): Vec { (i: int) => M(i, j) }

  /** The sum of each row (each column) of M over a range of columns (rows). */
  ghost function RowSums(M: Mat, lo: int, hi: int): Vec { (i: int) => Sum(lo, hi, RowOf(M, i)) }
  ghost function ColSums(M: Mat, lo: int, hi: int): Vec { (j: int) => Sum(lo, hi, ColOf(M, j)) }

  /** The order of a double sum does not matter. */
  lemma {:induction false} SumSwap(lo: int, hi: int, lo': int, hi': int, M: Mat)
    ensures Sum(lo, hi, RowSums(M, lo', hi')) == Sum(lo', hi', ColSums(M, lo, hi))
    decreases hi - lo
  {
    if lo >= hi {
      SumZero(lo', hi', ColSums(M, lo, hi));
    } else {
      SumSwap(lo, hi - 1, lo', hi', M);
      SumAdd(lo', hi', ColSums(M, lo, hi - 1), RowOf(M, hi - 1), ColSums(M, lo, hi));
    }
  }

  // ----- matrices acting on vectors -----

  ghost function Transpose(M: Mat): Mat { (i: int, j: int) => M(j, i) }

  ghost function Scaled(c: real, x: Vec): Vec { (i: int) => c * x(i) }

  ghost function Times(x: Vec, y: Vec): Vec { (i: int) => x(i) * y(i) }

  /** The terms of row i of the product M * x. */
  ghost function RowTimes(M: Mat, i: int, x: Vec): Vec { (l: int) => M(i, l) * x(l) }

  /** Entry i of the product of M (its columns 0..n) and x. */
  ghost function Apply(M: Mat, n: int, x: Vec): Vec { (i: int) => Sum(0, n, RowTimes(M, i, x)) }

  /** M * x == c on the indices 0..n. */
  ghost predicate Solves(M: Mat, n: int, x: Vec, c: Vec) {
    forall i :: 0 <= i < n ==> Apply(M, n, x)(i) == c(i)
  }

  ghost predicate SameVec(n: int, x: Vec, y: Vec) {
    forall i :: 0 <= i < n ==> x(i) == y(i)
  }

  /** The terms of entry (i, j) of the product M * N. */
  ghost function ProductTerms(M: Mat, N: Mat, i: int, j: int): Vec { (l: int) => M(i, l) * N(l, j) }

  /** The product of M (its columns 0..k) and N (its rows 0..k). */
  ghost function Product(M: Mat, N: Mat, k: int): Mat { (i: int, j: int) => Sum(0, k, ProductTerms(M, N, i, j)) }

  lemma ApplyEq(M: Mat, n: int, x: Vec, y: Vec, i: int)
    requires SameVec(n, x, y)
    ensures Apply(M, n, x)(i) == Apply(M, n, y)(i)
  {
    SumEq(0, n, RowTimes(M, i, x), RowTimes(M, i, y));
  }

  lemma SolvesEq(M: Mat, n: int, x: Vec, y: Vec, c: Vec)
    requires SameVec(n, x, y) && Solves(M, n, x, c)
    ensures Solves(M, n, y, c)
  {
    forall i | 0 <= i < n ensures Apply(M, n, y)(i) == c(i) {
      ApplyEq(M, n, x, y, i);
    }
  }

  /** (M * N) * x == M * (N * x). */
  lemma ProductApply(M: Mat, N: Mat, n: int, x: Vec, i: int)
    ensures Apply(Product(M, N, n), n, x)(i) == Apply(M, n, Apply(N, n, x))(i)
  {
    var W: Mat := (l: int, p: int) => M(i, l) * N(l, p) * x(p);
    forall p | 0 <= p < n ensures ColSums(W, 0, n)(p) == RowTimes(Product(M, N, n), i, x)(p) {
      SumScale(0, n, x(p), ProductTerms(M, N, i, p), ColOf(W, p));
    }
    SumEq(0, n, ColSums(W, 0, n), RowTimes(Product(M, N, n), i, x));
    forall l | 0 <= l < n ensures RowSums(W, 0, n)(l) == RowTimes(M, i, Apply(N, n, x))(l) {
      SumScale(0, n, M(i, l), RowTimes(N, l, x), RowOf(W, l));
    }
    SumEq(0, n, RowSums(W, 0, n), RowTimes(M, i, Apply(N, n, x)));
    SumSwap(0, n, 0, n, W);
  }

  /** Solving with a product is solving with its factors one after the other. */
  lemma SolvesProduct(M: Mat, N: Mat, n: int, x: Vec, y: Vec, c: Vec)
    requires Solves(N, n, x, y) && Solves(M, n, y, c)
    ensures Solves(Product(M, N, n), n, x, c)
  {
    forall i | 0 <= i < n ensures Apply(Product(M, N, n), n, x)(i) == c(i) {
      ProductApply(M, N, n, x, i);
      ApplyEq(M, n, Apply(N, n, x), y, i);
    }
  }
}
