// The in-place Cholesky factorization, and what it decides.

module CholeskyFactorization {
  import opened Sums
  import opened Storage
  import opened Kernels
  import opened Triangular
  import opened Definite
  import opened TriangularSolve

  /** The square root the factorization calls: exact on positive numbers. */
  ghost predicate IsSqrt(sqrt: real -> real) {
    forall x: real {:trigger sqrt(x)} :: x > 0.0 ==> sqrt(x) > 0.0 && sqrt(x) * sqrt(x) == x
  }

  /** The lower triangle of the n-by-n buffer, as a matrix. */
  ghost function Low(s: seq<real>, n: int): Mat { Tri(Entries(s, n), Lower, NonUnit) }

  /** Columns 0..j hold columns of the factor; the rest of the lower triangle holds what is left of M. */
  ghost predicate Reduced(s: seq<real>, M: Mat, n: int, j: int) {
    && (forall c, i {:trigger M(i, c)} :: 0 <= c <= i < n ==>
          (if c < j then 0.0 else At(s, n, i, c)) +
          Sum(0, j, ProductTerms(Low(s, n), Transpose(Low(s, n)), i, c)) == M(i, c))
    && (forall c {:trigger At(s, n, c, c)} :: 0 <= c < j ==> At(s, n, c, c) > 0.0)
  }

  /** One turn of the main loop: column j is divided by its pivot and its products leave the columns behind it. */
  ghost predicate ColumnFactored(s': seq<real>, s: seq<real>, n: int, j: int) {
    && |s'| == |s|
    && At(s', n, j, j) > 0.0
    && At(s', n, j, j) * At(s', n, j, j) == At(s, n, j, j)
    && (forall i {:trigger At(s', n, i, j)} :: j < i < n ==> At(s', n, i, j) * At(s', n, j, j) == At(s, n, i, j))
    && (forall i, c {:trigger At(s', n, i, c)} :: 0 <= i < n && c != j ==>
          At(s', n, i, c) ==
          if j < c <= i then At(s, n, i, c) - At(s', n, i, j) * At(s', n, c, j) else At(s, n, i, c))
    && (forall i {:trigger At(s', n, i, j)} :: 0 <= i < j ==> At(s', n, i, j) == At(s, n, i, j))
  }

  lemma EntryStep(s: seq<real>, s': seq<real>, M: Mat, n: int, j: int, i: int, c: int)
    requires 0 <= j < n && 0 <= c <= i < n
    requires Reduced(s, M, n, j) && ColumnFactored(s', s, n, j)
    ensures (if c < j + 1 then 0.0 else At(s', n, i, c)) +
            Sum(0, j + 1, ProductTerms(Low(s', n), Transpose(Low(s', n)), i, c)) == M(i, c)
  {
    hide Sum, At;
    var f := ProductTerms(Low(s, n), Transpose(Low(s, n)), i, c);
    var g := ProductTerms(Low(s', n), Transpose(Low(s', n)), i, c);
    assert (if c < j then 0.0 else At(s, n, i, c)) + Sum(0, j, f) == M(i, c);
    SumLast(0, j, g);
    forall l | 0 <= l < j ensures f(l) == g(l) {
      assert Low(s, n)(i, l) == Low(s', n)(i, l);
      assert Low(s, n)(c, l) == Low(s', n)(c, l);
    }
    SumEq(0, j, f, g);
    assert g(j) == Low(s', n)(i, j) * Low(s', n)(c, j);
    if c < j {
      assert Low(s', n)(c, j) == 0.0;
    } else if c == j {
      assert Low(s', n)(i, j) * Low(s', n)(j, j) == At(s, n, i, j);
    }
  }

  lemma ColumnStep(s: seq<real>, s': seq<real>, M: Mat, n: int, j: int)
    requires 0 <= j < n && Reduced(s, M, n, j) && ColumnFactored(s', s, n, j)
    ensures Reduced(s', M, n, j + 1)
  {
    hide Sum, At;
    forall c, i | 0 <= c <= i < n
      ensures (if c < j + 1 then 0.0 else At(s', n, i, c)) +
              Sum(0, j + 1, ProductTerms(Low(s', n), Transpose(Low(s', n)), i, c)) == M(i, c)
    {
      EntryStep(s, s', M, n, j, i, c);
    }
  }

  // ----- what the outcome says about M -----

  ghost function Ones(l: int): real { 1.0 }

  lemma FactorGram(s: seq<real>, M: Mat, n: int, i: int, c: int)
    requires Reduced(s, M, n, n) && 0 <= i < n && 0 <= c < n
    requires forall i, c :: 0 <= i < n && 0 <= c < n ==> M(i, c) == M(c, i)
    ensures Product(Low(s, n), Transpose(Low(s, n)), n)(i, c) == M(i, c)
    ensures Gram(Low(s, n), Ones, n)(i, c) == M(i, c)
  {
    hide Sum, At;
    var L := Low(s, n);
    var p, q := if c <= i then i else c, if c <= i then c else i;
    assert M(p, q) == M(i, c);
    SumEq(0, n, ProductTerms(L, Transpose(L), i, c), ProductTerms(L, Transpose(L), p, q));
    SumEq(0, n, ProductTerms(L, Weighted(Ones, L), i, c), ProductTerms(L, Transpose(L), i, c));
  }

  /** Finished with every pivot positive: M is positive definite. */
  lemma SuccessDefinite(s: seq<real>, M: Mat, n: int)
    requires 0 <= n && Reduced(s, M, n, n)
    requires forall i, c :: 0 <= i < n && 0 <= c < n ==> M(i, c) == M(c, i)
    ensures PositiveDefinite(M, n)
  {
    hide Sum, Gram, Quad;
    forall i, c | 0 <= i < n && 0 <= c < n ensures M(i, c) == Gram(Low(s, n), Ones, n)(i, c) {
      FactorGram(s, M, n, i, c);
    }
    forall i | 0 <= i < n ensures Low(s, n)(i, i) != 0.0 {
      assert At(s, n, i, i) > 0.0;
    }
    hide At;
    GramDefinite(M, Low(s, n), Ones, n, Lower, 0, n);
  }

  /** The factor computed so far, completed by the identity. */
  ghost function Partial(s: seq<real>, n: int, j: int): Mat {
    (i: int, l: int) => if i <= j && l < j then Low(s, n)(i, l) else if i == l then 1.0 else 0.0
  }

  ghost function PartialWeights(s: seq<real>, n: int, j: int): Vec {
    (l: int) => if l < j then 1.0 else if l == j then At(s, n, j, j) else 0.0
  }

  lemma PartialGram(s: seq<real>, M: Mat, n: int, j: int, i: int, c: int)
    requires Reduced(s, M, n, j) && 0 <= j < n && 0 <= c <= i <= j
    ensures Gram(Partial(s, n, j), PartialWeights(s, n, j), n)(i, c) == M(i, c)
    ensures Gram(Partial(s, n, j), PartialWeights(s, n, j), n)(c, i) == M(i, c)
  {
    hide Sum, At;
    var W, d := Partial(s, n, j), PartialWeights(s, n, j);
    var f := ProductTerms(Low(s, n), Transpose(Low(s, n)), i, c);
    var g, h := ProductTerms(W, Weighted(d, W), i, c), ProductTerms(W, Weighted(d, W), c, i);
    SumEq(0, j, g, f);
    SumSplit(0, j, n, g);
    SumSingle(j, n, j, g);
    SumEq(0, n, g, h);
    assert (if c < j then 0.0 else At(s, n, i, c)) + Sum(0, j, f) == M(i, c);
  }

  /** A pivot that is not positive: a witness shows that M is not positive definite. */
  lemma FailureWitness(s: seq<real>, M: Mat, n: int, j: int) returns (x: Vec)
    requires 0 <= j < n && Reduced(s, M, n, j) && At(s, n, j, j) <= 0.0
    requires forall i, c :: 0 <= i < n && 0 <= c < n ==> M(i, c) == M(c, i)
    ensures NonZero(n, x) && Quad(M, n, x) <= 0.0
  {
    hide Sum, Gram, Quad;
    var W, d := Partial(s, n, j), PartialWeights(s, n, j);
    forall i, c | 0 <= i < n && 0 <= c < n && 0 <= i < j + 1 && 0 <= c < j + 1 ensures M(i, c) == Gram(W, d, n)(i, c) {
      if c <= i {
        PartialGram(s, M, n, j, i, c);
      } else {
        PartialGram(s, M, n, j, c, i);
      }
    }
    hide At;
    forall i | 0 <= i < n ensures W(i, i) != 0.0 {
      if i < j {
        assert W(i, i) == Low(s, n)(i, i) == At(s, n, i, i);
      }
    }
    assert IsTri(Low(s, n), n, Lower);
    forall i, l | 0 <= i < l < n ensures W(i, l) == 0.0 {
      assert Low(s, n)(i, l) == 0.0;
    }
    x := GramIndefinite(M, W, d, n, Lower, 0, j + 1, j);
  }

  // ----- the code -----

  method ZeroUpper(A: array<real>, n: int)
    requires Holds(A, n, n, n)
    modifies A
    ensures forall r, c {:trigger At(A[..], n, r, c)} :: 0 <= r < n ==>
      At(A[..], n, r, c) == if r < c < n then 0.0 else old(At(A[..], n, r, c))
  {
    hide At;
    HoldsLess(A, n, n, n);
    ghost var S := A[..];
    var i := 0;
    while i < n - 1
      invariant 0 <= i && (i == 0 || i <= n - 1)
      invariant forall r, c {:trigger At(A[..], n, r, c)} :: 0 <= r < n ==>
        At(A[..], n, r, c) == if r < i && r < c < n then 0.0 else At(S, n, r, c)
    {
      var j := i + 1;
      while j < n
        invariant i + 1 <= j <= n
        invariant forall r, c {:trigger At(A[..], n, r, c)} :: 0 <= r < n ==>
          At(A[..], n, r, c) == if (r < i && r < c < n) || (r == i && i < c < j) then 0.0 else At(S, n, r, c)
      {
        Put(A, n, i, j, 0.0);
        j := j + 1;
      }
      i := i + 1;
    }
  }

  /** The updates of the columns behind column j. */
  method UpdateTrailing(A: array<real>, n: int, j: int)
    requires 0 <= j < n && Holds(A, n, n, n)
    modifies A
    ensures forall i, c {:trigger At(A[..], n, i, c)} :: 0 <= i < n ==>
      At(A[..], n, i, c) ==
      if j < c <= i then old(At(A[..], n, i, c)) - old(At(A[..], n, i, j)) * old(At(A[..], n, c, j))
      else old(At(A[..], n, i, c))
  {
    hide At;
    HoldsLess(A, n, n, n);
    ghost var S := A[..];
    var k := j + 1;
    while k < n
      invariant j + 1 <= k <= n
      invariant forall i, c {:trigger At(A[..], n, i, c)} :: 0 <= i < n ==>
        At(A[..], n, i, c) ==
        if j < c < k && c <= i then At(S, n, i, c) - At(S, n, i, j) * At(S, n, c, j) else At(S, n, i, c)
    {
      var v := Get(A, n, k, j);
      AddColumn(false, A, n, k, A, n, j, k, n, -v);
      k := k + 1;
    }
  }

  method FactorColumn(sqrt: real -> real, A: array<real>, n: int, j: int)
    requires IsSqrt(sqrt) && 0 <= j < n && Holds(A, n, n, n) && At(A[..], n, j, j) > 0.0
    modifies A
    ensures ColumnFactored(A[..], old(A[..]), n, j)
  {
    hide At, ColumnFactored;
    ghost var S := A[..];
    var Ljj := DividePivot(sqrt, A, n, j);
    ghost var t := A[..];
    UpdateTrailing(A, n, j);
    FactorColumnEffect(A[..], t, S, n, j, Ljj, 1.0 / Ljj);
  }

  /** The pivot becomes its square root, and the column below it is divided by that. */
  method DividePivot(sqrt: real -> real, A: array<real>, n: int, j: int) returns (Ljj: real)
    requires IsSqrt(sqrt) && 0 <= j < n && Holds(A, n, n, n) && At(A[..], n, j, j) > 0.0
    modifies A
    ensures Ljj > 0.0 && Ljj * Ljj == old(At(A[..], n, j, j))
    ensures forall i, c {:trigger At(A[..], n, i, c)} :: 0 <= i < n ==>
      At(A[..], n, i, c) ==
      if c == j && i == j then Ljj
      else if c == j && j < i then 1.0 / Ljj * old(At(A[..], n, i, c)) else old(At(A[..], n, i, c))
  {
    hide At;
    HoldsLess(A, n, n, n);
    var Ajj := Get(A, n, j, j);
    Ljj := sqrt(Ajj);
    Put(A, n, j, j, Ljj);
    var invLjj := 1.0 / Ljj;
    ScaleColumn(false, A, n, j, j + 1, n, invLjj);
  }

  lemma FactorColumnEffect(s': seq<real>, t: seq<real>, s: seq<real>, n: int, j: int, p: real, q: real)
    requires |s'| == |t| == |s| && 0 <= j < n && p > 0.0 && q == 1.0 / p && p * p == At(s, n, j, j)
    requires forall i, c {:trigger At(t, n, i, c)} :: 0 <= i < n ==>
      At(t, n, i, c) ==
      if c == j && i == j then p else if c == j && j < i then q * At(s, n, i, c) else At(s, n, i, c)
    requires forall i, c {:trigger At(s', n, i, c)} :: 0 <= i < n ==>
      At(s', n, i, c) == if j < c <= i then At(t, n, i, c) - At(t, n, i, j) * At(t, n, c, j) else At(t, n, i, c)
    ensures ColumnFactored(s', s, n, j)
  {
    hide At;
    forall i | j < i < n ensures At(s', n, i, j) * At(s', n, j, j) == At(s, n, i, j) {
      Reciprocal(p, At(s, n, i, j));
    }
  }

  method Cholesky(sqrt: real -> real, A: array<real>, n: int, onlyWriteLowerPart: bool) returns (ret: int)
    requires IsSqrt(sqrt) && Holds(A, n, n, n)
    modifies A
    ensures ret == 0 || ret == -1
    ensures ret == 0 <==> PositiveDefinite(Sym(Entries(old(A[..]), n), Lower), n)
    ensures ret == 0 ==> IsFactor(Low(A[..], n), Sym(Entries(old(A[..]), n), Lower), n)
    ensures forall r, c :: 0 <= r < n && r < c ==>
      At(A[..], n, r, c) == if onlyWriteLowerPart || n <= c then old(At(A[..], n, r, c)) else 0.0
  {
    hide Sum, At, PositiveDefinite, IsFactor;
    HoldsLess(A, n, n, n);
    ghost var S := A[..];
    ghost var M := Sym(Entries(S, n), Lower);
    if !onlyWriteLowerPart {
      ZeroUpper(A, n);
    }
    StartReduced(A[..], S, n);
    var j := 0;
    while j < n
      invariant 0 <= j <= n && Reduced(A[..], M, n, j)
      invariant forall r, c {:trigger At(A[..], n, r, c)} :: 0 <= r < n && r < c ==>
        At(A[..], n, r, c) == if onlyWriteLowerPart || n <= c then At(S, n, r, c) else 0.0
    {
      hide Reduced;
      var Ajj := Get(A, n, j, j);
      if Ajj <= 0.0 {
        ghost var x := FailureWitness(A[..], M, n, j);
        NotDefinite(M, n, x);
        return -1;
      }
      ghost var s := A[..];
      FactorColumn(sqrt, A, n, j);
      ColumnStep(s, A[..], M, n, j);
      j := j + 1;
    }
    SuccessDefinite(A[..], M, n);
    SuccessFactor(A[..], M, n);
    return 0;
  }

  /** L * L' == M, with a positive diagonal. */
  ghost predicate IsFactor(L: Mat, M: Mat, n: int) {
    && IsTri(L, n, Lower)
    && (forall i :: 0 <= i < n ==> L(i, i) > 0.0)
    && (forall i, c :: 0 <= i < n && 0 <= c < n ==> Product(L, Transpose(L), n)(i, c) == M(i, c))
  }

  lemma NotDefinite(M: Mat, n: int, x: Vec)
    requires NonZero(n, x) && Quad(M, n, x) <= 0.0
    ensures !PositiveDefinite(M, n)
  {
    hide Quad;
  }

  lemma StartReduced(s: seq<real>, S: seq<real>, n: int)
    requires forall i, c {:trigger At(s, n, i, c)} :: 0 <= c <= i < n ==> At(s, n, i, c) == At(S, n, i, c)
    ensures Reduced(s, Sym(Entries(S, n), Lower), n, 0)
  {
    hide At;
  }

  lemma SuccessFactor(s: seq<real>, M: Mat, n: int)
    requires Reduced(s, M, n, n)
    requires forall i, c :: 0 <= i < n && 0 <= c < n ==> M(i, c) == M(c, i)
    ensures IsFactor(Low(s, n), M, n)
  {
    hide Sum, Product;
    forall i, c | 0 <= i < n && 0 <= c < n
      ensures Product(Low(s, n), Transpose(Low(s, n)), n)(i, c) == M(i, c)
    {
      FactorGram(s, M, n, i, c);
    }
    forall i | 0 <= i < n ensures Low(s, n)(i, i) > 0.0 {
      assert At(s, n, i, i) > 0.0;
    }
  }
}
