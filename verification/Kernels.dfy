// The vector helpers behind the Level 3 routines. A build with vector
// instructions works through four lanes at a time and finishes with the scalar
// loop; a build without them runs the scalar loop alone. The flag `lanes` picks
// the build; the contracts do not depend on it.

module Kernels {
  import opened Sums
  import opened Storage

  /** x[xo..xo+n] := alpha * x[xo..xo+n] */
  method VecScale(lanes: bool, x: array<real>, xo: int, n: int, alpha: real)
    requires n > 0 ==> 0 <= xo && xo + n <= x.Length
    modifies x
    ensures forall p :: 0 <= p < x.Length ==>
      x[p] == if xo <= p < xo + n then alpha * old(x[p]) else old(x[p])
  {
    var i := 0;
    if lanes {
      while i + 4 <= n
        invariant 0 <= i && (i == 0 || i <= n)
        invariant forall p :: 0 <= p < x.Length ==>
          x[p] == if xo <= p < xo + i then alpha * old(x[p]) else old(x[p])
      {
        var q := xo + i;
        x[q], x[q + 1], x[q + 2], x[q + 3] := x[q] * alpha, x[q + 1] * alpha, x[q + 2] * alpha, x[q + 3] * alpha;
        i := i + 4;
      }
    }
    while i < n
      invariant 0 <= i && (i == 0 || i <= n)
      invariant forall p :: 0 <= p < x.Length ==>
        x[p] == if xo <= p < xo + i then alpha * old(x[p]) else old(x[p])
    {
      x[xo + i] := x[xo + i] * alpha;
      i := i + 1;
    }
  }

  /** x[xo..xo+n] := 0 */
  method VecZero(lanes: bool, x: array<real>, xo: int, n: int)
    requires n > 0 ==> 0 <= xo && xo + n <= x.Length
    modifies x
    ensures forall p :: 0 <= p < x.Length ==> x[p] == if xo <= p < xo + n then 0.0 else old(x[p])
  {
    var i := 0;
    if lanes {
      while i + 4 <= n
        invariant 0 <= i && (i == 0 || i <= n)
        invariant forall p :: 0 <= p < x.Length ==> x[p] == if xo <= p < xo + i then 0.0 else old(x[p])
      {
        var q := xo + i;
        x[q], x[q + 1], x[q + 2], x[q + 3] := 0.0, 0.0, 0.0, 0.0;
        i := i + 4;
      }
    }
    while i < n
      invariant 0 <= i && (i == 0 || i <= n)
      invariant forall p :: 0 <= p < x.Length ==> x[p] == if xo <= p < xo + i then 0.0 else old(x[p])
    {
      x[xo + i] := 0.0;
      i := i + 1;
    }
  }

  function AddScaled(y: real, alpha: real, x: real): real { y + alpha * x }

  /** y[yo..yo+n] := y[yo..yo+n] + alpha * x[xo..xo+n], on disjoint stretches */
  method VecAxpy(lanes: bool, y: array<real>, yo: int, x: array<real>, xo: int, n: int, alpha: real)
    requires n > 0 ==> 0 <= yo && yo + n <= y.Length && 0 <= xo && xo + n <= x.Length
    requires y != x || xo + n <= yo || yo + n <= xo
    modifies y
    ensures forall p :: 0 <= p < y.Length ==>
      y[p] == if yo <= p < yo + n then AddScaled(old(y[p]), alpha, old(x[xo + (p - yo)])) else old(y[p])
  {
    hide AddScaled;
    var i := 0;
    if lanes {
      while i + 4 <= n
        invariant 0 <= i && (i == 0 || i <= n)
        invariant forall p :: 0 <= p < y.Length ==>
          y[p] == if yo <= p < yo + i then AddScaled(old(y[p]), alpha, old(x[xo + (p - yo)])) else old(y[p])
      {
        var q, s := yo + i, xo + i;
        y[q], y[q + 1], y[q + 2], y[q + 3] :=
          AddScaled(y[q], alpha, x[s]), AddScaled(y[q + 1], alpha, x[s + 1]),
          AddScaled(y[q + 2], alpha, x[s + 2]), AddScaled(y[q + 3], alpha, x[s + 3]);
        i := i + 4;
      }
    }
    while i < n
      invariant 0 <= i && (i == 0 || i <= n)
      invariant forall p :: 0 <= p < y.Length ==>
        y[p] == if yo <= p < yo + i then AddScaled(old(y[p]), alpha, old(x[xo + (p - yo)])) else old(y[p])
    {
      y[yo + i] := AddScaled(y[yo + i], alpha, x[xo + i]);
      i := i + 1;
    }
  }

  /** y[yo..yo+n] := beta * y[yo..yo+n] + alpha * x[xo..xo+n]; y is not read when beta is 0 */
  method VecAxpby(lanes: bool, y: array<real>, yo: int, x: array<real>, xo: int, n: int, alpha: real, beta: real)
    requires n > 0 ==> 0 <= yo && yo + n <= y.Length && 0 <= xo && xo + n <= x.Length
    requires y != x
    modifies y
    ensures forall p :: 0 <= p < y.Length ==>
      y[p] == if yo <= p < yo + n then beta * old(y[p]) + alpha * x[xo + (p - yo)] else old(y[p])
  {
    if beta == 0.0 {
      VecCopy(lanes, y, yo, x, xo, n, alpha);
    } else {
      VecBlend(lanes, y, yo, x, xo, n, alpha, beta);
    }
  }

  /** The branch of VecAxpby for beta == 0. */
  method VecCopy(lanes: bool, y: array<real>, yo: int, x: array<real>, xo: int, n: int, alpha: real)
    requires n > 0 ==> 0 <= yo && yo + n <= y.Length && 0 <= xo && xo + n <= x.Length
    requires y != x
    modifies y
    ensures forall p :: 0 <= p < y.Length ==>
      y[p] == if yo <= p < yo + n then alpha * x[xo + (p - yo)] else old(y[p])
  {
    var i := 0;
    if lanes {
      while i + 4 <= n
        invariant 0 <= i && (i == 0 || i <= n)
        invariant forall p :: 0 <= p < y.Length ==>
          y[p] == if yo <= p < yo + i then alpha * x[xo + (p - yo)] else old(y[p])
      {
        var q, s := yo + i, xo + i;
        y[q], y[q + 1], y[q + 2], y[q + 3] := alpha * x[s], alpha * x[s + 1], alpha * x[s + 2], alpha * x[s + 3];
        i := i + 4;
      }
    }
    while i < n
      invariant 0 <= i && (i == 0 || i <= n)
      invariant forall p :: 0 <= p < y.Length ==>
        y[p] == if yo <= p < yo + i then alpha * x[xo + (p - yo)] else old(y[p])
    {
      y[yo + i] := alpha * x[xo + i];
      i := i + 1;
    }
  }

  function Blended(beta: real, u: real, alpha: real, v: real): real { beta * u + alpha * v }

  /** The branch of VecAxpby for beta != 0. */
  method VecBlend(lanes: bool, y: array<real>, yo: int, x: array<real>, xo: int, n: int, alpha: real, beta: real)
    requires n > 0 ==> 0 <= yo && yo + n <= y.Length && 0 <= xo && xo + n <= x.Length
    requires y != x
    modifies y
    ensures forall p :: 0 <= p < y.Length ==>
      y[p] == if yo <= p < yo + n then Blended(beta, old(y[p]), alpha, x[xo + (p - yo)]) else old(y[p])
  {
    hide Blended;
    var i := 0;
    if lanes {
      while i + 4 <= n
        invariant 0 <= i && (i == 0 || i <= n)
        invariant forall p :: 0 <= p < y.Length ==>
          y[p] == if yo <= p < yo + i then Blended(beta, old(y[p]), alpha, x[xo + (p - yo)]) else old(y[p])
      {
        var q, s := yo + i, xo + i;
        y[q], y[q + 1], y[q + 2], y[q + 3] :=
          Blended(beta, y[q], alpha, x[s]), Blended(beta, y[q + 1], alpha, x[s + 1]),
          Blended(beta, y[q + 2], alpha, x[s + 2]), Blended(beta, y[q + 3], alpha, x[s + 3]);
        i := i + 4;
      }
    }
    while i < n
      invariant 0 <= i && (i == 0 || i <= n)
      invariant forall p :: 0 <= p < y.Length ==>
        y[p] == if yo <= p < yo + i then Blended(beta, old(y[p]), alpha, x[xo + (p - yo)]) else old(y[p])
    {
      y[yo + i] := Blended(beta, y[yo + i], alpha, x[xo + i]);
      i := i + 1;
    }
  }

  ghost function DotTerms(x: seq<real>, xo: int, y: seq<real>, yo: int): Vec {
    (i: int) => if 0 <= xo + i < |x| && 0 <= yo + i < |y| then x[xo + i] * y[yo + i] else 0.0
  }

  function TermOf(x: real, y: real): real { x * y }

  lemma DotTerm(x: array<real>, xo: int, y: array<real>, yo: int, n: int, i: int, f: Vec)
    requires 0 <= yo && yo + n <= y.Length && 0 <= xo && xo + n <= x.Length && 0 <= i < n
    requires f == DotTerms(x[..], xo, y[..], yo)
    ensures f(i) == TermOf(x[xo + i], y[yo + i])
  {
  }

  /** The inner product of two stretches; the lanes keep four partial sums. */
  method VecDot(lanes: bool, x: array<real>, xo: int, y: array<real>, yo: int, n: int) returns (sum: real)
    requires n > 0 ==> 0 <= yo && yo + n <= y.Length && 0 <= xo && xo + n <= x.Length
    ensures sum == Sum(0, n, DotTerms(x[..], xo, y[..], yo))
  {
    hide Sum, DotTerms, TermOf;
    ghost var f := DotTerms(x[..], xo, y[..], yo);
    SumEmpty(0, f);
    var i := 0;
    sum := 0.0;
    if lanes {
      var a, b, c, d := 0.0, 0.0, 0.0, 0.0;
      while i + 4 <= n
        invariant 0 <= i && (i == 0 || i <= n)
        invariant a + b + c + d == Sum(0, i, f)
      {
        SumFour(i, f);
        DotTerm(x, xo, y, yo, n, i, f);
        DotTerm(x, xo, y, yo, n, i + 1, f);
        DotTerm(x, xo, y, yo, n, i + 2, f);
        DotTerm(x, xo, y, yo, n, i + 3, f);
        a, b, c, d := a + TermOf(x[xo + i], y[yo + i]), b + TermOf(x[xo + i + 1], y[yo + i + 1]),
          c + TermOf(x[xo + i + 2], y[yo + i + 2]), d + TermOf(x[xo + i + 3], y[yo + i + 3]);
        i := i + 4;
      }
      sum := a + b + c + d;
    }
    while i < n
      invariant 0 <= i && (i == 0 || i <= n)
      invariant sum == Sum(0, i, f)
    {
      SumLast(0, i, f);
      DotTerm(x, xo, y, yo, n, i, f);
      sum := sum + TermOf(x[xo + i], y[yo + i]);
      i := i + 1;
    }
  }

  lemma SumFour(i: int, f: Vec)
    requires 0 <= i
    ensures Sum(0, i + 4, f) == Sum(0, i, f) + f(i) + f(i + 1) + f(i + 2) + f(i + 3)
  {
    assert Sum(0, i + 2, f) == Sum(0, i, f) + f(i) + f(i + 1);
  }

  // ----- the same operations on columns, as the matrix routines call them -----

  /** Rows r0..r1 of column j := f times themselves. */
  method ScaleColumn(lanes: bool, a: array<real>, ld: int, j: int, r0: int, r1: int, f: real)
    requires 0 <= j && 0 <= r0 <= r1 && Holds(a, ld, r1, j + 1)
    modifies a
    ensures forall r, c {:trigger At(a[..], ld, r, c)} :: 0 <= r < ld ==>
      At(a[..], ld, r, c) ==
      if c == j && r0 <= r < r1 then f * old(At(a[..], ld, r, c)) else old(At(a[..], ld, r, c))
  {
    Stretch(a, ld, j, r0, r1);
    VecScale(lanes, a, r0 + j * ld, r1 - r0, f);
    forall r, c | 0 <= r < ld
      ensures At(a[..], ld, r, c) ==
        if c == j && r0 <= r < r1 then f * old(At(a[..], ld, r, c)) else old(At(a[..], ld, r, c))
    {
      ColumnCells(ld, r0, r1, j, r, c);
    }
  }

  /** Rows r0..r1 of column j := 0. */
  method ZeroColumn(lanes: bool, a: array<real>, ld: int, j: int, r0: int, r1: int)
    requires 0 <= j && 0 <= r0 <= r1 && Holds(a, ld, r1, j + 1)
    modifies a
    ensures forall r, c {:trigger At(a[..], ld, r, c)} :: 0 <= r < ld ==>
      At(a[..], ld, r, c) == if c == j && r0 <= r < r1 then 0.0 else old(At(a[..], ld, r, c))
  {
    Stretch(a, ld, j, r0, r1);
    VecZero(lanes, a, r0 + j * ld, r1 - r0);
    forall r, c | 0 <= r < ld
      ensures At(a[..], ld, r, c) == if c == j && r0 <= r < r1 then 0.0 else old(At(a[..], ld, r, c))
    {
      ColumnCells(ld, r0, r1, j, r, c);
    }
  }

  /** Rows r0..r1 of column j of y += f times those rows of column k of x; y and x may be the same matrix. */
  method AddColumn(lanes: bool, y: array<real>, ldy: int, j: int, x: array<real>, ldx: int, k: int,
                   r0: int, r1: int, f: real)
    requires 0 <= j && 0 <= k && 0 <= r0 <= r1
    requires Holds(y, ldy, r1, j + 1) && Holds(x, ldx, r1, k + 1)
    requires y != x || (ldy == ldx && j != k)
    modifies y
    ensures forall r, c {:trigger At(y[..], ldy, r, c)} :: 0 <= r < ldy ==>
      At(y[..], ldy, r, c) ==
      if c == j && r0 <= r < r1 then old(At(y[..], ldy, r, c)) + f * old(At(x[..], ldx, r, k))
      else old(At(y[..], ldy, r, c))
  {
    Stretch(y, ldy, j, r0, r1);
    Stretch(x, ldx, k, r0, r1);
    ColumnsApart(ldy, j, k, r0, r1);
    var yo, xo := r0 + j * ldy, r0 + k * ldx;
    VecAxpy(lanes, y, yo, x, xo, r1 - r0, f);
    forall r, c | 0 <= r < ldy
      ensures At(y[..], ldy, r, c) ==
        if c == j && r0 <= r < r1 then old(At(y[..], ldy, r, c)) + f * old(At(x[..], ldx, r, k))
        else old(At(y[..], ldy, r, c))
    {
      ColumnCells(ldy, r0, r1, j, r, c);
      if c == j && r0 <= r < r1 {
        assert xo + ((r + j * ldy) - yo) == r + k * ldx;
      }
    }
  }

  /** Rows r0..r1 of column j of y := beta times themselves plus alpha times those of column k of x. */
  method BlendColumn(lanes: bool, y: array<real>, ldy: int, j: int, x: array<real>, ldx: int, k: int,
                     r0: int, r1: int, alpha: real, beta: real)
    requires 0 <= j && 0 <= k && 0 <= r0 <= r1
    requires Holds(y, ldy, r1, j + 1) && Holds(x, ldx, r1, k + 1)
    requires y != x
    modifies y
    ensures forall r, c {:trigger At(y[..], ldy, r, c)} :: 0 <= r < ldy ==>
      At(y[..], ldy, r, c) ==
      if c == j && r0 <= r < r1 then beta * old(At(y[..], ldy, r, c)) + alpha * old(At(x[..], ldx, r, k))
      else old(At(y[..], ldy, r, c))
  {
    Stretch(y, ldy, j, r0, r1);
    Stretch(x, ldx, k, r0, r1);
    var yo, xo := r0 + j * ldy, r0 + k * ldx;
    VecAxpby(lanes, y, yo, x, xo, r1 - r0, alpha, beta);
    forall r, c | 0 <= r < ldy
      ensures At(y[..], ldy, r, c) ==
        if c == j && r0 <= r < r1 then beta * old(At(y[..], ldy, r, c)) + alpha * old(At(x[..], ldx, r, k))
        else old(At(y[..], ldy, r, c))
    {
      ColumnCells(ldy, r0, r1, j, r, c);
      if c == j && r0 <= r < r1 {
        assert xo + ((r + j * ldy) - yo) == r + k * ldx;
      }
    }
  }

  /** The inner product of two columns over rows r0..r1. */
  method DotColumns(lanes: bool, x: array<real>, ldx: int, k: int, y: array<real>, ldy: int, j: int,
                    r0: int, r1: int) returns (sum: real)
    requires 0 <= j && 0 <= k && 0 <= r0 <= r1
    requires Holds(y, ldy, r1, j + 1) && Holds(x, ldx, r1, k + 1)
    ensures sum == Sum(r0, r1, Times(Col(x[..], ldx, k), Col(y[..], ldy, j)))
  {
    Stretch(y, ldy, j, r0, r1);
    hide Sum;
    Stretch(x, ldx, k, r0, r1);
    sum := VecDot(lanes, x, r0 + k * ldx, y, r0 + j * ldy, r1 - r0);
    SumShift(0, r1 - r0, r0, DotTerms(x[..], r0 + k * ldx, y[..], r0 + j * ldy),
             Times(Col(x[..], ldx, k), Col(y[..], ldy, j)));
  }

  lemma ColumnsApart(ld: int, j: int, k: int, r0: int, r1: int)
    requires 0 <= r0 <= r1 <= ld
    ensures j < k ==> r1 + j * ld <= r0 + k * ld
    ensures k < j ==> r1 + k * ld <= r0 + j * ld
  {
    if j < k {
      MulStep(ld, j, k);
    } else if k < j {
      MulStep(ld, k, j);
    }
  }

  lemma Stretch(a: array<real>, ld: int, j: int, r0: int, r1: int)
    requires 0 <= j && 0 <= r0 <= r1 && Holds(a, ld, r1, j + 1)
    ensures 0 <= r0 + j * ld <= r1 + j * ld
    ensures r0 < r1 ==> r1 + j * ld <= a.Length
  {
    assert j * ld >= 0;
  }
}
