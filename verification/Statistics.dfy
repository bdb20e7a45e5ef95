// Two vector functions of the statistics module: the exponentially weighted variance and
// ranks with ties.

module Statistics {
  import opened Options
  import opened Sums

  ghost function Power(b: real, k: nat): real { if k == 0 then 1.0 else b * Power(b, k - 1) }

  /** The factor meant by alpha: alpha itself up to 1, and above 1 the factor of a window of that span. */
  ghost predicate Smoothing(alpha: real, a: real) {
    && (alpha <= 1.0 ==> a == alpha)
    && (alpha > 1.0 ==> a * (alpha + 1.0) == 2.0)
  }

  /** There is exactly one such factor. */
  lemma SmoothingFound(alpha: real)
    ensures forall a :: Smoothing(alpha, a) <==> a == Decay(alpha)
  {
    if alpha > 1.0 {
      var r := 2.0 / (alpha + 1.0);
      assert r * (alpha + 1.0) == 2.0;
      forall a | Smoothing(alpha, a) ensures a == r {
        assert (a - r) * (alpha + 1.0) == 0.0;
      }
    }
  }

  /** With a span s the observations have, on average, the age (s - 1) / 2: the mean age with factor a is (1 - a) / a. */
  lemma SpanAge(s: real, a: real)
    requires s > 1.0 && Smoothing(s, a)
    ensures 0.0 < a < 1.0 && (1.0 - a) / a == (s - 1.0) / 2.0
  {
    DecayRange(s);
    SmoothingFound(s);
    assert (1.0 - a) * 2.0 == a * (s - 1.0);
    var q := (1.0 - a) / a;
    assert q * a == 1.0 - a;
    assert (q - (s - 1.0) / 2.0) * a == 0.0;
  }

  /** What alpha stands for, as a number. */
  function Decay(alpha: real): real { if alpha > 1.0 then 2.0 / (alpha + 1.0) else alpha }

  /** The weight of observation k at index i: the first one carries what is left of the start. */
  ghost function Weight(a: real, i: nat, k: int): real {
    if k == 0 then Power(1.0 - a, i)
    else if 0 < k <= i then a * Power(1.0 - a, i - k)
    else 0.0
  }

  ghost function Discounted(a: real, i: nat, f: Vec): Vec { (k: int) => Weight(a, i, k) * f(k) }

  /** The weighted mean of f over the observations 0..i. */
  ghost function Mean(a: real, i: nat, f: Vec): real { Sum(0, i + 1, Discounted(a, i, f)) }

  ghost function Deviation(x: Vec, e: real): Vec { (k: int) => Square(x(k) - e) }

  /** The weighted variance around the weighted mean. */
  ghost function Variance(a: real, i: nat, x: Vec): real { Mean(a, i, Deviation(x, Mean(a, i, x))) }

  lemma MeanStart(a: real, f: Vec)
    ensures Mean(a, 0, f) == f(0)
  {
    hide Sum;
    var g := Discounted(a, 0, f);
    assert Weight(a, 0, 0) == 1.0;
    assert g(0) == f(0);
    SumLast(0, 0, g);
    SumEmpty(0, g);
  }

  /** A running value u takes in a new one. */
  function Mix(a: real, u: real, y: real): real { a * y + (1.0 - a) * u }

  /** Every mean decays by 1 - a and takes in a times the new observation. */
  lemma MeanStep(a: real, i: nat, f: Vec)
    ensures Mean(a, i + 1, f) == Mix(a, Mean(a, i, f), f(i + 1))
  {
    hide Sum;
    var g, h := Discounted(a, i + 1, f), Discounted(a, i, f);
    EarlierTerms(a, i, f);
    LastTerm(a, i, f);
    hide Discounted, Weight, Power;
    SumLast(0, i + 1, g);
    SumScale(0, i + 1, 1.0 - a, h, g);
  }

  lemma EarlierTerms(a: real, i: nat, f: Vec)
    ensures forall k :: 0 <= k < i + 1 ==> Discounted(a, i + 1, f)(k) == (1.0 - a) * Discounted(a, i, f)(k)
  {
    forall k | 0 <= k < i + 1 ensures Discounted(a, i + 1, f)(k) == (1.0 - a) * Discounted(a, i, f)(k) {
      WeightDecays(a, i, k);
      hide Weight, Power;
      Reorder(Weight(a, i + 1, k), 1.0 - a, Weight(a, i, k), f(k));
    }
  }

  lemma LastTerm(a: real, i: nat, f: Vec)
    ensures Discounted(a, i + 1, f)(i + 1) == a * f(i + 1)
  {
    assert Weight(a, i + 1, i + 1) == a;
    hide Weight, Power;
  }

  lemma WeightDecays(a: real, i: nat, k: nat)
    requires k <= i
    ensures Weight(a, i + 1, k) == (1.0 - a) * Weight(a, i, k)
  {
  }

  lemma Reorder(w: real, x: real, y: real, z: real)
    requires w == x * y
    ensures w * z == x * (y * z)
  {
  }

  ghost function One(k: int): real { 1.0 }

  ghost function Squares(x: Vec): Vec { (k: int) => Square(x(k)) }

  lemma {:induction false} MeanOfOne(a: real, i: nat)
    ensures Mean(a, i, One) == 1.0
  {
    hide Mean;
    if i == 0 {
      MeanStart(a, One);
    } else {
      MeanOfOne(a, i - 1);
      MeanStep(a, i - 1, One);
    }
  }

  /** A mean of squared deviations from e, by the mean of the squares and the mean. */
  ghost function Around(e: real, squares: real, mean: real): real { squares - 2.0 * e * mean + Square(e) }

  /** The weighted mean of squared deviations, for any centre. */
  lemma {:induction false} MeanOfDeviation(a: real, i: nat, x: Vec, e: real)
    ensures Mean(a, i, Deviation(x, e)) == Around(e, Mean(a, i, Squares(x)), Mean(a, i, x))
  {
    var d, q := Deviation(x, e), Squares(x);
    ExpandSquare(x(i), e);
    assert d(i) == Around(e, q(i), x(i));
    hide Mean, Square, Deviation, Squares, Around, Mix;
    if i == 0 {
      MeanStart(a, d);
      MeanStart(a, q);
      MeanStart(a, x);
    } else {
      MeanOfDeviation(a, i - 1, x, e);
      MeanStep(a, i - 1, d);
      MeanStep(a, i - 1, q);
      MeanStep(a, i - 1, x);
      Combine(a, Mean(a, i - 1, q), Mean(a, i - 1, x), e, q(i), x(i));
    }
  }

  lemma ExpandSquare(y: real, e: real)
    ensures Square(y - e) == Square(y) - 2.0 * e * y + Square(e)
  {
    assert (y - e) * (y - e) == y * (y - e) - e * (y - e);
    assert y * (y - e) == y * y - y * e;
    assert e * (y - e) == e * y - e * e;
  }

  lemma Combine(a: real, q: real, m: real, e: real, t: real, y: real)
    ensures Mix(a, Around(e, q, m), Around(e, t, y)) == Around(e, Mix(a, q, t), Mix(a, m, y))
  {
    var b, s := 1.0 - a, Square(e);
    assert b * (q - 2.0 * e * m + s) == b * q - 2.0 * e * (b * m) + b * s;
    assert a * (t - 2.0 * e * y + s) == a * t - 2.0 * e * (a * y) + a * s;
    assert b * s + a * s == s;
    assert 2.0 * e * (b * m + a * y) == 2.0 * e * (b * m) + 2.0 * e * (a * y);
  }

  /** The recurrence for the variance. */
  lemma VarianceStep(a: real, i: nat, x: Vec)
    ensures Variance(a, 0, x) == 0.0
    ensures Variance(a, i + 1, x) == NextVariance(a, x(i + 1) - Mean(a, i, x), Variance(a, i, x))
  {
    var q := Squares(x);
    var e, e', y := Mean(a, i, x), Mean(a, i + 1, x), x(i + 1);
    assert q(i + 1) == Square(y);
    var d0 := Deviation(x, Mean(a, 0, x));
    assert d0(0) == Square(x(0) - Mean(a, 0, x));
    hide Mean, Squares, Deviation, Around, Mix, NextVariance;
    MeanStart(a, d0);
    MeanStart(a, x);
    MeanOfDeviation(a, i, x, e);
    MeanOfDeviation(a, i + 1, x, e');
    MeanStep(a, i, x);
    MeanStep(a, i, q);
    TwoMeans(a, e, y, Mean(a, i, q));
  }

  /** The mean moves from e to e', and the mean of squares moves on likewise. */
  lemma TwoMeans(a: real, e: real, y: real, q: real)
    ensures var e' := Mix(a, e, y);
      Around(e', Mix(a, q, Square(y)), e') == NextVariance(a, y - e, Around(e, q, e))
  {
    var e' := Mix(a, e, y);
    AroundItself(e', Mix(a, q, Square(y)));
    AroundItself(e, q);
    hide Around;
    OneMore(a, e, y, q);
  }

  lemma AroundItself(e: real, q: real)
    ensures Around(e, q, e) == q - Square(e)
  {
    assert 2.0 * e * e == 2.0 * (e * e);
  }

  lemma OneMore(a: real, e: real, y: real, q: real)
    ensures Mix(a, q, Square(y)) - Square(Mix(a, e, y)) == NextVariance(a, y - e, q - Square(e))
  {
    var b := 1.0 - a;
    SquareOfSum(b, e, a, y);
    ExpandSquare(y, e);
    var ee, ey, yy := Square(e), e * y, Square(y);
    assert Square(y - e) == yy - 2.0 * ey + ee;
    assert Square(Mix(a, e, y)) == (b * b) * ee + 2.0 * ((a * b) * ey) + (a * a) * yy;
    hide Square;
    Gathered(a, b, q, ee, ey, yy);
    NextVarianceSquare(a, y - e, q - ee);
    hide NextVariance;
    assert Mix(a, q, yy) == b * q + a * yy;
  }

  lemma NextVarianceSquare(a: real, d: real, v: real)
    ensures NextVariance(a, d, v) == (1.0 - a) * (v + a * Square(d))
  {
    assert a * d * d == a * (d * d);
  }

  lemma SquareOfSum(b: real, e: real, a: real, y: real)
    ensures (b * e + a * y) * (b * e + a * y) == (b * b) * (e * e) + 2.0 * ((a * b) * (e * y)) + (a * a) * (y * y)
  {
    var u, w := b * e, a * y;
    assert (u + w) * (u + w) == u * u + 2.0 * (u * w) + w * w;
    assert u * u == (b * b) * (e * e);
    assert w * w == (a * a) * (y * y);
    assert u * w == (a * b) * (e * y);
  }

  lemma Gathered(a: real, b: real, q: real, ee: real, ey: real, yy: real)
    requires b == 1.0 - a
    ensures (b * q + a * yy) - ((b * b) * ee + 2.0 * ((a * b) * ey) + (a * a) * yy) ==
      b * ((q - ee) + a * (yy - 2.0 * ey + ee))
  {
    assert b * ((q - ee) + a * (yy - 2.0 * ey + ee)) ==
      b * q - b * ee + (a * b) * yy - 2.0 * ((a * b) * ey) + (a * b) * ee;
    assert (a * b) * yy == a * yy - (a * a) * yy;
    assert (b * b) * ee == b * ee - (a * b) * ee;
  }

  lemma {:induction false} PowerPositive(b: real, k: nat)
    requires b >= 0.0
    ensures Power(b, k) >= 0.0
  {
    if k > 0 {
      PowerPositive(b, k - 1);
    }
  }

  /** A weighted variance is never negative, whatever the non-negative alpha. */
  lemma VarianceNotNegative(alpha: real, a: real, i: nat, x: Vec)
    requires alpha >= 0.0 && Smoothing(alpha, a)
    ensures Variance(a, i, x) >= 0.0
  {
    hide Sum;
    SmoothingFound(alpha);
    DecayRange(alpha);
    var d := Deviation(x, Mean(a, i, x));
    forall k | 0 <= k < i + 1 ensures Discounted(a, i, d)(k) >= 0.0 {
      WeightPositive(a, i, k);
      NotNegative(Weight(a, i, k), x(k) - Mean(a, i, x));
    }
    SumNonNegative(0, i + 1, Discounted(a, i, d));
  }

  /**
   * The weights, observation by observation: the newest one has weight a, each earlier one 1 - a times the weight of the
   * next, and the first one what is left to make 1 of the sum.
   */
  lemma WeightsExactly(a: real, i: nat)
    requires i > 0
    ensures Weight(a, i, i) == a
    ensures forall k :: 0 < k < i ==> Weight(a, i, k) == (1.0 - a) * Weight(a, i, k + 1)
    ensures Sum(0, i + 1, Discounted(a, i, One)) == 1.0
  {
    hide Sum;
    forall k | 0 < k < i ensures Weight(a, i, k) == (1.0 - a) * Weight(a, i, k + 1) {
      WeightEarlier(a, i, k);
    }
    MeanOfOne(a, i);
  }

  lemma WeightEarlier(a: real, i: nat, k: nat)
    requires 0 < k < i
    ensures Weight(a, i, k) == (1.0 - a) * Weight(a, i, k + 1)
  {
    var b, c := 1.0 - a, Power(1.0 - a, i - k - 1);
    assert Power(b, i - k) == b * c;
    assert a * (b * c) == b * (a * c);
  }

  lemma DecayRange(alpha: real)
    requires alpha >= 0.0
    ensures 0.0 <= Decay(alpha) <= 1.0
  {
    if alpha > 1.0 {
      var r := 2.0 / (alpha + 1.0);
      assert r * (alpha + 1.0) == 2.0;
    }
  }

  lemma WeightPositive(a: real, i: nat, k: nat)
    requires 0.0 <= a <= 1.0 && k <= i
    ensures Weight(a, i, k) >= 0.0
  {
    PowerPositive(1.0 - a, if k == 0 then i else i - k);
  }

  lemma NotNegative(w: real, y: real)
    requires w >= 0.0
    ensures w * Square(y) >= 0.0
  {
    assert y * y >= 0.0;
  }

  ghost function Entry(x: seq<real>): Vec { (k: int) => if 0 <= k < |x| then x[k] else 0.0 }

  function NextVariance(a: real, diff: real, v: real): real { (1.0 - a) * (v + a * diff * diff) }

  /** One pass over the data; shorter inputs have no result. */
  method EwmVar(x: array<real>, alpha: real) returns (res: Option<array<real>>)
    ensures res.Some? <==> x.Length >= 2
    ensures res.Some? ==> fresh(res.value) && res.value.Length == x.Length
    ensures res.Some? ==> forall a, i :: 0 <= i < x.Length && Smoothing(alpha, a) ==>
      res.value[i] == Variance(a, i, Entry(x[..]))
  {
    SmoothingFound(alpha);
    hide Variance, Mean, Decay, Mix, NextVariance;
    var n := x.Length;
    if n < 2 {
      return None;
    }
    var a := Decay(alpha);
    ghost var X := Entry(x[..]);
    var r := new real[n];
    var ema := x[0];
    r[0] := 0.0;
    VarianceStep(a, 0, X);
    MeanStart(a, X);
    var i := 1;
    while i < n
      invariant 1 <= i <= n && ema == Mean(a, i - 1, X)
      invariant forall j :: 0 <= j < i ==> r[j] == Variance(a, j, X)
    {
      OneStep(a, i - 1, X, x[i], ema, r[i - 1]);
      var diff := x[i] - ema;
      ema := Mix(a, ema, x[i]);
      r[i] := NextVariance(a, diff, r[i - 1]);
      i := i + 1;
    }
    return Some(r);
  }

  lemma OneStep(a: real, i: nat, x: Vec, y: real, ema: real, v: real)
    requires y == x(i + 1) && ema == Mean(a, i, x) && v == Variance(a, i, x)
    ensures Mix(a, ema, y) == Mean(a, i + 1, x)
    ensures NextVariance(a, y - ema, v) == Variance(a, i + 1, x)
  {
    hide Mean, Variance;
    VarianceStep(a, i, x);
    MeanStep(a, i, x);
  }

  // ----- ranks -----

  /** Two values count as tied when they differ by less than this. */
  const TIE := 0.000000000000001

  /** order is a permutation of the indices of v, by ascending value: what sorting delivers. */
  ghost predicate Sorts(order: seq<nat>, v: seq<real>) {
    && multiset(order) == multiset(Indices(|v|))
    && (forall k :: 0 <= k < |order| ==> order[k] < |v|)
    && (forall j, k :: 0 <= j < k < |order| ==> v[order[j]] <= v[order[k]])
  }

  ghost function Indices(n: nat): seq<nat> { seq(n, k => k) }

  /** The positions first..last hold one group of ties, measured from its first member. */
  ghost predicate IsGroup(order: seq<nat>, v: seq<real>, first: nat, last: nat)
    requires |order| == |v| && forall k :: 0 <= k < |order| ==> order[k] < |v|
  {
    && first < last <= |order|
    && (forall k :: first <= k < last ==> v[order[k]] - v[order[first]] < TIE)
    && (last < |order| ==> v[order[last]] - v[order[first]] >= TIE)
  }

  /** Groups of ties one after the other: bounds[g]..bounds[g + 1] is the g-th. */
  ghost predicate IsGrouping(order: seq<nat>, v: seq<real>, bounds: seq<nat>)
    requires |order| == |v| && forall k :: 0 <= k < |order| ==> order[k] < |v|
  {
    && |bounds| > 0 && bounds[0] == 0
    && forall g :: 0 <= g < |bounds| - 1 ==> IsGroup(order, v, bounds[g], bounds[g + 1])
  }

  /** Every member of a group has the average of the positions of the group, counted from 1. */
  ghost predicate RanksUpTo(order: seq<nat>, bounds: seq<nat>, rank: seq<real>, done: nat)
    requires done <= |order| && forall k :: 0 <= k < |order| ==> order[k] < |rank|
  {
    forall g, k :: 0 <= g < |bounds| - 1 && bounds[g] <= k < bounds[g + 1] && k < done ==>
      rank[order[k]] == Middle(bounds[g], bounds[g + 1])
  }

  function Middle(i: nat, j: nat): real { (i + j + 1) as real / 2.0 }

  lemma {:induction false} Distinct(order: seq<nat>, v: seq<real>, j: nat, k: nat)
    requires Sorts(order, v) && j < k < |order|
    ensures order[j] != order[k]
  {
    var x := order[j];
    if x == order[k] {
      assert order == order[..k] + order[k..];
      assert multiset(order) == multiset(order[..k]) + multiset(order[k..]);
      assert x in order[..k] && x in order[k..];
      IndicesOnce(|v|, x);
    }
  }

  lemma {:induction false} IndicesOnce(n: nat, x: nat)
    ensures |Indices(n)| == n && multiset(Indices(n))[x] == if x < n then 1 else 0
  {
    if n > 0 {
      IndicesOnce(n - 1, x);
      assert Indices(n) == Indices(n - 1) + [n - 1];
    } else {
      assert Indices(0) == [];
    }
  }

  /** Ranks with ties. The order comes from sorting the items by value. */
  method Rank(v: array<real>, order: seq<nat>) returns (res: Option<array<real>>, ghost bounds: seq<nat>)
    requires |order| == v.Length && Sorts(order, v[..])
    ensures res.Some? <==> v.Length > 0
    ensures res.Some? ==> fresh(res.value) && res.value.Length == v.Length
    ensures res.Some? ==> Ranked(order, v[..], bounds, res.value[..])
  {
    var n := v.Length;
    bounds := [0];
    if n == 0 {
      return None, bounds;
    }
    var r := new real[n];
    var i := 0;
    while i < n
      invariant 0 <= i <= n && |bounds| > 0 && bounds[|bounds| - 1] == i
      invariant IsGrouping(order, v[..], bounds) && RanksUpTo(order, bounds, r[..], i)
    {
      var j := i + 1;
      while j < n && Distance(v[order[j]], v[order[i]]) < TIE
        invariant i < j <= n
        invariant forall k :: i <= k < j ==> v[order[k]] - v[order[i]] < TIE
      {
        j := j + 1;
      }
      var average := Middle(i, j);
      ghost var before := r[..];
      FillGroup(r, order, v[..], i, j, average);
      ghost var more := bounds + [j];
      GroupingMore(order, v[..], bounds, i, j);
      RanksMore(order, v[..], bounds, before, r[..], i, j);
      bounds := more;
      i := j;
    }
    return Some(r), bounds;
  }

  /** Gives the members of a group their rank, and leaves the ranks of earlier groups alone. */
  method FillGroup(r: array<real>, order: seq<nat>, ghost v: seq<real>, i: nat, j: nat, average: real)
    requires Sorts(order, v) && r.Length == |v| && i <= j <= |order|
    modifies r
    ensures forall p :: 0 <= p < i ==> r[order[p]] == old(r[order[p]])
    ensures forall p :: i <= p < j ==> r[order[p]] == average
  {
    var k := i;
    while k < j
      invariant i <= k <= j
      invariant forall p :: 0 <= p < i ==> r[order[p]] == old(r[order[p]])
      invariant forall p :: i <= p < k ==> r[order[p]] == average
    {
      forall p | 0 <= p < k ensures order[p] != order[k] {
        Distinct(order, v, p, k);
      }
      r[order[k]] := average;
      k := k + 1;
    }
  }

  function Distance(x: real, y: real): real { if x >= y then x - y else y - x }

  lemma GroupingMore(order: seq<nat>, v: seq<real>, bounds: seq<nat>, i: nat, j: nat)
    requires |order| == |v| && forall k :: 0 <= k < |order| ==> order[k] < |v|
    requires IsGrouping(order, v, bounds) && bounds[|bounds| - 1] == i && IsGroup(order, v, i, j)
    ensures IsGrouping(order, v, bounds + [j])
  {
    hide IsGroup;
  }

  lemma {:induction false} BoundsAscend(order: seq<nat>, v: seq<real>, bounds: seq<nat>, g: nat, h: nat)
    requires |order| == |v| && forall k :: 0 <= k < |order| ==> order[k] < |v|
    requires IsGrouping(order, v, bounds) && g <= h < |bounds|
    ensures bounds[g] <= bounds[h] && (g < h ==> bounds[g] < bounds[h])
    decreases h
  {
    if g < h {
      BoundsAscend(order, v, bounds, g, h - 1);
      assert IsGroup(order, v, bounds[h - 1], bounds[h - 1 + 1]);
    }
  }

  lemma RanksMore(order: seq<nat>, v: seq<real>, bounds: seq<nat>, before: seq<real>, rank: seq<real>, i: nat, j: nat)
    requires |order| == |v| == |before| == |rank| && i <= j <= |order| && forall k :: 0 <= k < |order| ==> order[k] < |v|
    requires IsGrouping(order, v, bounds) && bounds[|bounds| - 1] == i && RanksUpTo(order, bounds, before, i)
    requires forall p :: 0 <= p < i ==> rank[order[p]] == before[order[p]]
    requires forall p :: i <= p < j ==> rank[order[p]] == Middle(i, j)
    ensures RanksUpTo(order, bounds + [j], rank, j)
  {
    hide Middle;
    var more := bounds + [j];
    forall g, k | 0 <= g < |more| - 1 && more[g] <= k < more[g + 1] && k < j ensures rank[order[k]] == Middle(more[g], more[g + 1]) {
      if g < |bounds| - 1 {
        BoundsAscend(order, v, bounds, g + 1, |bounds| - 1);
      }
    }
  }

  // ----- what the ranks say -----

  ghost predicate Ranked(order: seq<nat>, v: seq<real>, bounds: seq<nat>, rank: seq<real>) {
    && |order| == |v| == |rank| && Sorts(order, v)
    && IsGrouping(order, v, bounds) && bounds[|bounds| - 1] == |v| && RanksUpTo(order, bounds, rank, |v|)
  }

  lemma {:induction false} GroupOf(order: seq<nat>, v: seq<real>, bounds: seq<nat>, k: nat, top: nat) returns (g: nat)
    requires |order| == |v| && forall k :: 0 <= k < |order| ==> order[k] < |v|
    requires IsGrouping(order, v, bounds) && top < |bounds| && k < bounds[top]
    ensures g < top && bounds[g] <= k < bounds[g + 1]
    decreases top
  {
    if bounds[top - 1] <= k {
      g := top - 1;
    } else {
      g := GroupOf(order, v, bounds, k, top - 1);
    }
  }

  lemma PositionOf(order: seq<nat>, v: seq<real>, a: nat) returns (p: nat)
    requires Sorts(order, v) && a < |v|
    ensures p < |order| && order[p] == a
  {
    IndicesOnce(|v|, a);
    assert a in multiset(order);
    p :| p < |order| && order[p] == a;
  }

  lemma MiddleOrder(i: nat, j: nat, k: nat, l: nat)
    requires i <= k && j <= l
    ensures Middle(i, j) <= Middle(k, l)
    ensures i < k ==> Middle(i, j) < Middle(k, l)
  {
  }

  /** The ranks of two positions, the later group with the higher rank. */
  lemma RanksByGroup(order: seq<nat>, v: seq<real>, bounds: seq<nat>, rank: seq<real>, p: nat, q: nat)
    returns (g: nat, h: nat)
    requires Ranked(order, v, bounds, rank) && p <= q < |order|
    ensures g <= h < |bounds| - 1 && bounds[g] <= p < bounds[g + 1] && bounds[h] <= q < bounds[h + 1]
    ensures rank[order[p]] <= rank[order[q]] && (g < h ==> rank[order[p]] < rank[order[q]])
  {
    g := GroupOf(order, v, bounds, p, |bounds| - 1);
    h := GroupOf(order, v, bounds, q, |bounds| - 1);
    if h < g {
      BoundsAscend(order, v, bounds, h + 1, g);
    }
    BoundsAscend(order, v, bounds, g, h);
    BoundsAscend(order, v, bounds, g + 1, h + 1);
    MiddleOrder(bounds[g], bounds[g + 1], bounds[h], bounds[h + 1]);
  }

  /** Ranks follow values: never the other way round, equal for equal values, and apart for values that differ by a tie or more. */
  lemma RanksFollowValues(order: seq<nat>, v: seq<real>, bounds: seq<nat>, rank: seq<real>, a: nat, b: nat)
    requires Ranked(order, v, bounds, rank) && a < |v| && b < |v|
    ensures v[a] <= v[b] ==> rank[a] <= rank[b]
    ensures v[b] - v[a] >= TIE ==> rank[a] < rank[b]
  {
    var p := PositionOf(order, v, a);
    var q := PositionOf(order, v, b);
    if p <= q {
      var g, h := RanksByGroup(order, v, bounds, rank, p, q);
      if g == h {
        assert IsGroup(order, v, bounds[g], bounds[g + 1]);
        SameGroupClose(order, v, bounds[g], bounds[g + 1], p, q);
      }
    } else {
      var h, g := RanksByGroup(order, v, bounds, rank, q, p);
      assert IsGroup(order, v, bounds[h], bounds[h + 1]);
      if v[a] == v[b] && h < g {
        BoundsAscend(order, v, bounds, h + 1, g);
        GroupEnds(order, v, bounds[h], bounds[h + 1], q, p);
      }
    }
  }

  lemma SameGroupClose(order: seq<nat>, v: seq<real>, first: nat, last: nat, p: nat, q: nat)
    requires |order| == |v| && Sorts(order, v) && IsGroup(order, v, first, last) && first <= p < last && first <= q < last
    ensures v[order[q]] - v[order[p]] < TIE
  {
    assert v[order[first]] <= v[order[p]];
  }

  lemma GroupEnds(order: seq<nat>, v: seq<real>, first: nat, last: nat, q: nat, p: nat)
    requires |order| == |v| && Sorts(order, v) && IsGroup(order, v, first, last) && first <= q < last <= p < |order|
    ensures v[order[q]] < v[order[p]]
  {
    assert v[order[last]] <= v[order[p]];
  }

  // ----- the sum of the ranks -----

  ghost predicate Within(s: seq<nat>, n: nat) { forall k :: 0 <= k < |s| ==> s[k] < n }

  ghost function Total(s: seq<nat>, rank: seq<real>): real
    requires Within(s, |rank|)
  {
    if s == [] then 0.0 else Total(s[..|s| - 1], rank) + rank[s[|s| - 1]]
  }

  lemma {:induction false} TotalParts(s: seq<nat>, t: seq<nat>, rank: seq<real>)
    requires Within(s, |rank|)
    requires Within(t, |rank|)
    ensures Within(s + t, |rank|)
    ensures Total(s + t, rank) == Total(s, rank) + Total(t, rank)
    decreases |t|
  {
    if t == [] {
      assert s + t == s;
    } else {
      TotalParts(s, t[..|t| - 1], rank);
      assert (s + t)[..|s + t| - 1] == s + t[..|t| - 1];
    }
  }

  /** A sum does not depend on the order. */
  lemma {:induction false} TotalPermuted(s: seq<nat>, t: seq<nat>, rank: seq<real>)
    requires multiset(s) == multiset(t)
    requires Within(s, |rank|)
    requires Within(t, |rank|)
    ensures Total(s, rank) == Total(t, rank)
    decreases |s|
  {
    if s == [] {
      assert multiset(t) == multiset{};
      assert |multiset(t)| == |t|;
    } else {
      var x := s[|s| - 1];
      assert s == s[..|s| - 1] + [x];
      assert x in multiset(t);
      var k :| 0 <= k < |t| && t[k] == x;
      TakenOut(t, k, rank);
      assert multiset(s[..|s| - 1]) == multiset(s) - multiset{x};
      TotalPermuted(s[..|s| - 1], t[..k] + t[k + 1..], rank);
    }
  }

  lemma TakenOut(t: seq<nat>, k: nat, rank: seq<real>)
    requires k < |t| && Within(t, |rank|)
    ensures Within(t[..k] + t[k + 1..], |rank|)
    ensures multiset(t[..k] + t[k + 1..]) == multiset(t) - multiset{t[k]}
    ensures Total(t, rank) == Total(t[..k] + t[k + 1..], rank) + rank[t[k]]
  {
    var a, b, x := t[..k], t[k + 1..], t[k];
    Removed(t, k);
    assert Total([x], rank) == rank[x] by {
      assert [x][..0] == [];
    }
    hide Total;
    TotalParts(a + [x], b, rank);
    TotalParts(a, [x], rank);
    TotalParts(a, b, rank);
  }

  lemma Removed(t: seq<nat>, k: nat)
    requires k < |t|
    ensures t == t[..k] + [t[k]] + t[k + 1..]
    ensures multiset(t[..k] + t[k + 1..]) == multiset(t) - multiset{t[k]}
  {
  }

  function Triangle(n: nat): real { (n * (n + 1)) as real / 2.0 }

  lemma {:induction false} GroupTotal(order: seq<nat>, rank: seq<real>, i: nat, j: nat, k: nat)
    requires i <= k <= j <= |order| && Within(order, |rank|)
    requires forall p :: i <= p < k ==> rank[order[p]] == Middle(i, j)
    requires Total(order[..i], rank) == Triangle(i)
    ensures Total(order[..k], rank) == Triangle(i) + (k - i) as real * Middle(i, j)
    decreases k
  {
    if k > i {
      GroupTotal(order, rank, i, j, k - 1);
      assert order[..k][..k - 1] == order[..k - 1];
    }
  }

  lemma TriangleGroup(i: nat, j: nat)
    requires i <= j
    ensures Triangle(i) + (j - i) as real * Middle(i, j) == Triangle(j)
  {
    var d := (j - i) as real;
    assert (j - i) * (i + j + 1) == j * (j + 1) - i * (i + 1);
    assert d * (i + j + 1) as real == ((j - i) * (i + j + 1)) as real;
  }

  lemma GroupRanks(order: seq<nat>, v: seq<real>, bounds: seq<nat>, rank: seq<real>, g: nat)
    requires Ranked(order, v, bounds, rank) && g < |bounds| - 1
    ensures bounds[g] < bounds[g + 1] <= |order| && Within(order, |rank|)
    ensures forall p :: bounds[g] <= p < bounds[g + 1] ==> rank[order[p]] == Middle(bounds[g], bounds[g + 1])
  {
    hide Middle;
    assert IsGroup(order, v, bounds[g], bounds[g + 1]);
  }

  lemma {:induction false} TotalUpTo(order: seq<nat>, v: seq<real>, bounds: seq<nat>, rank: seq<real>, g: nat)
    requires Ranked(order, v, bounds, rank) && g < |bounds|
    ensures bounds[g] <= |order| && Within(order, |rank|) && Total(order[..bounds[g]], rank) == Triangle(bounds[g])
    decreases g
  {
    BoundsAscend(order, v, bounds, g, |bounds| - 1);
    if g == 0 {
      assert order[..0] == [];
    } else {
      GroupRanks(order, v, bounds, rank, g - 1);
      TotalUpTo(order, v, bounds, rank, g - 1);
      TotalGroup(order, rank, bounds[g - 1], bounds[g]);
    }
  }

  lemma TotalGroup(order: seq<nat>, rank: seq<real>, i: nat, j: nat)
    requires i <= j <= |order| && Within(order, |rank|) && Total(order[..i], rank) == Triangle(i)
    requires forall p :: i <= p < j ==> rank[order[p]] == Middle(i, j)
    ensures Total(order[..j], rank) == Triangle(j)
  {
    hide Total, Triangle, Middle;
    GroupTotal(order, rank, i, j, j);
    TriangleGroup(i, j);
  }

  /** Whatever the ties, the ranks add up to 1 + 2 + ... + n. */
  lemma RanksTotal(order: seq<nat>, v: seq<real>, bounds: seq<nat>, rank: seq<real>)
    requires Ranked(order, v, bounds, rank)
    ensures Within(Indices(|v|), |rank|)
    ensures Total(Indices(|v|), rank) == Triangle(|v|)
  {
    TotalUpTo(order, v, bounds, rank, |bounds| - 1);
    assert order[..|order|] == order;
    TotalPermuted(order, Indices(|v|), rank);
  }
}
