// Column-major matrices in flat arrays: entry (row, col) lives at row + col * ld.

module Storage {
  import opened Sums

  /** Entry (i, j) of the buffer s, or 0 outside the buffer. */
  ghost function At(s: seq<real>, ld: int, i: int, j: int): real {
    var p := i + j * ld;
    if 0 <= p < |s| then s[p] else 0.0
  }

  ghost function Entries(s: seq<real>, ld: int): Mat { (i: int, j: int) => At(s, ld, i, j) }
  ghost function Col(s: seq<real>, ld: int, j: int): Vec { (i: int) => At(s, ld, i, j) }
  ghost function Row(s: seq<real>, ld: int, i: int): Vec { (j: int) => At(s, ld, i, j) }

  /** The buffer is long enough for m rows and n columns, ld entries apart. */
  ghost predicate Holds(a: array<real>, ld: int, m: int, n: int) {
    0 <= m <= ld && 0 <= n && (0 < m && 0 < n ==> m + (n - 1) * ld <= a.Length)
  }

  /** Column-major indexing is injective: different entries never share a cell. */
  lemma IndexInjective(ld: int, i: int, j: int, i': int, j': int)
    requires 0 <= i < ld && 0 <= i' < ld
    ensures i + j * ld == i' + j' * ld <==> i == i' && j == j'
  {
    if j < j' {
      MulStep(ld, j, j');
    } else if j' < j {
      MulStep(ld, j', j);
    }
  }

  /** Every cell of the buffer is an entry. */
  lemma IndexSurjective(ld: int, p: nat)
    requires 0 < ld
    ensures 0 <= p % ld < ld && 0 <= p / ld && p == p % ld + (p / ld) * ld
  {
  }

  lemma MulStep(ld: int, j: int, j': int)
    requires 0 <= ld && j < j'
    ensures j * ld + ld <= j' * ld
  {
    assert (j' - j - 1) * ld >= 0;
  }

  lemma HoldsLess(a: array<real>, ld: int, m: int, n: int)
    requires Holds(a, ld, m, n)
    ensures forall m', n' :: 0 <= m' <= m && 0 <= n' <= n ==> Holds(a, ld, m', n')
  {
    forall m', n' | 0 <= m' <= m && 0 <= n' <= n ensures Holds(a, ld, m', n') {
      if 0 < m' && 0 < n' && n' < n {
        MulStep(ld, n' - 1, n - 1);
      }
    }
  }

  lemma InBounds(a: array<real>, ld: int, i: int, j: int)
    requires 0 <= i && 0 <= j && Holds(a, ld, i + 1, j + 1)
    ensures 0 <= i + j * ld < a.Length
  {
    assert j * ld >= 0;
  }

  /** Reads entry (i, j). */
  method Get(a: array<real>, ld: int, i: int, j: int) returns (v: real)
    requires 0 <= i && 0 <= j && Holds(a, ld, i + 1, j + 1)
    ensures v == At(a[..], ld, i, j)
  {
    InBounds(a, ld, i, j);
    v := a[i + j * ld];
  }

  /** Writes entry (i, j) and nothing else. */
  method Put(a: array<real>, ld: int, i: int, j: int, v: real)
    requires 0 <= i && 0 <= j && Holds(a, ld, i + 1, j + 1)
    modifies a
    ensures forall r, c {:trigger At(a[..], ld, r, c)} :: 0 <= r < ld ==>
      At(a[..], ld, r, c) == if r == i && c == j then v else old(At(a[..], ld, r, c))
  {
    InBounds(a, ld, i, j);
    a[i + j * ld] := v;
    forall r, c | 0 <= r < ld
      ensures At(a[..], ld, r, c) == if r == i && c == j then v else old(At(a[..], ld, r, c))
    {
      IndexInjective(ld, r, c, i, j);
    }
  }

  /** A stretch of cells is a stretch of one column. */
  lemma ColumnCells(ld: int, r0: int, r1: int, j: int, r: int, c: int)
    requires 0 <= r0 <= r1 <= ld && 0 <= r < ld
    ensures r0 + j * ld <= r + c * ld < r1 + j * ld <==> c == j && r0 <= r < r1
  {
    if c < j {
      MulStep(ld, c, j);
    } else if j < c {
      MulStep(ld, j, c);
    }
  }
}
