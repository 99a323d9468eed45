/** Broad phase, pure part: the grid cell of a coordinate, the bucket of a
    cell, and the set of buckets a rectangle of cells falls into
    (Particles.intCoords and hashCoords, PhySim/PhyObjects.py:194-203). */
module SpatialHash {
  import opened Vectors

  /** Python's `int(x)` on a float: rounds toward zero, not down. */
  function Trunc(x: real): (t: int)
    ensures 0.0 <= x ==> t as real <= x < t as real + 1.0
    ensures x < 0.0 ==> t as real - 1.0 < x <= t as real
  {
    if 0.0 <= x then x.Floor else -((-x).Floor)
  }

  /** The grid coordinate of `num` for cells of width `spacing`: for a
      positive width, cell `c` covers `[c, c + 1)` widths on the
      non-negative side and `(c - 1, c]` widths on the negative side, so
      cell 0 is twice as wide as the others. */
  function CellCoord(num: real, spacing: real): (c: int)
    requires spacing != 0.0
    ensures 0.0 < spacing && 0.0 <= num ==> c as real * spacing <= num < (c as real + 1.0) * spacing
    ensures 0.0 < spacing && num < 0.0 ==> (c as real - 1.0) * spacing < num <= c as real * spacing
  {
    var t := Trunc(num / spacing);
    if 0.0 < spacing then
      assert num / spacing * spacing == num;
      CellBounds(num, spacing, num / spacing, t);
      t
    else
      t
  }

  /** The truncated quotient `t` of `num` by a positive `k` places `num`
      between consecutive multiples of `k`. */
  lemma CellBounds(num: real, k: real, q: real, t: int)
    requires 0.0 < k && num == q * k && t == Trunc(q)
    ensures 0.0 <= num ==> t as real * k <= num < (t as real + 1.0) * k
    ensures num < 0.0 ==> (t as real - 1.0) * k < num <= t as real * k
  {
    if 0.0 <= q {
      ScaledAbove(num, k, q, 0.0);
      AboveMultiple(num, k, q, t as real);
    } else {
      ScaledBelow(num, k, q, 0.0);
      BelowMultiple(num, k, q, t as real);
    }
  }

  /** `num = q * k` with `a <= q < a + 1` lies in `[a * k, (a + 1) * k)`. */
  lemma AboveMultiple(num: real, k: real, q: real, a: real)
    requires 0.0 < k && num == q * k && a <= q < a + 1.0
    ensures a * k <= num < (a + 1.0) * k
  {
    ScaledAbove(num, k, q, a);
    ScaledBelow(num, k, q, a + 1.0);
  }

  /** `num = q * k` with `a - 1 < q <= a` lies in `((a - 1) * k, a * k]`. */
  lemma BelowMultiple(num: real, k: real, q: real, a: real)
    requires 0.0 < k && num == q * k && a - 1.0 < q <= a
    ensures (a - 1.0) * k < num <= a * k
  {
    ScaledAbove(num, k, q, a - 1.0);
    ScaledBelow(num, k, q, a);
  }

  /** `num = q * k` is at most `b * k` when `q` is at most `b`. */
  lemma ScaledBelow(num: real, k: real, q: real, b: real)
    requires 0.0 < k && num == q * k && q <= b
    ensures num <= b * k
    ensures q < b ==> num < b * k
  {
    ScaleBy(q, b, k);
  }

  /** `num = q * k` is at least `a * k` when `q` is at least `a`. */
  lemma ScaledAbove(num: real, k: real, q: real, a: real)
    requires 0.0 < k && num == q * k && a <= q
    ensures a * k <= num
    ensures a < q ==> a * k < num
  {
    ScaleBy(a, q, k);
  }

  /** Multiplying by a positive factor keeps the order of two reals. */
  lemma ScaleBy(a: real, b: real, k: real)
    requires 0.0 < k
    ensures a <= b ==> a * k <= b * k
    ensures a < b ==> a * k < b * k
  {
    if a < b {
      assert b * k - a * k == (b - a) * k;
    }
  }

  /** Python's `abs` on an integer. */
  function IntAbs(i: int): nat { if i < 0 then -i else i }

  /** Python's `^` on unbounded integers (two's complement with infinitely
      many sign bits): `a / 2` and `a % 2` are the floor-shifted rest and the
      low bit, and the recursion stops once both are all zeros or all ones. */
  function Xor(a: int, b: int): (r: int)
    ensures r < 0 <==> (a < 0) != (b < 0)
    decreases IntAbs(a) + IntAbs(b)
  {
    if (a == 0 || a == -1) && (b == 0 || b == -1) then
      if a == b then 0 else -1
    else
      2 * Xor(a / 2, b / 2) + (if a % 2 == b % 2 then 0 else 1)
  }

  /** Xor with all zeros keeps a value. */
  lemma {:induction false} XorZero(a: int)
    ensures Xor(a, 0) == a
    decreases IntAbs(a)
  {
    if a != 0 && a != -1 {
      XorZero(a / 2);
    }
  }

  /** Xor with all ones is bitwise complement, `-a - 1`. */
  lemma {:induction false} XorOnes(a: int)
    ensures Xor(a, -1) == -a - 1
    decreases IntAbs(a)
  {
    if a != 0 && a != -1 {
      XorOnes(a / 2);
    }
  }

  /** When `a` and `b` are not both a single sign bit, `a ^ b` and `b`
      are not both one either. */
  lemma XorKeepsWide(a: int, b: int)
    requires !((a == 0 || a == -1) && (b == 0 || b == -1))
    ensures !((Xor(a, b) == 0 || Xor(a, b) == -1) && (b == 0 || b == -1))
  {
    if b == 0 {
      XorZero(a);
    } else if b == -1 {
      XorOnes(a);
    }
  }

  /** Xor-ing the same value in twice restores the original: the model
      agrees with Python's `^` in being its own inverse. */
  lemma {:induction false} XorCancels(a: int, b: int)
    ensures Xor(Xor(a, b), b) == a
    decreases IntAbs(a) + IntAbs(b)
  {
    if !((a == 0 || a == -1) && (b == 0 || b == -1)) {
      var c := Xor(a, b);
      XorKeepsWide(a, b);
      var bit := if a % 2 == b % 2 then 0 else 1;
      assert c == 2 * Xor(a / 2, b / 2) + bit;
      assert c / 2 == Xor(a / 2, b / 2) && c % 2 == bit;
      XorCancels(a / 2, b / 2);
    }
  }

  /** The bucket of grid cell (x, y) among the `2n` buckets of an index over
      `n` particles. */
  function HashCoords(x: int, y: int, n: nat): (h: int)
    requires 0 < n
    ensures 0 <= h < 2 * n
  {
    var mixed := Xor(Xor(x * 92837111, y * 689287499), 283923481);
    IntAbs(mixed) % (2 * n)
  }

  /** `hashCoords` of an index over `n` particles as a function of the
      cell alone: every cell lands in one of the `2n` buckets. No cell is
      hashed when there are no particles; the function then answers 0. */
  function CellHash(n: nat): (hash: (int, int) -> int)
    ensures 0 < n ==> forall x, y :: 0 <= hash(x, y) < 2 * n
  {
    if n == 0 then (x, y) => 0 else (x, y) => HashCoords(x, y, n)
  }

  /** The buckets of cells (x, y) for y0 <= y < y1. */
  ghost function RowBuckets(x: int, y0: int, y1: int, hash: (int, int) -> int): set<int>
    decreases y1 - y0
  {
    if y1 <= y0 then {} else RowBuckets(x, y0, y1 - 1, hash) + {hash(x, y1 - 1)}
  }

  /** The buckets of cells (x, y) for x0 <= x < x1 and y0 <= y < y1. */
  ghost function CellBuckets(x0: int, x1: int, y0: int, y1: int, hash: (int, int) -> int): set<int>
    decreases x1 - x0
  {
    if x1 <= x0 then {} else CellBuckets(x0, x1 - 1, y0, y1, hash) + RowBuckets(x1 - 1, y0, y1, hash)
  }

  /** The buckets of the cells a query about `pt` with reach `maxDist`
      walks: from the cell of `pt - maxDist` to the cell of `pt + maxDist`
      on each axis, both ends included. */
  ghost function QueryCells(pt: Vec, maxDist: real, spacing: real, hash: (int, int) -> int): set<int>
    requires spacing != 0.0
  {
    CellBuckets(CellCoord(pt.x - maxDist, spacing), CellCoord(pt.x + maxDist, spacing) + 1,
                CellCoord(pt.y - maxDist, spacing), CellCoord(pt.y + maxDist, spacing) + 1, hash)
  }

  // ---------------------------------------------------------------------

  /** Truncation is monotone. */
  lemma TruncMonotone(x: real, y: real)
    requires x <= y
    ensures Trunc(x) <= Trunc(y)
  {
  }

  /** With a positive cell width the grid coordinate is monotone. */
  lemma CellCoordMonotone(a: real, b: real, spacing: real)
    requires 0.0 < spacing && a <= b
    ensures CellCoord(a, spacing) <= CellCoord(b, spacing)
  {
    assert a / spacing <= b / spacing;
    TruncMonotone(a / spacing, b / spacing);
  }

  /** Because truncation rounds toward zero, cell 0 is twice as wide as the
      others: it holds every coordinate strictly between -spacing and spacing. */
  lemma CellZeroIsDoubleWidth(num: real, spacing: real)
    requires 0.0 < spacing
    ensures CellCoord(num, spacing) == 0 <==> -spacing < num < spacing
  {
    var c := CellCoord(num, spacing);
    var r, up, down := c as real, c as real + 1.0, c as real - 1.0;
    assert 0.0 <= num ==> r * spacing <= num < up * spacing;
    assert num < 0.0 ==> down * spacing < num <= r * spacing;
    if 1 <= c {
      ScaleBy(1.0, r, spacing);
      ScaleBy(0.0, down, spacing);
      assert spacing <= r * spacing && 0.0 <= down * spacing;
      assert spacing <= num;
    } else if c <= -1 {
      ScaleBy(up, 0.0, spacing);
      ScaleBy(r, -1.0, spacing);
      assert up * spacing <= 0.0 && r * spacing <= -spacing;
      assert num <= -spacing;
    }
  }

  lemma {:induction false} RowBucketsHas(x: int, y0: int, y1: int, y: int, hash: (int, int) -> int)
    requires y0 <= y < y1
    ensures hash(x, y) in RowBuckets(x, y0, y1, hash)
    decreases y1 - y0
  {
    if y < y1 - 1 {
      RowBucketsHas(x, y0, y1 - 1, y, hash);
    }
  }

  /** The bucket of every cell in the rectangle is among its buckets. */
  lemma {:induction false} CellBucketsHas(x0: int, x1: int, y0: int, y1: int, x: int, y: int, hash: (int, int) -> int)
    requires x0 <= x < x1 && y0 <= y < y1
    ensures hash(x, y) in CellBuckets(x0, x1, y0, y1, hash)
    decreases x1 - x0
  {
    if x < x1 - 1 {
      CellBucketsHas(x0, x1 - 1, y0, y1, x, y, hash);
    } else {
      RowBucketsHas(x, y0, y1, y, hash);
    }
  }

  lemma {:induction false} RowBucketsOnly(x: int, y0: int, y1: int, h: int, hash: (int, int) -> int)
    requires h in RowBuckets(x, y0, y1, hash)
    ensures exists y :: y0 <= y < y1 && hash(x, y) == h
    decreases y1 - y0
  {
    if h != hash(x, y1 - 1) {
      RowBucketsOnly(x, y0, y1 - 1, h, hash);
    }
  }

  /** Every bucket of the rectangle is the bucket of one of its cells. */
  lemma {:induction false} CellBucketsOnly(x0: int, x1: int, y0: int, y1: int, h: int, hash: (int, int) -> int)
    requires h in CellBuckets(x0, x1, y0, y1, hash)
    ensures exists x, y :: x0 <= x < x1 && y0 <= y < y1 && hash(x, y) == h
    decreases x1 - x0
  {
    if h in CellBuckets(x0, x1 - 1, y0, y1, hash) {
      CellBucketsOnly(x0, x1 - 1, y0, y1, h, hash);
    } else {
      RowBucketsOnly(x1 - 1, y0, y1, h, hash);
    }
  }

  /** The cell range a query walks (from the cell of `pt - maxDist` to the
      cell of `pt + maxDist` on each axis, inclusive) covers the cell of every
      position within `maxDist` of `pt` on both axes. */
  lemma QueryRangeCovers(pt: Vec, pos: Vec, maxDist: real, spacing: real, hash: (int, int) -> int)
    requires 0.0 < spacing
    requires pt.x - maxDist <= pos.x <= pt.x + maxDist
    requires pt.y - maxDist <= pos.y <= pt.y + maxDist
    ensures hash(CellCoord(pos.x, spacing), CellCoord(pos.y, spacing)) in QueryCells(pt, maxDist, spacing, hash)
  {
    CellCoordMonotone(pt.x - maxDist, pos.x, spacing);
    CellCoordMonotone(pos.x, pt.x + maxDist, spacing);
    CellCoordMonotone(pt.y - maxDist, pos.y, spacing);
    CellCoordMonotone(pos.y, pt.y + maxDist, spacing);
    CellBucketsHas(CellCoord(pt.x - maxDist, spacing), CellCoord(pt.x + maxDist, spacing) + 1,
                   CellCoord(pt.y - maxDist, spacing), CellCoord(pt.y + maxDist, spacing) + 1,
                   CellCoord(pos.x, spacing), CellCoord(pos.y, spacing), hash);
  }
}
