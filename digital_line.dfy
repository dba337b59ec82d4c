/**
  The digital segment that the detector's `rasterizeLine` draws into its
  vote grid: Steps(a, b) + 1 points, one per unit step along the major axis,
  with each coordinate rounded to the nearest integer (halves upward).
*/
module DigitalLine {
  import opened Geometry

  /** Number of unit steps along the major axis of the segment a -> b. */
  function Steps(a: Point, b: Point): nat
  {
    Max(Abs(b.x - a.x), Abs(b.y - a.y))
  }

  /** The offset reached after k of n steps on an axis that moves d in total, rounded. */
  function Offset(d: int, k: nat, n: nat): int
    requires 0 < n
  {
    (2 * (k * d) + n) / (2 * n)
  }

  /** The k-th point of the segment a -> b. */
  function LinePoint(a: Point, b: Point, k: nat): Point
    requires k <= Steps(a, b)
  {
    var n := Steps(a, b);
    if n == 0 then a
    else Point(a.x + Offset(b.x - a.x, k, n), a.y + Offset(b.y - a.y, k, n))
  }

  /** All points of the segment a -> b, from a to b. */
  function Line(a: Point, b: Point): (s: seq<Point>)
    ensures |s| == Steps(a, b) + 1
  {
    seq(Steps(a, b) + 1, k requires 0 <= k <= Steps(a, b) => LinePoint(a, b, k))
  }

  /** p lies inside the bounding box of a and b (borders included). */
  predicate InBox(p: Point, a: Point, b: Point)
  {
    Min(a.x, b.x) <= p.x <= Max(a.x, b.x) && Min(a.y, b.y) <= p.y <= Max(a.y, b.y)
  }

  /** Multiplying by a positive factor reflects a strict order back. */
  lemma LtOfMulLt(m: int, a: int, b: int)
    requires 0 < m && m * a < m * b
    ensures a < b
  {
    assert m * (b - a) > 0;
  }

  /** Euclidean division by a positive divisor brackets the quotient. */
  lemma DivBounds(t: int, m: int, lo: int, hi: int)
    requires 0 < m && m * lo <= t < m * (hi + 1)
    ensures lo <= t / m <= hi
  {
    var q := t / m;
    assert m * q <= t < m * (q + 1);
    LtOfMulLt(m, lo, q + 1);
    LtOfMulLt(m, q, hi + 1);
  }

  /** k * d lies between 0 and n * d when 0 <= k <= n. */
  lemma ScaledBetween(d: int, k: nat, n: nat)
    requires k <= n
    ensures d >= 0 ==> 0 <= k * d <= n * d
    ensures d < 0 ==> n * d <= k * d <= 0
  {
    assert n * d - k * d == (n - k) * d;
  }

  /** The rounded offset never leaves the range between 0 and d. */
  lemma OffsetBounds(d: int, k: nat, n: nat)
    requires 0 < n && k <= n && Abs(d) <= n
    ensures Min(0, d) <= Offset(d, k, n) <= Max(0, d)
  {
    var m := 2 * n;
    var t := 2 * (k * d) + n;
    assert Offset(d, k, n) == t / m;
    ScaledBetween(d, k, n);
    assert m * (d + 1) == 2 * (n * d) + m;
    assert m * d == 2 * (n * d);
    if d >= 0 {
      DivBounds(t, m, 0, d);
    } else {
      DivBounds(t, m, d, 0);
    }
  }

  /** After all n steps the rounded offset is exactly d. */
  lemma OffsetEnd(d: int, n: nat)
    requires 0 < n
    ensures Offset(d, n, n) == d
  {
    assert 2 * n * d + n == (2 * n) * d + n;
    DivBounds(2 * n * d + n, 2 * n, d, d);
  }

  /** Every point of the segment lies inside the endpoints' bounding box. */
  lemma LineInBox(a: Point, b: Point)
    ensures forall p :: p in Line(a, b) ==> InBox(p, a, b)
  {
    var n := Steps(a, b);
    forall k | 0 <= k <= n
      ensures InBox(Line(a, b)[k], a, b)
    {
      if n > 0 {
        OffsetBounds(b.x - a.x, k, n);
        OffsetBounds(b.y - a.y, k, n);
      }
    }
  }

  /** The segment starts at a and ends at b, so both endpoints are drawn. */
  lemma LineEnds(a: Point, b: Point)
    ensures Line(a, b)[0] == a
    ensures Line(a, b)[|Line(a, b)| - 1] == b
  {
    var n := Steps(a, b);
    if n > 0 {
      OffsetEnd(b.x - a.x, n);
      OffsetEnd(b.y - a.y, n);
      assert Offset(b.x - a.x, 0, n) == 0 && Offset(b.y - a.y, 0, n) == 0 by {
        DivBounds(n, 2 * n, 0, 0);
      }
    }
  }

  /** On the major axis the rounded offset after k steps is exactly k (or -k). */
  lemma OffsetMajor(d: int, k: nat, n: nat)
    requires 0 < n && Abs(d) == n
    ensures Offset(d, k, n) == if d >= 0 then k as int else -(k as int)
  {
    var m := 2 * n;
    if d >= 0 {
      assert 2 * (k * d) + n == m * k + n;
      DivBounds(2 * (k * d) + n, m, k, k);
    } else {
      assert 2 * (k * d) + n == m * (-(k as int)) + n;
      DivBounds(2 * (k * d) + n, m, -(k as int), -(k as int));
    }
  }

  /** No point is drawn twice: the major coordinate moves at every step. */
  lemma LineDistinct(a: Point, b: Point)
    ensures forall k1, k2 :: 0 <= k1 < k2 < |Line(a, b)| ==> Line(a, b)[k1] != Line(a, b)[k2]
  {
    var n := Steps(a, b);
    forall k1, k2 | 0 <= k1 < k2 <= n
      ensures LinePoint(a, b, k1) != LinePoint(a, b, k2)
    {
      if Abs(b.x - a.x) == n {
        OffsetMajor(b.x - a.x, k1, n);
        OffsetMajor(b.x - a.x, k2, n);
      } else {
        OffsetMajor(b.y - a.y, k1, n);
        OffsetMajor(b.y - a.y, k2, n);
      }
    }
  }
}
