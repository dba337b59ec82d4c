/**
  Two-dimensional grids as nested sequences, the value view of an `array2`
  (an OpenCV matrix), together with the foreground count of a binary grid.
*/
module Grids {
  type Grid<T> = seq<seq<T>>

  /** The number of columns of a grid (that of its first row). */
  function Cols<T>(g: Grid<T>): nat
  {
    if |g| == 0 then 0 else |g[0]|
  }

  /** Every row has the same length. */
  predicate IsRect<T>(g: Grid<T>)
  {
    forall i :: 0 <= i < |g| ==> |g[i]| == Cols(g)
  }

  /** The current contents of a matrix, row by row. */
  ghost function Snap<T>(a: array2<T>): (g: Grid<T>)
    reads a
    ensures |g| == a.Length0 && IsRect(g)
    ensures forall i :: 0 <= i < |g| ==> |g[i]| == a.Length1
    ensures forall i, j :: 0 <= i < a.Length0 && 0 <= j < a.Length1 ==> g[i][j] == a[i, j]
  {
    seq(a.Length0, i requires 0 <= i < a.Length0 reads a =>
      seq(a.Length1, j requires 0 <= j < a.Length1 reads a => a[i, j]))
  }

  /** Two grids of the same shape that agree everywhere are equal. */
  lemma GridExt<T>(a: Grid<T>, b: Grid<T>)
    requires |a| == |b|
    requires forall i :: 0 <= i < |a| ==> |a[i]| == |b[i]|
    requires forall i, j :: 0 <= i < |a| && 0 <= j < |a[i]| ==> a[i][j] == b[i][j]
    ensures a == b
  {
    forall i | 0 <= i < |a|
      ensures a[i] == b[i]
    {
    }
  }

  /** Number of set cells of one row. */
  function RowCount(r: seq<bool>): nat
  {
    if |r| == 0 then 0 else (if r[0] then 1 else 0) + RowCount(r[1..])
  }

  /** Number of foreground (set) pixels of a binary grid. */
  function Count(g: Grid<bool>): nat
  {
    if |g| == 0 then 0 else RowCount(g[0]) + Count(g[1..])
  }

  /** Row `h` sets a subset of the cells row `g` sets. */
  ghost predicate RowSub(h: seq<bool>, g: seq<bool>)
  {
    |h| == |g| && forall j :: 0 <= j < |h| ==> h[j] ==> g[j]
  }

  /** Grid `h` has the shape of `g` and its foreground is a subset of that of `g`. */
  ghost predicate Sub(h: Grid<bool>, g: Grid<bool>)
  {
    |h| == |g| && forall i :: 0 <= i < |h| ==> RowSub(h[i], g[i])
  }

  lemma {:induction false} RowSubCount(h: seq<bool>, g: seq<bool>)
    requires RowSub(h, g)
    ensures RowCount(h) <= RowCount(g)
    ensures RowCount(h) == RowCount(g) ==> h == g
  {
    if |h| > 0 {
      assert RowSub(h[1..], g[1..]);
      RowSubCount(h[1..], g[1..]);
      if RowCount(h) == RowCount(g) {
        assert h == [h[0]] + h[1..] && g == [g[0]] + g[1..];
      }
    }
  }

  /** Removing foreground pixels lowers the count, strictly unless nothing was removed. */
  lemma {:induction false} SubCount(h: Grid<bool>, g: Grid<bool>)
    requires Sub(h, g)
    ensures Count(h) <= Count(g)
    ensures Count(h) == Count(g) ==> h == g
  {
    if |h| > 0 {
      RowSubCount(h[0], g[0]);
      assert Sub(h[1..], g[1..]);
      SubCount(h[1..], g[1..]);
      if Count(h) == Count(g) {
        assert h == [h[0]] + h[1..] && g == [g[0]] + g[1..];
      }
    }
  }

  lemma SubTrans(a: Grid<bool>, b: Grid<bool>, c: Grid<bool>)
    requires Sub(a, b) && Sub(b, c)
    ensures Sub(a, c)
  {
  }
}
