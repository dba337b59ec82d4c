/**
  Zhang-Suen skeletonisation (T. Y. Zhang and C. Y. Suen, "A fast parallel
  algorithm for thinning digital patterns", CACM 27(3), 1984) as functions
  on binary grids. The in-place matrix versions are methods of the detector
  class (module LandoltC); these functions are their specification.
*/
module ZhangSuen {
  import opened Grids

  /** (i, j) is an interior pixel: all eight neighbours exist. */
  predicate Interior(g: Grid<bool>, i: int, j: int)
  {
    1 <= i < |g| - 1 && 1 <= j < Cols(g) - 1
  }

  /** The neighbours P2..P9 of pixel (i, j), clockwise starting straight above it. */
  function Ring(g: Grid<bool>, i: int, j: int): (p: seq<bool>)
    requires IsRect(g) && Interior(g, i, j)
    ensures |p| == 8
  {
    [g[i-1][j], g[i-1][j+1], g[i][j+1], g[i+1][j+1], g[i+1][j], g[i+1][j-1], g[i][j-1], g[i-1][j-1]]
  }

  function Bit(b: bool): nat
  {
    if b then 1 else 0
  }

  /** 1 exactly when the ordered pair (a, b) is a 0 -> 1 transition. */
  function Rise(a: bool, b: bool): nat
  {
    if !a && b then 1 else 0
  }

  /** B(P1): the number of set neighbours. */
  function Neighbours(p: seq<bool>): nat
    requires |p| == 8
  {
    Bit(p[0]) + Bit(p[1]) + Bit(p[2]) + Bit(p[3]) + Bit(p[4]) + Bit(p[5]) + Bit(p[6]) + Bit(p[7])
  }

  /** A(P1): the number of 0 -> 1 transitions in the cyclic order P2, P3, ..., P9, P2. */
  function Transitions(p: seq<bool>): nat
    requires |p| == 8
  {
    Rise(p[0], p[1]) + Rise(p[1], p[2]) + Rise(p[2], p[3]) + Rise(p[3], p[4])
    + Rise(p[4], p[5]) + Rise(p[5], p[6]) + Rise(p[6], p[7]) + Rise(p[7], p[0])
  }

  /**
    The removal test of sub-iteration `iter` on neighbours p = P2..P9:
    A = 1, 2 <= B <= 6, and the two products of the sub-iteration are zero
    (P2*P4*P6 and P4*P6*P8 in the first, P2*P4*P8 and P2*P6*P8 in the second).
  */
  predicate RemovalTest(p: seq<bool>, iter: int)
    requires |p| == 8 && (iter == 1 || iter == 2)
  {
    var m1 := if iter == 1 then p[0] && p[2] && p[4] else p[0] && p[2] && p[6];
    var m2 := if iter == 1 then p[2] && p[4] && p[6] else p[0] && p[4] && p[6];
    Transitions(p) == 1 && 2 <= Neighbours(p) <= 6 && !m1 && !m2
  }

  /** (i, j) is a foreground contour pixel that sub-iteration `iter` deletes. */
  predicate Deletable(g: Grid<bool>, i: int, j: int, iter: int)
    requires IsRect(g) && (iter == 1 || iter == 2)
  {
    Interior(g, i, j) && g[i][j] && RemovalTest(Ring(g, i, j), iter)
  }

  /**
    One sub-iteration: every deletion is decided on the grid as it was before
    the sub-iteration, then all of them are applied at once.
  */
  function IterStep(g: Grid<bool>, iter: int): (h: Grid<bool>)
    requires IsRect(g) && (iter == 1 || iter == 2)
    ensures IsRect(h) && |h| == |g| && Cols(h) == Cols(g)
    ensures forall i :: 0 <= i < |h| ==> |h[i]| == |g[i]|
  {
    seq(|g|, i requires 0 <= i < |g| =>
      seq(|g[i]|, j requires 0 <= j < |g[i]| => g[i][j] && !Deletable(g, i, j, iter)))
  }

  /** One full pass: the first sub-iteration, then the second. */
  function Pass(g: Grid<bool>): (h: Grid<bool>)
    requires IsRect(g)
    ensures IsRect(h) && |h| == |g| && Cols(h) == Cols(g)
  {
    IterStep(IterStep(g, 1), 2)
  }

  /** Repeat full passes until one changes nothing. */
  function Thin(g: Grid<bool>): (t: Grid<bool>)
    requires IsRect(g)
    ensures IsRect(t)
    decreases Count(g)
  {
    var h := Pass(g);
    if h == g then g else PassShrinks(g); Thin(h)
  }

  /** A sub-iteration only deletes foreground pixels; it never sets one. */
  lemma IterStepSub(g: Grid<bool>, iter: int)
    requires IsRect(g) && (iter == 1 || iter == 2)
    ensures Sub(IterStep(g, iter), g)
  {
  }

  /** A sub-iteration never changes a pixel on the border of the grid. */
  lemma IterStepKeepsBorder(g: Grid<bool>, iter: int, i: int, j: int)
    requires IsRect(g) && (iter == 1 || iter == 2)
    requires 0 <= i < |g| && 0 <= j < Cols(g) && !Interior(g, i, j)
    ensures IterStep(g, iter)[i][j] == g[i][j]
  {
  }

  /**
    The fate of a pixel under a sub-iteration depends only on its 3x3
    window in the pre-call grid, so the order in which the pixels are
    visited cannot matter.
  */
  lemma IterStepLocal(g: Grid<bool>, h: Grid<bool>, iter: int, i: int, j: int)
    requires IsRect(g) && IsRect(h) && |g| == |h| && Cols(g) == Cols(h)
    requires iter == 1 || iter == 2
    requires 0 <= i < |g| && 0 <= j < Cols(g)
    requires forall r, c :: i - 1 <= r <= i + 1 && j - 1 <= c <= j + 1 && 0 <= r < |g| && 0 <= c < Cols(g) ==> g[r][c] == h[r][c]
    ensures IterStep(g, iter)[i][j] == IterStep(h, iter)[i][j]
  {
    if Interior(g, i, j) {
      assert Ring(g, i, j) == Ring(h, i, j);
    }
  }

  /** A pass that changes the grid strictly lowers the foreground count. */
  lemma PassShrinks(g: Grid<bool>)
    requires IsRect(g)
    ensures Sub(Pass(g), g)
    ensures Pass(g) != g ==> Count(Pass(g)) < Count(g)
  {
    var h1 := IterStep(g, 1);
    IterStepSub(g, 1);
    IterStepSub(h1, 2);
    SubTrans(Pass(g), h1, g);
    SubCount(Pass(g), g);
  }

  /** Thinning only deletes: its foreground is a subset of the input's. */
  lemma {:induction false} ThinSub(g: Grid<bool>)
    requires IsRect(g)
    ensures Sub(Thin(g), g)
    decreases Count(g)
  {
    var h := Pass(g);
    if h != g {
      PassShrinks(g);
      ThinSub(h);
      SubTrans(Thin(h), h, g);
    }
  }

  /** The result of thinning is a fixed point of a full pass. */
  lemma {:induction false} ThinFixed(g: Grid<bool>)
    requires IsRect(g)
    ensures Pass(Thin(g)) == Thin(g)
    decreases Count(g)
  {
    var h := Pass(g);
    if h != g {
      PassShrinks(g);
      ThinFixed(h);
    }
  }

  /** Thinning is idempotent: thinning a skeleton leaves it as it is. */
  lemma ThinIdempotent(g: Grid<bool>)
    requires IsRect(g)
    ensures Thin(Thin(g)) == Thin(g)
  {
    ThinFixed(g);
  }

  /** A grid that a pass leaves unchanged is its own skeleton. */
  lemma ThinOfFixed(g: Grid<bool>)
    requires IsRect(g) && Pass(g) == g
    ensures Thin(g) == g
  {
  }
}
