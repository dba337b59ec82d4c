/**
  Candidate Landolt-C centres from the vote grid: the cells whose vote count
  exceeds the threshold, listed row by row, each as Point(column, row).
*/
module VoteCenters {
  import opened Geometry
  import opened Grids

  /** Cells x0, x0 + 1, ... of row y (votes `row`) whose count exceeds t. */
  function RowAbove(row: seq<int>, t: int, y: int, x0: nat): seq<Point>
    decreases |row| - x0
  {
    if x0 >= |row| then []
    else (if row[x0] > t then [Point(x0, y)] else []) + RowAbove(row, t, y, x0 + 1)
  }

  /** Cells of rows y0, y0 + 1, ... of g whose count exceeds t, in row-major order. */
  function Above(g: Grid<int>, t: int, y0: nat): seq<Point>
    decreases |g| - y0
  {
    if y0 >= |g| then [] else RowAbove(g[y0], t, y0, 0) + Above(g, t, y0 + 1)
  }

  lemma {:induction false} RowAboveSound(row: seq<int>, t: int, y: int, x0: nat)
    ensures forall p :: p in RowAbove(row, t, y, x0) ==> p.y == y && x0 <= p.x < |row| && row[p.x] > t
    decreases |row| - x0
  {
    if x0 < |row| {
      RowAboveSound(row, t, y, x0 + 1);
    }
  }

  lemma {:induction false} RowAboveComplete(row: seq<int>, t: int, y: int, x0: nat, x: nat)
    requires x0 <= x < |row| && row[x] > t
    ensures Point(x, y) in RowAbove(row, t, y, x0)
    decreases |row| - x0
  {
    if x0 < x {
      RowAboveComplete(row, t, y, x0 + 1, x);
    }
  }

  /** Every listed centre is a cell of the grid whose votes exceed the threshold. */
  lemma {:induction false} AboveSound(g: Grid<int>, t: int, y0: nat)
    ensures forall p :: p in Above(g, t, y0) ==>
      y0 <= p.y < |g| && 0 <= p.x < |g[p.y]| && g[p.y][p.x] > t
    decreases |g| - y0
  {
    if y0 < |g| {
      RowAboveSound(g[y0], t, y0, 0);
      AboveSound(g, t, y0 + 1);
    }
  }

  /** Every cell whose votes exceed the threshold is listed. */
  lemma {:induction false} AboveComplete(g: Grid<int>, t: int, y0: nat, y: nat, x: nat)
    requires y0 <= y < |g| && x < |g[y]| && g[y][x] > t
    ensures Point(x, y) in Above(g, t, y0)
    decreases |g| - y0
  {
    if y0 < y {
      AboveComplete(g, t, y0 + 1, y, x);
    } else {
      RowAboveComplete(g[y], t, y, 0, x);
    }
  }
}
