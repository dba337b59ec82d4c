/** The 8-connected neighbourhood of a pixel of a binary grid. */
module Neighbourhood {
  import opened Grids
  import ZhangSuen

  /** Row and column offsets of the eight neighbours, clockwise from straight above. */
  const RowOffsets: seq<int> := [-1, -1, 0, 1, 1, 1, 0, -1]
  const ColOffsets: seq<int> := [0, 1, 1, 1, 0, -1, -1, -1]

  /** (r, c) lies in the grid and is set. */
  predicate Lit(g: Grid<bool>, r: int, c: int)
  {
    0 <= r < |g| && 0 <= c < |g[r]| && g[r][c]
  }

  /** How many of the first k neighbours of (r, c) are set pixels of the grid. */
  function CountUpTo(g: Grid<bool>, r: int, c: int, k: nat): (n: nat)
    requires k <= 8
    ensures n <= k
  {
    if k == 0 then 0
    else CountUpTo(g, r, c, k - 1) + (if Lit(g, r + RowOffsets[k - 1], c + ColOffsets[k - 1]) then 1 else 0)
  }

  /** The number of set 8-connected neighbours of (r, c); those outside the grid count as unset. */
  function NeighbourCount(g: Grid<bool>, r: int, c: int): (n: nat)
    ensures n <= 8
  {
    CountUpTo(g, r, c, 8)
  }

  /** For an interior pixel the count agrees with the B(P1) of Zhang-Suen thinning. */
  lemma NeighbourCountIsB(g: Grid<bool>, r: int, c: int)
    requires IsRect(g) && ZhangSuen.Interior(g, r, c)
    ensures NeighbourCount(g, r, c) == ZhangSuen.Neighbours(ZhangSuen.Ring(g, r, c))
  {
    var p := ZhangSuen.Ring(g, r, c);
    assert CountUpTo(g, r, c, 1) == ZhangSuen.Bit(p[0]);
    assert CountUpTo(g, r, c, 2) == ZhangSuen.Bit(p[0]) + ZhangSuen.Bit(p[1]);
    assert CountUpTo(g, r, c, 3) == CountUpTo(g, r, c, 2) + ZhangSuen.Bit(p[2]);
    assert CountUpTo(g, r, c, 4) == CountUpTo(g, r, c, 3) + ZhangSuen.Bit(p[3]);
    assert CountUpTo(g, r, c, 5) == CountUpTo(g, r, c, 4) + ZhangSuen.Bit(p[4]);
    assert CountUpTo(g, r, c, 6) == CountUpTo(g, r, c, 5) + ZhangSuen.Bit(p[5]);
    assert CountUpTo(g, r, c, 7) == CountUpTo(g, r, c, 6) + ZhangSuen.Bit(p[6]);
  }
}
