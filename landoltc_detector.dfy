/**
  The discrete core of the Landolt-C detector: its per-frame state, the vote
  grid and the operations that work on it or on binary images in place.
*/
module LandoltC {
  import opened Geometry
  import opened Grids
  import opened ZhangSuen
  import opened DigitalLine
  import opened VoteCenters
  import opened Neighbourhood
  import opened Fusion

  /** An OpenCV colour (cv::Scalar), used to tell detected C's apart in the mask. */
  datatype Color = Color(b: int, g: int, r: int, a: int)

  /** The pixel that a linear (row-major) index names in a matrix with `cols` columns. */
  function PixelAt(index: nat, cols: nat): (p: Point)
    requires 0 < cols
    ensures p.y * cols + p.x == index && 0 <= p.x < cols && 0 <= p.y
  {
    Point(index % cols, index / cols)
  }

  class LandoltCDetector {
    /** Threshold on gradients. */
    var minDiff: int
    /** Threshold on the counts of the vote grid. */
    var threshold: int
    /** Centres of possible Landolt C's. */
    var centers: seq<Point>
    /** One colour per detected C, used to separate them. */
    var fillColors: seq<Color>
    /** Bounding rectangle of each detected C. */
    var rectangles: seq<Rect>
    /** Centres of verified Landolt C's. */
    var newCenters: seq<Point>
    /** Contour points of the reference C, set up once before any frame. */
    var refContours: seq<seq<Point>>
    /** Endpoints of the skeleton of a C (pixels with exactly one neighbour). */
    var edgePoints: seq<Point>
    /** Number of endpoints found. */
    var edges: int
    /** Votes of each pixel for being a centre, row by row. */
    var voting: array2<int>
    /** The detections of the current frame. */
    var landoltc: seq<LandoltCPoi>
    /** Proximity within which two detections are fragments of one marker. */
    const fusionProximity: int

    constructor (rows: nat, cols: nat, minDiff: int, threshold: int, fusionProximity: int)
      ensures this.minDiff == minDiff && this.threshold == threshold
      ensures this.fusionProximity == fusionProximity
      ensures fresh(voting) && voting.Length0 == rows && voting.Length1 == cols
      ensures forall y, x :: 0 <= y < rows && 0 <= x < cols ==> voting[y, x] == 0
      ensures centers == [] && fillColors == [] && rectangles == [] && newCenters == []
      ensures refContours == [] && edgePoints == [] && edges == 0 && landoltc == []
    {
      this.minDiff := minDiff;
      this.threshold := threshold;
      this.fusionProximity := fusionProximity;
      voting := new int[rows, cols]((y, x) => 0);
      centers, fillColors, rectangles, newCenters := [], [], [], [];
      refContours, edgePoints, edges, landoltc := [], [], 0, [];
    }

    /** The point lies inside the vote grid. */
    predicate InVoting(p: Point)
      reads this
    {
      0 <= p.y < voting.Length0 && 0 <= p.x < voting.Length1
    }

    /**
      Casts one vote in every cell of the digital segment from a to b; the
      caller keeps both endpoints inside the vote grid.
    */
    method RasterizeLine(a: Point, b: Point)
      requires InVoting(a) && InVoting(b)
      modifies voting
      ensures forall y, x :: 0 <= y < voting.Length0 && 0 <= x < voting.Length1 ==>
        voting[y, x] == old(voting[y, x]) + multiset(Line(a, b))[Point(x, y)]
    {
      ghost var line := Line(a, b);
      LineInBox(a, b);
      var n := Steps(a, b);
      var k := 0;
      while k <= n
        invariant 0 <= k <= n + 1
        invariant forall y, x :: 0 <= y < voting.Length0 && 0 <= x < voting.Length1 ==>
          voting[y, x] == old(voting[y, x]) + multiset(line[..k])[Point(x, y)]
      {
        var p := LinePoint(a, b, k);
        assert p == line[k] && p in line;
        voting[p.y, p.x] := voting[p.y, p.x] + 1;
        assert line[..k + 1] == line[..k] + [p];
        k := k + 1;
      }
      assert line[..k] == line;
    }

    /**
      The vote-threshold part of centre finding: appends, row by row, every
      cell of the vote grid whose count exceeds `threshold`.
    */
    method FindCenters(rows: int, cols: int)
      requires rows == voting.Length0 && cols == voting.Length1
      modifies this`centers
      ensures centers == old(centers) + Above(Snap(voting), threshold, 0)
    {
      ghost var g := Snap(voting);
      var i := 0;
      while i < rows
        invariant 0 <= i <= rows
        invariant old(centers) + Above(g, threshold, 0) == centers + Above(g, threshold, i)
      {
        assert Above(g, threshold, i) == RowAbove(g[i], threshold, i, 0) + Above(g, threshold, i + 1);
        var j := 0;
        while j < cols
          invariant 0 <= j <= cols
          invariant old(centers) + Above(g, threshold, 0)
            == centers + RowAbove(g[i], threshold, i, j) + Above(g, threshold, i + 1)
        {
          ghost var rest := RowAbove(g[i], threshold, i, j + 1);
          ghost var later := Above(g, threshold, i + 1);
          if voting[i, j] > threshold {
            assert RowAbove(g[i], threshold, i, j) == [Point(j, i)] + rest;
            assert centers + ([Point(j, i)] + rest) + later == (centers + [Point(j, i)]) + rest + later;
            centers := centers + [Point(j, i)];
          } else {
            assert RowAbove(g[i], threshold, i, j) == rest;
          }
          j := j + 1;
        }
        assert RowAbove(g[i], threshold, i, j) == [];
        i := i + 1;
      }
    }

    /** Counts the set 8-connected neighbours of the pixel with linear index `index`. */
    method CountNeighbours(index: nat, img: array2<bool>) returns (n: nat)
      requires index < img.Length0 * img.Length1
      // a fact about the input, restated so that callers may apply PixelAt
      ensures 0 < img.Length1
      ensures n == NeighbourCount(Snap(img), PixelAt(index, img.Length1).y, PixelAt(index, img.Length1).x)
      ensures n <= 8
    {
      var p := PixelAt(index, img.Length1);
      ghost var g := Snap(img);
      n := 0;
      var k := 0;
      while k < 8
        invariant 0 <= k <= 8
        invariant n == CountUpTo(g, p.y, p.x, k)
      {
        var r, c := p.y + RowOffsets[k], p.x + ColOffsets[k];
        if 0 <= r < img.Length0 && 0 <= c < img.Length1 && img[r, c] {
          n := n + 1;
        }
        k := k + 1;
      }
    }

    /**
      Classifies one skeleton pixel by its 8-connected neighbour count: a
      pixel with exactly one neighbour is an endpoint of the C and is recorded.
      The image is only read.
    */
    method Find8Neighbours(index: nat, img: array2<bool>)
      requires index < img.Length0 * img.Length1
      modifies this`edgePoints, this`edges
      // a fact about the input, restated so that callers may apply PixelAt
      ensures 0 < img.Length1
      ensures var p := PixelAt(index, img.Length1);
        var n := NeighbourCount(Snap(img), p.y, p.x);
        && edgePoints == (if n == 1 then old(edgePoints) + [p] else old(edgePoints))
        && edges == old(edges) + (if n == 1 then 1 else 0)
    {
      var n := CountNeighbours(index, img);
      if n == 1 {
        edgePoints := edgePoints + [PixelAt(index, img.Length1)];
        edges := edges + 1;
      }
    }

    /**
      One Zhang-Suen sub-iteration (iter is 1 or 2) on the binary image, in
      place: every deletion is first marked from the unchanged image, then
      all marked pixels are cleared at once.
    */
    method ThinningIter(img: array2<bool>, iter: int)
      requires iter == 1 || iter == 2
      modifies img
      ensures Snap(img) == IterStep(old(Snap(img)), iter)
    {
      ghost var g := Snap(img);
      var marker := MarkDeletions(img, iter);
      ClearMarked(img, marker);
      GridExt(Snap(img), IterStep(g, iter));
    }

    /** The marker image of a sub-iteration: the pixels it deletes. */
    method MarkDeletions(img: array2<bool>, iter: int) returns (marker: array2<bool>)
      requires iter == 1 || iter == 2
      ensures fresh(marker) && marker.Length0 == img.Length0 && marker.Length1 == img.Length1
      ensures forall r, c :: 0 <= r < img.Length0 && 0 <= c < img.Length1 ==>
        marker[r, c] == Deletable(Snap(img), r, c, iter)
    {
      ghost var g := Snap(img);
      var rows, cols := img.Length0, img.Length1;
      marker := new bool[rows, cols]((r, c) => false);
      var i := 1;
      while i < rows - 1
        modifies marker
        invariant 1 <= i && (2 <= rows ==> i <= rows - 1)
        invariant forall r, c :: 0 <= r < rows && 0 <= c < cols ==>
          marker[r, c] == (r < i && Deletable(g, r, c, iter))
      {
        var j := 1;
        while j < cols - 1
          modifies marker
          invariant 1 <= j && (2 <= cols ==> j <= cols - 1)
          invariant forall r, c :: 0 <= r < rows && 0 <= c < cols ==>
            marker[r, c] == ((r < i || (r == i && c < j)) && Deletable(g, r, c, iter))
        {
          var ring := [img[i-1, j], img[i-1, j+1], img[i, j+1], img[i+1, j+1],
                       img[i+1, j], img[i+1, j-1], img[i, j-1], img[i-1, j-1]];
          assert ring == Ring(g, i, j);
          marker[i, j] := img[i, j] && RemovalTest(ring, iter);
          j := j + 1;
        }
        i := i + 1;
      }
    }

    /** Clears every pixel set in the marker image (the image AND NOT the marker). */
    method ClearMarked(img: array2<bool>, marker: array2<bool>)
      requires img != marker
      requires marker.Length0 == img.Length0 && marker.Length1 == img.Length1
      modifies img
      ensures forall r, c :: 0 <= r < img.Length0 && 0 <= c < img.Length1 ==>
        img[r, c] == (old(img[r, c]) && !marker[r, c])
    {
      var rows, cols := img.Length0, img.Length1;
      var i := 0;
      while i < rows
        invariant 0 <= i <= rows
        invariant forall r, c :: 0 <= r < rows && 0 <= c < cols ==>
          img[r, c] == (if r < i then old(img[r, c]) && !marker[r, c] else old(img[r, c]))
      {
        var j := 0;
        while j < cols
          invariant 0 <= j <= cols
          invariant forall r, c :: 0 <= r < rows && 0 <= c < cols ==>
            img[r, c] == (if r < i || (r == i && c < j) then old(img[r, c]) && !marker[r, c] else old(img[r, c]))
        {
          img[i, j] := img[i, j] && !marker[i, j];
          j := j + 1;
        }
        i := i + 1;
      }
    }

    /** A fresh copy of a binary image. */
    method CopyImage(img: array2<bool>) returns (copy: array2<bool>)
      ensures fresh(copy) && copy.Length0 == img.Length0 && copy.Length1 == img.Length1
      ensures Snap(copy) == Snap(img)
    {
      copy := new bool[img.Length0, img.Length1]((r, c) => false);
      var i := 0;
      while i < img.Length0
        modifies copy
        invariant 0 <= i <= img.Length0
        invariant forall r, c :: 0 <= r < i && 0 <= c < img.Length1 ==> copy[r, c] == img[r, c]
      {
        var j := 0;
        while j < img.Length1
          modifies copy
          invariant 0 <= j <= img.Length1
          invariant forall r, c :: 0 <= r < img.Length0 && 0 <= c < img.Length1 && (r < i || (r == i && c < j)) ==>
            copy[r, c] == img[r, c]
        {
          copy[i, j] := img[i, j];
          j := j + 1;
        }
        i := i + 1;
      }
      GridExt(Snap(copy), Snap(img));
    }

    /** Whether two images of the same size are equal pixel by pixel. */
    method SameImage(a: array2<bool>, b: array2<bool>) returns (same: bool)
      requires a.Length0 == b.Length0 && a.Length1 == b.Length1
      ensures same <==> Snap(a) == Snap(b)
    {
      var i := 0;
      while i < a.Length0
        invariant 0 <= i <= a.Length0
        invariant forall r, c :: 0 <= r < i && 0 <= c < a.Length1 ==> a[r, c] == b[r, c]
      {
        var j := 0;
        while j < a.Length1
          invariant 0 <= j <= a.Length1
          invariant forall r, c :: 0 <= r < a.Length0 && 0 <= c < a.Length1 && (r < i || (r == i && c < j)) ==>
            a[r, c] == b[r, c]
        {
          if a[i, j] != b[i, j] {
            assert Snap(a)[i][j] != Snap(b)[i][j];
            return false;
          }
          j := j + 1;
        }
        i := i + 1;
      }
      GridExt(Snap(a), Snap(b));
      return true;
    }

    /**
      Zhang-Suen thinning of a binary image, in place: full passes (first
      sub-iteration, then second) are repeated until a pass changes nothing.
    */
    method Thinning(img: array2<bool>)
      modifies img
      ensures Snap(img) == Thin(old(Snap(img)))
      ensures Sub(Snap(img), old(Snap(img)))
      ensures Pass(Snap(img)) == Snap(img)
    {
      ghost var g0 := Snap(img);
      var changed := true;
      while changed
        invariant Thin(Snap(img)) == Thin(g0)
        invariant !changed ==> Pass(Snap(img)) == Snap(img)
        decreases Count(Snap(img)) + (if changed then 1 else 0)
      {
        ghost var before := Snap(img);
        var prev := CopyImage(img);
        ThinningIter(img, 1);
        ThinningIter(img, 2);
        assert Snap(img) == Pass(before);
        PassShrinks(before);
        var same := SameImage(img, prev);
        changed := !same;
      }
      ThinSub(g0);
    }

    /**
      Per-frame reset: empties the per-frame vectors. The reference contours
      and the thresholds survive.
    */
    method Clear()
      modifies this`centers, this`fillColors, this`rectangles, this`newCenters, this`edgePoints, this`landoltc
      ensures centers == [] && fillColors == [] && rectangles == [] && newCenters == []
      ensures edgePoints == [] && landoltc == []
    {
      centers, fillColors, rectangles, newCenters := [], [], [], [];
      edgePoints, landoltc := [], [];
    }

    /**
      Merges the detections that are fragments of one marker: each detection
      joins the first earlier group whose centre is near its own, or starts
      a new group.
    */
    method Fusion()
      modifies this`landoltc
      ensures landoltc == Fuse(old(landoltc), fusionProximity)
      ensures |landoltc| <= |old(landoltc)|
    {
      var groups: seq<LandoltCPoi> := [];
      var i := 0;
      while i < |landoltc|
        invariant 0 <= i <= |landoltc|
        invariant groups == Fuse(landoltc[..i], fusionProximity)
      {
        var d := landoltc[i];
        var k := 0;
        while k < |groups| && !Near(groups[k].center, d.center, fusionProximity)
          invariant 0 <= k <= |groups|
          invariant forall m :: 0 <= m < k ==> !Near(groups[m].center, d.center, fusionProximity)
        {
          k := k + 1;
        }
        assert k == FirstNear(groups, d.center, fusionProximity);
        if k < |groups| {
          groups := groups[k := Merge(groups[k], d)];
        } else {
          groups := groups + [d];
        }
        assert landoltc[..i + 1][..i] == landoltc[..i];
        i := i + 1;
      }
      assert landoltc[..i] == landoltc;
      FuseNoLonger(landoltc, fusionProximity);
      landoltc := groups;
    }
  }
}
