/**
  The RGB hole post-processor: turns the stamped list of points of interest
  found in one frame into the list of regions of interest that is published.
*/
module RgbPostProcessing {
  import opened Options
  import opened Geometry

  /** A message header: sequence number, time stamp and frame id. */
  datatype Header = Header(seqNumber: int, stamp: int, frameId: string)

  /** Width and height of a bounding box. */
  datatype BBox = BBox(width: int, height: int)

  /** A point of interest; `bbox` is present exactly when it is a bounding-box POI. */
  datatype Poi = Poi(point: Point, bbox: Option<BBox>)

  /** The stamped POI list a processor hands on. */
  datatype PoisStamped = PoisStamped(header: Header, pois: seq<Poi>)

  /** One published region of interest. */
  datatype RegionOfInterest = RegionOfInterest(center: Point, width: int, height: int)

  /** The output message, filled in place by the post-processor. */
  class RegionOfInterestVector {
    var header: Header
    var regionsOfInterest: seq<RegionOfInterest>

    constructor (header: Header, regionsOfInterest: seq<RegionOfInterest>)
      ensures this.header == header && this.regionsOfInterest == regionsOfInterest
    {
      this.header := header;
      this.regionsOfInterest := regionsOfInterest;
    }
  }

  /** Every POI is a bounding-box POI. */
  predicate AllBoxed(pois: seq<Poi>)
  {
    forall i :: 0 <= i < |pois| ==> pois[i].bbox.Some?
  }

  /** The region of interest of one bounding-box POI. */
  function RegionOf(p: Poi): RegionOfInterest
    requires p.bbox.Some?
  {
    RegionOfInterest(p.point, p.bbox.value.width, p.bbox.value.height)
  }

  /** The regions of interest of a POI list: one per POI, in order, centred on its point. */
  function RegionsOf(pois: seq<Poi>): (rs: seq<RegionOfInterest>)
    requires AllBoxed(pois)
    ensures |rs| == |pois|
    ensures forall i :: 0 <= i < |pois| ==>
      && rs[i].center == pois[i].point
      && rs[i].width == pois[i].bbox.value.width
      && rs[i].height == pois[i].bbox.value.height
  {
    if |pois| == 0 then [] else RegionsOf(pois[..|pois| - 1]) + [RegionOf(pois[|pois| - 1])]
  }

  /**
    Copies the header and appends one region per POI, in input order, after
    the regions the output already holds. Every POI must be a bounding-box
    POI: the source downcasts it and would dereference a null pointer.
  */
  method PostProcess(input: PoisStamped, output: RegionOfInterestVector) returns (ok: bool)
    requires AllBoxed(input.pois)
    modifies output
    ensures ok
    ensures output.header == input.header
    ensures output.regionsOfInterest == old(output.regionsOfInterest) + RegionsOf(input.pois)
  {
    output.header := input.header;
    var ii := 0;
    while ii < |input.pois|
      invariant 0 <= ii <= |input.pois|
      invariant output.header == input.header
      invariant output.regionsOfInterest == old(output.regionsOfInterest) + RegionsOf(input.pois[..ii])
    {
      var poi := input.pois[ii];
      var roi := RegionOfInterest(poi.point, 0, 0);
      var bboxPoi := poi.bbox.value;
      roi := roi.(width := bboxPoi.width, height := bboxPoi.height);
      output.regionsOfInterest := output.regionsOfInterest + [roi];
      assert input.pois[..ii + 1][..ii] == input.pois[..ii];
      ii := ii + 1;
    }
    assert input.pois[..ii] == input.pois;
    return true;
  }
}
