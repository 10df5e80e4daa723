/** The geometry downstream of contour finding in `analyze_thumbnail_image`: the filter
    that keeps bounding boxes above one percent of the image, their normalised regions,
    the text-placement label and the composition score. */
module Thumbnail {

  /** `cv2.boundingRect`: pixel offsets and sizes. */
  datatype Box = Box(x: nat, y: nat, w: nat, h: nat)

  /** A region normalised by the image size. */
  datatype Region = Region(x: real, y: real, width: real, height: real)

  datatype Horizontal = Left | Center | Right
  datatype Vertical = Top | Middle | Bottom

  /** `w * h > width * height * 0.01`. */
  predicate LargeEnough(b: Box, width: nat, height: nat)
  {
    (b.w * b.h) as real > (width * height) as real * 0.01
  }

  /** The filter needs no fractions: it is `100·w·h > width·height`. */
  lemma LargeEnoughInIntegers(b: Box, width: nat, height: nat)
    ensures LargeEnough(b, width, height) <==> 100 * (b.w * b.h) > width * height
  {
  }

  function RegionOf(b: Box, width: nat, height: nat): Region
    requires width > 0 && height > 0
  {
    Region(b.x as real / width as real, b.y as real / height as real,
           b.w as real / width as real, b.h as real / height as real)
  }

  /** The regions of the large-enough boxes, in contour order. */
  function KeptRegions(boxes: seq<Box>, width: nat, height: nat): seq<Region>
    requires width > 0 && height > 0
  {
    if boxes == [] then []
    else
      var last := boxes[|boxes| - 1];
      KeptRegions(boxes[..|boxes| - 1], width, height) +
      (if LargeEnough(last, width, height) then [RegionOf(last, width, height)] else [])
  }

  /** A region is kept exactly when it comes from a large-enough box; no more regions
      than boxes are kept. */
  lemma {:induction false} KeptRegionsSpec(boxes: seq<Box>, width: nat, height: nat)
    requires width > 0 && height > 0
    ensures |KeptRegions(boxes, width, height)| <= |boxes|
    ensures forall r :: r in KeptRegions(boxes, width, height) <==>
      exists b :: b in boxes && LargeEnough(b, width, height) && r == RegionOf(b, width, height)
  {
    if boxes != [] {
      var init := boxes[..|boxes| - 1];
      KeptRegionsSpec(init, width, height);
      assert boxes == init + [boxes[|boxes| - 1]];
    }
  }

  /** The loop that collects `text_regions`. An image that decoded has a positive size. */
  method TextRegions(boxes: seq<Box>, width: nat, height: nat) returns (regions: seq<Region>)
    requires width > 0 && height > 0
    ensures regions == KeptRegions(boxes, width, height)
  {
    regions := [];
    var i := 0;
    while i < |boxes|
      invariant 0 <= i <= |boxes|
      invariant regions == KeptRegions(boxes[..i], width, height)
    {
      assert boxes[..i + 1][..i] == boxes[..i];
      if LargeEnough(boxes[i], width, height) {
        regions := regions + [RegionOf(boxes[i], width, height)];
      }
      i := i + 1;
    }
    assert boxes[..|boxes|] == boxes;
  }

  function SumX(rs: seq<Region>): real
  {
    if rs == [] then 0.0 else SumX(rs[..|rs| - 1]) + rs[|rs| - 1].x
  }

  function SumY(rs: seq<Region>): real
  {
    if rs == [] then 0.0 else SumY(rs[..|rs| - 1]) + rs[|rs| - 1].y
  }

  function HorizontalOf(avgX: real): Horizontal
  {
    if avgX < 0.33 then Left else if avgX > 0.66 then Right else Center
  }

  function VerticalOf(avgY: real): Vertical
  {
    if avgY < 0.33 then Top else if avgY > 0.66 then Bottom else Middle
  }

  /** The placement: centred for no regions, otherwise by the mean corner of the regions. */
  function Placement(rs: seq<Region>): (Vertical, Horizontal)
  {
    if rs == [] then (Middle, Center)
    else (VerticalOf(SumY(rs) / |rs| as real), HorizontalOf(SumX(rs) / |rs| as real))
  }

  /** `text_placement`: the horizontal word, prefixed by "top_" or "bottom_". */
  function PlacementName(p: (Vertical, Horizontal)): string
  {
    var h := match p.1 case Left => "left" case Center => "center" case Right => "right";
    match p.0
    case Top => "top_" + h
    case Middle => h
    case Bottom => "bottom_" + h
  }

  /** Reads a label back. */
  function ParsePlacement(name: string): (Vertical, Horizontal)
  {
    var v := if |name| >= 4 && name[..4] == "top_" then Top
             else if |name| >= 7 && name[..7] == "bottom_" then Bottom
             else Middle;
    var rest := match v case Top => name[4..] case Bottom => name[7..] case Middle => name;
    (v, if rest == "left" then Left else if rest == "right" then Right else Center)
  }

  /** Every label names one placement: reading it back gives that placement. */
  lemma PlacementNameRoundTrip(p: (Vertical, Horizontal))
    ensures ParsePlacement(PlacementName(p)) == p
  {
    var n := PlacementName(p);
    match p.0
    case Top => assert n[..4] == "top_" && n[4..] == PlacementName((Middle, p.1));
    case Bottom =>
      assert n[..4][0] == 'b';
      assert n[..7] == "bottom_" && n[7..] == PlacementName((Middle, p.1));
    case Middle =>
      match p.1
      case Left => assert n[..4][0] == 'l';
      case Center => assert n[..4][0] == 'c' && n[..6][0] == 'c';
      case Right => assert n[..4][0] == 'r' && n[..5][0] == 'r';
  }

  /** No regions, or regions whose mean corner is central on both axes, give "center";
      otherwise a mean corner in the left or right third gives "left" or "right", and one
      in the upper or lower third a "top_" or "bottom_" prefix. */
  lemma PlacementSpec(rs: seq<Region>)
    ensures PlacementName(Placement(rs)) == "center" <==>
      rs == [] || (0.33 <= SumX(rs) / |rs| as real <= 0.66 && 0.33 <= SumY(rs) / |rs| as real <= 0.66)
    ensures rs != [] ==>
      && (Placement(rs).1 == Left <==> SumX(rs) / |rs| as real < 0.33)
      && (Placement(rs).1 == Right <==> SumX(rs) / |rs| as real > 0.66)
      && (Placement(rs).0 == Top <==> SumY(rs) / |rs| as real < 0.33)
      && (Placement(rs).0 == Bottom <==> SumY(rs) / |rs| as real > 0.66)
  {
    var p := Placement(rs);
    if PlacementName(p) == "center" {
      PlacementNameRoundTrip(p);
      assert ParsePlacement("center") == (Middle, Center);
    }
  }

  /** `min(100, 25 * len(text_regions))`. */
  function CompositionScore(regions: nat): (s: nat)
    ensures s <= 100
    ensures s == 100 <==> regions >= 4
    ensures s < 100 ==> s == 25 * regions
  {
    if 25 * regions < 100 then 25 * regions else 100
  }
}
