/**
 * Stamp refinement of the fusion engine (backend/app/services/innovations.py):
 * `detect_signature_on_stamp_expanded` runs the RT-DETR detector on the
 * expanded stamp crop and on its 2x upscaled copy and maps every box back to
 * page coordinates; `detect_signature_on_stamp` is the fallback that runs the
 * signature detector on the bare stamp crop.
 *
 * The detectors are oracles: a function from the crop rectangle (which fixes the
 * crop of the page image) to the detections it returns, in crop coordinates.
 */
module Refinement {
  import opened Detections
  import opened Geometry

  /** The three RT-DETR passes on one crop: signatures and stamps on the crop, signatures on its 2x upscale. */
  datatype RtOutputs = RtOutputs(sigs: seq<Detection>, stamps: seq<Detection>, sigsUp: seq<Detection>)

  /** The margin ratio `detect_signature_on_stamp_expanded` passes to `expand_bbox`. */
  const ExpansionRatio: real := 0.5

  /** A crop-coordinate box moved by the crop's top-left corner. */
  function Shift(b: Box, dx: int, dy: int): Box
  {
    Box(b.x1 + dx, b.y1 + dy, b.x2 + dx, b.y2 + dy)
  }

  /** `int(b / 2 + offset)` on each coordinate: a box found on the 2x upscale, mapped to the page. */
  function HalveShift(b: Box, dx: int, dy: int): Box
  {
    Box(Trunc(b.x1 as real / 2.0 + dx as real), Trunc(b.y1 as real / 2.0 + dy as real),
        Trunc(b.x2 as real / 2.0 + dx as real), Trunc(b.y2 as real / 2.0 + dy as real))
  }

  /** The list with every box shifted; labels, confidences and sources are kept. */
  function Shifted(ds: seq<Detection>, dx: int, dy: int): seq<Detection>
  {
    seq(|ds|, i requires 0 <= i < |ds| => ds[i].(box := Shift(ds[i].box, dx, dy)))
  }

  /** The list with every box halved and shifted. */
  function Halved(ds: seq<Detection>, dx: int, dy: int): seq<Detection>
  {
    seq(|ds|, i requires 0 <= i < |ds| => ds[i].(box := HalveShift(ds[i].box, dx, dy)))
  }

  /** What `detect_signature_on_stamp` returns for a stamp box. */
  function Fallback(stampBox: Box, detect: Box -> seq<Detection>): seq<Detection>
  {
    Shifted(detect(stampBox), stampBox.x1, stampBox.y1)
  }

  /**
   * What `detect_signature_on_stamp_expanded` returns for a stamp box on a W x H page:
   * `rt` is None when no RT-DETR detector is configured.
   */
  function Expanded(W: int, H: int, stampBox: Box, rt: Option<Box -> RtOutputs>,
                    detect: Box -> seq<Detection>): seq<Detection>
  {
    if rt.None? then Fallback(stampBox, detect)
    else
      var c := ExpandBox(stampBox, W, H, ExpansionRatio);
      var o := rt.value(c);
      Shifted(o.sigs, c.x1, c.y1) + Halved(o.sigsUp, c.x1, c.y1) + Shifted(o.stamps, c.x1, c.y1)
  }

  /** The in-place loop `s['bbox'] = [bx1 + x1, by1 + y1, bx2 + x1, by2 + y1]` over a list. */
  method ShiftInPlace(ds: seq<Detection>, dx: int, dy: int) returns (r: seq<Detection>)
    ensures r == Shifted(ds, dx, dy)
  {
    r := ds;
    var i := 0;
    while i < |r|
      invariant 0 <= i <= |r| == |ds|
      invariant forall k :: 0 <= k < i ==> r[k] == ds[k].(box := Shift(ds[k].box, dx, dy))
      invariant forall k :: i <= k < |r| ==> r[k] == ds[k]
    {
      var b := r[i].box;
      r := r[i := r[i].(box := Box(b.x1 + dx, b.y1 + dy, b.x2 + dx, b.y2 + dy))];
      i := i + 1;
    }
  }

  /** The in-place loop `s['bbox'] = [int(bx1/2 + x1), ...]` over the upscaled pass. */
  method HalveInPlace(ds: seq<Detection>, dx: int, dy: int) returns (r: seq<Detection>)
    ensures r == Halved(ds, dx, dy)
  {
    r := ds;
    var i := 0;
    while i < |r|
      invariant 0 <= i <= |r| == |ds|
      invariant forall k :: 0 <= k < i ==> r[k] == ds[k].(box := HalveShift(ds[k].box, dx, dy))
      invariant forall k :: i <= k < |r| ==> r[k] == ds[k]
    {
      var b := r[i].box;
      r := r[i := r[i].(box := HalveShift(b, dx, dy))];
      i := i + 1;
    }
  }

  /** detect_signature_on_stamp(image, stamp_bbox). */
  method DetectSignatureOnStamp(stampBox: Box, detect: Box -> seq<Detection>) returns (r: seq<Detection>)
    ensures r == Fallback(stampBox, detect)
  {
    var sigs := detect(stampBox);
    r := ShiftInPlace(sigs, stampBox.x1, stampBox.y1);
  }

  /** detect_signature_on_stamp_expanded(image, stamp_bbox) on a W x H page. */
  method DetectSignatureOnStampExpanded(W: int, H: int, stampBox: Box, rt: Option<Box -> RtOutputs>,
                                        detect: Box -> seq<Detection>) returns (r: seq<Detection>)
    ensures r == Expanded(W, H, stampBox, rt, detect)
  {
    if rt.None? {
      r := DetectSignatureOnStamp(stampBox, detect);
      return;
    }
    var c := ExpandBox(stampBox, W, H, ExpansionRatio);
    var o := rt.value(c);
    var up := HalveInPlace(o.sigsUp, c.x1, c.y1);
    // `for s in sigs + stamps` rewrites the records that `sigs` and `stamps` still hold
    var both := ShiftInPlace(o.sigs + o.stamps, c.x1, c.y1);
    var sigs, stamps := both[..|o.sigs|], both[|o.sigs|..];
    assert sigs == Shifted(o.sigs, c.x1, c.y1);
    assert stamps == Shifted(o.stamps, c.x1, c.y1);
    r := sigs + up + stamps;
  }

  /**
   * Layout of the expanded refinement: the native-crop signatures come first, then the
   * upscaled-pass signatures, then the native-crop stamps, each in detector order,
   * native boxes shifted by the expanded crop's top-left and upscaled boxes halved and
   * shifted; only boxes change.
   */
  lemma ExpandedLayout(W: int, H: int, stampBox: Box, f: Box -> RtOutputs, detect: Box -> seq<Detection>)
    ensures var c := ExpandBox(stampBox, W, H, ExpansionRatio);
            var o := f(c);
            var r := Expanded(W, H, stampBox, Some(f), detect);
            var n, m := |o.sigs|, |o.sigsUp|;
            |r| == n + m + |o.stamps| &&
            (forall k :: 0 <= k < n ==>
               r[k] == o.sigs[k].(box := Box(o.sigs[k].box.x1 + c.x1, o.sigs[k].box.y1 + c.y1,
                                             o.sigs[k].box.x2 + c.x1, o.sigs[k].box.y2 + c.y1))) &&
            (forall k :: 0 <= k < m ==>
               r[n + k].kind == o.sigsUp[k].kind && r[n + k].conf == o.sigsUp[k].conf &&
               r[n + k].box == HalveShift(o.sigsUp[k].box, c.x1, c.y1)) &&
            (forall k :: 0 <= k < |o.stamps| ==>
               r[n + m + k] == o.stamps[k].(box := Box(o.stamps[k].box.x1 + c.x1, o.stamps[k].box.y1 + c.y1,
                                                       o.stamps[k].box.x2 + c.x1, o.stamps[k].box.y2 + c.y1)))
  {
  }

  /** Without RT-DETR, the fallback's detections come back shifted by the stamp's top-left corner. */
  lemma FallbackLayout(W: int, H: int, stampBox: Box, detect: Box -> seq<Detection>)
    ensures var r, d := Expanded(W, H, stampBox, None, detect), detect(stampBox);
            |r| == |d| &&
            forall k :: 0 <= k < |d| ==>
              r[k].kind == d[k].kind && r[k].conf == d[k].conf && r[k].source == d[k].source &&
              r[k].box == Box(d[k].box.x1 + stampBox.x1, d[k].box.y1 + stampBox.y1,
                              d[k].box.x2 + stampBox.x1, d[k].box.y2 + stampBox.y1)
  {
  }

  /** Halving then truncating a non-negative integer is integer division by two. */
  lemma HalfTrunc(v: int, d: int)
    requires v >= 0 && d >= 0
    ensures Trunc(v as real / 2.0 + d as real) == v / 2 + d
  {
    var q := v / 2;
    assert v == 2 * q || v == 2 * q + 1;
    assert (q + d) as real <= v as real / 2.0 + d as real < (q + d) as real + 1.0;
  }

  /**
   * For non-negative coordinates and offset the upscaled mapping is floor-halving
   * plus the offset, and a box inside the 2x crop of a w x h crop at (dx, dy) lands
   * inside that crop on the page.
   */
  lemma HalveShiftInsideCrop(b: Box, dx: int, dy: int, w: int, h: int)
    requires dx >= 0 && dy >= 0
    requires 0 <= b.x1 <= b.x2 <= 2 * w && 0 <= b.y1 <= b.y2 <= 2 * h
    ensures var r := HalveShift(b, dx, dy);
            r == Box(b.x1 / 2 + dx, b.y1 / 2 + dy, b.x2 / 2 + dx, b.y2 / 2 + dy) &&
            dx <= r.x1 <= r.x2 <= dx + w && dy <= r.y1 <= r.y2 <= dy + h
  {
    HalfTrunc(b.x1, dx);
    HalfTrunc(b.y1, dy);
    HalfTrunc(b.x2, dx);
    HalfTrunc(b.y2, dy);
  }

  /** A box inside the crop, in crop coordinates, ends up inside the crop on the page. */
  predicate InCrop(b: Box, c: Box)
  {
    c.x1 <= b.x1 <= b.x2 <= c.x2 && c.y1 <= b.y1 <= b.y2 <= c.y2
  }

  lemma ShiftedInsideCrop(ds: seq<Detection>, c: Box)
    requires forall d :: d in ds ==> 0 <= d.box.x1 <= d.box.x2 <= Width(c) && 0 <= d.box.y1 <= d.box.y2 <= Height(c)
    ensures forall d :: d in Shifted(ds, c.x1, c.y1) ==> InCrop(d.box, c)
  {
    var r := Shifted(ds, c.x1, c.y1);
    forall d | d in r
      ensures InCrop(d.box, c)
    {
      var k :| 0 <= k < |r| && r[k] == d;
      assert ds[k] in ds;
    }
  }

  lemma HalvedInsideCrop(ds: seq<Detection>, c: Box)
    requires c.x1 >= 0 && c.y1 >= 0
    requires forall d :: d in ds ==> 0 <= d.box.x1 <= d.box.x2 <= 2 * Width(c) && 0 <= d.box.y1 <= d.box.y2 <= 2 * Height(c)
    ensures forall d :: d in Halved(ds, c.x1, c.y1) ==> InCrop(d.box, c)
  {
    var r := Halved(ds, c.x1, c.y1);
    forall d | d in r
      ensures InCrop(d.box, c)
    {
      var k :| 0 <= k < |r| && r[k] == d;
      assert ds[k] in ds;
      HalveShiftInsideCrop(ds[k].box, c.x1, c.y1, Width(c), Height(c));
    }
  }

  /**
   * Every refined box that the detectors report inside their crop (the upscaled pass:
   * inside the 2x crop) lies inside the expanded crop on the page.
   */
  lemma ExpandedInsideCrop(W: int, H: int, stampBox: Box, f: Box -> RtOutputs, detect: Box -> seq<Detection>)
    requires var c := ExpandBox(stampBox, W, H, ExpansionRatio);
             var o := f(c);
             (forall d :: d in o.sigs + o.stamps ==>
                0 <= d.box.x1 <= d.box.x2 <= Width(c) && 0 <= d.box.y1 <= d.box.y2 <= Height(c)) &&
             (forall d :: d in o.sigsUp ==>
                0 <= d.box.x1 <= d.box.x2 <= 2 * Width(c) && 0 <= d.box.y1 <= d.box.y2 <= 2 * Height(c))
    ensures var c := ExpandBox(stampBox, W, H, ExpansionRatio);
            forall d :: d in Expanded(W, H, stampBox, Some(f), detect) ==> InCrop(d.box, c)
  {
    var c := ExpandBox(stampBox, W, H, ExpansionRatio);
    var o := f(c);
    ShiftedInsideCrop(o.sigs, c);
    ShiftedInsideCrop(o.stamps, c);
    HalvedInsideCrop(o.sigsUp, c);
  }
}
