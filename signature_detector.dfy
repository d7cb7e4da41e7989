/**
 * `AdvancedSignatureDetector` (backend/app/services/detection_services.py):
 * text cues found by OCR open search regions below them, the signature
 * model runs on each region, a whole-page pass runs only when the regions
 * found nothing, and a greedy non-maximum suppression removes overlaps.
 *
 * easyocr and the transformers pipeline are oracles: the OCR lines are an
 * input, and the model is a function from the crop rectangle to its raw
 * results. The resize to at most 1024 pixels happens before any of this:
 * W, H and every coordinate here are those of the resized image, whose size
 * `SignatureFrame` computes from the page size.
 */
module SignatureDetector {
  import opened Detections
  import opened Text
  import opened Ordering
  import opened Geometry

  datatype Point = Point(x: real, y: real)

  /** One easyocr result `(bbox, text, confidence)`: a four-point polygon, its text and score. */
  datatype TextLine = TextLine(p1: Point, p2: Point, p3: Point, p4: Point, text: string, conf: real)

  /** A dict of `text_regions`: the search region, the cue text and its OCR score. */
  datatype TextRegion = TextRegion(box: Box, text: string, conf: real)

  /** One pipeline result: `score` and `box` {xmin, ymin, xmax, ymax}. */
  datatype ModelResult = ModelResult(score: real, box: Box)

  /** `max_size`: the longest side detect_signatures works on. */
  const MaxSide := 1024

  /**
   * The image size detect_signatures works in: a page whose longer side exceeds 1024
   * pixels is scaled by 1024 / that side, each side truncated by `int()`; a smaller
   * page keeps its size.
   */
  function SignatureFrame(W: nat, H: nat): (r: (nat, nat))
    ensures r.0 <= W && r.1 <= H
    ensures (W > MaxSide || H > MaxSide) ==> r.0 <= MaxSide && r.1 <= MaxSide
    ensures (W <= MaxSide && H <= MaxSide) ==> r == (W, H)
  {
    var m := if W >= H then W else H;
    if m > MaxSide then
      ScaledSide(W, m);
      ScaledSide(H, m);
      (Scaled(W, m), Scaled(H, m))
    else (W, H)
  }

  /** `int(a * ratio)` with `ratio = max_size / m`. */
  function Scaled(a: nat, m: nat): int
    requires m > 0
  {
    Trunc(a as real * (MaxSide as real / m as real))
  }

  /** A side a <= m scaled by 1024 / m, for m > 1024, stays within [0, 1024] and within [0, a]. */
  lemma ScaledSide(a: nat, m: nat)
    requires a <= m && m > MaxSide
    ensures 0 <= Scaled(a, m) <= a && Scaled(a, m) <= MaxSide
  {
    var q := MaxSide as real / m as real;
    var v := a as real * q;
    assert 0.0 < q < 1.0;
    assert 0.0 <= a as real * (1.0 - q);
    assert 0.0 <= v <= a as real;
    assert 0.0 <= (m - a) as real * q;
    assert v <= m as real * q == MaxSide as real;
    var n := Trunc(v);
    assert 0 <= n && n as real <= v;
  }

  const SignatureKeywords: seq<string> := ["подпись", "подписи", "фио", "ф.и.о", "signature", "signed", "name"]

  function MinR(a: real, b: real): real { if a <= b then a else b }
  function MaxR(a: real, b: real): real { if a >= b then a else b }

  /** `points.min(axis=0)` and `points.max(axis=0)`. */
  function MinX(l: TextLine): real { MinR(MinR(l.p1.x, l.p2.x), MinR(l.p3.x, l.p4.x)) }
  function MinY(l: TextLine): real { MinR(MinR(l.p1.y, l.p2.y), MinR(l.p3.y, l.p4.y)) }
  function MaxX(l: TextLine): real { MaxR(MaxR(l.p1.x, l.p2.x), MaxR(l.p3.x, l.p4.x)) }
  function MaxY(l: TextLine): real { MaxR(MaxR(l.p1.y, l.p2.y), MaxR(l.p3.y, l.p4.y)) }

  /** A line is a cue when its lower-cased text contains a signature keyword and its score exceeds 0.3. */
  predicate IsCue(l: TextLine)
  {
    (exists k :: k in SignatureKeywords && Contains(Lower(l.text), k)) && l.conf > 0.3
  }

  /** The region searched for a cue: 20 px wider on each side, from 10 px above the text's bottom to three text heights below it. */
  function CueRegion(l: TextLine, W: int, H: int): Box
  {
    var x1, y1, x2, y2 := MinX(l), MinY(l), MaxX(l), MaxY(l);
    var height := y2 - y1;
    Box(Max(0, Trunc(x1 - 20.0)), Max(0, Trunc(y2 - 10.0)), Min(W, Trunc(x2 + 20.0)), Min(H, Trunc(y2 + height * 3.0)))
  }

  /** The `text_regions` list. */
  function CueRegions(lines: seq<TextLine>, W: int, H: int): seq<TextRegion>
  {
    if |lines| == 0 then []
    else
      var l := lines[|lines| - 1];
      CueRegions(lines[..|lines| - 1], W, H) + (if IsCue(l) then [TextRegion(CueRegion(l, W, H), l.text, l.conf)] else [])
  }

  /** find_signature_text_regions(image) for a W x H image whose OCR lines are given. */
  method FindSignatureTextRegions(lines: seq<TextLine>, W: int, H: int) returns (regions: seq<TextRegion>)
    ensures regions == CueRegions(lines, W, H)
  {
    regions := [];
    var i := 0;
    while i < |lines|
      invariant 0 <= i <= |lines|
      invariant regions == CueRegions(lines[..i], W, H)
    {
      assert lines[..i + 1][..i] == lines[..i];
      var l := lines[i];
      var textLower := Lower(l.text);
      var hasKeyword := false;
      var j := 0;
      while j < |SignatureKeywords| && !hasKeyword
        invariant 0 <= j <= |SignatureKeywords|
        invariant hasKeyword <==> exists m :: 0 <= m < j && Contains(textLower, SignatureKeywords[m])
      {
        hasKeyword := Contains(textLower, SignatureKeywords[j]);
        j := j + 1;
      }
      assert hasKeyword <==> exists k :: k in SignatureKeywords && Contains(textLower, k);
      if hasKeyword && l.conf > 0.3 {
        var x1, y1, x2, y2 := MinX(l), MinY(l), MaxX(l), MaxY(l);
        var height := y2 - y1;
        var expanded := Box(Max(0, Trunc(x1 - 20.0)), Max(0, Trunc(y2 - 10.0)),
                            Min(W, Trunc(x2 + 20.0)), Min(H, Trunc(y2 + height * 3.0)));
        regions := regions + [TextRegion(expanded, l.text, l.conf)];
      }
      i := i + 1;
    }
    assert lines[..i] == lines;
  }

  /** Every region comes from a cue line, in line order, and every cue line yields its region. */
  lemma {:induction false} CueRegionsExact(lines: seq<TextLine>, W: int, H: int)
    ensures forall r :: r in CueRegions(lines, W, H) ==>
              exists l :: l in lines && IsCue(l) && r == TextRegion(CueRegion(l, W, H), l.text, l.conf)
    ensures forall l :: l in lines && IsCue(l) ==> TextRegion(CueRegion(l, W, H), l.text, l.conf) in CueRegions(lines, W, H)
    decreases |lines|
  {
    if |lines| > 0 {
      var pre, l := lines[..|lines| - 1], lines[|lines| - 1];
      CueRegionsExact(pre, W, H);
      assert lines == pre + [l];
    }
  }

  lemma TruncMono(a: real, b: real)
    requires a <= b
    ensures Trunc(a) <= Trunc(b)
  {
  }

  /**
   * For a cue whose polygon lies in a W x H image, the region is a well-formed box inside
   * the image that starts at most 10 px above the text's bottom edge.
   */
  lemma CueRegionInImage(l: TextLine, W: int, H: int)
    requires 0.0 <= MinX(l) && MaxX(l) <= W as real && 0.0 <= MinY(l) && MaxY(l) <= H as real
    ensures var r := CueRegion(l, W, H);
            0 <= r.x1 <= r.x2 <= W && 0 <= r.y1 <= r.y2 <= H && r.y1 as real <= MaxY(l)
  {
    var x1, y1, x2, y2 := MinX(l), MinY(l), MaxX(l), MaxY(l);
    TruncMono(x1 - 20.0, (W - 20) as real);
    TruncMono(y2 - 10.0, (H - 10) as real);
    TruncMono(y2 - 10.0, y2 + (y2 - y1) * 3.0);
    TruncOfInt(W - 20);
    TruncOfInt(H - 10);
  }

  // ---------------------------------------------------------------- detect_in_region

  /** The detections of one region's model results: scores above 0.25, moved by the region's top-left, tagged text-guided. */
  function RegionHits(x1: int, y1: int, results: seq<ModelResult>): seq<Detection>
  {
    if |results| == 0 then []
    else
      var res := results[|results| - 1];
      RegionHits(x1, y1, results[..|results| - 1])
      + (if res.score > 0.25
         then [Detection(Signature, Box(x1 + res.box.x1, y1 + res.box.y1, x1 + res.box.x2, y1 + res.box.y2), res.score, TextGuided)]
         else [])
  }

  /**
   * detect_in_region with the contrast enhancement (image processing) left out: PIL's crop
   * raises ValueError for a reversed rectangle, an empty crop gives [].
   */
  function InRegion(region: Box, model: Box -> seq<ModelResult>): Result<seq<Detection>>
  {
    if region.x2 < region.x1 then Err(ValueError("Coordinate 'right' is less than 'left'"))
    else if region.y2 < region.y1 then Err(ValueError("Coordinate 'lower' is less than 'upper'"))
    else if Width(region) == 0 || Height(region) == 0 then Ok([])
    else Ok(RegionHits(region.x1, region.y1, model(region)))
  }

  /** detect_in_region as written: `ImageEnhance` is not imported, so every non-empty crop raises NameError. */
  function InRegionAsWritten(region: Box, model: Box -> seq<ModelResult>): Result<seq<Detection>>
  {
    if region.x2 < region.x1 || region.y2 < region.y1 then InRegion(region, model)
    else if Width(region) == 0 || Height(region) == 0 then Ok([])
    else Err(NameError("ImageEnhance"))
  }

  /** As written, a region never yields a detection. */
  lemma InRegionAsWrittenFindsNothing(region: Box, model: Box -> seq<ModelResult>)
    ensures InRegionAsWritten(region, model).Ok? ==> InRegionAsWritten(region, model).value == []
    ensures WellFormed(region) && Width(region) > 0 && Height(region) > 0 ==>
              InRegionAsWritten(region, model) == Err(NameError("ImageEnhance"))
  {
  }

  /** Every text-guided detection has a score above 0.25, is a signature and is its result's box moved by (x1, y1). */
  lemma {:induction false} RegionHitsSound(x1: int, y1: int, results: seq<ModelResult>)
    ensures |RegionHits(x1, y1, results)| <= |results|
    ensures forall d :: d in RegionHits(x1, y1, results) ==>
              d.kind == Signature && d.source == TextGuided && d.conf > 0.25 &&
              exists res :: res in results && res.score == d.conf &&
                d.box == Box(x1 + res.box.x1, y1 + res.box.y1, x1 + res.box.x2, y1 + res.box.y2)
    decreases |results|
  {
    if |results| > 0 {
      var pre := results[..|results| - 1];
      RegionHitsSound(x1, y1, pre);
      assert results == pre + [results[|results| - 1]];
    }
  }

  /** A result inside a region that lies in the image gives a detection inside the region. */
  lemma RegionHitInsideRegion(region: Box, res: ModelResult)
    requires 0 <= res.box.x1 <= res.box.x2 <= Width(region) && 0 <= res.box.y1 <= res.box.y2 <= Height(region)
    ensures var b := Box(region.x1 + res.box.x1, region.y1 + res.box.y1, region.x1 + res.box.x2, region.y1 + res.box.y2);
            region.x1 <= b.x1 <= b.x2 <= region.x2 && region.y1 <= b.y1 <= b.y2 <= region.y2
  {
  }

  /** detect_in_region(image, region) without the enhancement step. */
  method DetectInRegion(region: Box, model: Box -> seq<ModelResult>) returns (r: Result<seq<Detection>>)
    ensures r == InRegion(region, model)
  {
    var x1, y1, x2, y2 := region.x1, region.y1, region.x2, region.y2;
    if x2 < x1 {
      return Err(ValueError("Coordinate 'right' is less than 'left'"));
    } else if y2 < y1 {
      return Err(ValueError("Coordinate 'lower' is less than 'upper'"));
    }
    if x2 - x1 == 0 || y2 - y1 == 0 {
      return Ok([]);
    }
    var results := model(region);
    var detections: seq<Detection> := [];
    var i := 0;
    while i < |results|
      invariant 0 <= i <= |results|
      invariant detections == RegionHits(x1, y1, results[..i])
    {
      assert results[..i + 1][..i] == results[..i];
      var res := results[i];
      if res.score > 0.25 {
        var box := res.box;
        detections := detections + [Detection(Signature, Box(x1 + box.x1, y1 + box.y1, x1 + box.x2, y1 + box.y2), res.score, TextGuided)];
      }
      i := i + 1;
    }
    assert results[..i] == results;
    r := Ok(detections);
  }

  // ---------------------------------------------------------------- _remove_overlapping_detections

  /** `_calculate_iou(det, kept) > 0.5` for some kept detection. */
  predicate Suppressed(d: Detection, kept: seq<Detection>)
  {
    exists k :: k in kept && PlainIou(d.box, k.box) > 0.5
  }

  /** The `filtered` list of a greedy pass over an already sorted list. */
  function Greedy(s: seq<Detection>): seq<Detection>
  {
    if |s| == 0 then []
    else
      var kept := Greedy(s[..|s| - 1]);
      if Suppressed(s[|s| - 1], kept) then kept else kept + [s[|s| - 1]]
  }

  /** _remove_overlapping_detections with the IoU of lines 387-402 (the intended line 187). */
  function RemoveOverlapping(ds: seq<Detection>): seq<Detection>
  {
    Greedy(SortDesc(ds))
  }

  /**
   * As written, line 187 binds `x11` and line 191 reads the unbound `x1_1`: the first
   * comparison, made as soon as there are two detections, raises NameError.
   */
  function RemoveOverlappingAsWritten(ds: seq<Detection>): Result<seq<Detection>>
  {
    if |ds| >= 2 then Err(NameError("x1_1")) else Ok(SortDesc(ds))
  }

  /** Two overlapping detections make the as-written suppression raise where the intended one keeps one of them. */
  lemma RemoveOverlappingAsWrittenRaises(a: Detection, b: Detection)
    requires a.conf >= b.conf && PlainIou(b.box, a.box) > 0.5
    ensures RemoveOverlappingAsWritten([a, b]) == Err(NameError("x1_1"))
    ensures RemoveOverlapping([a, b]) == [a]
  {
    SortDescOfSorted([a, b]);
    assert [a, b][..1] == [a] && [a][..0] == [];
    assert !Suppressed(a, []);
    assert Greedy([a]) == [a];
    assert Suppressed(b, [a]);
  }

  lemma {:induction false} GreedySubseq(s: seq<Detection>)
    ensures IsSubseq(Greedy(s), s)
    decreases |s|
  {
    if |s| == 0 {
      SubseqEmpty(s);
    } else {
      var pre, d := s[..|s| - 1], s[|s| - 1];
      GreedySubseq(pre);
      assert s == pre + [d];
      if Suppressed(d, Greedy(pre)) {
        SubseqExtend(Greedy(pre), pre, d);
      } else {
        SubseqAppendBoth(Greedy(pre), pre, d);
      }
    }
  }

  /** The most confident detection is always kept, first. */
  lemma {:induction false} GreedyKeepsFirst(s: seq<Detection>)
    requires |s| > 0
    ensures |Greedy(s)| > 0 && Greedy(s)[0] == s[0]
    decreases |s|
  {
    if |s| == 1 {
      assert s[..0] == [];
      assert !Suppressed(s[0], []);
    } else {
      var pre := s[..|s| - 1];
      GreedyKeepsFirst(pre);
    }
  }

  /** No two kept detections overlap with IoU above 0.5. */
  predicate Apart(r: seq<Detection>)
  {
    forall i, j :: 0 <= i < |r| && 0 <= j < |r| && i != j ==> PlainIou(r[i].box, r[j].box) <= 0.5
  }

  lemma AppendApart(kept: seq<Detection>, d: Detection)
    requires Apart(kept) && !Suppressed(d, kept)
    ensures Apart(kept + [d])
  {
    var r := kept + [d];
    forall i, j | 0 <= i < |r| && 0 <= j < |r| && i != j
      ensures PlainIou(r[i].box, r[j].box) <= 0.5
    {
      if i == |kept| {
        assert kept[j] in kept;
      } else if j == |kept| {
        assert kept[i] in kept;
        PlainIouSymmetric(r[i].box, r[j].box);
      } else {
        assert r[i] == kept[i] && r[j] == kept[j];
      }
    }
  }

  lemma {:induction false} GreedyApart(s: seq<Detection>)
    ensures Apart(Greedy(s))
    decreases |s|
  {
    if |s| > 0 {
      var pre, d := s[..|s| - 1], s[|s| - 1];
      GreedyApart(pre);
      if !Suppressed(d, Greedy(pre)) {
        AppendApart(Greedy(pre), d);
      }
    }
  }

  /** Whatever the greedy pass kept from a prefix it still holds after the next element. */
  lemma GreedyGrows(s: seq<Detection>)
    requires |s| > 0
    ensures forall e :: e in Greedy(s[..|s| - 1]) ==> e in Greedy(s)
  {
  }

  /** In a sorted list every element before the last is at least as confident as the last. */
  lemma SortedBeforeLast(s: seq<Detection>, k: Detection)
    requires SortedDesc(s) && |s| > 0 && k in s[..|s| - 1]
    ensures k.conf >= s[|s| - 1].conf
  {
    var j :| 0 <= j < |s| - 1 && s[..|s| - 1][j] == k;
    assert s[j] == k;
  }

  /** On a sorted list, each dropped detection overlaps (IoU above 0.5) a kept one at least as confident. */
  lemma {:induction false} GreedyCovers(s: seq<Detection>)
    requires SortedDesc(s)
    ensures forall d :: d in s ==>
              d in Greedy(s) || exists k :: k in Greedy(s) && PlainIou(d.box, k.box) > 0.5 && k.conf >= d.conf
    decreases |s|
  {
    if |s| > 0 {
      var pre, last := s[..|s| - 1], s[|s| - 1];
      var kept := Greedy(pre);
      assert SortedDesc(pre);
      GreedyCovers(pre);
      GreedyGrows(s);
      forall d | d in s
        ensures d in Greedy(s) || exists k :: k in Greedy(s) && PlainIou(d.box, k.box) > 0.5 && k.conf >= d.conf
      {
        if d in pre {
          if d !in kept {
            var k :| k in kept && PlainIou(d.box, k.box) > 0.5 && k.conf >= d.conf;
            assert k in Greedy(s);
          }
        } else {
          assert s == pre + [last];
          assert d == last;
          if Suppressed(last, kept) {
            var k :| k in kept && PlainIou(last.box, k.box) > 0.5;
            GreedySubseq(pre);
            SubseqMembers(kept, pre);
            SortedBeforeLast(s, k);
            assert k in Greedy(s);
          }
        }
      }
    }
  }

  /**
   * _remove_overlapping_detections: empty input gives []; the result is a subsequence of the
   * input sorted by confidence that starts with its first element, keeps no two boxes with
   * IoU above 0.5 and covers every dropped box by a kept one at least as confident.
   */
  lemma RemoveOverlappingSpec(ds: seq<Detection>)
    ensures |ds| == 0 ==> RemoveOverlapping(ds) == []
    ensures IsSubseq(RemoveOverlapping(ds), SortDesc(ds))
    ensures |ds| > 0 ==> |RemoveOverlapping(ds)| > 0 && RemoveOverlapping(ds)[0] == SortDesc(ds)[0]
    ensures Apart(RemoveOverlapping(ds))
    ensures forall d :: d in ds ==>
              d in RemoveOverlapping(ds) ||
              exists k :: k in RemoveOverlapping(ds) && PlainIou(d.box, k.box) > 0.5 && k.conf >= d.conf
  {
    var s := SortDesc(ds);
    GreedySubseq(s);
    if |ds| > 0 {
      GreedyKeepsFirst(s);
    }
    GreedyApart(s);
    GreedyCovers(s);
    forall d | d in ds ensures d in s {
      assert d in multiset(ds);
    }
  }

  /**
   * The loop of lines 170-181 on a list the caller hands over; the in-place sort is the
   * first step, and the caller's list, which it reorders, is never read again.
   */
  method RemoveOverlappingDetections(detections: seq<Detection>) returns (filtered: seq<Detection>)
    ensures filtered == RemoveOverlapping(detections)
  {
    if |detections| == 0 {
      return [];
    }
    var sorted := SortDesc(detections);
    filtered := [];
    var i := 0;
    while i < |sorted|
      invariant 0 <= i <= |sorted|
      invariant filtered == Greedy(sorted[..i])
    {
      assert sorted[..i + 1][..i] == sorted[..i];
      var det := sorted[i];
      var keep := NotSuppressed(det, filtered);
      if keep {
        filtered := filtered + [det];
      }
      i := i + 1;
    }
    assert sorted[..i] == sorted;
  }

  /** The inner loop of _remove_overlapping_detections: `det` is kept unless some kept box overlaps it by more than 0.5. */
  method NotSuppressed(det: Detection, filtered: seq<Detection>) returns (keep: bool)
    ensures keep <==> !Suppressed(det, filtered)
  {
    keep := true;
    var j := 0;
    while j < |filtered| && keep
      invariant 0 <= j <= |filtered|
      invariant keep <==> !exists m :: 0 <= m < j && PlainIou(det.box, filtered[m].box) > 0.5
    {
      if PlainIou(det.box, filtered[j].box) > 0.5 {
        keep := false;
      }
      j := j + 1;
    }
  }

  // ---------------------------------------------------------------- detect_signatures

  /** The whole-page pass: scores above 0.3, boxes as reported, tagged general. */
  function GeneralHits(results: seq<ModelResult>): seq<Detection>
  {
    if |results| == 0 then []
    else
      var res := results[|results| - 1];
      GeneralHits(results[..|results| - 1])
      + (if res.score > 0.3 then [Detection(Signature, res.box, res.score, General)] else [])
  }

  /** The text-guided detections of all regions, in region order; the first failing crop raises. */
  function GuidedPass(regions: seq<TextRegion>, model: Box -> seq<ModelResult>): Result<seq<Detection>>
  {
    if |regions| == 0 then Ok([])
    else
      var prev := GuidedPass(regions[..|regions| - 1], model);
      if prev.Err? then prev
      else
        var here := InRegion(regions[|regions| - 1].box, model);
        if here.Err? then here else Ok(prev.value + here.value)
  }

  /**
   * detect_signatures with line 150 appending to `all_detections` (the list it evidently
   * means): the whole page, the rectangle [0, 0, W, H], is searched only when the
   * text-guided pass found nothing.
   */
  function Signatures(lines: seq<TextLine>, W: int, H: int, model: Box -> seq<ModelResult>): Result<seq<Detection>>
  {
    var guided := GuidedPass(CueRegions(lines, W, H), model);
    if guided.Err? then guided
    else if |guided.value| > 0 then Ok(RemoveOverlapping(guided.value))
    else Ok(RemoveOverlapping(GeneralHits(model(Box(0, 0, W, H)))))
  }

  /**
   * detect_signatures as written: the regions raise NameError at `ImageEnhance`, and the
   * whole-page pass raises NameError at the undefined `detections` on its first result
   * above 0.3; a pass that finds nothing returns [].
   */
  function SignaturesAsWritten(lines: seq<TextLine>, W: int, H: int, model: Box -> seq<ModelResult>): Result<seq<Detection>>
  {
    var guided := GuidedPassAsWritten(CueRegions(lines, W, H), model);
    if guided.Err? then guided
    else if |GeneralHits(model(Box(0, 0, W, H)))| > 0 then Err(NameError("detections"))
    else Ok([])
  }

  function GuidedPassAsWritten(regions: seq<TextRegion>, model: Box -> seq<ModelResult>): Result<seq<Detection>>
  {
    if |regions| == 0 then Ok([])
    else
      var prev := GuidedPassAsWritten(regions[..|regions| - 1], model);
      if prev.Err? then prev
      else
        var here := InRegionAsWritten(regions[|regions| - 1].box, model);
        if here.Err? then here else Ok(prev.value + here.value)
  }

  lemma {:induction false} TextGuidedAsWrittenEmpty(regions: seq<TextRegion>, model: Box -> seq<ModelResult>)
    ensures GuidedPassAsWritten(regions, model).Ok? ==> GuidedPassAsWritten(regions, model).value == []
    decreases |regions|
  {
    if |regions| > 0 {
      TextGuidedAsWrittenEmpty(regions[..|regions| - 1], model);
      InRegionAsWrittenFindsNothing(regions[|regions| - 1].box, model);
    }
  }

  /** As written, the signature detector never reports a signature: it returns [] or raises NameError. */
  lemma SignaturesAsWrittenFindNothing(lines: seq<TextLine>, W: int, H: int, model: Box -> seq<ModelResult>)
    ensures SignaturesAsWritten(lines, W, H, model).Ok? ==> SignaturesAsWritten(lines, W, H, model).value == []
  {
  }

  /** A page whose model finds one signature above 0.3 and has no text cue shows the difference. */
  lemma SignaturesAsWrittenMissesPageHit(W: int, H: int, model: Box -> seq<ModelResult>, res: ModelResult)
    requires model(Box(0, 0, W, H)) == [res] && res.score > 0.3
    ensures SignaturesAsWritten([], W, H, model) == Err(NameError("detections"))
    ensures Signatures([], W, H, model) == Ok([Detection(Signature, res.box, res.score, General)])
  {
    var d := Detection(Signature, res.box, res.score, General);
    assert CueRegions([], W, H) == [];
    assert GuidedPassAsWritten([], model) == Ok([]);
    assert GuidedPass([], model) == Ok([]);
    GeneralHitsSingle(res);
    RemoveOverlappingSingle(d);
  }

  lemma GeneralHitsSingle(res: ModelResult)
    requires res.score > 0.3
    ensures GeneralHits([res]) == [Detection(Signature, res.box, res.score, General)]
  {
    assert [res][..0] == [];
  }

  lemma RemoveOverlappingSingle(d: Detection)
    ensures RemoveOverlapping([d]) == [d]
  {
    SortDescOfSorted([d]);
    assert [d][..0] == [];
    assert !Suppressed(d, []);
    assert Greedy([d]) == Greedy([]) + [d];
  }

  /** The whole-page pass runs only when the regions found nothing, and every result is a signature. */
  lemma SignaturesFallbackRule(lines: seq<TextLine>, W: int, H: int, model: Box -> seq<ModelResult>)
    ensures var guided := GuidedPass(CueRegions(lines, W, H), model);
            var r := Signatures(lines, W, H, model);
            guided.Ok? && |guided.value| > 0 ==> r == Ok(RemoveOverlapping(guided.value))
    ensures var guided := GuidedPass(CueRegions(lines, W, H), model);
            var r := Signatures(lines, W, H, model);
            guided.Ok? && |guided.value| == 0 ==> r == Ok(RemoveOverlapping(GeneralHits(model(Box(0, 0, W, H)))))
  {
  }

  /** detect_signatures(image) for a W x H image (after the resize) with OCR lines `lines`. */
  method DetectSignatures(lines: seq<TextLine>, W: int, H: int, model: Box -> seq<ModelResult>)
    returns (r: Result<seq<Detection>>)
    ensures r == Signatures(lines, W, H, model)
  {
    var regions := FindSignatureTextRegions(lines, W, H);
    var guided := DetectInRegions(regions, model);
    if guided.Err? {
      return guided;
    }
    var all := guided.value;
    if |all| == 0 {
      all := DetectOnPage(model(Box(0, 0, W, H)));
    }
    var filtered := RemoveOverlappingDetections(all);
    r := Ok(filtered);
  }

  /** The loop of detect_signatures over the text regions; the first failing crop raises. */
  method DetectInRegions(regions: seq<TextRegion>, model: Box -> seq<ModelResult>)
    returns (r: Result<seq<Detection>>)
    ensures r == GuidedPass(regions, model)
  {
    var all: seq<Detection> := [];
    var i := 0;
    while i < |regions|
      invariant 0 <= i <= |regions|
      invariant GuidedPass(regions[..i], model) == Ok(all)
    {
      assert regions[..i + 1][..i] == regions[..i];
      var found := DetectInRegion(regions[i].box, model);
      if found.Err? {
        GuidedPassPropagates(regions, i + 1, model);
        return found;
      }
      all := all + found.value;
      i := i + 1;
    }
    assert regions[..i] == regions;
    r := Ok(all);
  }

  /** The whole-page loop of detect_signatures: every result above 0.3 becomes a general signature. */
  method DetectOnPage(results: seq<ModelResult>) returns (all: seq<Detection>)
    ensures all == GeneralHits(results)
  {
    all := [];
    var j := 0;
    while j < |results|
      invariant 0 <= j <= |results|
      invariant all == GeneralHits(results[..j])
    {
      assert results[..j + 1][..j] == results[..j];
      var res := results[j];
      if res.score > 0.3 {
        all := all + [Detection(Signature, res.box, res.score, General)];
      }
      j := j + 1;
    }
    assert results[..j] == results;
  }

  /** Once a prefix of the regions fails, the whole pass fails the same way. */
  lemma {:induction false} GuidedPassPropagates(regions: seq<TextRegion>, n: nat, model: Box -> seq<ModelResult>)
    requires n <= |regions| && GuidedPass(regions[..n], model).Err?
    ensures GuidedPass(regions, model) == GuidedPass(regions[..n], model)
    decreases |regions| - n
  {
    if n < |regions| {
      assert regions[..n + 1][..n] == regions[..n];
      GuidedPassPropagates(regions, n + 1, model);
    } else {
      assert regions[..n] == regions;
    }
  }
}
