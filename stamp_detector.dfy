/**
 * `EnhancedStampDetector.detect_stamps` (backend/app/services/detection_services.py):
 * the YOLO boxes above 0.3 confidence, truncated to integers, whose area lies in
 * [500, 50000] and whose width-to-height ratio lies in [0.5, 2.0]. The YOLO model
 * is an oracle: its results are an input, one list of boxes per result.
 */
module StampDetector {
  import opened Detections

  /** One YOLO box: `xyxy[0]` and `conf`. */
  datatype YoloBox = YoloBox(xyxy: RealBox, conf: real)

  const MinStampArea: int := 500
  const MaxStampArea: int := 50000

  /** `width / height if height > 0 else 0`. */
  function AspectRatio(b: Box): real
  {
    if Height(b) > 0 then Width(b) as real / Height(b) as real else 0.0
  }

  /** The size and shape filter applied to a truncated box. */
  predicate StampShaped(b: Box)
  {
    MinStampArea <= Width(b) * Height(b) <= MaxStampArea && 0.5 <= AspectRatio(b) <= 2.0
  }

  predicate Accepted(y: YoloBox)
  {
    y.conf > 0.3 && StampShaped(TruncBox(y.xyxy))
  }

  /** The detections of one result's boxes, in order. */
  function FromBoxes(bs: seq<YoloBox>): seq<Detection>
  {
    if |bs| == 0 then []
    else
      var y := bs[|bs| - 1];
      FromBoxes(bs[..|bs| - 1]) + (if Accepted(y) then [Detection(Stamp, TruncBox(y.xyxy), y.conf, NoSource)] else [])
  }

  /** The detections of all results, result after result. */
  function Stamps(results: seq<seq<YoloBox>>): seq<Detection>
  {
    if |results| == 0 then [] else Stamps(results[..|results| - 1]) + FromBoxes(results[|results| - 1])
  }

  /** detect_stamps(image) on the model's results. */
  method DetectStamps(results: seq<seq<YoloBox>>) returns (detections: seq<Detection>)
    ensures detections == Stamps(results)
  {
    detections := [];
    var i := 0;
    while i < |results|
      invariant 0 <= i <= |results|
      invariant detections == Stamps(results[..i])
    {
      assert results[..i + 1][..i] == results[..i];
      var boxes := results[i];
      var j := 0;
      while j < |boxes|
        invariant 0 <= j <= |boxes|
        invariant detections == Stamps(results[..i]) + FromBoxes(boxes[..j])
      {
        assert boxes[..j + 1][..j] == boxes[..j];
        var conf := boxes[j].conf;
        if conf > 0.3 {
          var b := TruncBox(boxes[j].xyxy);
          var area := (b.x2 - b.x1) * (b.y2 - b.y1);
          if MinStampArea <= area <= MaxStampArea {
            var width := b.x2 - b.x1;
            var height := b.y2 - b.y1;
            var aspectRatio := if height > 0 then width as real / height as real else 0.0;
            if 0.5 <= aspectRatio <= 2.0 {
              detections := detections + [Detection(Stamp, b, conf, NoSource)];
            }
          }
        }
        j := j + 1;
      }
      assert boxes[..j] == boxes;
      i := i + 1;
    }
    assert results[..i] == results;
  }

  lemma RatioBounds(w: real, h: real)
    requires h > 0.0
    ensures 0.5 <= w / h <==> h <= 2.0 * w
    ensures w / h <= 2.0 <==> w <= 2.0 * h
  {
    var q := w / h;
    assert q * h == w;
    if q < 0.5 {
      assert q * h < 0.5 * h;
    } else {
      assert 0.5 * h <= q * h;
    }
    if q > 2.0 {
      assert q * h > 2.0 * h;
    } else {
      assert q * h <= 2.0 * h;
    }
  }

  /** For a positive height the ratio test is h <= 2 w and w <= 2 h. */
  lemma AspectCrossMultiplied(b: Box)
    requires Height(b) > 0
    ensures 0.5 <= AspectRatio(b) <= 2.0 <==> Height(b) <= 2 * Width(b) && Width(b) <= 2 * Height(b)
  {
    RatioBounds(Width(b) as real, Height(b) as real);
  }

  /**
   * Every stamp is above 0.3 confidence, has area in [500, 50000], a positive height and a
   * width within half to twice its height, with the truncated box of a model box.
   */
  lemma {:induction false} FromBoxesSound(bs: seq<YoloBox>)
    ensures forall d :: d in FromBoxes(bs) ==>
              d.kind == Stamp && d.conf > 0.3 && MinStampArea <= Width(d.box) * Height(d.box) <= MaxStampArea &&
              Height(d.box) > 0 && Height(d.box) <= 2 * Width(d.box) && Width(d.box) <= 2 * Height(d.box) &&
              exists y :: y in bs && y.conf == d.conf && d.box == TruncBox(y.xyxy)
    decreases |bs|
  {
    if |bs| > 0 {
      var pre, y := bs[..|bs| - 1], bs[|bs| - 1];
      FromBoxesSound(pre);
      assert bs == pre + [y];
      if Accepted(y) {
        var b := TruncBox(y.xyxy);
        assert Height(b) > 0;
        AspectCrossMultiplied(b);
      }
    }
  }

  lemma {:induction false} StampsSound(results: seq<seq<YoloBox>>)
    ensures forall d :: d in Stamps(results) ==>
              d.kind == Stamp && d.conf > 0.3 && MinStampArea <= Width(d.box) * Height(d.box) <= MaxStampArea &&
              Height(d.box) > 0 && Height(d.box) <= 2 * Width(d.box) && Width(d.box) <= 2 * Height(d.box)
    decreases |results|
  {
    if |results| > 0 {
      StampsSound(results[..|results| - 1]);
      FromBoxesSound(results[|results| - 1]);
    }
  }

  /** Order is kept: the stamps of earlier boxes come before those of later ones. */
  lemma {:induction false} FromBoxesAppend(a: seq<YoloBox>, b: seq<YoloBox>)
    ensures FromBoxes(a + b) == FromBoxes(a) + FromBoxes(b)
    decreases |b|
  {
    if |b| > 0 {
      var b' := b[..|b| - 1];
      assert (a + b)[..|a + b| - 1] == a + b';
      FromBoxesAppend(a, b');
    } else {
      assert a + b == a;
    }
  }

  /** A box above 0.3 whose truncation has the stamp shape is reported. */
  lemma {:induction false} FromBoxesComplete(bs: seq<YoloBox>, i: int)
    requires 0 <= i < |bs| && Accepted(bs[i])
    ensures Detection(Stamp, TruncBox(bs[i].xyxy), bs[i].conf, NoSource) in FromBoxes(bs)
    decreases |bs|
  {
    if i < |bs| - 1 {
      var pre := bs[..|bs| - 1];
      assert pre[i] == bs[i];
      FromBoxesComplete(pre, i);
    }
  }
}
