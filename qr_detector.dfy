/**
 * `RobustQRCodeDetector.detect_qr_codes` (backend/app/services/detection_services.py):
 * normalises the records the QR detector returns into QR-code detections.
 * The preprocessing and the detector itself are an oracle whose outcome is
 * either a list of records or an exception.
 */
module QrDetector {
  import opened Detections

  /** One record of the QR detector's output, by the shape the adapter recognises. */
  datatype QrRecord =
    | AttrRecord(box: RealBox, conf: real)   // has a `bbox_xyxy` attribute
    | DictRecord(box: RealBox, conf: real)   // a dict with 'bbox_xyxy' and 'confidence'
    | Malformed                              // reading its fields raises
    | Unrecognised                           // neither shape: skipped

  /** The records that are read, in order, up to the first one whose fields raise. */
  predicate AllReadable(rs: seq<QrRecord>)
  {
    forall i :: 0 <= i < |rs| ==> !rs[i].Malformed?
  }

  /** The results list of a pass over readable records: confidence above 0.1, truncated box. */
  function Collect(rs: seq<QrRecord>): seq<Detection>
  {
    if |rs| == 0 then []
    else
      var r := rs[|rs| - 1];
      Collect(rs[..|rs| - 1])
      + (if (r.AttrRecord? || r.DictRecord?) && r.conf > 0.1 then [Detection(QrCode, TruncBox(r.box), r.conf, NoSource)] else [])
  }

  /**
   * detect_qr_codes: `records` is None when the preprocessing or the detector raised; any
   * exception, including one raised while reading a record, is caught and gives [].
   */
  function QrCodes(records: Option<seq<QrRecord>>): seq<Detection>
  {
    if records.None? || !AllReadable(records.value) then [] else Collect(records.value)
  }

  method DetectQrCodes(records: Option<seq<QrRecord>>) returns (results: seq<Detection>)
    ensures results == QrCodes(records)
  {
    if records.None? {
      return [];
    }
    var rs := records.value;
    results := [];
    var i := 0;
    while i < |rs|
      invariant 0 <= i <= |rs|
      invariant AllReadable(rs[..i])
      invariant results == Collect(rs[..i])
    {
      var rec := rs[i];
      assert rs[..i + 1][..i] == rs[..i];
      assert rs[..i + 1] == rs[..i] + [rec];
      AllReadableAppend(rs[..i], [rec]);
      if rec.Malformed? {
        // the exception leaves the loop and the handler returns []
        return [];
      }
      if rec.Unrecognised? {
        i := i + 1;
        continue;
      }
      if rec.conf > 0.1 {
        results := results + [Detection(QrCode, TruncBox(rec.box), rec.conf, NoSource)];
      }
      i := i + 1;
    }
    assert rs[..i] == rs;
  }

  /** Every result is a QR code with confidence above 0.1 and the truncated box of a record of that confidence. */
  lemma {:induction false} CollectSound(rs: seq<QrRecord>)
    ensures |Collect(rs)| <= |rs|
    ensures forall d :: d in Collect(rs) ==>
              d.kind == QrCode && d.conf > 0.1 && d.source == NoSource &&
              exists r :: r in rs && (r.AttrRecord? || r.DictRecord?) && r.conf == d.conf && d.box == TruncBox(r.box)
    decreases |rs|
  {
    if |rs| > 0 {
      var pre := rs[..|rs| - 1];
      CollectSound(pre);
      assert rs == pre + [rs[|rs| - 1]];
    }
  }

  /** Collecting is done record by record: the results of a concatenation are concatenated. */
  lemma {:induction false} CollectAppend(a: seq<QrRecord>, b: seq<QrRecord>)
    ensures Collect(a + b) == Collect(a) + Collect(b)
    decreases |b|
  {
    if |b| > 0 {
      var b' := b[..|b| - 1];
      assert (a + b)[..|a + b| - 1] == a + b';
      CollectAppend(a, b');
    } else {
      assert a + b == a;
    }
  }

  lemma AllReadableAppend(a: seq<QrRecord>, b: seq<QrRecord>)
    ensures AllReadable(a + b) <==> AllReadable(a) && AllReadable(b)
  {
    if AllReadable(a) && AllReadable(b) {
      forall i | 0 <= i < |a + b| ensures !(a + b)[i].Malformed? {
        if i >= |a| { assert (a + b)[i] == b[i - |a|]; }
      }
    }
    if AllReadable(a + b) {
      forall i | 0 <= i < |b| ensures !b[i].Malformed? {
        assert (a + b)[|a| + i] == b[i];
      }
      forall i | 0 <= i < |a| ensures !a[i].Malformed? {
        assert (a + b)[i] == a[i];
      }
    }
  }

  /** An unrecognised record is skipped: removing it changes nothing. */
  lemma SkipUnrecognised(a: seq<QrRecord>, b: seq<QrRecord>)
    ensures QrCodes(Some(a + [Unrecognised] + b)) == QrCodes(Some(a + b))
  {
    var u := [Unrecognised];
    assert u[0] == Unrecognised;
    AllReadableAppend(a + u, b);
    AllReadableAppend(a, u);
    AllReadableAppend(a, b);
    assert AllReadable(a + u + b) <==> AllReadable(a + b);
    if AllReadable(a + b) {
      CollectAppend(a + u, b);
      CollectAppend(a, u);
      CollectAppend(a, b);
      assert u[..0] == [];
      assert Collect(u) == [];
      calc {
        Collect(a + u + b);
        Collect(a + u) + Collect(b);
        Collect(a) + Collect(u) + Collect(b);
        Collect(a) + Collect(b);
        Collect(a + b);
      }
    }
  }

  /** A record that raises anywhere in the list empties the result. */
  lemma MalformedEmpties(a: seq<QrRecord>, b: seq<QrRecord>)
    ensures QrCodes(Some(a + [Malformed] + b)) == []
  {
    assert (a + [Malformed] + b)[|a|] == Malformed;
  }

  /** A readable record above the threshold is reported, with its box truncated. */
  lemma {:induction false} CollectComplete(rs: seq<QrRecord>, i: int)
    requires 0 <= i < |rs| && (rs[i].AttrRecord? || rs[i].DictRecord?) && rs[i].conf > 0.1
    ensures Detection(QrCode, TruncBox(rs[i].box), rs[i].conf, NoSource) in Collect(rs)
    decreases |rs|
  {
    if i < |rs| - 1 {
      var pre := rs[..|rs| - 1];
      assert pre[i] == rs[i];
      CollectComplete(pre, i);
    }
  }
}
