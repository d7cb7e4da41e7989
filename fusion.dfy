/**
 * The fusion pipeline `Innovations.detect_with_overlap_handling`
 * (backend/app/services/innovations.py): normalise the detector outputs,
 * replace every stamp by its refinement, boost signatures that sit inside a
 * stamp while attenuating the stamps they overlap, drop near-duplicate stamps,
 * append the QR codes, boost everything near a keyword and sort by confidence.
 *
 * Each step is a function on lists; the method `DetectWithOverlapHandling`
 * runs the source's loops and is proved equal to their composition `Fuse`.
 *
 * The source mutates the confidence of records that two lists share:
 * `final_dets.extend(stamps)` puts the very stamp records into `final_dets`
 * before the loop multiplies their confidence by 0.85. No record is reachable
 * twice through one list (normalisation and refinement build fresh records),
 * so the list of stamps after the loop followed by the signatures is exactly
 * what `final_dets` holds; the model builds that list.
 */
module Fusion {
  import opened Detections
  import opened Ordering
  import opened Geometry
  import opened Keywords
  import opened Refinement

  /** Python's `min(a, b)`. */
  function MinR(a: real, b: real): real { if b < a then b else a }

  /** `min(0.999, c + x)`: the capped boost used by both boosting steps. */
  function AddCapped(c: real, x: real): real { MinR(0.999, c + x) }

  function Pow(x: real, n: nat): real
  {
    if n == 0 then 1.0 else x * Pow(x, n - 1)
  }

  // ---------------------------------------------------------------- step 1: norm

  /** `norm(det)`: label, integer box and float confidence are kept, every other key (the source tag) is dropped. */
  function Norm(d: Detection): Detection
  {
    Detection(d.kind, d.box, d.conf, NoSource)
  }

  function NormAll(ds: seq<Detection>): seq<Detection>
  {
    seq(|ds|, i requires 0 <= i < |ds| => Norm(ds[i]))
  }

  /** `detector.detect_...(image) if detector else []`. */
  function OrEmpty(ds: Option<seq<Detection>>): seq<Detection>
  {
    if ds.Some? then ds.value else []
  }

  // ---------------------------------------------------------------- step 2: refine stamps

  /** `extra if extra else [st]`. */
  function RefineOne(W: int, H: int, st: Detection, rt: Option<Box -> RtOutputs>,
                     detect: Box -> seq<Detection>): seq<Detection>
  {
    var extra := Expanded(W, H, st.box, rt, detect);
    if |extra| > 0 then extra else [st]
  }

  /**
   * The refined stamp list: every stamp in turn replaced by the output of
   * `detect_signature_on_stamp_expanded`, or kept when that output is empty.
   * This is the corrected line 137 (see `RefineStampsAsWritten`).
   */
  function RefineStamps(W: int, H: int, stamps: seq<Detection>, rt: Option<Box -> RtOutputs>,
                        detect: Box -> seq<Detection>): seq<Detection>
  {
    if |stamps| == 0 then []
    else RefineStamps(W, H, stamps[..|stamps| - 1], rt, detect) + RefineOne(W, H, stamps[|stamps| - 1], rt, detect)
  }

  /**
   * Line 137 as written: without an RT-DETR detector it calls `self.recheck_partial_stamp`,
   * which `Innovations` does not define, so the first stamp raises AttributeError.
   */
  function RefineStampsAsWritten(W: int, H: int, stamps: seq<Detection>, rt: Option<Box -> RtOutputs>,
                                 detect: Box -> seq<Detection>): Result<seq<Detection>>
  {
    if rt.None? && |stamps| > 0 then Err(AttributeError("recheck_partial_stamp"))
    else Ok(RefineStamps(W, H, stamps, rt, detect))
  }

  /** Without RT-DETR the pipeline as written fails on every page that has a stamp. */
  lemma RefineStampsAsWrittenFails(W: int, H: int, stamps: seq<Detection>, detect: Box -> seq<Detection>)
    requires |stamps| > 0
    ensures RefineStampsAsWritten(W, H, stamps, None, detect) == Err(AttributeError("recheck_partial_stamp"))
    ensures RefineStamps(W, H, stamps, None, detect) != []
  {
    RefineStampsLength(W, H, stamps, None, detect);
  }

  /** Line 137 with `detect_signature_on_stamp` in place of the missing method, for one stamp. */
  function FallbackOne(st: Detection, detect: Box -> seq<Detection>): seq<Detection>
  {
    var extra := Fallback(st.box, detect);
    if |extra| > 0 then extra else [st]
  }

  /** The stamps refined front to back by `detect_signature_on_stamp` alone. */
  function FallbackAll(stamps: seq<Detection>, detect: Box -> seq<Detection>): seq<Detection>
  {
    if |stamps| == 0 then [] else FallbackOne(stamps[0], detect) + FallbackAll(stamps[1..], detect)
  }

  /**
   * Without RT-DETR the corrected step replaces each stamp by the detections
   * `detect_signature_on_stamp` finds on it when there are any, and keeps it otherwise.
   */
  lemma {:induction false} RefineStampsWithoutRtDetr(W: int, H: int, stamps: seq<Detection>, detect: Box -> seq<Detection>)
    ensures RefineStamps(W, H, stamps, None, detect) == FallbackAll(stamps, detect)
    decreases |stamps|
  {
    if |stamps| > 0 {
      var n := |stamps| - 1;
      RefineStampsWithoutRtDetr(W, H, stamps[..n], detect);
      FallbackAllSnoc(stamps[..n], stamps[n], detect);
      assert stamps[..n] + [stamps[n]] == stamps;
    }
  }

  lemma {:induction false} FallbackAllSnoc(s: seq<Detection>, st: Detection, detect: Box -> seq<Detection>)
    ensures FallbackAll(s + [st], detect) == FallbackAll(s, detect) + FallbackOne(st, detect)
    decreases |s|
  {
    if |s| == 0 {
      assert [] + [st] == [st];
      assert [st][1..] == [];
    } else {
      assert (s + [st])[0] == s[0];
      assert (s + [st])[1..] == s[1..] + [st];
      FallbackAllSnoc(s[1..], st, detect);
    }
  }

  /** Every stamp contributes at least one item, so refinement never shrinks the list. */
  lemma {:induction false} RefineStampsLength(W: int, H: int, stamps: seq<Detection>, rt: Option<Box -> RtOutputs>,
                                              detect: Box -> seq<Detection>)
    ensures |RefineStamps(W, H, stamps, rt, detect)| >= |stamps|
    decreases |stamps|
  {
    if |stamps| > 0 {
      RefineStampsLength(W, H, stamps[..|stamps| - 1], rt, detect);
    }
  }

  /** When refinement finds nothing on any stamp, the stamps are kept unchanged and in order. */
  lemma RefineStampsNothingFound(W: int, H: int, stamps: seq<Detection>, rt: Option<Box -> RtOutputs>,
                                 detect: Box -> seq<Detection>)
    requires forall k {:trigger Expanded(W, H, stamps[k].box, rt, detect)} :: 0 <= k < |stamps| ==> |Expanded(W, H, stamps[k].box, rt, detect)| == 0
    ensures RefineStamps(W, H, stamps, rt, detect) == stamps
  {
    NothingFoundUpTo(W, H, stamps, rt, detect, |stamps|);
    assert stamps[..|stamps|] == stamps;
  }

  lemma {:induction false} NothingFoundUpTo(W: int, H: int, stamps: seq<Detection>, rt: Option<Box -> RtOutputs>,
                                            detect: Box -> seq<Detection>, i: nat)
    requires i <= |stamps|
    requires forall k {:trigger Expanded(W, H, stamps[k].box, rt, detect)} :: 0 <= k < |stamps| ==> |Expanded(W, H, stamps[k].box, rt, detect)| == 0
    ensures RefineStamps(W, H, stamps[..i], rt, detect) == stamps[..i]
    decreases i
  {
    if i > 0 {
      var pre := stamps[..i - 1];
      var last := stamps[i - 1];
      var s := stamps[..i];
      PrefixSnoc(stamps, i);
      NothingFoundUpTo(W, H, stamps, rt, detect, i - 1);
      RefineOneNothingFound(W, H, last, rt, detect);
      calc {
        RefineStamps(W, H, s, rt, detect);
        RefineStamps(W, H, pre, rt, detect) + RefineOne(W, H, last, rt, detect);
        pre + [last];
        s;
      }
    }
  }

  /** A prefix one longer is the shorter prefix with the next element appended. */
  lemma PrefixSnoc(s: seq<Detection>, i: nat)
    requires 0 < i <= |s|
    ensures s[..i][..i - 1] == s[..i - 1] && s[..i][i - 1] == s[i - 1]
    ensures s[..i] == s[..i - 1] + [s[i - 1]]
  {
  }

  lemma RefineOneNothingFound(W: int, H: int, st: Detection, rt: Option<Box -> RtOutputs>,
                              detect: Box -> seq<Detection>)
    requires |Expanded(W, H, st.box, rt, detect)| == 0
    ensures RefineOne(W, H, st, rt, detect) == [st]
  {
  }

  /** The loop `for st in stamps: refined_stamps.extend(extra if extra else [st])`. */
  method RefineAll(W: int, H: int, stamps: seq<Detection>, rt: Option<Box -> RtOutputs>,
                   detect: Box -> seq<Detection>) returns (refined: seq<Detection>)
    ensures refined == RefineStamps(W, H, stamps, rt, detect)
  {
    refined := [];
    var i := 0;
    while i < |stamps|
      invariant 0 <= i <= |stamps|
      invariant refined == RefineStamps(W, H, stamps[..i], rt, detect)
    {
      assert stamps[..i + 1][..i] == stamps[..i];
      var extra := DetectSignatureOnStampExpanded(W, H, stamps[i].box, rt, detect);
      refined := refined + (if |extra| > 0 then extra else [stamps[i]]);
      i := i + 1;
    }
    assert stamps[..i] == stamps;
  }

  // ---------------------------------------------------------------- step 3: overlap

  /** `calculate_iou(sig, st) > 0.1`. */
  predicate Touches(a: Box, b: Box) { FlooredIou(a, b) > 0.1 }

  /** The boost condition: touching, and `is_contained(sig, st, 0.5)`. */
  predicate Encloses(sig: Box, st: Box) { Touches(sig, st) && IsContained(sig, st, 0.5) }

  /** A signature's confidence after the inner loop has visited the given stamps. */
  function SigConf(c: real, sig: Box, stamps: seq<Detection>): real
  {
    if |stamps| == 0 then c
    else
      var prev := SigConf(c, sig, stamps[..|stamps| - 1]);
      if Encloses(sig, stamps[|stamps| - 1].box) then AddCapped(prev, 0.2) else prev
  }

  /** A stamp's confidence after the outer loop has visited the given signatures. */
  function StampConf(c: real, st: Box, sigs: seq<Detection>): real
  {
    if |sigs| == 0 then c
    else
      var prev := StampConf(c, st, sigs[..|sigs| - 1]);
      if Touches(sigs[|sigs| - 1].box, st) then prev * 0.85 else prev
  }

  /** The number of stamps that enclose the signature. */
  function EnclosingCount(sig: Box, stamps: seq<Detection>): nat
  {
    if |stamps| == 0 then 0
    else EnclosingCount(sig, stamps[..|stamps| - 1]) + (if Encloses(sig, stamps[|stamps| - 1].box) then 1 else 0)
  }

  /** The number of signatures that touch the stamp. */
  function TouchCount(st: Box, sigs: seq<Detection>): nat
  {
    if |sigs| == 0 then 0
    else TouchCount(st, sigs[..|sigs| - 1]) + (if Touches(sigs[|sigs| - 1].box, st) then 1 else 0)
  }

  /** `final_dets` after the overlap loop: the attenuated stamps, then the boosted signatures. */
  function OverlapStep(sigs: seq<Detection>, stamps: seq<Detection>): seq<Detection>
  {
    seq(|stamps|, j requires 0 <= j < |stamps| => stamps[j].(conf := StampConf(stamps[j].conf, stamps[j].box, sigs)))
    + seq(|sigs|, i requires 0 <= i < |sigs| => sigs[i].(conf := SigConf(sigs[i].conf, sigs[i].box, stamps)))
  }

  /** Boosting k >= 1 times by 0.2 with the 0.999 cap is one capped boost by 0.2 k. */
  lemma {:induction false} SigConfClosedForm(c: real, sig: Box, stamps: seq<Detection>)
    ensures var k := EnclosingCount(sig, stamps);
            SigConf(c, sig, stamps) == if k == 0 then c else AddCapped(c, 0.2 * k as real)
    decreases |stamps|
  {
    if |stamps| > 0 {
      SigConfClosedForm(c, sig, stamps[..|stamps| - 1]);
    }
  }

  /** c multiplied n times by 0.85, one multiplication per touching signature. */
  function Attenuate(c: real, n: nat): real
  {
    if n == 0 then c else Attenuate(c, n - 1) * 0.85
  }

  lemma {:induction false} AttenuatePow(c: real, n: nat)
    ensures Attenuate(c, n) == c * Pow(0.85, n)
  {
    if n > 0 {
      AttenuatePow(c, n - 1);
      var p := Pow(0.85, n - 1);
      AttenuateStep(c, p, Attenuate(c, n - 1));
    }
  }

  lemma AttenuateStep(c: real, p: real, prev: real)
    requires prev == c * p
    ensures prev * 0.85 == c * (0.85 * p)
  {
  }

  lemma {:induction false} StampConfAttenuates(c: real, st: Box, sigs: seq<Detection>)
    ensures StampConf(c, st, sigs) == Attenuate(c, TouchCount(st, sigs))
    decreases |sigs|
  {
    if |sigs| > 0 {
      StampConfAttenuates(c, st, sigs[..|sigs| - 1]);
    }
  }

  /** Each touching signature multiplies the stamp's confidence by 0.85, contained or not. */
  lemma StampConfClosedForm(c: real, st: Box, sigs: seq<Detection>)
    ensures StampConf(c, st, sigs) == c * Pow(0.85, TouchCount(st, sigs))
  {
    StampConfAttenuates(c, st, sigs);
    AttenuatePow(c, TouchCount(st, sigs));
  }

  /** Attenuation keeps a confidence in [0, c]. */
  lemma {:induction false} StampConfBounds(c: real, st: Box, sigs: seq<Detection>)
    requires c >= 0.0
    ensures 0.0 <= StampConf(c, st, sigs) <= c
    decreases |sigs|
  {
    if |sigs| > 0 {
      StampConfBounds(c, st, sigs[..|sigs| - 1]);
    }
  }

  /** A boost keeps a confidence from [0, 1] in [0, 1] and never lowers it below the cap. */
  lemma AddCappedBounds(c: real, x: real)
    requires 0.0 <= c <= 1.0 && x >= 0.0
    ensures 0.0 <= AddCapped(c, x) <= 1.0
    ensures AddCapped(c, x) >= MinR(c, 0.999)
  {
  }

  lemma {:induction false} SigConfBounds(c: real, sig: Box, stamps: seq<Detection>)
    requires 0.0 <= c <= 1.0
    ensures 0.0 <= SigConf(c, sig, stamps) <= 1.0
    decreases |stamps|
  {
    if |stamps| > 0 {
      SigConfBounds(c, sig, stamps[..|stamps| - 1]);
      AddCappedBounds(SigConf(c, sig, stamps[..|stamps| - 1]), 0.2);
    }
  }

  /** The overlap step keeps the stamps first, each multiplied by 0.85 once per touching signature, contained or not. */
  lemma OverlapStepStamps(sigs: seq<Detection>, stamps: seq<Detection>)
    ensures var r := OverlapStep(sigs, stamps);
            |r| == |stamps| + |sigs| &&
            forall j :: 0 <= j < |stamps| ==>
              r[j].kind == stamps[j].kind && r[j].box == stamps[j].box && r[j].source == stamps[j].source &&
              r[j].conf == stamps[j].conf * Pow(0.85, TouchCount(stamps[j].box, sigs))
  {
    forall j | 0 <= j < |stamps| {
      OverlapStepStampAt(sigs, stamps, j);
    }
  }

  lemma OverlapStepStampAt(sigs: seq<Detection>, stamps: seq<Detection>, j: int)
    requires 0 <= j < |stamps|
    ensures var r := OverlapStep(sigs, stamps);
            r[j].kind == stamps[j].kind && r[j].box == stamps[j].box && r[j].source == stamps[j].source &&
            r[j].conf == stamps[j].conf * Pow(0.85, TouchCount(stamps[j].box, sigs))
  {
    var sj := stamps[j];
    assert OverlapStep(sigs, stamps)[j] == sj.(conf := StampConf(sj.conf, sj.box, sigs));
    StampConfClosedForm(sj.conf, sj.box, sigs);
  }

  /**
   * The signatures follow the stamps, each boosted by 0.2 (capped at 0.999) once per
   * enclosing stamp; labels, boxes and sources are unchanged.
   */
  lemma OverlapStepSignatures(sigs: seq<Detection>, stamps: seq<Detection>)
    ensures var r := OverlapStep(sigs, stamps);
            |r| == |stamps| + |sigs| &&
            forall i :: 0 <= i < |sigs| ==>
              var k := EnclosingCount(sigs[i].box, stamps);
              r[|stamps| + i].kind == sigs[i].kind && r[|stamps| + i].box == sigs[i].box &&
              r[|stamps| + i].source == sigs[i].source &&
              r[|stamps| + i].conf == if k == 0 then sigs[i].conf else AddCapped(sigs[i].conf, 0.2 * k as real)
  {
    var r := OverlapStep(sigs, stamps);
    forall i | 0 <= i < |sigs|
      ensures var k := EnclosingCount(sigs[i].box, stamps);
              r[|stamps| + i].conf == if k == 0 then sigs[i].conf else AddCapped(sigs[i].conf, 0.2 * k as real)
    {
      SigConfClosedForm(sigs[i].conf, sigs[i].box, stamps);
    }
  }

  /** Confidences in [0, 1] stay in [0, 1] through the overlap step. */
  lemma OverlapStepInUnit(sigs: seq<Detection>, stamps: seq<Detection>)
    requires ConfsInUnit(sigs) && ConfsInUnit(stamps)
    ensures ConfsInUnit(OverlapStep(sigs, stamps))
  {
    var r := OverlapStep(sigs, stamps);
    forall k | 0 <= k < |r|
      ensures 0.0 <= r[k].conf <= 1.0
    {
      if k < |stamps| {
        StampConfBounds(stamps[k].conf, stamps[k].box, sigs);
      } else {
        SigConfBounds(sigs[k - |stamps|].conf, sigs[k - |stamps|].box, stamps);
      }
    }
  }

  /** The nested loop of lines 150-158, updating the stamp records in place. */
  method ApplyOverlap(sigs: seq<Detection>, stamps: seq<Detection>) returns (finalDets: seq<Detection>)
    ensures finalDets == OverlapStep(sigs, stamps)
  {
    var st := stamps;
    var done: seq<Detection> := [];
    var i := 0;
    while i < |sigs|
      invariant 0 <= i <= |sigs|
      invariant |st| == |stamps| && |done| == i
      invariant forall j :: 0 <= j < |st| ==>
                  st[j] == stamps[j].(conf := StampConf(stamps[j].conf, stamps[j].box, sigs[..i]))
      invariant forall k :: 0 <= k < i ==> done[k] == sigs[k].(conf := SigConf(sigs[k].conf, sigs[k].box, stamps))
    {
      assert sigs[..i + 1] == sigs[..i] + [sigs[i]];
      var c;
      st, c := VisitStamps(sigs[i], stamps, st, sigs[..i]);
      done := done + [sigs[i].(conf := c)];
      i := i + 1;
    }
    assert sigs[..i] == sigs;
    OverlapStepOf(sigs, stamps, st, done);
    finalDets := st + done;
  }

  /** The attenuated stamps followed by the boosted signatures, element by element, are the overlap step. */
  lemma OverlapStepOf(sigs: seq<Detection>, stamps: seq<Detection>, st: seq<Detection>, done: seq<Detection>)
    requires |st| == |stamps| && |done| == |sigs|
    requires forall j :: 0 <= j < |st| ==>
               st[j] == stamps[j].(conf := StampConf(stamps[j].conf, stamps[j].box, sigs))
    requires forall k :: 0 <= k < |done| ==> done[k] == sigs[k].(conf := SigConf(sigs[k].conf, sigs[k].box, stamps))
    ensures st + done == OverlapStep(sigs, stamps)
  {
  }

  /**
   * The inner loop over the stamps for one signature: every touching stamp is attenuated in
   * place, and the signature's confidence is boosted once per enclosing stamp.
   */
  method VisitStamps(sig: Detection, stamps: seq<Detection>, st: seq<Detection>, visited: seq<Detection>)
    returns (st': seq<Detection>, c: real)
    requires |st| == |stamps|
    requires forall j :: 0 <= j < |st| ==>
               st[j] == stamps[j].(conf := StampConf(stamps[j].conf, stamps[j].box, visited))
    ensures |st'| == |stamps|
    ensures forall j :: 0 <= j < |st'| ==>
              st'[j] == stamps[j].(conf := StampConf(stamps[j].conf, stamps[j].box, visited + [sig]))
    ensures c == SigConf(sig.conf, sig.box, stamps)
  {
    st' := st;
    c := sig.conf;
    var j := 0;
    while j < |st'|
      invariant 0 <= j <= |st'| == |stamps|
      invariant forall k :: 0 <= k < j ==>
                  st'[k] == stamps[k].(conf := StampConf(stamps[k].conf, stamps[k].box, visited + [sig]))
      invariant forall k :: j <= k < |st'| ==> st'[k] == st[k]
      invariant c == SigConf(sig.conf, sig.box, stamps[..j])
    {
      assert stamps[..j + 1][..j] == stamps[..j];
      StampConfSnoc(stamps[j].conf, stamps[j].box, visited, sig);
      if FlooredIou(sig.box, st'[j].box) > 0.1 {
        if IsContained(sig.box, st'[j].box, 0.5) {
          c := MinR(0.999, c + 0.2);
        }
        st' := st'[j := st'[j].(conf := st'[j].conf * 0.85)];
      }
      j := j + 1;
    }
    assert stamps[..j] == stamps;
  }

  lemma StampConfSnoc(c: real, st: Box, visited: seq<Detection>, sig: Detection)
    ensures StampConf(c, st, visited + [sig]) ==
            if Touches(sig.box, st) then StampConf(c, st, visited) * 0.85 else StampConf(c, st, visited)
  {
    assert (visited + [sig])[..|visited|] == visited;
  }


  // ---------------------------------------------------------------- step 4: dedupe stamps

  /** `any(calculate_iou(det, e) > 0.85 for e in deduped if e['label'] == 'stamp')`. */
  predicate DupStamp(d: Detection, kept: seq<Detection>)
  {
    exists e :: e in kept && e.kind == Stamp && FlooredIou(d.box, e.box) > 0.85
  }

  /** The `deduped` list: a stamp is skipped when it nearly coincides with a stamp already kept. */
  function Dedupe(ds: seq<Detection>): seq<Detection>
  {
    if |ds| == 0 then []
    else
      var kept := Dedupe(ds[..|ds| - 1]);
      var d := ds[|ds| - 1];
      if d.kind == Stamp && DupStamp(d, kept) then kept else kept + [d]
  }

  /** The items that are not stamps, in order. */
  function NonStamps(ds: seq<Detection>): seq<Detection>
  {
    if |ds| == 0 then []
    else NonStamps(ds[..|ds| - 1]) + (if ds[|ds| - 1].kind != Stamp then [ds[|ds| - 1]] else [])
  }

  /** The dedupe keeps a subsequence of its input. */
  lemma {:induction false} DedupeSubseq(ds: seq<Detection>)
    ensures IsSubseq(Dedupe(ds), ds)
    decreases |ds|
  {
    if |ds| == 0 {
      SubseqEmpty(ds);
    } else {
      var pre, d := ds[..|ds| - 1], ds[|ds| - 1];
      DedupeSubseq(pre);
      assert ds == pre + [d];
      if d.kind == Stamp && DupStamp(d, Dedupe(pre)) {
        SubseqExtend(Dedupe(pre), pre, d);
      } else {
        SubseqAppendBoth(Dedupe(pre), pre, d);
      }
    }
  }

  /** Signatures and QR codes are never removed, and keep their order. */
  lemma {:induction false} DedupeKeepsNonStamps(ds: seq<Detection>)
    ensures NonStamps(Dedupe(ds)) == NonStamps(ds)
    decreases |ds|
  {
    if |ds| > 0 {
      var pre, d := ds[..|ds| - 1], ds[|ds| - 1];
      var kept := Dedupe(pre);
      DedupeKeepsNonStamps(pre);
      if !(d.kind == Stamp && DupStamp(d, kept)) {
        assert (kept + [d])[..|kept|] == kept;
      }
    }
  }

  /** No two distinct stamp entries of the list have IoU above 0.85. */
  predicate StampsApart(r: seq<Detection>)
  {
    forall i, j :: 0 <= i < |r| && 0 <= j < |r| && i != j && r[i].kind == Stamp && r[j].kind == Stamp ==>
      FlooredIou(r[i].box, r[j].box) <= 0.85
  }

  /** Appending a stamp that duplicates no kept stamp, or any non-stamp, keeps the stamps apart. */
  lemma AppendKeepsApart(kept: seq<Detection>, d: Detection)
    requires StampsApart(kept)
    requires d.kind == Stamp ==> !DupStamp(d, kept)
    ensures StampsApart(kept + [d])
  {
    var r := kept + [d];
    forall i, j | 0 <= i < |r| && 0 <= j < |r| && i != j && r[i].kind == Stamp && r[j].kind == Stamp
      ensures FlooredIou(r[i].box, r[j].box) <= 0.85
    {
      if i == |kept| {
        assert kept[j] in kept;
      } else if j == |kept| {
        assert kept[i] in kept;
        FlooredIouSymmetric(r[i].box, r[j].box);
      } else {
        assert r[i] == kept[i] && r[j] == kept[j];
      }
    }
  }

  /** No two stamps kept by the dedupe have IoU above 0.85. */
  lemma {:induction false} DedupeStampsApart(ds: seq<Detection>)
    ensures StampsApart(Dedupe(ds))
    decreases |ds|
  {
    if |ds| > 0 {
      var pre, d := ds[..|ds| - 1], ds[|ds| - 1];
      DedupeStampsApart(pre);
      if !(d.kind == Stamp && DupStamp(d, Dedupe(pre))) {
        AppendKeepsApart(Dedupe(pre), d);
      }
    }
  }

  /** Every stamp of the input is kept or nearly coincides (IoU above 0.85) with a kept stamp. */
  lemma {:induction false} DedupeCovers(ds: seq<Detection>)
    ensures forall d :: d in ds && d.kind == Stamp ==> d in Dedupe(ds) || DupStamp(d, Dedupe(ds))
    decreases |ds|
  {
    if |ds| > 0 {
      var pre, last := ds[..|ds| - 1], ds[|ds| - 1];
      var kept := Dedupe(pre);
      DedupeCovers(pre);
      assert ds == pre + [last];
      forall d | d in ds && d.kind == Stamp
        ensures d in Dedupe(ds) || DupStamp(d, Dedupe(ds))
      {
        if d in pre {
          if d in kept {
          } else {
            var e :| e in kept && e.kind == Stamp && FlooredIou(d.box, e.box) > 0.85;
            assert e in Dedupe(ds);
          }
        }
      }
    }
  }

  /** The loop of lines 161-165, with `any` as an inner loop that stops at the first duplicate. */
  method DedupeStamps(finalDets: seq<Detection>) returns (deduped: seq<Detection>)
    ensures deduped == Dedupe(finalDets)
  {
    deduped := [];
    var i := 0;
    while i < |finalDets|
      invariant 0 <= i <= |finalDets|
      invariant deduped == Dedupe(finalDets[..i])
    {
      assert finalDets[..i + 1][..i] == finalDets[..i];
      var det := finalDets[i];
      var dup := false;
      if det.kind == Stamp {
        dup := AnyNearStamp(det, deduped);
      }
      if !dup {
        deduped := deduped + [det];
      }
      i := i + 1;
    }
    assert finalDets[..i] == finalDets;
  }

  /** The `any(...)` of line 163, stopping at the first kept stamp that the stamp nearly duplicates. */
  method AnyNearStamp(det: Detection, deduped: seq<Detection>) returns (dup: bool)
    ensures dup <==> DupStamp(det, deduped)
  {
    dup := false;
    var j := 0;
    while j < |deduped| && !dup
      invariant 0 <= j <= |deduped|
      invariant dup <==> exists k :: 0 <= k < j && deduped[k].kind == Stamp && FlooredIou(det.box, deduped[k].box) > 0.85
    {
      if deduped[j].kind == Stamp && FlooredIou(det.box, deduped[j].box) > 0.85 {
        dup := true;
      }
      j := j + 1;
    }
    assert dup <==> DupStamp(det, deduped);
  }

  // ---------------------------------------------------------------- step 6: keyword boost

  /** One (detection, keyword) pair: +0.2 within 12 % of the page diagonal, else +0.08 within 22 %. */
  function KwStep(c: real, a: Box, kw: Box, W: int, H: int): real
  {
    if CloserThan(a, kw, W, H, 0.12) then AddCapped(c, 0.2)
    else if CloserThan(a, kw, W, H, 0.22) then AddCapped(c, 0.08)
    else c
  }

  /** A detection's confidence after the inner loop has visited the given keyword hits. */
  function KwConf(c: real, a: Box, hits: seq<KeywordHit>, W: int, H: int): real
  {
    if |hits| == 0 then c
    else KwStep(KwConf(c, a, hits[..|hits| - 1], W, H), a, hits[|hits| - 1].box, W, H)
  }

  function KeywordBoost(ds: seq<Detection>, hits: seq<KeywordHit>, W: int, H: int): seq<Detection>
  {
    seq(|ds|, i requires 0 <= i < |ds| => ds[i].(conf := KwConf(ds[i].conf, ds[i].box, hits, W, H)))
  }

  /** The keyword boost compounds, keeps confidences from [0, 1] in [0, 1] and never lowers one below the cap. */
  lemma {:induction false} KwConfBounds(c: real, a: Box, hits: seq<KeywordHit>, W: int, H: int)
    requires 0.0 <= c <= 1.0
    ensures 0.0 <= KwConf(c, a, hits, W, H) <= 1.0
    ensures KwConf(c, a, hits, W, H) >= MinR(c, 0.999)
    decreases |hits|
  {
    if |hits| > 0 {
      var prev := KwConf(c, a, hits[..|hits| - 1], W, H);
      KwConfBounds(c, a, hits[..|hits| - 1], W, H);
      AddCappedBounds(prev, 0.2);
      AddCappedBounds(prev, 0.08);
    }
  }

  /** Hits farther than 22 % of the diagonal, and every hit on an empty page, leave the confidence alone. */
  lemma {:induction false} KwConfFar(c: real, a: Box, hits: seq<KeywordHit>, W: int, H: int)
    requires forall h :: h in hits ==> !CloserThan(a, h.box, W, H, 0.22)
    ensures KwConf(c, a, hits, W, H) == c
    decreases |hits|
  {
    if |hits| > 0 {
      var pre := hits[..|hits| - 1];
      assert forall h :: h in pre ==> h in hits;
      assert hits[|hits| - 1] in hits;
      KwConfFar(c, a, pre, W, H);
      CloserWithin(a, hits[|hits| - 1].box, W, H);
    }
  }

  /** Within 12 % is also within 22 %. */
  lemma CloserWithin(a: Box, b: Box, W: int, H: int)
    ensures CloserThan(a, b, W, H, 0.12) ==> CloserThan(a, b, W, H, 0.22)
  {
    var s := (W * W + H * H) as real;
    if W * W + H * H < 0 {
      Square(W as real);
      Square(H as real);
      assert false;
    }
    assert 0.12 * 0.12 * s <= 0.22 * 0.22 * s;
  }

  /** The nested loop of lines 170-179. */
  method BoostByKeywords(ds: seq<Detection>, hits: seq<KeywordHit>, W: int, H: int) returns (r: seq<Detection>)
    ensures r == KeywordBoost(ds, hits, W, H)
  {
    r := ds;
    var i := 0;
    while i < |r|
      invariant 0 <= i <= |r| == |ds|
      invariant forall k :: 0 <= k < i ==> r[k] == ds[k].(conf := KwConf(ds[k].conf, ds[k].box, hits, W, H))
      invariant forall k :: i <= k < |r| ==> r[k] == ds[k]
    {
      var j := 0;
      while j < |hits|
        invariant 0 <= j <= |hits|
        invariant |r| == |ds|
        invariant r[i] == ds[i].(conf := KwConf(ds[i].conf, ds[i].box, hits[..j], W, H))
        invariant forall k :: 0 <= k < i ==> r[k] == ds[k].(conf := KwConf(ds[k].conf, ds[k].box, hits, W, H))
        invariant forall k :: i < k < |r| ==> r[k] == ds[k]
      {
        assert hits[..j + 1][..j] == hits[..j];
        var det := r[i];
        var kw := hits[j];
        if CloserThan(det.box, kw.box, W, H, 0.12) {
          r := r[i := det.(conf := MinR(0.999, det.conf + 0.2))];
        } else if CloserThan(det.box, kw.box, W, H, 0.22) {
          r := r[i := det.(conf := MinR(0.999, det.conf + 0.08))];
        }
        j := j + 1;
      }
      assert hits[..j] == hits;
      i := i + 1;
    }
  }

  // ---------------------------------------------------------------- the pipeline

  /** `found_keywords`: no OCR engine, no hits. */
  function FoundKeywords(ocr: Option<seq<OcrWord>>, keywords: Option<seq<string>>): seq<KeywordHit>
  {
    if ocr.None? then []
    else Hits(ocr.value, if keywords.Some? then keywords.value else DefaultKeywords)
  }

  /** `final_dets` just before keyword boosting: the deduplicated overlap output followed by the QR codes. */
  function Fused(W: int, H: int, sigs: seq<Detection>, stamps: seq<Detection>, qrs: seq<Detection>,
                 rt: Option<Box -> RtOutputs>, detect: Box -> seq<Detection>): seq<Detection>
  {
    Dedupe(OverlapStep(NormAll(sigs), RefineStamps(W, H, NormAll(stamps), rt, detect))) + NormAll(qrs)
  }

  /** What detect_with_overlap_handling returns for a W x H page. */
  function Fuse(W: int, H: int, sigs: Option<seq<Detection>>, stamps: Option<seq<Detection>>,
                qrs: Option<seq<Detection>>, hits: seq<KeywordHit>,
                rt: Option<Box -> RtOutputs>, detect: Box -> seq<Detection>): seq<Detection>
  {
    SortDesc(KeywordBoost(Fused(W, H, OrEmpty(sigs), OrEmpty(stamps), OrEmpty(qrs), rt, detect), hits, W, H))
  }

  /**
   * detect_with_overlap_handling(pil_image, keywords): `sigs`, `stamps`, `qrs` are the
   * detector outputs (None for a detector that is not configured), `ocr` the OCR words
   * (None without pytesseract), `rt` the RT-DETR detector and `detect` the signature
   * detector, both as functions of the crop rectangle.
   */
  method DetectWithOverlapHandling(W: int, H: int, sigs: Option<seq<Detection>>, stamps: Option<seq<Detection>>,
                                   qrs: Option<seq<Detection>>, ocr: Option<seq<OcrWord>>,
                                   keywords: Option<seq<string>>, rt: Option<Box -> RtOutputs>,
                                   detect: Box -> seq<Detection>) returns (r: seq<Detection>)
    ensures r == Fuse(W, H, sigs, stamps, qrs, FoundKeywords(ocr, keywords), rt, detect)
    ensures SortedDesc(r)
    ensures multiset(r) == multiset(KeywordBoost(Fused(W, H, OrEmpty(sigs), OrEmpty(stamps), OrEmpty(qrs), rt, detect),
                                                 FoundKeywords(ocr, keywords), W, H))
  {
    var kws := if keywords.Some? then keywords.value else DefaultKeywords;
    var s := NormAll(OrEmpty(sigs));
    var st := NormAll(OrEmpty(stamps));
    var q := NormAll(OrEmpty(qrs));
    var found, _ := SearchKeywords(ocr, Some(kws));
    var refined := RefineAll(W, H, st, rt, detect);
    var finalDets := ApplyOverlap(s, refined);
    var deduped := DedupeStamps(finalDets);
    finalDets := deduped + q;
    var boosted := BoostByKeywords(finalDets, found, W, H);
    r := SortDesc(boosted);
  }

  /**
   * detect_with_overlap_handling as written: line 137 raises AttributeError on the first
   * stamp when no RT-DETR detector is configured; every later step is as in `Fuse`.
   */
  function FuseAsWritten(W: int, H: int, sigs: Option<seq<Detection>>, stamps: Option<seq<Detection>>,
                         qrs: Option<seq<Detection>>, hits: seq<KeywordHit>,
                         rt: Option<Box -> RtOutputs>, detect: Box -> seq<Detection>): Result<seq<Detection>>
  {
    var refined := RefineStampsAsWritten(W, H, NormAll(OrEmpty(stamps)), rt, detect);
    if refined.Err? then Err(refined.error)
    else Ok(SortDesc(KeywordBoost(Dedupe(OverlapStep(NormAll(OrEmpty(sigs)), refined.value)) + NormAll(OrEmpty(qrs)), hits, W, H)))
  }

  /** The pipeline as written succeeds exactly when RT-DETR is configured or no stamp was found, and then returns `Fuse`. */
  lemma FuseAsWrittenAgrees(W: int, H: int, sigs: Option<seq<Detection>>, stamps: Option<seq<Detection>>,
                            qrs: Option<seq<Detection>>, hits: seq<KeywordHit>,
                            rt: Option<Box -> RtOutputs>, detect: Box -> seq<Detection>)
    ensures var r := FuseAsWritten(W, H, sigs, stamps, qrs, hits, rt, detect);
            (r.Ok? <==> rt.Some? || |OrEmpty(stamps)| == 0) &&
            (r.Ok? ==> r.value == Fuse(W, H, sigs, stamps, qrs, hits, rt, detect)) &&
            (r.Err? ==> r.error == AttributeError("recheck_partial_stamp"))
  {
    assert |NormAll(OrEmpty(stamps))| == |OrEmpty(stamps)|;
  }

  // ---------------------------------------------------------------- properties of the pipeline

  /** The QR codes bypass the overlap and dedupe steps: they close the fused list unchanged but for normalisation. */
  lemma QrCodesUntouched(W: int, H: int, sigs: seq<Detection>, stamps: seq<Detection>, qrs: seq<Detection>,
                         rt: Option<Box -> RtOutputs>, detect: Box -> seq<Detection>)
    ensures var f := Fused(W, H, sigs, stamps, qrs, rt, detect);
            |f| >= |qrs| &&
            forall k :: 0 <= k < |qrs| ==> f[|f| - |qrs| + k] == qrs[k].(source := NoSource)
  {
  }

  /** Confidences in [0, 1] from every detector (refinement included) give confidences in [0, 1]. */
  lemma FuseInUnit(W: int, H: int, sigs: Option<seq<Detection>>, stamps: Option<seq<Detection>>,
                   qrs: Option<seq<Detection>>, hits: seq<KeywordHit>,
                   rt: Option<Box -> RtOutputs>, detect: Box -> seq<Detection>)
    requires ConfsInUnit(OrEmpty(sigs)) && ConfsInUnit(OrEmpty(stamps)) && ConfsInUnit(OrEmpty(qrs))
    requires forall b :: ConfsInUnit(Expanded(W, H, b, rt, detect))
    ensures ConfsInUnit(Fuse(W, H, sigs, stamps, qrs, hits, rt, detect))
  {
    var s, st, q := NormAll(OrEmpty(sigs)), NormAll(OrEmpty(stamps)), NormAll(OrEmpty(qrs));
    NormAllInUnit(OrEmpty(sigs));
    NormAllInUnit(OrEmpty(stamps));
    NormAllInUnit(OrEmpty(qrs));
    var refined := RefineStamps(W, H, st, rt, detect);
    RefineStampsInUnit(W, H, st, rt, detect);
    OverlapStepInUnit(s, refined);
    var o := OverlapStep(s, refined);
    DedupeInUnit(o);
    ConfsInUnitAppend(Dedupe(o), q);
    var f := Dedupe(o) + q;
    assert f == Fused(W, H, OrEmpty(sigs), OrEmpty(stamps), OrEmpty(qrs), rt, detect);
    KeywordBoostInUnit(f, hits, W, H);
    SortDescInUnit(KeywordBoost(f, hits, W, H));
  }

  lemma NormAllInUnit(ds: seq<Detection>)
    requires ConfsInUnit(ds)
    ensures ConfsInUnit(NormAll(ds))
  {
  }

  lemma DedupeInUnit(o: seq<Detection>)
    requires ConfsInUnit(o)
    ensures ConfsInUnit(Dedupe(o))
  {
    var d := Dedupe(o);
    DedupeSubseq(o);
    SubseqMembers(d, o);
    forall k | 0 <= k < |d|
      ensures 0.0 <= d[k].conf <= 1.0
    {
      assert d[k] in o;
    }
  }

  lemma KeywordBoostInUnit(f: seq<Detection>, hits: seq<KeywordHit>, W: int, H: int)
    requires ConfsInUnit(f)
    ensures ConfsInUnit(KeywordBoost(f, hits, W, H))
  {
    var b := KeywordBoost(f, hits, W, H);
    forall k | 0 <= k < |b|
      ensures 0.0 <= b[k].conf <= 1.0
    {
      KwConfBounds(f[k].conf, f[k].box, hits, W, H);
    }
  }

  lemma SortDescInUnit(b: seq<Detection>)
    requires ConfsInUnit(b)
    ensures ConfsInUnit(SortDesc(b))
  {
    var r := SortDesc(b);
    forall k | 0 <= k < |r|
      ensures 0.0 <= r[k].conf <= 1.0
    {
      assert r[k] in multiset(b);
    }
  }

  lemma {:induction false} RefineStampsInUnit(W: int, H: int, stamps: seq<Detection>, rt: Option<Box -> RtOutputs>,
                                              detect: Box -> seq<Detection>)
    requires ConfsInUnit(stamps)
    requires forall b :: ConfsInUnit(Expanded(W, H, b, rt, detect))
    ensures ConfsInUnit(RefineStamps(W, H, stamps, rt, detect))
    decreases |stamps|
  {
    if |stamps| > 0 {
      var pre := stamps[..|stamps| - 1];
      var last := stamps[|stamps| - 1];
      ConfsInUnitPrefix(stamps, |stamps| - 1);
      RefineStampsInUnit(W, H, pre, rt, detect);
      var extra := Expanded(W, H, last.box, rt, detect);
      assert ConfsInUnit(extra);
      assert ConfsInUnit([last]) by {
        assert [last][0] == last;
      }
      assert RefineOne(W, H, last, rt, detect) == if |extra| > 0 then extra else [last];
      ConfsInUnitAppend(RefineStamps(W, H, pre, rt, detect), RefineOne(W, H, last, rt, detect));
    }
  }

  // ---------------------------------------------------------------- worked examples

  lemma InsideStampGeometry()
    ensures var sig, st := Box(120, 150, 180, 190), Box(100, 100, 200, 200);
            Touches(sig, st) && IsContained(sig, st, 0.5)
  {
    var sig, st := Box(120, 150, 180, 190), Box(100, 100, 200, 200);
    assert OverlapW(sig, st) == 60 && OverlapH(sig, st) == 40;
    assert InterArea(sig, st) == 2400;
    assert FlooredArea(sig) == 2400 && FlooredArea(st) == 10000;
    FlooredIouAbove(sig, st, 0.1);
    assert Area(sig) == 2400;
  }

  lemma InsideStampOverlap(sig: Detection, st: Detection)
    requires sig == Detection(Signature, Box(120, 150, 180, 190), 0.5, NoSource)
    requires st == Detection(Stamp, Box(100, 100, 200, 200), 0.6, NoSource)
    ensures OverlapStep([sig], [st]) == [st.(conf := 0.51), sig.(conf := 0.7)]
  {
    InsideStampGeometry();
    assert [sig][..0] == [] && [st][..0] == [];
    assert SigConf(0.5, sig.box, [st]) == 0.7;
    assert StampConf(0.6, st.box, [sig]) == 0.51;
  }

  /**
   * A signature [120,150,180,190] (0.5) wholly inside a stamp [100,100,200,200] (0.6), with
   * refinement finding nothing and no keyword hits: the signature comes out first at 0.7
   * and the stamp second at 0.6 * 0.85 = 0.51.
   */
  lemma SignatureInsideStamp(W: int, H: int, f: Box -> RtOutputs, detect: Box -> seq<Detection>,
                             sig: Detection, st: Detection)
    requires forall c :: f(c) == RtOutputs([], [], [])
    requires sig == Detection(Signature, Box(120, 150, 180, 190), 0.5, NoSource)
    requires st == Detection(Stamp, Box(100, 100, 200, 200), 0.6, NoSource)
    ensures Fuse(W, H, Some([sig]), Some([st]), None, [], Some(f), detect) == [sig.(conf := 0.7), st.(conf := 0.51)]
  {
    var o := [st.(conf := 0.51), sig.(conf := 0.7)];
    InsideStampFused(W, H, f, detect, sig, st);
    assert KeywordBoost(o, [], W, H) == o;
    SortPairSwaps(o[0], o[1]);
  }

  lemma InsideStampFused(W: int, H: int, f: Box -> RtOutputs, detect: Box -> seq<Detection>,
                         sig: Detection, st: Detection)
    requires forall c :: f(c) == RtOutputs([], [], [])
    requires sig == Detection(Signature, Box(120, 150, 180, 190), 0.5, NoSource)
    requires st == Detection(Stamp, Box(100, 100, 200, 200), 0.6, NoSource)
    ensures Fused(W, H, OrEmpty(Some([sig])), OrEmpty(Some([st])), OrEmpty(None), Some(f), detect)
            == [st.(conf := 0.51), sig.(conf := 0.7)]
  {
    assert NormAll([sig]) == [sig] && NormAll([st]) == [st] && NormAll([]) == [];
    NothingFoundOnEmptyCrops(W, H, f, detect, st);
    InsideStampOverlap(sig, st);
    var o := [st.(conf := 0.51), sig.(conf := 0.7)];
    DedupePair(o[0], o[1]);
  }

  lemma NothingFoundOnEmptyCrops(W: int, H: int, f: Box -> RtOutputs, detect: Box -> seq<Detection>, st: Detection)
    requires forall c :: f(c) == RtOutputs([], [], [])
    ensures RefineStamps(W, H, [st], Some(f), detect) == [st]
  {
    assert |Expanded(W, H, st.box, Some(f), detect)| == 0;
    RefineStampsNothingFound(W, H, [st], Some(f), detect);
  }

  lemma SortPairSwaps(a: Detection, b: Detection)
    requires a.conf < b.conf
    ensures SortDesc([a, b]) == [b, a]
  {
    assert [a, b][1..] == [b];
    assert [b][1..] == [];
    assert SortDesc([b]) == [b];
  }

  /** A two-element list loses its second element only to a near-duplicate stamp. */
  lemma DedupePair(a: Detection, b: Detection)
    requires !(a.kind == Stamp && b.kind == Stamp && FlooredIou(b.box, a.box) > 0.85)
    ensures Dedupe([a, b]) == [a, b]
  {
    assert [a, b][..1] == [a] && [a][..0] == [];
    assert !DupStamp(a, []);
    assert Dedupe([a]) == [a];
    if DupStamp(b, [a]) {
      var e :| e in [a] && e.kind == Stamp && FlooredIou(b.box, e.box) > 0.85;
      assert e == a;
    }
  }

  lemma OffsetStampsGeometry(a: Box, b: Box)
    requires a == Box(0, 0, 100, 100) && b == Box(5, 5, 105, 105)
    ensures FlooredIou(b, a) <= 0.85
  {
    assert OverlapW(b, a) == 95 && OverlapH(b, a) == 95;
    assert InterArea(b, a) == 9025;
    assert FlooredArea(a) == 10000 && FlooredArea(b) == 10000;
    FlooredIouAbove(b, a, 0.85);
  }

  /**
   * Stamps [0,0,100,100] (0.8) and [5,5,105,105] (0.6) have IoU 9025 / 10975, about 0.82,
   * which does not exceed 0.85: the dedupe keeps both.
   */
  lemma OffsetStampsBothKept(a: Detection, b: Detection)
    requires a == Detection(Stamp, Box(0, 0, 100, 100), 0.8, NoSource)
    requires b == Detection(Stamp, Box(5, 5, 105, 105), 0.6, NoSource)
    ensures Dedupe([a, b]) == [a, b]
  {
    OffsetStampsGeometry(a.box, b.box);
    DedupePair(a, b);
  }
}
