/**
 * `DigitalInspector` (backend/app/services/detection_services.py): runs the three
 * detectors on a page, resolves overlaps between their detections, counts the
 * detections per label, and totals the counts over a document.
 *
 * `_resolve_overlaps` walks the detections by descending confidence and compares each
 * with the detections kept so far. The rule table for an overlapping pair (IoU above
 * 0.3) is `Rule` below. As written, the inner `for kept in final_detections` removes
 * from the list it iterates over: Python's list iterator then skips the element that
 * moved into the removed one's place. `ScanAsWritten` models that; `Scan` is the
 * intended scan, which compares the incoming detection with every kept one.
 */
module Inspector {
  import opened Detections
  import opened Ordering
  import opened Geometry
  import SignatureDetector
  import QrDetector
  import StampDetector

  // ---------------- list.index / list.remove ----------------

  /** `s.index(x)`: the position of the first element equal to x. */
  function IndexOf<T(==)>(s: seq<T>, x: T): (i: nat)
    requires x in s
    ensures i < |s| && s[i] == x
    ensures forall j :: 0 <= j < i ==> s[j] != x
  {
    if s[0] == x then 0 else 1 + IndexOf(s[1..], x)
  }

  /** `s.remove(x)`: deletes the first element equal to x. */
  function RemoveFirst<T(==)>(s: seq<T>, x: T): (r: seq<T>)
    requires x in s
    ensures |r| == |s| - 1
    ensures forall j :: 0 <= j < IndexOf(s, x) ==> r[j] == s[j]
    ensures forall j :: IndexOf(s, x) <= j < |r| ==> r[j] == s[j + 1]
    ensures multiset(r) == multiset(s) - multiset{x}
    ensures IsSubseq(r, s)
  {
    var i := IndexOf(s, x);
    SubseqRemoveAt(s, i);
    assert s == s[..i] + [x] + s[i + 1..];
    RemoveAt(s, i)
  }

  // ---------------- the rule table ----------------

  /** `iou > 0.3`, with the incoming detection's box first. */
  predicate Overlaps(d: Detection, k: Detection)
  {
    PlainIou(d.box, k.box) > 0.3
  }

  /** What an overlap between the incoming detection d and a kept one k does. */
  datatype Action =
    | Drop    // overlap_found = True; break
    | Evict   // final_detections.remove(kept)
    | Ignore  // nothing

  function Rule(d: Detection, k: Detection): (a: Action)
    ensures d.kind == k.kind ==> a == Drop
    ensures a == Evict ==> d.kind == QrCode || (d.kind == Stamp && k.kind == Signature && d.conf > k.conf * 1.2)
  {
    if d.kind == k.kind then Drop
    else if d.kind == QrCode && (k.kind == Signature || k.kind == Stamp) then Evict
    else if d.kind == Stamp && k.kind == Signature then (if d.conf > k.conf * 1.2 then Evict else Drop)
    else Ignore
  }

  /** The kept list after the inner loop, and whether the incoming detection is dropped. */
  datatype ScanResult = ScanResult(kept: seq<Detection>, overlap: bool)

  /** The inner loop as written: after a removal the iterator still moves on by one. */
  function ScanAsWritten(d: Detection, kept: seq<Detection>, i: nat): ScanResult
    decreases |kept| - i
  {
    if i >= |kept| then ScanResult(kept, false)
    else
      var k := kept[i];
      if Overlaps(d, k) && Rule(d, k) == Drop then ScanResult(kept, true)
      else if Overlaps(d, k) && Rule(d, k) == Evict then ScanAsWritten(d, RemoveFirst(kept, k), i + 1)
      else ScanAsWritten(d, kept, i + 1)
  }

  /**
   * The intended inner loop: a removal deletes an element at or before position i, so
   * the next unexamined element is now at position i.
   */
  function Scan(d: Detection, kept: seq<Detection>, i: nat): ScanResult
    decreases |kept| - i
  {
    if i >= |kept| then ScanResult(kept, false)
    else
      var k := kept[i];
      if Overlaps(d, k) && Rule(d, k) == Drop then ScanResult(kept, true)
      else if Overlaps(d, k) && Rule(d, k) == Evict then Scan(d, RemoveFirst(kept, k), i)
      else Scan(d, kept, i + 1)
  }

  function StepAsWritten(kept: seq<Detection>, d: Detection): seq<Detection>
  {
    var s := ScanAsWritten(d, kept, 0);
    if s.overlap then s.kept else s.kept + [d]
  }

  function Step(kept: seq<Detection>, d: Detection): seq<Detection>
  {
    var s := Scan(d, kept, 0);
    if s.overlap then s.kept else s.kept + [d]
  }

  /** The outer loop over detections already in confidence order. */
  function ResolveAsWritten(ds: seq<Detection>): seq<Detection>
  {
    if |ds| == 0 then [] else StepAsWritten(ResolveAsWritten(ds[..|ds| - 1]), ds[|ds| - 1])
  }

  function Resolve(ds: seq<Detection>): seq<Detection>
  {
    if |ds| == 0 then [] else Step(Resolve(ds[..|ds| - 1]), ds[|ds| - 1])
  }

  /** `_resolve_overlaps(signatures, stamps, qr_codes)` as written. */
  function ResolveOverlapsAsWritten(sigs: seq<Detection>, stamps: seq<Detection>, qrs: seq<Detection>): seq<Detection>
  {
    ResolveAsWritten(SortDesc(sigs + stamps + qrs))
  }

  /** `_resolve_overlaps` with every kept detection examined. */
  function ResolveOverlaps(sigs: seq<Detection>, stamps: seq<Detection>, qrs: seq<Detection>): seq<Detection>
  {
    Resolve(SortDesc(sigs + stamps + qrs))
  }

  // ---------------- the loops ----------------

  /** The source's loop, removal while iterating included. */
  method ResolveOverlapsLoopAsWritten(sigs: seq<Detection>, stamps: seq<Detection>, qrs: seq<Detection>)
    returns (finalDetections: seq<Detection>)
    ensures finalDetections == ResolveOverlapsAsWritten(sigs, stamps, qrs)
  {
    var all := SortDesc(sigs + stamps + qrs);
    finalDetections := [];
    var n := 0;
    while n < |all|
      invariant 0 <= n <= |all|
      invariant finalDetections == ResolveAsWritten(all[..n])
    {
      assert all[..n + 1][..n] == all[..n];
      var detection := all[n];
      ghost var before := finalDetections;
      var overlapFound := false;
      var idx := 0;
      while idx < |finalDetections|
        invariant ScanAsWritten(detection, finalDetections, idx) == ScanAsWritten(detection, before, 0)
        decreases |finalDetections| - idx
      {
        var kept := finalDetections[idx];
        if PlainIou(detection.box, kept.box) > 0.3 {
          var action := Rule(detection, kept);
          if action == Drop {
            overlapFound := true;
            break;
          } else if action == Evict {
            finalDetections := RemoveFirst(finalDetections, kept);
          }
        }
        idx := idx + 1;
      }
      if !overlapFound {
        finalDetections := finalDetections + [detection];
      }
      n := n + 1;
    }
    assert all[..n] == all;
  }

  /** The loop with every kept detection examined: the position stays put after a removal. */
  method ResolveOverlapsLoop(sigs: seq<Detection>, stamps: seq<Detection>, qrs: seq<Detection>)
    returns (finalDetections: seq<Detection>)
    ensures finalDetections == ResolveOverlaps(sigs, stamps, qrs)
  {
    var all := SortDesc(sigs + stamps + qrs);
    finalDetections := [];
    var n := 0;
    while n < |all|
      invariant 0 <= n <= |all|
      invariant finalDetections == Resolve(all[..n])
    {
      assert all[..n + 1][..n] == all[..n];
      var detection := all[n];
      ghost var before := finalDetections;
      var overlapFound := false;
      var idx := 0;
      while idx < |finalDetections|
        invariant Scan(detection, finalDetections, idx) == Scan(detection, before, 0)
        decreases |finalDetections| - idx
      {
        var kept := finalDetections[idx];
        if PlainIou(detection.box, kept.box) > 0.3 {
          var action := Rule(detection, kept);
          if action == Drop {
            overlapFound := true;
            break;
          } else if action == Evict {
            finalDetections := RemoveFirst(finalDetections, kept);
            continue;
          }
        }
        idx := idx + 1;
      }
      if !overlapFound {
        finalDetections := finalDetections + [detection];
      }
      n := n + 1;
    }
    assert all[..n] == all;
  }

  // ---------------- what the resolver keeps ----------------

  /** The scan only ever deletes kept detections. */
  lemma {:induction false} ScanSubseq(d: Detection, kept: seq<Detection>, i: nat)
    ensures IsSubseq(Scan(d, kept, i).kept, kept)
    decreases |kept| - i
  {
    if i >= |kept| {
      SubseqRefl(kept);
    } else {
      var k := kept[i];
      if Overlaps(d, k) && Rule(d, k) == Drop {
        SubseqRefl(kept);
      } else if Overlaps(d, k) && Rule(d, k) == Evict {
        var r := RemoveFirst(kept, k);
        ScanSubseq(d, r, i);
        SubseqTrans(Scan(d, r, i).kept, r, kept);
      } else {
        ScanSubseq(d, kept, i + 1);
      }
    }
  }

  lemma {:induction false} ScanAsWrittenSubseq(d: Detection, kept: seq<Detection>, i: nat)
    ensures IsSubseq(ScanAsWritten(d, kept, i).kept, kept)
    decreases |kept| - i
  {
    if i >= |kept| {
      SubseqRefl(kept);
    } else {
      var k := kept[i];
      if Overlaps(d, k) && Rule(d, k) == Drop {
        SubseqRefl(kept);
      } else if Overlaps(d, k) && Rule(d, k) == Evict {
        var r := RemoveFirst(kept, k);
        ScanAsWrittenSubseq(d, r, i + 1);
        SubseqTrans(ScanAsWritten(d, r, i + 1).kept, r, kept);
      } else {
        ScanAsWrittenSubseq(d, kept, i + 1);
      }
    }
  }

  /** The resolver's output is a subsequence of its input: it never adds, duplicates or reorders. */
  lemma {:induction false} ResolveSubseq(ds: seq<Detection>)
    ensures IsSubseq(Resolve(ds), ds)
    decreases |ds|
  {
    if |ds| > 0 {
      var pre, d := ds[..|ds| - 1], ds[|ds| - 1];
      var f := Resolve(pre);
      ResolveSubseq(pre);
      ScanSubseq(d, f, 0);
      var s := Scan(d, f, 0);
      SubseqTrans(s.kept, f, pre);
      assert ds == pre + [d];
      if s.overlap {
        SubseqExtend(s.kept, pre, d);
      } else {
        SubseqAppendBoth(s.kept, pre, d);
      }
    }
  }

  lemma {:induction false} ResolveAsWrittenSubseq(ds: seq<Detection>)
    ensures IsSubseq(ResolveAsWritten(ds), ds)
    decreases |ds|
  {
    if |ds| > 0 {
      var pre, d := ds[..|ds| - 1], ds[|ds| - 1];
      var f := ResolveAsWritten(pre);
      ResolveAsWrittenSubseq(pre);
      ScanAsWrittenSubseq(d, f, 0);
      var s := ScanAsWritten(d, f, 0);
      SubseqTrans(s.kept, f, pre);
      assert ds == pre + [d];
      if s.overlap {
        SubseqExtend(s.kept, pre, d);
      } else {
        SubseqAppendBoth(s.kept, pre, d);
      }
    }
  }

  /** Both resolvers return detections of their inputs, in descending confidence. */
  lemma ResolveOverlapsSubseq(sigs: seq<Detection>, stamps: seq<Detection>, qrs: seq<Detection>)
    ensures IsSubseq(ResolveOverlaps(sigs, stamps, qrs), SortDesc(sigs + stamps + qrs))
    ensures IsSubseq(ResolveOverlapsAsWritten(sigs, stamps, qrs), SortDesc(sigs + stamps + qrs))
    ensures forall d :: d in ResolveOverlaps(sigs, stamps, qrs) ==> d in sigs + stamps + qrs
  {
    var all := SortDesc(sigs + stamps + qrs);
    ResolveSubseq(all);
    ResolveAsWrittenSubseq(all);
    SubseqMembers(Resolve(all), all);
    assert forall d :: d in all ==> d in multiset(all);
  }

  /** No two kept detections of one label overlap (the later one compared with the earlier). */
  predicate SameLabelApart(ds: seq<Detection>)
  {
    forall i, j :: 0 <= i < j < |ds| && ds[i].kind == ds[j].kind ==> !Overlaps(ds[j], ds[i])
  }

  lemma RemoveAtKeepsApart(ds: seq<Detection>, p: nat)
    requires p < |ds| && SameLabelApart(ds)
    ensures SameLabelApart(RemoveAt(ds, p))
  {
    var r := RemoveAt(ds, p);
    forall i, j | 0 <= i < j < |r| && r[i].kind == r[j].kind
      ensures !Overlaps(r[j], r[i])
    {
      var i' := if i < p then i else i + 1;
      var j' := if j < p then j else j + 1;
      assert r[i] == ds[i'] && r[j] == ds[j'];
    }
  }

  /**
   * The intended scan examines every kept detection: unless it reports an overlap, no
   * detection it keeps is one the incoming detection must yield to.
   */
  lemma {:induction false} ScanClears(d: Detection, kept: seq<Detection>, i: nat)
    requires i <= |kept| && SameLabelApart(kept)
    requires forall j :: 0 <= j < i ==> !(Overlaps(d, kept[j]) && Rule(d, kept[j]) == Drop)
    ensures SameLabelApart(Scan(d, kept, i).kept)
    ensures !Scan(d, kept, i).overlap ==>
              forall k :: k in Scan(d, kept, i).kept ==> !(Overlaps(d, k) && Rule(d, k) == Drop)
    decreases |kept| - i
  {
    if i < |kept| {
      var k := kept[i];
      if Overlaps(d, k) && Rule(d, k) == Drop {
      } else if Overlaps(d, k) && Rule(d, k) == Evict {
        var p := IndexOf(kept, k);
        var r := RemoveFirst(kept, k);
        assert r == RemoveAt(kept, p);
        RemoveAtKeepsApart(kept, p);
        forall j | 0 <= j < i
          ensures !(Overlaps(d, r[j]) && Rule(d, r[j]) == Drop)
        {
          if j >= p {
            assert r[j] == kept[j + 1];
          }
        }
        ScanClears(d, r, i);
      } else {
        ScanClears(d, kept, i + 1);
      }
    } else {
      forall k | k in kept
        ensures !(Overlaps(d, k) && Rule(d, k) == Drop)
      {
        var j :| 0 <= j < |kept| && kept[j] == k;
      }
    }
  }

  /** The intended resolver never keeps two overlapping detections of the same label. */
  lemma {:induction false} ResolveApart(ds: seq<Detection>)
    ensures SameLabelApart(Resolve(ds))
    decreases |ds|
  {
    if |ds| > 0 {
      var pre, d := ds[..|ds| - 1], ds[|ds| - 1];
      var f := Resolve(pre);
      ResolveApart(pre);
      ScanClears(d, f, 0);
      var s := Scan(d, f, 0);
      if !s.overlap {
        var r := s.kept + [d];
        forall i, j | 0 <= i < j < |r| && r[i].kind == r[j].kind
          ensures !Overlaps(r[j], r[i])
        {
          if j == |r| - 1 {
            assert r[i] in s.kept;
          } else {
            assert r[i] == s.kept[i] && r[j] == s.kept[j];
          }
        }
      }
    }
  }

  lemma ResolveOverlapsApart(sigs: seq<Detection>, stamps: seq<Detection>, qrs: seq<Detection>)
    ensures SameLabelApart(ResolveOverlaps(sigs, stamps, qrs))
  {
    ResolveApart(SortDesc(sigs + stamps + qrs));
  }

  // ---------------- when the incoming detection is dropped ----------------

  /** The scan reports an overlap exactly when some kept detection from position i on demands a drop. */
  lemma {:induction false} ScanOverlapIff(d: Detection, kept: seq<Detection>, i: nat)
    ensures Scan(d, kept, i).overlap <==>
              exists j :: i <= j < |kept| && Overlaps(d, kept[j]) && Rule(d, kept[j]) == Drop
    decreases |kept| - i
  {
    if i < |kept| {
      var k := kept[i];
      if Overlaps(d, k) && Rule(d, k) == Drop {
      } else if Overlaps(d, k) && Rule(d, k) == Evict {
        var r := RemoveFirst(kept, k);
        ScanOverlapIff(d, r, i);
        EvictedKeepsDrops(d, kept, i);
      } else {
        ScanOverlapIff(d, kept, i + 1);
      }
    }
  }

  /** Evicting kept[i] moves the later kept detections down by one, and kept[i] itself demanded no drop. */
  lemma EvictedKeepsDrops(d: Detection, kept: seq<Detection>, i: nat)
    requires i < |kept| && Rule(d, kept[i]) == Evict
    ensures var r := RemoveFirst(kept, kept[i]);
            (exists j :: i <= j < |kept| && Overlaps(d, kept[j]) && Rule(d, kept[j]) == Drop) <==>
            (exists j :: i <= j < |r| && Overlaps(d, r[j]) && Rule(d, r[j]) == Drop)
  {
    var r := RemoveFirst(kept, kept[i]);
    RemoveFirstShifts(kept, i);
    if exists j :: i <= j < |kept| && Overlaps(d, kept[j]) && Rule(d, kept[j]) == Drop {
      var j :| i <= j < |kept| && Overlaps(d, kept[j]) && Rule(d, kept[j]) == Drop;
      assert j > i;
      assert r[j - 1] == kept[j];
    }
    if exists j :: i <= j < |r| && Overlaps(d, r[j]) && Rule(d, r[j]) == Drop {
      var j :| i <= j < |r| && Overlaps(d, r[j]) && Rule(d, r[j]) == Drop;
      assert r[j] == kept[j + 1];
    }
  }

  /** Removing the first copy of kept[i] leaves kept[i + 1..] from position i on. */
  lemma RemoveFirstShifts(kept: seq<Detection>, i: nat)
    requires i < |kept|
    ensures forall j :: i <= j < |kept| - 1 ==> RemoveFirst(kept, kept[i])[j] == kept[j + 1]
  {
    var p := IndexOf(kept, kept[i]);
    assert p <= i;
    assert RemoveFirst(kept, kept[i]) == RemoveAt(kept, p);
  }

  /** Where no kept detection from position i on can be evicted, the scan deletes nothing. */
  lemma {:induction false} ScanNoEviction(d: Detection, kept: seq<Detection>, i: nat)
    requires forall j :: i <= j < |kept| ==> Rule(d, kept[j]) != Evict
    ensures Scan(d, kept, i).kept == kept
    decreases |kept| - i
  {
    if i < |kept| {
      ScanNoEviction(d, kept, i + 1);
    }
  }

  /** An incoming signature never evicts, and is dropped exactly when it overlaps a kept signature. */
  lemma SignatureStep(kept: seq<Detection>, d: Detection)
    requires d.kind == Signature
    ensures Step(kept, d) == if exists k :: k in kept && k.kind == Signature && Overlaps(d, k) then kept else kept + [d]
  {
    ScanNoEviction(d, kept, 0);
    ScanOverlapIff(d, kept, 0);
    if exists k :: k in kept && k.kind == Signature && Overlaps(d, k) {
      var k :| k in kept && k.kind == Signature && Overlaps(d, k);
      var j :| 0 <= j < |kept| && kept[j] == k;
      assert Rule(d, kept[j]) == Drop;
    }
  }

  /**
   * In confidence order, with confidences not negative, an incoming stamp never evicts a
   * signature (its confidence cannot exceed 1.2 times a kept one's), and it is dropped
   * exactly when it overlaps a kept stamp or signature.
   */
  lemma StampStep(ds: seq<Detection>, d: Detection)
    requires d.kind == Stamp && d.conf >= 0.0 && SortedDesc(ds + [d])
    ensures var f := Resolve(ds);
            Resolve(ds + [d]) == if exists k :: k in f && k.kind != QrCode && Overlaps(d, k) then f else f + [d]
  {
    var f := Resolve(ds);
    assert (ds + [d])[..|ds|] == ds;
    StampNeverEvicts(ds, d);
    ScanNoEviction(d, f, 0);
    ScanOverlapIff(d, f, 0);
    if exists k :: k in f && k.kind != QrCode && Overlaps(d, k) {
      var k :| k in f && k.kind != QrCode && Overlaps(d, k);
      var j :| 0 <= j < |f| && f[j] == k;
      assert Rule(d, f[j]) == Drop;
    }
  }

  /** A stamp that comes after the detections kept so far cannot evict any of them. */
  lemma StampNeverEvicts(ds: seq<Detection>, d: Detection)
    requires d.kind == Stamp && d.conf >= 0.0 && SortedDesc(ds + [d])
    ensures forall j :: 0 <= j < |Resolve(ds)| ==> Rule(d, Resolve(ds)[j]) != Evict
  {
    var f := Resolve(ds);
    ResolveSubseq(ds);
    SubseqMembers(f, ds);
    forall j | 0 <= j < |f|
      ensures Rule(d, f[j]) != Evict
    {
      assert f[j] in ds;
      var m :| 0 <= m < |ds| && ds[m] == f[j];
      assert (ds + [d])[m] == f[j] && (ds + [d])[|ds|] == d;
      assert f[j].conf >= d.conf;
    }
  }

  /** An incoming QR code is dropped exactly when it overlaps a kept QR code; otherwise it is appended. */
  lemma QrCodeStep(kept: seq<Detection>, d: Detection)
    requires d.kind == QrCode
    ensures var r := Step(kept, d);
            if exists k :: k in kept && k.kind == QrCode && Overlaps(d, k) then IsSubseq(r, kept)
            else |r| > 0 && r[|r| - 1] == d && IsSubseq(r[..|r| - 1], kept)
  {
    ScanOverlapIff(d, kept, 0);
    ScanSubseq(d, kept, 0);
    var s := Scan(d, kept, 0);
    if exists k :: k in kept && k.kind == QrCode && Overlaps(d, k) {
      var k :| k in kept && k.kind == QrCode && Overlaps(d, k);
      var j :| 0 <= j < |kept| && kept[j] == k;
      assert Rule(d, kept[j]) == Drop;
    } else {
      assert (s.kept + [d])[..|s.kept|] == s.kept;
    }
  }

  // ---------------- the skipped comparison ----------------

  /**
   * A signature, then two QR codes that both overlap the incoming third detection (each
   * IoU 1/3) but not each other's predecessor. Evicting the signature shifts the first
   * QR code into position 0, so the as-written iterator never compares the incoming QR
   * code with it and keeps both overlapping QR codes.
   */
  lemma ResolveAsWrittenKeepsOverlappingQrCodes(a: Detection, b: Detection, c: Detection)
    requires a == Detection(Signature, Box(0, 0, 10, 10), 0.9, NoSource)
    requires b == Detection(QrCode, Box(10, 0, 20, 10), 0.8, NoSource)
    requires c == Detection(QrCode, Box(5, 0, 15, 10), 0.7, NoSource)
    ensures ResolveOverlapsAsWritten([a], [], [b, c]) == [b, c]
    ensures b.kind == c.kind && Overlaps(c, b)
    ensures !SameLabelApart([b, c])
  {
    CrossingQrCodesGeometry(a, b, c);
    CrossingQrCodesRules(a, b, c);
    SkippedComparison(a, b, c);
  }

  /** The as-written trace: c evicts a, the iterator moves past b, and c is appended. */
  lemma SkippedComparison(a: Detection, b: Detection, c: Detection)
    requires !Overlaps(b, a) && Overlaps(c, a) && Rule(c, a) == Evict && SortedDesc([a, b, c])
    requires b.kind == c.kind && Overlaps(c, b)
    ensures ResolveOverlapsAsWritten([a], [], [b, c]) == [b, c]
    ensures !SameLabelApart([b, c])
  {
    AlreadySorted(a, b, c);
    assert [b, c][0] == b && [b, c][1] == c;
    AsWrittenTrace(a, b, c);
  }

  lemma AsWrittenTrace(a: Detection, b: Detection, c: Detection)
    requires !Overlaps(b, a) && Overlaps(c, a) && Rule(c, a) == Evict
    ensures ResolveAsWritten([a, b, c]) == [b, c]
  {
    assert [a, b, c][..2] == [a, b];
    PairAsWritten(a, b);
    HeadRemoved(a, b);
    assert ScanAsWritten(c, [b], 1) == ScanResult([b], false);
  }

  /** Two detections of which the second does not overlap the first are both kept, as written. */
  lemma PairAsWritten(a: Detection, b: Detection)
    requires !Overlaps(b, a)
    ensures ResolveAsWritten([a, b]) == [a, b]
  {
    assert [a, b][..1] == [a] && [a][..0] == [];
    assert ScanAsWritten(a, [], 0) == ScanResult([], false);
    assert ResolveAsWritten([a]) == [a];
    assert ScanAsWritten(b, [a], 1) == ScanResult([a], false);
  }

  /** The same for the intended resolver. */
  lemma Pair(a: Detection, b: Detection)
    requires !Overlaps(b, a)
    ensures Resolve([a, b]) == [a, b]
  {
    assert [a, b][..1] == [a] && [a][..0] == [];
    assert Scan(a, [], 0) == ScanResult([], false);
    assert Resolve([a]) == [a];
    assert Scan(b, [a], 1) == ScanResult([a], false);
  }

  /** `[a, b].remove(a)` leaves [b]. */
  lemma HeadRemoved(a: Detection, b: Detection)
    ensures RemoveFirst([a, b], a) == [b]
  {
    assert IndexOf([a, b], a) == 0;
  }

  /** The intended trace: c evicts a, is then compared with b, and is dropped. */
  lemma FullComparison(a: Detection, b: Detection, c: Detection)
    requires !Overlaps(b, a) && Overlaps(c, a) && Rule(c, a) == Evict && Overlaps(c, b) && Rule(c, b) == Drop
    requires SortedDesc([a, b, c])
    ensures ResolveOverlaps([a], [], [b, c]) == [b]
  {
    AlreadySorted(a, b, c);
    IntendedTrace(a, b, c);
  }

  lemma IntendedTrace(a: Detection, b: Detection, c: Detection)
    requires !Overlaps(b, a) && Overlaps(c, a) && Rule(c, a) == Evict && Overlaps(c, b) && Rule(c, b) == Drop
    ensures Resolve([a, b, c]) == [b]
  {
    assert [a, b, c][..2] == [a, b];
    Pair(a, b);
    HeadRemoved(a, b);
    assert Scan(c, [b], 0) == ScanResult([b], true);
  }

  lemma AlreadySorted(a: Detection, b: Detection, c: Detection)
    requires SortedDesc([a, b, c])
    ensures SortDesc([a] + [] + [b, c]) == [a, b, c]
  {
    var s := [a, b, c];
    assert [a] + [] + [b, c] == s;
    SortDescOfSorted(s);
  }

  /** The intended resolver drops the third detection and keeps one QR code. */
  lemma ResolveDropsOverlappingQrCode(a: Detection, b: Detection, c: Detection)
    requires a == Detection(Signature, Box(0, 0, 10, 10), 0.9, NoSource)
    requires b == Detection(QrCode, Box(10, 0, 20, 10), 0.8, NoSource)
    requires c == Detection(QrCode, Box(5, 0, 15, 10), 0.7, NoSource)
    ensures ResolveOverlaps([a], [], [b, c]) == [b]
  {
    CrossingQrCodesGeometry(a, b, c);
    CrossingQrCodesRules(a, b, c);
    FullComparison(a, b, c);
  }

  lemma CrossingQrCodesGeometry(a: Detection, b: Detection, c: Detection)
    requires a == Detection(Signature, Box(0, 0, 10, 10), 0.9, NoSource)
    requires b == Detection(QrCode, Box(10, 0, 20, 10), 0.8, NoSource)
    requires c == Detection(QrCode, Box(5, 0, 15, 10), 0.7, NoSource)
    ensures !Overlaps(b, a) && Overlaps(c, a) && Overlaps(c, b)
  {
    ApartBoxes(b.box, a.box);
    ThirdOverlap(c.box, a.box);
    ThirdOverlap(c.box, b.box);
  }

  lemma ApartBoxes(p: Box, q: Box)
    requires p == Box(10, 0, 20, 10) && q == Box(0, 0, 10, 10)
    ensures PlainIou(p, q) == 0.0
  {
    PlainIouDisjoint(p, q);
  }

  lemma CrossingQrCodesRules(a: Detection, b: Detection, c: Detection)
    requires a == Detection(Signature, Box(0, 0, 10, 10), 0.9, NoSource)
    requires b == Detection(QrCode, Box(10, 0, 20, 10), 0.8, NoSource)
    requires c == Detection(QrCode, Box(5, 0, 15, 10), 0.7, NoSource)
    ensures Rule(c, a) == Evict && Rule(c, b) == Drop
    ensures SortedDesc([a, b, c])
  {
  }

  /** Two 10 by 10 boxes, level, offset by 5 along x: IoU 50 / 150. */
  lemma ThirdOverlap(p: Box, q: Box)
    requires p.y1 == q.y1 == 0 && p.y2 == q.y2 == 10
    requires p.x2 - p.x1 == 10 && q.x2 - q.x1 == 10
    requires p.x1 - q.x1 == 5 || q.x1 - p.x1 == 5
    ensures PlainIou(p, q) > 0.3
  {
    assert OverlapW(p, q) == 5 && OverlapH(p, q) == 10;
    assert InterArea(p, q) == 50;
    assert Area(p) == 100 && Area(q) == 100;
    assert WellFormed(p) && WellFormed(q);
    assert PlainIou(p, q) == 50.0 / 150.0;
  }

  // ---------------- pages and documents ----------------

  /** `elements_found`: detections per label. */
  datatype ElementsFound = ElementsFound(signatures: nat, stamps: nat, qrCodes: nat)

  /** The page dict of process_document, without its processing time. */
  datatype PageResult = PageResult(pageNumber: int, imageSize: (int, int), detections: seq<Detection>, found: ElementsFound)

  function CountsOf(ds: seq<Detection>): ElementsFound
  {
    ElementsFound(CountLabel(ds, Signature), CountLabel(ds, Stamp), CountLabel(ds, QrCode))
  }

  function Total(f: ElementsFound): nat
  {
    f.signatures + f.stamps + f.qrCodes
  }

  /** Every detection carries one of the three labels, so the counts add up to the number of detections. */
  lemma {:induction false} CountsCoverAll(ds: seq<Detection>)
    ensures Total(CountsOf(ds)) == |ds|
    decreases |ds|
  {
    if |ds| > 0 {
      CountsCoverAll(ds[..|ds| - 1]);
    }
  }

  /**
   * process_document(image, page_num) on a W x H page, with `_resolve_overlaps` examining
   * every kept detection and detect_signatures appending its whole-page hits (the
   * corrected lines of `ResolveOverlaps` and `SignatureDetector.Signatures`). The
   * signature detector works on the page scaled to `SignatureFrame(W, H)` and its boxes
   * stay in that frame; the stamp and QR boxes are in the page's own frame, and the
   * resolver compares the two unchanged. The signature detector's exception
   * propagates; the QR detector catches its own.
   */
  function ProcessDocument(pageNumber: int, W: nat, H: nat,
                           lines: seq<SignatureDetector.TextLine>, model: Box -> seq<SignatureDetector.ModelResult>,
                           qrRecords: Option<seq<QrDetector.QrRecord>>, yolo: seq<seq<StampDetector.YoloBox>>): Result<PageResult>
  {
    var frame := SignatureDetector.SignatureFrame(W, H);
    var sigs := SignatureDetector.Signatures(lines, frame.0, frame.1, model);
    if sigs.Err? then Err(sigs.error)
    else
      var ds := ResolveOverlaps(sigs.value, StampDetector.Stamps(yolo), QrDetector.QrCodes(qrRecords));
      Ok(PageResult(pageNumber, (W, H), ds, CountsOf(ds)))
  }

  method DetectPage(pageNumber: int, W: nat, H: nat,
                    lines: seq<SignatureDetector.TextLine>, model: Box -> seq<SignatureDetector.ModelResult>,
                    qrRecords: Option<seq<QrDetector.QrRecord>>, yolo: seq<seq<StampDetector.YoloBox>>)
    returns (r: Result<PageResult>)
    ensures r == ProcessDocument(pageNumber, W, H, lines, model, qrRecords, yolo)
    ensures r.Ok? ==> Total(r.value.found) == |r.value.detections| && SameLabelApart(r.value.detections)
  {
    var frame := SignatureDetector.SignatureFrame(W, H);
    var signatures := SignatureDetector.DetectSignatures(lines, frame.0, frame.1, model);
    if signatures.Err? {
      return Err(signatures.error);
    }
    var qrCodes := QrDetector.DetectQrCodes(qrRecords);
    var stamps := StampDetector.DetectStamps(yolo);
    var processed := ResolveOverlapsLoop(signatures.value, stamps, qrCodes);
    CountsCoverAll(processed);
    ResolveOverlapsApart(signatures.value, stamps, qrCodes);
    r := Ok(PageResult(pageNumber, (W, H), processed, CountsOf(processed)));
  }

  /**
   * process_document as written: detect_signatures raises at `ImageEnhance` on any cue
   * region and at `detections` on any whole-page hit, and `_resolve_overlaps` skips the
   * kept detection after an evicted one.
   */
  function ProcessDocumentAsWritten(pageNumber: int, W: nat, H: nat,
                                    lines: seq<SignatureDetector.TextLine>, model: Box -> seq<SignatureDetector.ModelResult>,
                                    qrRecords: Option<seq<QrDetector.QrRecord>>, yolo: seq<seq<StampDetector.YoloBox>>): Result<PageResult>
  {
    var frame := SignatureDetector.SignatureFrame(W, H);
    var sigs := SignatureDetector.SignaturesAsWritten(lines, frame.0, frame.1, model);
    if sigs.Err? then Err(sigs.error)
    else
      var ds := ResolveOverlapsAsWritten(sigs.value, StampDetector.Stamps(yolo), QrDetector.QrCodes(qrRecords));
      Ok(PageResult(pageNumber, (W, H), ds, CountsOf(ds)))
  }

  /**
   * As written, a page that does not raise reports no signature: its detections are the
   * as-written resolution of the stamps and QR codes alone, and its signature count is 0.
   */
  lemma ProcessDocumentAsWrittenFindsNoSignature(pageNumber: int, W: nat, H: nat,
                                                 lines: seq<SignatureDetector.TextLine>, model: Box -> seq<SignatureDetector.ModelResult>,
                                                 qrRecords: Option<seq<QrDetector.QrRecord>>, yolo: seq<seq<StampDetector.YoloBox>>)
    ensures var r := ProcessDocumentAsWritten(pageNumber, W, H, lines, model, qrRecords, yolo);
            r.Ok? ==> r.value.detections == ResolveOverlapsAsWritten([], StampDetector.Stamps(yolo), QrDetector.QrCodes(qrRecords))
                      && r.value.found.signatures == 0
  {
    var frame := SignatureDetector.SignatureFrame(W, H);
    SignatureDetector.SignaturesAsWrittenFindNothing(lines, frame.0, frame.1, model);
    var stamps, qrs := StampDetector.Stamps(yolo), QrDetector.QrCodes(qrRecords);
    StampDetector.StampsSound(yolo);
    if qrRecords.Some? {
      QrDetector.CollectSound(qrRecords.value);
    }
    NoSignatureResolved(stamps, qrs);
  }

  /** Resolving stamps and QR codes alone yields no signature. */
  lemma NoSignatureResolved(stamps: seq<Detection>, qrs: seq<Detection>)
    requires forall d :: d in stamps + qrs ==> d.kind != Signature
    ensures CountLabel(ResolveOverlapsAsWritten([], stamps, qrs), Signature) == 0
  {
    var all := SortDesc([] + stamps + qrs);
    var ds := ResolveOverlapsAsWritten([], stamps, qrs);
    ResolveOverlapsSubseq([], stamps, qrs);
    SubseqMembers(ds, all);
    NoSignatureSorted(stamps + qrs);
    assert [] + stamps + qrs == stamps + qrs;
    NoSignatureCounted(ds);
  }

  /** Sorting adds no signature. */
  lemma NoSignatureSorted(s: seq<Detection>)
    requires forall d :: d in s ==> d.kind != Signature
    ensures forall d :: d in SortDesc(s) ==> d.kind != Signature
  {
    assert forall d :: d in SortDesc(s) ==> d in multiset(SortDesc(s));
  }

  /** A list without signatures counts none. */
  lemma NoSignatureCounted(ds: seq<Detection>)
    requires forall d :: d in ds ==> d.kind != Signature
    ensures CountLabel(ds, Signature) == 0
  {
    forall i | 0 <= i < |ds|
      ensures ds[i].kind != Signature
    {
      assert ds[i] in ds;
    }
    assert LabelPositions(ds, Signature) == {};
  }

  /** A page result whose counts are those of its detections, as process_document builds it. */
  predicate Consistent(p: PageResult)
  {
    p.found == CountsOf(p.detections)
  }

  /** The `metadata` of save_results_json, without the summed processing time. */
  datatype Metadata = Metadata(totalPages: nat, totalElements: nat)

  function TotalElements(pages: seq<PageResult>): nat
  {
    if |pages| == 0 then 0 else TotalElements(pages[..|pages| - 1]) + Total(pages[|pages| - 1].found)
  }

  function TotalDetections(pages: seq<PageResult>): nat
  {
    if |pages| == 0 then 0 else TotalDetections(pages[..|pages| - 1]) + |pages[|pages| - 1].detections|
  }

  function MetadataOf(pages: seq<PageResult>): (m: Metadata)
    ensures m.totalPages == |pages|
  {
    Metadata(|pages|, TotalElements(pages))
  }

  /** For pages built by process_document, total_elements is the number of detections in the document. */
  lemma {:induction false} TotalElementsCountsDetections(pages: seq<PageResult>)
    requires forall i :: 0 <= i < |pages| ==> Consistent(pages[i])
    ensures MetadataOf(pages).totalElements == TotalDetections(pages)
    decreases |pages|
  {
    if |pages| > 0 {
      TotalElementsCountsDetections(pages[..|pages| - 1]);
      CountsCoverAll(pages[|pages| - 1].detections);
    }
  }
}
