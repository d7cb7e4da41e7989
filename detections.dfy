/**
 * The records that flow between the detector adapters and the fusion engine:
 * a labelled, axis-aligned box with a confidence, plus the error values the
 * model uses where the Python code raises.
 */
module Detections {

  /** The three marker classes (the `Label` enum of backend/app/enums.py). */
  datatype Label = Signature | Stamp | QrCode

  /** Provenance tag of a signature detection; records without a 'source' key carry NoSource. */
  datatype Source = NoSource | General | TextGuided

  /** A box [x1, y1, x2, y2] in integer pixel coordinates; nothing forces x1 <= x2 or y1 <= y2. */
  datatype Box = Box(x1: int, y1: int, x2: int, y2: int)

  /** A box as a model reports it, before the adapters truncate it to integers. */
  datatype RealBox = RealBox(x1: real, y1: real, x2: real, y2: real)

  /** One detection: the dict {'label', 'bbox', 'confidence'} (and 'source' where the adapter sets one); `label` is a Dafny keyword, so the label is `kind`. */
  datatype Detection = Detection(kind: Label, box: Box, conf: real, source: Source)

  datatype Option<+T> = None | Some(value: T)

  /** The Python exceptions the model distinguishes. */
  datatype Exception =
    | NameError(name: string)
    | AttributeError(name: string)
    | ValueError(message: string)

  /** The outcome of a call that may raise. */
  datatype Result<+T> = Ok(value: T) | Err(error: Exception)

  /** The box's width and height as the source computes them (x2 - x1, y2 - y1). */
  function Width(b: Box): int { b.x2 - b.x1 }
  function Height(b: Box): int { b.y2 - b.y1 }

  /** A box whose corners are ordered (possibly of zero area). */
  predicate WellFormed(b: Box) { b.x1 <= b.x2 && b.y1 <= b.y2 }

  /** Python's `int()` on a float: truncation toward zero. */
  function Trunc(r: real): (n: int)
    ensures r >= 0.0 ==> 0 <= n && n as real <= r < n as real + 1.0
    ensures r < 0.0 ==> n <= 0 && n as real - 1.0 < r <= n as real
  {
    if r >= 0.0 then r.Floor else -((-r).Floor)
  }

  /** Truncating an integer-valued float gives the integer back. */
  lemma TruncOfInt(n: int)
    ensures Trunc(n as real) == n
  {
  }

  /** `list(map(int, bbox))` / `[int(x) for x in bbox]` on a four-element box. */
  function TruncBox(b: RealBox): (r: Box)
    ensures b.x1 >= 0.0 ==> r.x1 as real <= b.x1 < r.x1 as real + 1.0
    ensures b.y1 >= 0.0 ==> r.y1 as real <= b.y1 < r.y1 as real + 1.0
    ensures b.x2 >= 0.0 ==> r.x2 as real <= b.x2 < r.x2 as real + 1.0
    ensures b.y2 >= 0.0 ==> r.y2 as real <= b.y2 < r.y2 as real + 1.0
    ensures b.x1 < 0.0 ==> r.x1 <= 0 && r.x1 as real - 1.0 < b.x1 <= r.x1 as real
    ensures b.y1 < 0.0 ==> r.y1 <= 0 && r.y1 as real - 1.0 < b.y1 <= r.y1 as real
    ensures b.x2 < 0.0 ==> r.x2 <= 0 && r.x2 as real - 1.0 < b.x2 <= r.x2 as real
    ensures b.y2 < 0.0 ==> r.y2 <= 0 && r.y2 as real - 1.0 < b.y2 <= r.y2 as real
  {
    Box(Trunc(b.x1), Trunc(b.y1), Trunc(b.x2), Trunc(b.y2))
  }

  /** Every confidence of a list lies in [0, 1] (the CHECK constraint of the Detection table). */
  predicate ConfsInUnit(ds: seq<Detection>)
  {
    forall i :: 0 <= i < |ds| ==> 0.0 <= ds[i].conf <= 1.0
  }

  lemma ConfsInUnitAppend(a: seq<Detection>, b: seq<Detection>)
    requires ConfsInUnit(a) && ConfsInUnit(b)
    ensures ConfsInUnit(a + b)
  {
    forall i | 0 <= i < |a + b| ensures 0.0 <= (a + b)[i].conf <= 1.0 {
      if i >= |a| {
        assert (a + b)[i] == b[i - |a|];
      }
    }
  }

  lemma ConfsInUnitPrefix(a: seq<Detection>, n: nat)
    requires n <= |a| && ConfsInUnit(a)
    ensures ConfsInUnit(a[..n])
  {
    forall i | 0 <= i < n ensures 0.0 <= a[..n][i].conf <= 1.0 {
      assert a[..n][i] == a[i];
    }
  }

  /** The positions of the detections carrying label l. */
  function LabelPositions(ds: seq<Detection>, l: Label): set<int>
  {
    set i | 0 <= i < |ds| && ds[i].kind == l
  }

  /** `len([d for d in ds if d['label'] == l])`: the number of detections carrying label l. */
  function CountLabel(ds: seq<Detection>, l: Label): (n: nat)
    ensures n == |LabelPositions(ds, l)|
    ensures n <= |ds|
  {
    if |ds| == 0 then 0
    else
      LabelPositionsSnoc(ds, l);
      CountLabel(ds[..|ds| - 1], l) + (if ds[|ds| - 1].kind == l then 1 else 0)
  }

  /** The positions in ds are those in its prefix, plus the last one when it carries l. */
  lemma LabelPositionsSnoc(ds: seq<Detection>, l: Label)
    requires |ds| > 0
    ensures var n := |ds| - 1;
            LabelPositions(ds, l) == LabelPositions(ds[..n], l) + (if ds[n].kind == l then {n} else {})
    ensures |ds| - 1 !in LabelPositions(ds[..|ds| - 1], l)
  {
    var n := |ds| - 1;
    forall i | 0 <= i < n
      ensures ds[..n][i] == ds[i]
    {
    }
  }
}
