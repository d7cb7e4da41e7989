/**
 * Python's `sorted(ds, key=lambda x: x['confidence'], reverse=True)` and
 * `ds.sort(...)` with the same key, and the subsequence relation the
 * filters and resolvers are stated with.
 */
module Ordering {
  import opened Detections

  /** Confidences never increase along the list. */
  predicate SortedDesc(s: seq<Detection>)
  {
    forall i, j :: 0 <= i < j < |s| ==> s[i].conf >= s[j].conf
  }

  /** Places x before the first element whose confidence is at most x's, so x precedes later ties. */
  function Insert(x: Detection, s: seq<Detection>): (r: seq<Detection>)
    ensures |r| == |s| + 1
    ensures r[0] == if |s| == 0 || s[0].conf <= x.conf then x else s[0]
  {
    if |s| == 0 || s[0].conf <= x.conf then [x] + s
    else [s[0]] + Insert(x, s[1..])
  }

  lemma {:induction false} InsertMultiset(x: Detection, s: seq<Detection>)
    ensures multiset(Insert(x, s)) == multiset(s) + multiset{x}
    decreases |s|
  {
    if |s| > 0 && s[0].conf > x.conf {
      InsertMultiset(x, s[1..]);
      assert s == [s[0]] + s[1..];
    }
  }

  lemma {:induction false} InsertSorted(x: Detection, s: seq<Detection>)
    requires SortedDesc(s)
    ensures SortedDesc(Insert(x, s))
    decreases |s|
  {
    if |s| > 0 && s[0].conf > x.conf {
      var t := Insert(x, s[1..]);
      InsertSorted(x, s[1..]);
      assert s[0].conf >= t[0].conf;
      assert Insert(x, s) == [s[0]] + t;
    }
  }

  /** The stable descending sort by confidence (Python's sort is stable, also with reverse=True). */
  function SortDesc(s: seq<Detection>): (r: seq<Detection>)
    ensures |r| == |s|
    ensures multiset(r) == multiset(s)
    ensures SortedDesc(r)
  {
    if |s| == 0 then []
    else
      assert s == [s[0]] + s[1..];
      InsertSorted(s[0], SortDesc(s[1..]));
      InsertMultiset(s[0], SortDesc(s[1..]));
      Insert(s[0], SortDesc(s[1..]))
  }

  /** The elements of s whose confidence is v, in their order in s. */
  function WithConf(s: seq<Detection>, v: real): seq<Detection>
  {
    if |s| == 0 then []
    else (if s[0].conf == v then [s[0]] else []) + WithConf(s[1..], v)
  }

  lemma {:induction false} InsertWithConf(x: Detection, s: seq<Detection>, v: real)
    ensures WithConf(Insert(x, s), v) == (if x.conf == v then [x] else []) + WithConf(s, v)
    decreases |s|
  {
    if |s| == 0 || s[0].conf <= x.conf {
      assert Insert(x, s) == [x] + s;
      assert ([x] + s)[1..] == s;
    } else {
      InsertWithConf(x, s[1..], v);
      InsertPastHead(x, s, v);
    }
  }

  /** The step of InsertWithConf where x goes past the head of s. */
  lemma InsertPastHead(x: Detection, s: seq<Detection>, v: real)
    requires |s| > 0 && s[0].conf > x.conf
    requires WithConf(Insert(x, s[1..]), v) == (if x.conf == v then [x] else []) + WithConf(s[1..], v)
    ensures WithConf(Insert(x, s), v) == (if x.conf == v then [x] else []) + WithConf(s, v)
  {
    var t := Insert(x, s[1..]);
    var w := WithConf(s[1..], v);
    assert Insert(x, s) == [s[0]] + t;
    assert ([s[0]] + t)[1..] == t;
    if x.conf == v {
      calc {
        WithConf(Insert(x, s), v);
        WithConf(t, v);
        [x] + w;
        [x] + WithConf(s, v);
      }
    } else {
      calc {
        WithConf(Insert(x, s), v);
        (if s[0].conf == v then [s[0]] else []) + WithConf(t, v);
        (if s[0].conf == v then [s[0]] else []) + w;
        WithConf(s, v);
      }
    }
  }

  /**
   * Stability: for every confidence value, the elements carrying it appear in
   * the sorted list in exactly their input order.
   */
  lemma {:induction false} SortDescStable(s: seq<Detection>, v: real)
    ensures WithConf(SortDesc(s), v) == WithConf(s, v)
    decreases |s|
  {
    if |s| > 0 {
      SortDescStable(s[1..], v);
      InsertWithConf(s[0], SortDesc(s[1..]), v);
    }
  }

  /** An already sorted list is returned unchanged. */
  lemma {:induction false} SortDescOfSorted(s: seq<Detection>)
    requires SortedDesc(s)
    ensures SortDesc(s) == s
    decreases |s|
  {
    if |s| > 0 {
      SortDescOfSorted(s[1..]);
      assert s == [s[0]] + s[1..];
    }
  }

  /** s without its i-th element (`list.remove` of that element). */
  function RemoveAt<T>(s: seq<T>, i: nat): (r: seq<T>)
    requires i < |s|
    ensures |r| == |s| - 1
    ensures forall k :: 0 <= k < i ==> r[k] == s[k]
    ensures forall k :: i <= k < |r| ==> r[k] == s[k + 1]
  {
    s[..i] + s[i + 1..]
  }

  /** a can be obtained from b by deleting elements (a matching that works from the right). */
  predicate IsSubseq<T(==)>(a: seq<T>, b: seq<T>)
    decreases |b|
  {
    if |b| == 0 then |a| == 0
    else (|a| > 0 && a[|a| - 1] == b[|b| - 1] && IsSubseq(a[..|a| - 1], b[..|b| - 1]))
         || IsSubseq(a, b[..|b| - 1])
  }

  lemma {:induction false} SubseqRefl<T>(a: seq<T>)
    ensures IsSubseq(a, a)
    decreases |a|
  {
    if |a| > 0 {
      SubseqRefl(a[..|a| - 1]);
    }
  }

  lemma SubseqEmpty<T>(b: seq<T>)
    ensures IsSubseq([], b)
    decreases |b|
  {
    if |b| > 0 {
      SubseqEmpty(b[..|b| - 1]);
    }
  }

  /** Appending to the longer list keeps the relation. */
  lemma SubseqExtend<T>(a: seq<T>, b: seq<T>, x: T)
    requires IsSubseq(a, b)
    ensures IsSubseq(a, b + [x])
  {
    assert (b + [x])[..|b|] == b;
  }

  /** Appending the same element to both lists keeps the relation. */
  lemma SubseqAppendBoth<T>(a: seq<T>, b: seq<T>, x: T)
    requires IsSubseq(a, b)
    ensures IsSubseq(a + [x], b + [x])
  {
    assert (b + [x])[..|b|] == b;
    assert (a + [x])[..|a|] == a;
  }

  lemma {:induction false} SubseqTrans<T>(a: seq<T>, b: seq<T>, c: seq<T>)
    requires IsSubseq(a, b) && IsSubseq(b, c)
    ensures IsSubseq(a, c)
    decreases |c|
  {
    if |c| > 0 {
      var c' := c[..|c| - 1];
      if IsSubseq(b, c') {
        SubseqTrans(a, b, c');
      } else {
        var b' := b[..|b| - 1];
        if |a| > 0 && a[|a| - 1] == b[|b| - 1] && IsSubseq(a[..|a| - 1], b') {
          SubseqTrans(a[..|a| - 1], b', c');
        } else {
          SubseqTrans(a, b', c');
        }
      }
    }
  }

  /** Deleting one element gives a subsequence. */
  lemma {:induction false} SubseqRemoveAt<T>(a: seq<T>, i: nat)
    requires i < |a|
    ensures IsSubseq(RemoveAt(a, i), a)
    decreases |a|
  {
    var n := |a|;
    if i == n - 1 {
      assert RemoveAt(a, i) == a[..n - 1];
      SubseqRefl(a[..n - 1]);
    } else {
      var r := RemoveAt(a, i);
      SubseqRemoveAt(a[..n - 1], i);
      assert r[..|r| - 1] == RemoveAt(a[..n - 1], i);
      assert r[|r| - 1] == a[n - 1];
    }
  }

  /** Every element of a subsequence is an element of the longer list. */
  lemma {:induction false} SubseqMembers<T>(a: seq<T>, b: seq<T>)
    requires IsSubseq(a, b)
    ensures |a| <= |b|
    ensures forall e :: e in a ==> e in b
    decreases |b|
  {
    if |b| > 0 {
      var b' := b[..|b| - 1];
      if |a| > 0 && a[|a| - 1] == b[|b| - 1] && IsSubseq(a[..|a| - 1], b') {
        SubseqMembers(a[..|a| - 1], b');
        assert a == a[..|a| - 1] + [a[|a| - 1]];
        assert b == b' + [b[|b| - 1]];
      } else {
        SubseqMembers(a, b');
        assert b == b' + [b[|b| - 1]];
      }
    }
  }
}
