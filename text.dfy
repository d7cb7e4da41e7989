/**
 * The string operations the keyword matchers rely on: Python's `str.lower()`
 * (for the Latin and Cyrillic letters the keyword lists use), the `in`
 * substring test, `str.strip()` emptiness and `" ".join`.
 */
module Text {

  /** `str.lower()` on one character: ASCII A-Z, Cyrillic А-Я and the Ѐ-Џ block (Ё among them). */
  function LowerChar(c: char): char
  {
    if 'A' <= c <= 'Z' then (c as int + 32) as char
    else if '\U{0410}' <= c <= '\U{042F}' then (c as int + 0x20) as char
    else if '\U{0400}' <= c <= '\U{040F}' then (c as int + 0x50) as char
    else c
  }

  /** A capital letter of the modelled alphabet: A-Z, or U+0400 to U+042F. */
  predicate IsUpper(c: char)
  {
    'A' <= c <= 'Z' || '\U{0400}' <= c <= '\U{042F}'
  }

  /** `s.lower()`, one character at a time: no capital survives, and every other character is kept. */
  function Lower(s: string): (r: string)
    ensures |r| == |s|
    ensures forall i :: 0 <= i < |r| ==> !IsUpper(r[i])
    ensures forall i :: 0 <= i < |s| && !IsUpper(s[i]) ==> r[i] == s[i]
  {
    seq(|s|, i requires 0 <= i < |s| => LowerChar(s[i]))
  }

  /** Lower-casing twice changes nothing more. */
  lemma LowerIdempotent(s: string)
    ensures Lower(Lower(s)) == Lower(s)
  {
  }

  /** Is `p` a prefix of `s`? */
  predicate StartsWith(s: string, p: string)
  {
    |p| <= |s| && s[..|p|] == p
  }

  /** Python's `needle in hay`, scanning start positions from the left (the empty needle is in every string). */
  predicate Contains(hay: string, needle: string)
    decreases |hay|
  {
    StartsWith(hay, needle) || (|hay| > 0 && Contains(hay[1..], needle))
  }

  /** The needle occurs in the haystack at offset i. */
  predicate OccursAt(hay: string, needle: string, i: int)
  {
    0 <= i <= |hay| - |needle| && hay[i..i + |needle|] == needle
  }

  /** The scan agrees with the definition "the needle occurs at some offset", in both directions. */
  lemma {:induction false} ContainsIffOccurs(hay: string, needle: string)
    ensures Contains(hay, needle) <==> exists i :: OccursAt(hay, needle, i)
    decreases |hay|
  {
    if StartsWith(hay, needle) {
      assert OccursAt(hay, needle, 0);
    } else if |hay| == 0 {
      // the needle is not empty (it would be a prefix), so it fits nowhere
      assert forall i :: !OccursAt(hay, needle, i);
    } else {
      ContainsIffOccurs(hay[1..], needle);
      if exists i :: OccursAt(hay, needle, i) {
        var i :| OccursAt(hay, needle, i);
        assert i != 0;
        assert hay[1..][i - 1..i - 1 + |needle|] == hay[i..i + |needle|];
        assert OccursAt(hay[1..], needle, i - 1);
      }
      if Contains(hay[1..], needle) {
        var j :| OccursAt(hay[1..], needle, j);
        assert hay[1..][j..j + |needle|] == hay[j + 1..j + 1 + |needle|];
        assert OccursAt(hay, needle, j + 1);
      }
    }
  }

  /** A string occurs in any string that extends it on both sides. */
  lemma ContainsItself(pre: string, s: string, post: string)
    ensures Contains(pre + s + post, s)
  {
    ContainsIffOccurs(pre + s + post, s);
    assert (pre + s + post)[|pre|..|pre| + |s|] == s;
    assert OccursAt(pre + s + post, s, |pre|);
  }

  /** `str.isspace()` for one character: the whitespace Python's `strip()` removes. */
  predicate IsSpace(c: char)
  {
    c == ' ' || '\t' <= c <= '\r' || '\U{001C}' <= c <= '\U{001F}' || c == '\U{0085}' || c == '\U{00A0}'
    || c == '\U{1680}' || '\U{2000}' <= c <= '\U{200A}' || c == '\U{2028}' || c == '\U{2029}'
    || c == '\U{202F}' || c == '\U{205F}' || c == '\U{3000}'
  }

  /** `not word.strip()`: the word is empty or only whitespace. */
  predicate IsBlank(w: string)
  {
    forall i :: 0 <= i < |w| ==> IsSpace(w[i])
  }

  /** The total length of a list of words. */
  function SumLen(words: seq<string>): nat
  {
    if |words| == 0 then 0 else SumLen(words[..|words| - 1]) + |words[|words| - 1]|
  }

  /** `sep.join(words)`: the words with one separator between each neighbouring pair. */
  function Join(words: seq<string>, sep: string): (r: string)
    ensures |words| == 0 ==> r == ""
    ensures |words| > 0 ==> |r| == SumLen(words) + (|words| - 1) * |sep|
  {
    if |words| == 0 then ""
    else if |words| == 1 then words[0]
    else Join(words[..|words| - 1], sep) + sep + words[|words| - 1]
  }

  /** Joining two non-empty lists of words puts one separator between the two joins. */
  lemma {:induction false} JoinConcat(a: seq<string>, b: seq<string>, sep: string)
    requires |a| > 0 && |b| > 0
    ensures Join(a + b, sep) == Join(a, sep) + sep + Join(b, sep)
    decreases |b|
  {
    var n := |b|;
    assert (a + b)[..|a + b| - 1] == a + b[..n - 1];
    assert (a + b)[|a + b| - 1] == b[n - 1];
    if n == 1 {
      assert a + b[..0] == a;
    } else {
      JoinConcat(a, b[..n - 1], sep);
    }
  }
}
