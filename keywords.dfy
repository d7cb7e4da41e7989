/**
 * The keyword locator of the fusion engine (`search_keywords` in
 * backend/app/services/innovations.py): every OCR word that contains a
 * configured keyword, compared case-insensitively, yields one hit carrying
 * the word's box.
 */
module Keywords {
  import opened Detections
  import opened Text
  import opened Ordering

  /** Entry i of pytesseract's image_to_data dict: text[i], left[i], top[i], width[i], height[i]. */
  datatype OcrWord = OcrWord(text: string, left: int, top: int, width: int, height: int)

  /** The dict {'keyword', 'word', 'bbox'} appended to `found`. */
  datatype KeywordHit = KeywordHit(keyword: string, word: string, box: Box)

  /** `Innovations.default_keywords`. */
  const DefaultKeywords: seq<string> := [
    "Главный инженер", "Ф.И.О.", "Главный инженер проекта",
    "Руководитель", "подпись", "Подпись", "М.П.", "МП",
    "Технический директор", "Директор", "ТОО"
  ]

  /** `[x, y, x + w, y + h]` of an OCR word. */
  function WordBox(w: OcrWord): Box
  {
    Box(w.left, w.top, w.left + w.width, w.top + w.height)
  }

  /** `kw.lower() in word.lower()`. */
  predicate Matches(word: string, kw: string)
  {
    Contains(Lower(word), Lower(kw))
  }

  /** The hits one word produces, in keyword order. */
  function WordHits(w: OcrWord, kws: seq<string>): seq<KeywordHit>
  {
    if |kws| == 0 then []
    else WordHits(w, kws[..|kws| - 1])
         + (if Matches(w.text, kws[|kws| - 1]) then [KeywordHit(kws[|kws| - 1], w.text, WordBox(w))] else [])
  }

  /** All hits of an OCR result, word by word; blank words are skipped. */
  function Hits(words: seq<OcrWord>, kws: seq<string>): seq<KeywordHit>
  {
    if |words| == 0 then []
    else Hits(words[..|words| - 1], kws)
         + (if IsBlank(words[|words| - 1].text) then [] else WordHits(words[|words| - 1], kws))
  }

  /** The non-blank words' texts, in order (the `ocr_text` list). */
  function NonBlankTexts(words: seq<OcrWord>): seq<string>
  {
    if |words| == 0 then []
    else NonBlankTexts(words[..|words| - 1])
         + (if IsBlank(words[|words| - 1].text) then [] else [words[|words| - 1].text])
  }

  /** The keywords that a word contains, in keyword order. */
  function MatchingKeywords(word: string, kws: seq<string>): seq<string>
  {
    if |kws| == 0 then []
    else MatchingKeywords(word, kws[..|kws| - 1])
         + (if Matches(word, kws[|kws| - 1]) then [kws[|kws| - 1]] else [])
  }

  /**
   * search_keywords(image, keywords, return_ocr_text): `ocr` is None when pytesseract
   * is not installed; `keywords` is None when the caller passes none. Returns the hits
   * and the non-blank words joined by single spaces (the second value of the tuple
   * returned when return_ocr_text is set).
   */
  method SearchKeywords(ocr: Option<seq<OcrWord>>, keywords: Option<seq<string>>)
    returns (found: seq<KeywordHit>, text: string)
    ensures ocr.None? ==> found == [] && text == ""
    ensures ocr.Some? ==>
              var kws := if keywords.Some? then keywords.value else DefaultKeywords;
              found == Hits(ocr.value, kws) && text == Join(NonBlankTexts(ocr.value), " ")
  {
    var kws := if keywords.Some? then keywords.value else DefaultKeywords;
    if ocr.None? {
      return [], "";
    }
    var words := ocr.value;
    found := [];
    var texts: seq<string> := [];
    var i := 0;
    while i < |words|
      invariant 0 <= i <= |words|
      invariant found == Hits(words[..i], kws)
      invariant texts == NonBlankTexts(words[..i])
    {
      var word := words[i];
      assert words[..i + 1][..i] == words[..i];
      if !IsBlank(word.text) {
        texts := texts + [word.text];
        var hits := SearchWord(word, kws);
        found := found + hits;
      }
      i := i + 1;
    }
    assert words[..i] == words;
    text := Join(texts, " ");
  }

  /** The inner loop of search_keywords over the keywords, for one OCR word. */
  method SearchWord(word: OcrWord, kws: seq<string>) returns (hits: seq<KeywordHit>)
    ensures hits == WordHits(word, kws)
  {
    hits := [];
    var j := 0;
    while j < |kws|
      invariant 0 <= j <= |kws|
      invariant hits == WordHits(word, kws[..j])
    {
      assert kws[..j + 1][..j] == kws[..j];
      if Matches(word.text, kws[j]) {
        hits := hits + [KeywordHit(kws[j], word.text, WordBox(word))];
      }
      j := j + 1;
    }
    assert kws[..j] == kws;
  }

  /**
   * One word yields exactly one hit per keyword it contains, in keyword order, each
   * carrying the word and its box.
   */
  lemma {:induction false} WordHitsArePerMatchingKeyword(w: OcrWord, kws: seq<string>)
    ensures var hs, ms := WordHits(w, kws), MatchingKeywords(w.text, kws);
            |hs| == |ms| &&
            forall k :: 0 <= k < |hs| ==> hs[k] == KeywordHit(ms[k], w.text, WordBox(w))
    decreases |kws|
  {
    if |kws| > 0 {
      WordHitsArePerMatchingKeyword(w, kws[..|kws| - 1]);
    }
  }

  /** The matching keywords are exactly the keywords the word contains, kept in order. */
  lemma {:induction false} MatchingKeywordsExact(word: string, kws: seq<string>)
    ensures IsSubseq(MatchingKeywords(word, kws), kws)
    ensures forall k :: k in MatchingKeywords(word, kws) ==> Matches(word, k)
    ensures forall j :: 0 <= j < |kws| && Matches(word, kws[j]) ==> kws[j] in MatchingKeywords(word, kws)
    decreases |kws|
  {
    if |kws| == 0 {
      SubseqEmpty(kws);
    } else {
      var pre := kws[..|kws| - 1];
      var last := kws[|kws| - 1];
      MatchingKeywordsExact(word, pre);
      assert kws == pre + [last];
      if Matches(word, last) {
        SubseqAppendBoth(MatchingKeywords(word, pre), pre, last);
        assert MatchingKeywords(word, kws) == MatchingKeywords(word, pre) + [last];
      } else {
        SubseqExtend(MatchingKeywords(word, pre), pre, last);
        assert MatchingKeywords(word, kws) == MatchingKeywords(word, pre);
      }
      MatchingCompleteStep(word, kws);
    }
  }

  /** Completeness carries over from the list without its last keyword to the whole list. */
  lemma MatchingCompleteStep(word: string, kws: seq<string>)
    requires |kws| > 0
    requires var pre := kws[..|kws| - 1];
             forall j :: 0 <= j < |pre| && Matches(word, pre[j]) ==> pre[j] in MatchingKeywords(word, pre)
    ensures forall j :: 0 <= j < |kws| && Matches(word, kws[j]) ==> kws[j] in MatchingKeywords(word, kws)
  {
    var pre := kws[..|kws| - 1];
    forall j | 0 <= j < |kws| && Matches(word, kws[j])
      ensures kws[j] in MatchingKeywords(word, kws)
    {
      if j < |kws| - 1 {
        assert kws[j] == pre[j];
      }
    }
  }

  /** Every hit names a keyword of the list that its word contains, and carries that word's box. */
  lemma {:induction false} HitsSound(words: seq<OcrWord>, kws: seq<string>)
    ensures forall h :: h in Hits(words, kws) ==>
              h.keyword in kws && Matches(h.word, h.keyword) &&
              exists w :: w in words && !IsBlank(w.text) && h.word == w.text && h.box == WordBox(w)
    decreases |words|
  {
    if |words| > 0 {
      var pre := words[..|words| - 1];
      var last := words[|words| - 1];
      HitsSound(pre, kws);
      WordHitsArePerMatchingKeyword(last, kws);
      MatchingKeywordsExact(last.text, kws);
      SubseqMembers(MatchingKeywords(last.text, kws), kws);
      assert last in words;
      forall h | h in Hits(words, kws)
        ensures h.keyword in kws && Matches(h.word, h.keyword)
        ensures exists w :: w in words && !IsBlank(w.text) && h.word == w.text && h.box == WordBox(w)
      {
        if h in Hits(pre, kws) {
          var w :| w in pre && !IsBlank(w.text) && h.word == w.text && h.box == WordBox(w);
          assert w in words;
        } else {
          var hs := WordHits(last, kws);
          assert h in hs;
          var k :| 0 <= k < |hs| && hs[k] == h;
          assert MatchingKeywords(last.text, kws)[k] in MatchingKeywords(last.text, kws);
        }
      }
    }
  }

  /** Every non-blank word containing a keyword yields a hit for it, with the word's box. */
  lemma {:induction false} HitsComplete(words: seq<OcrWord>, kws: seq<string>, i: int, j: int)
    requires 0 <= i < |words| && 0 <= j < |kws|
    requires !IsBlank(words[i].text) && Matches(words[i].text, kws[j])
    ensures KeywordHit(kws[j], words[i].text, WordBox(words[i])) in Hits(words, kws)
    decreases |words|
  {
    var pre := words[..|words| - 1];
    if i < |words| - 1 {
      assert pre[i] == words[i];
      HitsComplete(pre, kws, i, j);
    } else {
      var w := words[i];
      WordHitsArePerMatchingKeyword(w, kws);
      MatchingKeywordsExact(w.text, kws);
      var ms := MatchingKeywords(w.text, kws);
      var k :| 0 <= k < |ms| && ms[k] == kws[j];
      assert WordHits(w, kws)[k] == KeywordHit(kws[j], w.text, WordBox(w));
    }
  }

  /** A blank word adds no hits. */
  lemma BlankWordAddsNothing(words: seq<OcrWord>, w: OcrWord, kws: seq<string>)
    requires IsBlank(w.text)
    ensures Hits(words + [w], kws) == Hits(words, kws)
  {
    assert (words + [w])[..|words|] == words;
  }
}
