# Detection post-processing and fusion, modelled in Dafny

This project models the part of the document-inspection backend that turns raw detector
output into the final per-page list of signatures, stamps and QR codes. A raw detection is
a label, a box and a confidence. The modelled code lives in two files.

- `backend/app/services/innovations.py`: the `Innovations` fusion engine. It provides:
  - box geometry (`calculate_iou`, `bbox_center_distance`, `expand_bbox`, `is_contained`);
  - keyword search over OCR words;
  - the mapping of refined detections from a stamp crop back to the page;
  - the pipeline `detect_with_overlap_handling`. The pipeline normalises the detections, refines the stamps, boosts signatures inside stamps and attenuates those stamps, removes near-duplicate stamps, appends QR codes, boosts detections near keywords, and sorts by confidence.
- `backend/app/services/detection_services.py`: the detector adapters and the `DigitalInspector`.
  - The adapters cover text-cue regions, the text-guided signature search with its whole-page fallback, signature non-maximum suppression, and the QR and stamp post-filters.
  - The inspector provides the priority-based `_resolve_overlaps`, the per-page label counts and the document totals.

Model inference, OCR and image processing are oracles. The model receives their results as
inputs: sequences of records, or functions from a crop box to records. Boxes are integer
quadruples. Confidences are `real`. Python's `int()` truncation toward zero is `Trunc`.
Python's stable `sort(..., reverse=True)` is `SortDesc`. A Python exception is an `Err`
value of a `Result`.

Modules, one per file:

| file | module | models |
|---|---|---|
| detections.dfy | `Detections` | labels (`backend/app/enums.py:10-13`), boxes, detections, `Result`, truncation, label counts |
| text.dfy | `Text` | `lower()`, substring `in`, `strip()` emptiness, `" ".join` |
| ordering.dfy | `Ordering` | stable descending sort by confidence, subsequences, deletion at an index |
| geometry.dfy | `Geometry` | both IoU functions, centre distance, `expand_bbox`, `is_contained` |
| keywords.dfy | `Keywords` | `search_keywords` |
| refinement.dfy | `Refinement` | `detect_signature_on_stamp_expanded`, `detect_signature_on_stamp` |
| fusion.dfy | `Fusion` | `detect_with_overlap_handling` |
| signature_detector.dfy | `SignatureDetector` | `AdvancedSignatureDetector` |
| qr_detector.dfy | `QrDetector` | `RobustQRCodeDetector.detect_qr_codes` |
| stamp_detector.dfy | `StampDetector` | `EnhancedStampDetector.detect_stamps` |
| inspector.dfy | `Inspector` | `DigitalInspector`: `_resolve_overlaps`, `process_document`, `save_results_json` totals |

Every loop of the source is a `method` with a `while` loop. Each such method is proved equal
to a recursive specification function. The lemmas state the properties of those functions.

Facts about the code that a reader of the pipeline might not expect:

- Step order: the signature/stamp overlap step (`innovations.py:150-158`) runs before stamp de-duplication (`:160-165`).
- Containment is strict: `interArea/innerArea > 0.5` (`innovations.py:148`, `:155`), so a box exactly half inside does not count.
- Keyword distances are 0.12 and 0.22 of the page diagonal (`innovations.py:175-178`).
- De-duplication is loose. Stamps [0,0,100,100] and [5,5,105,105] have IoU 9025/10975, about 0.82. That is not above 0.85, so both are kept (`Fusion.OffsetStampsBothKept`).
- Only the QR detector catches its own exceptions (`detection_services.py:244-246`). An exception from the signature or stamp detector propagates out of `detect_with_overlap_handling` and `process_document`.
- Two coordinate frames meet in `_resolve_overlaps`. `detect_signatures` scales a page whose longer side exceeds 1024 pixels down to 1024 (`detection_services.py:126-130`), and its boxes stay in that frame (`SignatureDetector.SignatureFrame`). The stamp and QR boxes are in the page's own frame, and `image_size` is the page's own size (`:333`). The resolver compares the two kinds of box unchanged, and so does the model.

Where the code as written fails, the model keeps two versions, listed under "## Findings". An "as written" member raises as the code does. A corrected member does what the code evidently intends. The page-level members `Fusion.DetectWithOverlapHandling`, `Fusion.Fuse`, `Inspector.ProcessDocument` and `Inspector.DetectPage` compose the corrected ones. `Fusion.FuseAsWritten` and `Inspector.ProcessDocumentAsWritten` compose the as-written ones.

## Model

| member | source | states |
|---|---|---|
| Detections.Trunc | backend/app/services/innovations.py:129 | `int()` truncates toward zero: for x >= 0 the result n satisfies n <= x < n+1; for x < 0 it satisfies n-1 < x <= n |
| Detections.TruncOfInt | backend/app/services/innovations.py:129 | `int()` of an integral value is that value |
| Detections.TruncBox | backend/app/services/detection_services.py:230 | each coordinate is truncated toward zero: a non-negative one to the integer at or below it, less than one below; a negative one to the integer at or above it, less than one above, and never above 0 |
| Detections.CountLabel | backend/app/services/detection_services.py:336-339 | the count is the number of positions of the list whose detection carries the label, and so never exceeds the list length |
| Text.Lower | backend/app/services/innovations.py:75 | `lower()` keeps the length, leaves no capital (A-Z, U+0400 to U+042F) in its result, and leaves every other character unchanged |
| Text.LowerIdempotent | backend/app/services/innovations.py:75 | lower-casing twice equals lower-casing once |
| Text.ContainsIffOccurs | backend/app/services/innovations.py:75 | substring `in` holds exactly when the needle occurs at some index of the haystack |
| Text.ContainsItself | backend/app/services/innovations.py:75 | a string occurs in any string built around it |
| Text.Join | backend/app/services/innovations.py:78 | joining no words gives ""; joining n > 0 words gives a string as long as the words together plus n - 1 separators |
| Text.JoinConcat | backend/app/services/innovations.py:78 | joining two non-empty word lists one after the other is joining each and putting one separator between |
| Ordering.SortDesc | backend/app/services/innovations.py:181 | the sort returns a permutation (same multiset), ordered by non-increasing confidence |
| Ordering.SortDescStable | backend/app/services/innovations.py:181 | the sort is stable: detections of equal confidence keep their relative order |
| Ordering.SortDescOfSorted | backend/app/services/detection_services.py:170 | an already sorted list is left unchanged |
| Ordering.RemoveAt | backend/app/services/detection_services.py:373 | deletion keeps the elements before the index and shifts the later ones down by one |
| Geometry.InterAreaZeroIffDisjoint | backend/app/services/innovations.py:32-36 | the intersection area is 0 exactly when the boxes are disjoint along x or along y |
| Geometry.FlooredIou | backend/app/services/innovations.py:31-39 | `calculate_iou` lies in [0, 1] and is 0 exactly when the intersection is empty |
| Geometry.FlooredIouAbove | backend/app/services/innovations.py:37-39 | the floored union is positive, and IoU > t exactly when inter > t * union |
| Geometry.FlooredIouSymmetric | backend/app/services/innovations.py:31-39 | `calculate_iou` is symmetric |
| Geometry.FlooredIouSelf | backend/app/services/innovations.py:31-39 | a box of positive width and height has IoU 1 with itself |
| Geometry.FlooredIouZeroIffDisjoint | backend/app/services/innovations.py:31-39 | `calculate_iou` is 0 exactly for disjoint boxes |
| Geometry.PlainIou | backend/app/services/detection_services.py:387-402 | `_calculate_iou` lies in [0, 1] for boxes with ordered corners |
| Geometry.PlainIouSymmetric | backend/app/services/detection_services.py:387-402 | `_calculate_iou` is symmetric |
| Geometry.PlainIouDegenerate | backend/app/services/detection_services.py:402 | a non-positive union gives 0 |
| Geometry.PlainIouDisjoint | backend/app/services/detection_services.py:391-402 | disjoint boxes have IoU 0 |
| Geometry.PlainIouSelf | backend/app/services/detection_services.py:387-402 | a box of positive area has IoU 1 with itself |
| Geometry.CenterDistSq | backend/app/services/innovations.py:41-46 | the squared centre distance is non-negative and is 0 exactly when the centres coincide |
| Geometry.CenterDistSqSymmetric | backend/app/services/innovations.py:41-46 | the centre distance is symmetric |
| Geometry.CloserThanMatchesRatio | backend/app/services/innovations.py:173-175 | for the true distance and diagonal, `dist/diag < t` is the same as dist² < t²·(W²+H²) |
| Geometry.NeverCloseOnEmptyImage | backend/app/services/innovations.py:173-178 | on a 0×0 page no pair is ever near |
| Geometry.ExpandBox | backend/app/services/innovations.py:48-55 | the expanded box is clipped to [0, W] × [0, H] |
| Geometry.ExpandBoxContains | backend/app/services/innovations.py:48-55 | for a box inside the page and a non-negative ratio, the expanded box contains the original |
| Geometry.IsContained | backend/app/services/innovations.py:143-148 | true exactly when the inner area is positive and inter > thresh * inner area (strict) |
| Geometry.InsideInter | backend/app/services/innovations.py:144-147 | a box inside another intersects it in its whole area |
| Geometry.InsideIsContained | backend/app/services/innovations.py:143-148 | a box of positive area inside another is contained for any threshold below 1 |
| Keywords.SearchKeywords | backend/app/services/innovations.py:63-78 | without OCR: no hits and "". Otherwise: the hits of the non-blank words, with the default keywords when none are given, and the non-blank words joined by spaces |
| Keywords.SearchWord | backend/app/services/innovations.py:74-77 | one non-blank word yields exactly the hits `WordHits` lists: one per keyword it contains, in keyword order, with the word's box |
| Keywords.WordHitsArePerMatchingKeyword | backend/app/services/innovations.py:74-77 | a word yields exactly one hit per keyword it contains, in keyword order, each with bbox [x, y, x+w, y+h] |
| Keywords.MatchingKeywordsExact | backend/app/services/innovations.py:74-75 | the matched keywords are an in-order subsequence of the keywords, holding exactly those the word contains case-insensitively |
| Keywords.HitsSound | backend/app/services/innovations.py:71-77 | every hit names a listed keyword contained in its word, and carries the box of a non-blank OCR word with that text |
| Keywords.HitsComplete | backend/app/services/innovations.py:71-77 | every non-blank word containing a keyword yields that hit |
| Keywords.BlankWordAddsNothing | backend/app/services/innovations.py:72 | a blank word adds no hits |
| Refinement.ShiftInPlace | backend/app/services/innovations.py:102-104 | the loop rewrites each box as the box shifted by the crop's top-left |
| Refinement.HalveInPlace | backend/app/services/innovations.py:97-99 | the loop rewrites each box as int(b/2 + offset) per coordinate |
| Refinement.DetectSignatureOnStamp | backend/app/services/innovations.py:108-116 | the fallback returns the crop detections shifted by the stamp's top-left |
| Refinement.DetectSignatureOnStampExpanded | backend/app/services/innovations.py:81-106 | without RT-DETR: the fallback. Otherwise: the native signatures, then the halved upscaled signatures, then the stamps, all mapped into page coordinates of the crop expanded by 0.5 |
| Refinement.ExpandedLayout | backend/app/services/innovations.py:86-106 | the result has length sigs + sigs_up + stamps; native boxes are shifted and upscaled boxes are halved and shifted, at the stated positions |
| Refinement.FallbackLayout | backend/app/services/innovations.py:108-116 | the fallback keeps label, confidence and source and shifts each box by the stamp's top-left |
| Refinement.HalfTrunc | backend/app/services/innovations.py:99 | for non-negative integers, int(v/2 + d) is v div 2 + d |
| Refinement.HalveShiftInsideCrop | backend/app/services/innovations.py:97-99 | a box inside the 2× upscaled crop maps into the crop |
| Refinement.ShiftedInsideCrop | backend/app/services/innovations.py:102-104 | native-crop boxes inside the crop map into the crop's page rectangle |
| Refinement.HalvedInsideCrop | backend/app/services/innovations.py:97-99 | upscaled boxes inside the upscaled crop map into the crop's page rectangle |
| Refinement.ExpandedInsideCrop | backend/app/services/innovations.py:86-106 | if RT-DETR boxes lie inside their images, every refined box lies inside the expanded crop |
| Fusion.RefineStampsAsWrittenFails | backend/app/services/innovations.py:137 | as written, with no RT-DETR and at least one stamp, the call to the missing `recheck_partial_stamp` raises AttributeError; the corrected step returns a non-empty list |
| Fusion.RefineStampsLength | backend/app/services/innovations.py:135-139 | refinement never shortens the stamp list |
| Fusion.RefineStampsNothingFound | backend/app/services/innovations.py:134-138 | when the expanded recheck finds nothing for any stamp, the refined list is the stamp list itself, unchanged and in order |
| Fusion.RefineStampsWithoutRtDetr | backend/app/services/innovations.py:134-138 | with line 137 corrected and no RT-DETR, each stamp in turn is replaced by what `detect_signature_on_stamp` finds on it, or kept when that is nothing |
| Fusion.RefineAll | backend/app/services/innovations.py:135-139 | the loop replaces each stamp by its refinement results, or keeps it when there are none |
| Fusion.SigConfClosedForm | backend/app/services/innovations.py:151-156 | a signature's confidence becomes min(0.999, c + 0.2k), where k counts the stamps it touches (IoU > 0.1) and is more than 50% inside; it is unchanged when k = 0 |
| Fusion.StampConfClosedForm | backend/app/services/innovations.py:152-157 | a stamp's confidence is multiplied by 0.85 once per touching signature, whether or not it is contained |
| Fusion.StampConfBounds | backend/app/services/innovations.py:157 | attenuation keeps a non-negative confidence within [0, c] |
| Fusion.AddCappedBounds | backend/app/services/innovations.py:156 | a capped boost of a confidence in [0, 1] stays in [0, 1] and never lowers it below min(c, 0.999) |
| Fusion.SigConfBounds | backend/app/services/innovations.py:151-156 | boosting keeps a confidence in [0, 1] |
| Fusion.OverlapStepStamps | backend/app/services/innovations.py:150-158 | the output is the stamps, then the signatures; each stamp keeps its label and box and gets c * 0.85^(touching signatures) |
| Fusion.OverlapStepSignatures | backend/app/services/innovations.py:150-158 | each signature, after the stamps, keeps its label and box and gets its closed-form boost |
| Fusion.OverlapStepInUnit | backend/app/services/innovations.py:150-158 | confidences in [0, 1] stay in [0, 1] |
| Fusion.ApplyOverlap | backend/app/services/innovations.py:150-158 | the nested loop computes the overlap step, with the shared stamp records attenuated in place |
| Fusion.VisitStamps | backend/app/services/innovations.py:152-157 | one signature's pass over the stamps: every stamp record ends attenuated for one more signature, and the signature's confidence is boosted once per enclosing stamp |
| Fusion.DedupeSubseq | backend/app/services/innovations.py:161-165 | de-duplication only deletes, keeping order |
| Fusion.DedupeKeepsNonStamps | backend/app/services/innovations.py:163 | signatures and QR codes are never removed |
| Fusion.AppendKeepsApart | backend/app/services/innovations.py:163-165 | appending a detection that is not a duplicate stamp keeps the kept stamps pairwise at IoU <= 0.85 |
| Fusion.DedupeStampsApart | backend/app/services/innovations.py:160-165 | kept stamps are pairwise at IoU <= 0.85 |
| Fusion.DedupeCovers | backend/app/services/innovations.py:163-164 | every removed stamp has IoU > 0.85 with a kept stamp |
| Fusion.DedupeStamps | backend/app/services/innovations.py:160-165 | the loop with its inner `any` computes the de-duplication |
| Fusion.AnyNearStamp | backend/app/services/innovations.py:163 | the `any` is true exactly when a stamp already kept has floored IoU above 0.85 with the incoming one |
| Fusion.KwConfBounds | backend/app/services/innovations.py:170-178 | compounded keyword boosts keep a confidence in [0, 1] and never lower it below min(c, 0.999) |
| Fusion.KwConfFar | backend/app/services/innovations.py:175-178 | keywords at 22% of the diagonal or farther leave the confidence unchanged |
| Fusion.CloserWithin | backend/app/services/innovations.py:175-177 | within 12% implies within 22% |
| Fusion.BoostByKeywords | backend/app/services/innovations.py:169-179 | the nested loop adds +0.2 or +0.08 per nearby keyword, capped at 0.999, compounding across keywords |
| Fusion.DetectWithOverlapHandling | backend/app/services/innovations.py:119-181 | the pipeline with line 137 corrected returns `Fuse`: the sorted, keyword-boosted fused list, a permutation of it in non-increasing confidence |
| Fusion.FuseAsWrittenAgrees | backend/app/services/innovations.py:119-181 | the pipeline as written succeeds exactly when RT-DETR is configured or there is no stamp, and then returns the corrected result; otherwise it raises AttributeError |
| Fusion.QrCodesUntouched | backend/app/services/innovations.py:166 | the QR codes come last, in order, normalised and otherwise untouched |
| Fusion.FuseInUnit | backend/app/services/innovations.py:119-181 | input confidences in [0, 1] give output confidences in [0, 1] |
| Fusion.RefineStampsInUnit | backend/app/services/innovations.py:135-139 | refinement keeps confidences in [0, 1] when the refiners do |
| Fusion.InsideStampGeometry | backend/app/services/innovations.py:143-155 | a signature [120,150,180,190] inside a stamp [100,100,200,200] touches it and is more than 50% contained |
| Fusion.InsideStampOverlap | backend/app/services/innovations.py:150-158 | that pair becomes stamp 0.6 → 0.51 and signature 0.5 → 0.7 |
| Fusion.SignatureInsideStamp | backend/app/services/innovations.py:119-181 | with refinement finding nothing, the whole pipeline returns [signature 0.7, stamp 0.51] |
| Fusion.DedupePair | backend/app/services/innovations.py:160-165 | a pair that is not two stamps with IoU > 0.85 is kept whole |
| Fusion.OffsetStampsGeometry | backend/app/services/innovations.py:31-39 | stamps [0,0,100,100] and [5,5,105,105] have IoU <= 0.85 |
| Fusion.OffsetStampsBothKept | backend/app/services/innovations.py:160-165 | so de-duplication keeps both |
| SignatureDetector.FindSignatureTextRegions | backend/app/services/detection_services.py:54-81 | the loop collects one region per OCR line that contains a keyword with confidence > 0.3 |
| SignatureDetector.SignatureFrame | backend/app/services/detection_services.py:126-130 | the signature detector's frame is no larger than the page; it is the page itself when neither side exceeds 1024, and otherwise has no side above 1024 |
| SignatureDetector.CueRegionsExact | backend/app/services/detection_services.py:57-78 | every region comes from a cue line, as [max(0,x1-20), max(0,y2-10), min(W,x2+20), min(H,y2+3h)], and every cue line gives one |
| SignatureDetector.CueRegionInImage | backend/app/services/detection_services.py:66-72 | for a text box inside the page, the region lies inside the page and starts no lower than the text's bottom |
| SignatureDetector.InRegionAsWrittenFindsNothing | backend/app/services/detection_services.py:88-93 | as written, any non-empty crop raises NameError for `ImageEnhance`, so the region search never finds anything |
| SignatureDetector.RegionHitsSound | backend/app/services/detection_services.py:98-115 | every region hit is a text-guided signature with score > 0.25 and its box translated by the region's top-left |
| SignatureDetector.RegionHitInsideRegion | backend/app/services/detection_services.py:102-107 | a model box inside the crop maps into the region |
| SignatureDetector.DetectInRegion | backend/app/services/detection_services.py:83-117 | a reversed rectangle raises, an empty crop gives [], and otherwise the loop collects the region hits |
| SignatureDetector.RemoveOverlappingAsWrittenRaises | backend/app/services/detection_services.py:185-191 | as written, two detections make the IoU raise NameError (`x1_1`), where the intended suppression keeps the more confident one |
| SignatureDetector.GreedySubseq | backend/app/services/detection_services.py:171-183 | suppression only deletes |
| SignatureDetector.GreedyKeepsFirst | backend/app/services/detection_services.py:173-181 | the first detection is always kept |
| SignatureDetector.AppendApart | backend/app/services/detection_services.py:175-181 | keeping an unsuppressed detection keeps the kept ones pairwise at IoU <= 0.5 |
| SignatureDetector.GreedyApart | backend/app/services/detection_services.py:171-183 | kept detections are pairwise at IoU <= 0.5 |
| SignatureDetector.GreedyCovers | backend/app/services/detection_services.py:171-183 | every dropped detection has IoU > 0.5 with a kept one of at least its confidence |
| SignatureDetector.RemoveOverlappingSpec | backend/app/services/detection_services.py:164-183 | empty gives []; the result is a subsequence of the sorted input that starts with its first element; kept detections are pairwise at IoU <= 0.5; every dropped one is covered by a kept one of at least its confidence |
| SignatureDetector.RemoveOverlappingDetections | backend/app/services/detection_services.py:164-183 | the sort-then-greedy loop computes the suppression |
| SignatureDetector.NotSuppressed | backend/app/services/detection_services.py:174-180 | a detection is kept exactly when no detection already kept overlaps it with IoU above 0.5 |
| SignatureDetector.TextGuidedAsWrittenEmpty | backend/app/services/detection_services.py:138-140 | as written, the text-guided pass never finds anything |
| SignatureDetector.SignaturesAsWrittenFindNothing | backend/app/services/detection_services.py:119-162 | as written, `detect_signatures` either raises or returns [] |
| SignatureDetector.SignaturesAsWrittenMissesPageHit | backend/app/services/detection_services.py:143-156 | a whole-page hit with score > 0.3 makes the as-written code raise NameError (`detections`), where the intended code reports it as a general signature |
| SignatureDetector.SignaturesFallbackRule | backend/app/services/detection_services.py:136-159 | the whole-page pass runs only when the text-guided pass found nothing, and either result is passed through suppression |
| SignatureDetector.DetectSignatures | backend/app/services/detection_services.py:119-162 | the loop over regions and the fallback compute `Signatures` |
| SignatureDetector.DetectInRegions | backend/app/services/detection_services.py:138-140 | the region loop returns the concatenated region detections, or the error of the first crop that raises |
| SignatureDetector.DetectOnPage | backend/app/services/detection_services.py:147-156 | the whole-page loop keeps exactly the results scoring above 0.3, in order, as general signatures |
| SignatureDetector.GuidedPassPropagates | backend/app/services/detection_services.py:138-140 | an exception from one region propagates out of the pass |
| QrDetector.DetectQrCodes | backend/app/services/detection_services.py:210-247 | the loop computes the QR results; a failed detector or unreadable record gives [] |
| QrDetector.CollectSound | backend/app/services/detection_services.py:224-240 | every result is a QR code with confidence > 0.1 and the truncated box of a record |
| QrDetector.CollectAppend | backend/app/services/detection_services.py:224-240 | records are processed in order: results of a concatenation concatenate |
| QrDetector.SkipUnrecognised | backend/app/services/detection_services.py:231-232 | a record of neither shape is skipped without effect |
| QrDetector.MalformedEmpties | backend/app/services/detection_services.py:244-246 | a record whose fields raise empties the whole result |
| QrDetector.CollectComplete | backend/app/services/detection_services.py:234-240 | every readable record above 0.1 is reported with its truncated box |
| StampDetector.DetectStamps | backend/app/services/detection_services.py:266-301 | the nested loop keeps boxes with conf > 0.3, truncated area in [500, 50000] and aspect ratio in [0.5, 2.0], in order |
| StampDetector.AspectCrossMultiplied | backend/app/services/detection_services.py:288-292 | for positive height, 0.5 <= w/h <= 2 is h <= 2w and w <= 2h |
| StampDetector.FromBoxesSound | backend/app/services/detection_services.py:276-298 | every stamp has conf > 0.3, area in [500, 50000], height > 0, h <= 2w, w <= 2h, and the truncated box of a model box |
| StampDetector.StampsSound | backend/app/services/detection_services.py:274-298 | the same holds across all results |
| StampDetector.FromBoxesAppend | backend/app/services/detection_services.py:275-298 | input order is preserved |
| StampDetector.FromBoxesComplete | backend/app/services/detection_services.py:276-298 | every box that passes the filters is reported |
| Inspector.IndexOf | backend/app/services/detection_services.py:373 | the position of the first equal element |
| Inspector.RemoveFirst | backend/app/services/detection_services.py:373 | `list.remove(x)` deletes exactly the first element equal to x: the elements before it stay in place, the later ones move down by one, and the multiset loses one x |
| Inspector.Rule | backend/app/services/detection_services.py:364-380 | same labels drop the incoming detection; only an incoming QR code, or a stamp above 1.2 times a signature, evicts |
| Inspector.ResolveOverlapsLoopAsWritten | backend/app/services/detection_services.py:349-385 | the source's loop, with the iterator advancing past a removal, computes `ResolveOverlapsAsWritten` |
| Inspector.ResolveOverlapsLoop | backend/app/services/detection_services.py:349-385 | the loop that re-examines the position after a removal computes `ResolveOverlaps` |
| Inspector.ScanSubseq | backend/app/services/detection_services.py:358-380 | the inner scan only deletes kept detections |
| Inspector.ScanAsWrittenSubseq | backend/app/services/detection_services.py:358-380 | likewise for the as-written scan |
| Inspector.ResolveSubseq | backend/app/services/detection_services.py:355-385 | the output is a subsequence of the sorted input |
| Inspector.ResolveAsWrittenSubseq | backend/app/services/detection_services.py:355-385 | likewise as written |
| Inspector.ResolveOverlapsSubseq | backend/app/services/detection_services.py:349-385 | both resolvers return a subsequence of the confidence-sorted input, drawn from the three lists |
| Inspector.RemoveAtKeepsApart | backend/app/services/detection_services.py:373 | deleting a kept detection keeps same-label detections apart |
| Inspector.ScanClears | backend/app/services/detection_services.py:358-380 | a scan that reports no overlap leaves no kept detection that the incoming one must yield to |
| Inspector.ResolveApart | backend/app/services/detection_services.py:355-385 | in the corrected resolver, no two kept detections of one label have IoU > 0.3 |
| Inspector.ResolveOverlapsApart | backend/app/services/detection_services.py:349-385 | the same for the corrected `_resolve_overlaps`; the code as written can keep two overlapping QR codes (`ResolveAsWrittenKeepsOverlappingQrCodes`) |
| Inspector.ScanOverlapIff | backend/app/services/detection_services.py:360-380 | the incoming detection is dropped exactly when a kept detection it overlaps demands it |
| Inspector.ScanNoEviction | backend/app/services/detection_services.py:370-380 | where no eviction applies, the kept list is unchanged |
| Inspector.SignatureStep | backend/app/services/detection_services.py:362-380 | a signature never evicts, is never dropped for a box of another label, and is dropped exactly when it overlaps a kept signature |
| Inspector.StampStep | backend/app/services/detection_services.py:375-380 | in sorted order with non-negative confidences the 1.2× branch never fires: a stamp evicts nothing and is dropped exactly when it overlaps a kept stamp or signature |
| Inspector.QrCodeStep | backend/app/services/detection_services.py:365-373 | a QR code is dropped exactly when it overlaps a kept QR code; otherwise it is appended after the surviving kept detections |
| Inspector.ResolveAsWrittenKeepsOverlappingQrCodes | backend/app/services/detection_services.py:359-373 | as written, signature [0,0,10,10] 0.9, QR [10,0,20,10] 0.8 and QR [5,0,15,10] 0.7 leave both QR codes, which overlap with IoU 1/3 |
| Inspector.ResolveDropsOverlappingQrCode | backend/app/services/detection_services.py:359-373 | the intended resolver keeps one QR code from that input |
| Inspector.CountsCoverAll | backend/app/services/detection_services.py:336-339 | the three label counts sum to the number of detections |
| Inspector.DetectPage | backend/app/services/detection_services.py:315-347 | the page loop computes the corrected `ProcessDocument`: signatures found in the scaled frame, resolved detections and their counts; the counts sum to the list length and no same-label pair overlaps |
| Inspector.ProcessDocumentAsWrittenFindsNoSignature | backend/app/services/detection_services.py:315-347 | as written, a page that does not raise has no signature: its detections are the as-written resolution of the stamps and QR codes alone, and its signature count is 0 |
| Inspector.TotalElementsCountsDetections | backend/app/services/detection_services.py:459-466 | for pages built by `process_document`, `total_elements` is the number of detections in the document |

## Left out

- Model inference and OCR are not modelled; their outputs are inputs. This covers YOLO, the transformers pipeline, the QR detector, easyocr, pytesseract and RT-DETR.
- Image processing is not modelled: CLAHE, contrast enhancement, colour conversion and PIL cropping.
- The pixels of the page resized to at most 1024 pixels (`detection_services.py:126-130`) are not modelled; only its size, `SignatureFrame`, is. The float rounding of `1024 / max(size)` is not modelled either.
- The pixel crop of `crop_with_margin` is not modelled; only its box, `ExpandBox`, is.
- The crops in the refinement step are not modelled either. They are the keys the oracle functions receive.
- Floating-point rounding is not modelled. `hypot` and the distance ratio are compared exactly, through squared distances.
- The `area` and `aspect_ratio` fields of the adapters' dicts are not modelled, since no modelled code reads them.
- Timing, printing, `draw_detections`, the JSON file writing with its 3-place rounding, the summed `processing_time`, and the module singleton are not modelled.
- The shared-record aliasing in `detect_with_overlap_handling` is not modelled by reference. The records are values. The attenuated stamp records are written back into the list that becomes `final_dets`, which is observably the same because no record is reachable twice.
- The in-place sort of the caller's list by `_remove_overlapping_detections` and `_resolve_overlaps` is not modelled. The model returns the sorted list.
- Fusion.DetectWithOverlapHandling: it uses the corrected line 137 (`RefineStamps`), so with no RT-DETR and a stamp it returns a list where the code raises AttributeError; `FuseAsWritten` is the code as written. The signature and stamp detectors' own exceptions are not modelled, because the pipeline receives their lists.
- Inspector.DetectPage: it uses the corrected `SignatureDetector.Signatures` and `ResolveOverlaps`. As written, the page raises NameError on any cue region or whole-page hit, and can keep overlapping QR codes; `ProcessDocumentAsWritten` is the code as written.
- Inspector.ResolveApart: it is about the corrected resolver `Resolve`; the as-written one does not keep same-label detections apart.
- Inspector.ResolveOverlapsApart: it is about the corrected `ResolveOverlaps`; `ResolveOverlapsAsWritten` can keep two overlapping QR codes.
- Inspector.QrCodeStep: it does not state which kept signatures and stamps an incoming QR code evicts, only that the survivors are a subsequence of the kept list.
- Text.Lower: case folding covers ASCII A-Z and the Cyrillic capitals А-Я and Ѐ-Џ (Ё among them), not all of Unicode.
- The RT-DETR wrapper's own label strings are not modelled; refined detections carry the model's `Label`.

## Findings

| source | as written | input that shows it | evidently intended | confidence | as-written member | corrected member |
|---|---|---|---|---|---|---|
| backend/app/services/detection_services.py:187 | unpacks the first box into `x11` and then reads the unbound `x1_1`, raising NameError | two detections reaching `_remove_overlapping_detections`; this is masked while the :92 and :150 defects stand, since they raise first or leave no detection, and becomes reachable once they are fixed | the IoU formula of :387-402 | not executed | SignatureDetector.RemoveOverlappingAsWrittenRaises | SignatureDetector.RemoveOverlappingSpec |
| backend/app/services/detection_services.py:92 | `ImageEnhance` is never imported, so any non-empty region raises NameError | one OCR line containing "подпись" with confidence > 0.3 on a page of positive size | contrast enhancement, then the region hits | not executed | SignatureDetector.InRegionAsWrittenFindsNothing | SignatureDetector.RegionHitsSound |
| backend/app/services/detection_services.py:150 | appends to the undefined `detections`, raising NameError at the first whole-page hit | no cue lines, and a whole-page model result with score 0.9 | append to `all_detections` | not executed | SignatureDetector.SignaturesAsWrittenMissesPageHit | SignatureDetector.SignaturesFallbackRule |
| backend/app/services/innovations.py:137 | calls the missing `recheck_partial_stamp` when RT-DETR is absent, raising AttributeError | one stamp and no RT-DETR detector | the fallback `detect_signature_on_stamp` | not executed | Fusion.RefineStampsAsWrittenFails | Fusion.RefineStampsWithoutRtDetr |
| backend/app/services/detection_services.py:359-373 | removes from `final_detections` while iterating over it, so the kept detection after an evicted one is never compared | signature [0,0,10,10] 0.9, QR [10,0,20,10] 0.8, QR [5,0,15,10] 0.7 | compare the incoming detection with every kept one | not executed | Inspector.ResolveAsWrittenKeepsOverlappingQrCodes | Inspector.ResolveOverlapsApart |
