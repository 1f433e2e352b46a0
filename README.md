# Label field extractor, modelled in Dafny

This project models the OCR field classifier `extract_fields` of
`ocr/field_extractor.py`, together with its helpers `center_of` and `dist` and
the `DATE_PAT` regular expression. The classifier takes the parallel lists an
OCR engine produces: recognised texts, bounding boxes and confidence scores. It
derives three label fields, `batch_no`, `mfg_date` and `exp_date`, in a fixed
sequence of passes:

1. drop items scored below the threshold, keeping the stripped text, its lower-case copy and the box centre of the rest;
2. read EXP and MFG dates off blocks that carry those labels;
3. find the batch-number label, and read the number off it or take the nearest suitable neighbouring block;
4. turn empty values back into "missing";
5. fall back on the last three raw texts when nothing was found;
6. write `N/A` into every field still missing.

The model works on already-parsed input: `texts: seq<string>`, `boxes: seq<Box>`,
`scores: seq<real>` and a threshold `real` that defaults to `0.0`, as `score_thresh` does. The four modules are:

- `Text` — `Option`, the ASCII character classes shared by `str.strip`, `str.lower`
  and `\s`/`\w`/`\d`, and `Strip`, `Lower`, `Contains`.
- `Geometry` — `Box`, `Point`, `CenterOf` and `DistSq`, the squared distance.
- `Patterns` — each fixed regular expression of the file as a hand-written
  matcher: the EXP and MFG label grammars, the word-bounded batch label, the
  anchored `b.no` prefix and `DATE_PAT`.
  - Where a capture group is read, the matcher follows Python's backtracking
    order. A greedy `?`/`*` first takes all it can and then gives back one
    character at a time, and `.` stops at a newline.
  - Lemmas then state in closed form where the group starts on a stripped
    text, and that `DATE_PAT.search` matches exactly when a short digit or
    month pattern occurs.
- `FieldExtractor` — one specification function per pass, the lemmas that say
  what each pass yields, and the imperative methods.
  - The methods run the passes as the source does: a loop that builds
    `blocks`, a three-slot record `result` updated in place across the loops,
    the label search, the candidate comprehension and the `min` scan.
  - Each method is proved to compute its specification function.
    `ExtractFields` composes them.

All inputs are immutable values and no method has a `modifies` clause. So the
extractor cannot change its inputs, and equal inputs give equal results.

### Behaviour as coded

The model follows what the code does, including these points:

- Only `mfg` and `manufacture` are MFG keywords; `mfd` is not (lines 56, 57, 77).
- The anchored strip at line 68 recognises `b.no`/`bno` only, never `batch`, so
  `Batch: X` goes to the spatial search.
- In the EXP/MFG pass a later qualifying block overwrites an earlier one: the
  last one wins (lines 54, 58).
- Lists of different lengths are truncated to the shortest by `zip` (line 35).
  No error is raised.
- The fallback checks and copies the raw `texts` list: unfiltered and unstripped
  (lines 91-93). So texts dropped by the threshold can come back as the result
  (`FieldExtractor.FallbackIgnoresThreshold`).
  - When every slot is unresolved and there are fewer than three raw texts, all
    fields are `N/A`.
  - An empty raw text copied by the fallback also becomes `N/A`.
- The candidate filter excludes `exp` and `mfg` text, but not `manufacture`
  text (lines 76-77).
- Ties in the nearest-neighbour search go to the first candidate in block
  order, because `min` keeps its first pick (line 81).
- A nearest candidate with an empty text gives `""`. Normalisation turns that
  into "missing", so the fallback can still fire.
- A label followed only by a separator yields the separator itself: group 1
  must take at least one character, so `EXP:` gives `:`
  (`Patterns.LabelTailOnStripped`: the group starts at the last character when
  the optional parts use up the text).

## Model

| member | source | states |
|---|---|---|
| Text.LowerChar | ocr/field_extractor.py:41 | an ASCII capital becomes its own lower-case letter (32 code points on), and every other character is left as it is |
| Text.Lower | ocr/field_extractor.py:41 | `str.lower()` keeps the length and lower-cases every ASCII capital, leaving every other character as it is |
| Text.Strip | ocr/field_extractor.py:38 | `str.strip()` returns a string with no whitespace at either end |
| Text.StripSpec | ocr/field_extractor.py:38 | the stripped string is a contiguous piece of the input with only whitespace before and after it, and is empty exactly when the input is blank |
| Text.StripOfStripped | ocr/field_extractor.py:54 | stripping an already stripped block text changes nothing, so a label that does not match yields the block text itself |
| Geometry.CenterOf | ocr/field_extractor.py:12-14 | `center_of` is the midpoint: equally far from each edge and the opposite edge, on both axes |
| Geometry.DistSq | ocr/field_extractor.py:16-17 | the squared `dist` is never negative and is zero between equal points |
| Geometry.DistSqOrdersAsDist | ocr/field_extractor.py:16-17 | for the non-negative `hypot` values whose squares are the squared distances, one distance is smaller than another exactly when its square is, and equal exactly when the squares are, so `min(key=dist)` and a minimum over squared distances pick the same candidate |
| Patterns.SpaceRun | ocr/field_extractor.py:53 | what greedy `\s*` first takes at a position: a maximal whitespace run |
| Patterns.LineEnd | ocr/field_extractor.py:53 | where greedy `.+` stops: the first newline at or after the start, or the end |
| Patterns.LabelTailOnStripped | ocr/field_extractor.py:53 | on a stripped text the tail `\.?\s*[:\-]?\s*(.+)` matches at `p` exactly when a character is left there. Group 1 then starts where the greedy optional parts stop, or at the last character when they use up the text, and never on whitespace |
| Patterns.KeywordTailAtOnStripped | ocr/field_extractor.py:57 | the keyword alternation (`mfg` or `manufacture`) plus tail matches at `i` exactly when some keyword occurs there with a character after it, and group 1 then starts after the first such keyword in alternation order |
| Patterns.SearchKeywordTailOnStripped | ocr/field_extractor.py:53 | `re.search` finds no match exactly when no keyword with a following character occurs anywhere. Otherwise group 1 follows the FIRST such keyword occurrence, and at that position the first matching keyword in alternation order |
| Patterns.LabelledValueSpec | ocr/field_extractor.py:52-58 | `(m.group(1) if m else txt).strip()` is the whole text when no label has a value, and otherwise the stripped rest of the line after the first label (leftmost position, then first keyword in alternation order) |
| Patterns.LabelledValueNonEmpty | ocr/field_extractor.py:54 | the value read off a non-empty stripped text is never empty |
| Patterns.BnoPrefixEnd | ocr/field_extractor.py:68 | the anchored `b\.?no` prefix is 4 characters exactly when the text starts with `b.no` and 3 exactly when it starts with `bno`, in any case |
| Patterns.AnchoredBatchNoOnStripped | ocr/field_extractor.py:68-70 | `re.match` of the batch pattern succeeds exactly when the text starts with `b.no`/`bno` and has a character after it. The value is then the stripped rest of the line after the greedy optional parts, and is never empty |
| Patterns.LooksLikeDateIffPattern | ocr/field_extractor.py:20-24 | `DATE_PAT.search` succeeds exactly when the text holds a digit, one of `./-` and two digits, or a month abbreviation, an optional dot, any whitespace and four digits |
| Patterns.DigitSepDigitsIsNumericDate | ocr/field_extractor.py:21 | a digit, separator and two digits are a match of the numeric alternative |
| Patterns.NumericDateHasDigitSepDigits | ocr/field_extractor.py:21 | every match of the numeric alternative contains a digit, separator and two digits |
| Patterns.MonthYearIsMonthDate | ocr/field_extractor.py:22 | a month, optional dot, whitespace and four digits are a match of the month alternative |
| Patterns.MonthDateIsMonthYear | ocr/field_extractor.py:22 | every match of the month alternative is found by the month scan at its start |
| FieldExtractor.ZipLength | ocr/field_extractor.py:35 | `zip` yields as many triples as the shortest of the three lists |
| FieldExtractor.KeptIndices | ocr/field_extractor.py:35-37 | an item is kept exactly when its score is not below the threshold, and the kept items keep their input order |
| FieldExtractor.KeptItemsBecomeBlocks | ocr/field_extractor.py:35-44 | every zipped item whose score reaches the threshold (equality included) becomes a block of its stripped text, lower-case copy, box and centre |
| FieldExtractor.BlocksComeFromKeptItems | ocr/field_extractor.py:35-44 | every block comes from a zipped item whose score reaches the threshold |
| FieldExtractor.FilteredBlocksWellFormed | ocr/field_extractor.py:38-41 | every block's text is stripped and its `low` is that text lower-cased |
| FieldExtractor.FilterBlocks | ocr/field_extractor.py:34-44 | the filter loop builds exactly the specified block list, and its blocks are well formed |
| FieldExtractor.LastExpBlock | ocr/field_extractor.py:52-55 | the last block mentioning `exp`: none exactly when no block does, and no later block does |
| FieldExtractor.LastMfgBlock | ocr/field_extractor.py:56-59 | the last block mentioning `mfg`/`manufacture` but not `exp`: none exactly when there is no such block, and no later block qualifies |
| FieldExtractor.InlineDatesNoBatch | ocr/field_extractor.py:50-59 | the EXP/MFG pass never writes `batch_no` |
| FieldExtractor.InlineExpLastWins | ocr/field_extractor.py:50-55 | after the pass `exp_date` is the value read off the LAST block mentioning `exp`, or None |
| FieldExtractor.InlineMfgLastWins | ocr/field_extractor.py:50-59 | after the pass `mfg_date` is the value read off the LAST block mentioning `mfg`/`manufacture` and not `exp`, or None: an `exp` block never feeds `mfg_date` |
| FieldExtractor.InlineDatesNonEmpty | ocr/field_extractor.py:54 | a date read in the EXP/MFG pass is never the empty string |
| FieldExtractor.ReadInlineDates | ocr/field_extractor.py:50-59 | the EXP/MFG loop computes exactly the specified slots |
| FieldExtractor.BatchLabelFrom | ocr/field_extractor.py:62-65 | the label is the FIRST block whose lower-case text holds a word-bounded `bno`, `b.no` or `batch`, and there is none exactly when no block does |
| FieldExtractor.FindBatchLabel | ocr/field_extractor.py:62-65 | the search loop finds exactly that first label block |
| FieldExtractor.Candidates | ocr/field_extractor.py:73-79 | the candidates are, in block order, exactly the blocks other than the label with neither `exp` nor `mfg` in their lower-case text and no `DATE_PAT` match |
| FieldExtractor.CollectCandidates | ocr/field_extractor.py:73-79 | the comprehension loop collects exactly those candidates |
| FieldExtractor.NearestUpTo | ocr/field_extractor.py:81 | `min` over a prefix picks an entry no farther than any other, and strictly nearer than every entry before it |
| FieldExtractor.NearestIndex | ocr/field_extractor.py:81 | the `min` scan computes exactly that pick |
| FieldExtractor.NearestCandidateNone | ocr/field_extractor.py:80 | there is no pick exactly when no block is a candidate |
| FieldExtractor.NearestCandidateIsNearest | ocr/field_extractor.py:80-82 | the pick is a candidate and no candidate is nearer to the label's centre |
| FieldExtractor.NearestCandidateIsFirst | ocr/field_extractor.py:81 | of equally near candidates the first in block order is picked |
| FieldExtractor.BatchValueSpec | ocr/field_extractor.py:66-82 | no label writes nothing. A label starting with `b.no`/`bno` plus a character gives a non-empty value read off the label. Any other label gives the nearest candidate's text, or nothing without candidates |
| FieldExtractor.ReadBatch | ocr/field_extractor.py:62-82 | the batch pass computes exactly the specified value |
| FieldExtractor.Normalize | ocr/field_extractor.py:85-87 | a non-empty value is kept, and a missing or empty value becomes missing, so a normalised slot is never the empty string |
| FieldExtractor.NormalizeMissing | ocr/field_extractor.py:85-87 | the normalisation loop over the three keys computes exactly the specified slots |
| FieldExtractor.ApplyFallback | ocr/field_extractor.py:90-93 | the fallback step computes exactly the specified slots |
| FieldExtractor.OrNotAvailable | ocr/field_extractor.py:96-98 | a field is its value when that is non-empty and `N/A` otherwise, so never empty |
| FieldExtractor.FillNotAvailable | ocr/field_extractor.py:96-98 | the sentinel loop computes exactly the specified fields |
| FieldExtractor.ResolvedExp | ocr/field_extractor.py:50-87 | after normalisation `exp_date` is still the value off the last `exp` block, or None |
| FieldExtractor.ResolvedMfg | ocr/field_extractor.py:50-87 | after normalisation `mfg_date` is still the value off the last MFG block, or None |
| FieldExtractor.ResolvedBatch | ocr/field_extractor.py:62-87 | after normalisation `batch_no` is the batch pass's value unless that was empty |
| FieldExtractor.ClassifySpec | ocr/field_extractor.py:85-98 | if any slot was resolved, each field is its resolved value or `N/A`. If none was and there are at least three raw texts, the fields are the last three raw texts in order (an empty one as `N/A`). Otherwise all three are `N/A` |
| FieldExtractor.FallbackIgnoresThreshold | ocr/field_extractor.py:90-93 | three items all scored below the threshold still come back as batch, MFG and EXP through the fallback |
| FieldExtractor.Classify | ocr/field_extractor.py:96-98 | every returned field is a non-empty string |
| FieldExtractor.ExtractFields | ocr/field_extractor.py:26-100 | running the passes in order returns exactly the specified fields, each a non-empty string |

## Left out

- `load_ocr` and the `.get` lookups (lines 8-10, 27-31) are file I/O.
  - The model starts from the three parsed lists; a missing key is an empty list.
  - JSON values of other types are not modelled: non-string texts, boxes that are not four numbers (which `center_of` rejects by raising).
- `math.hypot` works in floating point. The model compares exact squared distances, which order the candidates the same way up to rounding.
- `Geometry.DistSq`: its contract does not fix the value (a constant zero would meet it) and does not state that the distance is zero only between equal points. The value is the sum of the squared coordinate differences by definition; what is proved about it is that it orders points as `dist` does (`Geometry.DistSqOrdersAsDist`).
- Unicode is not modelled. `str.lower`, `\s`, `\w`, `\d` and `str.strip` are modelled on ASCII only: other characters count as caseless, not word characters, not digits and not whitespace.
- The `dateutil` import (line 6) is unused by the code.
- The method returns a record of three strings in place of a dictionary. The fixed key set `batch_no`, `mfg_date`, `exp_date` is the record's three fields.
- The `for k in result` loops of steps 3 and 5 are written out for the three fixed keys.
- The user interface, camera wrappers, OCR engine wrapper, annotator and capture scripts are not part of this model: they are hardware, GUI and third-party code.
