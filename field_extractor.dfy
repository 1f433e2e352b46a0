/** `extract_fields` of ocr/field_extractor.py: the passes that turn the OCR
    engine's parallel lists (texts, boxes, scores) into the three label
    fields `batch_no`, `mfg_date` and `exp_date`.

    Each pass is first given as a function of its inputs (the specification);
    the method `ExtractFields` then runs the passes the way the source does,
    with loops, and is proved to return what the specification says. */
module FieldExtractor {
  import opened Text
  import opened Patterns
  import opened Geometry

  /** An OCR item that passed the score threshold: a `blocks` entry. */
  datatype Block = Block(text: string, low: string, box: Box, center: Point)

  /** The `result` dictionary while it is filled in; `None` is Python's None. */
  datatype Slots = Slots(batchNo: Option<string>, mfgDate: Option<string>, expDate: Option<string>)

  /** What `extract_fields` returns: a string under each of its three keys. */
  datatype Fields = Fields(batchNo: string, mfgDate: string, expDate: string)

  const NoSlots := Slots(None, None, None)

  /** The sentinel written into a field that stayed unresolved. */
  const NotAvailable := "N/A"

  // ---- Pass 1: threshold filter (lines 34-44) ----

  /** How many triples `zip(texts, boxes, scores)` yields: the shortest list decides. */
  function ZipLength(texts: seq<string>, boxes: seq<Box>, scores: seq<real>): (n: nat)
    ensures n <= |texts| && n <= |boxes| && n <= |scores|
    ensures n == |texts| || n == |boxes| || n == |scores|
  {
    Min(|texts|, Min(|boxes|, |scores|))
  }

  /** The block built from one kept item: stripped text, its lower-case copy, the box and its centre. */
  function MakeBlock(t: string, b: Box): Block {
    var txt := Strip(t);
    Block(txt, Lower(txt), b, CenterOf(b))
  }

  /** The positions below `k` that the threshold keeps, in input order: an
      item is dropped exactly when its score is strictly below the threshold. */
  function KeptIndices(scores: seq<real>, thresh: real, k: nat): (ks: seq<nat>)
    requires k <= |scores|
    ensures forall a, b :: 0 <= a < b < |ks| ==> ks[a] < ks[b]
    ensures forall a :: 0 <= a < |ks| ==> ks[a] < k && !(scores[ks[a]] < thresh)
    ensures forall i :: 0 <= i < k && !(scores[i] < thresh) ==> i in ks
  {
    if k == 0 then []
    else
      var ks := KeptIndices(scores, thresh, k - 1);
      if scores[k - 1] < thresh then ks else ks + [k - 1]
  }

  /** `blocks` after the filter loop has seen the first `k` triples. */
  function FilteredBlocks(texts: seq<string>, boxes: seq<Box>, scores: seq<real>, thresh: real, k: nat): seq<Block>
    requires k <= ZipLength(texts, boxes, scores)
  {
    var ks := KeptIndices(scores, thresh, k);
    seq(|ks|, j requires 0 <= j < |ks| => MakeBlock(texts[ks[j]], boxes[ks[j]]))
  }

  /** The blocks the threshold keeps from the parallel lists. */
  function Blocks(texts: seq<string>, boxes: seq<Box>, scores: seq<real>, thresh: real): seq<Block> {
    FilteredBlocks(texts, boxes, scores, thresh, ZipLength(texts, boxes, scores))
  }

  /** A block holds its stripped text and that text's lower-case copy. */
  predicate WellFormedBlocks(blocks: seq<Block>) {
    forall j :: 0 <= j < |blocks| ==> IsStripped(blocks[j].text) && blocks[j].low == Lower(blocks[j].text)
  }

  lemma FilteredBlocksWellFormed(texts: seq<string>, boxes: seq<Box>, scores: seq<real>, thresh: real, k: nat)
    requires k <= ZipLength(texts, boxes, scores)
    ensures WellFormedBlocks(FilteredBlocks(texts, boxes, scores, thresh, k))
  {
  }

  /** Every item of the zip whose score reaches the threshold (a score equal
      to it included) becomes a block, in input order. */
  lemma KeptItemsBecomeBlocks(texts: seq<string>, boxes: seq<Box>, scores: seq<real>, thresh: real, i: nat)
    requires i < ZipLength(texts, boxes, scores) && scores[i] >= thresh
    ensures var blocks := Blocks(texts, boxes, scores, thresh);
      exists j :: 0 <= j < |blocks| && blocks[j] == MakeBlock(texts[i], boxes[i])
  {
    var ks := KeptIndices(scores, thresh, ZipLength(texts, boxes, scores));
    assert i in ks;
    var j :| 0 <= j < |ks| && ks[j] == i;
    assert Blocks(texts, boxes, scores, thresh)[j] == MakeBlock(texts[i], boxes[i]);
  }

  /** Every block comes from an item of the zip whose score reaches the threshold. */
  lemma BlocksComeFromKeptItems(texts: seq<string>, boxes: seq<Box>, scores: seq<real>, thresh: real, j: nat)
    requires j < |Blocks(texts, boxes, scores, thresh)|
    ensures exists i :: (0 <= i < ZipLength(texts, boxes, scores) && scores[i] >= thresh
                         && Blocks(texts, boxes, scores, thresh)[j] == MakeBlock(texts[i], boxes[i]))
  {
    var ks := KeptIndices(scores, thresh, ZipLength(texts, boxes, scores));
    assert ks[j] in ks;
  }

  // ---- Pass 2: inline EXP / MFG (lines 50-59) ----

  /** `'exp' in low` */
  predicate MentionsExp(b: Block) {
    Contains(b.low, "exp")
  }

  /** `'mfg' in low or 'manufacture' in low` */
  predicate MentionsMfg(b: Block) {
    Contains(b.low, "mfg") || Contains(b.low, "manufacture")
  }

  /** A block the MFG branch handles: the EXP branch runs first and ends with `continue`. */
  predicate IsMfgBlock(b: Block) {
    !MentionsExp(b) && MentionsMfg(b)
  }

  /** `result` after the EXP/MFG loop has seen `blocks[..k]`. */
  function InlineDates(blocks: seq<Block>, k: nat): Slots
    requires k <= |blocks|
  {
    if k == 0 then NoSlots
    else
      var r := InlineDates(blocks, k - 1);
      var b := blocks[k - 1];
      if MentionsExp(b) then r.(expDate := Some(ExpValue(b.text)))
      else if MentionsMfg(b) then r.(mfgDate := Some(MfgValue(b.text)))
      else r
  }

  /** The position of the last block in `blocks[..k]` that mentions `exp`. */
  function LastExpBlock(blocks: seq<Block>, k: nat): (r: Option<nat>)
    requires k <= |blocks|
    ensures r.None? <==> forall j :: 0 <= j < k ==> !MentionsExp(blocks[j])
    ensures r.Some? ==> r.value < k && MentionsExp(blocks[r.value])
    ensures r.Some? ==> forall j :: r.value < j < k ==> !MentionsExp(blocks[j])
  {
    if k == 0 then None
    else if MentionsExp(blocks[k - 1]) then Some(k - 1)
    else LastExpBlock(blocks, k - 1)
  }

  /** The position of the last block in `blocks[..k]` that the MFG branch handles. */
  function LastMfgBlock(blocks: seq<Block>, k: nat): (r: Option<nat>)
    requires k <= |blocks|
    ensures r.None? <==> forall j :: 0 <= j < k ==> !IsMfgBlock(blocks[j])
    ensures r.Some? ==> r.value < k && IsMfgBlock(blocks[r.value])
    ensures r.Some? ==> forall j :: r.value < j < k ==> !IsMfgBlock(blocks[j])
  {
    if k == 0 then None
    else if IsMfgBlock(blocks[k - 1]) then Some(k - 1)
    else LastMfgBlock(blocks, k - 1)
  }

  /** The EXP/MFG loop never writes `batch_no`. */
  lemma {:induction false} InlineDatesNoBatch(blocks: seq<Block>, k: nat)
    requires k <= |blocks|
    ensures InlineDates(blocks, k).batchNo == None
  {
    if k > 0 {
      InlineDatesNoBatch(blocks, k - 1);
    }
  }

  /** The EXP/MFG loop: `exp_date` is read off the LAST block that mentions
      `exp`, and stays None when no block does. */
  lemma {:induction false} InlineExpLastWins(blocks: seq<Block>, k: nat)
    requires k <= |blocks|
    ensures InlineDates(blocks, k).expDate ==
      match LastExpBlock(blocks, k)
      case None => None
      case Some(j) => Some(ExpValue(blocks[j].text))
  {
    if k > 0 {
      InlineExpLastWins(blocks, k - 1);
      var b := blocks[k - 1];
      if !MentionsExp(b) {
        assert InlineDates(blocks, k).expDate == InlineDates(blocks, k - 1).expDate;
      }
    }
  }

  /** The EXP/MFG loop: `mfg_date` is read off the LAST block that mentions
      `mfg` or `manufacture` but not `exp`, and stays None when no block does. */
  lemma {:induction false} InlineMfgLastWins(blocks: seq<Block>, k: nat)
    requires k <= |blocks|
    ensures InlineDates(blocks, k).mfgDate ==
      match LastMfgBlock(blocks, k)
      case None => None
      case Some(j) => Some(MfgValue(blocks[j].text))
  {
    if k > 0 {
      InlineMfgLastWins(blocks, k - 1);
      var b := blocks[k - 1];
      if !IsMfgBlock(b) {
        assert InlineDates(blocks, k).mfgDate == InlineDates(blocks, k - 1).mfgDate;
      }
    }
  }

  /** A block's text is stripped, so a value read off its EXP or MFG label is never empty. */
  lemma InlineDatesNonEmpty(blocks: seq<Block>, k: nat)
    requires k <= |blocks|
    requires WellFormedBlocks(blocks)
    ensures InlineDates(blocks, k).expDate.Some? ==> InlineDates(blocks, k).expDate.value != ""
    ensures InlineDates(blocks, k).mfgDate.Some? ==> InlineDates(blocks, k).mfgDate.value != ""
  {
    InlineExpLastWins(blocks, k);
    InlineMfgLastWins(blocks, k);
    if LastExpBlock(blocks, k).Some? {
      var j := LastExpBlock(blocks, k).value;
      LabelledValueNonEmpty(blocks[j].text, ["exp"]);
    }
    if LastMfgBlock(blocks, k).Some? {
      var j := LastMfgBlock(blocks, k).value;
      LabelledValueNonEmpty(blocks[j].text, ["mfg", "manufacture"]);
    }
  }

  // ---- Pass 3: batch number (lines 62-82) ----

  /** The first block from position `i` on whose lower-case text holds a word-bounded batch label. */
  function BatchLabelFrom(blocks: seq<Block>, i: nat): (r: Option<nat>)
    requires i <= |blocks|
    ensures r.Some? ==> i <= r.value < |blocks| && HasBatchWord(blocks[r.value].low)
    ensures r.Some? ==> forall j :: i <= j < r.value ==> !HasBatchWord(blocks[j].low)
    ensures r.None? ==> forall j :: i <= j < |blocks| ==> !HasBatchWord(blocks[j].low)
    decreases |blocks| - i
  {
    if i == |blocks| then None
    else if HasBatchWord(blocks[i].low) then Some(i)
    else BatchLabelFrom(blocks, i + 1)
  }

  /** `batch_label`, as a position in `blocks`. */
  function BatchLabel(blocks: seq<Block>): Option<nat> {
    BatchLabelFrom(blocks, 0)
  }

  /** The filter of lines 73-79: not the label itself (`is not` compares
      identity, so only that one position is left out), and neither `exp` nor
      `mfg` in the lower-case text, and no DATE_PAT match. */
  predicate IsBatchCandidate(blocks: seq<Block>, lbl: nat, j: nat)
    requires j < |blocks|
  {
    j != lbl && !Contains(blocks[j].low, "exp") && !Contains(blocks[j].low, "mfg")
    && !LooksLikeDate(blocks[j].text)
  }

  /** `cands` as positions in `blocks`, after the comprehension has seen `blocks[..k]`. */
  function Candidates(blocks: seq<Block>, lbl: nat, k: nat): (cs: seq<nat>)
    requires k <= |blocks|
    ensures forall a, b :: 0 <= a < b < |cs| ==> cs[a] < cs[b]
    ensures forall a :: 0 <= a < |cs| ==> cs[a] < k && IsBatchCandidate(blocks, lbl, cs[a])
    ensures forall j :: 0 <= j < k && IsBatchCandidate(blocks, lbl, j) ==> j in cs
  {
    if k == 0 then []
    else
      var cs := Candidates(blocks, lbl, k - 1);
      if IsBatchCandidate(blocks, lbl, k - 1) then cs + [k - 1] else cs
  }

  /** Distance (squared) from `c0` to the centre of the block at position `j`. */
  function DistTo(blocks: seq<Block>, c0: Point, j: nat): real
    requires j < |blocks|
  {
    DistSq(c0, blocks[j].center)
  }

  predicate AllBelow(cs: seq<nat>, n: nat) {
    forall i :: 0 <= i < |cs| ==> cs[i] < n
  }

  /** `min(cands[..k], key=...)` as a position in `cands`: the nearest
      candidate, and of equally near ones the first, since `min` replaces its
      pick only on a strictly smaller key. */
  function NearestUpTo(blocks: seq<Block>, cs: seq<nat>, c0: Point, k: nat): (m: nat)
    requires 0 < k <= |cs| && AllBelow(cs, |blocks|)
    ensures m < k
    ensures forall i :: 0 <= i < k ==> DistTo(blocks, c0, cs[m]) <= DistTo(blocks, c0, cs[i])
    ensures forall i :: 0 <= i < m ==> DistTo(blocks, c0, cs[m]) < DistTo(blocks, c0, cs[i])
  {
    if k == 1 then 0
    else
      var m := NearestUpTo(blocks, cs, c0, k - 1);
      if DistTo(blocks, c0, cs[k - 1]) < DistTo(blocks, c0, cs[m]) then k - 1 else m
  }

  /** The candidate `min` picks, as a position in `blocks`, or None when `cands` is empty. */
  function NearestCandidate(blocks: seq<Block>, lbl: nat): Option<nat>
    requires lbl < |blocks|
  {
    var cs := Candidates(blocks, lbl, |blocks|);
    if cs == [] then None else Some(cs[NearestUpTo(blocks, cs, blocks[lbl].center, |cs|)])
  }

  /** There is no pick exactly when no block is a candidate. */
  lemma NearestCandidateNone(blocks: seq<Block>, lbl: nat)
    requires lbl < |blocks|
    ensures NearestCandidate(blocks, lbl).None? <==> forall j :: 0 <= j < |blocks| ==> !IsBatchCandidate(blocks, lbl, j)
  {
    var cs := Candidates(blocks, lbl, |blocks|);
    if cs == [] {
      forall j | 0 <= j < |blocks|
        ensures !IsBatchCandidate(blocks, lbl, j)
      {
        assert j !in cs;
      }
    } else {
      assert IsBatchCandidate(blocks, lbl, cs[0]);
    }
  }

  /** The pick is a candidate and no candidate is nearer to the label's centre. */
  lemma NearestCandidateIsNearest(blocks: seq<Block>, lbl: nat)
    requires lbl < |blocks| && NearestCandidate(blocks, lbl).Some?
    ensures var j := NearestCandidate(blocks, lbl).value;
      && j < |blocks| && IsBatchCandidate(blocks, lbl, j)
      && forall i :: 0 <= i < |blocks| && IsBatchCandidate(blocks, lbl, i) ==>
           DistTo(blocks, blocks[lbl].center, j) <= DistTo(blocks, blocks[lbl].center, i)
  {
    var cs := Candidates(blocks, lbl, |blocks|);
    var c0 := blocks[lbl].center;
    var j := cs[NearestUpTo(blocks, cs, c0, |cs|)];
    forall i | 0 <= i < |blocks| && IsBatchCandidate(blocks, lbl, i)
      ensures DistTo(blocks, c0, j) <= DistTo(blocks, c0, i)
    {
      assert i in cs;
      var x :| 0 <= x < |cs| && cs[x] == i;
    }
  }

  /** Of equally near candidates the first wins: every candidate before the
      pick is strictly farther from the label's centre. */
  lemma NearestCandidateIsFirst(blocks: seq<Block>, lbl: nat)
    requires lbl < |blocks| && NearestCandidate(blocks, lbl).Some?
    ensures var j := NearestCandidate(blocks, lbl).value;
      forall i :: 0 <= i < j && IsBatchCandidate(blocks, lbl, i) ==>
        DistTo(blocks, blocks[lbl].center, j) < DistTo(blocks, blocks[lbl].center, i)
  {
    var cs := Candidates(blocks, lbl, |blocks|);
    var c0 := blocks[lbl].center;
    var m := NearestUpTo(blocks, cs, c0, |cs|);
    var j := cs[m];
    forall i | 0 <= i < j && IsBatchCandidate(blocks, lbl, i)
      ensures DistTo(blocks, c0, j) < DistTo(blocks, c0, i)
    {
      assert i in cs;
      var x :| 0 <= x < |cs| && cs[x] == i;
      EarlierValueEarlierIndex(cs, x, m);
    }
  }

  /** In a strictly increasing sequence a smaller element sits at an earlier index. */
  lemma EarlierValueEarlierIndex(cs: seq<nat>, x: nat, m: nat)
    requires forall a, b :: 0 <= a < b < |cs| ==> cs[a] < cs[b]
    requires x < |cs| && m < |cs| && cs[x] < cs[m]
    ensures x < m
  {
  }

  /** What the batch pass writes into `batch_no`, or None when it writes nothing. */
  function BatchValue(blocks: seq<Block>): Option<string> {
    match BatchLabel(blocks)
    case None => None
    case Some(l) =>
      var anchored := AnchoredBatchNo(blocks[l].text);
      if anchored.Some? then anchored
      else
        match NearestCandidate(blocks, l)
        case None => None
        case Some(j) => Some(blocks[j].text)
  }

  /** The text starts with `b.no` or `bno` (any case) and goes on after it. */
  predicate StartsWithBno(t: string) {
    BnoPrefixEnd(t).Some? && BnoPrefixEnd(t).value < |t|
  }

  /** The batch pass: without a label nothing is written; a label that
      starts with `b.no`/`bno` and goes on gives a non-empty value read off
      the label itself; any other label gives the text of the nearest
      candidate, or nothing when there is no candidate. */
  lemma BatchValueSpec(blocks: seq<Block>)
    requires WellFormedBlocks(blocks)
    ensures BatchLabel(blocks).None? ==> BatchValue(blocks).None?
    ensures BatchLabel(blocks).Some? && StartsWithBno(blocks[BatchLabel(blocks).value].text) ==>
      && BatchValue(blocks) == AnchoredBatchNo(blocks[BatchLabel(blocks).value].text)
      && BatchValue(blocks).Some? && BatchValue(blocks).value != ""
    ensures BatchLabel(blocks).Some? && !StartsWithBno(blocks[BatchLabel(blocks).value].text) ==>
      BatchValue(blocks) ==
        match NearestCandidate(blocks, BatchLabel(blocks).value)
        case None => None
        case Some(j) => Some(blocks[j].text)
  {
    if BatchLabel(blocks).Some? {
      var l := BatchLabel(blocks).value;
      AnchoredBatchNoOnStripped(blocks[l].text);
    }
  }

  // ---- Passes 4-6: empty-to-missing, fallback, sentinel (lines 85-98) ----

  /** `if not result[k]: result[k] = None` for one slot. */
  function Normalize(o: Option<string>): (r: Option<string>)
    ensures r.Some? ==> r.value != ""
    ensures o.Some? && o.value != "" ==> r == o
    ensures o.None? || o.value == "" ==> r.None?
  {
    if o.Some? && o.value != "" then o else None
  }

  function NormalizeSlots(s: Slots): Slots {
    Slots(Normalize(s.batchNo), Normalize(s.mfgDate), Normalize(s.expDate))
  }

  /** The fallback: when every slot is None and the RAW text list has at
      least three entries, its last three go to batch, MFG and EXP. */
  function Fallback(s: Slots, texts: seq<string>): Slots {
    if s == NoSlots && |texts| >= 3 then
      Slots(Some(texts[|texts| - 3]), Some(texts[|texts| - 2]), Some(texts[|texts| - 1]))
    else s
  }

  /** `if not result[k]: result[k] = 'N/A'` for one slot. */
  function OrNotAvailable(o: Option<string>): (v: string)
    ensures v != ""
    ensures o.Some? && o.value != "" ==> v == o.value
    ensures o.None? || o.value == "" ==> v == NotAvailable
  {
    if o.Some? && o.value != "" then o.value else NotAvailable
  }

  function Finalize(s: Slots): Fields {
    Fields(OrNotAvailable(s.batchNo), OrNotAvailable(s.mfgDate), OrNotAvailable(s.expDate))
  }

  // ---- The whole classifier ----

  /** `result` once the keyword and batch passes are done and empty strings are None again. */
  function Resolved(texts: seq<string>, boxes: seq<Box>, scores: seq<real>, thresh: real): Slots {
    var blocks := Blocks(texts, boxes, scores, thresh);
    NormalizeSlots(InlineDates(blocks, |blocks|).(batchNo := BatchValue(blocks)))
  }

  /** What `extract_fields` returns for the parsed OCR lists and threshold:
      every field is a non-empty string, the sentinel when nothing was found. */
  function Classify(texts: seq<string>, boxes: seq<Box>, scores: seq<real>, thresh: real): (f: Fields)
    ensures f.batchNo != "" && f.mfgDate != "" && f.expDate != ""
  {
    Finalize(Fallback(Resolved(texts, boxes, scores, thresh), texts))
  }

  /** After normalisation `exp_date` is still the value read off the last
      block that mentions `exp` (it is never empty), or None. */
  lemma ResolvedExp(texts: seq<string>, boxes: seq<Box>, scores: seq<real>, thresh: real)
    ensures var blocks := Blocks(texts, boxes, scores, thresh);
      Resolved(texts, boxes, scores, thresh).expDate ==
        match LastExpBlock(blocks, |blocks|)
        case None => None
        case Some(j) => Some(ExpValue(blocks[j].text))
  {
    var blocks := Blocks(texts, boxes, scores, thresh);
    FilteredBlocksWellFormed(texts, boxes, scores, thresh, ZipLength(texts, boxes, scores));
    InlineExpLastWins(blocks, |blocks|);
    InlineDatesNonEmpty(blocks, |blocks|);
  }

  /** After normalisation `mfg_date` is still the value read off the last
      MFG block (it is never empty), or None. */
  lemma ResolvedMfg(texts: seq<string>, boxes: seq<Box>, scores: seq<real>, thresh: real)
    ensures var blocks := Blocks(texts, boxes, scores, thresh);
      Resolved(texts, boxes, scores, thresh).mfgDate ==
        match LastMfgBlock(blocks, |blocks|)
        case None => None
        case Some(j) => Some(MfgValue(blocks[j].text))
  {
    var blocks := Blocks(texts, boxes, scores, thresh);
    FilteredBlocksWellFormed(texts, boxes, scores, thresh, ZipLength(texts, boxes, scores));
    InlineMfgLastWins(blocks, |blocks|);
    InlineDatesNonEmpty(blocks, |blocks|);
  }

  /** After normalisation `batch_no` is what the batch pass wrote, unless
      that was empty (a nearest candidate with no text), which counts as
      not found. */
  lemma ResolvedBatch(texts: seq<string>, boxes: seq<Box>, scores: seq<real>, thresh: real)
    ensures var b := BatchValue(Blocks(texts, boxes, scores, thresh));
      Resolved(texts, boxes, scores, thresh).batchNo == if b.Some? && b.value != "" then b else None
  {
    InlineDatesNoBatch(Blocks(texts, boxes, scores, thresh), |Blocks(texts, boxes, scores, thresh)|);
  }

  /** The fallback and the sentinel: a field that was found is returned as
      found; when nothing at all was found and the raw text list has at
      least three entries (filtered out or not), its last three are
      returned, an empty one as "N/A"; otherwise every missing field is "N/A". */
  lemma ClassifySpec(texts: seq<string>, boxes: seq<Box>, scores: seq<real>, thresh: real)
    ensures var r := Resolved(texts, boxes, scores, thresh);
      var f := Classify(texts, boxes, scores, thresh);
      && (r != NoSlots ==>
            && f.batchNo == (if r.batchNo.Some? then r.batchNo.value else NotAvailable)
            && f.mfgDate == (if r.mfgDate.Some? then r.mfgDate.value else NotAvailable)
            && f.expDate == (if r.expDate.Some? then r.expDate.value else NotAvailable))
      && (r == NoSlots && |texts| >= 3 ==>
            && f.batchNo == (if texts[|texts| - 3] != "" then texts[|texts| - 3] else NotAvailable)
            && f.mfgDate == (if texts[|texts| - 2] != "" then texts[|texts| - 2] else NotAvailable)
            && f.expDate == (if texts[|texts| - 1] != "" then texts[|texts| - 1] else NotAvailable))
      && (r == NoSlots && |texts| < 3 ==> f == Fields(NotAvailable, NotAvailable, NotAvailable))
  {
  }

  /** The fallback reads the RAW list: items whose scores are all below the
      threshold, so that no block survives, still come back as the result. */
  lemma FallbackIgnoresThreshold()
    ensures Classify(["LOT7", "01/24", "01/26"], [Box(0.0, 0.0, 1.0, 1.0), Box(0.0, 2.0, 1.0, 3.0), Box(0.0, 4.0, 1.0, 5.0)],
                     [0.1, 0.1, 0.1], 0.5)
         == Fields("LOT7", "01/24", "01/26")
  {
    var texts := ["LOT7", "01/24", "01/26"];
    var boxes := [Box(0.0, 0.0, 1.0, 1.0), Box(0.0, 2.0, 1.0, 3.0), Box(0.0, 4.0, 1.0, 5.0)];
    var scores := [0.1, 0.1, 0.1];
    assert KeptIndices(scores, 0.5, 3) == [];
    assert Blocks(texts, boxes, scores, 0.5) == [];
  }

  // ---- The passes as the source runs them ----

  /** The filter loop of lines 35-44: one block per kept triple, in order. */
  method FilterBlocks(texts: seq<string>, boxes: seq<Box>, scores: seq<real>, scoreThresh: real)
    returns (blocks: seq<Block>)
    ensures blocks == Blocks(texts, boxes, scores, scoreThresh)
    ensures WellFormedBlocks(blocks)
  {
    var n := ZipLength(texts, boxes, scores);
    blocks := [];
    for i := 0 to n
      invariant blocks == FilteredBlocks(texts, boxes, scores, scoreThresh, i)
    {
      if scores[i] < scoreThresh {
        continue;
      }
      var txt := Strip(texts[i]);
      blocks := blocks + [Block(txt, Lower(txt), boxes[i], CenterOf(boxes[i]))];
    }
    FilteredBlocksWellFormed(texts, boxes, scores, scoreThresh, n);
  }

  /** The EXP/MFG loop of lines 50-59, starting from an all-None `result`. */
  method ReadInlineDates(blocks: seq<Block>) returns (result: Slots)
    ensures result == InlineDates(blocks, |blocks|)
  {
    result := NoSlots;
    for i := 0 to |blocks|
      invariant result == InlineDates(blocks, i)
    {
      var txt, low := blocks[i].text, blocks[i].low;
      if Contains(low, "exp") {
        result := result.(expDate := Some(ExpValue(txt)));
        continue;
      }
      if Contains(low, "mfg") || Contains(low, "manufacture") {
        result := result.(mfgDate := Some(MfgValue(txt)));
        continue;
      }
    }
  }

  /** The label search of lines 62-66: the first block with a batch label. */
  method FindBatchLabel(blocks: seq<Block>) returns (lbl: Option<nat>)
    ensures lbl == BatchLabel(blocks)
  {
    var i := 0;
    while i < |blocks| && !HasBatchWord(blocks[i].low)
      invariant i <= |blocks|
      invariant BatchLabelFrom(blocks, i) == BatchLabel(blocks)
    {
      i := i + 1;
    }
    lbl := if i < |blocks| then Some(i) else None;
  }

  /** The comprehension of lines 73-79 that collects `cands`. */
  method CollectCandidates(blocks: seq<Block>, lbl: nat) returns (cands: seq<nat>)
    ensures cands == Candidates(blocks, lbl, |blocks|)
  {
    cands := [];
    for j := 0 to |blocks|
      invariant cands == Candidates(blocks, lbl, j)
    {
      assert Candidates(blocks, lbl, j + 1)
          == if IsBatchCandidate(blocks, lbl, j) then cands + [j] else cands;
      if IsBatchCandidate(blocks, lbl, j) {
        cands := cands + [j];
      }
    }
  }

  /** `min(cands, key=lambda b: dist(center_of(b['box']), c0))` (line 81),
      as a position in `cands`. */
  method NearestIndex(blocks: seq<Block>, cands: seq<nat>, c0: Point) returns (nearest: nat)
    requires cands != [] && AllBelow(cands, |blocks|)
    ensures nearest == NearestUpTo(blocks, cands, c0, |cands|)
  {
    nearest := 0;
    for k := 1 to |cands|
      invariant nearest == NearestUpTo(blocks, cands, c0, k)
    {
      if DistTo(blocks, c0, cands[k]) < DistTo(blocks, c0, cands[nearest]) {
        nearest := k;
      }
    }
  }

  /** The batch pass of lines 62-82: what it writes into `batch_no`. */
  method ReadBatch(blocks: seq<Block>) returns (batch: Option<string>)
    ensures batch == BatchValue(blocks)
  {
    batch := None;
    var lbl := FindBatchLabel(blocks);
    if lbl.Some? {
      var l := lbl.value;
      var m := AnchoredBatchNo(blocks[l].text);
      if m.Some? {
        batch := m;
      } else {
        var cands := CollectCandidates(blocks, l);
        if cands != [] {
          var nearest := NearestIndex(blocks, cands, blocks[l].center);
          batch := Some(blocks[cands[nearest]].text);
        }
      }
    }
  }

  /** Step 3 (lines 85-87): `for k in result: if not result[k]: result[k] = None`. */
  method NormalizeMissing(result: Slots) returns (r: Slots)
    ensures r == NormalizeSlots(result)
  {
    r := result;
    r := r.(batchNo := Normalize(r.batchNo));
    r := r.(mfgDate := Normalize(r.mfgDate));
    r := r.(expDate := Normalize(r.expDate));
  }

  /** Step 4 (lines 90-93): when every slot is None, the last three raw texts. */
  method ApplyFallback(result: Slots, texts: seq<string>) returns (r: Slots)
    ensures r == Fallback(result, texts)
  {
    r := result;
    if r.batchNo.None? && r.mfgDate.None? && r.expDate.None? {
      if |texts| >= 3 {
        r := Slots(Some(texts[|texts| - 3]), Some(texts[|texts| - 2]), Some(texts[|texts| - 1]));
      }
    }
  }

  /** Step 5 (lines 96-98): `for k in result: if not result[k]: result[k] = 'N/A'`. */
  method FillNotAvailable(result: Slots) returns (fields: Fields)
    ensures fields == Finalize(result)
  {
    var batchNo := OrNotAvailable(result.batchNo);
    var mfgDate := OrNotAvailable(result.mfgDate);
    var expDate := OrNotAvailable(result.expDate);
    fields := Fields(batchNo, mfgDate, expDate);
  }

  /** `extract_fields(json_path, score_thresh=0.0)` with the JSON already
      read into its three lists; the threshold keeps the source's default. */
  method ExtractFields(texts: seq<string>, boxes: seq<Box>, scores: seq<real>, scoreThresh: real := 0.0)
    returns (fields: Fields)
    ensures fields == Classify(texts, boxes, scores, scoreThresh)
    ensures fields.batchNo != "" && fields.mfgDate != "" && fields.expDate != ""
  {
    var blocks := FilterBlocks(texts, boxes, scores, scoreThresh);
    var result := ReadInlineDates(blocks);
    var batch := ReadBatch(blocks);
    result := result.(batchNo := batch);
    result := NormalizeMissing(result);
    result := ApplyFallback(result, texts);
    fields := FillNotAvailable(result);
  }
}
