/** The fixed regular expressions of ocr/field_extractor.py, written out as
    matchers over ASCII strings. Where the code reads a capture group, the
    matcher follows Python's backtracking order: a greedy `?` or `*` first
    takes as much as it can and then gives it back one character at a time,
    and `.` matches anything but a newline. */
module Patterns {
  import opened Text

  function Min(a: int, b: int): int {
    if a <= b then a else b
  }

  /** The lower-case literal `w` occurs at `i` in `t`, ignoring case (`re.IGNORECASE` on ASCII). */
  predicate LiteralAt(t: string, i: nat, w: string) {
    i + |w| <= |t| && Lower(t[i..i + |w|]) == w
  }

  /** Length of the whitespace run of `t` that starts at `q`: what a greedy `\s*` takes first. */
  function SpaceRun(t: string, q: nat): (k: nat)
    requires q <= |t|
    ensures q + k <= |t|
    ensures forall j :: q <= j < q + k ==> IsSpace(t[j])
    ensures q + k < |t| ==> !IsSpace(t[q + k])
    decreases |t| - q
  {
    if q < |t| && IsSpace(t[q]) then 1 + SpaceRun(t, q + 1) else 0
  }

  /** Where a greedy `.+` that starts at `g` stops: the next newline, or the end. */
  function LineEnd(t: string, g: nat): (e: nat)
    requires g <= |t|
    ensures g <= e <= |t|
    ensures forall j :: g <= j < e ==> t[j] != '\n'
    ensures e < |t| ==> t[e] == '\n'
    decreases |t| - g
  {
    if g < |t| && t[g] != '\n' then LineEnd(t, g + 1) else g
  }

  /** `[:\-]` */
  predicate IsSeparator(c: char) {
    c == ':' || c == '-'
  }

  // The tail `\.?\s*[:\-]?\s*(.+)` shared by the EXP, MFG and batch-number
  // patterns. Each function below gives the start of group 1 on the first
  // path that succeeds, or None when every path fails.

  /** `(.+)` at `g`: at least one character that is not a newline. */
  function GroupAt(t: string, g: nat): (r: Option<nat>)
    ensures r.Some? ==> r.value == g < |t| && t[g] != '\n'
  {
    if g < |t| && t[g] != '\n' then Some(g) else None
  }

  /** `\s*(.+)` at `q`, with the star holding `k` characters, then fewer. */
  function SpacesThenGroup(t: string, q: nat, k: nat): (r: Option<nat>)
    requires q + k <= |t|
    ensures r.Some? ==> r.value < |t| && t[r.value] != '\n'
    decreases k
  {
    var r := GroupAt(t, q + k);
    if r.Some? || k == 0 then r else SpacesThenGroup(t, q, k - 1)
  }

  /** `[:\-]?\s*(.+)` at `q`: the separator is taken first if present. */
  function SeparatorThenGroup(t: string, q: nat): (r: Option<nat>)
    requires q <= |t|
    ensures r.Some? ==> r.value < |t| && t[r.value] != '\n'
  {
    var without := SpacesThenGroup(t, q, SpaceRun(t, q));
    if q < |t| && IsSeparator(t[q]) then
      var with := SpacesThenGroup(t, q + 1, SpaceRun(t, q + 1));
      if with.Some? then with else without
    else without
  }

  /** `\s*[:\-]?\s*(.+)` at `q`, with the star holding `k` characters, then fewer. */
  function SpacesThenSeparator(t: string, q: nat, k: nat): (r: Option<nat>)
    requires q + k <= |t|
    ensures r.Some? ==> r.value < |t| && t[r.value] != '\n'
    decreases k
  {
    var r := SeparatorThenGroup(t, q + k);
    if r.Some? || k == 0 then r else SpacesThenSeparator(t, q, k - 1)
  }

  /** `\.?\s*[:\-]?\s*(.+)` at `p`: the dot is taken first if present. */
  function LabelTail(t: string, p: nat): (r: Option<nat>)
    requires p <= |t|
    ensures r.Some? ==> r.value < |t| && t[r.value] != '\n'
  {
    var without := SpacesThenSeparator(t, p, SpaceRun(t, p));
    if p < |t| && t[p] == '.' then
      var with := SpacesThenSeparator(t, p + 1, SpaceRun(t, p + 1));
      if with.Some? then with else without
    else without
  }

  /** Where `[:\-]?\s*` stops at `q` when each part takes all it can. */
  function SkipSeparator(t: string, q: nat): (e: nat)
    requires q <= |t|
    ensures q <= e <= |t|
  {
    var q3 := if q < |t| && IsSeparator(t[q]) then q + 1 else q;
    q3 + SpaceRun(t, q3)
  }

  /** Where `\s*[:\-]?\s*` stops at `q` when each part takes all it can. */
  function SkipSpacesAndSeparator(t: string, q: nat): (e: nat)
    requires q <= |t|
    ensures q <= e <= |t|
  {
    SkipSeparator(t, q + SpaceRun(t, q))
  }

  /** Where the optional parts of the tail stop when each takes all it can. */
  function GreedyTailEnd(t: string, p: nat): (e: nat)
    requires p <= |t|
    ensures p <= e <= |t|
  {
    SkipSpacesAndSeparator(t, if p < |t| && t[p] == '.' then p + 1 else p)
  }

  /** A greedy space run that reaches the end of a stripped string is empty. */
  lemma SpaceRunToEnd(t: string, q: nat)
    requires IsStripped(t) && q <= |t|
    ensures q + SpaceRun(t, q) == |t| ==> q == |t|
  {
  }

  lemma SeparatorThenGroupOnStripped(t: string, q: nat)
    requires IsStripped(t) && q <= |t|
    requires q < |t| ==> !IsSpace(t[q])
    ensures SeparatorThenGroup(t, q) == if q < |t| then Some(Min(SkipSeparator(t, q), |t| - 1)) else None
  {
    if q < |t| {
      assert SpaceRun(t, q) == 0;
      assert GroupAt(t, q) == Some(q);
      if IsSeparator(t[q]) {
        SpaceRunToEnd(t, q + 1);
        var k := SpaceRun(t, q + 1);
        if q + 1 + k < |t| {
          assert GroupAt(t, q + 1 + k) == Some(q + 1 + k);
        }
      }
    }
  }

  lemma SpacesThenSeparatorOnStripped(t: string, q: nat)
    requires IsStripped(t) && q <= |t|
    ensures SpacesThenSeparator(t, q, SpaceRun(t, q))
         == if q < |t| then Some(Min(SkipSpacesAndSeparator(t, q), |t| - 1)) else None
  {
    SpaceRunToEnd(t, q);
    SeparatorThenGroupOnStripped(t, q + SpaceRun(t, q));
  }

  /** On a stripped string the tail matches exactly when at least one
      character is left, and group 1 then starts where the greedy reading of
      the optional parts stops, or at the last character when that reading
      used up the whole string. It never starts on whitespace. */
  lemma {:induction false} LabelTailOnStripped(t: string, p: nat)
    requires IsStripped(t) && p <= |t|
    ensures LabelTail(t, p) == if p < |t| then Some(Min(GreedyTailEnd(t, p), |t| - 1)) else None
    ensures p < |t| ==> !IsSpace(t[Min(GreedyTailEnd(t, p), |t| - 1)])
  {
    if p < |t| && t[p] == '.' {
      DotTailOnStripped(t, p);
    } else {
      SpacesThenSeparatorOnStripped(t, p);
    }
    if p < |t| {
      GroupStartNotSpace(t, p);
    }
  }

  /** The tail on a stripped string at a `.`: the dot is taken. */
  lemma DotTailOnStripped(t: string, p: nat)
    requires IsStripped(t) && p < |t| && t[p] == '.'
    ensures LabelTail(t, p) == Some(Min(GreedyTailEnd(t, p), |t| - 1))
  {
    SpacesThenSeparatorOnStripped(t, p);
    SpacesThenSeparatorOnStripped(t, p + 1);
    assert SpaceRun(t, p) == 0;
  }

  /** The greedy tail end is never on whitespace, and neither is the last character. */
  lemma GroupStartNotSpace(t: string, p: nat)
    requires IsStripped(t) && p < |t|
    ensures !IsSpace(t[Min(GreedyTailEnd(t, p), |t| - 1)])
  {
    var q := if t[p] == '.' then p + 1 else p;
    var q2 := q + SpaceRun(t, q);
    var q3 := if q2 < |t| && IsSeparator(t[q2]) then q2 + 1 else q2;
    assert GreedyTailEnd(t, p) == q3 + SpaceRun(t, q3);
  }

  // ---- EXP and MFG labels (lines 53 and 57) ----

  /** The alternation `(?:k0|k1|...)` followed by the tail, tried at position
      `i`: the first keyword that leads to a match decides. */
  function KeywordTailAt(t: string, i: nat, kws: seq<string>): (r: Option<nat>)
    requires i <= |t|
    ensures r.Some? ==> r.value < |t|
    decreases |kws|
  {
    if kws == [] then None
    else if LiteralAt(t, i, kws[0]) && LabelTail(t, i + |kws[0]|).Some? then LabelTail(t, i + |kws[0]|)
    else KeywordTailAt(t, i, kws[1..])
  }

  /** `re.search` of the keyword pattern, trying start positions from `i` on. */
  function SearchKeywordTail(t: string, i: nat, kws: seq<string>): (r: Option<nat>)
    requires i <= |t|
    ensures r.Some? ==> r.value < |t|
    decreases |t| - i
  {
    var m := KeywordTailAt(t, i, kws);
    if m.Some? || i == |t| then m else SearchKeywordTail(t, i + 1, kws)
  }

  /** `(m.group(1) if m else txt).strip()` for the keyword pattern. */
  function LabelledValue(t: string, kws: seq<string>): string {
    match SearchKeywordTail(t, 0, kws)
    case Some(g) => Strip(t[g..LineEnd(t, g)])
    case None => Strip(t)
  }

  /** The value read off an EXP label: `exp\.?\s*[:\-]?\s*(.+)`. */
  function ExpValue(t: string): string {
    LabelledValue(t, ["exp"])
  }

  /** The value read off an MFG label: `(?:mfg|manufacture)\.?\s*[:\-]?\s*(.+)`. */
  function MfgValue(t: string): string {
    LabelledValue(t, ["mfg", "manufacture"])
  }

  /** Keyword number `k` occurs at `i` with at least one character after it. */
  predicate KeywordMatchAt(t: string, i: nat, kws: seq<string>, k: nat) {
    k < |kws| && LiteralAt(t, i, kws[k]) && i + |kws[k]| < |t|
  }

  /** Some keyword occurs at `i` with at least one character after it. */
  predicate KeywordWithValueAt(t: string, i: nat, kws: seq<string>) {
    exists k :: 0 <= k < |kws| && KeywordMatchAt(t, i, kws, k)
  }

  /** Keyword number `k` is the first of the alternation that occurs at `i`
      with a character after it. */
  predicate FirstKeywordAt(t: string, i: nat, kws: seq<string>, k: nat) {
    KeywordMatchAt(t, i, kws, k) && forall k' :: 0 <= k' < k ==> !KeywordMatchAt(t, i, kws, k')
  }

  /** Where group 1 starts, on a stripped text, after keyword number `k` at `i`. */
  function GroupAfterKeyword(t: string, i: nat, kws: seq<string>, k: nat): nat
    requires KeywordMatchAt(t, i, kws, k)
  {
    Min(GreedyTailEnd(t, i + |kws[k]|), |t| - 1)
  }

  /** When the first keyword does not match, the others decide. */
  lemma KeywordWithValueShift(t: string, i: nat, kws: seq<string>)
    requires kws != [] && !KeywordMatchAt(t, i, kws, 0)
    ensures KeywordWithValueAt(t, i, kws) <==> KeywordWithValueAt(t, i, kws[1..])
  {
    if KeywordWithValueAt(t, i, kws) {
      var k :| 0 <= k < |kws| && KeywordMatchAt(t, i, kws, k);
      assert kws[1..][k - 1] == kws[k];
      assert KeywordMatchAt(t, i, kws[1..], k - 1);
    }
    if KeywordWithValueAt(t, i, kws[1..]) {
      var k :| 0 <= k < |kws[1..]| && KeywordMatchAt(t, i, kws[1..], k);
      assert kws[1..][k] == kws[k + 1];
      assert KeywordMatchAt(t, i, kws, k + 1);
    }
  }

  /** Keyword number 0 at `i` followed by a tail decides the alternation. */
  lemma KeywordTailAtFirst(t: string, i: nat, kws: seq<string>)
    requires i <= |t| && kws != [] && LiteralAt(t, i, kws[0]) && LabelTail(t, i + |kws[0]|).Some?
    ensures KeywordTailAt(t, i, kws) == LabelTail(t, i + |kws[0]|)
  {
  }

  lemma FirstKeywordDecides(t: string, i: nat, kws: seq<string>)
    requires IsStripped(t) && i <= |t|
    requires KeywordMatchAt(t, i, kws, 0)
    ensures KeywordTailAt(t, i, kws) == Some(GroupAfterKeyword(t, i, kws, 0))
  {
    LabelTailAfterKeyword(t, i, kws, 0);
    KeywordTailAtFirst(t, i, kws);
  }

  /** On a stripped text the tail after keyword number `k` starts group 1 at `GroupAfterKeyword`. */
  lemma LabelTailAfterKeyword(t: string, i: nat, kws: seq<string>, k: nat)
    requires IsStripped(t) && KeywordMatchAt(t, i, kws, k)
    ensures LabelTail(t, i + |kws[k]|) == Some(GroupAfterKeyword(t, i, kws, k))
  {
    var p := i + |kws[k]|;
    assert p < |t|;
    LabelTailOnStripped(t, p);
    assert GroupAfterKeyword(t, i, kws, k) == Min(GreedyTailEnd(t, p), |t| - 1);
  }

  lemma LaterKeywordDecides(t: string, i: nat, kws: seq<string>)
    requires IsStripped(t) && i <= |t|
    requires kws != [] && !KeywordMatchAt(t, i, kws, 0)
    ensures KeywordTailAt(t, i, kws) == KeywordTailAt(t, i, kws[1..])
  {
    if LiteralAt(t, i, kws[0]) {
      LabelTailOnStripped(t, i + |kws[0]|);
    }
  }

  lemma GroupAfterLaterKeyword(t: string, i: nat, kws: seq<string>, k: nat)
    requires kws != [] && KeywordMatchAt(t, i, kws[1..], k)
    ensures KeywordMatchAt(t, i, kws, k + 1)
    ensures GroupAfterKeyword(t, i, kws[1..], k) == GroupAfterKeyword(t, i, kws, k + 1)
  {
    assert kws[1..][k] == kws[k + 1];
  }

  /** Keyword number `k + 1` of `kws` matches exactly when keyword number `k` of `kws[1..]` does. */
  lemma KeywordMatchShift(t: string, i: nat, kws: seq<string>, k: nat)
    requires kws != []
    ensures KeywordMatchAt(t, i, kws, k + 1) <==> KeywordMatchAt(t, i, kws[1..], k)
  {
    if k < |kws[1..]| {
      assert kws[1..][k] == kws[k + 1];
    }
  }

  /** When keyword number 0 does not match, the first of `kws[1..]` is the first of `kws`. */
  lemma FirstLaterKeyword(t: string, i: nat, kws: seq<string>, k: nat)
    requires kws != [] && !KeywordMatchAt(t, i, kws, 0)
    requires FirstKeywordAt(t, i, kws[1..], k)
    ensures FirstKeywordAt(t, i, kws, k + 1)
    ensures GroupAfterKeyword(t, i, kws[1..], k) == GroupAfterKeyword(t, i, kws, k + 1)
  {
    GroupAfterLaterKeyword(t, i, kws, k);
    forall k' | 0 < k' < k + 1
      ensures !KeywordMatchAt(t, i, kws, k')
    {
      KeywordMatchShift(t, i, kws, k' - 1);
    }
  }

  /** On a stripped text the alternation of keywords plus tail matches at `i`
      exactly when some keyword has a character after it there; group 1 then
      follows the first keyword of the alternation that does, as Python tries
      the alternatives in order. */
  lemma {:induction false} KeywordTailAtOnStripped(t: string, i: nat, kws: seq<string>)
    requires IsStripped(t) && i <= |t|
    ensures KeywordTailAt(t, i, kws).Some? <==> KeywordWithValueAt(t, i, kws)
    ensures KeywordTailAt(t, i, kws).Some? ==>
      exists k :: FirstKeywordAt(t, i, kws, k)
        && KeywordTailAt(t, i, kws).value == GroupAfterKeyword(t, i, kws, k)
    decreases |kws|
  {
    if kws != [] {
      if KeywordMatchAt(t, i, kws, 0) {
        FirstKeywordDecides(t, i, kws);
        assert FirstKeywordAt(t, i, kws, 0);
      } else {
        LaterKeywordDecides(t, i, kws);
        KeywordTailAtOnStripped(t, i, kws[1..]);
        KeywordWithValueShift(t, i, kws);
        if KeywordTailAt(t, i, kws[1..]).Some? {
          var k :| FirstKeywordAt(t, i, kws[1..], k)
            && KeywordTailAt(t, i, kws[1..]).value == GroupAfterKeyword(t, i, kws[1..], k);
          FirstLaterKeyword(t, i, kws, k);
        }
      }
    }
  }

  /** On a stripped string the search finds a match exactly when some keyword
      has a character after it; group 1 then belongs to the FIRST such
      position, and starts where the greedy reading of the tail stops. */
  lemma SearchKeywordTailOnStripped(t: string, i: nat, kws: seq<string>)
    requires IsStripped(t) && i <= |t|
    ensures SearchKeywordTail(t, i, kws).None? <==>
      forall j :: i <= j <= |t| ==> !KeywordWithValueAt(t, j, kws)
    ensures SearchKeywordTail(t, i, kws).Some? ==>
      exists j, k :: i <= j < |t| && FirstKeywordAt(t, j, kws, k)
        && SearchKeywordTail(t, i, kws).value == GroupAfterKeyword(t, j, kws, k)
        && (forall j' :: i <= j' < j ==> !KeywordWithValueAt(t, j', kws))
  {
    SearchKeywordTailNone(t, i, kws);
    SearchKeywordTailFirst(t, i, kws);
  }

  lemma {:induction false} SearchKeywordTailNone(t: string, i: nat, kws: seq<string>)
    requires IsStripped(t) && i <= |t|
    ensures SearchKeywordTail(t, i, kws).None? <==>
      forall j :: i <= j <= |t| ==> !KeywordWithValueAt(t, j, kws)
    decreases |t| - i
  {
    KeywordTailAtOnStripped(t, i, kws);
    if KeywordTailAt(t, i, kws).None? && i < |t| {
      SearchKeywordTailNone(t, i + 1, kws);
    }
  }

  lemma {:induction false} SearchKeywordTailFirst(t: string, i: nat, kws: seq<string>)
    requires IsStripped(t) && i <= |t|
    ensures SearchKeywordTail(t, i, kws).Some? ==>
      exists j, k :: i <= j < |t| && FirstKeywordAt(t, j, kws, k)
        && SearchKeywordTail(t, i, kws).value == GroupAfterKeyword(t, j, kws, k)
        && (forall j' :: i <= j' < j ==> !KeywordWithValueAt(t, j', kws))
    decreases |t| - i
  {
    KeywordTailAtOnStripped(t, i, kws);
    if KeywordTailAt(t, i, kws).Some? {
      var k :| FirstKeywordAt(t, i, kws, k)
        && KeywordTailAt(t, i, kws).value == GroupAfterKeyword(t, i, kws, k);
      assert i < |t|;
    } else if i < |t| {
      SearchKeywordTailFirst(t, i + 1, kws);
      if SearchKeywordTail(t, i + 1, kws).Some? {
        var j, k :| i + 1 <= j < |t| && FirstKeywordAt(t, j, kws, k)
          && SearchKeywordTail(t, i + 1, kws).value == GroupAfterKeyword(t, j, kws, k)
          && (forall j' :: i + 1 <= j' < j ==> !KeywordWithValueAt(t, j', kws));
        assert forall j' :: i <= j' < j ==> !KeywordWithValueAt(t, j', kws);
      }
    }
  }

  /** `(m.group(1) if m else txt).strip()` on a stripped text: without a
      keyword that has a character after it the value is the whole text;
      otherwise it is the rest of the line from where group 1 starts after the
      FIRST such keyword, stripped. */
  lemma LabelledValueSpec(t: string, kws: seq<string>)
    requires IsStripped(t)
    ensures (forall j :: 0 <= j <= |t| ==> !KeywordWithValueAt(t, j, kws)) ==> LabelledValue(t, kws) == t
    ensures (exists j :: 0 <= j <= |t| && KeywordWithValueAt(t, j, kws)) ==>
      exists j, k :: 0 <= j < |t| && FirstKeywordAt(t, j, kws, k)
        && (forall j' :: 0 <= j' < j ==> !KeywordWithValueAt(t, j', kws))
        && LabelledValue(t, kws) == Strip(t[GroupAfterKeyword(t, j, kws, k)..LineEnd(t, GroupAfterKeyword(t, j, kws, k))])
  {
    SearchKeywordTailOnStripped(t, 0, kws);
    if SearchKeywordTail(t, 0, kws).None? {
      StripOfStripped(t);
    }
  }

  /** A non-blank piece that starts on a non-space character survives stripping. */
  lemma StripKeepsNonBlank(s: string)
    requires |s| > 0 && !IsSpace(s[0])
    ensures Strip(s) != []
  {
    StripSpec(s);
    assert !AllSpace(s);
  }

  /** A group that starts on a non-space character is not blank once stripped. */
  lemma GroupNonBlank(t: string, g: nat)
    requires g < |t| && !IsSpace(t[g])
    ensures Strip(t[g..LineEnd(t, g)]) != []
  {
    StripKeepsNonBlank(t[g..LineEnd(t, g)]);
  }

  lemma GroupAfterKeywordNonSpace(t: string, i: nat, kws: seq<string>, k: nat)
    requires IsStripped(t) && KeywordMatchAt(t, i, kws, k)
    ensures GroupAfterKeyword(t, i, kws, k) < |t| && !IsSpace(t[GroupAfterKeyword(t, i, kws, k)])
  {
    LabelTailOnStripped(t, i + |kws[k]|);
  }

  /** The value read off a label is never empty when the text is not. */
  lemma LabelledValueNonEmpty(t: string, kws: seq<string>)
    requires IsStripped(t) && t != []
    ensures LabelledValue(t, kws) != []
  {
    SearchKeywordTailOnStripped(t, 0, kws);
    match SearchKeywordTail(t, 0, kws)
    case None =>
      StripKeepsNonBlank(t);
    case Some(g) =>
      var j, k :| 0 <= j < |t| && 0 <= k < |kws| && KeywordMatchAt(t, j, kws, k)
        && g == GroupAfterKeyword(t, j, kws, k);
      GroupAfterKeywordNonSpace(t, j, kws, k);
      GroupNonBlank(t, g);
  }

  // ---- Batch label (lines 63 and 68) ----

  predicate WordCharAt(s: string, k: int) {
    0 <= k < |s| && IsWordChar(s[k])
  }

  /** `\b` at position `k`: a word character on exactly one side. */
  predicate WordBoundary(s: string, k: int) {
    WordCharAt(s, k - 1) != WordCharAt(s, k)
  }

  /** `\bw\b` matches at `i`. */
  predicate BoundedWordAt(s: string, i: nat, w: string) {
    OccursAt(s, w, i) && WordBoundary(s, i) && WordBoundary(s, i + |w|)
  }

  /** `re.search(r'\b(b\.?no|batch)\b', low)` succeeds. */
  predicate HasBatchWord(low: string) {
    exists i :: 0 <= i <= |low| &&
      (BoundedWordAt(low, i, "bno") || BoundedWordAt(low, i, "b.no") || BoundedWordAt(low, i, "batch"))
  }

  /** Where `b\.?no` ends when it matches at the start of `t`, ignoring case:
      the dot is tried first, and the two readings exclude each other. */
  function BnoPrefixEnd(t: string): (r: Option<nat>)
    ensures r == Some(4) <==> LiteralAt(t, 0, "b.no")
    ensures r == Some(3) <==> LiteralAt(t, 0, "bno")
    ensures r.Some? ==> r.value == 3 || r.value == 4
  {
    if LiteralAt(t, 0, "b.no") then
      assert Lower(t[0..4])[1] == '.' && Lower(t[0..3])[1] == Lower(t[0..4])[1];
      Some(4)
    else if LiteralAt(t, 0, "bno") then Some(3)
    else None
  }

  /** `re.match(r'(?:b\.?no\.?)\s*[:\-]?\s*(.+)', txt, re.IGNORECASE)`, and
      `m.group(1).strip()` when it matches. */
  function AnchoredBatchNo(t: string): Option<string> {
    match BnoPrefixEnd(t)
    case None => None
    case Some(p) =>
      if p <= |t| then
        match LabelTail(t, p)
        case None => None
        case Some(g) => Some(Strip(t[g..LineEnd(t, g)]))
      else None
  }

  /** On a stripped text the anchored strip succeeds exactly when the text
      starts with `b.no` or `bno` (any case) and has a character after it; its
      value is then the rest of the line after the greedy optional parts,
      stripped, and never empty. */
  lemma AnchoredBatchNoOnStripped(t: string)
    requires IsStripped(t)
    ensures AnchoredBatchNo(t).Some? <==> BnoPrefixEnd(t).Some? && BnoPrefixEnd(t).value < |t|
    ensures AnchoredBatchNo(t).Some? ==>
      var g := Min(GreedyTailEnd(t, BnoPrefixEnd(t).value), |t| - 1);
      AnchoredBatchNo(t).value == Strip(t[g..LineEnd(t, g)]) && AnchoredBatchNo(t).value != []
  {
    if BnoPrefixEnd(t).Some? {
      AnchoredBatchNoAfterPrefix(t, BnoPrefixEnd(t).value);
    }
  }

  lemma AnchoredBatchNoAfterPrefix(t: string, p: nat)
    requires IsStripped(t) && BnoPrefixEnd(t) == Some(p)
    ensures AnchoredBatchNo(t).Some? <==> p < |t|
    ensures p < |t| ==>
      var g := Min(GreedyTailEnd(t, p), |t| - 1);
      AnchoredBatchNo(t) == Some(Strip(t[g..LineEnd(t, g)])) && Strip(t[g..LineEnd(t, g)]) != []
  {
    if p <= |t| {
      LabelTailOnStripped(t, p);
      if p < |t| {
        GroupNonBlank(t, Min(GreedyTailEnd(t, p), |t| - 1));
      }
    }
  }

  // ---- DATE_PAT (lines 20-24) ----

  /** `[./-]` */
  predicate IsDateSep(c: char) {
    c == '.' || c == '/' || c == '-'
  }

  predicate IsMonthAbbrev(w: string) {
    w == "jan" || w == "feb" || w == "mar" || w == "apr" || w == "may" || w == "jun" ||
    w == "jul" || w == "aug" || w == "sep" || w == "oct" || w == "nov" || w == "dec"
  }

  /** `\d{1,2}[./-]\d{2,4}` matches the whole of `w`. */
  predicate NumericCore(w: string) {
    exists k :: 1 <= k <= 2 && k < |w| && AllDigits(w[..k]) && IsDateSep(w[k])
      && 2 <= |w| - k - 1 <= 4 && AllDigits(w[k + 1..])
  }

  /** `(\d{1,2}[./-])?\d{1,2}[./-]\d{2,4}` matches the whole of `w`. */
  predicate NumericDate(w: string) {
    NumericCore(w) ||
    exists k :: 1 <= k <= 2 && k < |w| && AllDigits(w[..k]) && IsDateSep(w[k]) && NumericCore(w[k + 1..])
  }

  /** `\.?` followed by `\s*` matches the whole of `m`. */
  predicate DotThenSpaces(m: string) {
    AllSpace(m) || (|m| > 0 && m[0] == '.' && AllSpace(m[1..]))
  }

  /** `(?:jan|feb|...|dec)\.?\s*\d{4}` matches the whole of `w`, ignoring case. */
  predicate MonthDate(w: string) {
    |w| >= 7 && IsMonthAbbrev(Lower(w[..3])) && DotThenSpaces(w[3..|w| - 4]) && AllDigits(w[|w| - 4..])
  }

  /** `DATE_PAT.search(s)` succeeds: some piece of `s` is in the pattern's language. */
  ghost predicate DatePatternSearch(s: string) {
    exists i, j :: 0 <= i <= j <= |s| && (NumericDate(s[i..j]) || MonthDate(s[i..j]))
  }

  /** A digit, one of `./-`, then two digits, at `i`. */
  predicate DigitSepDigitsAt(s: string, i: nat) {
    i + 4 <= |s| && IsDigit(s[i]) && IsDateSep(s[i + 1]) && IsDigit(s[i + 2]) && IsDigit(s[i + 3])
  }

  /** Where the year must start after a month abbreviation at `i`: past an
      optional dot and all the whitespace that follows. */
  function YearStart(s: string, i: nat): (r: nat)
    requires i + 3 <= |s|
    ensures i + 3 <= r <= |s|
  {
    var q := if i + 3 < |s| && s[i + 3] == '.' then i + 4 else i + 3;
    q + SpaceRun(s, q)
  }

  /** A month abbreviation at `i`, an optional dot, any whitespace, then four digits. */
  predicate MonthYearAt(s: string, i: nat) {
    i + 3 <= |s| && IsMonthAbbrev(Lower(s[i..i + 3])) &&
    YearStart(s, i) + 4 <= |s| && AllDigits(s[YearStart(s, i)..YearStart(s, i) + 4])
  }

  /** The scan the extractor runs in place of `DATE_PAT.search`. */
  predicate LooksLikeDate(s: string) {
    exists i :: 0 <= i <= |s| && (DigitSepDigitsAt(s, i) || MonthYearAt(s, i))
  }

  /** A whitespace run whose end is known has the length of `SpaceRun`. */
  lemma {:induction false} SpaceRunIs(s: string, q: nat, k: nat)
    requires q + k <= |s| && AllSpace(s[q..q + k])
    requires q + k < |s| ==> !IsSpace(s[q + k])
    ensures SpaceRun(s, q) == k
    decreases k
  {
    if k > 0 {
      assert s[q..q + k][0] == s[q];
      assert s[q + 1..q + 1 + (k - 1)] == s[q..q + k][1..];
      SpaceRunIs(s, q + 1, k - 1);
    }
  }

  lemma DigitSepDigitsIsNumericDate(s: string, i: nat)
    requires DigitSepDigitsAt(s, i)
    ensures NumericDate(s[i..i + 4])
  {
    var w := s[i..i + 4];
    assert AllDigits(w[..1]) && AllDigits(w[2..]);
    assert NumericCore(w);
  }

  lemma MonthYearIsMonthDate(s: string, i: nat)
    requires MonthYearAt(s, i)
    ensures MonthDate(s[i..YearStart(s, i) + 4])
  {
    var r := YearStart(s, i);
    var w := s[i..r + 4];
    assert |w| == r + 4 - i;
    SliceOfSlice(s, i, r + 4, 0, 3);
    assert Lower(w[..3]) == Lower(s[i..i + 3]);
    SliceOfSlice(s, i, r + 4, r - i, r + 4 - i);
    assert w[|w| - 4..] == s[r..r + 4];
    SliceOfSlice(s, i, r + 4, 3, r - i);
    assert w[3..|w| - 4] == s[i + 3..r];
    DotThenSpacesBeforeYear(s, i);
    assert IsMonthAbbrev(Lower(w[..3]));
    assert DotThenSpaces(w[3..|w| - 4]);
    assert AllDigits(w[|w| - 4..]);
  }

  /** A slice of a slice is a slice of the original. */
  lemma SliceOfSlice(s: string, lo: nat, hi: nat, a: nat, b: nat)
    requires lo <= hi <= |s| && a <= b <= hi - lo
    ensures s[lo..hi][a..b] == s[lo + a..lo + b]
  {
    var x, y := s[lo..hi][a..b], s[lo + a..lo + b];
    assert |x| == |y|;
    forall k | 0 <= k < |x|
      ensures x[k] == y[k]
    {
      assert x[k] == s[lo..hi][a + k] == s[lo + a + k];
    }
  }

  /** What lies between a month abbreviation at `i` and `YearStart` is an optional dot and whitespace. */
  lemma DotThenSpacesBeforeYear(s: string, i: nat)
    requires i + 3 <= |s|
    ensures DotThenSpaces(s[i + 3..YearStart(s, i)])
  {
    var q := if i + 3 < |s| && s[i + 3] == '.' then i + 4 else i + 3;
    var e := q + SpaceRun(s, q);
    var m := s[i + 3..e];
    if q == i + 4 {
      assert m[0] == '.';
      assert m[1..] == s[q..e];
    } else {
      assert m == s[q..e];
    }
  }

  lemma NumericCoreHasDigitSepDigits(s: string, i: nat, j: nat)
    requires i <= j <= |s| && NumericCore(s[i..j])
    ensures exists m :: 0 <= m <= |s| && DigitSepDigitsAt(s, m)
  {
    var w := s[i..j];
    var k :| 1 <= k <= 2 && k < |w| && AllDigits(w[..k]) && IsDateSep(w[k])
      && 2 <= |w| - k - 1 <= 4 && AllDigits(w[k + 1..]);
    assert w[..k][k - 1] == w[k - 1];
    assert w[k + 1..][0] == w[k + 1] && w[k + 1..][1] == w[k + 2];
    assert DigitSepDigitsAt(s, i + k - 1);
  }

  lemma NumericDateHasDigitSepDigits(s: string, i: nat, j: nat)
    requires i <= j <= |s| && NumericDate(s[i..j])
    ensures exists m :: 0 <= m <= |s| && DigitSepDigitsAt(s, m)
  {
    var w := s[i..j];
    if NumericCore(w) {
      NumericCoreHasDigitSepDigits(s, i, j);
    } else {
      var k :| 1 <= k <= 2 && k < |w| && AllDigits(w[..k]) && IsDateSep(w[k]) && NumericCore(w[k + 1..]);
      PrefixedCoreHasDigitSepDigits(s, i, j, k);
    }
  }

  /** The core of a date with a leading `\d{1,2}[./-]` group already holds the digit pattern. */
  lemma PrefixedCoreHasDigitSepDigits(s: string, i: nat, j: nat, k: nat)
    requires i <= j <= |s| && k < j - i && NumericCore(s[i..j][k + 1..])
    ensures exists m :: 0 <= m <= |s| && DigitSepDigitsAt(s, m)
  {
    assert s[i..j][k + 1..] == s[i + k + 1..j];
    NumericCoreHasDigitSepDigits(s, i + k + 1, j);
  }

  lemma MonthDateParts(s: string, i: nat, j: nat)
    requires i <= j <= |s| && MonthDate(s[i..j])
    ensures i + 7 <= j
    ensures IsMonthAbbrev(Lower(s[i..i + 3])) && DotThenSpaces(s[i + 3..j - 4]) && AllDigits(s[j - 4..j])
  {
    var w := s[i..j];
    assert |w| == j - i && |w| >= 7;
    assert w[..3] == s[i..i + 3];
    assert w[|w| - 4..] == s[j - 4..j];
    var m := w[3..|w| - 4];
    assert forall x :: 0 <= x < |m| ==> m[x] == s[i + 3..j - 4][x];
    assert m == s[i + 3..j - 4];
  }

  lemma MonthDateIsMonthYear(s: string, i: nat, j: nat)
    requires i <= j <= |s| && MonthDate(s[i..j])
    ensures MonthYearAt(s, i)
  {
    MonthDateParts(s, i, j);
    var m := s[i + 3..j - 4];
    assert IsDigit(s[j - 4]) by {
      assert s[j - 4..j][0] == s[j - 4];
    }
    if |m| > 0 && m[0] == '.' {
      assert s[i + 3] == '.';
      assert s[i + 4..j - 4] == m[1..];
      SpaceRunIs(s, i + 4, j - 4 - (i + 4));
    } else {
      assert s[i + 3] != '.' by {
        if |m| > 0 {
          assert m[0] == s[i + 3];
        }
      }
      SpaceRunIs(s, i + 3, j - 4 - (i + 3));
    }
    assert YearStart(s, i) == j - 4;
  }

  /** `DATE_PAT.search` succeeds exactly when the text holds a digit, one of
      `./-` and two digits, or a month abbreviation, an optional dot, any
      whitespace and four digits: the optional leading group and the ranges
      `{1,2}` and `{2,4}` do not change whether there is a match. */
  lemma LooksLikeDateIffPattern(s: string)
    ensures LooksLikeDate(s) <==> DatePatternSearch(s)
  {
    if LooksLikeDate(s) {
      var i :| 0 <= i <= |s| && (DigitSepDigitsAt(s, i) || MonthYearAt(s, i));
      if DigitSepDigitsAt(s, i) {
        DigitSepDigitsIsNumericDate(s, i);
      } else {
        MonthYearIsMonthDate(s, i);
      }
    }
    if DatePatternSearch(s) {
      var i, j :| 0 <= i <= j <= |s| && (NumericDate(s[i..j]) || MonthDate(s[i..j]));
      if NumericDate(s[i..j]) {
        NumericDateHasDigitSepDigits(s, i, j);
      } else {
        MonthDateIsMonthYear(s, i, j);
      }
    }
  }
}
