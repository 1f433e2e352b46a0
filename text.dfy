/** Character classes and the Python string builtins the field extractor relies on
    (`str.strip`, `str.lower`, the `in` substring test), restricted to ASCII. */
module Text {

  datatype Option<+T> = None | Some(value: T)

  /** Python's whitespace on ASCII (`str.isspace`, and `\s` in a `str` pattern):
      tab, line feed, vertical tab, form feed, carriage return, the four
      information separators 0x1C..0x1F, and space. */
  predicate IsSpace(c: char) {
    9 <= c as int <= 13 || 28 <= c as int <= 32
  }

  /** `\d` on ASCII. */
  predicate IsDigit(c: char) {
    '0' <= c <= '9'
  }

  /** `\w` on ASCII: letters, digits and underscore. */
  predicate IsWordChar(c: char) {
    'a' <= c <= 'z' || 'A' <= c <= 'Z' || IsDigit(c) || c == '_'
  }

  predicate AllSpace(s: string) {
    forall i :: 0 <= i < |s| ==> IsSpace(s[i])
  }

  predicate AllDigits(s: string) {
    forall i :: 0 <= i < |s| ==> IsDigit(s[i])
  }

  /** `str.lower()` on one ASCII character. */
  function LowerChar(c: char): (d: char)
    ensures 'A' <= c <= 'Z' ==> 'a' <= d <= 'z' && d as int == c as int + 32
    ensures !('A' <= c <= 'Z') ==> d == c
  {
    if 'A' <= c <= 'Z' then (c as int + 32) as char else c
  }

  /** `str.lower()`. */
  function Lower(s: string): (r: string)
    ensures |r| == |s|
    ensures forall i :: 0 <= i < |s| ==> r[i] == LowerChar(s[i])
  {
    seq(|s|, i requires 0 <= i < |s| => LowerChar(s[i]))
  }

  /** No whitespace at either end: what `str.strip()` returns. */
  predicate IsStripped(s: string) {
    s == [] || (!IsSpace(s[0]) && !IsSpace(s[|s| - 1]))
  }

  /** Number of whitespace characters that start `s`. */
  function LeadingSpace(s: string): (k: nat)
    ensures k <= |s| && AllSpace(s[..k])
    ensures k < |s| ==> !IsSpace(s[k])
  {
    if s == [] || !IsSpace(s[0]) then 0
    else
      var k := 1 + LeadingSpace(s[1..]);
      assert s[..k] == [s[0]] + s[1..][..k - 1];
      k
  }

  /** Length of `s` once its trailing whitespace is dropped. */
  function TrailingSpaceStart(s: string): (k: nat)
    ensures k <= |s| && AllSpace(s[k..])
    ensures k > 0 ==> !IsSpace(s[k - 1])
  {
    if s == [] || !IsSpace(s[|s| - 1]) then |s|
    else
      var k := TrailingSpaceStart(s[..|s| - 1]);
      assert s[k..] == s[..|s| - 1][k..] + [s[|s| - 1]];
      k
  }

  /** `str.strip()`: the middle of `s` once whitespace is cut from both ends. */
  function Strip(s: string): (r: string)
    ensures IsStripped(r)
  {
    var t := s[LeadingSpace(s)..];
    t[..TrailingSpaceStart(t)]
  }

  /** What `str.strip()` returns is a piece of its argument with nothing but
      whitespace on either side of it, and it is empty exactly when the
      argument is blank. */
  lemma StripSpec(s: string)
    ensures exists i :: (0 <= i <= |s| - |Strip(s)| && Strip(s) == s[i..i + |Strip(s)|]
                         && AllSpace(s[..i]) && AllSpace(s[i + |Strip(s)|..]))
    ensures Strip(s) == [] <==> AllSpace(s)
  {
    StripPiece(s);
    StripBlank(s);
  }

  lemma StripPiece(s: string)
    ensures Strip(s) == s[LeadingSpace(s)..LeadingSpace(s) + |Strip(s)|]
    ensures AllSpace(s[..LeadingSpace(s)]) && AllSpace(s[LeadingSpace(s) + |Strip(s)|..])
  {
    var i := LeadingSpace(s);
    var t := s[i..];
    var j := TrailingSpaceStart(t);
    assert Strip(s) == t[..j];
    assert s[i..i + j] == t[..j] && s[i + j..] == t[j..];
  }

  lemma StripBlank(s: string)
    ensures Strip(s) == [] <==> AllSpace(s)
  {
    var i := LeadingSpace(s);
    var t := s[i..];
    var j := TrailingSpaceStart(t);
    assert Strip(s) == t[..j];
    if AllSpace(s) {
      assert i == |s|;
    }
    if Strip(s) == [] {
      assert s[..i] == s;
    }
  }

  /** Stripping a string that is already stripped leaves it as it is. */
  lemma StripOfStripped(s: string)
    requires IsStripped(s)
    ensures Strip(s) == s
  {
    assert LeadingSpace(s) == 0;
    assert s[0..] == s;
    assert TrailingSpaceStart(s) == |s|;
  }

  /** Python's `w in s` on strings: `w` occurs in `s` as a contiguous piece. */
  predicate Contains(s: string, w: string) {
    exists i :: 0 <= i <= |s| && OccursAt(s, w, i)
  }

  /** `w` occurs in `s` starting at position `i`. */
  predicate OccursAt(s: string, w: string, i: nat) {
    i + |w| <= |s| && s[i..i + |w|] == w
  }
}
