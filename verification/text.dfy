/** Strings as the source treats them: Python's `in` on `str`, JavaScript's `trim`, `str(n)`. */
module Text {

  /** Python's `keyword in text`: a case-sensitive substring test; the empty string is in every text. */
  predicate IsSubstring(keyword: string, text: string): (b: bool)
    ensures b ==> |keyword| <= |text|
    ensures keyword == [] ==> b
    ensures keyword == text ==> b
  {
    assert keyword == text ==> OccursAt(keyword, text, 0);
    assert keyword == [] ==> text[0..0] == keyword && OccursAt(keyword, text, 0);
    exists i | 0 <= i <= |text| - |keyword| :: OccursAt(keyword, text, i)
  }

  /** `keyword` occurs in `text` starting at position `i`. */
  predicate OccursAt(keyword: string, text: string, i: int) {
    0 <= i <= |text| - |keyword| && text[i..i + |keyword|] == keyword
  }

  /** A keyword that starts with a character absent from the text does not occur in it. */
  lemma AbsentFirstChar(keyword: string, text: string)
    requires keyword != [] && keyword[0] !in text
    ensures !IsSubstring(keyword, text)
  {
    forall i | 0 <= i <= |text| - |keyword| ensures !OccursAt(keyword, text, i) {
      assert text[i..i + |keyword|][0] == text[i];
    }
  }

  /** The characters JavaScript's `String.prototype.trim` removes: WhiteSpace and LineTerminator. */
  predicate IsWhitespace(c: char) {
    || c == ' ' || c == '\t' || c == '\n' || c == '\r' || c == '\U{000B}' || c == '\U{000C}'
    || c == '\U{00A0}' || c == '\U{1680}' || ('\U{2000}' <= c <= '\U{200A}')
    || c == '\U{2028}' || c == '\U{2029}' || c == '\U{202F}' || c == '\U{205F}'
    || c == '\U{3000}' || c == '\U{FEFF}'
  }

  /** The first position at or after `i` that does not hold whitespace, or `|s|`. */
  function SkipLeading(s: string, i: nat): (k: nat)
    requires i <= |s|
    ensures i <= k <= |s|
    ensures forall j :: i <= j < k ==> IsWhitespace(s[j])
    ensures k == |s| || !IsWhitespace(s[k])
    decreases |s| - i
  {
    if i < |s| && IsWhitespace(s[i]) then SkipLeading(s, i + 1) else i
  }

  /** The end of `s[lo..hi]` once its trailing whitespace is dropped. */
  function SkipTrailing(s: string, lo: nat, hi: nat): (k: nat)
    requires lo <= hi <= |s|
    ensures lo <= k <= hi
    ensures forall j :: k <= j < hi ==> IsWhitespace(s[j])
    ensures k == lo || !IsWhitespace(s[k - 1])
  {
    if hi > lo && IsWhitespace(s[hi - 1]) then SkipTrailing(s, lo, hi - 1) else hi
  }

  /** `r` is `s[lo..hi]`, and everything of `s` outside that slice is whitespace. */
  predicate StripsTo(s: string, lo: int, hi: int, r: string) {
    && 0 <= lo <= hi <= |s|
    && r == s[lo..hi]
    && (forall j :: 0 <= j < lo ==> IsWhitespace(s[j]))
    && (forall j :: hi <= j < |s| ==> IsWhitespace(s[j]))
  }

  /** `s.trim()`: the slice of `s` between its leading and its trailing whitespace. */
  function Trim(s: string): (r: string)
    ensures exists lo, hi :: StripsTo(s, lo, hi, r)
    ensures IsSubstring(r, s)
    ensures r == [] <==> forall i :: 0 <= i < |s| ==> IsWhitespace(s[i])
    ensures r != [] ==> !IsWhitespace(r[0]) && !IsWhitespace(r[|r| - 1])
  {
    var lo := SkipLeading(s, 0);
    var hi := SkipTrailing(s, lo, |s|);
    assert StripsTo(s, lo, hi, s[lo..hi]);
    assert OccursAt(s[lo..hi], s, lo);
    s[lo..hi]
  }

  /** Trimming twice is trimming once. */
  lemma TrimIdempotent(s: string)
    ensures Trim(Trim(s)) == Trim(s)
  {
    var r := Trim(s);
    if r != [] {
      assert SkipLeading(r, 0) == 0;
      assert SkipTrailing(r, 0, |r|) == |r|;
      assert r[0..|r|] == r;
    }
  }

  /** The decimal digit for `d`. */
  function DigitChar(d: nat): (c: char)
    requires d < 10
    ensures '0' <= c <= '9' && c as int - '0' as int == d
  {
    ('0' as int + d) as char
  }

  /** The number a string of decimal digits denotes. */
  function DecimalValue(r: string): nat
    requires forall i :: 0 <= i < |r| ==> '0' <= r[i] <= '9'
  {
    if r == [] then 0
    else 10 * DecimalValue(r[..|r| - 1]) + (r[|r| - 1] as int - '0' as int)
  }

  /** Python's `str(n)` for a non-negative integer: decimal digits, no leading zero except for 0 itself. */
  function NatToString(n: nat): (r: string)
    ensures r != [] && forall i :: 0 <= i < |r| ==> '0' <= r[i] <= '9'
    ensures r[0] == '0' <==> n == 0
    ensures n == 0 ==> r == "0"
  {
    if n < 10 then [DigitChar(n)] else NatToString(n / 10) + [DigitChar(n % 10)]
  }

  /** The digits `str(n)` writes denote `n`. */
  lemma {:induction false} NatToStringValue(n: nat)
    ensures DecimalValue(NatToString(n)) == n
  {
    var r := NatToString(n);
    if n >= 10 {
      NatToStringValue(n / 10);
      assert r[..|r| - 1] == NatToString(n / 10);
    }
  }
}
