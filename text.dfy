/**
 * Character classes, trimming and decimal integer text shared by the
 * statement splitter, the deserializer, the parameter encoder and the
 * credential parser. Every function here mirrors a Rust standard-library
 * operation that the modelled code calls.
 */
module Text {

  import opened Wrappers

  /** Rust's `char::is_whitespace`: the Unicode White_Space property. */
  predicate IsWhitespace(c: char) {
    ('\U{0009}' <= c <= '\U{000D}') || c == ' ' || c == '\U{0085}' || c == '\U{00A0}'
    || c == '\U{1680}' || ('\U{2000}' <= c <= '\U{200A}') || c == '\U{2028}'
    || c == '\U{2029}' || c == '\U{202F}' || c == '\U{205F}' || c == '\U{3000}'
  }

  /** `char::is_digit(10)`. */
  predicate IsDigit(c: char) {
    '0' <= c <= '9'
  }

  /** `char::is_alphabetic`, restricted to ASCII letters. */
  predicate IsAlphabetic(c: char) {
    ('a' <= c <= 'z') || ('A' <= c <= 'Z')
  }

  /** `char::is_alphanumeric`, restricted to ASCII letters and digits. */
  predicate IsAlphanumeric(c: char) {
    IsAlphabetic(c) || IsDigit(c)
  }

  /** A character that UTF-8 encodes as a single byte. */
  predicate IsAscii(c: char) {
    c < '\U{0080}'
  }

  predicate IsPrefix(p: string, s: string) {
    |p| <= |s| && s[..|p|] == p
  }

  /** `needle` occurs in `s` starting at index `i`. */
  predicate OccursAt(s: string, needle: string, i: int) {
    0 <= i <= |s| - |needle| && s[i..i + |needle|] == needle
  }

  /** `str::contains` for a string needle. */
  predicate Contains(s: string, needle: string) {
    exists i | 0 <= i <= |s| - |needle| :: OccursAt(s, needle, i)
  }

  /** The first index at or after `i` whose character is not in `cs` (or the end). */
  function SkipForward(s: string, i: nat, cs: iset<char>): (n: nat)
    requires i <= |s|
    ensures i <= n <= |s|
    ensures forall k :: i <= k < n ==> s[k] in cs
    ensures n < |s| ==> s[n] !in cs
    decreases |s| - i
  {
    if i == |s| || s[i] !in cs then i else SkipForward(s, i + 1, cs)
  }

  /** The least index `n <= j` such that all of `s[n..j]` is in `cs`. */
  function SkipBackward(s: string, j: nat, cs: iset<char>): (n: nat)
    requires j <= |s|
    ensures n <= j
    ensures forall k :: n <= k < j ==> s[k] in cs
    ensures n > 0 ==> s[n - 1] !in cs
    decreases j
  {
    if j == 0 || s[j - 1] !in cs then j else SkipBackward(s, j - 1, cs)
  }

  /** The characters of Rust's `char::is_whitespace`. */
  const Whitespace: iset<char> := iset c | IsWhitespace(c)

  /** `str::trim_start`: the longest suffix that does not start with white space. */
  function TrimStart(s: string): (r: string)
    ensures |r| <= |s|
    ensures r == [] || !IsWhitespace(r[0])
    ensures forall i :: 0 <= i < |s| - |r| ==> IsWhitespace(s[i])
  {
    s[SkipForward(s, 0, Whitespace)..]
  }

  /** What `str::trim_start` returns is a suffix of its argument. */
  lemma TrimStartIsSuffix(s: string)
    ensures TrimStart(s) == s[|s| - |TrimStart(s)|..]
  {
  }

  /** `str::trim_end`. */
  function TrimEnd(s: string): (r: string)
    ensures |r| <= |s| && r == s[..|r|]
    ensures r == [] || !IsWhitespace(r[|r| - 1])
    ensures forall i :: |r| <= i < |s| ==> IsWhitespace(s[i])
  {
    s[..SkipBackward(s, |s|, Whitespace)]
  }

  /** `str::trim`: the text between the leading and the trailing white space. */
  function Trim(s: string): (r: string)
    ensures r == [] || (!IsWhitespace(r[0]) && !IsWhitespace(r[|r| - 1]))
    ensures exists i :: OccursAt(s, r, i) && (forall k :: 0 <= k < i ==> IsWhitespace(s[k]))
                        && (forall k :: i + |r| <= k < |s| ==> IsWhitespace(s[k]))
  {
    var t := TrimStart(s);
    var r := TrimEnd(t);
    var i := |s| - |t|;
    TrimStartIsSuffix(s);
    Infix(s, i, t, r);
    assert OccursAt(s, r, i) && (forall k :: 0 <= k < i ==> IsWhitespace(s[k]))
           && (forall k :: i + |r| <= k < |s| ==> IsWhitespace(s[k]));
    r
  }

  /** A prefix `r` of the suffix `t` of `s` that starts at `i` occurs in `s` at `i`, and `t` goes on as `s` does. */
  lemma Infix(s: string, i: nat, t: string, r: string)
    requires i <= |s| && t == s[i..] && |r| <= |t| && r == t[..|r|]
    ensures OccursAt(s, r, i)
    ensures forall k :: i + |r| <= k < |s| ==> s[k] == t[k - i]
  {
  }

  /** The leading half of `str::trim_matches` with a set of characters as the pattern. */
  function TrimStartMatches(s: string, cs: set<char>): (r: string)
    ensures |r| <= |s| && r == s[|s| - |r|..]
    ensures r == [] || r[0] !in cs
    ensures forall i :: 0 <= i < |s| - |r| ==> s[i] in cs
  {
    s[SkipForward(s, 0, iset c | c in cs)..]
  }

  /** The trailing half of `str::trim_matches`. */
  function TrimEndMatches(s: string, cs: set<char>): (r: string)
    ensures |r| <= |s| && r == s[..|r|]
    ensures r == [] || r[|r| - 1] !in cs
    ensures forall i :: |r| <= i < |s| ==> s[i] in cs
  {
    s[..SkipBackward(s, |s|, iset c | c in cs)]
  }

  /** `str::trim_matches` with a set of characters as the pattern: the text between the leading and trailing runs of `cs`. */
  function TrimMatches(s: string, cs: set<char>): (r: string)
    ensures r == [] || (r[0] !in cs && r[|r| - 1] !in cs)
    ensures exists i :: OccursAt(s, r, i) && (forall k :: 0 <= k < i ==> s[k] in cs)
                        && (forall k :: i + |r| <= k < |s| ==> s[k] in cs)
  {
    var t := TrimStartMatches(s, cs);
    var r := TrimEndMatches(t, cs);
    var i := |s| - |t|;
    Infix(s, i, t, r);
    assert OccursAt(s, r, i) && (forall k :: 0 <= k < i ==> s[k] in cs) && (forall k :: i + |r| <= k < |s| ==> s[k] in cs);
    r
  }

  // ---------------------------------------------------------------------
  // Pieces of text separated by white space

  /** `g0 + s0 + g1 + s1 + ... + gn`: pieces of text with the text that precedes each. */
  function Interleave(gaps: seq<string>, pieces: seq<string>): string
    requires |gaps| == |pieces| + 1
    decreases |pieces|
  {
    if pieces == [] then gaps[0] else gaps[0] + pieces[0] + Interleave(gaps[1..], pieces[1..])
  }

  predicate AllWhitespace(w: string) {
    forall i :: 0 <= i < |w| ==> IsWhitespace(w[i])
  }

  /** The gaps between the pieces are white space and put the text back together. */
  predicate Reassembles(gaps: seq<string>, pieces: seq<string>, text: string) {
    && |gaps| == |pieces| + 1
    && (forall i :: 0 <= i < |gaps| ==> AllWhitespace(gaps[i]))
    && Interleave(gaps, pieces) == text
  }

  /** The white space `str::trim_start` drops, which together with what it keeps is the input. */
  function LeadingWhitespace(s: string): (w: string)
    ensures AllWhitespace(w) && w + TrimStart(s) == s
  {
    TrimStartIsSuffix(s);
    s[..|s| - |TrimStart(s)|]
  }

  lemma ReassemblesCons(w: string, piece: string, rest: string, g: seq<string>, others: seq<string>)
    requires AllWhitespace(w) && Reassembles(g, others, rest)
    ensures Reassembles([w] + g, [piece] + others, w + (piece + rest))
  {
    var gaps := [w] + g;
    var all := [piece] + others;
    assert gaps[1..] == g && all[1..] == others;
    assert forall i :: 0 <= i < |gaps| ==> AllWhitespace(gaps[i]) by {
      forall i | 0 <= i < |gaps|
        ensures AllWhitespace(gaps[i])
      {
        if i > 0 {
          assert gaps[i] == g[i - 1];
        }
      }
    }
    assert (w + piece) + rest == w + (piece + rest);
  }

  // ---------------------------------------------------------------------
  // Decimal text of integers

  function DigitChar(d: nat): (c: char)
    requires d < 10
    ensures IsDigit(c)
  {
    ['0', '1', '2', '3', '4', '5', '6', '7', '8', '9'][d]
  }

  function DigitValue(c: char): (d: nat)
    requires IsDigit(c)
    ensures d < 10
  {
    (c as int) - ('0' as int)
  }

  /** The decimal digits of a natural number, without leading zeros. */
  function NatString(n: nat): (r: string)
    ensures |r| > 0 && forall i :: 0 <= i < |r| ==> IsDigit(r[i])
    ensures n > 0 ==> r[0] != '0'
    decreases n
  {
    if n < 10 then [DigitChar(n)] else NatString(n / 10) + [DigitChar(n % 10)]
  }

  /** `to_string()` of an integer: an optional minus sign and the digits, denoting the integer. */
  function DecimalString(n: int): (r: string)
    ensures IsIntegerText(r) && IntegerValue(r) == n
    ensures r[0] == '-' <==> n < 0
    ensures r[0] != '+'
  {
    var digits := NatString(if n < 0 then -n else n);
    DigitsValueOfNatString(if n < 0 then -n else n);
    DigitsText(digits);
    if n < 0 then "-" + digits else digits
  }

  /** A run of digits is integer text, and so is the run after a minus sign; they denote its value and its negation. */
  lemma DigitsText(digits: string)
    requires |digits| > 0 && AllDigits(digits)
    ensures IsIntegerText(digits) && IntegerValue(digits) == DigitsValue(digits)
    ensures IsIntegerText("-" + digits) && IntegerValue("-" + digits) == -(DigitsValue(digits) as int)
  {
    assert ("-" + digits)[1..] == digits;
  }

  /** The value of a non-empty run of decimal digits, read left to right. */
  function DigitsValue(s: string): nat
    requires forall i :: 0 <= i < |s| ==> IsDigit(s[i])
    decreases |s|
  {
    if s == [] then 0 else DigitsValue(s[..|s| - 1]) * 10 + DigitValue(s[|s| - 1])
  }

  predicate AllDigits(s: string) {
    forall i :: 0 <= i < |s| ==> IsDigit(s[i])
  }

  const I64Min: int := -0x8000_0000_0000_0000
  const I64Max: int := 0x7FFF_FFFF_FFFF_FFFF
  const U64Max: int := 0xFFFF_FFFF_FFFF_FFFF

  /** A sign character that `str::parse` accepts in front of the digits. */
  predicate IsSign(c: char) {
    c == '+' || c == '-'
  }

  /** Integer text: an optional sign followed by one or more ASCII digits, and nothing else. */
  predicate IsIntegerText(s: string) {
    |s| > 0 && (if IsSign(s[0]) then |s| > 1 && AllDigits(s[1..]) else AllDigits(s))
  }

  /** The number an integer text denotes: its digits' value, negated after a `-`. */
  function IntegerValue(s: string): int
    requires IsIntegerText(s)
  {
    if s[0] == '-' then -(DigitsValue(s[1..]) as int)
    else if s[0] == '+' then DigitsValue(s[1..])
    else DigitsValue(s)
  }

  /**
   * `str::parse::<i64>()`: an optional `+` or `-`, then one or more ASCII
   * digits and nothing else, and a value inside the 64-bit signed range.
   * None stands for the `Err` that the deserializer unwraps.
   */
  function ParseI64(s: string): (r: Option<int>)
    ensures r.Some? <==> IsIntegerText(s) && I64Min <= IntegerValue(s) <= I64Max
    ensures r.Some? ==> r.value == IntegerValue(s)
  {
    var negative := |s| > 0 && s[0] == '-';
    var digits := if |s| > 0 && (s[0] == '-' || s[0] == '+') then s[1..] else s;
    if digits == [] || !AllDigits(digits) then None
    else
      var magnitude := DigitsValue(digits);
      var v: int := if negative then -(magnitude as int) else magnitude;
      if I64Min <= v <= I64Max then Some(v) else None
  }

  /**
   * `str::parse::<u64>()`, used only by the corrected integer decoder: as
   * for `i64`, but a `-` is not a sign (so even `-0` fails) and the value
   * must lie in the 64-bit unsigned range.
   */
  function ParseU64(s: string): (r: Option<int>)
    ensures r.Some? <==> IsIntegerText(s) && s[0] != '-' && IntegerValue(s) <= U64Max
    ensures r.Some? ==> r.value == IntegerValue(s)
  {
    var digits := if |s| > 0 && s[0] == '+' then s[1..] else s;
    if digits == [] || !AllDigits(digits) then None
    else
      var v := DigitsValue(digits);
      if v <= U64Max then Some(v) else None
  }

  lemma {:induction false} DigitsValueOfNatString(n: nat)
    ensures DigitsValue(NatString(n)) == n
    decreases n
  {
    if n >= 10 {
      var p := NatString(n / 10);
      var s := p + [DigitChar(n % 10)];
      assert s[..|s| - 1] == p;
      DigitsValueOfNatString(n / 10);
    }
  }

  /** Reading back the decimal text of any 64-bit signed value gives that value. */
  lemma ParseI64OfDecimalString(n: int)
    requires I64Min <= n <= I64Max
    ensures ParseI64(DecimalString(n)) == Some(n)
  {
    var m: nat := if n < 0 then -n else n;
    var digits := NatString(m);
    DigitsValueOfNatString(m);
    assert IsDigit(digits[0]);
    if n < 0 {
      var s := "-" + digits;
      assert s[1..] == digits;
      assert s[0] == '-';
    }
  }

  /** Reading back the decimal text of any 64-bit unsigned value gives that value. */
  lemma ParseU64OfDecimalString(n: int)
    requires 0 <= n <= U64Max
    ensures ParseU64(DecimalString(n)) == Some(n)
  {
    DigitsValueOfNatString(n);
  }
}
