/**
 * UTF-8, as Rust's `str::as_bytes` produces it and `std::str::from_utf8`
 * checks it. Strings are sequences of Unicode scalar values.
 */
module Utf8 {

  import opened Wrappers

  type byte = x: int | 0 <= x < 256

  /** A continuation byte `10xxxxxx`. */
  predicate IsContinuation(b: byte) {
    0x80 <= b < 0xC0
  }

  /** The shortest UTF-8 form of one scalar value. */
  function EncodeChar(c: char): (b: seq<byte>)
    ensures 1 <= |b| <= 4
    ensures b[0] == 0 <==> c == '\0'
    ensures |b| == 1 <==> c as int < 0x80
    ensures forall i :: 1 <= i < |b| ==> IsContinuation(b[i])
  {
    var n := c as int;
    if n < 0x80 then [n]
    else if n < 0x800 then [0xC0 + n / 64, 0x80 + n % 64]
    else if n < 0x10000 then [0xE0 + n / 4096, 0x80 + (n / 64) % 64, 0x80 + n % 64]
    else [0xF0 + n / 262144, 0x80 + (n / 4096) % 64, 0x80 + (n / 64) % 64, 0x80 + n % 64]
  }

  /** `str::as_bytes`. */
  function Encode(s: string): (b: seq<byte>)
    ensures |b| >= |s|
    decreases |s|
  {
    if s == [] then [] else EncodeChar(s[0]) + Encode(s[1..])
  }

  /**
   * The scalar value at the head of `b` and the number of bytes it takes,
   * or None when the head is not well-formed UTF-8 (a stray continuation
   * byte, a truncated sequence, an overlong form, a surrogate or a value
   * above U+10FFFF).
   */
  function DecodeChar(b: seq<byte>): (r: Option<(char, nat)>)
    requires |b| > 0
    ensures r.Some? ==> 1 <= r.value.1 <= |b| && r.value.1 <= 4
  {
    var b0: int := b[0];
    if b0 < 0x80 then Some((b0 as char, 1))
    else if 0xC2 <= b0 < 0xE0 && |b| >= 2 && IsContinuation(b[1]) then
      Some((Two(b0, b[1]) as char, 2))
    else if 0xE0 <= b0 < 0xF0 && |b| >= 3 && IsContinuation(b[1]) && IsContinuation(b[2]) then
      var cp := Three(b0, b[1], b[2]);
      if 0x800 <= cp && !(0xD800 <= cp < 0xE000) then Some((cp as char, 3)) else None
    else if 0xF0 <= b0 < 0xF5 && |b| >= 4 && IsContinuation(b[1]) && IsContinuation(b[2]) && IsContinuation(b[3]) then
      var cp := Four(b0, b[1], b[2], b[3]);
      if 0x10000 <= cp < 0x110000 then Some((cp as char, 4)) else None
    else None
  }

  /** The scalar value of a two-byte form. */
  function Two(b0: int, b1: int): (cp: int)
    requires 0xC2 <= b0 < 0xE0 && 0x80 <= b1 < 0xC0
    ensures 0x80 <= cp < 0x800
  {
    (b0 - 0xC0) * 64 + (b1 - 0x80)
  }

  /** The scalar value of a three-byte form. */
  function Three(b0: int, b1: int, b2: int): (cp: int)
    requires 0xE0 <= b0 < 0xF0 && 0x80 <= b1 < 0xC0 && 0x80 <= b2 < 0xC0
    ensures 0 <= cp < 0x10000
  {
    (b0 - 0xE0) * 4096 + (b1 - 0x80) * 64 + (b2 - 0x80)
  }

  /** The scalar value of a four-byte form. */
  function Four(b0: int, b1: int, b2: int, b3: int): (cp: int)
    requires 0xF0 <= b0 < 0xF5 && 0x80 <= b1 < 0xC0 && 0x80 <= b2 < 0xC0 && 0x80 <= b3 < 0xC0
    ensures 0 <= cp
  {
    (b0 - 0xF0) * 262144 + (b1 - 0x80) * 4096 + (b2 - 0x80) * 64 + (b3 - 0x80)
  }

  /** `std::str::from_utf8`: None stands for the `Utf8Error`. */
  function Decode(b: seq<byte>): (r: Option<string>)
    ensures r.Some? ==> |r.value| <= |b|
    decreases |b|
  {
    if b == [] then Some([])
    else
      match DecodeChar(b)
      case None => None
      case Some((c, k)) =>
        match Decode(b[k..])
        case None => None
        case Some(rest) => Some([c] + rest)
  }

  /** Each scalar value is read back from its own encoding, whatever follows it. */
  lemma DecodeEncodeChar(c: char, rest: seq<byte>)
    ensures DecodeChar(EncodeChar(c) + rest) == Some((c, |EncodeChar(c)|))
  {
    var n := c as int;
    var e := EncodeChar(c);
    var b := e + rest;
    assert b[..|e|] == e;
    if n < 0x80 {
    } else if n < 0x800 {
      TwoOfParts(n);
    } else if n < 0x10000 {
      ThreeOfParts(n);
      assert !(0xD800 <= n < 0xE000);
    } else {
      FourOfParts(n);
    }
  }

  lemma TwoOfParts(n: int)
    requires 0x80 <= n < 0x800
    ensures 0xC2 <= 0xC0 + n / 64 < 0xE0 && Two(0xC0 + n / 64, 0x80 + n % 64) == n
  {
  }

  lemma ThreeOfParts(n: int)
    requires 0x800 <= n < 0x10000
    ensures 0xE0 <= 0xE0 + n / 4096 < 0xF0
    ensures Three(0xE0 + n / 4096, 0x80 + (n / 64) % 64, 0x80 + n % 64) == n
  {
    assert n / 64 == (n / 4096) * 64 + (n / 64) % 64;
  }

  lemma FourOfParts(n: int)
    requires 0x10000 <= n < 0x110000
    ensures 0xF0 <= 0xF0 + n / 262144 < 0xF5
    ensures Four(0xF0 + n / 262144, 0x80 + (n / 4096) % 64, 0x80 + (n / 64) % 64, 0x80 + n % 64) == n
  {
    assert n / 4096 == (n / 262144) * 64 + (n / 4096) % 64;
    assert n / 64 == (n / 4096) * 64 + (n / 64) % 64;
  }

  /** Decoding undoes encoding: `from_utf8(s.as_bytes())` is `Ok(s)`. */
  lemma {:induction false} DecodeEncode(s: string)
    ensures Decode(Encode(s)) == Some(s)
    decreases |s|
  {
    if s != [] {
      var e := EncodeChar(s[0]);
      DecodeEncodeChar(s[0], Encode(s[1..]));
      assert (e + Encode(s[1..]))[|e|..] == Encode(s[1..]);
      DecodeEncode(s[1..]);
      assert [s[0]] + s[1..] == s;
    }
  }

  /** A well-formed head is the encoding of the value it decodes to. */
  lemma EncodeDecodeChar(b: seq<byte>)
    requires |b| > 0 && DecodeChar(b).Some?
    ensures b[..DecodeChar(b).value.1] == EncodeChar(DecodeChar(b).value.0)
  {
    var b0: int := b[0];
    if b0 < 0x80 {
    } else if 0xC2 <= b0 < 0xE0 && |b| >= 2 && IsContinuation(b[1]) {
      PartsOfTwo(b0, b[1]);
    } else if 0xE0 <= b0 < 0xF0 && |b| >= 3 && IsContinuation(b[1]) && IsContinuation(b[2]) {
      PartsOfThree(b0, b[1], b[2]);
    } else {
      PartsOfFour(b0, b[1], b[2], b[3]);
    }
  }

  lemma PartsOfTwo(b0: int, b1: int)
    requires 0xC2 <= b0 < 0xE0 && 0x80 <= b1 < 0xC0
    ensures 0xC0 + Two(b0, b1) / 64 == b0 && 0x80 + Two(b0, b1) % 64 == b1
  {
  }

  lemma PartsOfThree(b0: int, b1: int, b2: int)
    requires 0xE0 <= b0 < 0xF0 && 0x80 <= b1 < 0xC0 && 0x80 <= b2 < 0xC0
    ensures var cp := Three(b0, b1, b2);
      0xE0 + cp / 4096 == b0 && 0x80 + (cp / 64) % 64 == b1 && 0x80 + cp % 64 == b2
  {
    var cp := Three(b0, b1, b2);
    assert cp / 64 == (b0 - 0xE0) * 64 + (b1 - 0x80);
  }

  lemma PartsOfFour(b0: int, b1: int, b2: int, b3: int)
    requires 0xF0 <= b0 < 0xF5 && 0x80 <= b1 < 0xC0 && 0x80 <= b2 < 0xC0 && 0x80 <= b3 < 0xC0
    ensures var cp := Four(b0, b1, b2, b3);
      0xF0 + cp / 262144 == b0 && 0x80 + (cp / 4096) % 64 == b1
      && 0x80 + (cp / 64) % 64 == b2 && 0x80 + cp % 64 == b3
  {
    var cp := Four(b0, b1, b2, b3);
    assert cp / 64 == (b0 - 0xF0) * 4096 + (b1 - 0x80) * 64 + (b2 - 0x80);
    assert cp / 4096 == (b0 - 0xF0) * 64 + (b1 - 0x80);
  }

  /** Whatever `from_utf8` accepts is the encoding of the string it returns. */
  lemma {:induction false} EncodeDecode(b: seq<byte>)
    requires Decode(b).Some?
    ensures Encode(Decode(b).value) == b
    decreases |b|
  {
    if b != [] {
      var k := DecodeCons(b);
      var s := Decode(b).value;
      EncodeDecodeChar(b);
      EncodeDecode(b[k..]);
      EncodeCons(s);
      Glue(b, k, EncodeChar(s[0]), Encode(s[1..]), Encode(s));
    }
  }

  /** A sequence is its first `k` elements followed by the rest. */
  lemma Glue(b: seq<byte>, k: nat, e: seq<byte>, r: seq<byte>, whole: seq<byte>)
    requires k <= |b| && b[..k] == e && b[k..] == r && whole == e + r
    ensures whole == b
  {
    assert b == b[..k] + b[k..];
  }

  /** A non-empty accepted sequence is a well-formed head followed by an accepted rest. */
  lemma DecodeCons(b: seq<byte>) returns (k: nat)
    requires b != [] && Decode(b).Some?
    ensures DecodeChar(b).Some? && k == DecodeChar(b).value.1 && k <= |b|
    ensures Decode(b[k..]).Some?
    ensures var s := Decode(b).value; s != [] && s[0] == DecodeChar(b).value.0 && s[1..] == Decode(b[k..]).value
  {
    k := DecodeChar(b).value.1;
    assert ([DecodeChar(b).value.0] + Decode(b[k..]).value)[1..] == Decode(b[k..]).value;
  }

  /** The encoding of a non-empty string is its head's encoding followed by the rest's. */
  lemma EncodeCons(s: string)
    requires s != []
    ensures Encode(s) == EncodeChar(s[0]) + Encode(s[1..])
  {
  }

  /** `from_utf8` accepts exactly the encodings of strings, and nothing else. */
  lemma DecodeIff(b: seq<byte>, s: string)
    ensures Decode(b) == Some(s) <==> b == Encode(s)
  {
    if b == Encode(s) {
      DecodeEncode(s);
    }
    if Decode(b) == Some(s) {
      EncodeDecode(b);
    }
  }

  /** The encoding holds a zero byte exactly where the string holds U+0000. */
  lemma {:induction false} EncodeZero(s: string)
    ensures 0 in Encode(s) <==> '\0' in s
    decreases |s|
  {
    if s != [] {
      EncodeZero(s[1..]);
      var e := EncodeChar(s[0]);
      assert 0 in e <==> s[0] == '\0';
      assert s == [s[0]] + s[1..];
    }
  }

  /** ASCII text encodes byte for byte. */
  lemma {:induction false} EncodeAscii(s: string)
    requires forall i :: 0 <= i < |s| ==> s[i] as int < 0x80
    ensures |Encode(s)| == |s|
    ensures forall i :: 0 <= i < |s| ==> Encode(s)[i] == s[i] as int
    decreases |s|
  {
    if s != [] {
      EncodeAscii(s[1..]);
    }
  }
}
