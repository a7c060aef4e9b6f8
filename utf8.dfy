/**
 * Go's conversions between `string` and `[]byte`: a string of code points
 * becomes its UTF-8 encoding, and the encoding decodes back to the string.
 */
module Utf8 {
  import opened Values

  /** True of the code points Dafny's `char` holds: the Unicode scalar values. */
  predicate IsScalarValue(n: int) {
    (0 <= n < 0xD800) || (0xE000 <= n < 0x11_0000)
  }

  lemma CharIsScalarValue(c: char)
    ensures IsScalarValue(c as int)
  {
  }

  /** The one to four bytes that encode a code point. */
  function EncodeChar(c: char): (r: seq<uint8>)
    ensures 1 <= |r| <= 4
  {
    CharIsScalarValue(c);
    var n := c as int;
    if n < 0x80 then [n]
    else if n < 0x800 then [0xC0 + n / 0x40, 0x80 + n % 0x40]
    else if n < 0x1_0000 then [0xE0 + n / 0x1000, 0x80 + (n / 0x40) % 0x40, 0x80 + n % 0x40]
    else [0xF0 + n / 0x4_0000, 0x80 + (n / 0x1000) % 0x40, 0x80 + (n / 0x40) % 0x40, 0x80 + n % 0x40]
  }

  /** `[]byte(s)`. */
  function Encode(s: string): (r: seq<uint8>)
    ensures |s| <= |r| <= 4 * |s|
  {
    if |s| == 0 then [] else EncodeChar(s[0]) + Encode(s[1..])
  }

  predicate IsContinuation(b: uint8) {
    0x80 <= b < 0xC0
  }

  /** The code point at the start of `b` and the number of bytes it takes, if `b` starts with one. */
  function DecodeChar(b: seq<uint8>): (r: Option<(char, nat)>)
    ensures r.Some? ==> 1 <= r.value.1 <= |b|
  {
    if |b| == 0 then None
    else if b[0] < 0x80 then Some((b[0] as char, 1))
    else if 0xC0 <= b[0] < 0xE0 && |b| >= 2 && IsContinuation(b[1]) then
      var n := (b[0] as int - 0xC0) * 0x40 + (b[1] as int - 0x80);
      if 0x80 <= n then Some((n as char, 2)) else None
    else if 0xE0 <= b[0] < 0xF0 && |b| >= 3 && IsContinuation(b[1]) && IsContinuation(b[2]) then
      var n := (b[0] as int - 0xE0) * 0x1000 + (b[1] as int - 0x80) * 0x40 + (b[2] as int - 0x80);
      if 0x800 <= n && IsScalarValue(n) then Some((n as char, 3)) else None
    else if 0xF0 <= b[0] < 0xF8 && |b| >= 4 && IsContinuation(b[1]) && IsContinuation(b[2])
            && IsContinuation(b[3]) then
      var n := (b[0] as int - 0xF0) * 0x4_0000 + (b[1] as int - 0x80) * 0x1000
               + (b[2] as int - 0x80) * 0x40 + (b[3] as int - 0x80);
      if 0x1_0000 <= n && IsScalarValue(n) then Some((n as char, 4)) else None
    else None
  }

  /** `string(b)` on well-formed UTF-8; None where `b` is not well formed. */
  function Decode(b: seq<uint8>): Option<string>
    decreases |b|
  {
    if |b| == 0 then Some("")
    else match DecodeChar(b)
      case None => None
      case Some((c, k)) =>
        match Decode(b[k..])
        case None => None
        case Some(rest) => Some([c] + rest)
  }

  lemma DecodeEncodeChar(c: char, rest: seq<uint8>)
    ensures DecodeChar(EncodeChar(c) + rest) == Some((c, |EncodeChar(c)|))
  {
    CharIsScalarValue(c);
    var n := c as int;
    if n < 0x80 {
    } else if n < 0x800 {
      DecodeTwoBytes(c, rest);
    } else if n < 0x1_0000 {
      DecodeThreeBytes(c, rest);
    } else {
      DecodeFourBytes(c, rest);
    }
  }

  lemma DecodeTwoBytes(c: char, rest: seq<uint8>)
    requires 0x80 <= c as int < 0x800
    ensures DecodeChar(EncodeChar(c) + rest) == Some((c, 2))
  {
    var n := c as int;
    var b := EncodeChar(c) + rest;
    assert b[0] as int - 0xC0 == n / 0x40 && b[1] as int - 0x80 == n % 0x40;
    assert (n / 0x40) * 0x40 + n % 0x40 == n;
  }

  lemma DecodeThreeBytes(c: char, rest: seq<uint8>)
    requires 0x800 <= c as int < 0x1_0000
    ensures DecodeChar(EncodeChar(c) + rest) == Some((c, 3))
  {
    CharIsScalarValue(c);
    var n := c as int;
    var b := EncodeChar(c) + rest;
    var q := n / 0x40;
    assert b[0] as int - 0xE0 == q / 0x40 && b[1] as int - 0x80 == q % 0x40 && b[2] as int - 0x80 == n % 0x40 by {
      assert n / 0x1000 == q / 0x40;
    }
    assert (q / 0x40) * 0x40 + q % 0x40 == q;
    assert q * 0x40 + n % 0x40 == n;
  }

  lemma DecodeFourBytes(c: char, rest: seq<uint8>)
    requires 0x1_0000 <= c as int
    ensures DecodeChar(EncodeChar(c) + rest) == Some((c, 4))
  {
    CharIsScalarValue(c);
    var n := c as int;
    var b := EncodeChar(c) + rest;
    var q := n / 0x40;
    var p := q / 0x40;
    assert b[0] as int - 0xF0 == p / 0x40 && b[1] as int - 0x80 == p % 0x40
      && b[2] as int - 0x80 == q % 0x40 && b[3] as int - 0x80 == n % 0x40 by {
      assert n / 0x1000 == p;
      assert n / 0x4_0000 == p / 0x40;
    }
    assert (p / 0x40) * 0x40 + p % 0x40 == p;
    assert p * 0x40 + q % 0x40 == q;
    assert q * 0x40 + n % 0x40 == n;
  }

  /** Decoding the bytes of a string gives the string back. */
  lemma {:induction false} DecodeEncode(s: string)
    ensures Decode(Encode(s)) == Some(s)
  {
    if |s| > 0 {
      var e := EncodeChar(s[0]);
      var b := Encode(s);
      assert b == e + Encode(s[1..]);
      DecodeEncodeChar(s[0], Encode(s[1..]));
      assert b[|e|..] == Encode(s[1..]);
      DecodeEncode(s[1..]);
      assert s == [s[0]] + s[1..];
    }
  }
}
