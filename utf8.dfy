/**
 * `std::str::from_utf8`: the option bytes of the device id are text only when
 * they are well-formed UTF-8 (Table 3-7 of the Unicode Standard: no overlong
 * forms, no surrogates, nothing above U+10FFFF, no truncated sequence).
 */
module Utf8 {
  import opened Types
  import opened Wrappers

  predicate IsCont(b: byte) {
    0x80 <= b <= 0xBF
  }

  /** Code points a `char` can hold: the Unicode scalar values. */
  predicate IsScalar(cp: int) {
    0 <= cp < 0xD800 || 0xE000 <= cp < 0x11_0000
  }

  /** Bounds on the second byte of a three-byte sequence led by `b0`. */
  function Second3(b0: byte): (int, int) {
    if b0 == 0xE0 then (0xA0, 0xBF) else if b0 == 0xED then (0x80, 0x9F) else (0x80, 0xBF)
  }

  /** Bounds on the second byte of a four-byte sequence led by `b0`. */
  function Second4(b0: byte): (int, int) {
    if b0 == 0xF0 then (0x90, 0xBF) else if b0 == 0xF4 then (0x80, 0x8F) else (0x80, 0xBF)
  }

  /**
   * The character encoded at the front of `bs` and the number of bytes it
   * takes, or `None` when the front is not a well-formed sequence.
   */
  function DecodeFirst(bs: seq<byte>): (r: Option<(char, nat)>)
    requires |bs| > 0
    ensures r.Some? ==> 1 <= r.value.1 <= |bs| && r.value.1 <= 4
    ensures r.Some? && r.value.1 == 1 <==> bs[0] < 0x80
  {
    var b0: int := bs[0];
    if b0 < 0x80 then
      Some((b0 as char, 1))
    else if 0xC2 <= b0 <= 0xDF then
      if |bs| >= 2 && IsCont(bs[1]) then
        Some((((b0 - 0xC0) * 0x40 + (bs[1] as int - 0x80)) as char, 2))
      else None
    else if 0xE0 <= b0 <= 0xEF then
      var (lo, hi) := Second3(b0);
      if |bs| >= 3 && lo <= bs[1] <= hi && IsCont(bs[2]) then
        Some((((b0 - 0xE0) * 0x1000 + (bs[1] as int - 0x80) * 0x40 + (bs[2] as int - 0x80)) as char, 3))
      else None
    else if 0xF0 <= b0 <= 0xF4 then
      var (lo, hi) := Second4(b0);
      if |bs| >= 4 && lo <= bs[1] <= hi && IsCont(bs[2]) && IsCont(bs[3]) then
        Some((((b0 - 0xF0) * 0x4_0000 + (bs[1] as int - 0x80) * 0x1000 + (bs[2] as int - 0x80) * 0x40 + (bs[3] as int - 0x80)) as char, 4))
      else None
    else None
  }

  /**
   * The text the bytes spell, or `None` when they are not well-formed UTF-8.
   * Accepted bytes are exactly the encoding of the text: decoding loses nothing.
   */
  function Decode(bs: seq<byte>): (r: Option<string>)
    ensures r.Some? ==> Encode(r.value) == bs
    decreases |bs|
  {
    if |bs| == 0 then Some([])
    else match DecodeFirst(bs)
      case None => None
      case Some((ch, n)) =>
        match Decode(bs[n..])
        case None => None
        case Some(rest) =>
          DecodeFirstCanonical(bs);
          var text := [ch] + rest;
          assert text[0] == ch && text[1..] == rest;
          assert bs == bs[..n] + bs[n..];
          Some(text)
  }

  /** The shortest UTF-8 form of one character. */
  function EncodeChar(ch: char): (bs: seq<byte>)
    ensures 1 <= |bs| <= 4
  {
    var cp := ch as int;
    if cp < 0x80 then [cp]
    else if cp < 0x800 then [0xC0 + cp / 0x40, 0x80 + cp % 0x40]
    else if cp < 0x1_0000 then [0xE0 + cp / 0x1000, 0x80 + cp / 0x40 % 0x40, 0x80 + cp % 0x40]
    else [0xF0 + cp / 0x4_0000, 0x80 + cp / 0x1000 % 0x40, 0x80 + cp / 0x40 % 0x40, 0x80 + cp % 0x40]
  }

  /** The UTF-8 form of a string: what a device puts on the wire. */
  function Encode(s: string): seq<byte> {
    if |s| == 0 then [] else EncodeChar(s[0]) + Encode(s[1..])
  }

  lemma EncodeCharDecodes(ch: char, rest: seq<byte>)
    ensures DecodeFirst(EncodeChar(ch) + rest) == Some((ch, |EncodeChar(ch)|))
  {
    var cp := ch as int;
    if cp < 0x80 {
    } else if cp < 0x800 {
      Encode2Decodes(ch, rest);
    } else if cp < 0x1_0000 {
      Encode3Decodes(ch, rest);
    } else {
      Encode4Decodes(ch, rest);
    }
  }

  lemma Encode2Decodes(ch: char, rest: seq<byte>)
    requires 0x80 <= ch as int < 0x800
    ensures DecodeFirst(EncodeChar(ch) + rest) == Some((ch, 2))
  {
    var cp := ch as int;
    var d1, d0 := cp / 0x40, cp % 0x40;
    assert cp == d1 * 0x40 + d0;
    var bs := EncodeChar(ch) + rest;
    assert bs[0] == 0xC0 + d1 && bs[1] == 0x80 + d0;
  }

  lemma Encode3Decodes(ch: char, rest: seq<byte>)
    requires 0x800 <= ch as int < 0x1_0000
    ensures DecodeFirst(EncodeChar(ch) + rest) == Some((ch, 3))
  {
    var cp := ch as int;
    var d2, d1, d0 := cp / 0x1000, cp / 0x40 % 0x40, cp % 0x40;
    assert cp == d2 * 0x1000 + d1 * 0x40 + d0;
    var bs := EncodeChar(ch) + rest;
    assert bs[0] == 0xE0 + d2 && bs[1] == 0x80 + d1 && bs[2] == 0x80 + d0;
  }

  lemma Encode4Decodes(ch: char, rest: seq<byte>)
    requires 0x1_0000 <= ch as int
    ensures DecodeFirst(EncodeChar(ch) + rest) == Some((ch, 4))
  {
    var cp := ch as int;
    var d3, d2, d1, d0 := Digits4(cp);
    var bs := EncodeChar(ch) + rest;
    assert bs[0] == 0xF0 + d3 && bs[1] == 0x80 + d2 && bs[2] == 0x80 + d1 && bs[3] == 0x80 + d0;
  }

  /** The four 6-bit groups (the top one 3 bits) of a supplementary code point. */
  lemma Digits4(cp: int) returns (d3: int, d2: int, d1: int, d0: int)
    requires 0x1_0000 <= cp < 0x11_0000
    ensures d3 == cp / 0x4_0000 && d2 == cp / 0x1000 % 0x40 && d1 == cp / 0x40 % 0x40 && d0 == cp % 0x40
    ensures 0 <= d3 <= 4 && 0 <= d2 < 0x40 && 0 <= d1 < 0x40 && 0 <= d0 < 0x40
    ensures cp == d3 * 0x4_0000 + d2 * 0x1000 + d1 * 0x40 + d0
    ensures d3 == 0 ==> 0x10 <= d2
    ensures d3 == 4 ==> d2 < 0x10
  {
    d3, d2, d1, d0 := cp / 0x4_0000, cp / 0x1000 % 0x40, cp / 0x40 % 0x40, cp % 0x40;
    var low := cp % 0x1000;
    assert cp == cp / 0x1000 * 0x1000 + low;
    assert low == d1 * 0x40 + d0;
    assert cp / 0x1000 == d3 * 0x40 + d2;
  }

  /** Every string survives the trip through its UTF-8 bytes. */
  lemma {:induction false} DecodeEncode(s: string)
    ensures Decode(Encode(s)) == Some(s)
  {
    if |s| > 0 {
      var e := EncodeChar(s[0]);
      EncodeCharDecodes(s[0], Encode(s[1..]));
      assert (e + Encode(s[1..]))[|e|..] == Encode(s[1..]);
      DecodeEncode(s[1..]);
      assert Encode(s) == e + Encode(s[1..]);
      assert [s[0]] + s[1..] == s;
    }
  }

  /** ASCII bytes decode one character each, to the same code points. */
  lemma {:induction false} DecodeAscii(bs: seq<byte>)
    requires forall i :: 0 <= i < |bs| ==> bs[i] < 0x80
    ensures Decode(bs).Some?
    ensures |Decode(bs).value| == |bs|
    ensures forall i :: 0 <= i < |bs| ==> Decode(bs).value[i] as int == bs[i]
  {
    if |bs| > 0 {
      DecodeAscii(bs[1..]);
    }
  }

  /** The character decoded at the front of `bs` re-encodes to exactly the bytes it was read from. */
  lemma DecodeFirstCanonical(bs: seq<byte>)
    requires |bs| > 0 && DecodeFirst(bs).Some?
    ensures EncodeChar(DecodeFirst(bs).value.0) == bs[..DecodeFirst(bs).value.1]
  {
    var n := DecodeFirst(bs).value.1;
    if n == 2 {
      Canonical2(bs);
    } else if n == 3 {
      Canonical3(bs);
    } else if n == 4 {
      Canonical4(bs);
    }
  }

  lemma Canonical2(bs: seq<byte>)
    requires |bs| >= 2 && 0xC2 <= bs[0] <= 0xDF && IsCont(bs[1])
    ensures DecodeFirst(bs).Some? && EncodeChar(DecodeFirst(bs).value.0) == bs[..2]
  {
    var d1: int, d0: int := bs[0] - 0xC0, bs[1] - 0x80;
    var cp := d1 * 0x40 + d0;
    assert cp / 0x40 == d1 && cp % 0x40 == d0;
    assert DecodeFirst(bs).value.0 as int == cp;
  }

  lemma Canonical3(bs: seq<byte>)
    requires |bs| >= 3 && 0xE0 <= bs[0] <= 0xEF && Second3(bs[0]).0 <= bs[1] <= Second3(bs[0]).1 && IsCont(bs[2])
    ensures DecodeFirst(bs).Some? && EncodeChar(DecodeFirst(bs).value.0) == bs[..3]
  {
    var d2: int, d1: int, d0: int := bs[0] - 0xE0, bs[1] - 0x80, bs[2] - 0x80;
    var cp := d2 * 0x1000 + d1 * 0x40 + d0;
    assert cp / 0x40 == d2 * 0x40 + d1 && cp % 0x40 == d0;
    assert cp / 0x1000 == d2 && cp / 0x40 % 0x40 == d1;
    assert DecodeFirst(bs).value.0 as int == cp;
  }

  lemma Canonical4(bs: seq<byte>)
    requires |bs| >= 4 && 0xF0 <= bs[0] <= 0xF4 && Second4(bs[0]).0 <= bs[1] <= Second4(bs[0]).1
    requires IsCont(bs[2]) && IsCont(bs[3])
    ensures DecodeFirst(bs).Some? && EncodeChar(DecodeFirst(bs).value.0) == bs[..4]
  {
    var d3: int, d2: int, d1: int, d0: int := bs[0] - 0xF0, bs[1] - 0x80, bs[2] - 0x80, bs[3] - 0x80;
    var cp := d3 * 0x4_0000 + d2 * 0x1000 + d1 * 0x40 + d0;
    assert cp / 0x40 == d3 * 0x1000 + d2 * 0x40 + d1 && cp % 0x40 == d0;
    assert cp / 0x1000 == d3 * 0x40 + d2 && cp / 0x40 % 0x40 == d1;
    assert cp / 0x4_0000 == d3 && cp / 0x1000 % 0x40 == d2;
    assert DecodeFirst(bs).value.0 as int == cp;
  }
}
