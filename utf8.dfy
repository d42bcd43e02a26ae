/**
 * Strict UTF-8, as Python's `str.encode()` and `bytes.decode()` use it by default.
 * A Dafny `char` is a Unicode scalar value, so every string has an encoding; decoding
 * fails on stray continuation bytes, truncated sequences, overlong forms, surrogates
 * and values above U+10FFFF, exactly where Python raises `UnicodeDecodeError`.
 */
module Utf8 {
  import opened Wrappers

  newtype byte = b: int | 0 <= b < 0x100

  /** The values a Dafny `char` can hold. */
  predicate IsScalar(n: int) {
    0 <= n < 0xD800 || 0xE000 <= n < 0x11_0000
  }

  predicate IsContinuation(b: byte) {
    0x80 <= b < 0xC0
  }

  /** The one to four bytes that encode `c`. */
  function EncodeChar(c: char): (r: seq<byte>)
    ensures 1 <= |r| <= 4
  {
    var n := c as int;
    if n < 0x80 then
      [n as byte]
    else if n < 0x800 then
      [(0xC0 + n / 0x40) as byte, (0x80 + n % 0x40) as byte]
    else if n < 0x1_0000 then
      [(0xE0 + n / 0x40 / 0x40) as byte, (0x80 + n / 0x40 % 0x40) as byte, (0x80 + n % 0x40) as byte]
    else
      [(0xF0 + n / 0x40 / 0x40 / 0x40) as byte, (0x80 + n / 0x40 / 0x40 % 0x40) as byte,
       (0x80 + n / 0x40 % 0x40) as byte, (0x80 + n % 0x40) as byte]
  }

  /** `str.encode()`: the concatenated encodings of the characters. */
  function Encode(s: string): (r: seq<byte>)
    ensures |s| <= |r| <= 4 * |s|
  {
    if s == [] then [] else EncodeChar(s[0]) + Encode(s[1..])
  }

  /** The character encoded at the head of `bs` and the number of bytes it takes, or None. */
  function DecodeFirst(bs: seq<byte>): (r: Option<(char, nat)>)
    requires |bs| > 0
    ensures r.Some? ==> 1 <= r.value.1 <= |bs| && r.value.1 <= 4
  {
    var b0 := bs[0];
    if b0 < 0x80 then Some((b0 as int as char, 1))
    // a continuation byte in lead position, or the lead of an overlong two-byte form
    else if b0 < 0xC2 then None
    else if b0 < 0xE0 then DecodeTwo(bs)
    else if b0 < 0xF0 then DecodeThree(bs)
    else if b0 < 0xF5 then DecodeFour(bs)
    else None
  }

  function DecodeTwo(bs: seq<byte>): (r: Option<(char, nat)>)
    requires |bs| > 0 && 0xC2 <= bs[0] < 0xE0
    ensures r.Some? ==> r.value.1 == 2 <= |bs|
  {
    if 2 <= |bs| && IsContinuation(bs[1]) then
      Some((((bs[0] as int - 0xC0) * 0x40 + (bs[1] as int - 0x80)) as char, 2))
    else None
  }

  function DecodeThree(bs: seq<byte>): (r: Option<(char, nat)>)
    requires |bs| > 0 && 0xE0 <= bs[0] < 0xF0
    ensures r.Some? ==> r.value.1 == 3 <= |bs|
  {
    if 3 <= |bs| && IsContinuation(bs[1]) && IsContinuation(bs[2]) then
      var n := (bs[0] as int - 0xE0) * 0x1000 + (bs[1] as int - 0x80) * 0x40 + (bs[2] as int - 0x80);
      // overlong forms and surrogates are refused
      if 0x800 <= n && IsScalar(n) then Some((n as char, 3)) else None
    else None
  }

  function DecodeFour(bs: seq<byte>): (r: Option<(char, nat)>)
    requires |bs| > 0 && 0xF0 <= bs[0] < 0xF5
    ensures r.Some? ==> r.value.1 == 4 <= |bs|
  {
    if 4 <= |bs| && IsContinuation(bs[1]) && IsContinuation(bs[2]) && IsContinuation(bs[3]) then
      var n := (bs[0] as int - 0xF0) * 0x4_0000 + (bs[1] as int - 0x80) * 0x1000
               + (bs[2] as int - 0x80) * 0x40 + (bs[3] as int - 0x80);
      // overlong forms and values above U+10FFFF are refused
      if 0x1_0000 <= n < 0x11_0000 then Some((n as char, 4)) else None
    else None
  }

  /** `bytes.decode()`: the decoded text, or None where Python raises `UnicodeDecodeError`. */
  function Decode(bs: seq<byte>): (r: Option<string>)
    ensures r.Some? ==> |r.value| <= |bs|
    decreases |bs|
  {
    if bs == [] then Some([])
    else
      match DecodeFirst(bs)
      case None => None
      case Some((c, k)) =>
        match Decode(bs[k..])
        case None => None
        case Some(rest) => Some([c] + rest)
  }

  lemma DecodeFirstOfEncoded(c: char, rest: seq<byte>)
    ensures DecodeFirst(EncodeChar(c) + rest) == Some((c, |EncodeChar(c)|))
  {
    var e := EncodeChar(c);
    var bs := e + rest;
    var n := c as int;
    assert forall i :: 0 <= i < |e| ==> bs[i] == e[i];
    if n < 0x80 {
    } else if n < 0x800 {
      assert n == (n / 0x40) * 0x40 + n % 0x40;
    } else if n < 0x1_0000 {
      var q := n / 0x40;
      assert n == q * 0x40 + n % 0x40;
      assert q == (q / 0x40) * 0x40 + q % 0x40;
    } else {
      var q := n / 0x40;
      var q2 := q / 0x40;
      assert n == q * 0x40 + n % 0x40;
      assert q == q2 * 0x40 + q % 0x40;
      assert q2 == (q2 / 0x40) * 0x40 + q2 % 0x40;
    }
  }

  lemma EncodeCharOfDecoded(bs: seq<byte>)
    requires |bs| > 0 && DecodeFirst(bs).Some?
    ensures EncodeChar(DecodeFirst(bs).value.0) == bs[..DecodeFirst(bs).value.1]
  {
    var b0 := bs[0] as int;
    if b0 < 0x80 {
      assert bs[..1] == [bs[0]];
    } else if b0 < 0xE0 {
      EncodeCharOfTwo(bs);
    } else if b0 < 0xF0 {
      EncodeCharOfThree(bs);
    } else {
      EncodeCharOfFour(bs);
    }
  }

  lemma EncodeCharOfTwo(bs: seq<byte>)
    requires |bs| > 0 && 0xC2 <= bs[0] < 0xE0 && DecodeTwo(bs).Some?
    ensures EncodeChar(DecodeTwo(bs).value.0) == bs[..2]
  {
    var n := DecodeTwo(bs).value.0 as int;
    var r := bs[1] as int - 0x80;
    assert n == (bs[0] as int - 0xC0) * 0x40 + r;
    assert n / 0x40 == bs[0] as int - 0xC0 && n % 0x40 == r;
    assert bs[..2] == [bs[0], bs[1]];
  }

  lemma EncodeCharOfThree(bs: seq<byte>)
    requires |bs| > 0 && 0xE0 <= bs[0] < 0xF0 && DecodeThree(bs).Some?
    ensures EncodeChar(DecodeThree(bs).value.0) == bs[..3]
  {
    var n := DecodeThree(bs).value.0 as int;
    var r1, r2 := bs[1] as int - 0x80, bs[2] as int - 0x80;
    var q := (bs[0] as int - 0xE0) * 0x40 + r1;
    assert n == q * 0x40 + r2;
    assert n / 0x40 == q && n % 0x40 == r2;
    assert q / 0x40 == bs[0] as int - 0xE0 && q % 0x40 == r1;
    assert bs[..3] == [bs[0], bs[1], bs[2]];
  }

  lemma EncodeCharOfFour(bs: seq<byte>)
    requires |bs| > 0 && 0xF0 <= bs[0] < 0xF5 && DecodeFour(bs).Some?
    ensures EncodeChar(DecodeFour(bs).value.0) == bs[..4]
  {
    var n := DecodeFour(bs).value.0 as int;
    var r1, r2, r3 := bs[1] as int - 0x80, bs[2] as int - 0x80, bs[3] as int - 0x80;
    var q2 := (bs[0] as int - 0xF0) * 0x40 + r1;
    var q := q2 * 0x40 + r2;
    assert n == q * 0x40 + r3;
    assert n / 0x40 == q && n % 0x40 == r3;
    assert q / 0x40 == q2 && q % 0x40 == r2;
    assert q2 / 0x40 == bs[0] as int - 0xF0 && q2 % 0x40 == r1;
    assert bs[..4] == [bs[0], bs[1], bs[2], bs[3]];
  }

  /** Decoding an encoding gives back the text. */
  lemma {:induction false} DecodeEncode(s: string)
    ensures Decode(Encode(s)) == Some(s)
  {
    if s != [] {
      var e := EncodeChar(s[0]);
      var tail := Encode(s[1..]);
      DecodeFirstOfEncoded(s[0], tail);
      assert (e + tail)[|e|..] == tail;
      DecodeEncode(s[1..]);
      assert [s[0]] + s[1..] == s;
    }
  }

  lemma EncodeCons(c: char, s: string)
    ensures Encode([c] + s) == EncodeChar(c) + Encode(s)
  {
    assert ([c] + s)[1..] == s;
  }

  lemma DecodeCons(bs: seq<byte>)
    requires bs != [] && Decode(bs).Some?
    ensures DecodeFirst(bs).Some? && Decode(bs[DecodeFirst(bs).value.1..]).Some?
    ensures Decode(bs).value == [DecodeFirst(bs).value.0] + Decode(bs[DecodeFirst(bs).value.1..]).value
  {
  }

  /** A successful decoding is exact: encoding the text gives back the bytes. */
  lemma {:induction false} EncodeDecode(bs: seq<byte>)
    requires Decode(bs).Some?
    ensures Encode(Decode(bs).value) == bs
    decreases |bs|
  {
    if bs != [] {
      var c, k := DecodeFirst(bs).value.0, DecodeFirst(bs).value.1;
      DecodeCons(bs);
      EncodeCharOfDecoded(bs);
      EncodeDecode(bs[k..]);
      EncodeGlue(bs, k, c, Decode(bs[k..]).value, Decode(bs).value);
    }
  }

  lemma EncodeGlue(bs: seq<byte>, k: nat, c: char, tail: string, s: string)
    requires k <= |bs| && s == [c] + tail
    requires EncodeChar(c) == bs[..k] && Encode(tail) == bs[k..]
    ensures Encode(s) == bs
  {
    EncodeCons(c, tail);
    assert bs[..k] + bs[k..] == bs;
  }

  /** Decoding fails exactly on byte strings that are the encoding of no text. */
  lemma DecodeFailsOnlyOnNonText(bs: seq<byte>)
    ensures Decode(bs).None? <==> forall s :: Encode(s) != bs
  {
    if Decode(bs).None? {
      forall s ensures Encode(s) != bs {
        DecodeEncode(s);
      }
    } else {
      EncodeDecode(bs);
    }
  }
}
