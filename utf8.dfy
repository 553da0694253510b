/** UTF-8, as Python's str.encode() and bytes.decode('utf-8') (strict) use
    it: a character is a Unicode scalar value, encoded in one to four bytes,
    and decoding refuses overlong forms, surrogates and values above
    U+10FFFF. */
module Utf8 {
  import opened Wrappers
  import opened Bytes

  function EncodeChar(c: char): (r: seq<byte>)
    ensures 1 <= |r| <= 4
  {
    var v := c as int;
    if v < 0x80 then [v]
    else if v < 0x800 then [0xC0 + v / 64, 0x80 + v % 64]
    else if v < 0x1_0000 then [0xE0 + v / 4096, 0x80 + (v / 64) % 64, 0x80 + v % 64]
    else [0xF0 + v / 262144, 0x80 + (v / 4096) % 64, 0x80 + (v / 64) % 64, 0x80 + v % 64]
  }

  function Encode(s: string): seq<byte>
  {
    if s == [] then [] else EncodeChar(s[0]) + Encode(s[1..])
  }

  /** Every character of s is below U+0080. */
  predicate IsAscii(s: string) { forall i :: 0 <= i < |s| ==> s[i] as int < 0x80 }

  /** An ASCII string encodes to one byte per character, its code. */
  lemma {:induction false} EncodeAscii(s: string)
    requires IsAscii(s)
    ensures |Encode(s)| == |s| && forall i :: 0 <= i < |s| ==> Encode(s)[i] == s[i] as int
  {
    if s != [] {
      EncodeAscii(s[1..]);
      assert forall i :: 1 <= i < |s| ==> Encode(s)[i] == Encode(s[1..])[i - 1];
    }
  }

  /** An ASCII string encodes to the bytes of its codes. */
  lemma AsciiBytes(s: string, b: seq<byte>)
    requires IsAscii(s) && |b| == |s| && forall i :: 0 <= i < |s| ==> b[i] == s[i] as int
    ensures Encode(s) == b
  {
    EncodeAscii(s);
  }

  predicate IsCont(b: byte) { 0x80 <= b < 0xC0 }

  predicate IsScalar(v: int) { 0 <= v < 0xD800 || 0xE000 <= v < 0x11_0000 }

  /** The first character of b and the number of bytes it takes. */
  function DecodeChar(b: seq<byte>): (r: Option<(char, nat)>)
    ensures r.Some? ==> 1 <= r.value.1 <= |b|
  {
    if |b| == 0 then None
    else
      var b0 := b[0] as int;
      if b0 < 0x80 then Some((b0 as char, 1))
      else if 0xC2 <= b0 < 0xE0 && |b| >= 2 && IsCont(b[1]) then
        Some((Value2(b0, b[1]) as char, 2))
      else if 0xE0 <= b0 < 0xF0 && |b| >= 3 && IsCont(b[1]) && IsCont(b[2]) then
        var v := Value3(b0, b[1], b[2]);
        if 0x800 <= v && IsScalar(v) then Some((v as char, 3)) else None
      else if 0xF0 <= b0 < 0xF5 && |b| >= 4 && IsCont(b[1]) && IsCont(b[2]) && IsCont(b[3]) then
        var v := Value4(b0, b[1], b[2], b[3]);
        if 0x1_0000 <= v < 0x11_0000 then Some((v as char, 4)) else None
      else None
  }

  function Value2(b0: int, b1: int): (v: int)
    requires 0xC2 <= b0 < 0xE0 && 0x80 <= b1 < 0xC0
    ensures 0x80 <= v < 0x800
  {
    (b0 - 0xC0) * 64 + (b1 - 0x80)
  }

  function Value3(b0: int, b1: int, b2: int): int
  {
    (b0 - 0xE0) * 4096 + (b1 - 0x80) * 64 + (b2 - 0x80)
  }

  function Value4(b0: int, b1: int, b2: int, b3: int): int
  {
    (b0 - 0xF0) * 262144 + (b1 - 0x80) * 4096 + (b2 - 0x80) * 64 + (b3 - 0x80)
  }

  /** Strict decoding: None where Python raises UnicodeDecodeError. */
  function Decode(b: seq<byte>): Option<string>
    decreases |b|
  {
    if b == [] then Some([])
    else match DecodeChar(b)
      case None => None
      case Some((c, n)) =>
        match Decode(b[n..])
        case None => None
        case Some(rest) => Some([c] + rest)
  }

  lemma Split2(v: int)
    requires 0x80 <= v < 0x800
    ensures 0xC2 <= 0xC0 + v / 64 < 0xE0 && 0x80 <= 0x80 + v % 64 < 0xC0
    ensures Value2(0xC0 + v / 64, 0x80 + v % 64) == v
  {
  }

  lemma Split3(v: int)
    requires 0x800 <= v < 0x1_0000
    ensures 0xE0 <= 0xE0 + v / 4096 < 0xF0
    ensures Value3(0xE0 + v / 4096, 0x80 + (v / 64) % 64, 0x80 + v % 64) == v
  {
    assert v == (v / 4096) * 4096 + ((v / 64) % 64) * 64 + v % 64;
  }

  lemma Split4(v: int)
    requires 0x1_0000 <= v < 0x11_0000
    ensures 0xF0 <= 0xF0 + v / 262144 < 0xF5
    ensures Value4(0xF0 + v / 262144, 0x80 + (v / 4096) % 64, 0x80 + (v / 64) % 64, 0x80 + v % 64) == v
  {
    assert v == (v / 262144) * 262144 + ((v / 4096) % 64) * 4096 + ((v / 64) % 64) * 64 + v % 64;
  }

  lemma DecodeEncodeChar(c: char, rest: seq<byte>)
    ensures DecodeChar(EncodeChar(c) + rest) == Some((c, |EncodeChar(c)|))
  {
    var v := c as int;
    if v < 0x80 {
    } else if v < 0x800 {
      Split2(v);
    } else if v < 0x1_0000 {
      Split3(v);
    } else {
      Split4(v);
    }
  }

  /** Decoding what encoding produced gives the string back. */
  lemma {:induction false} DecodeEncode(s: string)
    ensures Decode(Encode(s)) == Some(s)
  {
    if s != [] {
      var e := EncodeChar(s[0]);
      DecodeEncodeChar(s[0], Encode(s[1..]));
      assert (e + Encode(s[1..]))[|e|..] == Encode(s[1..]);
      DecodeEncode(s[1..]);
      assert [s[0]] + s[1..] == s;
    }
  }

  /** Encoding is injective: distinct strings have distinct encodings. */
  lemma EncodeInjective(s: string, t: string)
    requires Encode(s) == Encode(t)
    ensures s == t
  {
    DecodeEncode(s);
    DecodeEncode(t);
  }

  lemma MulLe(a: int, b: int, d: int)
    requires a <= b && d > 0
    ensures a * d <= b * d
  {
    assert (b - a) * d >= 0;
  }

  lemma DivModUnique(v: int, q: int, r: int, d: int)
    requires d > 0 && v == q * d + r && 0 <= r < d
    ensures v / d == q && v % d == r
  {
    var q', r' := v / d, v % d;
    assert v == q' * d + r';
    if q' < q {
      MulLe(q' + 1, q, d);
      assert false;
    } else if q < q' {
      MulLe(q + 1, q', d);
      assert false;
    }
  }

  /** The bytes DecodeChar consumes are the encoding of the character it
      returns. */
  lemma EncodeDecodedChar(b: seq<byte>)
    requires DecodeChar(b).Some?
    ensures EncodeChar(DecodeChar(b).value.0) == b[..DecodeChar(b).value.1]
  {
    var b0 := b[0] as int;
    if b0 < 0x80 {
    } else if 0xC2 <= b0 < 0xE0 && |b| >= 2 && IsCont(b[1]) {
      Encode2(b0, b[1]);
    } else if 0xE0 <= b0 < 0xF0 && |b| >= 3 && IsCont(b[1]) && IsCont(b[2]) {
      Encode3(b0, b[1], b[2]);
    } else {
      Encode4(b0, b[1], b[2], b[3]);
    }
  }

  lemma Encode2(b0: int, b1: int)
    requires 0xC2 <= b0 < 0xE0 && 0x80 <= b1 < 0xC0
    ensures EncodeChar(Value2(b0, b1) as char) == [b0, b1]
  {
    DivModUnique(Value2(b0, b1), b0 - 0xC0, b1 - 0x80, 64);
  }

  lemma Encode3(b0: int, b1: int, b2: int)
    requires 0xE0 <= b0 < 0xF0 && 0x80 <= b1 < 0xC0 && 0x80 <= b2 < 0xC0
    requires var v := Value3(b0, b1, b2); 0x800 <= v && IsScalar(v)
    ensures EncodeChar(Value3(b0, b1, b2) as char) == [b0, b1, b2]
  {
    var v := Value3(b0, b1, b2);
    DivModUnique(v, (b0 - 0xE0) * 64 + (b1 - 0x80), b2 - 0x80, 64);
    DivModUnique(v / 64, b0 - 0xE0, b1 - 0x80, 64);
    DivModUnique(v, b0 - 0xE0, (b1 - 0x80) * 64 + (b2 - 0x80), 4096);
  }

  lemma Encode4(b0: int, b1: int, b2: int, b3: int)
    requires 0xF0 <= b0 < 0xF5 && 0x80 <= b1 < 0xC0 && 0x80 <= b2 < 0xC0 && 0x80 <= b3 < 0xC0
    requires 0x1_0000 <= Value4(b0, b1, b2, b3) < 0x11_0000
    ensures EncodeChar(Value4(b0, b1, b2, b3) as char) == [b0, b1, b2, b3]
  {
    var v := Value4(b0, b1, b2, b3);
    DivModUnique(v, (b0 - 0xF0) * 4096 + (b1 - 0x80) * 64 + (b2 - 0x80), b3 - 0x80, 64);
    DivModUnique(v / 64, (b0 - 0xF0) * 64 + (b1 - 0x80), b2 - 0x80, 64);
    DivModUnique(v, (b0 - 0xF0) * 64 + (b1 - 0x80), (b2 - 0x80) * 64 + (b3 - 0x80), 4096);
    DivModUnique(v / 4096, b0 - 0xF0, b1 - 0x80, 64);
    DivModUnique(v, b0 - 0xF0, (b1 - 0x80) * 4096 + (b2 - 0x80) * 64 + (b3 - 0x80), 262144);
  }

  /** Strict decoding accepts only encodings: a byte string that decodes is
      the encoding of what it decodes to. */
  lemma {:induction false} EncodeDecode(b: seq<byte>)
    requires Decode(b).Some?
    ensures Encode(Decode(b).value) == b
    decreases |b|
  {
    if b != [] {
      var (c, n) := DecodeChar(b).value;
      var d := Decode(b[n..]).value;
      EncodeDecode(b[n..]);
      EncodeDecodedChar(b);
      EncodeCons(b, c, n, d);
    }
  }

  lemma EncodeCons(b: seq<byte>, c: char, n: nat, d: string)
    requires n <= |b| && EncodeChar(c) == b[..n] && Encode(d) == b[n..]
    ensures Encode([c] + d) == b
  {
    assert ([c] + d)[1..] == d;
    assert b == b[..n] + b[n..];
  }
}
