// `String::from_utf8` as used by the advertising parser: strict UTF-8
// decoding (no overlong forms, no surrogates, nothing above U+10FFFF),
// with the encoder it inverts.

module Utf8 {
  import opened Common

  predicate IsCont(b: byte) { 0x80 <= b < 0xC0 }

  /// Number of bytes of the encoded sequence that starts with `b0`, or 0
  /// when `b0` cannot start one.
  function SeqLen(b0: byte): nat
  {
    if b0 < 0x80 then 1
    else if 0xC2 <= b0 <= 0xDF then 2
    else if 0xE0 <= b0 <= 0xEF then 3
    else if 0xF0 <= b0 <= 0xF4 then 4
    else 0
  }

  /// Range the second byte must lie in, per the well-formed table of the
  /// Unicode Standard (chapter 3, table 3-7).
  predicate SecondOk(b0: byte, b1: byte)
  {
    if b0 == 0xE0 then 0xA0 <= b1 <= 0xBF
    else if b0 == 0xED then 0x80 <= b1 <= 0x9F
    else if b0 == 0xF0 then 0x90 <= b1 <= 0xBF
    else if b0 == 0xF4 then 0x80 <= b1 <= 0x8F
    else IsCont(b1)
  }

  /// Decodes one scalar value from the front of `b`; the result is the
  /// character and the number of bytes it used.
  function DecodeOne(b: bytes): (r: Option<(char, nat)>)
    ensures r.Some? ==> 1 <= r.value.1 <= |b| && r.value.1 == SeqLen(b[0])
  {
    if b == [] then None
    else
      var n := SeqLen(b[0]);
      if n == 0 || n > |b| then None
      else if n == 1 then Some((b[0] as char, 1))
      else if !SecondOk(b[0], b[1]) then None
      else if n == 2 then
        Some((((b[0] as int - 0xC0) * 64 + (b[1] as int - 0x80)) as char, 2))
      else if !IsCont(b[2]) then None
      else if n == 3 then
        var v := (b[0] as int - 0xE0) * 4096 + (b[1] as int - 0x80) * 64 + (b[2] as int - 0x80);
        assert 0x800 <= v < 0x1_0000 && !(0xD800 <= v < 0xE000);
        Some((v as char, 3))
      else if !IsCont(b[3]) then None
      else
        var v := (b[0] as int - 0xF0) * 262144 + (b[1] as int - 0x80) * 4096 + (b[2] as int - 0x80) * 64 + (b[3] as int - 0x80);
        assert 0x1_0000 <= v < 0x11_0000;
        Some((v as char, 4))
  }

  /// `String::from_utf8(b).ok()`
  function Decode(b: bytes): Option<string>
    decreases |b|
  {
    if b == [] then Some([])
    else match DecodeOne(b)
      case None => None
      case Some((c, n)) =>
        match Decode(b[n..])
        case None => None
        case Some(rest) => Some([c] + rest)
  }

  /// The UTF-8 encoding of one scalar value.
  function EncodeChar(c: char): (r: bytes)
    ensures 1 <= |r| <= 4
  {
    var v := c as int;
    if v < 0x80 then [v]
    else if v < 0x800 then [0xC0 + v / 64, 0x80 + v % 64]
    else if v < 0x1_0000 then [0xE0 + v / 4096, 0x80 + (v / 64) % 64, 0x80 + v % 64]
    else [0xF0 + v / 262144, 0x80 + (v / 4096) % 64, 0x80 + (v / 64) % 64, 0x80 + v % 64]
  }

  function Encode(s: string): bytes
  {
    if s == [] then [] else EncodeChar(s[0]) + Encode(s[1..])
  }

  lemma Width2(v: int)
    requires 0x80 <= v < 0x800
    ensures 0xC2 <= 0xC0 + v / 64 <= 0xDF && 0 <= v % 64 < 64
    ensures (v / 64) * 64 + v % 64 == v
  {
  }

  lemma Width3(v: int)
    requires 0x800 <= v < 0x1_0000 && !(0xD800 <= v < 0xE000)
    ensures 0xE0 <= 0xE0 + v / 4096 <= 0xEF
    ensures SecondOk(0xE0 + v / 4096, 0x80 + (v / 64) % 64)
    ensures (v / 4096) * 4096 + ((v / 64) % 64) * 64 + v % 64 == v
  {
    var q := v / 64;
    assert q * 64 + v % 64 == v;
    assert (q / 64) == v / 4096;
    assert (q / 64) * 64 + q % 64 == q;
  }

  lemma Width4(v: int)
    requires 0x1_0000 <= v < 0x11_0000
    ensures 0xF0 <= 0xF0 + v / 262144 <= 0xF4
    ensures SecondOk(0xF0 + v / 262144, 0x80 + (v / 4096) % 64)
    ensures (v / 262144) * 262144 + ((v / 4096) % 64) * 4096 + ((v / 64) % 64) * 64 + v % 64 == v
  {
    var q := v / 64;
    var p := q / 64;
    assert q * 64 + v % 64 == v;
    assert p == v / 4096;
    assert p * 64 + q % 64 == q;
    assert p / 64 == v / 262144;
    assert (p / 64) * 64 + p % 64 == p;
  }

  lemma DecodeOneEncodeChar(c: char, rest: bytes)
    ensures DecodeOne(EncodeChar(c) + rest) == Some((c, |EncodeChar(c)|))
  {
    var v := c as int;
    var e := EncodeChar(c);
    var b := e + rest;
    if v < 0x80 {
      assert b[0] == v;
    } else if v < 0x800 {
      Width2(v);
      assert b[0] == 0xC0 + v / 64 && b[1] == 0x80 + v % 64;
    } else if v < 0x1_0000 {
      Width3(v);
      assert b[0] == 0xE0 + v / 4096 && b[1] == 0x80 + (v / 64) % 64 && b[2] == 0x80 + v % 64;
    } else {
      Width4(v);
      assert b[0] == 0xF0 + v / 262144 && b[1] == 0x80 + (v / 4096) % 64;
      assert b[2] == 0x80 + (v / 64) % 64 && b[3] == 0x80 + v % 64;
    }
  }

  /// Every string survives a trip through its UTF-8 encoding.
  lemma {:induction false} DecodeEncode(s: string)
    ensures Decode(Encode(s)) == Some(s)
  {
    if s != [] {
      var e := EncodeChar(s[0]);
      var b := Encode(s);
      assert b == e + Encode(s[1..]);
      DecodeOneEncodeChar(s[0], Encode(s[1..]));
      assert b[|e|..] == Encode(s[1..]);
      DecodeEncode(s[1..]);
      assert [s[0]] + s[1..] == s;
    }
  }

  /// Bytes below 0x80 decode one-for-one to the same code points.
  lemma {:induction false} AsciiDecodes(b: bytes)
    requires forall i :: 0 <= i < |b| ==> b[i] < 0x80
    ensures Decode(b).Some? && |Decode(b).value| == |b|
    ensures forall i :: 0 <= i < |b| ==> Decode(b).value[i] as int == b[i]
  {
    if b != [] {
      AsciiDecodes(b[1..]);
    }
  }

  /// A byte that can start no sequence (0x80..0xC1, 0xF5..0xFF) makes the
  /// whole text invalid, wherever it stands after valid text.
  lemma {:induction false} BadLeadRejected(s: string, x: byte, rest: bytes)
    requires SeqLen(x) == 0
    ensures Decode(Encode(s) + [x] + rest) == None
  {
    if s == [] {
      assert Encode(s) + [x] + rest == [x] + rest;
    } else {
      var e := EncodeChar(s[0]);
      DecodeOneEncodeChar(s[0], Encode(s[1..]) + [x] + rest);
      assert Encode(s) + [x] + rest == e + (Encode(s[1..]) + [x] + rest);
      assert (e + (Encode(s[1..]) + [x] + rest))[|e|..] == Encode(s[1..]) + [x] + rest;
      BadLeadRejected(s[1..], x, rest);
    }
  }
}
