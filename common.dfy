// Shared vocabulary of the model: fixed-width integers as ranges over int,
// Option and Result, little/big-endian words, two's-complement casts, and
// ASCII hex digits and case mapping.

module Common {

  type byte = x: int | 0 <= x < 0x100
  type u16 = x: int | 0 <= x < 0x1_0000
  type u32 = x: int | 0 <= x < 0x1_0000_0000
  type u64 = x: int | 0 <= x < 0x1_0000_0000_0000_0000
  type i8 = x: int | -128 <= x < 128

  type bytes = seq<byte>

  const I8_MIN: i8 := -128
  const I8_MAX: i8 := 127

  datatype Option<T> = None | Some(value: T)
  {
    predicate IsSome() { Some? }
  }

  datatype Result<T> = Ok(value: T) | Err(msg: string)

  /// `u16::from_le_bytes([lo, hi])`
  function U16Le(lo: byte, hi: byte): u16
  {
    lo + 0x100 * hi
  }

  /// `u16::from_be_bytes([hi, lo])`
  function U16Be(hi: byte, lo: byte): u16
  {
    hi * 0x100 + lo
  }

  /// `u32::from_le_bytes([b0, b1, b2, b3])`
  function U32Le(b0: byte, b1: byte, b2: byte, b3: byte): u32
  {
    b0 + 0x100 * b1 + 0x1_0000 * b2 + 0x100_0000 * b3
  }

  /// `u32::from_be_bytes([b0, b1, b2, b3])`
  function U32Be(b0: byte, b1: byte, b2: byte, b3: byte): u32
  {
    U32Le(b3, b2, b1, b0)
  }

  /// The two bytes of `v.to_le_bytes()`.
  function U16LeBytes(v: u16): (r: bytes)
    ensures |r| == 2 && U16Le(r[0], r[1]) == v
  {
    [v % 0x100, v / 0x100]
  }

  /// The four bytes of `v.to_le_bytes()`, least significant first.
  function U32LeBytes(v: u32): (r: bytes)
    ensures |r| == 4 && U32Le(r[0], r[1], r[2], r[3]) == v
  {
    var q1 := v / 0x100;
    var q2 := q1 / 0x100;
    ByteSplit(v);
    ByteSplit(q1);
    ByteSplit(q2);
    [v % 0x100, q1 % 0x100, q2 % 0x100, q2 / 0x100]
  }

  lemma ByteSplit(x: nat)
    ensures x == x % 0x100 + 0x100 * (x / 0x100) && 0 <= x % 0x100 < 0x100
  {
  }

  /// `b as i8`: two's-complement reinterpretation of a byte.
  function AsI8(b: byte): i8
  {
    if b < 0x80 then b else b - 0x100
  }

  /// `x as u8` for an i8: the byte with the same bit pattern.
  function I8AsByte(x: i8): byte
  {
    if x >= 0 then x else x + 0x100
  }

  lemma I8CastsInverse(b: byte, x: i8)
    ensures I8AsByte(AsI8(b)) == b
    ensures AsI8(I8AsByte(x)) == x
  {
  }

  /// `x as u8` for a `usize`: truncation modulo 256.
  function TruncByte(x: nat): byte
  {
    x % 0x100
  }

  // ---------------------------------------------------------------------
  // ASCII hex digits

  function HexDigitUpper(n: int): char
    requires 0 <= n < 16
  {
    if n < 10 then ('0' as int + n) as char else ('A' as int + n - 10) as char
  }

  function HexDigitLower(n: int): char
    requires 0 <= n < 16
  {
    if n < 10 then ('0' as int + n) as char else ('a' as int + n - 10) as char
  }

  /// A byte as two upper-case hex digits.
  function Hex2Upper(b: byte): string
  {
    [HexDigitUpper(b / 16), HexDigitUpper(b % 16)]
  }

  /// A byte as two lower-case hex digits.
  function Hex2Lower(b: byte): string
  {
    [HexDigitLower(b / 16), HexDigitLower(b % 16)]
  }

  predicate IsHexChar(c: char)
  {
    ('0' <= c <= '9') || ('a' <= c <= 'f') || ('A' <= c <= 'F')
  }

  /// Value of one hex digit of either case.
  function HexValue(c: char): (r: Option<int>)
    ensures r.Some? <==> IsHexChar(c)
    ensures r.Some? ==> 0 <= r.value < 16
  {
    if '0' <= c <= '9' then Some(c as int - '0' as int)
    else if 'a' <= c <= 'f' then Some(c as int - 'a' as int + 10)
    else if 'A' <= c <= 'F' then Some(c as int - 'A' as int + 10)
    else None
  }

  lemma HexDigitsRoundTrip(n: int)
    requires 0 <= n < 16
    ensures HexValue(HexDigitUpper(n)) == Some(n)
    ensures HexValue(HexDigitLower(n)) == Some(n)
  {
  }

  // ---------------------------------------------------------------------
  // ASCII case mapping (`to_uppercase` / `to_lowercase` on ASCII text)

  function UpperChar(c: char): char
  {
    if 'a' <= c <= 'z' then (c as int - 32) as char else c
  }

  function LowerChar(c: char): char
  {
    if 'A' <= c <= 'Z' then (c as int + 32) as char else c
  }

  function ToUpper(s: string): (r: string)
    ensures |r| == |s|
    ensures forall i :: 0 <= i < |s| ==> r[i] == UpperChar(s[i])
  {
    if s == [] then [] else [UpperChar(s[0])] + ToUpper(s[1..])
  }

  function ToLower(s: string): (r: string)
    ensures |r| == |s|
    ensures forall i :: 0 <= i < |s| ==> r[i] == LowerChar(s[i])
  {
    if s == [] then [] else [LowerChar(s[0])] + ToLower(s[1..])
  }

  /// `s.replace(c, "")`
  function RemoveChar(s: string, c: char): (r: string)
    ensures |r| <= |s|
    ensures forall i :: 0 <= i < |r| ==> r[i] != c
    ensures forall d :: d != c ==> (d in s <==> d in r)
  {
    if s == [] then []
    else if s[0] == c then RemoveChar(s[1..], c)
    else [s[0]] + RemoveChar(s[1..], c)
  }

  /// Decimal digits of a natural number (`format!("{}", n)`).
  function NatToString(n: nat): (r: string)
    ensures |r| >= 1
    ensures forall i :: 0 <= i < |r| ==> '0' <= r[i] <= '9'
    decreases n
  {
    if n < 10 then [('0' as int + n) as char]
    else NatToString(n / 10) + [('0' as int + n % 10) as char]
  }

  /// Decimal text of an integer, with a leading '-' when negative.
  function IntToString(n: int): string
  {
    if n < 0 then "-" + NatToString(-n) else NatToString(n)
  }

  /// `n` in decimal with at least `w` digits, zero-padded on the left.
  function ZeroPad(n: nat, w: nat): (r: string)
    ensures |r| >= w
  {
    var d := NatToString(n);
    if |d| >= w then d else seq(w - |d|, _ => '0') + d
  }

  /// Lower-case hex digits without padding (`n.toString(16)` in JavaScript).
  function HexLowerUnpadded(n: nat): (r: string)
    ensures |r| >= 1
    decreases n
  {
    if n < 16 then [HexDigitLower(n)] else HexLowerUnpadded(n / 16) + [HexDigitLower(n % 16)]
  }

  /// Two hex digits of either case read as one byte
  /// (`u8::from_str_radix(s, 16)` on a two-character string without sign).
  function ParseHex2(c0: char, c1: char): (r: Option<byte>)
    ensures r.Some? <==> IsHexChar(c0) && IsHexChar(c1)
  {
    match (HexValue(c0), HexValue(c1))
    case (Some(h), Some(l)) => Some(h * 16 + l)
    case _ => None
  }

  lemma ParseHex2Inverse(b: byte)
    ensures ParseHex2(Hex2Upper(b)[0], Hex2Upper(b)[1]) == Some(b)
    ensures ParseHex2(Hex2Lower(b)[0], Hex2Lower(b)[1]) == Some(b)
  {
    HexDigitsRoundTrip(b / 16);
    HexDigitsRoundTrip(b % 16);
  }

  /// Six bytes as colon-separated pairs of upper-case hex digits, in the
  /// order given.
  function MacText(b: bytes): (r: string)
    requires |b| == 6
    ensures |r| == 17
  {
    Hex2Upper(b[0]) + ColonHex(b[1..])
  }

  /// Each byte as ":" followed by two upper-case hex digits.
  function ColonHex(bs: bytes): (r: string)
    ensures |r| == 3 * |bs|
  {
    if bs == [] then [] else ":" + Hex2Upper(bs[0]) + ColonHex(bs[1..])
  }

  /// Lower-case hex text of a byte string, two digits per byte
  /// (`hex::encode`, or two-digit lower-case formatting per byte).
  function HexLower(bs: bytes): (r: string)
    ensures |r| == 2 * |bs|
  {
    if bs == [] then [] else Hex2Lower(bs[0]) + HexLower(bs[1..])
  }

  /// Upper-case hex text of a byte string, two digits per byte.
  function HexUpper(bs: bytes): (r: string)
    ensures |r| == 2 * |bs|
  {
    if bs == [] then [] else Hex2Upper(bs[0]) + HexUpper(bs[1..])
  }

  /// Equal hex texts come from equal byte strings.
  lemma {:induction false} HexLowerInjective(a: bytes, b: bytes)
    requires HexLower(a) == HexLower(b)
    ensures a == b
  {
    if a != [] {
      assert |b| == |a|;
      assert HexLower(a)[..2] == Hex2Lower(a[0]) && HexLower(b)[..2] == Hex2Lower(b[0]);
      ParseHex2Inverse(a[0]);
      ParseHex2Inverse(b[0]);
      assert HexLower(a)[2..] == HexLower(a[1..]) && HexLower(b)[2..] == HexLower(b[1..]);
      HexLowerInjective(a[1..], b[1..]);
    }
  }

  // ---------------------------------------------------------------------
  // Bit fields, least significant bit first

  function Pow2(k: nat): (r: nat)
    ensures r >= 1
  {
    if k == 0 then 1 else 2 * Pow2(k - 1)
  }

  /// `x & (1 << k) != 0`
  predicate Bit(x: nat, k: nat)
  {
    (x / Pow2(k)) % 2 == 1
  }

  /// The low `n` bits of `x`.
  function Bits(x: nat, n: nat): (r: seq<bool>)
    ensures |r| == n && forall k :: 0 <= k < n ==> r[k] == Bit(x, k)
  {
    seq(n, k requires 0 <= k < n => Bit(x, k))
  }

  /// The number whose bit `k` is `bits[k]`.
  function BitsValue(bits: seq<bool>): nat
  {
    if bits == [] then 0 else (if bits[0] then 1 else 0) + 2 * BitsValue(bits[1..])
  }

  lemma MulAwayFromZero(d: int, k: int)
    requires d > 0
    ensures k >= 1 ==> d * k >= d
    ensures k <= -1 ==> d * k <= -d
  {
    if k >= 1 {
      assert d * k == d + d * (k - 1);
    } else if k <= -1 {
      assert d * k == -d + d * (k + 1);
    }
  }

  /// Quotient and remainder are determined by any decomposition with the
  /// remainder in range.
  lemma DivModUnique(x: int, d: int, a: int, r: int)
    requires d > 0 && x == d * a + r && 0 <= r < d
    ensures x / d == a && x % d == r
  {
    var q, s := x / d, x % d;
    assert x == d * q + s && 0 <= s < d;
    var k := q - a;
    assert d * k == r - s by {
      assert d * q == d * a + d * k;
    }
    MulAwayFromZero(d, k);
  }

  lemma DivTwice(x: nat, m: nat)
    requires m >= 1
    ensures x / (2 * m) == (x / 2) / m
    ensures x % (2 * m) == x % 2 + 2 * ((x / 2) % m)
  {
    var q := x / 2;
    var a := q / m;
    var c := q % m;
    assert q == m * a + c;
    assert x == 2 * q + x % 2;
    assert 2 * (m * a) == (2 * m) * a;
    assert x == (2 * m) * a + (2 * c + x % 2);
    DivModUnique(x, 2 * m, a, 2 * c + x % 2);
  }

  lemma BitShift(x: nat, k: nat)
    ensures Bit(x, k + 1) == Bit(x / 2, k)
  {
    DivTwice(x, Pow2(k));
  }

  lemma {:induction false} BitsValueOfBits(x: nat, n: nat)
    ensures BitsValue(Bits(x, n)) == x % Pow2(n)
  {
    if n > 0 {
      var b := Bits(x, n);
      var t := Bits(x / 2, n - 1);
      forall k | 0 <= k < n - 1 ensures b[1..][k] == t[k] {
        BitShift(x, k);
      }
      assert b[1..] == t;
      BitsValueOfBits(x / 2, n - 1);
      DivTwice(x, Pow2(n - 1));
      assert Pow2(n) == 2 * Pow2(n - 1);
      assert b[0] <==> x % 2 == 1;
      var low := if b[0] then 1 else 0;
      assert low == x % 2;
      assert BitsValue(b) == low + 2 * BitsValue(t);
    }
  }

  lemma {:induction false} BitsOfBitsValue(bits: seq<bool>)
    ensures BitsValue(bits) < Pow2(|bits|)
    ensures Bits(BitsValue(bits), |bits|) == bits
  {
    if bits != [] {
      var v := BitsValue(bits);
      var tail := bits[1..];
      BitsOfBitsValue(tail);
      assert v / 2 == BitsValue(tail) && v % 2 == (if bits[0] then 1 else 0);
      var r := Bits(v, |bits|);
      forall k | 0 <= k < |bits| ensures r[k] == bits[k] {
        if k > 0 {
          BitShift(v, k - 1);
        }
      }
    }
  }

  /// Bitwise OR of two naturals.
  function BitOr(a: nat, b: nat): nat
    decreases a + b
  {
    if a == 0 then b
    else if b == 0 then a
    else 2 * BitOr(a / 2, b / 2) + (if a % 2 == 1 || b % 2 == 1 then 1 else 0)
  }

  /// OR of a multiple of 2^k with a value below 2^k is their sum.
  lemma {:induction false} BitOrDisjoint(m: nat, b: nat, k: nat)
    requires b < Pow2(k)
    ensures BitOr(m * Pow2(k), b) == m * Pow2(k) + b
    decreases k
  {
    var a := m * Pow2(k);
    if k == 0 {
      assert b == 0;
    } else if a != 0 && b != 0 {
      var c := m * Pow2(k - 1);
      assert a == 2 * c;
      assert a / 2 == c && a % 2 == 0;
      BitOrDisjoint(m, b / 2, k - 1);
      assert BitOr(a, b) == 2 * BitOr(c, b / 2) + b % 2;
    }
  }

  lemma {:induction false} BitOrComm(a: nat, b: nat)
    ensures BitOr(a, b) == BitOr(b, a)
    decreases a + b
  {
    if a != 0 && b != 0 {
      BitOrComm(a / 2, b / 2);
    }
  }

  /// Setting bit `k` of a number below 2^k adds 2^k.
  lemma SetHighBit(x: nat, k: nat)
    requires x < Pow2(k)
    ensures BitOr(x, Pow2(k)) == x + Pow2(k)
  {
    BitOrDisjoint(1, x, k);
    BitOrComm(x, Pow2(k));
  }

  // ---------------------------------------------------------------------
  // Rust string helpers

  /// The value of a string of hex digits of either case, if every
  /// character is one.
  function HexNumber(s: string): Option<nat>
  {
    if s == [] then Some(0)
    else
      match (HexNumber(s[..|s| - 1]), HexValue(s[|s| - 1]))
      case (Some(h), Some(d)) => Some(16 * h + d)
      case _ => None
  }

  /// `u8::from_str_radix(s, 16)`: an optional leading '+', then at least one
  /// hex digit, with a value below 256 (leading zeros allowed).
  function ParseU8Hex(s: string): (r: Option<byte>)
  {
    var digits := if |s| > 0 && s[0] == '+' then s[1..] else s;
    if digits == [] then None
    else
      match HexNumber(digits)
      case Some(v) => if v < 0x100 then Some(v) else None
      case None => None
  }

  /// Two hex digits read by `from_str_radix`.
  lemma ParseU8HexPair(c0: char, c1: char, h: int, l: int)
    requires HexValue(c0) == Some(h) && HexValue(c1) == Some(l)
    ensures ParseU8Hex([c0, c1]) == Some(16 * h + l)
  {
    var s := [c0, c1];
    assert s[..1] == [c0] && [c0][..0] == [];
    assert HexNumber([c0]) == Some(h);
    assert HexNumber(s) == Some(16 * h + l);
  }

  /// Two upper- or lower-case digits read back by `from_str_radix`.
  lemma ParseU8HexOfHex2(b: byte)
    ensures ParseU8Hex(Hex2Upper(b)) == Some(b)
    ensures ParseU8Hex(Hex2Lower(b)) == Some(b)
  {
    HexDigitsRoundTrip(b / 16);
    HexDigitsRoundTrip(b % 16);
    ParseU8HexPair(HexDigitUpper(b / 16), HexDigitUpper(b % 16), b / 16, b % 16);
    ParseU8HexPair(HexDigitLower(b / 16), HexDigitLower(b % 16), b / 16, b % 16);
  }

  /// `s.split(d)`: the pieces between occurrences of `d`; `n` occurrences
  /// give `n + 1` pieces, and the empty string gives one empty piece.
  function Split(s: string, d: char): (r: seq<string>)
    ensures |r| >= 1
  {
    if s == [] then [[]]
    else
      var rest := Split(s[1..], d);
      if s[0] == d then [[]] + rest else [[s[0]] + rest[0]] + rest[1..]
  }

  /// Number of occurrences of `c` in `s`.
  function Occurrences(s: string, c: char): nat
  {
    if s == [] then 0 else (if s[0] == c then 1 else 0) + Occurrences(s[1..], c)
  }

  /// Joining the pieces with the delimiter gives the string back.
  function Join(parts: seq<string>, d: char): string
    requires |parts| >= 1
  {
    if |parts| == 1 then parts[0] else parts[0] + [d] + Join(parts[1..], d)
  }

  lemma {:induction false} SplitCount(s: string, d: char)
    ensures |Split(s, d)| == Occurrences(s, d) + 1
  {
    if s != [] {
      SplitCount(s[1..], d);
    }
  }

  /// `split` then `join` gives the string back.
  lemma {:induction false} SplitJoin(s: string, d: char)
    ensures Join(Split(s, d), d) == s
  {
    if s != [] {
      SplitJoin(s[1..], d);
      var rest := Split(s[1..], d);
      if s[0] == d {
        assert Split(s, d)[1..] == rest;
      } else {
        JoinPrepend(s[0], rest, d);
      }
      assert s == [s[0]] + s[1..];
    }
  }

  /// Prefixing the first piece prefixes the joined string.
  lemma JoinPrepend(c: char, parts: seq<string>, d: char)
    requires |parts| >= 1
    ensures Join([[c] + parts[0]] + parts[1..], d) == [c] + Join(parts, d)
  {
    var r := [[c] + parts[0]] + parts[1..];
    if |parts| > 1 {
      assert r[1..] == parts[1..];
    }
  }

  /// No piece contains the delimiter.
  lemma {:induction false} SplitPieces(s: string, d: char)
    ensures forall i :: 0 <= i < |Split(s, d)| ==> d !in Split(s, d)[i]
  {
    if s != [] {
      SplitPieces(s[1..], d);
      var rest := Split(s[1..], d);
      if s[0] != d {
        assert d !in [s[0]] + rest[0];
      }
    }
  }

  lemma {:induction false} RemoveCharAppend(a: string, b: string, c: char)
    ensures RemoveChar(a + b, c) == RemoveChar(a, c) + RemoveChar(b, c)
  {
    if a != [] {
      assert (a + b)[1..] == a[1..] + b;
      RemoveCharAppend(a[1..], b, c);
    } else {
      assert a + b == b;
    }
  }

  lemma {:induction false} RemoveCharAbsent(s: string, c: char)
    requires c !in s
    ensures RemoveChar(s, c) == s
  {
    if s != [] {
      assert c !in s[1..];
      RemoveCharAbsent(s[1..], c);
    }
  }

  /// Hex text carries only hex digits.
  lemma {:induction false} HexUpperDigits(bs: bytes)
    ensures forall i :: 0 <= i < |HexUpper(bs)| ==> IsHexChar(HexUpper(bs)[i])
  {
    if bs != [] {
      HexUpperDigits(bs[1..]);
      var h := Hex2Upper(bs[0]);
      assert HexUpper(bs) == h + HexUpper(bs[1..]);
      assert IsHexChar(h[0]) && IsHexChar(h[1]);
    }
  }

  lemma HexUpperNoSeparators(bs: bytes)
    ensures ':' !in HexUpper(bs) && '-' !in HexUpper(bs)
  {
    HexUpperDigits(bs);
    var h := HexUpper(bs);
    forall i | 0 <= i < |h| ensures h[i] != ':' && h[i] != '-' {
      assert IsHexChar(h[i]);
    }
  }

  /// Dropping the colons of the colon form leaves the plain hex text.
  lemma {:induction false} ColonHexWithoutColons(bs: bytes)
    ensures RemoveChar(ColonHex(bs), ':') == HexUpper(bs)
  {
    if bs != [] {
      var h := Hex2Upper(bs[0]);
      assert ':' !in h;
      RemoveCharAppend(":" + h, ColonHex(bs[1..]), ':');
      RemoveCharAppend(":", h, ':');
      RemoveCharAbsent(h, ':');
      ColonHexWithoutColons(bs[1..]);
    }
  }

  lemma MacTextWithoutColons(b: bytes)
    requires |b| == 6
    ensures RemoveChar(MacText(b), ':') == HexUpper(b)
  {
    var h := Hex2Upper(b[0]);
    assert ':' !in h;
    RemoveCharAppend(h, ColonHex(b[1..]), ':');
    RemoveCharAbsent(h, ':');
    ColonHexWithoutColons(b[1..]);
  }

  /// Byte `k` of a byte string is the digit pair at `2k` of its hex text.
  lemma {:induction false} HexUpperPair(bs: bytes, k: nat)
    requires k < |bs|
    ensures HexUpper(bs)[2 * k..2 * k + 2] == Hex2Upper(bs[k])
  {
    var t := HexUpper(bs[1..]);
    assert HexUpper(bs) == Hex2Upper(bs[0]) + t;
    if k > 0 {
      HexUpperPair(bs[1..], k - 1);
      assert HexUpper(bs)[2 * k..2 * k + 2] == t[2 * (k - 1)..2 * (k - 1) + 2];
    }
  }

  /// `needle` occurs in `hay` starting at index `i`.
  predicate OccursAt(hay: string, needle: string, i: nat)
  {
    i + |needle| <= |hay| && hay[i..i + |needle|] == needle
  }

  /// `hay.contains(needle)` for string needles.
  predicate Contains(hay: string, needle: string)
  {
    exists i: nat | i <= |hay| :: OccursAt(hay, needle, i)
  }

  /// `parts.join(sep)`
  function JoinWith(parts: seq<string>, sep: string): string
  {
    if parts == [] then []
    else if |parts| == 1 then parts[0]
    else parts[0] + sep + JoinWith(parts[1..], sep)
  }

  lemma ToUpperIdempotent(s: string)
    ensures ToUpper(ToUpper(s)) == ToUpper(s)
  {
  }

  lemma ToUpperOfToLower(s: string)
    ensures ToUpper(ToLower(s)) == ToUpper(s)
  {
  }

  /// `b` back to front.
  function Reversed(b: bytes): (r: bytes)
    ensures |r| == |b|
    ensures forall i :: 0 <= i < |b| ==> r[i] == b[|b| - 1 - i]
  {
    if b == [] then [] else Reversed(b[1..]) + [b[0]]
  }

  /// `hex::decode`: pairs of hex digits of either case; an odd length or a
  /// non-hex character fails.
  function HexDecode(s: string): (r: Option<bytes>)
    ensures r.Some? ==> 2 * |r.value| == |s|
  {
    if |s| % 2 == 1 then None
    else if s == [] then Some([])
    else
      match (ParseHex2(s[0], s[1]), HexDecode(s[2..]))
      case (Some(b), Some(rest)) => Some([b] + rest)
      case _ => None
  }

  /// Hex text decodes back to its bytes.
  lemma {:induction false} HexDecodeHexUpper(bs: bytes)
    ensures HexDecode(HexUpper(bs)) == Some(bs)
  {
    if bs != [] {
      var s := HexUpper(bs);
      assert s[..2] == Hex2Upper(bs[0]) && s[2..] == HexUpper(bs[1..]);
      assert s[0] == Hex2Upper(bs[0])[0] && s[1] == Hex2Upper(bs[0])[1];
      ParseHex2Inverse(bs[0]);
      HexDecodeHexUpper(bs[1..]);
      assert |s| % 2 == 0;
      assert HexDecode(s) == Some([bs[0]] + bs[1..]);
      assert [bs[0]] + bs[1..] == bs;
    }
  }
}
