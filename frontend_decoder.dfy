// The dashboard's own advertising-data decoder (frontend/app.js): a
// whitespace-separated hex string is split into tokens, each token is read
// with `parseInt(token, 16)`, and the resulting numbers are walked as
// length-prefixed structures; a summary picks out the name, the
// manufacturer ID and the TX power.
//
// JavaScript values are modelled as far as this code can meet them: a
// token reads as an integer or as NaN, an index past the end of the array
// is `undefined`, and calling `toString` on `undefined` throws.

module FrontendDecoder {
  import opened Common
  import AdvertisingParser

  /// A JavaScript number produced by `parseInt`: an integer or NaN.
  datatype JsNum = Num(v: int) | NaN

  /// One entry of `structures`. The hex texts, the name and the
  /// description are functions of the length and the type, so they are
  /// derived rather than stored (`isStructure` is always true).
  datatype Structure = Structure(length: JsNum, adType: JsNum, dataBytes: seq<JsNum>)
  {
    function TypeHex(): string { HexText(adType) }
    function LengthHex(): string { HexText(length) }
    function TypeName(): string { AdTypeInfo(adType).0 }
    function Description(): string { AdTypeInfo(adType).1 }
  }

  /// One summary line; the device name is a string of UTF-16 code units.
  datatype SummaryEntry =
    | DeviceName(units: seq<u16>)
    | ManufacturerId(text: string)
    | TxPower(text: string)
  {
    function Label(): string
    {
      match this
      case DeviceName(_) => "Nazwa urz\U{0105}dzenia"
      case ManufacturerId(_) => "ID Producenta"
      case TxPower(_) => "Moc nadawania"
    }
  }

  datatype Decoded = Decoded(structures: seq<Structure>, summary: seq<SummaryEntry>)

  // -----------------------------------------------------------------------
  // Tokens: `hexString.split(/\s+/)`

  /// The characters `\s` matches: ECMAScript WhiteSpace and LineTerminator.
  predicate IsJsSpace(c: char)
  {
    c == '\t' || c == '\n' || c == '\U{B}' || c == '\U{C}' || c == '\r' || c == ' ' ||
    c == '\U{A0}' || c == '\U{1680}' || ('\U{2000}' <= c <= '\U{200A}') ||
    c == '\U{2028}' || c == '\U{2029}' || c == '\U{202F}' || c == '\U{205F}' ||
    c == '\U{3000}' || c == '\U{FEFF}'
  }

  /// Length of the longest prefix of `s` without whitespace.
  function WordLen(s: string): (n: nat)
    ensures n <= |s|
  {
    if s == [] || IsJsSpace(s[0]) then 0 else 1 + WordLen(s[1..])
  }

  /// Length of the longest all-whitespace prefix of `s`.
  function SpaceLen(s: string): (n: nat)
    ensures n <= |s|
  {
    if s == [] || !IsJsSpace(s[0]) then 0 else 1 + SpaceLen(s[1..])
  }

  /// `s.split(/\s+/)`: every maximal run of whitespace separates two
  /// tokens, so leading or trailing whitespace gives an empty first or last
  /// token, and the empty string gives one empty token.
  function SplitWs(s: string): seq<string>
    decreases |s|
  {
    var w := WordLen(s);
    if w == |s| then [s]
    else
      var k := SpaceLen(s[w..]);
      [s[..w]] + SplitWs(s[w..][k..])
  }

  /// Tokens joined by single spaces.
  function JoinSpaces(toks: seq<string>): string
  {
    if toks == [] then [] else if |toks| == 1 then toks[0] else toks[0] + " " + JoinSpaces(toks[1..])
  }

  predicate NoSpace(t: string) { forall i :: 0 <= i < |t| ==> !IsJsSpace(t[i]) }

  lemma {:induction false} WordLenNoSpace(s: string)
    ensures NoSpace(s[..WordLen(s)])
    ensures WordLen(s) < |s| ==> IsJsSpace(s[WordLen(s)])
  {
    if s != [] && !IsJsSpace(s[0]) {
      WordLenNoSpace(s[1..]);
      assert s[..WordLen(s)] == [s[0]] + s[1..][..WordLen(s[1..])];
    }
  }

  lemma {:induction false} WordLenOfWord(t: string, rest: string)
    requires NoSpace(t)
    requires rest == [] || IsJsSpace(rest[0])
    ensures WordLen(t + rest) == |t|
  {
    if t != [] {
      assert (t + rest)[0] == t[0] && (t + rest)[1..] == t[1..] + rest;
      WordLenOfWord(t[1..], rest);
    } else {
      assert t + rest == rest;
    }
  }

  /// No token contains whitespace, and there is always at least one.
  lemma {:induction false} SplitWsTokens(s: string)
    ensures |SplitWs(s)| >= 1
    ensures forall i :: 0 <= i < |SplitWs(s)| ==> NoSpace(SplitWs(s)[i])
    decreases |s|
  {
    var w := WordLen(s);
    WordLenNoSpace(s);
    if w < |s| {
      var k := SpaceLen(s[w..]);
      assert SpaceLen(s[w..]) >= 1;
      SplitWsTokens(s[w..][k..]);
      assert SplitWs(s) == [s[..w]] + SplitWs(s[w..][k..]);
    }
  }

  /// Splitting undoes joining with single spaces when no token is empty or
  /// holds whitespace.
  lemma {:induction false} SplitJoin(toks: seq<string>)
    requires |toks| >= 1
    requires forall i :: 0 <= i < |toks| ==> toks[i] != [] && NoSpace(toks[i])
    ensures SplitWs(JoinSpaces(toks)) == toks
  {
    if |toks| == 1 {
      WordLenOfWord(toks[0], []);
      assert toks[0] + [] == toks[0];
    } else {
      SplitJoin(toks[1..]);
      JoinStartsWithToken(toks[1..]);
      SplitAfterWord(toks[0], JoinSpaces(toks[1..]));
      assert [toks[0]] + toks[1..] == toks;
    }
  }

  lemma SplitAfterWord(t: string, rest: string)
    requires NoSpace(t) && rest != [] && !IsJsSpace(rest[0])
    ensures SplitWs(t + " " + rest) == [t] + SplitWs(rest)
  {
    var s := t + " " + rest;
    var tail := " " + rest;
    assert s == t + tail;
    WordLenOfWord(t, tail);
    assert s[..|t|] == t && s[|t|..] == tail;
    assert tail[1..] == rest;
    assert SpaceLen(tail) == 1;
    assert tail[1..] == rest;
  }

  lemma JoinStartsWithToken(toks: seq<string>)
    requires |toks| >= 1 && toks[0] != []
    ensures JoinSpaces(toks) != [] && JoinSpaces(toks)[0] == toks[0][0]
  {
  }

  // -----------------------------------------------------------------------
  // Numbers: `parseInt(token, 16)`

  /// Length of the longest prefix of hex digits.
  function HexPrefixLen(s: string): (n: nat)
    ensures n <= |s|
  {
    if s == [] || !IsHexChar(s[0]) then 0 else 1 + HexPrefixLen(s[1..])
  }

  /// The value of a string of hex digits, most significant first.
  function HexDigitsValue(s: string): nat
    requires forall i :: 0 <= i < |s| ==> IsHexChar(s[i])
  {
    if s == [] then 0 else 16 * HexDigitsValue(s[..|s| - 1]) + HexValue(s[|s| - 1]).value
  }

  /// `parseInt(tok, 16)`: an optional sign, an optional `0x`/`0X`, then
  /// the longest run of hex digits; no digit at all gives NaN.
  function ParseIntHex(tok: string): JsNum
  {
    var signed := tok != [] && (tok[0] == '-' || tok[0] == '+');
    var rest := if signed then tok[1..] else tok;
    var digits := if |rest| >= 2 && rest[0] == '0' && (rest[1] == 'x' || rest[1] == 'X') then rest[2..] else rest;
    var k := HexPrefixLen(digits);
    if k == 0 then NaN
    else
      HexPrefixAllHex(digits);
      var v: int := HexDigitsValue(digits[..k]);
      if signed && tok[0] == '-' then Num(0 - v) else Num(v)
  }

  lemma {:induction false} HexPrefixAllHex(s: string)
    ensures forall i :: 0 <= i < HexPrefixLen(s) ==> IsHexChar(s[i])
  {
    if s != [] && IsHexChar(s[0]) {
      HexPrefixAllHex(s[1..]);
      forall i | 0 <= i < HexPrefixLen(s)
        ensures IsHexChar(s[i])
      {
        if i > 0 {
          assert s[i] == s[1..][i - 1];
        }
      }
    }
  }

  /// The numbers the walk runs over.
  function HexBytes(hexString: string): seq<JsNum>
  {
    var toks := SplitWs(hexString);
    seq(|toks|, i requires 0 <= i < |toks| => ParseIntHex(toks[i]))
  }

  /// No token reads as a negative number (no token starts with '-'
  /// followed by a hex digit).
  predicate NonNegative(bytes: seq<JsNum>)
  {
    forall k :: 0 <= k < |bytes| ==> bytes[k].NaN? || bytes[k].v >= 0
  }

  // -----------------------------------------------------------------------
  // Texts

  /// `n.toString(16)`
  function ToString16(n: JsNum): string
  {
    match n
    case NaN => "NaN"
    case Num(v) => if v < 0 then "-" + HexLowerUnpadded(-v) else HexLowerUnpadded(v)
  }

  /// `s.padStart(2, '0')`
  function PadStart2(s: string): string
  {
    if |s| >= 2 then s else seq(2 - |s|, _ => '0') + s
  }

  /// `n.toString(16).padStart(2, '0').toUpperCase()`
  function HexText(n: JsNum): string
  {
    ToUpper(PadStart2(ToString16(n)))
  }

  lemma HexDigitCase(n: int)
    requires 0 <= n < 16
    ensures UpperChar(HexDigitLower(n)) == HexDigitUpper(n)
    ensures IsHexChar(HexDigitLower(n)) && HexValue(HexDigitLower(n)) == Some(n)
  {
  }

  /// A byte's type and length texts are its two-digit upper-case hex form.
  lemma HexTextOfByte(b: byte)
    ensures HexText(Num(b)) == Hex2Upper(b)
  {
    if b < 16 {
      assert HexLowerUnpadded(b) == [HexDigitLower(b)];
      assert PadStart2([HexDigitLower(b)]) == ['0', HexDigitLower(b)];
      HexDigitCase(b);
    } else {
      assert HexLowerUnpadded(b / 16) == [HexDigitLower(b / 16)];
      HexDigitCase(b / 16);
      HexDigitCase(b % 16);
    }
  }

  /// `parseInt(n.toString(16), 16) == n`: the fallback name of an unknown
  /// type can be read back.
  lemma {:induction false} ParseUnpaddedHex(n: nat)
    ensures ParseIntHex(HexLowerUnpadded(n)) == Num(n)
  {
    var s := HexLowerUnpadded(n);
    AllHexPrefix(n);
    HexValueOfUnpadded(n);
    if |s| >= 2 {
      assert IsHexChar(s[1]);
    }
    assert s[..|s|] == s;
  }

  lemma {:induction false} AllHexPrefix(n: nat)
    ensures HexPrefixLen(HexLowerUnpadded(n)) == |HexLowerUnpadded(n)|
    ensures forall i :: 0 <= i < |HexLowerUnpadded(n)| ==> IsHexChar(HexLowerUnpadded(n)[i])
    decreases n
  {
    var s := HexLowerUnpadded(n);
    if n < 16 {
      HexDigitCase(n);
    } else {
      AllHexPrefix(n / 16);
      HexDigitCase(n % 16);
      AllHexPrefixSnoc(HexLowerUnpadded(n / 16), HexDigitLower(n % 16));
    }
  }

  lemma {:induction false} AllHexPrefixSnoc(s: string, c: char)
    requires HexPrefixLen(s) == |s| && IsHexChar(c)
    ensures HexPrefixLen(s + [c]) == |s| + 1
    ensures forall i :: 0 <= i < |s| ==> (s + [c])[i] == s[i]
  {
    if s != [] {
      assert (s + [c])[1..] == s[1..] + [c];
      AllHexPrefixSnoc(s[1..], c);
    } else {
      assert HexPrefixLen([c][1..]) == 0;
    }
  }

  lemma {:induction false} HexValueOfUnpadded(n: nat)
    ensures forall i :: 0 <= i < |HexLowerUnpadded(n)| ==> IsHexChar(HexLowerUnpadded(n)[i])
    ensures HexDigitsValue(HexLowerUnpadded(n)) == n
    decreases n
  {
    AllHexPrefix(n);
    var s := HexLowerUnpadded(n);
    if n < 16 {
      HexDigitCase(n);
      assert s[..0] == [];
    } else {
      HexValueOfUnpadded(n / 16);
      HexDigitCase(n % 16);
      assert s[..|s| - 1] == HexLowerUnpadded(n / 16);
    }
  }

  /// `` `${n}` `` for a number.
  function DecimalText(n: JsNum): string
  {
    match n
    case NaN => "NaN"
    case Num(v) => IntToString(v)
  }

  // -----------------------------------------------------------------------
  // getAdTypeInfo and getAdTypeColor

  /// The keys of the type table (0x2A appears twice; the later entry wins).
  predicate KnownJsType(t: int)
  {
    t in {0x01, 0x02, 0x03, 0x04, 0x05, 0x06, 0x07, 0x08, 0x09, 0x0A, 0x0D, 0x14, 0x1F,
          0x20, 0x21, 0x22, 0x23, 0x24, 0x27, 0x29, 0x2A, 0x2A19, 0xFF}
  }

  /// `getAdTypeInfo(type)`: name and description.
  function AdTypeInfo(t: JsNum): (string, string)
  {
    if t.NaN? || !KnownJsType(t.v) then ("Unknown (0x" + ToString16(t) + ")", "Nieznany typ")
    else
      match t.v
      case 0x01 => ("Flags", "Flagi urz\U{0105}dzenia")
      case 0x02 => ("Incomplete List 16-bit UUIDs", "Niekompletna lista UUID 16-bit")
      case 0x03 => ("Complete List 16-bit UUIDs", "Kompletna lista UUID 16-bit")
      case 0x04 => ("Incomplete List 32-bit UUIDs", "Niekompletna lista UUID 32-bit")
      case 0x05 => ("Complete List 32-bit UUIDs", "Kompletna lista UUID 32-bit")
      case 0x06 => ("Incomplete List 128-bit UUIDs", "Niekompletna lista UUID 128-bit")
      case 0x07 => ("Complete List 128-bit UUIDs", "Kompletna lista UUID 128-bit")
      case 0x08 => ("Shortened Local Name", "Skr\U{00F3}cona nazwa lokalna")
      case 0x09 => ("Complete Local Name", "Pe\U{0142}na nazwa lokalna")
      case 0x0A => ("TX Power Level", "Poziom mocy nadawania")
      case 0x0D => ("Device Name", "Nazwa urz\U{0105}dzenia")
      case 0x14 => ("Slave Connection Interval", "Interwa\U{0142} po\U{0142}\U{0105}czenia slave")
      case 0x1F => ("List of 16-bit Service UUIDs", "Lista serwis\U{00F3}w 16-bit")
      case 0x20 => ("List of 32-bit Service UUIDs", "Lista serwis\U{00F3}w 32-bit")
      case 0x21 => ("List of 128-bit Service UUIDs", "Lista serwis\U{00F3}w 128-bit")
      case 0x22 => ("Public Target Address", "Publiczny adres docelowy")
      case 0x23 => ("Random Target Address", "Losowy adres docelowy")
      case 0x24 => ("Appearance", "Wygl\U{0105}d urz\U{0105}dzenia")
      case 0x27 => ("Advertising Interval", "Interwa\U{0142} reklamy")
      case 0x29 => ("Manufacturer Data", "Dane producenta")
      case 0x2A => ("Service Data 16-bit UUID", "Dane serwisu 16-bit UUID")
      case 0x2A19 => ("Battery Level", "Poziom baterii")
      case _ => ("Manufacturer Specific Data", "Dane specyficzne producenta")
  }

  /// An unknown type is named with its unpadded lower-case hex value, which
  /// `parseInt` reads back; a known type never gets the fallback
  /// description.
  lemma AdTypeInfoFallback(t: nat)
    ensures var name := AdTypeInfo(Num(t)).0;
      !KnownJsType(t) ==>
        name == "Unknown (0x" + HexLowerUnpadded(t) + ")" &&
        ParseIntHex(name[11..|name| - 1]) == Num(t)
    ensures KnownJsType(t) <==> AdTypeInfo(Num(t)).1 != "Nieznany typ"
  {
    if !KnownJsType(t) {
      var name := AdTypeInfo(Num(t)).0;
      assert name[11..|name| - 1] == HexLowerUnpadded(t);
      ParseUnpaddedHex(t);
    }
  }

  /// `getAdTypeColor(type)`
  function AdTypeColor(t: JsNum): string
  {
    if t.NaN? then "#6b7280"
    else if t.v == 0x01 then "#4ade80"
    else if t.v == 0x09 then "#60a5fa"
    else if t.v == 0x0A then "#fbbf24"
    else if t.v == 0xFF then "#f87171"
    else if t.v == 0x16 then "#c084fc"
    else if t.v == 0x02 || t.v == 0x03 then "#22d3ee"
    else "#6b7280"
  }

  /// Every type gets a seven-character colour; exactly the seven listed
  /// types get a colour other than the grey fallback.
  lemma AdTypeColorTotal(t: JsNum)
    ensures |AdTypeColor(t)| == 7 && AdTypeColor(t)[0] == '#'
    ensures AdTypeColor(t) != "#6b7280" <==> t.Num? && t.v in {0x01, 0x02, 0x03, 0x09, 0x0A, 0x16, 0xFF}
  {
  }

  // -----------------------------------------------------------------------
  // The walk

  /// `bytes.slice(a, b)` for non-negative bounds.
  function Slice(bytes: seq<JsNum>, a: nat, b: nat): (r: seq<JsNum>)
    ensures |r| <= |bytes|
  {
    var s := if a < |bytes| then a else |bytes|;
    var e := if b < |bytes| then b else |bytes|;
    if s >= e then [] else bytes[s..e]
  }

  /// Prefixes already-pushed structures to the rest of the walk.
  function Prepend(done: seq<Structure>, rest: Result<seq<Structure>>): Result<seq<Structure>>
  {
    match rest
    case Ok(s) => Ok(done + s)
    case Err(m) => Err(m)
  }

  /// The data `bytes.slice(i + 2, i + 1 + length)` of the structure at `i`
  /// (a NaN end makes the slice empty).
  function DataAt(bytes: seq<JsNum>, i: nat): seq<JsNum>
    requires NonNegative(bytes) && i < |bytes|
  {
    if bytes[i].Num? then Slice(bytes, i + 2, i + 1 + bytes[i].v) else []
  }

  /// The walk from index `i` as written: it stops at a zero length or when
  /// `i + length > bytes.length`, which lets through a structure missing its
  /// last byte; a NaN length pushes one structure and ends the loop; a
  /// missing type byte throws.
  function ScanAsWrittenFrom(bytes: seq<JsNum>, i: nat): Result<seq<Structure>>
    requires NonNegative(bytes)
    decreases |bytes| - i
  {
    if i >= |bytes| then Ok([])
    else
      var length := bytes[i];
      if length == Num(0) || (length.Num? && i + length.v > |bytes|) then Ok([])
      else if i + 1 >= |bytes| then Err("TypeError")
      else
        var s := Structure(length, bytes[i + 1], DataAt(bytes, i));
        if length.NaN? then Ok([s]) else Prepend([s], ScanAsWrittenFrom(bytes, i + 1 + length.v))
  }

  /// What one turn of the loop does at index `i`: stop, throw, or push a
  /// structure and go on at `next` (nothing when the length was NaN).
  datatype Step = Stop | Throw | Push(s: Structure, next: Option<nat>)

  /// The body of the structures loop at index `i`.
  method ReadStructure(bytes: seq<JsNum>, i: nat) returns (step: Step)
    requires NonNegative(bytes) && i < |bytes|
    ensures step.Stop? ==> ScanFrom(bytes, i) == Ok([])
    ensures step.Throw? ==> ScanFrom(bytes, i) == Err("TypeError")
    ensures step.Push? && step.next.None? ==> ScanFrom(bytes, i) == Ok([step.s])
    ensures step.Push? && step.next.Some? ==>
      i < step.next.value && ScanFrom(bytes, i) == Prepend([step.s], ScanFrom(bytes, step.next.value))
  {
    var length := bytes[i];
    if length == Num(0) || (length.Num? && i + length.v >= |bytes|) {
      return Stop;
    }
    if i + 1 >= |bytes| {
      return Throw;
    }
    var adType := bytes[i + 1];
    var s := Structure(length, adType, DataAt(bytes, i));
    if length.NaN? {
      return Push(s, None);
    }
    return Push(s, Some(i + 1 + length.v));
  }

  lemma PrependNil(r: Result<seq<Structure>>)
    ensures Prepend([], r) == r
  {
    if r.Ok? {
      assert [] + r.value == r.value;
    }
  }

  /// The structures loop of `parseAdvertisingData`.
  method ScanStructures(bytes: seq<JsNum>) returns (r: Result<seq<Structure>>)
    requires NonNegative(bytes)
    ensures r == ScanFrom(bytes, 0)
  {
    var structures: seq<Structure> := [];
    var i: nat := 0;
    PrependNil(ScanFrom(bytes, 0));
    while i < |bytes|
      invariant ScanFrom(bytes, 0) == Prepend(structures, ScanFrom(bytes, i))
      decreases |bytes| - i
    {
      var step := ReadStructure(bytes, i);
      match step {
        case Stop =>
          assert structures + [] == structures;
          return Ok(structures);
        case Throw =>
          return Err("TypeError");
        case Push(s, None) =>
          assert [s] + [] == [s];
          PrependAssoc(structures, s, ScanFrom(bytes, i), Ok([]));
          structures := structures + [s];
          assert structures + [] == structures;
          return Ok(structures);
        case Push(s, Some(next)) =>
          PrependAssoc(structures, s, ScanFrom(bytes, i), ScanFrom(bytes, next));
          structures := structures + [s];
          i := next;
      }
    }
    assert structures + [] == structures;
    r := Ok(structures);
  }

  lemma PrependAssoc(done: seq<Structure>, s: Structure, here: Result<seq<Structure>>, next: Result<seq<Structure>>)
    requires here == Prepend([s], next)
    ensures Prepend(done, here) == Prepend(done + [s], next)
  {
    if next.Ok? {
      assert done + ([s] + next.value) == (done + [s]) + next.value;
    }
  }

  // -----------------------------------------------------------------------
  // The summary

  /// `(x | 0)`-style 32-bit view of a number (NaN reads as 0).
  function ToUint32(n: JsNum): nat
  {
    match n
    case NaN => 0
    case Num(v) => v % 0x1_0000_0000
  }

  /// A 32-bit pattern read as a signed integer.
  function Signed32(x: int): int
  {
    var m := x % 0x1_0000_0000;
    if m >= 0x8000_0000 then m - 0x1_0000_0000 else m
  }

  /// `(d1 << 8) | d0`
  function ManufacturerValue(d0: JsNum, d1: JsNum): int
  {
    Signed32(BitOr((ToUint32(d1) * 256) % 0x1_0000_0000, ToUint32(d0)))
  }

  /// `mfg.toString(16).toUpperCase()` (a negative value keeps its sign).
  function SignedHexUpper(m: int): string
  {
    ToUpper(ToString16(Num(m)))
  }

  /// `String.fromCharCode(...codes)`: each code taken modulo 2^16.
  function CharCodes(codes: seq<JsNum>): seq<u16>
  {
    seq(|codes|, i requires 0 <= i < |codes| => if codes[i].NaN? then 0 else codes[i].v % 0x1_0000)
  }

  /// The summary line one structure contributes, if any.
  function EntryOf(s: Structure): seq<SummaryEntry>
  {
    var d := s.dataBytes;
    if s.adType == Num(0x09) then [DeviceName(CharCodes(d))]
    else if s.adType == Num(0xFF) then
      (if |d| >= 2 then [ManufacturerId("0x" + SignedHexUpper(ManufacturerValue(d[0], d[1])))] else [])
    else if s.adType == Num(0x0A) then
      (if |d| > 0 then [TxPower(DecimalText(d[0]) + " dBm")] else [])
    else []
  }

  function SummaryOf(ss: seq<Structure>): seq<SummaryEntry>
  {
    if ss == [] then [] else SummaryOf(ss[..|ss| - 1]) + EntryOf(ss[|ss| - 1])
  }

  /// The `structures.forEach` loop that builds the summary.
  method Summarize(structures: seq<Structure>) returns (summary: seq<SummaryEntry>)
    ensures summary == SummaryOf(structures)
  {
    summary := [];
    var k := 0;
    while k < |structures|
      invariant 0 <= k <= |structures|
      invariant summary == SummaryOf(structures[..k])
    {
      assert structures[..k + 1][..k] == structures[..k];
      summary := summary + EntryOf(structures[k]);
      k := k + 1;
    }
    assert structures[..k] == structures;
  }

  /// What `parseAdvertisingData` returns (or that it throws).
  function Decode(hexString: string): Result<Decoded>
    requires NonNegative(HexBytes(hexString))
  {
    if hexString == [] then Ok(Decoded([], []))
    else
      match ScanFrom(HexBytes(hexString), 0)
      case Err(m) => Err(m)
      case Ok(ss) => Ok(Decoded(ss, SummaryOf(ss)))
  }

  /// `parseAdvertisingData(hexString)`; empty input gives empty lists.
  method ParseAdvertisingData(hexString: string) returns (r: Result<Decoded>)
    requires NonNegative(HexBytes(hexString))
    ensures r == Decode(hexString)
    ensures hexString == [] ==> r == Ok(Decoded([], []))
  {
    if hexString == [] {
      return Ok(Decoded([], []));
    }
    var bytes := HexBytes(hexString);
    var scanned := ScanStructures(bytes);
    if scanned.Err? {
      return Err(scanned.msg);
    }
    var summary := Summarize(scanned.value);
    r := Ok(Decoded(scanned.value, summary));
  }

  // -----------------------------------------------------------------------
  // Properties

  /// Hex written without separators is one token, read as one large number,
  /// so the walk stops at once and nothing is decoded.
  lemma UnseparatedHexIsOneToken()
    ensures SplitWs("020106") == ["020106"]
    ensures HexBytes("020106") == [Num(0x020106)]
    ensures Decode("020106") == Ok(Decoded([], []))
  {
    WordLenOfWord("020106", []);
    assert "020106" + [] == "020106";
    HexValueOfSample();
  }

  lemma HexValueOfSample()
    ensures ParseIntHex("020106") == Num(0x020106)
  {
    var digits := "020106";
    assert HexPrefixLen(digits) == 6;
    assert digits[..6] == digits;
    assert HexDigitsValue("0") == 0 by { assert "0"[..0] == []; }
    assert HexDigitsValue("02") == 2 by { assert "02"[..1] == "0"; }
    assert HexDigitsValue("020") == 0x20 by { assert "020"[..2] == "02"; }
    assert HexDigitsValue("0201") == 0x201 by { assert "0201"[..3] == "020"; }
    assert HexDigitsValue("02010") == 0x2010 by { assert "02010"[..4] == "0201"; }
    assert HexDigitsValue("020106") == 0x20106 by { assert "020106"[..5] == "02010"; }
    assert ParseIntHex("020106") == Num(0x020106);
  }

  /// The little-endian company ID of two byte tokens.
  lemma ManufacturerOfBytes(d0: byte, d1: byte)
    ensures ManufacturerValue(Num(d0), Num(d1)) == d0 + 256 * d1
    ensures EntryOf(Structure(Num(3), Num(0xFF), [Num(d0), Num(d1)])) ==
      [ManufacturerId("0x" + ToUpper(HexLowerUnpadded(d0 + 256 * d1)))]
  {
    ByteOr(d0, d1);
    var m := d0 + 256 * d1;
    assert ToString16(Num(m)) == HexLowerUnpadded(m);
  }

  lemma ByteOr(d0: byte, d1: byte)
    ensures ManufacturerValue(Num(d0), Num(d1)) == d0 + 256 * d1
  {
    var hi := d1 * 256;
    SmallMod32(d1);
    SmallMod32(d0);
    SmallMod32(hi);
    Pow2Of8();
    BitOrDisjoint(d1, d0, 8);
    SmallMod32(hi + d0);
  }

  lemma SmallMod32(x: nat)
    requires x < 0x1_0000
    ensures x % 0x1_0000_0000 == x && ToUint32(Num(x)) == x && Signed32(x) == x
  {
    DivModUnique(x, 0x1_0000_0000, 0, x);
  }

  lemma Pow2Of8()
    ensures Pow2(8) == 256
  {
    assert Pow2(4) == 16;
  }

  /// TX power is shown as the unsigned byte: 0xFB reads "251 dBm", not -5.
  lemma TxPowerUnsigned(d: byte)
    ensures EntryOf(Structure(Num(2), Num(0x0A), [Num(d)])) == [TxPower(NatToString(d) + " dBm")]
    ensures EntryOf(Structure(Num(2), Num(0x0A), [Num(0xFB)])) == [TxPower("251 dBm")]
  {
    assert NatToString(2) == "2";
    assert NatToString(25) == NatToString(2) + ['5'] == "25";
    assert NatToString(251) == NatToString(25) + ['1'] == "251";
    assert DecimalText(Num(0xFB)) == "251";
    assert "251" + " dBm" == "251 dBm";
  }

  // -----------------------------------------------------------------------
  // The stop rule, against the walk the other parsers use

  /// Byte values as parsed numbers.
  function AsNums(raw: bytes): seq<JsNum>
  {
    seq(|raw|, i requires 0 <= i < |raw| => Num(raw[i]))
  }

  /// The structure the other parsers see for one element.
  function StructureOf(e: AdvertisingParser.AdElement): Structure
  {
    Structure(Num(|e.data| + 1), Num(e.adType), AsNums(e.data))
  }

  function StructuresOf(es: seq<AdvertisingParser.AdElement>): seq<Structure>
  {
    seq(|es|, i requires 0 <= i < |es| => StructureOf(es[i]))
  }

  /// The walk with the intended stop rule, which the decoder uses: a
  /// structure needs all of its `1 + length` bytes (`i + length >=
  /// bytes.length` stops); otherwise as written.
  function ScanFrom(bytes: seq<JsNum>, i: nat): Result<seq<Structure>>
    requires NonNegative(bytes)
    decreases |bytes| - i
  {
    if i >= |bytes| then Ok([])
    else
      var length := bytes[i];
      if length == Num(0) || (length.Num? && i + length.v >= |bytes|) then Ok([])
      else if i + 1 >= |bytes| then Err("TypeError")
      else
        var s := Structure(length, bytes[i + 1], DataAt(bytes, i));
        if length.NaN? then Ok([s]) else Prepend([s], ScanFrom(bytes, i + 1 + length.v))
  }

  /// On byte input the corrected walk decodes exactly the structures of the
  /// Rust parsers, with nothing clipped and no exception.
  lemma {:induction false} ScanMatchesWalk(raw: bytes, i: nat)
    requires i <= |raw|
    ensures NonNegative(AsNums(raw))
    ensures ScanFrom(AsNums(raw), i) == Ok(StructuresOf(AdvertisingParser.AdElements(raw[i..])))
    decreases |raw| - i
  {
    AsNumsFacts(raw);
    var b := AsNums(raw);
    if i == |raw| || raw[i] == 0 || i + raw[i] as int >= |raw| {
      AdvertisingParser.SuffixStop(raw, i);
      assert ScanFrom(b, i) == Ok([]);
      assert StructuresOf([]) == [];
    } else {
      var j := i + raw[i] as int + 1;
      var e := AdvertisingParser.AdElement(raw[i + 1], raw[i + 2..j]);
      var rest := AdvertisingParser.AdElements(raw[j..]);
      ScanMatchesWalk(raw, j);
      FixedStep(raw, i);
      assert ScanFrom(b, i) == Ok([StructureOf(e)] + StructuresOf(rest));
      StructuresOfCons(e, rest);
      AdvertisingParser.SuffixStep(raw, i);
      assert AdvertisingParser.AdElements(raw[i..]) == [e] + rest;
    }
  }

  lemma AsNumsFacts(raw: bytes)
    ensures |AsNums(raw)| == |raw| && NonNegative(AsNums(raw))
    ensures forall k :: 0 <= k < |raw| ==> AsNums(raw)[k] == Num(raw[k])
  {
  }

  /// One step of the corrected walk over bytes pushes the structure of the
  /// element at `i`.
  lemma FixedStep(raw: bytes, i: nat)
    requires i < |raw| && raw[i] != 0 && i + raw[i] < |raw|
    ensures NonNegative(AsNums(raw))
    ensures ScanFrom(AsNums(raw), i) ==
      Prepend([StructureOf(AdvertisingParser.AdElement(raw[i + 1], raw[i + 2..i + raw[i] as int + 1]))],
        ScanFrom(AsNums(raw), i + raw[i] as int + 1))
  {
    AsNumsFacts(raw);
    var b := AsNums(raw);
    var len := raw[i] as int;
    var d := raw[i + 2..i + len + 1];
    SliceOfNums(raw, i + 2, i + len + 1);
    assert DataAt(b, i) == AsNums(d);
  }

  lemma SliceOfNums(raw: bytes, a: nat, e: nat)
    requires a <= e <= |raw| || (a == e + 1 && e == |raw|) || (a == e + 1 && e < |raw|)
    ensures a <= e ==> Slice(AsNums(raw), a, e) == AsNums(raw[a..e])
    ensures a > e ==> Slice(AsNums(raw), a, e) == [] && raw[e..e] == []
  {
    AsNumsFacts(raw);
    if a < e {
      assert Slice(AsNums(raw), a, e) == AsNums(raw)[a..e];
    }
  }

  lemma StructuresOfCons(e: AdvertisingParser.AdElement, rest: seq<AdvertisingParser.AdElement>)
    ensures StructuresOf([e] + rest) == [StructureOf(e)] + StructuresOf(rest)
  {
    assert forall k :: 0 < k < |[e] + rest| ==> ([e] + rest)[k] == rest[k - 1];
  }

  /// As written, the walk accepts a structure whose last byte is missing:
  /// [02 01] yields a Flags structure with no data where the Rust parsers
  /// see nothing, and a lone 01 throws.
  lemma TruncatedStructureAccepted()
    ensures ScanAsWrittenFrom([Num(2), Num(1)], 0) == Ok([Structure(Num(2), Num(1), [])])
    ensures AdvertisingParser.AdElements([2, 1]) == []
    ensures ScanFrom([Num(2), Num(1)], 0) == Ok([])
    ensures ScanAsWrittenFrom([Num(1)], 0).Err?
  {
    var s := Structure(Num(2), Num(1), []);
    assert Slice([Num(2), Num(1)], 2, 3) == [];
    assert ScanAsWrittenFrom([Num(2), Num(1)], 3) == Ok([]);
    assert [s] + [] == [s];
  }

  /// On numeric input the walk as written agrees with the corrected one
  /// except for at most one extra, clipped structure at the end (or an
  /// exception).
  lemma {:induction false} ScanAsWrittenExtendsScan(b: seq<JsNum>, i: nat)
    requires NonNegative(b)
    requires forall k :: 0 <= k < |b| ==> b[k].Num?
    ensures var w := ScanAsWrittenFrom(b, i); var f := ScanFrom(b, i);
      f.Ok? && w.Ok? ==> |f.value| <= |w.value| <= |f.value| + 1 && w.value[..|f.value|] == f.value
    decreases |b| - i
  {
    if i < |b| && b[i] != Num(0) && i + b[i].v < |b| && i + 1 < |b| {
      var j := i + 1 + b[i].v;
      var s := Structure(b[i], b[i + 1], DataAt(b, i));
      assert ScanAsWrittenFrom(b, i) == Prepend([s], ScanAsWrittenFrom(b, j));
      assert ScanFrom(b, i) == Prepend([s], ScanFrom(b, j));
      ScanAsWrittenExtendsScan(b, j);
      var w := ScanAsWrittenFrom(b, j);
      var f := ScanFrom(b, j);
      if f.Ok? && w.Ok? {
        PrefixCons(s, w.value, f.value);
      }
    } else if i < |b| && b[i] != Num(0) && i + b[i].v == |b| && i + 1 < |b| {
      var s := Structure(b[i], b[i + 1], DataAt(b, i));
      assert ScanFrom(b, i) == Ok([]);
      assert ScanAsWrittenFrom(b, i) == Prepend([s], ScanAsWrittenFrom(b, |b| + 1));
      assert ScanAsWrittenFrom(b, |b| + 1) == Ok([]);
      assert [s] + [] == [s];
    }
  }

  lemma PrefixCons(s: Structure, w: seq<Structure>, f: seq<Structure>)
    requires |f| <= |w| <= |f| + 1 && w[..|f|] == f
    ensures |[s] + f| <= |[s] + w| <= |[s] + f| + 1 && ([s] + w)[..|[s] + f|] == [s] + f
  {
    assert ([s] + w)[..|[s] + f|] == [s] + w[..|f|];
  }
}
