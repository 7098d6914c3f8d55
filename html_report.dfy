// The text helpers of the HTML report generator (src/html_report.rs):
// escaping of special characters and the human-readable scan duration.

module HtmlReport {
  import opened Common

  // -----------------------------------------------------------------------
  // html_escape

  /// `s.replace(c, r)` for a single character.
  function Replace(s: string, c: char, r: string): string
  {
    if s == [] then [] else (if s[0] == c then r else [s[0]]) + Replace(s[1..], c, r)
  }

  lemma {:induction false} ReplaceAppend(a: string, b: string, c: char, r: string)
    ensures Replace(a + b, c, r) == Replace(a, c, r) + Replace(b, c, r)
  {
    if a == [] {
      assert a + b == b;
    } else {
      assert (a + b)[0] == a[0];
      assert (a + b)[1..] == a[1..] + b;
      ReplaceAppend(a[1..], b, c, r);
    }
  }

  lemma {:induction false} ReplaceAbsent(s: string, c: char, r: string)
    requires c !in s
    ensures Replace(s, c, r) == s
  {
    if s != [] {
      assert s[0] != c;
      assert s == [s[0]] + s[1..];
      ReplaceAbsent(s[1..], c, r);
    }
  }

  lemma ReplaceOne(x: char, c: char, r: string)
    ensures Replace([x], c, r) == if x == c then r else [x]
  {
    assert [x][1..] == [];
  }

  /// `html_escape`: '&' first, then '<', '>', '"' and '\''.
  function HtmlEscape(s: string): string
  {
    Replace(Replace(Replace(Replace(Replace(s, '&', "&amp;"), '<', "&lt;"), '>', "&gt;"), '"', "&quot;"), '\'', "&#39;")
  }

  /// The entity for one character, or the character itself.
  function EscapeChar(c: char): string
  {
    match c
    case '&' => "&amp;"
    case '<' => "&lt;"
    case '>' => "&gt;"
    case '"' => "&quot;"
    case '\'' => "&#39;"
    case _ => [c]
  }

  /// Character-by-character escaping, the reference for the chain.
  function EscapeChars(s: string): string
  {
    if s == [] then [] else EscapeChar(s[0]) + EscapeChars(s[1..])
  }

  /// The entities hold none of '<', '>', '"', '\''.
  lemma EntityKept(e: string, c: char, r: string)
    requires e in {"&amp;", "&lt;", "&gt;", "&quot;"}
    requires c in {'<', '>', '"', '\''}
    ensures Replace(e, c, r) == e
  {
    ReplaceAbsent(e, c, r);
  }

  lemma EscapeOfAmpersand()
    ensures HtmlEscape("&") == "&amp;"
  {
    ReplaceOne('&', '&', "&amp;");
    EntityKept("&amp;", '<', "&lt;");
    EntityKept("&amp;", '>', "&gt;");
    EntityKept("&amp;", '"', "&quot;");
    EntityKept("&amp;", '\'', "&#39;");
  }

  lemma EscapeOfLess()
    ensures HtmlEscape("<") == "&lt;"
  {
    ReplaceOne('<', '&', "&amp;");
    ReplaceOne('<', '<', "&lt;");
    EntityKept("&lt;", '>', "&gt;");
    EntityKept("&lt;", '"', "&quot;");
    EntityKept("&lt;", '\'', "&#39;");
  }

  lemma EscapeOfGreater()
    ensures HtmlEscape(">") == "&gt;"
  {
    ReplaceOne('>', '&', "&amp;");
    ReplaceOne('>', '<', "&lt;");
    ReplaceOne('>', '>', "&gt;");
    EntityKept("&gt;", '"', "&quot;");
    EntityKept("&gt;", '\'', "&#39;");
  }

  lemma EscapeOfQuote()
    ensures HtmlEscape("\"") == "&quot;"
  {
    ReplaceOne('"', '&', "&amp;");
    ReplaceOne('"', '<', "&lt;");
    ReplaceOne('"', '>', "&gt;");
    ReplaceOne('"', '"', "&quot;");
    EntityKept("&quot;", '\'', "&#39;");
  }

  lemma EscapeOfApostrophe()
    ensures HtmlEscape("'") == "&#39;"
  {
    ReplaceOne('\'', '&', "&amp;");
    ReplaceOne('\'', '<', "&lt;");
    ReplaceOne('\'', '>', "&gt;");
    ReplaceOne('\'', '"', "&quot;");
    ReplaceOne('\'', '\'', "&#39;");
  }

  lemma EscapeOfPlain(c: char)
    requires c !in {'&', '<', '>', '"', '\''}
    ensures HtmlEscape([c]) == [c]
  {
    ReplaceOne(c, '&', "&amp;");
    ReplaceOne(c, '<', "&lt;");
    ReplaceOne(c, '>', "&gt;");
    ReplaceOne(c, '"', "&quot;");
    ReplaceOne(c, '\'', "&#39;");
  }

  lemma HtmlEscapeOneChar(c: char)
    ensures HtmlEscape([c]) == EscapeChar(c)
  {
    if c == '&' {
      EscapeOfAmpersand();
    } else if c == '<' {
      EscapeOfLess();
    } else if c == '>' {
      EscapeOfGreater();
    } else if c == '"' {
      EscapeOfQuote();
    } else if c == '\'' {
      EscapeOfApostrophe();
    } else {
      EscapeOfPlain(c);
    }
  }

  lemma HtmlEscapeAppend(a: string, b: string)
    ensures HtmlEscape(a + b) == HtmlEscape(a) + HtmlEscape(b)
  {
    ReplaceAppend(a, b, '&', "&amp;");
    var a1, b1 := Replace(a, '&', "&amp;"), Replace(b, '&', "&amp;");
    ReplaceAppend(a1, b1, '<', "&lt;");
    var a2, b2 := Replace(a1, '<', "&lt;"), Replace(b1, '<', "&lt;");
    ReplaceAppend(a2, b2, '>', "&gt;");
    var a3, b3 := Replace(a2, '>', "&gt;"), Replace(b2, '>', "&gt;");
    ReplaceAppend(a3, b3, '"', "&quot;");
    var a4, b4 := Replace(a3, '"', "&quot;"), Replace(b3, '"', "&quot;");
    ReplaceAppend(a4, b4, '\'', "&#39;");
  }

  /// Because '&' goes first, the chain of replacements escapes every
  /// character exactly once: no entity it inserts is escaped again.
  lemma {:induction false} HtmlEscapeIsPerChar(s: string)
    ensures HtmlEscape(s) == EscapeChars(s)
  {
    if s != [] {
      assert s == [s[0]] + s[1..];
      HtmlEscapeAppend([s[0]], s[1..]);
      HtmlEscapeOneChar(s[0]);
      HtmlEscapeIsPerChar(s[1..]);
    }
  }

  lemma AmpersandOfLessEntity()
    ensures Replace("&lt;", '&', "&amp;") == "&amp;lt;"
  {
    assert "&lt;" == ['&'] + "lt;";
    ReplaceAppend(['&'], "lt;", '&', "&amp;");
    ReplaceOne('&', '&', "&amp;");
    ReplaceAbsent("lt;", '&', "&amp;");
  }

  /// With '&' replaced last instead, an escaped '<' would be escaped again
  /// ("&amp;lt;"), where `html_escape` gives "&lt;" (EscapeOfLess).
  lemma AmpersandLastDoubleEscapes()
    ensures Replace(Replace("<", '<', "&lt;"), '&', "&amp;") == "&amp;lt;"
  {
    ReplaceOne('<', '<', "&lt;");
    AmpersandOfLessEntity();
  }

  /// No escaped text holds a raw '<', '>', '"' or '\''.
  lemma {:induction false} EscapedHasNoSpecials(s: string)
    ensures forall i :: 0 <= i < |HtmlEscape(s)| ==> HtmlEscape(s)[i] !in {'<', '>', '"', '\''}
  {
    HtmlEscapeIsPerChar(s);
    EscapeCharsHasNoSpecials(s);
  }

  lemma {:induction false} EscapeCharsHasNoSpecials(s: string)
    ensures forall i :: 0 <= i < |EscapeChars(s)| ==> EscapeChars(s)[i] !in {'<', '>', '"', '\''}
  {
    if s != [] {
      EscapeCharsHasNoSpecials(s[1..]);
      var e, t := EscapeChar(s[0]), EscapeChars(s[1..]);
      forall i | 0 <= i < |e + t|
        ensures (e + t)[i] !in {'<', '>', '"', '\''}
      {
        if i >= |e| {
          assert (e + t)[i] == t[i - |e|];
        }
      }
    }
  }

  /// `s` starts with `p`.
  predicate StartsWith(s: string, p: string)
  {
    |p| <= |s| && s[..|p|] == p
  }

  /// Decoding of the five entities `html_escape` writes; anything else is
  /// kept as it is.
  function Unescape(s: string): string
    decreases |s|
  {
    if s == [] then []
    else if s[0] != '&' then [s[0]] + Unescape(s[1..])
    else if StartsWith(s, "&amp;") then "&" + Unescape(s[5..])
    else if StartsWith(s, "&lt;") then "<" + Unescape(s[4..])
    else if StartsWith(s, "&gt;") then ">" + Unescape(s[4..])
    else if StartsWith(s, "&quot;") then "\"" + Unescape(s[6..])
    else if StartsWith(s, "&#39;") then "'" + Unescape(s[5..])
    else [s[0]] + Unescape(s[1..])
  }

  /// A text whose second character differs from an entity's does not
  /// start with that entity.
  lemma NotStartsWith(s: string, p: string)
    requires |s| >= 2 && |p| >= 2 && s[1] != p[1]
    ensures !StartsWith(s, p)
  {
    if |p| <= |s| {
      assert s[..|p|][1] == s[1];
    }
  }

  lemma UnescapeAfter(e: string, t: string, c: char)
    requires e in {"&amp;", "&lt;", "&gt;", "&quot;", "&#39;"}
    requires c == (if e == "&amp;" then '&' else if e == "&lt;" then '<' else if e == "&gt;" then '>'
                   else if e == "&quot;" then '"' else '\'')
    ensures Unescape(e + t) == [c] + Unescape(t)
  {
    var s := e + t;
    assert s[..|e|] == e;
    assert s[|e|..] == t;
    assert s[0] == '&' && s[1] == e[1];
    if e != "&amp;" {
      NotStartsWith(s, "&amp;");
    }
    if e != "&lt;" {
      NotStartsWith(s, "&lt;");
    }
    if e != "&gt;" {
      NotStartsWith(s, "&gt;");
    }
    if e != "&quot;" {
      NotStartsWith(s, "&quot;");
    }
  }

  lemma UnescapePlain(c: char, t: string)
    requires c != '&'
    ensures Unescape([c] + t) == [c] + Unescape(t)
  {
    var s := [c] + t;
    assert s[0] == c;
    assert s[1..] == t;
  }

  lemma UnescapeChar(c: char, t: string)
    ensures Unescape(EscapeChar(c) + t) == [c] + Unescape(t)
  {
    if c in {'&', '<', '>', '"', '\''} {
      UnescapeAfter(EscapeChar(c), t, c);
    } else {
      UnescapePlain(c, t);
    }
  }

  /// Escaped text decodes back to the original: escaping loses nothing
  /// and different texts escape differently.
  lemma {:induction false} UnescapeHtmlEscape(s: string)
    ensures Unescape(HtmlEscape(s)) == s
  {
    HtmlEscapeIsPerChar(s);
    UnescapeEscapeChars(s);
  }

  lemma {:induction false} UnescapeEscapeChars(s: string)
    ensures Unescape(EscapeChars(s)) == s
  {
    if s != [] {
      UnescapeChar(s[0], EscapeChars(s[1..]));
      UnescapeEscapeChars(s[1..]);
    }
  }

  // -----------------------------------------------------------------------
  // format_duration_human

  /// Hours, minutes, seconds and milliseconds of a duration.
  datatype DurationParts = DurationParts(hours: nat, minutes: nat, seconds: nat, millis: nat)

  function SplitDuration(ms: nat): (p: DurationParts)
    ensures p.minutes < 60 && p.seconds < 60 && p.millis < 1000
    ensures p.hours * 3_600_000 + p.minutes * 60_000 + p.seconds * 1000 + p.millis == ms
  {
    var totalSecs := ms / 1000;
    DurationParts(totalSecs / 3600, (totalSecs % 3600) / 60, totalSecs % 60, ms % 1000)
  }

  /// `format_duration_human`: `HH:MM:SS.mmmh` from one hour, `MM:SS.mmmm`
  /// from one minute, `SS.mmms` below; each field zero-padded to two
  /// digits, the milliseconds to three.
  function FormatDurationHuman(ms: u64): string
  {
    var p := SplitDuration(ms);
    if p.hours > 0 then
      ZeroPad(p.hours, 2) + ":" + ZeroPad(p.minutes, 2) + ":" + ZeroPad(p.seconds, 2) + "." + ZeroPad(p.millis, 3) + "h"
    else if p.minutes > 0 then
      ZeroPad(p.minutes, 2) + ":" + ZeroPad(p.seconds, 2) + "." + ZeroPad(p.millis, 3) + "m"
    else
      ZeroPad(p.seconds, 2) + "." + ZeroPad(p.millis, 3) + "s"
  }

  /// The unit letter at the end follows the size of the duration, and the
  /// milliseconds are always the three digits before it.
  lemma FormatDurationUnit(ms: u64)
    ensures var r := FormatDurationHuman(ms);
      && |r| >= 7
      && (r[|r| - 1] == 'h' <==> ms >= 3_600_000)
      && (r[|r| - 1] == 'm' <==> 60_000 <= ms < 3_600_000)
      && (r[|r| - 1] == 's' <==> ms < 60_000)
      && r[|r| - 4..|r| - 1] == ZeroPad(ms % 1000, 3)
      && r[|r| - 5] == '.'
  {
    var p := SplitDuration(ms);
    ZeroPadThree(p.millis);
  }

  /// Decimal value of a digit string (last digit least significant).
  function DecimalValue(s: string): nat
  {
    if s == [] then 0
    else
      var d := s[|s| - 1] as int - '0' as int;
      DecimalValue(s[..|s| - 1]) * 10 + (if 0 <= d <= 9 then d else 0)
  }

  lemma {:induction false} DecimalValueOfNatToString(n: nat)
    ensures DecimalValue(NatToString(n)) == n
    decreases n
  {
    if n >= 10 {
      DecimalValueOfNatToString(n / 10);
      var s := NatToString(n);
      assert s[..|s| - 1] == NatToString(n / 10);
    }
  }

  lemma {:induction false} DecimalValueLeadingZero(t: string)
    ensures DecimalValue("0" + t) == DecimalValue(t)
    decreases |t|
  {
    if t != [] {
      var s := "0" + t;
      assert s[..|s| - 1] == "0" + t[..|t| - 1];
      DecimalValueLeadingZero(t[..|t| - 1]);
    }
  }

  lemma {:induction false} DecimalValueZeros(k: nat, t: string)
    ensures DecimalValue(seq(k, _ => '0') + t) == DecimalValue(t)
  {
    if k == 0 {
      assert seq(k, _ => '0') + t == t;
    } else {
      assert seq(k, _ => '0') + t == "0" + (seq(k - 1, _ => '0') + t);
      DecimalValueLeadingZero(seq(k - 1, _ => '0') + t);
      DecimalValueZeros(k - 1, t);
    }
  }

  /// Every zero-padded field reads back as its number.
  lemma ZeroPadValue(n: nat, w: nat)
    ensures DecimalValue(ZeroPad(n, w)) == n
  {
    var d := NatToString(n);
    DecimalValueOfNatToString(n);
    if |d| < w {
      DecimalValueZeros(w - |d|, d);
    }
  }

  /// A number below 1000 pads to exactly three digits.
  lemma ZeroPadThree(n: nat)
    requires n < 1000
    ensures |ZeroPad(n, 3)| == 3
  {
    var d := NatToString(n);
    if n >= 100 {
      assert NatToString(n / 10) == NatToString(n / 10 / 10) + [('0' as int + (n / 10) % 10) as char];
    } else if n >= 10 {
      assert |NatToString(n / 10)| == 1;
    }
  }

  lemma ZeroPadDigit(n: nat)
    requires n < 10
    ensures ZeroPad(n, 2) == ['0', ('0' as int + n) as char]
  {
  }

  /// 0 ms is shown as seconds, "00.000s".
  lemma FormatDurationZero()
    ensures FormatDurationHuman(0) == "00.000s"
  {
    assert SplitDuration(0) == DurationParts(0, 0, 0, 0);
    ZeroPadDigit(0);
    assert ZeroPad(0, 3) == "000";
  }

  /// 61 234 ms is one minute, one second and 234 ms: "01:01.234m".
  lemma FormatDurationMinutes()
    ensures FormatDurationHuman(61_234) == "01:01.234m"
  {
    assert SplitDuration(61_234) == DurationParts(0, 1, 1, 234);
    ZeroPadDigit(1);
    assert NatToString(23) == "23";
    assert NatToString(234) == "234";
  }

  /// 3 723 004 ms is "01:02:03.004h".
  lemma FormatDurationHours()
    ensures FormatDurationHuman(3_723_004) == "01:02:03.004h"
  {
    assert SplitDuration(3_723_004) == DurationParts(1, 2, 3, 4);
    ZeroPadDigit(1);
    ZeroPadDigit(2);
    ZeroPadDigit(3);
    assert ZeroPad(4, 3) == "004";
  }
}
