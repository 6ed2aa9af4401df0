/**
 The escaping pass that makes saved JSON pure ASCII, and why no reader can tell: every JSON
 string literal decodes to the same Unicode text before and after it.
 */
module AsciiJson {
  import opened Common

  predicate IsAscii(c: char) {
    c as int < 128
  }

  /** The UTF-16 units of a Unicode scalar value. */
  function Utf16(c: char): (units: seq<int>)
    ensures 1 <= |units| <= 2 && forall i :: 0 <= i < |units| ==> 0 <= units[i] <= U16_MAX
  {
    var code := c as int;
    if code < 0x10000 then [code]
    else [0xD800 + (code - 0x10000) / 0x400, 0xDC00 + (code - 0x10000) % 0x400]
  }

  function HexChar(k: int): char
    requires 0 <= k < 16
  {
    if k < 10 then ('0' as int + k) as char else ('a' as int + k - 10) as char
  }

  /** `\u` and four lower-case hexadecimal digits. */
  function UnitEscape(unit: int): string
    requires 0 <= unit <= U16_MAX
  {
    ['\\', 'u', HexChar(unit / 0x1000), HexChar(unit / 0x100 % 0x10), HexChar(unit / 0x10 % 0x10), HexChar(unit % 0x10)]
  }

  function Escape(c: char): string {
    if IsAscii(c) then [c]
    else
      var units := Utf16(c);
      UnitEscape(units[0]) + if |units| == 2 then UnitEscape(units[1]) else ""
  }

  predicate IsLowerHex(c: char) {
    '0' <= c <= '9' || 'a' <= c <= 'f'
  }

  /** An escape is one or two `\u`, each with four lower-case hexadecimal digits. */
  lemma EscapeIsLowerHex(c: char)
    requires !IsAscii(c)
    ensures |Escape(c)| == if c as int < 0x10000 then 6 else 12
    ensures forall i :: 0 <= i < |Escape(c)| ==>
              if i % 6 == 0 then Escape(c)[i] == '\\'
              else if i % 6 == 1 then Escape(c)[i] == 'u'
              else IsLowerHex(Escape(c)[i])
  {
    var units := Utf16(c);
    UnitIsLowerHex(units[0]);
    if |units| == 2 { UnitIsLowerHex(units[1]); }
    hide UnitEscape, IsLowerHex;
  }

  lemma UnitIsLowerHex(unit: int)
    requires 0 <= unit <= U16_MAX
    ensures var e := UnitEscape(unit);
            |e| == 6 && e[0] == '\\' && e[1] == 'u' && forall i :: 2 <= i < 6 ==> IsLowerHex(e[i])
  {}

  /** The pass over a whole text. */
  function EscapeAll(text: string): string {
    if text == "" then "" else Escape(text[0]) + EscapeAll(text[1..])
  }

  /** The pass as the state store runs it, pushing characters one by one. */
  method ToAscii(text: string) returns (out: string)
    ensures out == EscapeAll(text)
    ensures forall i :: 0 <= i < |out| ==> out[i] as int < 128
  {
    out := "";
    for i := 0 to |text|
      invariant out == EscapeAll(text[..i])
    {
      hide UnitEscape, EscapeAll;
      ghost var before := out;
      EscapeAllGrows(text, i);
      if IsAscii(text[i]) {
        out := out + [text[i]];
      } else {
        var units := Utf16(text[i]);
        for k := 0 to |units|
          invariant k == 0 ==> out == before
          invariant k == 1 ==> out == before + UnitEscape(units[0])
          invariant k == 2 ==> out == before + (UnitEscape(units[0]) + UnitEscape(units[1]))
        {
          out := out + UnitEscape(units[k]);
        }
      }
    }
    assert text[..|text|] == text;
    EscapedBelow128(text);
  }

  lemma EscapeAllGrows(text: string, i: nat)
    requires i < |text|
    ensures EscapeAll(text[..i + 1]) == EscapeAll(text[..i]) + Escape(text[i])
  {
    assert text[..i + 1] == text[..i] + [text[i]];
    EscapeAllAppends(text[..i], [text[i]]);
    SingleEscape([text[i]]);
  }

  lemma SingleEscape(text: string)
    requires |text| == 1
    ensures EscapeAll(text) == Escape(text[0])
  {
    assert text[1..] == "" && EscapeAll("") == "";
  }

  lemma {:induction false} EscapeAllAppends(a: string, b: string)
    ensures EscapeAll(a + b) == EscapeAll(a) + EscapeAll(b)
  {
    if a == "" {
      assert a + b == b;
    } else {
      assert (a + b)[1..] == a[1..] + b;
      EscapeAllAppends(a[1..], b);
    }
  }

  lemma {:induction false} EscapedIsAscii(text: string)
    ensures forall i :: 0 <= i < |EscapeAll(text)| ==> IsAscii(EscapeAll(text)[i])
  {
    if text != "" {
      hide Escape, IsAscii;
      EscapeIsAscii(text[0]);
      EscapedIsAscii(text[1..]);
    }
  }

  lemma EscapedBelow128(text: string)
    ensures forall i :: 0 <= i < |EscapeAll(text)| ==> EscapeAll(text)[i] as int < 128
  {
    EscapedIsAscii(text);
    hide EscapeAll;
  }

  lemma EscapeIsAscii(c: char)
    ensures forall i :: 0 <= i < |Escape(c)| ==> IsAscii(Escape(c)[i])
  {
    var units := Utf16(c);
    UnitIsAscii(units[0]);
    if |units| == 2 { UnitIsAscii(units[1]); }
    hide UnitEscape;
  }

  lemma UnitIsAscii(unit: int)
    requires 0 <= unit <= U16_MAX
    ensures forall i :: 0 <= i < |UnitEscape(unit)| ==> IsAscii(UnitEscape(unit)[i])
  {}

  /** ASCII text passes through unchanged. */
  lemma {:induction false} AsciiUnchanged(text: string)
    requires forall i :: 0 <= i < |text| ==> text[i] as int < 128
    ensures EscapeAll(text) == text
  {
    if text != "" { AsciiUnchanged(text[1..]); }
  }

  // ----- reading a string literal (RFC 8259, section 7)

  function HexDigit(c: char): (r: Option<int>)
    ensures r.Some? ==> 0 <= r.value < 16
  {
    if '0' <= c <= '9' then Some(c as int - '0' as int)
    else if 'a' <= c <= 'f' then Some(c as int - 'a' as int + 10)
    else if 'A' <= c <= 'F' then Some(c as int - 'A' as int + 10)
    else None
  }

  /** The unit spelled by a `\uXXXX` escape at the start of `body`. */
  function UnitAt(body: string): (r: Option<int>)
    ensures r.Some? ==> |body| >= 6 && body[0] == '\\' && 0 <= r.value <= U16_MAX
  {
    if |body| < 6 || body[0] != '\\' || body[1] != 'u' then None
    else
      match (HexDigit(body[2]), HexDigit(body[3]), HexDigit(body[4]), HexDigit(body[5]))
      case (Some(a), Some(b), Some(c), Some(d)) => Some(a * 0x1000 + b * 0x100 + c * 0x10 + d)
      case _ => None
  }

  predicate IsHigh(unit: int) { 0xD800 <= unit < 0xDC00 }

  predicate IsLow(unit: int) { 0xDC00 <= unit < 0xE000 }

  /** What a two-character escape stands for. */
  function ShortEscape(c: char): Option<char> {
    if c == '"' || c == '\\' || c == '/' then Some(c)
    else if c == 'b' then Some(8 as char)
    else if c == 'f' then Some(12 as char)
    else if c == 'n' then Some('\n')
    else if c == 'r' then Some('\r')
    else if c == 't' then Some('\t')
    else None
  }

  /** The first character of a literal's body and the body length it takes. */
  function First(body: string): (r: Option<(char, nat)>)
    requires body != ""
    ensures r.Some? ==> 1 <= r.value.1 <= |body|
  {
    if body[0] == '\\' then
      match UnitAt(body)
      case Some(unit) =>
        if IsHigh(unit) then
          (match UnitAt(body[6..])
           case Some(low) =>
             if IsLow(low) then Some(((0x10000 + (unit - 0xD800) * 0x400 + (low - 0xDC00)) as char, 12)) else None
           case None => None)
        else if IsLow(unit) then None
        else Some((unit as char, 6))
      case None =>
        if |body| < 2 then None
        else
          match ShortEscape(body[1])
          case Some(c) => Some((c, 2))
          case None => None
    else if body[0] == '"' || body[0] as int < 0x20 then None
    else Some((body[0], 1))
  }

  /** The Unicode text of a literal's body, or `None` when it is malformed. */
  function Decode(body: string): Option<string> {
    if body == "" then Some("")
    else
      match First(body)
      case None => None
      case Some((c, n)) =>
        match Decode(body[n..])
        case None => None
        case Some(rest) => Some([c] + rest)
  }

  /** Reading back an escaped unit gives the unit. */
  lemma UnitRoundTrips(unit: int, rest: string)
    requires 0 <= unit <= U16_MAX
    ensures UnitAt(UnitEscape(unit) + rest) == Some(unit)
  {
    var a, b, c, d := unit / 0x1000, unit / 0x100 % 0x10, unit / 0x10 % 0x10, unit % 0x10;
    HexRoundTrips(a);
    HexRoundTrips(b);
    HexRoundTrips(c);
    HexRoundTrips(d);
    HexExpansion(unit);
    hide HexDigit, HexChar, UnitAt;
    UnitOfDigits(UnitEscape(unit) + rest, a, b, c, d);
  }

  lemma HexExpansion(unit: int)
    requires 0 <= unit <= U16_MAX
    ensures unit == unit / 0x1000 * 0x1000 + unit / 0x100 % 0x10 * 0x100 + unit / 0x10 % 0x10 * 0x10 + unit % 0x10
  {
    var tens := unit / 0x10;
    var hundreds := unit / 0x100;
    assert hundreds == tens / 0x10 && unit / 0x1000 == hundreds / 0x10;
  }

  lemma UnitOfDigits(body: string, a: int, b: int, c: int, d: int)
    requires |body| >= 6 && body[0] == '\\' && body[1] == 'u'
    requires HexDigit(body[2]) == Some(a) && HexDigit(body[3]) == Some(b)
    requires HexDigit(body[4]) == Some(c) && HexDigit(body[5]) == Some(d)
    ensures UnitAt(body) == Some(a * 0x1000 + b * 0x100 + c * 0x10 + d)
  {}

  lemma HexRoundTrips(k: int)
    requires 0 <= k < 16
    ensures HexDigit(HexChar(k)) == Some(k)
  {}

  /** A reader sees an escaped character as that character, surrogate pairs included. */
  lemma EscapeReadsBack(c: char, rest: string)
    requires !IsAscii(c)
    ensures First(Escape(c) + rest) == Some((c, |Escape(c)|))
  {
    hide UnitEscape, UnitAt;
    var units := Utf16(c);
    EscapeShape(units[0]);
    if |units| == 1 {
      UnitRoundTrips(units[0], rest);
      assert Escape(c) + rest == UnitEscape(units[0]) + rest;
    } else {
      UnitRoundTrips(units[0], UnitEscape(units[1]) + rest);
      UnitRoundTrips(units[1], rest);
      EscapeShape(units[1]);
      assert Escape(c) + rest == UnitEscape(units[0]) + (UnitEscape(units[1]) + rest);
      assert (Escape(c) + rest)[6..] == UnitEscape(units[1]) + rest;
    }
  }

  lemma EscapeShape(unit: int)
    requires 0 <= unit <= U16_MAX
    ensures |UnitEscape(unit)| == 6 && UnitEscape(unit)[0] == '\\'
  {}

  lemma UnitAtIsAscii(body: string)
    requires UnitAt(body).Some?
    ensures forall i :: 0 <= i < 6 ==> IsAscii(body[i])
  {}

  /** What spells one character is either one unescaped character or ASCII throughout. */
  lemma FirstIsAscii(body: string)
    requires body != "" && First(body).Some? && !(First(body).value.1 == 1 && !IsAscii(body[0]))
    ensures forall i :: 0 <= i < First(body).value.1 ==> IsAscii(body[i])
  {
    if UnitAt(body).Some? {
      UnitAtIsAscii(body);
      if UnitAt(body[6..]).Some? { UnitAtIsAscii(body[6..]); }
    }
  }

  lemma UnitAtIsLocal(body: string, other: string)
    requires UnitAt(body).Some? && |other| >= 6 && other[..6] == body[..6]
    ensures UnitAt(other) == UnitAt(body)
  {
    assert forall i :: 0 <= i < 6 ==> other[i] == other[..6][i] == body[..6][i] == body[i];
  }

  /** A two-character escape is not a unit escape, whatever follows. */
  lemma ShortIsNotUnit(body: string)
    requires |body| >= 2 && ShortEscape(body[1]).Some?
    ensures UnitAt(body).None?
  {}

  /** What follows the spelling of the first character does not change how it is read. */
  lemma FirstIsLocal(body: string, rest: string)
    requires body != "" && First(body).Some?
    ensures First(body[..First(body).value.1] + rest) == First(body)
  {
    hide UnitAt, ShortEscape;
    var n := First(body).value.1;
    var other := body[..n] + rest;
    if UnitAt(body).Some? {
      assert other[..6] == body[..6];
      UnitAtIsLocal(body, other);
      if n == 12 {
        assert other[6..][..6] == body[6..][..6];
        UnitAtIsLocal(body[6..], other[6..]);
      }
    } else if n == 2 {
      ShortIsNotUnit(other);
    }
  }

  /** Every well-formed literal decodes to the same text before and after the pass. */
  lemma {:induction false} EscapingIsTransparent(body: string)
    requires Decode(body).Some?
    ensures Decode(EscapeAll(body)) == Decode(body)
    decreases |body|
  {
    if body != "" {
      hide First, Escape, UnitAt, EscapeAll;
      var (c, n) := First(body).value;
      var spelled, rest := body[..n], body[n..];
      assert body == spelled + rest;
      EscapingIsTransparent(rest);
      EscapeAllAppends(spelled, rest);
      if n == 1 && !IsAscii(body[0]) {
        SingleEscape(spelled);
        RawCharacter(body);
        EscapeReadsBack(c, EscapeAll(rest));
        DecodeStep(Escape(c), EscapeAll(rest), c);
      } else {
        FirstIsAscii(body);
        AsciiUnchanged(spelled);
        FirstIsLocal(body, EscapeAll(rest));
        DecodeStep(spelled, EscapeAll(rest), c);
      }
    } else {
      assert EscapeAll(body) == "";
    }
  }

  lemma RawCharacter(body: string)
    requires body != "" && First(body).Some? && First(body).value.1 == 1
    ensures First(body).value.0 == body[0]
  {}

  lemma DecodeStep(spelled: string, rest: string, c: char)
    requires spelled != "" && First(spelled + rest) == Some((c, |spelled|)) && Decode(rest).Some?
    ensures Decode(spelled + rest) == Some([c] + Decode(rest).value)
  {
    assert (spelled + rest)[|spelled|..] == rest;
  }

  // ----- malformed literals

  /** A backslash before a raw character that the pass writes as one unit: it comes to read as an escaped backslash. */
  predicate Stray(body: string) {
    |body| >= 2 && body[0] == '\\' && !IsAscii(body[1]) && |Utf16(body[1])| == 1
  }

  /** Well-formed but for stray backslashes. */
  predicate AllButStray(body: string) {
    if body == "" then true
    else if First(body).Some? then AllButStray(body[First(body).value.1..])
    else Stray(body) && AllButStray(body[2..])
  }

  /** The pass changes the meaning of exactly those malformed literals that stray backslashes alone make malformed. */
  lemma TransparentExactly(body: string)
    ensures Decode(EscapeAll(body)) != Decode(body) <==> Decode(body).None? && AllButStray(body)
  {
    hide Decode, EscapeAll, AllButStray;
    ReadableAfterwards(body);
    if Decode(body).Some? { EscapingIsTransparent(body); }
  }

  lemma {:induction false} ReadableAfterwards(body: string)
    ensures Decode(EscapeAll(body)).Some? <==> AllButStray(body)
    decreases |body|
  {
    hide First, EscapeAll, UnitEscape;
    if body == "" {
      assert EscapeAll(body) == "" by { AsciiUnchanged(body); }
    } else if First(body).Some? {
      var (c, n) := First(body).value;
      var spelled := if n == 1 && !IsAscii(body[0]) then Escape(body[0]) else body[..n];
      FirstAfterwards(body);
      ReadableAfterwards(body[n..]);
      DecodesWith(spelled, EscapeAll(body[n..]), c);
    } else if Stray(body) {
      ReadableAfterwards(body[2..]);
      StrayAfterwards(body);
    } else {
      StaysMalformed(body);
    }
  }

  lemma DecodesWith(spelled: string, rest: string, c: char)
    requires spelled != "" && First(spelled + rest) == Some((c, |spelled|))
    ensures Decode(spelled + rest).Some? <==> Decode(rest).Some?
  {
    assert (spelled + rest)[|spelled|..] == rest;
  }

  /** The first character is spelled as before, or as its escape, and read as before. */
  lemma FirstAfterwards(body: string)
    requires body != "" && First(body).Some?
    ensures var (c, n) := First(body).value;
            var spelled := if n == 1 && !IsAscii(body[0]) then Escape(body[0]) else body[..n];
            && EscapeAll(body) == spelled + EscapeAll(body[n..]) && spelled != ""
            && First(spelled + EscapeAll(body[n..])) == Some((c, |spelled|))
  {
    hide First, Escape, EscapeAll, UnitAt;
    var (c, n) := First(body).value;
    assert body == body[..n] + body[n..];
    EscapeAllAppends(body[..n], body[n..]);
    if n == 1 && !IsAscii(body[0]) {
      SingleEscape(body[..n]);
      RawCharacter(body);
      EscapeReadsBack(c, EscapeAll(body[n..]));
      EscapeIsNotEmpty(c);
    } else {
      FirstIsAscii(body);
      AsciiUnchanged(body[..n]);
      FirstIsLocal(body, EscapeAll(body[n..]));
    }
  }

  lemma EscapeIsNotEmpty(c: char)
    ensures Escape(c) != ""
  {}

  /** The backslash swallows the one the pass writes, and the rest of the escape is plain text. */
  lemma StrayAfterwards(body: string)
    requires Stray(body)
    ensures Decode(EscapeAll(body)).Some? <==> Decode(EscapeAll(body[2..])).Some?
  {
    hide Decode, First, EscapeAll;
    var unit := Utf16(body[1])[0];
    var digits, rest := UnitEscape(unit)[1..], EscapeAll(body[2..]);
    EscapeAllAppends([body[0]], body[1..]);
    EscapeAllAppends([body[1]], body[2..]);
    SingleEscape([body[0]]);
    SingleEscape([body[1]]);
    assert body == [body[0]] + body[1..] && body[1..] == [body[1]] + body[2..];
    assert EscapeAll(body) == "\\\\" + (digits + rest);
    EscapedBackslash(digits + rest);
    DecodesWith("\\\\", digits + rest, '\\');
    DigitsArePlain(unit);
    PlainDecodes(digits, rest);
  }

  lemma EscapedBackslash(rest: string)
    ensures First("\\\\" + rest) == Some(('\\', 2))
  {}

  predicate Plain(text: string) {
    forall i :: 0 <= i < |text| ==> text[i] != '\\' && text[i] != '"' && text[i] as int >= 0x20
  }

  lemma DigitsArePlain(unit: int)
    requires 0 <= unit <= U16_MAX
    ensures Plain(UnitEscape(unit)[1..])
  {}

  lemma {:induction false} PlainDecodes(text: string, rest: string)
    requires Plain(text)
    ensures Decode(text + rest).Some? <==> Decode(rest).Some?
  {
    if text == "" {
      assert text + rest == rest;
    } else {
      PlainDecodes(text[1..], rest);
      assert text + rest == [text[0]] + (text[1..] + rest);
      DecodesWith([text[0]], text[1..] + rest, text[0]);
    }
  }

  /** How the pass writes the first character. */
  lemma HeadOf(text: string)
    requires text != ""
    ensures EscapeAll(text) == Escape(text[0]) + EscapeAll(text[1..])
    ensures IsAscii(text[0]) ==> Escape(text[0]) == [text[0]]
    ensures !IsAscii(text[0]) ==>
              var units := Utf16(text[0]);
              Escape(text[0]) == UnitEscape(units[0]) + if |units| == 2 then UnitEscape(units[1]) else ""
  {
    hide UnitEscape, Utf16;
  }

  lemma {:induction false} BeforeBackslash(text: string, k: nat)
    requires k <= |EscapeAll(text)| && forall i :: 0 <= i < k ==> EscapeAll(text)[i] != '\\'
    ensures k <= |text| && text[..k] == EscapeAll(text)[..k]
  {
    if k > 0 {
      NothingEscapes();
      hide Escape, EscapeAll, UnitEscape, Utf16;
      HeadOf(text);
      if !IsAscii(text[0]) { HeadIsBackslash(text); }
      var rest := EscapeAll(text[1..]);
      assert EscapeAll(text) == [text[0]] + rest;
      assert forall i :: 0 <= i < k - 1 ==> rest[i] == EscapeAll(text)[i + 1];
      BeforeBackslash(text[1..], k - 1);
      Prepend(text[0], text[1..], rest, k);
      assert text == [text[0]] + text[1..];
    }
  }

  lemma HeadIsBackslash(text: string)
    requires text != "" && !IsAscii(text[0])
    ensures EscapeAll(text) != "" && EscapeAll(text)[0] == '\\'
  {
    EscapeShape(Utf16(text[0])[0]);
    hide UnitEscape, Utf16;
    HeadOf(text);
  }

  lemma Prepend(c: char, a: string, b: string, k: nat)
    requires 0 < k && k - 1 <= |a| && k - 1 <= |b| && a[..k - 1] == b[..k - 1]
    ensures ([c] + a)[..k] == ([c] + b)[..k]
  {
    assert ([c] + a)[..k] == [c] + a[..k - 1];
    assert ([c] + b)[..k] == [c] + b[..k - 1];
  }

  lemma NothingEscapes()
    ensures EscapeAll("") == ""
  {}

  lemma UnitHasNoBackslash(body: string)
    requires UnitAt(body).Some?
    ensures |body| >= 6 && forall i :: 1 <= i < 6 ==> body[i] != '\\'
  {}

  lemma SameUnit(body: string, other: string)
    requires |body| >= 6 && |other| >= 6 && body[..6] == other[..6]
    ensures UnitAt(body) == UnitAt(other)
  {
    assert forall i :: 0 <= i < 6 ==> other[i] == other[..6][i] == body[..6][i] == body[i];
  }

  /** The pass makes no unit escape out of anything that starts with an ASCII character. */
  lemma UnitWasThere(body: string)
    requires body != "" && IsAscii(body[0]) && UnitAt(EscapeAll(body)).Some?
    ensures UnitAt(body) == UnitAt(EscapeAll(body))
  {
    hide UnitAt, Escape, EscapeAll, UnitEscape;
    var out, rest := EscapeAll(body), EscapeAll(body[1..]);
    HeadOf(body);
    UnitHasNoBackslash(out);
    assert forall i :: 0 <= i < 5 ==> rest[i] == out[i + 1];
    BeforeBackslash(body[1..], 5);
    assert body == [body[0]] + body[1..];
    assert body[..6] == [body[0]] + body[1..][..5];
    assert out[..6] == [body[0]] + rest[..5];
    SameUnit(body, out);
  }

  /** What the pass writes never starts with a low surrogate that was not there. */
  lemma LowWasThere(body: string)
    requires UnitAt(EscapeAll(body)).Some? && IsLow(UnitAt(EscapeAll(body)).value)
    ensures UnitAt(body) == UnitAt(EscapeAll(body))
  {
    NothingEscapes();
    hide UnitAt, Escape, EscapeAll, UnitEscape;
    UnitHasNoBackslash(EscapeAll(body));
    HeadOf(body);
    if IsAscii(body[0]) {
      UnitWasThere(body);
    } else {
      var units := Utf16(body[0]);
      var after := (if |units| == 2 then UnitEscape(units[1]) else "") + EscapeAll(body[1..]);
      assert EscapeAll(body) == UnitEscape(units[0]) + after;
      UnitRoundTrips(units[0], after);
    }
  }

  /** A surrogate pair after a stray backslash: its low half is left on its own. */
  lemma StrayPairAfterwards(body: string)
    requires |body| >= 2 && body[0] == '\\' && !IsAscii(body[1]) && !Stray(body)
    ensures Decode(EscapeAll(body)).None?
  {
    var units := Utf16(body[1]);
    hide Escape, EscapeAll, UnitEscape, Utf16, Decode, First;
    var high, digits := UnitEscape(units[0]), UnitEscape(units[0])[1..];
    var low := UnitEscape(units[1]) + EscapeAll(body[2..]);
    HeadOf(body);
    HeadOf(body[1..]);
    EscapeShape(units[0]);
    assert body[1..][1..] == body[2..];
    Reassociate(high, digits, UnitEscape(units[1]), EscapeAll(body[2..]));
    EscapedBackslash(digits + low);
    DecodesWith("\\\\", digits + low, '\\');
    DigitsArePlain(units[0]);
    PlainDecodes(digits, low);
    LowIsMalformed(units[1], EscapeAll(body[2..]));
  }

  lemma Reassociate(high: string, digits: string, low: string, rest: string)
    requires high != "" && high[0] == '\\' && digits == high[1..]
    ensures "\\" + ((high + low) + rest) == "\\\\" + (digits + (low + rest))
  {
    assert high == "\\" + digits;
  }

  lemma LowIsMalformed(unit: int, rest: string)
    requires IsLow(unit)
    ensures Decode(UnitEscape(unit) + rest).None?
  {
    hide UnitEscape, UnitAt;
    EscapeShape(unit);
    UnitRoundTrips(unit, rest);
  }

  lemma StaysMalformed(body: string)
    requires body != "" && First(body).None? && !Stray(body)
    ensures Decode(EscapeAll(body)).None?
  {
    NothingEscapes();
    hide UnitAt, UnitEscape, Escape, EscapeAll;
    var out := EscapeAll(body);
    HeadOf(body);
    if body[0] == '\\' && |body| >= 2 {
      HeadOf(body[1..]);
      if !IsAscii(body[1]) {
        StrayPairAfterwards(body);
      } else if UnitAt(body).Some? {
        UnitAfterwards(body);
        if UnitAt(out[6..]).Some? && IsLow(UnitAt(out[6..]).value) { LowWasThere(body[6..]); }
      } else {
        assert out[1] == body[1];
        if UnitAt(out).Some? { UnitWasThere(body); }
      }
    } else if body[0] == '\\' {
      assert body[1..] == "";
    }
  }

  lemma UnitAfterwards(body: string)
    requires UnitAt(body).Some?
    ensures var out := EscapeAll(body);
            |out| >= 6 && UnitAt(out) == UnitAt(body) && out[0] == '\\' && out[6..] == EscapeAll(body[6..])
  {
    hide UnitAt, Escape, EscapeAll, UnitEscape;
    UnitAtIsAscii(body);
    AsciiUnchanged(body[..6]);
    assert body == body[..6] + body[6..];
    EscapeAllAppends(body[..6], body[6..]);
    SameUnit(body, EscapeAll(body));
  }
}
