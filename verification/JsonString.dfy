// JSON strings as the configuration store writes and reads them: the escaping of RFC 8259
// section 7 with serde_json's choice of short escapes, and a parser for any JSON string text.
module JsonString {
  import opened Wrappers

  function Escape(c: char): string {
    if c == '\"' then "\\\""
    else if c == '\\' then "\\\\"
    else if c as int == 8 then "\\b"
    else if c == '\t' then "\\t"
    else if c == '\n' then "\\n"
    else if c as int == 12 then "\\f"
    else if c == '\r' then "\\r"
    else if c as int < 0x20 then "\\u00" + [HEX[c as int / 16], HEX[c as int % 16]]
    else [c]
  }

  function EscapeAll(text: string): string {
    if text == "" then "" else Escape(text[0]) + EscapeAll(text[1..])
  }

  function Encode(text: string): (json: string)
    ensures json != "null"
  {
    var written := "\"" + EscapeAll(text) + "\"";
    assert written[0] == '\"';
    written
  }

  // ------------------------------------------------------------------ parsing

  function HexValue(c: char): Option<nat> {
    if '0' <= c <= '9' then Some(c as int - '0' as int)
    else if 'a' <= c <= 'f' then Some(c as int - 'a' as int + 10)
    else if 'A' <= c <= 'F' then Some(c as int - 'A' as int + 10)
    else None
  }

  // The code unit written by four hexadecimal digits.
  function FourHex(s: string): (unit: Option<nat>)
    ensures unit.Some? ==> unit.value < 0x10000 && |s| >= 4
  {
    if |s| < 4 then None
    else
      var a, b, c, d := HexValue(s[0]), HexValue(s[1]), HexValue(s[2]), HexValue(s[3]);
      if a.Some? && b.Some? && c.Some? && d.Some? then
        Some(4096 * a.value + 256 * b.value + 16 * c.value + d.value)
      else None
  }

  // The character after a backslash and what is left; a surrogate must come as a pair.
  function ParseEscape(s: string): (r: Option<(char, string)>)
    ensures r.Some? ==> |r.value.1| < |s|
  {
    if s == "" then None
    else if s[0] in "\"\\/" then Some((s[0], s[1..]))
    else if s[0] == 'b' then Some((8 as char, s[1..]))
    else if s[0] == 't' then Some(('\t', s[1..]))
    else if s[0] == 'n' then Some(('\n', s[1..]))
    else if s[0] == 'f' then Some((12 as char, s[1..]))
    else if s[0] == 'r' then Some(('\r', s[1..]))
    else if s[0] == 'u' then
      var unit := FourHex(s[1..]);
      if unit.None? || 0xDC00 <= unit.value < 0xE000 then None
      else if 0xD800 <= unit.value < 0xDC00 then
        var rest := s[5..];
        if |rest| < 2 || rest[..2] != "\\u" then None
        else
          var low := FourHex(rest[2..]);
          if low.None? || !(0xDC00 <= low.value < 0xE000) then None
          else Some(((0x10000 + 0x400 * (unit.value - 0xD800) + (low.value - 0xDC00)) as char, rest[6..]))
      else Some((unit.value as char, s[5..]))
    else None
  }

  // Contents up to the closing quote, and what follows it.
  function ParseBody(s: string): Option<(string, string)>
    decreases |s|
  {
    if s == "" || (s[0] as int < 0x20) then None
    else if s[0] == '\"' then Some(("", s[1..]))
    else
      var first := if s[0] == '\\' then ParseEscape(s[1..]) else Some((s[0], s[1..]));
      if first.None? then None
      else
        var rest := ParseBody(first.value.1);
        if rest.None? then None else Some(([first.value.0] + rest.value.0, rest.value.1))
  }

  function SkipSpace(s: string): string {
    if s != "" && s[0] in " \t\n\r" then SkipSpace(s[1..]) else s
  }

  function ParseString(json: string): Option<string> {
    var s := SkipSpace(json);
    if s == "" || s[0] != '\"' then None
    else
      var body := ParseBody(s[1..]);
      if body.Some? && SkipSpace(body.value.1) == "" then Some(body.value.0) else None
  }

  // --------------------------------------------------------------- round trip

  lemma LowControlEscapeParses(c: char, rest: string)
    requires c as int < 0x20
    ensures ParseEscape("u00" + [HEX[c as int / 16], HEX[c as int % 16]] + rest) == Some((c, rest))
  {
    var hi, lo := HEX[c as int / 16], HEX[c as int % 16];
    var s := "u00" + [hi, lo] + rest;
    assert s[1..][..4] == ['0', '0', hi, lo];
    assert HexValue(hi) == Some(c as int / 16) && HexValue(lo) == Some(c as int % 16);
    assert FourHex(s[1..]) == Some(c as int);
    assert s[5..] == rest;
  }

  lemma ShortEscapeParses(c: char, rest: string)
    requires |Escape(c)| == 2
    ensures ParseEscape([Escape(c)[1]] + rest) == Some((c, rest))
  {
    var s := [Escape(c)[1]] + rest;
    assert s[1..] == rest;
  }

  lemma EscapeParses(c: char, rest: string)
    requires Escape(c) != [c]
    ensures Escape(c)[0] == '\\' && ParseEscape(Escape(c)[1..] + rest) == Some((c, rest))
  {
    if |Escape(c)| == 2 {
      ShortEscapeParses(c, rest);
      assert Escape(c)[1..] == [Escape(c)[1]];
    } else {
      LowControlEscapeParses(c, rest);
      assert Escape(c)[1..] == "u00" + [HEX[c as int / 16], HEX[c as int % 16]];
    }
  }

  lemma EscapedCharParses(c: char, rest: string)
    ensures ParseBody(Escape(c) + rest)
         == if ParseBody(rest).None? then None
            else Some(([c] + ParseBody(rest).value.0, ParseBody(rest).value.1))
  {
    var s := Escape(c) + rest;
    if Escape(c) == [c] {
      assert s[0] == c && s[1..] == rest;
      assert c != '\"' && c != '\\' && c as int >= 0x20;
    } else {
      EscapeParses(c, rest);
      assert s[0] == '\\' && s[1..] == Escape(c)[1..] + rest;
    }
  }

  lemma {:induction false} EscapedTextParses(text: string, rest: string)
    ensures ParseBody(EscapeAll(text) + "\"" + rest) == Some((text, rest))
  {
    if text == "" {
      assert ("" + "\"" + rest)[1..] == rest;
    } else {
      var tail := EscapeAll(text[1..]) + "\"" + rest;
      assert EscapeAll(text) + "\"" + rest == Escape(text[0]) + tail;
      EscapedCharParses(text[0], tail);
      EscapedTextParses(text[1..], rest);
      assert [text[0]] + text[1..] == text;
    }
  }

  // Every text survives being written as JSON and read back.
  lemma EncodeRoundTrips(text: string)
    ensures ParseString(Encode(text)) == Some(text)
  {
    EscapedTextParses(text, "");
    assert Encode(text)[1..] == EscapeAll(text) + "\"" + "";
  }

  // Text without quotes, backslashes and control characters is written as it is.
  lemma {:induction false} PlainTextStays(text: string)
    requires forall i | 0 <= i < |text| :: text[i] >= ' ' && text[i] != '\"' && text[i] != '\\'
    ensures Encode(text) == "\"" + text + "\""
  {
    if text == "" {
    } else {
      var json := Encode(text[1..]);
      PlainTextStays(text[1..]);
      assert json[1..|json| - 1] == EscapeAll(text[1..]) == text[1..];
      assert text[0] >= ' ' && text == [text[0]] + text[1..];
    }
  }

  // A control character without a short escape is written by its code in lower-case digits.
  lemma ControlsAreWrittenByCode(c: char)
    requires c as int < 0x20 && c !in "\t\n\r" && c as int != 8 && c as int != 12
    ensures Encode([c])
         == "\"\\u00" + ["0123456789abcdef"[c as int / 16], "0123456789abcdef"[c as int % 16]] + "\""
  {
    assert [c][1..] == "";
    assert EscapeAll([c]) == Escape(c) + "";
  }

  // A hexadecimal digit in either case.
  ghost predicate IsDigit(c: char, value: nat) {
    value < 16 && (c == "0123456789abcdef"[value] || c == "0123456789ABCDEF"[value])
  }

  ghost predicate WritesUnit(digits: string, unit: nat) {
    && |digits| == 4 && unit < 0x10000
    && IsDigit(digits[0], unit / 4096) && IsDigit(digits[1], unit / 256 % 16)
    && IsDigit(digits[2], unit / 16 % 16) && IsDigit(digits[3], unit % 16)
  }

  lemma DigitHasValue(c: char, value: nat)
    requires IsDigit(c, value)
    ensures HexValue(c) == Some(value)
  {
  }

  lemma FourDigitsAreTheUnit(digits: string, unit: nat, rest: string)
    requires WritesUnit(digits, unit)
    ensures FourHex(digits + rest) == Some(unit)
  {
    DigitHasValue(digits[0], unit / 4096);
    DigitHasValue(digits[1], unit / 256 % 16);
    DigitHasValue(digits[2], unit / 16 % 16);
    DigitHasValue(digits[3], unit % 16);
    UnitIsItsDigits(unit);
    hide HexValue, IsDigit, WritesUnit;
    var s := digits + rest;
    assert s[0] == digits[0] && s[1] == digits[1] && s[2] == digits[2] && s[3] == digits[3];
  }

  lemma UnitIsItsDigits(unit: nat)
    ensures unit == 4096 * (unit / 4096) + 256 * (unit / 256 % 16) + 16 * (unit / 16 % 16) + unit % 16
  {
    var l, h := unit / 16, unit / 256;
    assert unit == 16 * l + unit % 16 && l / 16 == h && l == 16 * h + l % 16 && h == 16 * (h / 16) + h % 16;
    assert h / 16 == unit / 4096;
  }

  // Any other writer's escapes are read too: a character of the basic plane by its code unit, one beyond
  // it by its surrogate pair, in digits of either case.
  lemma EscapesByCodeParse(c: char, digits: string, low: string, rest: string)
    ensures WritesUnit(digits, c as int) ==> ParseEscape("u" + digits + rest) == Some((c, rest))
    ensures c as int >= 0x10000 && WritesUnit(digits, 0xD800 + (c as int - 0x10000) / 0x400)
            && WritesUnit(low, 0xDC00 + (c as int - 0x10000) % 0x400) ==>
              ParseEscape("u" + digits + "\\u" + low + rest) == Some((c, rest))
  {
    hide FourHex, IsDigit;
    if WritesUnit(digits, c as int) {
      FourDigitsAreTheUnit(digits, c as int, rest);
      assert ("u" + digits + rest)[1..] == digits + rest && ("u" + digits + rest)[5..] == rest;
    }
    var offset := c as int - 0x10000;
    if offset >= 0 && WritesUnit(digits, 0xD800 + offset / 0x400) && WritesUnit(low, 0xDC00 + offset % 0x400) {
      var s := "u" + digits + "\\u" + low + rest;
      FourDigitsAreTheUnit(digits, 0xD800 + offset / 0x400, "\\u" + low + rest);
      FourDigitsAreTheUnit(low, 0xDC00 + offset % 0x400, rest);
      assert s[1..] == digits + ("\\u" + low + rest);
      assert s[5..] == "\\u" + (low + rest);
      assert s[5..][..2] == "\\u" && s[5..][2..] == low + rest && s[5..][6..] == rest;
    }
  }
}
