/**
 The opaque page cursor: a JSON object with the id and the sort value of the last row, as
 ASCII text, in base64url without padding.
 */
module Cursor {
  import opened Common
  import opened Codec
  import Base64Url

  // ---------------------------------------------------------------- JSON strings

  function HexDigit(n: nat): char
    requires n < 16
  {
    if n < 10 then '0' + n as char else 'a' + (n - 10) as char
  }

  function HexValue(c: char): (v: Option<nat>)
    ensures v.Some? ==> v.value < 16
  {
    if '0' <= c <= '9' then Some((c - '0') as nat)
    else if 'a' <= c <= 'f' then Some(10 + (c - 'a') as nat)
    else if 'A' <= c <= 'F' then Some(10 + (c - 'A') as nat)
    else None
  }

  function Hex4(n: nat): (h: string)
    requires n < 0x10000
    ensures |h| == 4
  {
    var q := n / 16;
    var p := q / 16;
    [HexDigit(p / 16), HexDigit(p % 16), HexDigit(q % 16), HexDigit(n % 16)]
  }

  function ParseHex4(t: string): (n: Option<nat>)
    ensures n.Some? ==> |t| >= 4 && n.value < 0x10000
  {
    if |t| < 4 then None
    else
      var (a, b, c, d) := (HexValue(t[0]), HexValue(t[1]), HexValue(t[2]), HexValue(t[3]));
      if a.None? || b.None? || c.None? || d.None? then None
      else Some(4096 * a.value + 256 * b.value + 16 * c.value + d.value)
  }

  lemma HexDigitRoundTrip(n: nat)
    requires n < 16
    ensures HexValue(HexDigit(n)) == Some(n)
  {
  }

  lemma ParseDigits(a: nat, b: nat, c: nat, d: nat, rest: string)
    requires a < 16 && b < 16 && c < 16 && d < 16
    ensures ParseHex4([HexDigit(a), HexDigit(b), HexDigit(c), HexDigit(d)] + rest)
         == Some(4096 * a + 256 * b + 16 * c + d)
  {
    HexDigitRoundTrip(a);
    HexDigitRoundTrip(b);
    HexDigitRoundTrip(c);
    HexDigitRoundTrip(d);
  }

  lemma Hex4RoundTrip(n: nat, rest: string)
    requires n < 0x10000
    ensures ParseHex4(Hex4(n) + rest) == Some(n)
  {
    var q := n / 16;
    var p := q / 16;
    ParseDigits(p / 16, p % 16, q % 16, n % 16, rest);
    assert n == 16 * q + n % 16 && q == 16 * p + q % 16 && p == 16 * (p / 16) + p % 16;
  }

  function UnicodeEscape(n: nat): (e: string)
    requires n < 0x10000
    ensures |e| == 6
  {
    "\\u" + Hex4(n)
  }

  predicate Plain(c: char) {
    ' ' <= c <= '~' && c != '"' && c != '\\'
  }

  /** The letter behind the backslash for the characters that have one. */
  function ShortName(c: char): Option<char>
  {
    if c == '"' || c == '\\' then Some(c)
    else if c == '\n' then Some('n')
    else if c == '\r' then Some('r')
    else if c == '\t' then Some('t')
    else if c as int == 8 then Some('b')
    else if c as int == 12 then Some('f')
    else None
  }

  /** How `json.dumps` writes one character: printable ASCII as it is, the rest escaped, beyond
      the basic plane as a surrogate pair. */
  function Escape(c: char): string
  {
    if ShortName(c).Some? then ['\\', ShortName(c).value]
    else if Plain(c) then [c]
    else if c as int < 0x10000 then UnicodeEscape(c as nat)
    else
      var v := c as nat - 0x10000;
      UnicodeEscape(0xD800 + v / 1024) + UnicodeEscape(0xDC00 + v % 1024)
  }

  function EscapeAll(s: string): string
  {
    if s == [] then [] else Escape(s[0]) + EscapeAll(s[1..])
  }

  predicate IsHigh(n: nat) {
    0xD800 <= n < 0xDC00
  }

  predicate IsLow(n: nat) {
    0xDC00 <= n < 0xE000
  }

  /** The character at the head of the inside of a JSON string, and how long its spelling is. */
  function ParseChar(t: string): (r: Option<(char, nat)>)
    ensures r.Some? ==> 1 <= r.value.1 <= |t|
  {
    if t == [] || t[0] < ' ' then None
    else if t[0] != '\\' then Some((t[0], 1))
    else if |t| < 2 then None
    else if t[1] == '"' || t[1] == '\\' || t[1] == '/' then Some((t[1], 2))
    else if t[1] == 'n' then Some(('\n', 2))
    else if t[1] == 'r' then Some(('\r', 2))
    else if t[1] == 't' then Some(('\t', 2))
    else if t[1] == 'b' then Some((8 as char, 2))
    else if t[1] == 'f' then Some((12 as char, 2))
    else if t[1] == 'u' then ParseUnicode(t[2..])
    else None
  }

  /** The code unit behind `\u`; a high surrogate needs its low half. */
  function ParseUnicode(t: string): (r: Option<(char, nat)>)
    ensures r.Some? ==> 1 <= r.value.1 <= |t| + 2
  {
    var n := ParseHex4(t);
    if n.None? || IsLow(n.value) then None
    else if !IsHigh(n.value) then Some((n.value as char, 6))
    else if |t| < 6 || t[4] != '\\' || t[5] != 'u' then None
    else
      var m := ParseHex4(t[6..]);
      if m.None? || !IsLow(m.value) then None
      else Some(((0x10000 + 1024 * (n.value - 0xD800) + (m.value - 0xDC00)) as char, 12))
  }

  /** The text of a JSON string up to its closing quote, and what follows it. */
  function ParseString(t: string): (r: Option<(string, string)>)
    decreases |t|
  {
    if t != [] && t[0] == '"' then Some(([], t[1..]))
    else
      var c := ParseChar(t);
      if c.None? then None
      else
        var rest := ParseString(t[c.value.1..]);
        if rest.None? then None else Some(([c.value.0] + rest.value.0, rest.value.1))
  }

  lemma UnicodeRoundTrip(n: nat, rest: string)
    requires n < 0x10000 && !IsHigh(n) && !IsLow(n)
    ensures ParseChar(UnicodeEscape(n) + rest) == Some((n as char, 6))
  {
    Hex4RoundTrip(n, rest);
    assert (UnicodeEscape(n) + rest)[2..] == Hex4(n) + rest;
  }

  lemma PairRoundTrip(hi: nat, lo: nat, rest: string)
    requires IsHigh(hi) && IsLow(lo)
    ensures ParseChar(UnicodeEscape(hi) + UnicodeEscape(lo) + rest)
         == Some(((0x10000 + 1024 * (hi - 0xD800) + (lo - 0xDC00)) as char, 12))
  {
    var t := UnicodeEscape(hi) + UnicodeEscape(lo) + rest;
    var u := Hex4(hi) + (UnicodeEscape(lo) + rest);
    assert t[2..] == u;
    Hex4RoundTrip(hi, UnicodeEscape(lo) + rest);
    assert u[4] == '\\' && u[5] == 'u' && u[6..] == Hex4(lo) + rest;
    Hex4RoundTrip(lo, rest);
    assert ParseChar(t) == ParseUnicode(u);
  }

  lemma SurrogatePair(c: nat)
    requires 0x10000 <= c < 0x110000
    ensures var v := c - 0x10000; var hi, lo := 0xD800 + v / 1024, 0xDC00 + v % 1024;
      IsHigh(hi) && IsLow(lo) && c == 0x10000 + 1024 * (hi - 0xD800) + (lo - 0xDC00)
  {
  }

  lemma ShortRoundTrip(c: char, rest: string)
    requires ShortName(c).Some?
    ensures ParseChar(['\\', ShortName(c).value] + rest) == Some((c, 2))
  {
    var t := ['\\', ShortName(c).value] + rest;
    assert t[0] == '\\' && t[1] == ShortName(c).value;
  }

  lemma PlainRoundTrip(c: char, rest: string)
    requires Plain(c)
    ensures ParseChar([c] + rest) == Some((c, 1))
  {
  }

  lemma EscapeRoundTrip(c: char, rest: string)
    ensures var e := Escape(c);
      e != [] && e[0] != '"' && ParseChar(e + rest) == Some((c, |e|))
  {
    if ShortName(c).Some? {
      ShortRoundTrip(c, rest);
    } else if Plain(c) {
      PlainRoundTrip(c, rest);
    } else if c as int < 0x10000 {
      UnicodeRoundTrip(c as nat, rest);
    } else {
      var v := c as nat - 0x10000;
      SurrogatePair(c as nat);
      PairRoundTrip(0xD800 + v / 1024, 0xDC00 + v % 1024, rest);
    }
  }

  lemma {:induction false} StringStep(c: char, e: string, tail: string, s: string, rest: string)
    requires e != [] && e[0] != '"' && ParseChar(e + tail) == Some((c, |e|))
    requires ParseString(tail) == Some((s, rest))
    ensures ParseString(e + tail) == Some(([c] + s, rest))
  {
    PrefixDrops(e, tail);
  }

  /** Every string survives being written as a JSON string and read back. */
  lemma {:induction false} StringRoundTrip(s: string, rest: string)
    ensures ParseString(EscapeAll(s) + ("\"" + rest)) == Some((s, rest))
  {
    var quoted := "\"" + rest;
    if s == [] {
      assert EscapeAll(s) + quoted == quoted && quoted[1..] == rest;
    } else {
      var tail := EscapeAll(s[1..]) + quoted;
      StringRoundTrip(s[1..], rest);
      EscapeRoundTrip(s[0], tail);
      StringStep(s[0], Escape(s[0]), tail, s[1..], rest);
      Regroup(Escape(s[0]), EscapeAll(s[1..]), quoted);
      assert s == [s[0]] + s[1..];
    }
  }

  // ---------------------------------------------------------------- the payload

  const BEFORE_ID := "{\"id\": \""
  const BEFORE_VALUE := ", \"v\": \""
  const AFTER_VALUE := "}"

  function Payload(id: string, value: string): string {
    BEFORE_ID + (EscapeAll(id) + ("\"" + (BEFORE_VALUE + (EscapeAll(value) + ("\"" + AFTER_VALUE)))))
  }

  function ParsePayload(t: string): Option<(string, string)>
  {
    if !(BEFORE_ID <= t) then None
    else
      var id := ParseString(t[|BEFORE_ID|..]);
      if id.None? || !(BEFORE_VALUE <= id.value.1) then None
      else
        var value := ParseString(id.value.1[|BEFORE_VALUE|..]);
        if value.None? || value.value.1 != AFTER_VALUE then None
        else Some((id.value.0, value.value.0))
  }

  lemma PrefixDrops(a: string, b: string)
    ensures a <= a + b && (a + b)[|a|..] == b
  {
  }

  lemma {:induction false} PayloadRoundTrip(id: string, value: string)
    ensures ParsePayload(Payload(id, value)) == Some((id, value))
  {
    var tail := BEFORE_VALUE + (EscapeAll(value) + ("\"" + AFTER_VALUE));
    PrefixDrops(BEFORE_ID, EscapeAll(id) + ("\"" + tail));
    StringRoundTrip(id, tail);
    PrefixDrops(BEFORE_VALUE, EscapeAll(value) + ("\"" + AFTER_VALUE));
    StringRoundTrip(value, AFTER_VALUE);
  }

  // ---------------------------------------------------------------- text and bytes

  ghost predicate Ascii(t: string) {
    forall i | 0 <= i < |t| :: t[i] as int < 128
  }

  lemma Hex4Ascii(n: nat)
    requires n < 0x10000
    ensures Ascii(UnicodeEscape(n))
  {
    forall d: nat | d < 16 ensures HexDigit(d) as int < 128 {
    }
  }

  lemma EscapeAscii(c: char)
    ensures Ascii(Escape(c))
  {
    if c as int >= 0x10000 {
      var v := c as nat - 0x10000;
      Hex4Ascii(0xD800 + v / 1024);
      Hex4Ascii(0xDC00 + v % 1024);
    } else {
      Hex4Ascii(c as nat);
    }
  }

  lemma {:induction false} EscapeAllAscii(s: string)
    ensures Ascii(EscapeAll(s))
  {
    if s != [] {
      EscapeAscii(s[0]);
      EscapeAllAscii(s[1..]);
    }
  }

  lemma PayloadAscii(id: string, value: string)
    ensures Ascii(Payload(id, value))
  {
    EscapeAllAscii(id);
    EscapeAllAscii(value);
  }

  function CharByte(c: char): Byte {
    if c as int < 128 then c as int else 0
  }

  function ByteChar(b: Byte): Option<char> {
    if b < 128 then Some(b as char) else None
  }

  lemma CharByteRoundTrip(c: char)
    requires c as int < 128
    ensures ByteChar(CharByte(c)) == Some(c)
  {
  }

  /** UTF-8 of ASCII text. */
  function ToBytes(t: string): seq<Byte> {
    Map(CharByte, t)
  }

  function ToText(bytes: seq<Byte>): Option<string> {
    Collect(ByteChar, bytes)
  }

  lemma TextRoundTrip(t: string)
    requires Ascii(t)
    ensures ToText(ToBytes(t)) == Some(t)
  {
    forall i | 0 <= i < |t| ensures ByteChar(CharByte(t[i])) == Some(t[i]) {
      CharByteRoundTrip(t[i]);
    }
    CollectInverts(CharByte, ByteChar, t);
  }

  // ---------------------------------------------------------------- the cursor

  function EncodeCursor(id: string, value: string): string
  {
    Base64Url.StripPads(Base64Url.EncodePadded(ToBytes(Payload(id, value))))
  }

  function DecodeCursor(cursor: Option<string>): Option<(string, string)>
  {
    if cursor.None? || cursor.value == [] then None
    else
      var bytes := Base64Url.DecodePadded(Base64Url.PadBack(cursor.value));
      if bytes.None? then None
      else
        var text := ToText(bytes.value);
        if text.None? then None else ParsePayload(text.value)
  }

  /** Whatever the id and the sort value, the cursor made from them names them. */
  lemma {:induction false} CursorRoundTrip(id: string, value: string)
    ensures EncodeCursor(id, value) != []
    ensures DecodeCursor(Some(EncodeCursor(id, value))) == Some((id, value))
  {
    var text := Payload(id, value);
    PayloadAscii(id, value);
    TextRoundTrip(text);
    PayloadRoundTrip(id, value);
    assert |ToBytes(text)| == |text| > 0;
    Base64Url.StrippedRoundTrip(ToBytes(text));
  }

  // ---------------------------------------------------------------- what the texts look like

  /** The escapes that have a letter. */
  lemma {:induction false} ShortEscapesAre()
    ensures Escape('"') == "\\\"" && Escape('\\') == "\\\\" && Escape('/') == "/"
    ensures Escape('\n') == "\\n" && Escape('\r') == "\\r" && Escape('\t') == "\\t"
    ensures Escape(8 as char) == "\\b" && Escape(12 as char) == "\\f"
  {
  }

  /** The others: four lower-case hexadecimal digits, for DEL and the rest of the basic plane. */
  lemma {:induction false} LongEscapesAre(c: char)
    requires 0x7f <= c as int < 0x10000
    ensures Escape(c) == UnicodeEscape(c as nat)
  {
  }

  /** Beyond it, those of the two surrogates. */
  lemma {:induction false} SurrogatesAre(c: char, high: nat, low: nat)
    requires c as int == 0x10000 + 1024 * high + low && high < 1024 && low < 1024
    ensures Escape(c) == UnicodeEscape(0xd800 + high) + UnicodeEscape(0xdc00 + low)
  {
    assert (c as nat - 0x10000) / 1024 == high && (c as nat - 0x10000) % 1024 == low;
  }

  lemma {:induction false} HexDigitIs(n: nat)
    requires n < 16
    ensures HexDigit(n) == "0123456789abcdef"[n]
    ensures HexValue("0123456789abcdef"[n]) == Some(n) && HexValue("0123456789ABCDEF"[n]) == Some(n)
  {
  }

  lemma {:induction false} HexDigitsAre(a: nat, b: nat, c: nat, d: nat)
    requires a < 16 && b < 16 && c < 16 && d < 16
    ensures UnicodeEscape(4096 * a + 256 * b + 16 * c + d) ==
      "\\u" + [HexDigit(a), HexDigit(b), HexDigit(c), HexDigit(d)]
  {
    HexOf(4096 * a + 256 * b + 16 * c + d, a, b, c, d);
  }

  lemma {:induction false} HexOf(n: nat, a: nat, b: nat, c: nat, d: nat)
    requires a < 16 && b < 16 && c < 16 && d < 16 && n == 4096 * a + 256 * b + 16 * c + d
    ensures n < 0x10000 && Hex4(n) == [HexDigit(a), HexDigit(b), HexDigit(c), HexDigit(d)]
  {
    assert n / 16 == 256 * a + 16 * b + c && n % 16 == d;
    assert n / 256 == 16 * a + b && n / 4096 == a;
  }

  lemma {:induction false} PlainText(s: string)
    requires forall i | 0 <= i < |s| :: Plain(s[i])
    ensures EscapeAll(s) == s
  {
    if s != [] {
      PlainText(s[1..]);
      assert s == [s[0]] + s[1..];
    }
  }

  /** For an id and a value in plain characters the cursor holds this JSON text. */
  lemma {:induction false} PayloadIs(id: string, value: string)
    requires forall i | 0 <= i < |id| :: Plain(id[i])
    requires forall i | 0 <= i < |value| :: Plain(value[i])
    ensures Payload(id, value) == "{\"id\": \"" + id + "\", \"v\": \"" + value + "\"}"
  {
    PlainText(id);
    PlainText(value);
  }

  /** A cursor that decodes was made of such a text: base64url of ASCII that begins like it. */
  lemma {:induction false} OnlyPayloadsDecode(cursor: Option<string>)
    requires DecodeCursor(cursor).Some?
    ensures cursor.Some? && cursor.value != []
    ensures var bytes := Base64Url.DecodePadded(Base64Url.PadBack(cursor.value));
      bytes.Some? && ToText(bytes.value).Some? && "{\"id\": \"" <= ToText(bytes.value).value
  {
  }
}
