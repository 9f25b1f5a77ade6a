/**
 The text `json.dumps` writes for a tree, without spaces and without escaping beyond ASCII. It
 determines the tree, and its length in UTF-8 is the size used for the limit on payloads.
 */
module JsonText {
  import opened Common
  import opened Text
  import opened JsonTree
  import Cursor

  // ---------------------------------------------------------------- writing

  function EscapeChar(c: char): string {
    if Cursor.ShortName(c).Some? then ['\\', Cursor.ShortName(c).value]
    else if c < ' ' then Cursor.UnicodeEscape(c as nat)
    else [c]
  }

  function EscapeText(s: string): string {
    if s == [] then [] else EscapeChar(s[0]) + EscapeText(s[1..])
  }

  function NatText(n: nat): (t: string)
    ensures |t| == Digits(n)
  {
    if n < 10 then ['0' + n as char] else NatText(n / 10) + ['0' + (n % 10) as char]
  }

  function IntText(n: int): string {
    if n < 0 then "-" + NatText(-n) else NatText(n)
  }

  predicate IsToken(v: Json) {
    v.Null? || v.Bool? || v.Int? || v.Float?
  }

  /** The text of a value that is neither a string nor a collection. */
  function Token(v: Json): string {
    match v
    case Null => "null"
    case Bool(b) => if b then "true" else "false"
    case Int(n) => IntText(n)
    case Float(_, text) => text
    case _ => ""
  }

  function QuotedTo(s: string, rest: string): string {
    "\"" + (EscapeText(s) + ("\"" + rest))
  }

  /** The text of a value, followed by `rest`. */
  function WriteTo(v: Json, rest: string): string {
    match v
    case Str(s) => QuotedTo(s, rest)
    case Arr(_, items) => "[" + ItemsTo(items, true, rest)
    case Obj(entries) => "{" + EntriesTo(entries, true, rest)
    case _ => Token(v) + rest
  }

  function ItemsTo(items: seq<Json>, first: bool, rest: string): string {
    if items == [] then "]" + rest
    else (if first then "" else ",") + WriteTo(items[0], ItemsTo(items[1..], false, rest))
  }

  function EntriesTo(entries: seq<Entry>, first: bool, rest: string): string {
    if entries == [] then "}" + rest
    else (if first then "" else ",") + EntryTo(entries[0], EntriesTo(entries[1..], false, rest))
  }

  function EntryTo(e: Entry, rest: string): string {
    QuotedTo(if e.key.Name? then e.key.text else "", ":" + WriteTo(e.value, rest))
  }

  function Write(v: Json): string {
    WriteTo(v, "")
  }

  // ---------------------------------------------------------------- canonical trees

  predicate Digit(c: char) {
    '0' <= c <= '9'
  }

  predicate TokenChar(c: char) {
    Digit(c) || 'a' <= c <= 'z' || 'A' <= c <= 'Z' || c == '-' || c == '+' || c == '.'
  }

  /** What Python writes for floats: a number with a point or an exponent, or one of three names. */
  predicate FloatText(t: string) {
    && t != [] && (Digit(t[0]) || t[0] == '-' || t[0] == 'N' || t[0] == 'I')
    && (forall i | 0 <= i < |t| :: TokenChar(t[i]))
    && exists i | 0 <= i < |t| :: !Digit(t[i]) && t[i] != '-'
  }

  /** A tree as parsed from JSON, each dictionary in the order of its keys, which is how the
      writer sorts them. */
  predicate Canonical(v: Json) {
    match v
    case Float(finite, t) => FloatText(t) && (finite <==> t != "NaN" && t != "Infinity" && t != "-Infinity")
    case Arr(isList, items) => isList && forall i | 0 <= i < |items| :: Canonical(items[i])
    case Obj(entries) => SortedKeys(entries) && forall i | 0 <= i < |entries| :: CanonicalEntry(entries[i])
    case Unsupported => false
    case _ => true
  }

  predicate CanonicalEntry(e: Entry) {
    e.key.Name? && Canonical(e.value)
  }

  predicate SortedKeys(entries: seq<Entry>) {
    forall i, j | 0 <= i < j < |entries| && entries[i].key.Name? && entries[j].key.Name? ::
      Less(entries[i].key.text, entries[j].key.text)
  }

  // ---------------------------------------------------------------- strings

  lemma {:induction false} EscapeCharRoundTrip(c: char, rest: string)
    ensures var e := EscapeChar(c);
      e != [] && e[0] != '"' && Cursor.ParseChar(e + rest) == Some((c, |e|))
  {
    if Cursor.ShortName(c).Some? {
      Cursor.ShortRoundTrip(c, rest);
    } else if c < ' ' {
      Cursor.UnicodeRoundTrip(c as nat, rest);
    }
  }

  lemma {:induction false} TextRoundTrip(s: string, rest: string)
    ensures Cursor.ParseString(EscapeText(s) + ("\"" + rest)) == Some((s, rest))
  {
    var quoted := "\"" + rest;
    if s == [] {
      assert EscapeText(s) + quoted == quoted && quoted[1..] == rest;
    } else {
      var tail := EscapeText(s[1..]) + quoted;
      TextRoundTrip(s[1..], rest);
      EscapeCharRoundTrip(s[0], tail);
      Regroup(EscapeChar(s[0]), EscapeText(s[1..]), quoted);
      assert s == [s[0]] + s[1..];
    }
  }

  lemma {:induction false} QuotedInjective(a: string, x: string, b: string, y: string)
    requires QuotedTo(a, x) == QuotedTo(b, y)
    ensures a == b && x == y
  {
    TextRoundTrip(a, x);
    TextRoundTrip(b, y);
    assert QuotedTo(a, x)[1..] == EscapeText(a) + ("\"" + x);
    assert QuotedTo(b, y)[1..] == EscapeText(b) + ("\"" + y);
  }

  // ---------------------------------------------------------------- numbers and names

  lemma {:induction false} NatTextDigits(n: nat)
    ensures forall i | 0 <= i < |NatText(n)| :: Digit(NatText(n)[i])
  {
    if n >= 10 {
      NatTextDigits(n / 10);
    }
  }

  lemma {:induction false} NatTextInjective(m: nat, n: nat)
    requires NatText(m) == NatText(n)
    ensures m == n
  {
    var a, b := NatText(m), NatText(n);
    if m >= 10 && n >= 10 {
      assert a[..|a| - 1] == NatText(m / 10) && b[..|b| - 1] == NatText(n / 10);
      NatTextInjective(m / 10, n / 10);
      assert a[|a| - 1] == '0' + (m % 10) as char && b[|b| - 1] == '0' + (n % 10) as char;
    }
  }

  lemma {:induction false} IntTextShape(n: int)
    ensures var t := IntText(n);
      && t != [] && (Digit(t[0]) || t[0] == '-')
      && (forall i | 0 <= i < |t| :: Digit(t[i]) || t[i] == '-') && (n < 0 <==> t[0] == '-')
  {
    NatTextDigits(if n < 0 then -n else n);
  }

  lemma {:induction false} IntTextInjective(m: int, n: int)
    requires IntText(m) == IntText(n)
    ensures m == n
  {
    IntTextShape(m);
    IntTextShape(n);
    if m < 0 {
      assert IntText(m)[1..] == NatText(-m) && IntText(n)[1..] == NatText(-n);
      NatTextInjective(-m, -n);
    } else {
      NatTextInjective(m, n);
    }
  }

  lemma {:induction false} TokenShape(v: Json)
    requires IsToken(v) && Canonical(v)
    ensures Token(v) != [] && forall i | 0 <= i < |Token(v)| :: TokenChar(Token(v)[i])
  {
    if v.Int? {
      IntTextShape(v.n);
    }
  }

  lemma {:induction false} TokenInjective(v: Json, w: Json)
    requires IsToken(v) && IsToken(w) && Canonical(v) && Canonical(w) && Token(v) == Token(w)
    ensures v == w
  {
    if v.Int? {
      IntTextShape(v.n);
    }
    if w.Int? {
      IntTextShape(w.n);
    }
    if v.Int? && w.Int? {
      IntTextInjective(v.n, w.n);
    }
    assert "null"[0] == 'n' && "true"[0] == 't' && "false"[0] == 'f';
  }

  // ---------------------------------------------------------------- the text determines the tree

  /** The text is over, or goes on behind a finished value. */
  predicate Closed(t: string) {
    t == [] || t[0] == ',' || t[0] == ']' || t[0] == '}'
  }

  lemma {:induction false} NoShorter(a: string, x: string, b: string, t: string)
    requires t == a + x && b <= t && Closed(x)
    requires forall i | 0 <= i < |b| :: TokenChar(b[i])
    ensures |a| >= |b|
  {
    assert |a| < |t| ==> t[|a|] == x[0];
  }

  /** A token ends where the text is closed. */
  lemma {:induction false} TokenPrefix(a: string, x: string, b: string, y: string)
    requires a + x == b + y && Closed(x) && Closed(y)
    requires forall i | 0 <= i < |a| :: TokenChar(a[i])
    requires forall i | 0 <= i < |b| :: TokenChar(b[i])
    ensures a == b && x == y
  {
    var t, u := a + x, b + y;
    NoShorter(a, x, b, t);
    NoShorter(b, y, a, t);
    assert a == t[..|a|] && b == u[..|b|] && x == t[|a|..] && y == u[|b|..];
  }

  /** What a value's text begins with. */
  lemma {:induction false} FirstChar(v: Json, x: string)
    requires Canonical(v)
    ensures var t := WriteTo(v, x);
      && t != []
      && (v.Str? <==> t[0] == '"') && (v.Arr? <==> t[0] == '[') && (v.Obj? <==> t[0] == '{')
      && t[0] != ']' && t[0] != '}'
  {
    if IsToken(v) {
      TokenShape(v);
      assert WriteTo(v, x)[0] == Token(v)[0];
    }
  }

  lemma {:induction false} WriteInjective(v: Json, x: string, w: Json, y: string)
    requires Canonical(v) && Canonical(w) && Closed(x) && Closed(y) && WriteTo(v, x) == WriteTo(w, y)
    ensures v == w && x == y
    decreases v, 1
  {
    FirstChar(v, x);
    FirstChar(w, y);
    match v
    case Str(s) => QuotedInjective(s, x, w.text, y);
    case Arr(_, items) =>
      assert WriteTo(v, x)[1..] == ItemsTo(items, true, x) && WriteTo(w, y)[1..] == ItemsTo(w.items, true, y);
      ItemsInjective(items, x, w.items, y, true);
    case Obj(entries) =>
      assert WriteTo(v, x)[1..] == EntriesTo(entries, true, x) && WriteTo(w, y)[1..] == EntriesTo(w.entries, true, y);
      EntriesInjective(entries, x, w.entries, y, true);
    case _ =>
      TokenShape(v);
      TokenShape(w);
      TokenPrefix(Token(v), x, Token(w), y);
      TokenInjective(v, w);
  }

  lemma {:induction false} DropComma(first: bool, t: string, u: string)
    requires (if first then "" else ",") + t == (if first then "" else ",") + u
    ensures t == u
  {
    var sep := if first then "" else ",";
    assert t == (sep + t)[|sep|..] && u == (sep + u)[|sep|..];
  }

  lemma {:induction false} ItemsInjective(a: seq<Json>, x: string, b: seq<Json>, y: string, first: bool)
    requires (forall i | 0 <= i < |a| :: Canonical(a[i])) && (forall i | 0 <= i < |b| :: Canonical(b[i]))
    requires ItemsTo(a, first, x) == ItemsTo(b, first, y)
    ensures a == b && x == y
    decreases a, 0
  {
    ItemsStart(a, first, x);
    ItemsStart(b, first, y);
    if a == [] {
      assert ("]" + x)[1..] == x && ("]" + y)[1..] == y;
    } else {
      var s, t := ItemsTo(a[1..], false, x), ItemsTo(b[1..], false, y);
      DropComma(first, WriteTo(a[0], s), WriteTo(b[0], t));
      WriteInjective(a[0], s, b[0], t);
      ItemsInjective(a[1..], x, b[1..], y, false);
      assert a == [a[0]] + a[1..] && b == [b[0]] + b[1..];
    }
  }

  lemma {:induction false} ItemsStart(items: seq<Json>, first: bool, x: string)
    requires forall i | 0 <= i < |items| :: Canonical(items[i])
    ensures var t := ItemsTo(items, first, x); t != [] && (items == [] <==> t[0] == ']')
  {
    if items != [] && first {
      FirstChar(items[0], ItemsTo(items[1..], false, x));
    }
  }

  lemma {:induction false} EntriesInjective(a: seq<Entry>, x: string, b: seq<Entry>, y: string, first: bool)
    requires (forall i | 0 <= i < |a| :: CanonicalEntry(a[i])) && (forall i | 0 <= i < |b| :: CanonicalEntry(b[i]))
    requires EntriesTo(a, first, x) == EntriesTo(b, first, y)
    ensures a == b && x == y
    decreases a, 0
  {
    if a == [] || b == [] {
      assert EntriesTo(a, first, x)[0] == '}' <==> a == [];
      assert EntriesTo(b, first, y)[0] == '}' <==> b == [];
      assert ("}" + x)[1..] == x && ("}" + y)[1..] == y;
    } else {
      var s, t := EntriesTo(a[1..], false, x), EntriesTo(b[1..], false, y);
      DropComma(first, EntryTo(a[0], s), EntryTo(b[0], t));
      EntryInjective(a[0], s, b[0], t);
      EntriesInjective(a[1..], x, b[1..], y, false);
      assert a == [a[0]] + a[1..] && b == [b[0]] + b[1..];
    }
  }

  lemma {:induction false} EntryInjective(e: Entry, x: string, f: Entry, y: string)
    requires CanonicalEntry(e) && CanonicalEntry(f) && Closed(x) && Closed(y) && EntryTo(e, x) == EntryTo(f, y)
    ensures e == f && x == y
    decreases e, 2
  {
    var u, v := ":" + WriteTo(e.value, x), ":" + WriteTo(f.value, y);
    QuotedInjective(e.key.text, u, f.key.text, v);
    assert u[1..] == WriteTo(e.value, x) && v[1..] == WriteTo(f.value, y);
    WriteInjective(e.value, x, f.value, y);
  }

  /** Two canonical trees with the same text are the same tree. */
  lemma {:induction false} TextDeterminesTree(v: Json, w: Json)
    requires Canonical(v) && Canonical(w) && Write(v) == Write(w)
    ensures v == w
  {
    WriteInjective(v, "", w, "");
  }

  /** One text in full: keys and texts in quotes, members between commas, no spaces. */
  lemma {:induction false} SampleText()
    ensures Write(Obj([Entry(Name("a"), Arr(true, [Null, Str("x")])), Entry(Name("b"), Obj([]))]))
      == "{\"a\":[null,\"x\"],\"b\":{}}"
  {
    var list, sub := Arr(true, [Null, Str("x")]), Obj([]);
    SampleItems(",\"b\":{}}");
    assert "[null,\"x\"]" + ",\"b\":{}}" == "[null,\"x\"],\"b\":{}}";
    SampleEntries(list, sub, "[null,\"x\"],\"b\":{}}");
    assert "{\"a\":" + "[null,\"x\"],\"b\":{}}" == "{\"a\":[null,\"x\"],\"b\":{}}";
  }

  lemma {:induction false} SampleTokens()
    ensures Write(Bool(true)) == "true" && Write(Bool(false)) == "false" && Write(Int(-12)) == "-12"
  {
    assert NatText(12) == "12";
  }

  lemma {:induction false} SampleEntries(list: Json, sub: Json, text: string)
    requires sub == Obj([]) && WriteTo(list, ",\"b\":{}}") == text
    ensures Write(Obj([Entry(Name("a"), list), Entry(Name("b"), sub)])) == "{\"a\":" + text
  {
    var entries := [Entry(Name("a"), list), Entry(Name("b"), sub)];
    assert entries[1..] == [Entry(Name("b"), sub)] && entries[1..][1..] == [];
    SampleLast(sub);
    assert EntriesTo(entries[1..], false, "") == ",\"b\":{}}";
    SampleQuoted('a', ":" + text);
    assert EntryTo(entries[0], EntriesTo(entries[1..], false, "")) == QuotedTo("a", ":" + text);
    assert EntriesTo(entries, true, "") == "" + QuotedTo("a", ":" + text);
    assert "" + QuotedTo("a", ":" + text) == QuotedTo("a", ":" + text);
    Glue("{", "\"a\"", "{\"a\"", ":" + text);
    Glue("{\"a\"", ":", "{\"a\":", text);
  }

  lemma {:induction false} SampleLast(sub: Json)
    requires sub == Obj([])
    ensures "," + EntryTo(Entry(Name("b"), sub), EntriesTo([], false, "")) == ",\"b\":{}}"
  {
    assert WriteTo(sub, "}") == "{}}";
    SampleQuoted('b', ":{}}");
  }

  lemma {:induction false} SampleItems(rest: string)
    ensures WriteTo(Arr(true, [Null, Str("x")]), rest) == "[null,\"x\"]" + rest
  {
    var items := [Null, Str("x")];
    assert items[1..] == [Str("x")] && items[1..][1..] == [];
    SampleQuoted('x', "]" + rest);
    Glue("\"x\"", "]", "\"x\"]", rest);
    Glue(",", "\"x\"]", ",\"x\"]", rest);
    Glue("null", ",\"x\"]", "null,\"x\"]", rest);
    var tail := ",\"x\"]" + rest;
    assert WriteTo(Str("x"), "]" + rest) == "\"x\"]" + rest;
    assert ItemsTo(items[1..][1..], false, rest) == "]" + rest;
    assert ItemsTo(items[1..], false, rest) == tail;
    assert ItemsTo(items, true, rest) == "" + ("null" + tail);
    assert "" + ("null" + tail) == "null" + tail;
    Glue("[", "null,\"x\"]", "[null,\"x\"]", rest);
  }

  lemma {:induction false} Glue(a: string, b: string, ab: string, rest: string)
    requires a + b == ab
    ensures a + (b + rest) == ab + rest
  {
  }

  lemma {:induction false} SampleQuoted(c: char, rest: string)
    requires 'a' <= c <= 'z'
    ensures QuotedTo([c], rest) == ['"', c, '"'] + rest
  {
    assert [c][1..] == [];
    assert EscapeText([c]) == [c];
  }

  // ---------------------------------------------------------------- the length of the text

  /** The length in UTF-8. */
  function Utf8Length(t: string): nat {
    if t == [] then 0
    else
      var n := t[0] as int;
      (if n < 0x80 then 1 else if n < 0x800 then 2 else if n < 0x10000 then 3 else 4) + Utf8Length(t[1..])
  }

  lemma {:induction false} Utf8Concat(a: string, b: string)
    ensures Utf8Length(a + b) == Utf8Length(a) + Utf8Length(b)
  {
    if a == [] {
      assert a + b == b;
    } else {
      assert (a + b)[1..] == a[1..] + b;
      Utf8Concat(a[1..], b);
    }
  }

  lemma {:induction false} AsciiLength(t: string)
    requires forall i | 0 <= i < |t| :: t[i] as int < 0x80
    ensures Utf8Length(t) == |t|
  {
    if t != [] {
      AsciiLength(t[1..]);
    }
  }

  lemma {:induction false} EscapeCharLength(c: char)
    ensures Utf8Length(EscapeChar(c)) == CharSize(c)
  {
    var e := EscapeChar(c);
    if Cursor.ShortName(c).Some? || c < ' ' {
      AsciiLength(e);
    } else {
      assert e[1..] == [];
    }
  }

  lemma {:induction false} EscapeTextLength(s: string)
    ensures Utf8Length(EscapeText(s)) == CharsSize(s)
  {
    if s != [] {
      EscapeCharLength(s[0]);
      EscapeTextLength(s[1..]);
      Utf8Concat(EscapeChar(s[0]), EscapeText(s[1..]));
    }
  }

  lemma {:induction false} QuotedLength(s: string, rest: string)
    ensures Utf8Length(QuotedTo(s, rest)) == 2 + CharsSize(s) + Utf8Length(rest)
  {
    EscapeTextLength(s);
    AsciiLength("\"");
    Utf8Concat("\"", rest);
    Utf8Concat(EscapeText(s), "\"" + rest);
    Utf8Concat("\"", EscapeText(s) + ("\"" + rest));
  }

  lemma {:induction false} TokenLength(v: Json, rest: string)
    requires IsToken(v) && Canonical(v)
    ensures Utf8Length(Token(v) + rest) == Size(v) + Utf8Length(rest)
  {
    TokenShape(v);
    AsciiLength(Token(v));
    Utf8Concat(Token(v), rest);
  }

  lemma {:induction false} WriteLength(v: Json, rest: string)
    requires Canonical(v)
    ensures Utf8Length(WriteTo(v, rest)) == Size(v) + Utf8Length(rest)
    decreases v, 1
  {
    match v
    case Str(s) => QuotedLength(s, rest);
    case Arr(_, items) =>
      ItemsLength(items, true, rest);
    case Obj(entries) =>
      EntriesLength(entries, true, rest);
    case _ => TokenLength(v, rest);
  }

  lemma {:induction false} ItemsLength(items: seq<Json>, first: bool, rest: string)
    requires forall i | 0 <= i < |items| :: Canonical(items[i])
    ensures Utf8Length(ItemsTo(items, first, rest)) ==
      (if first then WithCommas(ItemsSize(items)) else ItemsSize(items)) + 1 + Utf8Length(rest)
    decreases items, 0
  {
    if items != [] {
      var tail := ItemsTo(items[1..], false, rest);
      ItemsLength(items[1..], false, rest);
      WriteLength(items[0], tail);
      assert "" + WriteTo(items[0], tail) == WriteTo(items[0], tail);
    }
  }

  lemma {:induction false} EntryLength(e: Entry, rest: string)
    requires CanonicalEntry(e)
    ensures Utf8Length(EntryTo(e, rest)) == EntrySize(e) + Utf8Length(rest)
    decreases e, 2
  {
    WriteLength(e.value, rest);
    QuotedLength(e.key.text, ":" + WriteTo(e.value, rest));
  }

  lemma {:induction false} EntriesLength(entries: seq<Entry>, first: bool, rest: string)
    requires forall i | 0 <= i < |entries| :: CanonicalEntry(entries[i])
    ensures Utf8Length(EntriesTo(entries, first, rest)) ==
      (if first then WithCommas(EntriesSize(entries)) else EntriesSize(entries)) + 1 + Utf8Length(rest)
    decreases entries, 0
  {
    if entries != [] {
      var tail := EntriesTo(entries[1..], false, rest);
      EntriesLength(entries[1..], false, rest);
      EntryLength(entries[0], tail);
      assert "" + EntryTo(entries[0], tail) == EntryTo(entries[0], tail);
    }
  }

  /** The size a payload is measured by is the length of its text. */
  lemma {:induction false} SizeIsLength(v: Json)
    requires Canonical(v)
    ensures Utf8Length(Write(v)) == Size(v)
  {
    WriteLength(v, "");
  }
}
