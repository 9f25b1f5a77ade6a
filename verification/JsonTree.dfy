/**
 Parsed JSON payloads, and the length of the text `json.dumps` writes for them with the
 separators "," and ":" and without escaping beyond ASCII, in bytes of UTF-8.
 */
module JsonTree {
  import opened Common

  /** A dictionary key: a string, or a value of another type. `json.dumps` writes some of those
      (numbers, booleans, null) in so many characters and refuses the rest. */
  datatype Key = Name(text: string) | NotName(written: Option<nat>)

  /** A Python value of a parsed payload. A dictionary lists its entries in insertion order; a
      float is known by the text written for it; a tuple is an `Arr` that is not a list. */
  datatype Json =
    | Null
    | Bool(b: bool)
    | Int(n: int)
    | Float(finite: bool, text: string)
    | Str(text: string)
    | Arr(isList: bool, items: seq<Json>)
    | Obj(entries: seq<Entry>)
    | Unsupported
  datatype Entry = Entry(key: Key, value: Json)

  /** Whether `json.dumps` accepts the value. */
  predicate Encodable(v: Json) {
    match v
    case Arr(_, items) => forall i | 0 <= i < |items| :: Encodable(items[i])
    case Obj(entries) => forall i | 0 <= i < |entries| :: EncodableEntry(entries[i])
    case Unsupported => false
    case _ => true
  }

  predicate EncodableEntry(e: Entry) {
    (e.key.NotName? ==> e.key.written.Some?) && Encodable(e.value)
  }

  /** Quotes, backslashes and control characters are escaped, the five with a short name in two
      characters. */
  function CharSize(c: char): (n: nat)
    ensures n >= 1
  {
    var n := c as int;
    if c == '"' || c == '\\' || 8 <= n <= 10 || n == 12 || n == 13 then 2
    else if n < 0x20 then 6
    else if n < 0x80 then 1
    else if n < 0x800 then 2
    else if n < 0x10000 then 3
    else 4
  }

  function CharsSize(s: string): (n: nat)
    ensures n >= |s|
  {
    if s == [] then 0 else CharSize(s[0]) + CharsSize(s[1..])
  }

  /** The number of decimal digits. */
  function Digits(n: nat): nat {
    if n < 10 then 1 else Digits(n / 10) + 1
  }

  function KeySize(k: Key): nat {
    if k.Name? then 2 + CharsSize(k.text) else if k.written.Some? then 2 + k.written.value else 0
  }

  function Size(v: Json): nat {
    match v
    case Null => 4
    case Bool(b) => if b then 4 else 5
    case Int(n) => if n < 0 then 1 + Digits(-n) else Digits(n)
    case Float(_, text) => |text|
    case Str(s) => 2 + CharsSize(s)
    case Arr(_, items) => 2 + WithCommas(ItemsSize(items))
    case Obj(entries) => 2 + WithCommas(EntriesSize(entries))
    case Unsupported => 0
  }

  /** The total counts one comma after each member; the last has none. */
  function WithCommas(total: nat): nat {
    if total == 0 then 0 else total - 1
  }

  function ItemsSize(items: seq<Json>): nat {
    if items == [] then 0 else Size(items[0]) + 1 + ItemsSize(items[1..])
  }

  function EntriesSize(entries: seq<Entry>): nat {
    if entries == [] then 0 else EntrySize(entries[0]) + 1 + EntriesSize(entries[1..])
  }

  /** The key, the colon and the value. */
  function EntrySize(e: Entry): nat {
    KeySize(e.key) + 1 + Size(e.value)
  }

  // ---------------------------------------------------------------- comparing lengths

  lemma {:induction false} ItemsNoLonger(a: seq<Json>, b: seq<Json>)
    requires |a| == |b| && forall i | 0 <= i < |a| :: Size(a[i]) <= Size(b[i])
    ensures ItemsSize(a) <= ItemsSize(b)
  {
    if a != [] {
      ItemsNoLonger(a[1..], b[1..]);
    }
  }

  lemma {:induction false} EntriesNoLonger(a: seq<Entry>, b: seq<Entry>)
    requires |a| == |b| && forall i | 0 <= i < |a| :: EntrySize(a[i]) <= EntrySize(b[i])
    ensures EntriesSize(a) <= EntriesSize(b)
  {
    if a != [] {
      EntriesNoLonger(a[1..], b[1..]);
    }
  }

  lemma {:induction false} EntriesAppend(a: seq<Entry>, e: Entry)
    ensures EntriesSize(a + [e]) == EntriesSize(a) + EntrySize(e) + 1
  {
    if a == [] {
      assert a + [e] == [e] && [e][1..] == [];
    } else {
      EntriesAppend(a[1..], e);
      assert (a + [e])[1..] == a[1..] + [e];
    }
  }
}
