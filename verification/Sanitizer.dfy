/**
 Cleaning untrusted blocks. `Sanitized` describes the cleaning in two passes (strip every text,
 then check the limits); the methods do it in one, as the service does.
 */
module Sanitizer {
  import opened Common
  import opened Text
  import opened JsonTree

  /** The limits, as the settings give them. */
  datatype Limits = Limits(
    maxString: nat, maxIdentifier: nat, maxItems: nat, maxDepth: nat, maxTransactions: nat, maxPayload: nat)

  // ---------------------------------------------------------------- texts

  predicate Control(c: char) {
    var n := c as int;
    n <= 8 || n == 11 || n == 12 || 14 <= n <= 31 || n == 127
  }

  predicate NoControl(s: string) {
    forall i | 0 <= i < |s| :: !Control(s[i])
  }

  predicate NoNul(s: string) {
    forall i | 0 <= i < |s| :: s[i] != '\0'
  }

  function RemoveControl(s: string): (r: string)
    ensures |r| <= |s| && NoControl(r)
    ensures NoControl(s) ==> r == s
  {
    if s == [] then []
    else if Control(s[0]) then RemoveControl(s[1..])
    else [s[0]] + RemoveControl(s[1..])
  }

  function CleanText(s: string, max: nat): Option<string> {
    if !NoNul(s) then None
    else
      var cleaned := RemoveControl(s);
      if |cleaned| > max then None else Some(cleaned)
  }

  predicate ValidKey(L: Limits, k: Key) {
    k.Name? && NoControl(k.text) && |k.text| <= L.maxIdentifier && Strip(k.text) != []
  }

  function SanitizeKey(L: Limits, k: Key): Option<Key> {
    if k.NotName? then None
    else
      var cleaned := CleanText(k.text, L.maxIdentifier);
      if cleaned.None? || Strip(cleaned.value) == [] then None else Some(Name(cleaned.value))
  }

  // ---------------------------------------------------------------- the two passes

  /** Every text of the tree without its control characters, every tuple a list. */
  function Stripped(v: Json): Json {
    match v
    case Str(s) => Str(RemoveControl(s))
    case Arr(_, items) => Arr(true, seq(|items|, i requires 0 <= i < |items| => Stripped(items[i])))
    case Obj(entries) => Obj(seq(|entries|, i requires 0 <= i < |entries| => StrippedEntry(entries[i])))
    case _ => v
  }

  function StrippedKey(k: Key): Key {
    if k.Name? then Name(RemoveControl(k.text)) else k
  }

  function StrippedEntry(e: Entry): Entry {
    Entry(StrippedKey(e.key), Stripped(e.value))
  }

  /** No text of the tree holds a null character. */
  predicate Plain(v: Json) {
    match v
    case Str(s) => NoNul(s)
    case Arr(_, items) => forall i | 0 <= i < |items| :: Plain(items[i])
    case Obj(entries) => forall i | 0 <= i < |entries| :: PlainEntry(entries[i])
    case _ => true
  }

  predicate PlainEntry(e: Entry) {
    (e.key.Name? ==> NoNul(e.key.text)) && Plain(e.value)
  }

  predicate DistinctKeys(entries: seq<Entry>) {
    forall i, j | 0 <= i < j < |entries| :: entries[i].key != entries[j].key
  }

  /** The tree is free of control characters and within every limit. */
  predicate Clean(L: Limits, v: Json, depth: nat) {
    depth <= L.maxDepth &&
    match v
    case Float(finite, _) => finite
    case Str(s) => NoControl(s) && |s| <= L.maxString
    case Arr(isList, items) =>
      isList && |items| <= L.maxItems && forall i | 0 <= i < |items| :: Clean(L, items[i], depth + 1)
    case Obj(entries) => |entries| <= L.maxItems && CleanEntries(L, entries, depth)
    case Unsupported => false
    case _ => true
  }

  predicate CleanEntries(L: Limits, entries: seq<Entry>, depth: nat) {
    DistinctKeys(entries) && forall i | 0 <= i < |entries| :: CleanEntry(L, entries[i], depth)
  }

  predicate CleanEntry(L: Limits, e: Entry, depth: nat) {
    ValidKey(L, e.key) && Clean(L, e.value, depth + 1)
  }

  function Sanitized(L: Limits, v: Json, depth: nat): Option<Json> {
    if Plain(v) && Clean(L, Stripped(v), depth) then Some(Stripped(v)) else None
  }

  /** A clean tree is its own stripped form. */
  lemma {:induction false} CleanIsStripped(L: Limits, v: Json, depth: nat)
    requires Clean(L, v, depth)
    ensures Plain(v) && Stripped(v) == v
    decreases v
  {
    match v
    case Arr(_, items) =>
      forall i | 0 <= i < |items| ensures Plain(items[i]) && Stripped(items[i]) == items[i] {
        CleanIsStripped(L, items[i], depth + 1);
      }
      assert Stripped(v).items == items;
    case Obj(entries) =>
      forall i | 0 <= i < |entries| ensures PlainEntry(entries[i]) && StrippedEntry(entries[i]) == entries[i] {
        assert CleanEntry(L, entries[i], depth);
        CleanIsStripped(L, entries[i].value, depth + 1);
      }
      assert Stripped(v).entries == entries;
    case _ =>
  }

  /** What comes out is clean, exactly the clean trees come out as they went in, and so
      sanitising again at the same depth changes nothing. */
  lemma {:induction false} SanitizeIsIdempotent(L: Limits, v: Json, depth: nat)
    ensures Sanitized(L, v, depth) == Some(v) <==> Clean(L, v, depth)
    ensures Sanitized(L, v, depth).Some? ==>
      var r := Sanitized(L, v, depth).value;
      Clean(L, r, depth) && Sanitized(L, r, depth) == Some(r)
  {
    if Clean(L, v, depth) {
      CleanIsStripped(L, v, depth);
    }
    if Sanitized(L, v, depth).Some? {
      CleanIsStripped(L, Stripped(v), depth);
    }
  }

  // ---------------------------------------------------------------- the one pass

  predicate HasKey(entries: seq<Entry>, k: Key) {
    exists i | 0 <= i < |entries| :: entries[i].key == k
  }

  lemma BadEntry(L: Limits, v: Json, depth: nat, i: nat)
    requires v.Obj? && i < |v.entries|
    requires !(PlainEntry(v.entries[i]) && CleanEntry(L, StrippedEntry(v.entries[i]), depth))
    ensures Sanitized(L, v, depth) == None
  {
    var r := Stripped(v);
    assert r.entries[i] == StrippedEntry(v.entries[i]);
    assert Plain(v) ==> PlainEntry(v.entries[i]);
    assert Clean(L, r, depth) ==> CleanEntries(L, r.entries, depth);
  }

  method SanitizeMapping(L: Limits, v: Json, depth: nat) returns (r: Option<Json>)
    requires v.Obj? && depth <= L.maxDepth
    ensures r == Sanitized(L, v, depth)
    decreases v, 0
  {
    var entries := v.entries;
    ghost var goal := Stripped(v).entries;
    if |entries| > L.maxItems {
      return None;
    }
    var out: seq<Entry> := [];
    for i := 0 to |entries|
      invariant out == goal[..i]
      invariant DistinctKeys(out)
      invariant forall j | 0 <= j < i :: PlainEntry(entries[j]) && CleanEntry(L, out[j], depth)
    {
      assert goal[i] == StrippedEntry(entries[i]);
      var key := SanitizeKey(L, entries[i].key);
      if key.None? {
        BadEntry(L, v, depth, i);
        return None;
      }
      if HasKey(out, key.value) {
        assert !DistinctKeys(goal) && !CleanEntries(L, goal, depth);
        return None;
      }
      var item := SanitizeValue(L, entries[i].value, depth + 1);
      if item.None? {
        BadEntry(L, v, depth, i);
        return None;
      }
      out := out + [Entry(key.value, item.value)];
    }
    assert out == goal && CleanEntries(L, goal, depth);
    return Some(Obj(out));
  }

  method SanitizeList(L: Limits, v: Json, depth: nat) returns (r: Option<Json>)
    requires v.Arr? && depth <= L.maxDepth
    ensures r == Sanitized(L, v, depth)
    decreases v, 0
  {
    var items := v.items;
    ghost var goal := Stripped(v).items;
    if |items| > L.maxItems {
      return None;
    }
    var out: seq<Json> := [];
    for i := 0 to |items|
      invariant out == goal[..i]
      invariant forall j | 0 <= j < i :: Plain(items[j]) && Clean(L, out[j], depth + 1)
    {
      assert goal[i] == Stripped(items[i]);
      var item := SanitizeValue(L, items[i], depth + 1);
      if item.None? {
        assert !(Plain(items[i]) && Clean(L, goal[i], depth + 1));
        return None;
      }
      out := out + [item.value];
    }
    assert out == goal;
    return Some(Arr(true, out));
  }

  method SanitizeValue(L: Limits, v: Json, depth: nat) returns (r: Option<Json>)
    ensures r == Sanitized(L, v, depth)
    decreases v, 1
  {
    if depth > L.maxDepth {
      return None;
    }
    match v
    case Null => return Some(v);
    case Bool(_) => return Some(v);
    case Int(_) => return Some(v);
    case Float(finite, _) => return if finite then Some(v) else None;
    case Str(s) =>
      var cleaned := CleanText(s, L.maxString);
      return if cleaned.Some? then Some(Str(cleaned.value)) else None;
    case Arr(_, _) => r := SanitizeList(L, v, depth);
    case Obj(_) => r := SanitizeMapping(L, v, depth);
    case Unsupported => return None;
  }

  // ---------------------------------------------------------------- dictionaries

  function Lookup(entries: seq<Entry>, name: string): Option<Json> {
    if entries == [] then None
    else if entries[0].key == Name(name) then Some(entries[0].value)
    else Lookup(entries[1..], name)
  }

  /** Assignment to a key: in its place if it is there, at the end if not. */
  function Put(entries: seq<Entry>, name: string, v: Json): (r: seq<Entry>)
    ensures |r| == if HasKey(entries, Name(name)) then |entries| else |entries| + 1
    ensures DistinctKeys(entries) ==> DistinctKeys(r)
  {
    if HasKey(entries, Name(name)) then
      seq(|entries|, i requires 0 <= i < |entries| =>
        if entries[i].key == Name(name) then Entry(Name(name), v) else entries[i])
    else entries + [Entry(Name(name), v)]
  }

  lemma {:induction false} LookupAt(entries: seq<Entry>, name: string)
    requires DistinctKeys(entries)
    ensures Lookup(entries, name).None? ==> !HasKey(entries, Name(name))
    ensures forall i | 0 <= i < |entries| && entries[i].key == Name(name) ::
      Lookup(entries, name) == Some(entries[i].value)
  {
    if entries != [] && entries[0].key != Name(name) {
      var rest := entries[1..];
      LookupAt(rest, name);
      forall i | 0 <= i < |entries| && entries[i].key == Name(name)
        ensures Lookup(entries, name) == Some(entries[i].value)
      {
        assert entries[i] == rest[i - 1];
      }
      assert HasKey(entries, Name(name)) ==> HasKey(rest, Name(name)) by {
        if i :| 0 <= i < |entries| && entries[i].key == Name(name) {
          assert entries[i] == rest[i - 1];
        }
      }
    }
  }

  lemma {:induction false} LookupFinds(entries: seq<Entry>, name: string) returns (i: nat)
    requires Lookup(entries, name).Some?
    ensures i < |entries| && entries[i] == Entry(Name(name), Lookup(entries, name).value)
  {
    if entries[0].key == Name(name) {
      i := 0;
    } else {
      var j := LookupFinds(entries[1..], name);
      i := j + 1;
    }
  }

  lemma PutLookup(entries: seq<Entry>, name: string, v: Json)
    requires DistinctKeys(entries)
    ensures Lookup(Put(entries, name, v), name) == Some(v)
  {
    var r := Put(entries, name, v);
    LookupAt(r, name);
    if HasKey(entries, Name(name)) {
      var i: nat :| i < |entries| && entries[i].key == Name(name);
      assert r[i] == Entry(Name(name), v);
    } else {
      assert r[|entries|] == Entry(Name(name), v);
    }
  }

  lemma PutSame(entries: seq<Entry>, name: string)
    requires DistinctKeys(entries) && Lookup(entries, name).Some?
    ensures Put(entries, name, Lookup(entries, name).value) == entries
  {
    LookupAt(entries, name);
    var i := LookupFinds(entries, name);
    assert HasKey(entries, Name(name));
  }

  // ---------------------------------------------------------------- identifiers

  predicate Alphanumeric(c: char) {
    'A' <= c <= 'Z' || 'a' <= c <= 'z' || '0' <= c <= '9'
  }

  predicate IdentifierChar(c: char) {
    Alphanumeric(c) || c == '.' || c == '_' || c == ':' || c == '+' || c == '/' || c == '=' || c == '-'
  }

  /** The identifier grammar. */
  predicate ValidIdentifier(s: string) {
    s != [] && Alphanumeric(s[0]) && forall i | 0 <= i < |s| :: IdentifierChar(s[i])
  }

  function SanitizeIdentifier(L: Limits, v: Json): Option<string> {
    if !v.Str? then None
    else
      var cleaned := CleanText(v.text, L.maxIdentifier);
      if cleaned.None? || !ValidIdentifier(Strip(cleaned.value)) then None else Some(Strip(cleaned.value))
  }

  function IdentifierField(i: nat): string {
    match i case 0 => "hash" case 1 => "id" case 2 => "tx_hash" case 3 => "transaction_hash" case _ => "paging_token"
  }

  /** The key is one of the first `n` identifier fields. */
  predicate IsIdentifier(k: Key, n: nat) {
    exists i | 0 <= i < n :: k == Name(IdentifierField(i))
  }

  predicate FieldAccepted(L: Limits, e: Entry, n: nat) {
    IsIdentifier(e.key, n) ==> SanitizeIdentifier(L, e.value).Some?
  }

  function FieldCleaned(L: Limits, e: Entry, n: nat): Entry
    requires FieldAccepted(L, e, n)
  {
    if IsIdentifier(e.key, n) then Entry(e.key, Str(SanitizeIdentifier(L, e.value).value)) else e
  }

  /** A record with every identifier field cleaned in its place, if all of them can be. */
  function RecordCleaned(L: Limits, record: seq<Entry>): Option<seq<Entry>> {
    if forall i | 0 <= i < |record| :: FieldAccepted(L, record[i], 5) then
      Some(seq(|record|, i requires 0 <= i < |record| => FieldCleaned(L, record[i], 5)))
    else None
  }

  method SanitizeIdentifiers(L: Limits, record: seq<Entry>) returns (r: Option<seq<Entry>>)
    requires DistinctKeys(record)
    ensures r == RecordCleaned(L, record)
  {
    var out := record;
    for n := 0 to 5
      invariant |out| == |record|
      invariant forall i | 0 <= i < |record| ::
        FieldAccepted(L, record[i], n) && out[i] == FieldCleaned(L, record[i], n)
    {
      var field := IdentifierField(n);
      LookupAt(out, field);
      var value := Lookup(out, field);
      if value.Some? {
        ghost var at := LookupFinds(out, field);
        FieldsDistinct(n);
        var cleaned := SanitizeIdentifier(L, value.value);
        if cleaned.None? {
          assert !FieldAccepted(L, record[at], 5);
          return None;
        }
        out := Put(out, field, Str(cleaned.value));
      }
      NextField(n);
    }
    assert out == RecordCleaned(L, record).value;
    return Some(out);
  }

  lemma FieldsDistinct(n: nat)
    requires n < 5
    ensures !IsIdentifier(Name(IdentifierField(n)), n) && IsIdentifier(Name(IdentifierField(n)), 5)
  {
  }

  lemma NextField(n: nat)
    ensures forall k: Key :: IsIdentifier(k, n + 1) <==> IsIdentifier(k, n) || k == Name(IdentifierField(n))
  {
  }

  // ---------------------------------------------------------------- transactions

  function TransactionCleaned(L: Limits, t: Json): Option<Json> {
    if !t.Obj? then None
    else
      var r := RecordCleaned(L, t.entries);
      if r.None? then None else Some(Obj(r.value))
  }

  function TransactionsCleaned(L: Limits, v: Json): Option<Json> {
    if v.Null? then Some(v)
    else if !v.Arr? || !v.isList || |v.items| > L.maxTransactions then None
    else if forall i | 0 <= i < |v.items| :: TransactionCleaned(L, v.items[i]).Some? then
      Some(Arr(true, seq(|v.items|, i requires 0 <= i < |v.items| => TransactionCleaned(L, v.items[i]).value)))
    else None
  }

  /** The dictionaries of a list are dictionaries: no key twice. */
  ghost predicate Records(v: Json) {
    v.Arr? ==> forall i | 0 <= i < |v.items| && v.items[i].Obj? :: DistinctKeys(v.items[i].entries)
  }

  method SanitizeTransactionList(L: Limits, v: Json) returns (r: Option<Json>)
    requires Records(v) && v.Arr? && v.isList && |v.items| <= L.maxTransactions
    ensures r == TransactionsCleaned(L, v)
  {
    var transactions := v.items;
    for i := 0 to |transactions|
      invariant |transactions| == |v.items|
      invariant forall j | i <= j < |transactions| :: transactions[j] == v.items[j]
      invariant forall j | 0 <= j < i :: TransactionCleaned(L, v.items[j]) == Some(transactions[j])
    {
      if !transactions[i].Obj? {
        assert TransactionCleaned(L, v.items[i]).None?;
        return None;
      }
      var record := SanitizeIdentifiers(L, transactions[i].entries);
      if record.None? {
        assert TransactionCleaned(L, v.items[i]).None?;
        return None;
      }
      transactions := transactions[i := Obj(record.value)];
    }
    assert transactions == TransactionsCleaned(L, v).value.items;
    return Some(Arr(true, transactions));
  }

  method SanitizeTransactions(L: Limits, block: seq<Entry>) returns (r: Option<seq<Entry>>)
    requires DistinctKeys(block)
    requires Lookup(block, "transactions").Some? ==> Records(Lookup(block, "transactions").value)
    ensures r == BlockWithTransactions(L, block)
  {
    var v := Lookup(block, "transactions");
    if v.None? || v.value.Null? {
      if v.Some? {
        PutSame(block, "transactions");
      }
      return Some(block);
    }
    if !v.value.Arr? || !v.value.isList || |v.value.items| > L.maxTransactions {
      return None;
    }
    var transactions := SanitizeTransactionList(L, v.value);
    return if transactions.None? then None else Some(Put(block, "transactions", transactions.value));
  }

  function BlockWithTransactions(L: Limits, block: seq<Entry>): Option<seq<Entry>> {
    var v := Lookup(block, "transactions");
    if v.None? then Some(block)
    else
      var t := TransactionsCleaned(L, v.value);
      if t.None? then None else Some(Put(block, "transactions", t.value))
  }

  // ---------------------------------------------------------------- the sequence number

  const MAX_SEQUENCE := 0x7fff_ffff_ffff_ffff

  predicate AllDigits(s: string) {
    forall i | 0 <= i < |s| :: '0' <= s[i] <= '9'
  }

  function Decimal(s: string): nat
    requires AllDigits(s)
  {
    if s == [] then 0 else 10 * Decimal(s[..|s| - 1]) + (s[|s| - 1] - '0') as nat
  }

  /** The first of the three fields that is there. */
  function RawSequence(block: seq<Entry>): Option<Json> {
    if Lookup(block, "sequence").Some? then Lookup(block, "sequence")
    else if Lookup(block, "ledger").Some? then Lookup(block, "ledger")
    else Lookup(block, "ledger_sequence")
  }

  function ExtractSequence(block: seq<Entry>): Option<nat> {
    match RawSequence(block)
    case Some(Str(s)) =>
      var candidate := Strip(s);
      if candidate == [] || !AllDigits(candidate) || Decimal(candidate) > MAX_SEQUENCE then None
      else Some(Decimal(candidate))
    case Some(Int(n)) => if 0 <= n <= MAX_SEQUENCE then Some(n) else None
    case _ => None
  }

  // ---------------------------------------------------------------- the block

  /** The payload can be written as JSON, and the text is not too long. */
  predicate PayloadFits(L: Limits, payload: Json) {
    Encodable(payload) && Size(payload) <= L.maxPayload
  }

  /** The whole cleaning. */
  function BlockSanitized(L: Limits, payload: Json): Option<seq<Entry>> {
    if !payload.Obj? || !PayloadFits(L, payload) || Sanitized(L, payload, 0).None? then None
    else BlockCompleted(L, Stripped(payload).entries)
  }

  function BlockCompleted(L: Limits, block: seq<Entry>): Option<seq<Entry>> {
    var n := ExtractSequence(block);
    if n.None? then None
    else
      var record := RecordCleaned(L, Put(block, "sequence", Int(n.value)));
      if record.None? then None else BlockWithTransactions(L, record.value)
  }

  method SanitizeBlockPayload(L: Limits, payload: Json) returns (r: Option<seq<Entry>>)
    ensures r == BlockSanitized(L, payload)
  {
    if !payload.Obj? {
      return None;
    }
    if !Encodable(payload) || Size(payload) > L.maxPayload {
      return None;
    }
    var clean := SanitizeValue(L, payload, 0);
    if clean.None? {
      return None;
    }
    var block := clean.value.entries;
    var n := ExtractSequence(block);
    if n.None? {
      return None;
    }
    StrippedIsTidy(L, payload);
    WithSequence(L, block, n.value);
    block := Put(block, "sequence", Int(n.value));
    var record := SanitizeIdentifiers(L, block);
    if record.None? {
      return None;
    }
    RecordStaysTidy(L, block, record.value);
    TransactionsAreRecords(L, record.value);
    r := SanitizeTransactions(L, record.value);
  }

  // ---------------------------------------------------------------- what an accepted block is

  ghost predicate TidyEntry(L: Limits, e: Entry) {
    Clean(L, e.value, 1) && (ValidKey(L, e.key) || e.key == Name("sequence"))
  }

  /** The entries of a clean block, but for the number of keys and the length of the key
      `sequence`. */
  ghost predicate Tidy(L: Limits, block: seq<Entry>) {
    DistinctKeys(block) && forall i | 0 <= i < |block| :: TidyEntry(L, block[i])
  }

  ghost predicate GoodField(L: Limits, e: Entry) {
    IsIdentifier(e.key, 5) ==> e.value.Str? && ValidIdentifier(e.value.text) && |e.value.text| <= L.maxIdentifier
  }

  ghost predicate GoodRecord(L: Limits, record: seq<Entry>) {
    forall i | 0 <= i < |record| :: GoodField(L, record[i])
  }

  ghost predicate GoodTransaction(L: Limits, t: Json) {
    t.Obj? && GoodRecord(L, t.entries)
  }

  ghost predicate GoodTransactions(L: Limits, v: Json) {
    v.Null? ||
    (v.Arr? && v.isList && |v.items| <= L.maxTransactions &&
     forall i | 0 <= i < |v.items| :: GoodTransaction(L, v.items[i]))
  }

  ghost predicate GoodSequence(block: seq<Entry>) {
    match Lookup(block, "sequence")
    case Some(Int(n)) => 0 <= n <= MAX_SEQUENCE
    case _ => false
  }

  ghost predicate GoodBlock(L: Limits, block: seq<Entry>) {
    && Tidy(L, block) && GoodRecord(L, block) && GoodSequence(block)
    && (Lookup(block, "transactions").Some? ==> GoodTransactions(L, Lookup(block, "transactions").value))
  }

  lemma StrippedIsTidy(L: Limits, payload: Json)
    requires payload.Obj? && Sanitized(L, payload, 0).Some?
    ensures Tidy(L, Stripped(payload).entries)
  {
    var block := Stripped(payload).entries;
    assert CleanEntries(L, block, 0);
    forall i | 0 <= i < |block| ensures TidyEntry(L, block[i]) {
      assert CleanEntry(L, block[i], 0);
    }
  }

  lemma PutStaysTidy(L: Limits, block: seq<Entry>, name: string, v: Json)
    requires Tidy(L, block) && TidyEntry(L, Entry(Name(name), v))
    ensures Tidy(L, Put(block, name, v))
  {
    var r := Put(block, name, v);
    forall i | 0 <= i < |r| ensures TidyEntry(L, r[i]) {
      assert r[i] == Entry(Name(name), v) || (i < |block| && r[i] == block[i]);
    }
  }

  lemma WithSequence(L: Limits, block: seq<Entry>, n: nat)
    requires Tidy(L, block) && ExtractSequence(block) == Some(n)
    ensures Tidy(L, Put(block, "sequence", Int(n)))
  {
    assert block != [];
    assert TidyEntry(L, block[0]);
    PutStaysTidy(L, block, "sequence", Int(n));
  }

  lemma IdentifierIsText(s: string)
    requires ValidIdentifier(s)
    ensures NoControl(s) && NoNul(s) && Strip(s) == s
  {
    assert IdentifierChar(s[0]) && IdentifierChar(s[|s| - 1]);
  }

  /** A cleaned identifier field is good and as clean as the value it came from. */
  lemma FieldBecomesGood(L: Limits, e: Entry, depth: nat)
    requires FieldAccepted(L, e, 5) && Clean(L, e.value, depth)
    ensures GoodField(L, FieldCleaned(L, e, 5)) && Clean(L, FieldCleaned(L, e, 5).value, depth)
  {
    if IsIdentifier(e.key, 5) {
      IdentifierIsText(SanitizeIdentifier(L, e.value).value);
    }
  }

  lemma RecordStaysTidy(L: Limits, block: seq<Entry>, r: seq<Entry>)
    requires Tidy(L, block) && RecordCleaned(L, block) == Some(r)
    ensures |r| == |block|
    ensures forall i | 0 <= i < |r| ::
      r[i] == FieldCleaned(L, block[i], 5) && r[i].key == block[i].key
    ensures Tidy(L, r) && GoodRecord(L, r)
  {
    forall i | 0 <= i < |r| ensures TidyEntry(L, r[i]) && GoodField(L, r[i]) {
      assert TidyEntry(L, block[i]);
      FieldBecomesGood(L, block[i], 1);
    }
  }

  lemma CleanListOfRecords(L: Limits, v: Json)
    requires Clean(L, v, 1)
    ensures Records(v)
  {
    if v.Arr? {
      forall i | 0 <= i < |v.items| && v.items[i].Obj? ensures DistinctKeys(v.items[i].entries) {
        assert Clean(L, v.items[i], 2);
      }
    }
  }

  lemma TransactionsAreRecords(L: Limits, block: seq<Entry>)
    requires Tidy(L, block)
    ensures Lookup(block, "transactions").Some? ==> Records(Lookup(block, "transactions").value)
  {
    if Lookup(block, "transactions").Some? {
      var i := LookupFinds(block, "transactions");
      assert TidyEntry(L, block[i]);
      CleanListOfRecords(L, block[i].value);
    }
  }

  lemma TransactionsBecomeGood(L: Limits, v: Json, t: Json)
    requires Clean(L, v, 1) && TransactionsCleaned(L, v) == Some(t)
    ensures Clean(L, t, 1) && GoodTransactions(L, t)
  {
    if v.Arr? {
      forall i | 0 <= i < |t.items| ensures Clean(L, t.items[i], 2) && GoodTransaction(L, t.items[i]) {
        assert Clean(L, v.items[i], 2);
        assert TransactionCleaned(L, v.items[i]) == Some(t.items[i]);
        TransactionBecomesGood(L, v.items[i], t.items[i]);
      }
    }
  }

  lemma TransactionBecomesGood(L: Limits, v: Json, t: Json)
    requires Clean(L, v, 2) && TransactionCleaned(L, v) == Some(t)
    ensures Clean(L, t, 2) && GoodTransaction(L, t)
  {
    assert CleanEntries(L, v.entries, 2);
    forall i | 0 <= i < |t.entries| ensures CleanEntry(L, t.entries[i], 2) && GoodField(L, t.entries[i]) {
      assert CleanEntry(L, v.entries[i], 2);
      FieldBecomesGood(L, v.entries[i], 3);
    }
    assert CleanEntries(L, t.entries, 2);
  }

  /** Two dictionaries that agree at a key, place by place, look up the same there. */
  lemma {:induction false} SameLookup(a: seq<Entry>, b: seq<Entry>, name: string)
    requires |a| <= |b|
    requires forall i | 0 <= i < |a| :: (a[i].key == Name(name) || b[i].key == Name(name)) ==> a[i] == b[i]
    requires forall i | |a| <= i < |b| :: b[i].key != Name(name)
    ensures Lookup(a, name) == Lookup(b, name)
    decreases |b|
  {
    if a != [] {
      SameLookup(a[1..], b[1..], name);
    } else if b != [] {
      SameLookup(a, b[1..], name);
    }
  }

  /** The stages of an accepted block. */
  ghost predicate Stages(L: Limits, block: seq<Entry>, n: nat, record: seq<Entry>, r: seq<Entry>) {
    && Tidy(L, block) && ExtractSequence(block) == Some(n)
    && RecordCleaned(L, Put(block, "sequence", Int(n))) == Some(record)
    && BlockWithTransactions(L, record) == Some(r)
  }

  lemma StagesKeepLookups(L: Limits, block: seq<Entry>, n: nat, record: seq<Entry>, r: seq<Entry>, name: string)
    requires Stages(L, block, n, record, r)
    requires !IsIdentifier(Name(name), 5) && name != "transactions"
    ensures Lookup(r, name) == if name == "sequence" then Some(Int(n)) else Lookup(block, name)
  {
    var put := Put(block, "sequence", Int(n));
    WithSequence(L, block, n);
    RecordStaysTidy(L, put, record);
    SameLookup(put, record, name);
    SameLookup(record, r, name);
    if name == "sequence" {
      PutLookup(block, name, Int(n));
    } else {
      SameLookup(block, put, name);
    }
  }

  lemma StagesEndGood(L: Limits, block: seq<Entry>, n: nat, record: seq<Entry>, r: seq<Entry>)
    requires Stages(L, block, n, record, r)
    ensures GoodBlock(L, r) && |r| == |Put(block, "sequence", Int(n))|
  {
    StagesKeepLookups(L, block, n, record, r, "sequence");
    WithSequence(L, block, n);
    RecordStaysTidy(L, Put(block, "sequence", Int(n)), record);
    var v := Lookup(record, "transactions");
    if v.Some? {
      var t := TransactionsCleaned(L, v.value).value;
      var i := LookupFinds(record, "transactions");
      assert TidyEntry(L, record[i]);
      TransactionsBecomeGood(L, v.value, t);
      PutStaysTidy(L, record, "transactions", t);
      PutLookup(record, "transactions", t);
      forall j | 0 <= j < |r| ensures GoodField(L, r[j]) {
        assert r[j] == record[j] || r[j].key == Name("transactions");
      }
    }
  }

  /** What an accepted block is. Every value respects the depth, length and collection limits
      and holds no control character; the identifiers of the block and of each transaction
      match the grammar; the sequence number is in range, and is the one the payload gave; and
      every other field is the payload's own, stripped. */
  lemma AcceptedBlockIsGood(L: Limits, payload: Json, name: string)
    requires BlockSanitized(L, payload).Some?
    ensures var r, sent := BlockSanitized(L, payload).value, Stripped(payload).entries;
      && GoodBlock(L, r)
      && ExtractSequence(sent).Some? && Lookup(r, "sequence") == Some(Int(ExtractSequence(sent).value))
      && (!IsIdentifier(Name(name), 5) && name != "transactions" && name != "sequence" ==>
        Lookup(r, name) == Lookup(sent, name))
      && |r| == if HasKey(sent, Name("sequence")) then |payload.entries| else |payload.entries| + 1
  {
    var block := Stripped(payload).entries;
    var n := ExtractSequence(block).value;
    var record := RecordCleaned(L, Put(block, "sequence", Int(n))).value;
    var r := BlockSanitized(L, payload).value;
    StrippedIsTidy(L, payload);
    StagesEndGood(L, block, n, record, r);
    StagesKeepLookups(L, block, n, record, r, "sequence");
    if !IsIdentifier(Name(name), 5) && name != "transactions" {
      StagesKeepLookups(L, block, n, record, r, name);
    }
  }

  // ---------------------------------------------------------------- sanitising a block again

  lemma GoodFieldStays(L: Limits, e: Entry)
    requires GoodField(L, e)
    ensures FieldAccepted(L, e, 5) && FieldCleaned(L, e, 5) == e
  {
    if IsIdentifier(e.key, 5) {
      IdentifierIsText(e.value.text);
    }
  }

  lemma GoodRecordStays(L: Limits, record: seq<Entry>)
    requires GoodRecord(L, record)
    ensures RecordCleaned(L, record) == Some(record)
  {
    forall i | 0 <= i < |record| ensures FieldAccepted(L, record[i], 5) && FieldCleaned(L, record[i], 5) == record[i] {
      GoodFieldStays(L, record[i]);
    }
    assert RecordCleaned(L, record).value == record;
  }

  lemma GoodTransactionsStay(L: Limits, v: Json)
    requires GoodTransactions(L, v)
    ensures TransactionsCleaned(L, v) == Some(v)
  {
    if v.Arr? {
      forall i | 0 <= i < |v.items| ensures TransactionCleaned(L, v.items[i]) == Some(v.items[i]) {
        assert GoodTransaction(L, v.items[i]);
        GoodRecordStays(L, v.items[i].entries);
      }
      assert TransactionsCleaned(L, v).value.items == v.items;
    }
  }

  /** A good block whose keys are within the limits is left as it is. */
  lemma GoodBlockStays(L: Limits, block: seq<Entry>)
    requires GoodBlock(L, block) && Clean(L, Obj(block), 0) && PayloadFits(L, Obj(block))
    ensures BlockSanitized(L, Obj(block)) == Some(block)
  {
    CleanIsStripped(L, Obj(block), 0);
    GoodBlockIsComplete(L, block);
  }

  lemma GoodBlockIsComplete(L: Limits, block: seq<Entry>)
    requires GoodBlock(L, block)
    ensures BlockCompleted(L, block) == Some(block)
  {
    PutSame(block, "sequence");
    GoodRecordStays(L, block);
    if Lookup(block, "transactions").Some? {
      GoodTransactionsStay(L, Lookup(block, "transactions").value);
      PutSame(block, "transactions");
    }
  }

  // The lengths of the JSON texts: stripping never makes one longer.

  lemma {:induction false} RemoveControlNoLonger(s: string)
    ensures CharsSize(RemoveControl(s)) <= CharsSize(s)
  {
    if s != [] {
      RemoveControlNoLonger(s[1..]);
      if !Control(s[0]) {
        assert ([s[0]] + RemoveControl(s[1..]))[1..] == RemoveControl(s[1..]);
      }
    }
  }

  lemma {:induction false} CharsSizePrefix(s: string, n: nat)
    requires n <= |s|
    ensures CharsSize(s[..n]) <= CharsSize(s)
  {
    if n > 0 {
      CharsSizePrefix(s[1..], n - 1);
      assert s[..n][1..] == s[1..][..n - 1];
    }
  }

  lemma {:induction false} StripLeftNoLonger(s: string)
    ensures CharsSize(StripLeft(s)) <= CharsSize(s)
  {
    if s != [] && IsSpace(s[0]) {
      StripLeftNoLonger(s[1..]);
    }
  }

  lemma {:induction false} StripRightNoLonger(s: string)
    ensures CharsSize(StripRight(s)) <= CharsSize(s)
  {
    if s != [] && IsSpace(s[|s| - 1]) {
      StripRightNoLonger(s[..|s| - 1]);
      CharsSizePrefix(s, |s| - 1);
    }
  }

  lemma {:induction false} StrippedNoLonger(v: Json)
    ensures Size(Stripped(v)) <= Size(v)
    decreases v
  {
    match v
    case Str(s) => RemoveControlNoLonger(s);
    case Arr(_, items) =>
      forall i | 0 <= i < |items| ensures Size(Stripped(items[i])) <= Size(items[i]) {
        StrippedNoLonger(items[i]);
      }
      ItemsNoLonger(Stripped(v).items, items);
    case Obj(entries) =>
      forall i | 0 <= i < |entries| ensures EntrySize(StrippedEntry(entries[i])) <= EntrySize(entries[i]) {
        if entries[i].key.Name? {
          RemoveControlNoLonger(entries[i].key.text);
        }
        StrippedNoLonger(entries[i].value);
      }
      EntriesNoLonger(Stripped(v).entries, entries);
    case _ =>
  }

  lemma {:induction false} FieldNoLonger(L: Limits, e: Entry)
    requires FieldAccepted(L, e, 5)
    ensures EntrySize(FieldCleaned(L, e, 5)) <= EntrySize(e)
  {
    if IsIdentifier(e.key, 5) {
      var cleaned := RemoveControl(e.value.text);
      RemoveControlNoLonger(e.value.text);
      StripLeftNoLonger(cleaned);
      StripRightNoLonger(StripLeft(cleaned));
    }
  }

  lemma {:induction false} RecordNoLonger(L: Limits, record: seq<Entry>, r: seq<Entry>)
    requires RecordCleaned(L, record) == Some(r)
    ensures |r| == |record| && EntriesSize(r) <= EntriesSize(record)
  {
    forall i | 0 <= i < |record| ensures EntrySize(r[i]) <= EntrySize(record[i]) {
      FieldNoLonger(L, record[i]);
    }
    EntriesNoLonger(r, record);
  }

  lemma {:induction false} TransactionsNoLonger(L: Limits, v: Json, t: Json)
    requires TransactionsCleaned(L, v) == Some(t)
    ensures Size(t) <= Size(v)
  {
    if v.Arr? {
      forall i | 0 <= i < |v.items| ensures Size(t.items[i]) <= Size(v.items[i]) {
        assert TransactionCleaned(L, v.items[i]) == Some(t.items[i]);
        RecordNoLonger(L, v.items[i].entries, t.items[i].entries);
      }
      ItemsNoLonger(t.items, v.items);
    }
  }

  /** Assigning to a key that is there a value no longer than the old one. */
  lemma {:induction false} PutNoLonger(entries: seq<Entry>, name: string, v: Json)
    requires DistinctKeys(entries) && Lookup(entries, name).Some? && Size(v) <= Size(Lookup(entries, name).value)
    ensures EntriesSize(Put(entries, name, v)) <= EntriesSize(entries)
  {
    LookupAt(entries, name);
    var at := LookupFinds(entries, name);
    assert HasKey(entries, Name(name));
    EntriesNoLonger(Put(entries, name, v), entries);
  }

  lemma {:induction false} DecimalDigits(s: string)
    requires s != [] && AllDigits(s)
    ensures Digits(Decimal(s)) <= |s|
  {
    var n := |s| - 1;
    if n > 0 {
      DecimalDigits(s[..n]);
    }
  }

  /** The canonical number takes no more room than the field it was read from. */
  lemma {:induction false} NumberNoLonger(block: seq<Entry>, n: nat)
    requires ExtractSequence(block) == Some(n)
    ensures Size(Int(n)) <= Size(RawSequence(block).value)
  {
    match RawSequence(block).value
    case Str(s) =>
      DecimalDigits(Strip(s));
    case _ =>
  }

  lemma {:induction false} SequenceEntrySize(n: nat)
    ensures EntrySize(Entry(Name("sequence"), Int(n))) == 11 + Digits(n)
  {
    assert CharsSize("sequence") == 8;
  }

  /** The block that comes back is no longer than the stripped one, but for the field `sequence`
      where it had to be added. */
  lemma {:induction false} StagesNoLonger(L: Limits, block: seq<Entry>, n: nat, record: seq<Entry>, r: seq<Entry>)
    requires Stages(L, block, n, record, r)
    ensures EntriesSize(r) <= EntriesSize(block) + if HasKey(block, Name("sequence")) then 0 else 12 + Digits(n)
  {
    var put := Put(block, "sequence", Int(n));
    WithSequence(L, block, n);
    RecordStaysTidy(L, put, record);
    RecordNoLonger(L, put, record);
    LookupAt(block, "sequence");
    if HasKey(block, Name("sequence")) {
      NumberNoLonger(block, n);
      PutNoLonger(block, "sequence", Int(n));
    } else {
      EntriesAppend(block, Entry(Name("sequence"), Int(n)));
      SequenceEntrySize(n);
    }
    var v := Lookup(record, "transactions");
    if v.Some? {
      TransactionsNoLonger(L, v.value, TransactionsCleaned(L, v.value).value);
      PutNoLonger(record, "transactions", TransactionsCleaned(L, v.value).value);
    }
  }

  lemma {:induction false} CleanIsEncodable(L: Limits, v: Json, depth: nat)
    requires Clean(L, v, depth)
    ensures Encodable(v)
    decreases v
  {
    match v
    case Arr(_, items) =>
      forall i | 0 <= i < |items| ensures Encodable(items[i]) {
        CleanIsEncodable(L, items[i], depth + 1);
      }
    case Obj(entries) =>
      assert CleanEntries(L, entries, depth);
      forall i | 0 <= i < |entries| ensures EncodableEntry(entries[i]) {
        assert CleanEntry(L, entries[i], depth);
        CleanIsEncodable(L, entries[i].value, depth + 1);
      }
    case _ =>
  }

  /** The length of an accepted block: no more than the payload's, unless `sequence` was added. */
  lemma {:induction false} AcceptedBlockSize(L: Limits, payload: Json)
    requires BlockSanitized(L, payload).Some?
    ensures var r, sent := BlockSanitized(L, payload).value, Stripped(payload).entries;
      Size(Obj(r)) <= Size(payload) + if HasKey(sent, Name("sequence")) then 0
        else 12 + Digits(ExtractSequence(sent).value)
  {
    var block := Stripped(payload).entries;
    var n := ExtractSequence(block).value;
    var record := RecordCleaned(L, Put(block, "sequence", Int(n))).value;
    StrippedIsTidy(L, payload);
    StrippedNoLonger(payload);
    StagesNoLonger(L, block, n, record, BlockSanitized(L, payload).value);
    assert EntriesSize(block) > 0;
  }

  /** Adding the field `sequence` can take an accepted block past a limit its payload was held
      to: the number of keys, the length of a key or the length of the text. Exactly then the
      block would itself be rejected; every other accepted block is accepted again as it is, and
      a block whose payload had the key always is. */
  lemma {:induction false} AcceptedBlockAgainIff(L: Limits, payload: Json)
    requires BlockSanitized(L, payload).Some?
    ensures var r, had := BlockSanitized(L, payload).value, HasKey(Stripped(payload).entries, Name("sequence"));
      && (Clean(L, Obj(r), 0) <==> had || (|payload.entries| < L.maxItems && 8 <= L.maxIdentifier))
      && BlockSanitized(L, Obj(r)) ==
           if had || (|payload.entries| < L.maxItems && 8 <= L.maxIdentifier && Size(Obj(r)) <= L.maxPayload)
           then Some(r) else None
  {
    var r := BlockSanitized(L, payload).value;
    AcceptedBlockIsGood(L, payload, "sequence");
    KeysWithinLimits(L, payload, r);
    AcceptedBlockSize(L, payload);
    if !Clean(L, Obj(r), 0) {
      NotCleanNotAccepted(L, r);
    } else if Size(Obj(r)) <= L.maxPayload {
      CleanIsEncodable(L, Obj(r), 0);
      GoodBlockStays(L, r);
    }
  }

  /** Nothing of the payload needs cleaning. */
  ghost predicate AlreadyGood(L: Limits, payload: Json) {
    && payload.Obj? && Clean(L, payload, 0) && GoodRecord(L, payload.entries)
    && var t := Lookup(payload.entries, "transactions"); t.Some? ==> GoodTransactions(L, t.value)
  }

  /** The block of such a payload without `sequence` is the payload with the field added. */
  lemma {:induction false} SequenceIsAdded(L: Limits, entries: seq<Entry>, n: nat)
    requires AlreadyGood(L, Obj(entries)) && !HasKey(entries, Name("sequence")) && ExtractSequence(entries) == Some(n)
    ensures BlockCompleted(L, entries) == Some(entries + [Entry(Name("sequence"), Int(n))])
  {
    var e := Entry(Name("sequence"), Int(n));
    var put := entries + [e];
    assert Put(entries, "sequence", Int(n)) == put && DistinctKeys(put) by {
      assert CleanEntries(L, entries, 0);
    }
    forall i | 0 <= i < |put| ensures GoodField(L, put[i]) {
      NotAnIdentifier(e);
    }
    GoodRecordStays(L, put);
    assert "sequence" != "transactions" by {
      assert |"sequence"| != |"transactions"|;
    }
    SameLookup(entries, put, "transactions");
    if Lookup(put, "transactions").Some? {
      GoodTransactionsStay(L, Lookup(put, "transactions").value);
      PutSame(put, "transactions");
    }
  }

  lemma {:induction false} NotAnIdentifier(e: Entry)
    requires e.key == Name("sequence")
    ensures !IsIdentifier(e.key, 5)
  {
    assert |"sequence"| == 8;
    assert "sequence"[0] == 's';
  }

  /** What a caller can see of such a payload beforehand: its block is accepted again if and only
      if there is room for the key and the text has room for the field, which takes twelve
      characters and the digits of the number. */
  lemma {:induction false} CleanPayloadAgainIff(L: Limits, payload: Json)
    requires BlockSanitized(L, payload).Some? && AlreadyGood(L, payload)
    requires !HasKey(payload.entries, Name("sequence"))
    ensures var r, n := BlockSanitized(L, payload).value, ExtractSequence(payload.entries);
      && n.Some? && Size(Obj(r)) == Size(payload) + 12 + Digits(n.value)
      && (BlockSanitized(L, Obj(r)) == Some(r) <==>
            |payload.entries| < L.maxItems && 8 <= L.maxIdentifier &&
              Size(payload) + 12 + Digits(n.value) <= L.maxPayload)
  {
    CleanIsStripped(L, payload, 0);
    SequenceIsAdded(L, payload.entries, ExtractSequence(payload.entries).value);
    SequenceAddsSize(payload.entries, ExtractSequence(payload.entries).value);
    AcceptedBlockAgainIff(L, payload);
  }

  lemma {:induction false} SequenceAddsSize(entries: seq<Entry>, n: nat)
    requires entries != []
    ensures Size(Obj(entries + [Entry(Name("sequence"), Int(n))])) == Size(Obj(entries)) + 12 + Digits(n)
  {
    EntriesAppend(entries, Entry(Name("sequence"), Int(n)));
    SequenceEntrySize(n);
  }

  lemma KeysWithinLimits(L: Limits, payload: Json, r: seq<Entry>)
    requires payload.Obj? && Sanitized(L, payload, 0).Some? && GoodBlock(L, r)
    requires |r| == if HasKey(Stripped(payload).entries, Name("sequence")) then |payload.entries|
      else |payload.entries| + 1
    ensures Clean(L, Obj(r), 0) <==>
      HasKey(Stripped(payload).entries, Name("sequence")) || (|payload.entries| < L.maxItems && 8 <= L.maxIdentifier)
  {
    var block := Stripped(payload).entries;
    assert CleanEntries(L, block, 0);
    if HasKey(block, Name("sequence")) {
      var i :| 0 <= i < |block| && block[i].key == Name("sequence");
      assert CleanEntry(L, block[i], 0);
    }
    var at := LookupFinds(r, "sequence");
    assert TidyEntry(L, r[at]);
    assert Strip("sequence") != [];
    forall i | 0 <= i < |r|
      ensures CleanEntry(L, r[i], 0) <==> (r[i].key == Name("sequence") ==> 8 <= L.maxIdentifier)
    {
      assert TidyEntry(L, r[i]);
    }
    assert CleanEntries(L, r, 0) <==> 8 <= L.maxIdentifier;
  }

  lemma NotCleanNotAccepted(L: Limits, r: seq<Entry>)
    requires GoodBlock(L, r) && !Clean(L, Obj(r), 0)
    ensures Sanitized(L, Obj(r), 0) == None
  {
    var s := Stripped(Obj(r)).entries;
    forall i | 0 <= i < |r| ensures s[i] == r[i] {
      assert TidyEntry(L, r[i]);
      CleanIsStripped(L, r[i].value, 1);
      assert NoControl("sequence");
      assert s[i] == StrippedEntry(r[i]);
    }
    assert s == r;
  }

  /** A payload of as many keys as are allowed, none of them `sequence`: the block that comes
      back has one key more than is allowed. */
  lemma OneKeyTooMany()
    ensures var L := Limits(4096, 256, 1, 8, 1000, 5242880);
      var payload := Obj([Entry(Name("ledger"), Int(7))]);
      var block := [Entry(Name("ledger"), Int(7)), Entry(Name("sequence"), Int(7))];
      && BlockSanitized(L, payload) == Some(block)
      && |payload.entries| == L.maxItems && |block| > L.maxItems && !Clean(L, Obj(block), 0)
  {
    var L := Limits(4096, 256, 1, 8, 1000, 5242880);
    LedgerIsClean(L);
    LedgerSizes();
    LedgerCompleted(L);
  }

  /** A payload whose text is as long as is allowed: the block that comes back is longer. */
  lemma TextTooLong()
    ensures var L := Limits(4096, 256, 10000, 8, 1000, 12);
      var payload := Obj([Entry(Name("ledger"), Int(7))]);
      var block := [Entry(Name("ledger"), Int(7)), Entry(Name("sequence"), Int(7))];
      BlockSanitized(L, payload) == Some(block) && Size(payload) == 12 && Size(Obj(block)) == 25
  {
    var L := Limits(4096, 256, 10000, 8, 1000, 12);
    LedgerIsClean(L);
    LedgerSizes();
    LedgerCompleted(L);
    CleanFits(L, Obj([Entry(Name("ledger"), Int(7))]));
  }

  lemma {:induction false} CleanFits(L: Limits, payload: Json)
    requires payload.Obj? && Encodable(payload) && Size(payload) <= L.maxPayload
    requires Sanitized(L, payload, 0) == Some(payload)
    ensures BlockSanitized(L, payload) == BlockCompleted(L, payload.entries)
  {
  }

  lemma {:induction false} LedgerEntrySize()
    ensures EntrySize(Entry(Name("ledger"), Int(7))) == 10
  {
    assert CharsSize("ledger") == 6;
  }

  lemma {:induction false} LedgerSizes()
    ensures var e, f := Entry(Name("ledger"), Int(7)), Entry(Name("sequence"), Int(7));
      Encodable(Obj([e])) && Size(Obj([e])) == 12 && Size(Obj([e, f])) == 25
  {
    var e, f := Entry(Name("ledger"), Int(7)), Entry(Name("sequence"), Int(7));
    LedgerEntrySize();
    EntriesAppend([], e);
    EntriesAppend([e], f);
    SequenceEntrySize(7);
    assert [] + [e] == [e] && [e] + [f] == [e, f];
    assert EncodableEntry(e);
  }

  lemma LedgerIsClean(L: Limits)
    requires L.maxIdentifier >= 6 && L.maxDepth >= 1 && L.maxItems >= 1
    ensures Sanitized(L, Obj([Entry(Name("ledger"), Int(7))]), 0) == Some(Obj([Entry(Name("ledger"), Int(7))]))
  {
    var e := Entry(Name("ledger"), Int(7));
    assert NoControl("ledger") && Strip("ledger") != [];
    assert Clean(L, Int(7), 1) && CleanEntry(L, e, 0);
    assert CleanEntries(L, [e], 0);
    SanitizeIsIdempotent(L, Obj([e]), 0);
  }

  lemma LedgerCompleted(L: Limits)
    ensures BlockCompleted(L, [Entry(Name("ledger"), Int(7))]) ==
      Some([Entry(Name("ledger"), Int(7)), Entry(Name("sequence"), Int(7))])
  {
    var e, f := Entry(Name("ledger"), Int(7)), Entry(Name("sequence"), Int(7));
    assert "ledger" != "sequence" && "ledger" != "transactions" && "sequence" != "transactions" by {
      assert |"ledger"| != |"sequence"|;
    }
    assert Lookup([e], "sequence") == None;
    assert Lookup([e], "ledger") == Some(Int(7));
    assert Put([e], "sequence", Int(7)) == [e, f];
    assert GoodField(L, e) && GoodField(L, f);
    GoodRecordStays(L, [e, f]);
    assert [e, f][1..] == [f];
    assert Lookup([f], "transactions") == None;
    assert Lookup([e, f], "transactions") == None;
  }
}
