/**
 What the sanitizer's checks and changes come to, node by node of the tree and field by field of
 the block.
 */
module SanitizerMeaning {
  import opened Common
  import opened Text
  import opened JsonTree
  import opened Sanitizer
  import JsonText

  // ---------------------------------------------------------------- texts

  /** The control characters that go: those below the space but for tab, line feed and carriage
      return, and DEL. */
  lemma {:induction false} ControlsAre(c: char)
    ensures Control(c) <==> (c < ' ' && c != '\t' && c != '\n' && c != '\r') || c as int == 127
  {
  }

  /** Removing them removes each where it stands and keeps the others in order. */
  lemma {:induction false} RemoveControlIs(a: string, b: string, c: char)
    ensures RemoveControl([]) == [] && RemoveControl([c]) == if Control(c) then [] else [c]
    ensures RemoveControl(a + b) == RemoveControl(a) + RemoveControl(b)
  {
    assert [c][1..] == [];
    if a == [] {
      assert a + b == b;
    } else {
      assert (a + b)[1..] == a[1..] + b;
      RemoveControlIs(a[1..], b, c);
    }
  }

  // ---------------------------------------------------------------- the nodes of a tree

  /** The value at the end of a path of member numbers. */
  function Node(v: Json, path: seq<nat>): Option<Json>
    decreases |path|
  {
    if path == [] then Some(v)
    else match v
      case Arr(_, items) => if path[0] < |items| then Node(items[path[0]], path[1..]) else None
      case Obj(entries) => if path[0] < |entries| then Node(entries[path[0]].value, path[1..]) else None
      case _ => None
  }

  predicate CleanText(s: string, max: nat) {
    |s| <= max && forall i | 0 <= i < |s| ::
      (s[i] >= ' ' || s[i] == '\t' || s[i] == '\n' || s[i] == '\r') && s[i] as int != 127
  }

  /** What is asked of a value by itself. */
  predicate NodeOk(L: Limits, w: Json) {
    match w
    case Float(finite, _) => finite
    case Str(s) => CleanText(s, L.maxString)
    case Arr(isList, items) => isList && |items| <= L.maxItems
    case Obj(entries) =>
      && |entries| <= L.maxItems
      && (forall i | 0 <= i < |entries| :: KeyOk(L, entries[i].key))
      && (forall i, j | 0 <= i < j < |entries| :: entries[i].key != entries[j].key)
    case Unsupported => false
    case _ => true
  }

  predicate KeyOk(L: Limits, k: Key) {
    k.Name? && CleanText(k.text, L.maxIdentifier) && Strip(k.text) != []
  }

  lemma {:induction false} CleanTextIff(s: string, max: nat)
    ensures CleanText(s, max) <==> NoControl(s) && |s| <= max
  {
    forall i | 0 <= i < |s|
      ensures !Control(s[i]) <==> (s[i] >= ' ' || s[i] == '\t' || s[i] == '\n' || s[i] == '\r') && s[i] as int != 127
    {
      ControlsAre(s[i]);
    }
  }

  /** Every node is within the depth and in order by itself. */
  ghost predicate NodesOk(L: Limits, v: Json, depth: nat) {
    forall path | Node(v, path).Some? :: depth + |path| <= L.maxDepth && NodeOk(L, Node(v, path).value)
  }

  lemma {:induction false} ChildNodes(L: Limits, v: Json, depth: nat, i: nat, child: Json)
    requires NodesOk(L, v, depth)
    requires
      (v.Arr? && i < |v.items| && v.items[i] == child) || (v.Obj? && i < |v.entries| && v.entries[i].value == child)
    ensures NodesOk(L, child, depth + 1)
  {
    forall path | Node(child, path).Some?
      ensures depth + 1 + |path| <= L.maxDepth && NodeOk(L, Node(child, path).value)
    {
      var longer := [i] + path;
      assert longer[1..] == path;
      assert Node(v, longer) == Node(child, path);
    }
  }

  lemma {:induction false} CleanHead(L: Limits, v: Json, depth: nat)
    requires Clean(L, v, depth)
    ensures depth <= L.maxDepth && NodeOk(L, v)
  {
    match v
    case Str(s) => CleanTextIff(s, L.maxString);
    case Obj(entries) =>
      assert CleanEntries(L, entries, depth);
      forall i | 0 <= i < |entries| ensures KeyOk(L, entries[i].key) {
        assert CleanEntry(L, entries[i], depth);
        CleanTextIff(entries[i].key.text, L.maxIdentifier);
      }
    case _ =>
  }

  lemma {:induction false} CleanNodes(L: Limits, v: Json, depth: nat, path: seq<nat>)
    requires Clean(L, v, depth) && Node(v, path).Some?
    ensures depth + |path| <= L.maxDepth && NodeOk(L, Node(v, path).value)
    decreases |path|
  {
    if path == [] {
      CleanHead(L, v, depth);
    } else if v.Arr? {
      CleanNodes(L, v.items[path[0]], depth + 1, path[1..]);
    } else {
      assert CleanEntries(L, v.entries, depth);
      assert CleanEntry(L, v.entries[path[0]], depth);
      CleanNodes(L, v.entries[path[0]].value, depth + 1, path[1..]);
    }
  }

  lemma {:induction false} NodesClean(L: Limits, v: Json, depth: nat)
    requires NodesOk(L, v, depth)
    ensures Clean(L, v, depth)
    decreases v
  {
    RootNode(L, v, depth);
    match v
    case Str(s) => CleanTextIff(s, L.maxString);
    case Arr(_, items) =>
      forall i | 0 <= i < |items| ensures Clean(L, items[i], depth + 1) {
        ChildNodes(L, v, depth, i, items[i]);
        NodesClean(L, items[i], depth + 1);
      }
    case Obj(entries) =>
      forall i | 0 <= i < |entries| ensures Clean(L, entries[i].value, depth + 1) {
        ChildNodes(L, v, depth, i, entries[i].value);
        NodesClean(L, entries[i].value, depth + 1);
      }
      CleanMembers(L, entries, depth);
    case _ =>
  }

  lemma {:induction false} RootNode(L: Limits, v: Json, depth: nat)
    requires NodesOk(L, v, depth)
    ensures depth <= L.maxDepth && NodeOk(L, v)
  {
    assert Node(v, []) == Some(v);
  }

  lemma {:induction false} CleanMembers(L: Limits, entries: seq<Entry>, depth: nat)
    requires DistinctKeys(entries) && forall i | 0 <= i < |entries| :: KeyOk(L, entries[i].key)
    requires forall i | 0 <= i < |entries| :: Clean(L, entries[i].value, depth + 1)
    ensures CleanEntries(L, entries, depth)
  {
    forall i | 0 <= i < |entries| ensures CleanEntry(L, entries[i], depth) {
      assert KeyOk(L, entries[i].key);
      CleanTextIff(entries[i].key.text, L.maxIdentifier);
    }
  }

  /** A tree is clean exactly if every node is within the depth and in order by itself: finite
      numbers, short texts without control characters, short lists, and short dictionaries with
      distinct short keys that are neither empty nor blank. */
  lemma {:induction false} CleanIff(L: Limits, v: Json, depth: nat)
    ensures Clean(L, v, depth) <==> NodesOk(L, v, depth)
  {
    if Clean(L, v, depth) {
      forall path | Node(v, path).Some? ensures depth + |path| <= L.maxDepth && NodeOk(L, Node(v, path).value) {
        CleanNodes(L, v, depth, path);
      }
    }
    if NodesOk(L, v, depth) {
      NodesClean(L, v, depth);
    }
  }

  /** How a value by itself is changed: its texts lose their control characters, a tuple becomes a
      list, and the number of members stays. */
  predicate NodeStripped(w: Json, w': Json) {
    match w
    case Str(s) => w' == Str(RemoveControl(s))
    case Arr(_, items) => w'.Arr? && w'.isList && |w'.items| == |items|
    case Obj(entries) => w'.Obj? && |w'.entries| == |entries| &&
      forall i | 0 <= i < |entries| ::
        w'.entries[i].key == if entries[i].key.Name? then Name(RemoveControl(entries[i].key.text)) else entries[i].key
    case _ => w' == w
  }

  /** The stripped tree has the nodes of the tree, each stripped. */
  lemma {:induction false} StrippedNodes(v: Json, path: seq<nat>)
    ensures Node(Stripped(v), path).Some? <==> Node(v, path).Some?
    ensures Node(v, path).Some? ==> NodeStripped(Node(v, path).value, Node(Stripped(v), path).value)
    decreases |path|
  {
    if path != [] {
      if v.Arr? && path[0] < |v.items| {
        StrippedNodes(v.items[path[0]], path[1..]);
        assert Stripped(v).items[path[0]] == Stripped(v.items[path[0]]);
      } else if v.Obj? && path[0] < |v.entries| {
        StrippedNodes(v.entries[path[0]].value, path[1..]);
        assert Stripped(v).entries[path[0]].value == Stripped(v.entries[path[0]].value);
      }
    }
  }

  predicate NulFree(w: Json) {
    match w
    case Str(s) => '\0' !in s
    case Obj(entries) => forall i | 0 <= i < |entries| && entries[i].key.Name? :: '\0' !in entries[i].key.text
    case _ => true
  }

  ghost predicate NodesNulFree(v: Json) {
    forall path | Node(v, path).Some? :: NulFree(Node(v, path).value)
  }

  lemma {:induction false} NoNulIff(s: string)
    ensures NoNul(s) <==> '\0' !in s
  {
  }

  lemma {:induction false} PlainNodes(v: Json, path: seq<nat>)
    requires Plain(v) && Node(v, path).Some?
    ensures NulFree(Node(v, path).value)
    decreases |path|
  {
    if path == [] {
      if v.Obj? {
        forall i | 0 <= i < |v.entries| && v.entries[i].key.Name? ensures '\0' !in v.entries[i].key.text {
          assert PlainEntry(v.entries[i]);
        }
      }
    } else if v.Arr? {
      PlainNodes(v.items[path[0]], path[1..]);
    } else {
      assert PlainEntry(v.entries[path[0]]);
      PlainNodes(v.entries[path[0]].value, path[1..]);
    }
  }

  lemma {:induction false} NodesPlain(v: Json)
    requires NodesNulFree(v)
    ensures Plain(v)
    decreases v
  {
    assert Node(v, []) == Some(v);
    match v
    case Arr(_, items) =>
      forall i | 0 <= i < |items| ensures Plain(items[i]) {
        forall path | Node(items[i], path).Some? ensures NulFree(Node(items[i], path).value) {
          assert ([i] + path)[1..] == path;
          assert Node(v, [i] + path) == Node(items[i], path);
        }
        NodesPlain(items[i]);
      }
    case Obj(entries) =>
      forall i | 0 <= i < |entries| ensures PlainEntry(entries[i]) {
        forall path | Node(entries[i].value, path).Some? ensures NulFree(Node(entries[i].value, path).value) {
          assert ([i] + path)[1..] == path;
          assert Node(v, [i] + path) == Node(entries[i].value, path);
        }
        NodesPlain(entries[i].value);
      }
    case _ =>
  }

  /** No text or key holds a null character exactly if none of any node does. */
  lemma {:induction false} PlainIff(v: Json)
    ensures Plain(v) <==> NodesNulFree(v)
  {
    if Plain(v) {
      forall path | Node(v, path).Some? ensures NulFree(Node(v, path).value) {
        PlainNodes(v, path);
      }
    }
    if NodesNulFree(v) {
      NodesPlain(v);
    }
  }

  // ---------------------------------------------------------------- identifiers and sequence numbers

  /** The identifier fields. */
  lemma {:induction false} IdentifiersAre(k: Key)
    ensures IsIdentifier(k, 5) <==>
      k == Name("hash") || k == Name("id") || k == Name("tx_hash") || k == Name("transaction_hash")
      || k == Name("paging_token")
  {
    assert IdentifierField(0) == "hash" && IdentifierField(1) == "id" && IdentifierField(2) == "tx_hash";
    assert IdentifierField(3) == "transaction_hash" && IdentifierField(4) == "paging_token";
  }

  predicate LetterOrDigit(c: char) {
    'A' <= c <= 'Z' || 'a' <= c <= 'z' || '0' <= c <= '9'
  }

  predicate OneOf(c: char, a: string) {
    exists i | 0 <= i < |a| :: a[i] == c
  }

  lemma {:induction false} IdentifierCharIs(c: char)
    ensures IdentifierChar(c) <==> LetterOrDigit(c) || OneOf(c, "._:+/=-")
  {
    var t := "._:+/=-";
    assert t[0] == '.' && t[1] == '_' && t[2] == ':' && t[3] == '+' && t[4] == '/' && t[5] == '=' && t[6] == '-';
  }

  /** The grammar of identifiers: a letter or digit, then these or . _ : + / = - in any number. */
  lemma {:induction false} GrammarIs(s: string)
    ensures ValidIdentifier(s) <==>
      s != [] && LetterOrDigit(s[0]) && forall i | 0 <= i < |s| :: LetterOrDigit(s[i]) || OneOf(s[i], "._:+/=-")
  {
    forall i | 0 <= i < |s| ensures IdentifierChar(s[i]) <==> LetterOrDigit(s[i]) || OneOf(s[i], "._:+/=-") {
      IdentifierCharIs(s[i]);
    }
  }

  /** An identifier field can be cleaned exactly if it is a text of at most the allowed length,
      control characters not counted, without null characters, that matches the grammar once the
      whitespace around it is taken off; and that is what it becomes. */
  lemma {:induction false} IdentifierCleaning(L: Limits, v: Json)
    ensures var t := RemoveControl(if v.Str? then v.text else "");
      SanitizeIdentifier(L, v) ==
        if v.Str? && '\0' !in v.text && |t| <= L.maxIdentifier && ValidIdentifier(Strip(t))
        then Some(Strip(t)) else None
  {
    if v.Str? {
      NoNulIff(v.text);
    }
  }

  /** Reading the decimal text of a number gives the number. */
  lemma {:induction false} DecimalReads(n: nat)
    ensures AllDigits(JsonText.NatText(n)) && Decimal(JsonText.NatText(n)) == n
  {
    JsonText.NatTextDigits(n);
    if n >= 10 {
      DecimalReads(n / 10);
      var t := JsonText.NatText(n);
      assert t[..|t| - 1] == JsonText.NatText(n / 10);
    } else {
      assert JsonText.NatText(n)[..0] == [];
    }
  }

  /** The first of the fields sequence, ledger and ledger_sequence that is there, whatever it
      holds, gives the number: a number from 0 to 2^63 - 1, or the decimal digits of one with
      whitespace around them. */
  lemma {:induction false} SequenceIff(block: seq<Entry>, n: nat)
    ensures var raw :=
        if Lookup(block, "sequence").Some? then Lookup(block, "sequence")
        else if Lookup(block, "ledger").Some? then Lookup(block, "ledger")
        else Lookup(block, "ledger_sequence");
      ExtractSequence(block) == Some(n) <==>
        && n <= 9223372036854775807 && raw.Some?
        && (raw.value == Int(n)
            || (raw.value.Str? && var t := Strip(raw.value.text);
                t != [] && (forall i | 0 <= i < |t| :: '0' <= t[i] <= '9') && Decimal(t) == n))
  {
  }

  // ---------------------------------------------------------------- the block

  /** The identifier fields of the record can all be cleaned. */
  ghost predicate IdentifiersOk(L: Limits, record: seq<Entry>) {
    forall i | 0 <= i < |record| && IsIdentifier(record[i].key, 5) :: SanitizeIdentifier(L, record[i].value).Some?
  }

  /** The transactions are null, or a list, not too long, of records whose identifiers are. */
  ghost predicate TransactionsOk(L: Limits, v: Json) {
    v.Null? ||
    (v.Arr? && v.isList && |v.items| <= L.maxTransactions &&
     forall i | 0 <= i < |v.items| :: v.items[i].Obj? && IdentifiersOk(L, v.items[i].entries))
  }

  lemma {:induction false} RecordCleanedIff(L: Limits, record: seq<Entry>)
    ensures RecordCleaned(L, record).Some? <==> IdentifiersOk(L, record)
  {
    if IdentifiersOk(L, record) {
      forall i | 0 <= i < |record| ensures FieldAccepted(L, record[i], 5) {
      }
    }
    if RecordCleaned(L, record).Some? {
      forall i | 0 <= i < |record| && IsIdentifier(record[i].key, 5)
        ensures SanitizeIdentifier(L, record[i].value).Some?
      {
        assert FieldAccepted(L, record[i], 5);
      }
    }
  }

  lemma {:induction false} TransactionsCleanedIff(L: Limits, v: Json)
    ensures TransactionsCleaned(L, v).Some? <==> TransactionsOk(L, v)
  {
    if v.Arr? {
      forall i | 0 <= i < |v.items|
        ensures TransactionCleaned(L, v.items[i]).Some? <==> v.items[i].Obj? && IdentifiersOk(L, v.items[i].entries)
      {
        if v.items[i].Obj? {
          RecordCleanedIff(L, v.items[i].entries);
        }
      }
    }
  }

  /** Adding the sequence number changes neither the identifiers nor the transactions. */
  lemma {:induction false} SequenceIsApart(L: Limits, block: seq<Entry>, n: nat)
    requires DistinctKeys(block)
    ensures IdentifiersOk(L, Put(block, "sequence", Int(n))) <==> IdentifiersOk(L, block)
    ensures Lookup(Put(block, "sequence", Int(n)), "transactions") == Lookup(block, "transactions")
  {
    var put := Put(block, "sequence", Int(n));
    NotAnIdentifier(Entry(Name("sequence"), Int(n)));
    assert |"sequence"| != |"transactions"|;
    SameLookup(block, put, "transactions");
    if IdentifiersOk(L, put) {
      forall i | 0 <= i < |block| && IsIdentifier(block[i].key, 5) ensures SanitizeIdentifier(L, block[i].value).Some? {
        assert put[i] == block[i];
      }
    }
  }

  lemma {:induction false} CleanedRecordLooks(L: Limits, record: seq<Entry>, r: seq<Entry>)
    requires RecordCleaned(L, record) == Some(r)
    ensures Lookup(r, "transactions") == Lookup(record, "transactions")
  {
    forall i | 0 <= i < |record| && (record[i].key == Name("transactions") || r[i].key == Name("transactions"))
      ensures record[i] == r[i]
    {
      assert r[i] == FieldCleaned(L, record[i], 5);
      TransactionsNotIdentifier(record[i].key);
    }
    SameLookup(record, r, "transactions");
  }

  lemma {:induction false} TransactionsNotIdentifier(k: Key)
    ensures k == Name("transactions") ==> !IsIdentifier(k, 5)
  {
    IdentifiersAre(k);
    assert |"transactions"| == 12 && |"transaction_hash"| == 16 && |"paging_token"| == 12 && "paging_token"[0] == 'p';
    assert "transactions"[0] == 't';
  }

  /** What is clean once stripped can be written as JSON. */
  lemma {:induction false} CleanIsEncodable(L: Limits, v: Json, depth: nat)
    requires Clean(L, Stripped(v), depth)
    ensures Encodable(v)
    decreases v
  {
    match v
    case Arr(_, items) =>
      forall i | 0 <= i < |items| ensures Encodable(items[i]) {
        assert Stripped(v).items[i] == Stripped(items[i]);
        CleanIsEncodable(L, items[i], depth + 1);
      }
    case Obj(entries) =>
      assert CleanEntries(L, Stripped(v).entries, depth);
      forall i | 0 <= i < |entries| ensures EncodableEntry(entries[i]) {
        assert CleanEntry(L, Stripped(v).entries[i], depth);
        assert Stripped(v).entries[i] == StrippedEntry(entries[i]);
        CleanIsEncodable(L, entries[i].value, depth + 1);
      }
    case _ =>
  }

  /** Exactly which payloads are accepted: dictionaries whose JSON text is within the size limit,
      that hold no null character and are clean once stripped, whose sequence number can be read,
      and whose identifiers and transactions are in order. */
  lemma {:induction false} AcceptedIff(L: Limits, payload: Json)
    ensures BlockSanitized(L, payload).Some? <==>
      && payload.Obj? && Size(payload) <= L.maxPayload
      && Plain(payload) && Clean(L, Stripped(payload), 0)
      && var block := Stripped(payload).entries;
         && ExtractSequence(block).Some? && IdentifiersOk(L, block)
         && (Lookup(block, "transactions").Some? ==> TransactionsOk(L, Lookup(block, "transactions").value))
  {
    if payload.Obj? && Sanitized(L, payload, 0).Some? {
      var block := Stripped(payload).entries;
      CleanIsEncodable(L, payload, 0);
      StrippedIsTidy(L, payload);
      if ExtractSequence(block).Some? {
        var put := Put(block, "sequence", Int(ExtractSequence(block).value));
        SequenceIsApart(L, block, ExtractSequence(block).value);
        RecordCleanedIff(L, put);
        if RecordCleaned(L, put).Some? {
          CleanedRecordLooks(L, put, RecordCleaned(L, put).value);
        }
        if Lookup(block, "transactions").Some? {
          TransactionsCleanedIff(L, Lookup(block, "transactions").value);
        }
      }
    }
  }

  /** What becomes of a field of a record. */
  function FieldOf(e: Entry): Entry {
    if IsIdentifier(e.key, 5) && e.value.Str? then Entry(e.key, Str(Strip(RemoveControl(e.value.text)))) else e
  }

  ghost predicate FieldsOf(record: seq<Entry>, r: seq<Entry>) {
    |r| == |record| && forall i | 0 <= i < |r| :: r[i] == FieldOf(record[i])
  }

  /** In each record the identifiers are cleaned and every other field stays, all in their places. */
  lemma {:induction false} RecordBecomes(L: Limits, record: seq<Entry>, r: seq<Entry>)
    requires RecordCleaned(L, record) == Some(r)
    ensures FieldsOf(record, r)
  {
    forall i | 0 <= i < |r| ensures r[i] == FieldOf(record[i]) {
      assert r[i] == FieldCleaned(L, record[i], 5);
    }
  }

  /** The transactions keep their number and order, and each becomes the record it is. */
  lemma {:induction false} TransactionsBecome(L: Limits, v: Json, t: Json)
    requires TransactionsCleaned(L, v) == Some(t)
    ensures v.Null? ==> t == v
    ensures !v.Null? ==> v.Arr? && t.Arr? && t.isList && |t.items| == |v.items|
    ensures !v.Null? ==> forall i | 0 <= i < |v.items| :: v.items[i].Obj? && t.items[i].Obj?
    ensures !v.Null? ==> forall i | 0 <= i < |v.items| :: FieldsOf(v.items[i].entries, t.items[i].entries)
  {
    if v.Arr? {
      forall i | 0 <= i < |v.items|
        ensures v.items[i].Obj? && t.items[i].Obj? && FieldsOf(v.items[i].entries, t.items[i].entries)
      {
        assert TransactionCleaned(L, v.items[i]) == Some(t.items[i]);
        RecordBecomes(L, v.items[i].entries, t.items[i].entries);
      }
    }
  }

  /** The accepted block, field by field: the number under `sequence`, the identifiers cleaned, the
      transactions cleaned, and everything else as in the stripped payload, in its order. */
  lemma {:induction false} BlockBecomes(L: Limits, payload: Json)
    requires BlockSanitized(L, payload).Some?
    ensures var r, sent := BlockSanitized(L, payload).value, Stripped(payload).entries;
      && |r| >= |sent|
      && forall i | 0 <= i < |sent| && sent[i].key != Name("sequence") && sent[i].key != Name("transactions") ::
           r[i] == FieldOf(sent[i])
    ensures var r, sent := BlockSanitized(L, payload).value, Stripped(payload).entries;
      && Lookup(r, "sequence") == Some(Int(ExtractSequence(sent).value))
      && (Lookup(sent, "transactions").Some? <==> Lookup(r, "transactions").Some?)
      && (Lookup(sent, "transactions").Some? ==>
            TransactionsCleaned(L, Lookup(sent, "transactions").value) == Lookup(r, "transactions"))
  {
    var sent := Stripped(payload).entries;
    var n := ExtractSequence(sent).value;
    var put := Put(sent, "sequence", Int(n));
    var record := RecordCleaned(L, put).value;
    var r := BlockSanitized(L, payload).value;
    StrippedIsTidy(L, payload);
    WithSequence(L, sent, n);
    RecordStaysTidy(L, put, record);
    RecordBecomes(L, put, record);
    StagesKeepLookups(L, sent, n, record, r, "sequence");
    SequenceIsApart(L, sent, n);
    CleanedRecordLooks(L, put, record);
    if Lookup(record, "transactions").Some? {
      PutLookup(record, "transactions", TransactionsCleaned(L, Lookup(record, "transactions").value).value);
      var at := LookupFinds(record, "transactions");
    }
    forall i | 0 <= i < |sent| && sent[i].key != Name("sequence") && sent[i].key != Name("transactions")
      ensures i < |r| && r[i] == FieldOf(sent[i])
    {
      assert put[i] == sent[i] && record[i] == FieldOf(sent[i]);
    }
  }
}
