/**
 Stellar account addresses (SEP-0023): the generator, the check of the checksum, and the
 normalisation of user input. The base32 text is that of section 6 of RFC 4648.
 */
module StrKey {
  import opened Common
  import opened Text
  import opened Codec
  import opened LinearRegister
  import opened ShiftRegister
  import opened Crc16

  // ---------------------------------------------------------------- base32 text

  function Digit(n: nat): char {
    if n < 26 then 'A' + n as char else if n < 32 then '2' + (n - 26) as char else '?'
  }

  function DigitValue(c: char): (v: Option<nat>)
    ensures v.Some? ==> v.value < 32 && Digit(v.value) == c
  {
    if 'A' <= c <= 'Z' then Some((c - 'A') as nat)
    else if '2' <= c <= '7' then Some(26 + (c - '2') as nat)
    else None
  }

  function Base32(bytes: seq<Byte>): string {
    Map(Digit, Encode(bytes, 5))
  }

  function FromBase32(t: string): Option<seq<Byte>>
  {
    var symbols := Collect(DigitValue, t);
    if symbols.None? then None else Some(Decode(symbols.value, 5))
  }

  lemma {:induction false} FiveBitSymbols(bytes: seq<Byte>)
    ensures var s := Encode(bytes, 5);
      Bounded(s, 32) && 8 * |bytes| <= 5 * |s| < 8 * |bytes| + 5 && Decode(s, 5) == bytes
  {
    RoundTrip(bytes, 5);
    assert Pow2(2) == 4;
    assert Pow2(5) == 32;
    UngroupSize(Encode(bytes, 5), 5);
  }

  lemma {:induction false} Base32RoundTrip(bytes: seq<Byte>)
    ensures FromBase32(Base32(bytes)) == Some(bytes)
    ensures Collect(DigitValue, Base32(bytes)) == Some(Encode(bytes, 5))
  {
    FiveBitSymbols(bytes);
    var s := Encode(bytes, 5);
    forall i | 0 <= i < |s| ensures DigitValue(Digit(s[i])) == Some(s[i]) {
    }
    CollectInverts(Digit, DigitValue, s);
  }

  // ---------------------------------------------------------------- checksum bytes

  function LittleEndian(bytes: seq<Byte>): nat {
    if bytes == [] then 0 else bytes[0] + 256 * LittleEndian(bytes[1..])
  }

  /** `has_valid_checksum` */
  predicate HasValidChecksum(version: seq<Byte>, payload: seq<Byte>, checksum: seq<Byte>) {
    ValueOf(Crc(version + payload)) == LittleEndian(checksum)
  }

  function ToLittleEndian(r: Reg): (b: seq<Byte>)
    ensures |b| == 2
  {
    WordMeaning(r, 0);
    [ValueOf(r) % 256, ValueOf(r) / 256]
  }

  lemma LittleEndianRoundTrip(r: Reg)
    ensures LittleEndian(ToLittleEndian(r)) == ValueOf(r)
  {
    var b := ToLittleEndian(r);
    assert b[1..] == [b[1]] && b[1..][1..] == [];
    assert LittleEndian(b[1..]) == b[1];
  }

  // ---------------------------------------------------------------- the generator

  const ACCOUNT_ID_VERSION_BYTE: Byte := 48

  /** `generate_stellar_public_key`, given the 32 bytes of the fresh public key. */
  function GeneratePublicKey(raw: seq<Byte>): string
  {
    var payload := [ACCOUNT_ID_VERSION_BYTE] + raw;
    Base32(payload + ToLittleEndian(Crc(payload)))
  }

  // ---------------------------------------------------------------- normalisation

  datatype AddressError = Empty | WrongLength(length: nat) | WrongPrefix | WrongCharacter
  datatype NormalizeResult = Ok(value: string) | Err(error: AddressError)

  function AsciiUpper(c: char): char {
    if 'a' <= c <= 'z' then c - 32 as char else c
  }

  /** What Unicode makes of a character in upper case: possibly several characters. */
  type UpperFn = char -> string

  ghost predicate UppercasesAscii(u: UpperFn) {
    forall c: char | c as int < 128 :: u(c) == [AsciiUpper(c)]
  }

  function Uppercased(u: UpperFn, s: string): string {
    if s == [] then [] else u(s[0]) + Uppercased(u, s[1..])
  }

  predicate AllDigits(s: string) {
    forall i | 0 <= i < |s| :: DigitValue(s[i]).Some?
  }

  function Normalize(u: UpperFn, raw: string): NormalizeResult
  {
    var stripped := Strip(raw);
    var upper := Uppercased(u, stripped);
    if stripped == [] then Err(Empty)
    else if |upper| != 56 then Err(WrongLength(|upper|))
    else if upper[0] != 'G' then Err(WrongPrefix)
    else if !AllDigits(upper) then Err(WrongCharacter)
    else Ok(upper)
  }

  /** The canonical form. */
  predicate Canonical(s: string) {
    |s| == 56 && s[0] == 'G' && AllDigits(s)
  }

  lemma {:induction false} UppercasedAscii(u: UpperFn, s: string)
    requires UppercasesAscii(u) && forall i | 0 <= i < |s| :: s[i] as int < 128
    ensures Uppercased(u, s) == Map(AsciiUpper, s)
  {
    if s != [] {
      UppercasedAscii(u, s[1..]);
      assert u(s[0]) == [AsciiUpper(s[0])];
    }
  }

  /** Whatever upper case means beyond ASCII: an input is accepted exactly if its stripped upper
      case is canonical, a canonical address is returned unchanged, and so normalising twice is
      normalising once. */
  lemma {:induction false} NormalizeCanonical(u: UpperFn, raw: string)
    requires UppercasesAscii(u)
    ensures Normalize(u, raw).Ok? <==> Strip(raw) != [] && Canonical(Uppercased(u, Strip(raw)))
    ensures Canonical(raw) ==> Normalize(u, raw) == Ok(raw)
    ensures Normalize(u, raw).Ok? ==>
      var address := Normalize(u, raw).value; Canonical(address) && Normalize(u, address) == Ok(address)
  {
    if Canonical(raw) {
      CanonicalUnchanged(u, raw);
    }
    if Normalize(u, raw).Ok? {
      CanonicalUnchanged(u, Normalize(u, raw).value);
    }
  }

  /** Case and surrounding whitespace do not matter. */
  lemma {:induction false} CaseAndSpaceIgnored(u: UpperFn, raw: string, address: string)
    requires UppercasesAscii(u) && Canonical(address)
    requires Map(AsciiUpper, Strip(raw)) == address
    ensures Normalize(u, raw) == Ok(address)
  {
    var s := Strip(raw);
    forall i | 0 <= i < |s| ensures s[i] as int < 128 {
      assert address[i] == AsciiUpper(s[i]);
    }
    UppercasedAscii(u, s);
  }

  lemma {:induction false} CanonicalUnchanged(u: UpperFn, s: string)
    requires UppercasesAscii(u) && Canonical(s)
    ensures Normalize(u, s) == Ok(s)
  {
    assert Strip(s) == s;
    forall i | 0 <= i < 56 ensures AsciiUpper(s[i]) == s[i] {
    }
    assert Map(AsciiUpper, s) == s;
    CaseAndSpaceIgnored(u, s, s);
  }

  // ---------------------------------------------------------------- generated addresses

  /** The parts of an address, and whether its checksum is right. */
  predicate AddressChecks(address: string)
  {
    var bytes := FromBase32(address);
    && bytes.Some? && |bytes.value| == 35
    && HasValidChecksum(bytes.value[..1], bytes.value[1..33], bytes.value[33..])
  }

  lemma {:induction false} FirstSymbol(bytes: seq<Byte>)
    requires |bytes| >= 1 && bytes[0] == ACCOUNT_ID_VERSION_BYTE
    ensures |Encode(bytes, 5)| >= 1 && Encode(bytes, 5)[0] == 6
  {
    var bits := ByteBits(bytes);
    assert bits[..5] == BitsOf(48, 8)[..5];
    VersionBits();
  }

  lemma {:induction false} VersionBits()
    ensures ValueOf(BitsOf(48, 8)[..5]) == 6
  {
    var b := BitsOf(48, 8);
    assert b[..5] == b[..7][..6][..5];
    assert Pow2(2) == 4;
    ValueRoundTrip(6, 5);
  }

  /** For every key the generated address has 56 characters, is canonical, decodes to the
      version byte, the key and a checksum that is accepted. */
  lemma {:induction false} GeneratedKeyIsValid(u: UpperFn, raw: seq<Byte>)
    requires UppercasesAscii(u) && |raw| == 32
    ensures var key := GeneratePublicKey(raw);
      && |key| == 56 && Normalize(u, key) == Ok(key) && AddressChecks(key)
      && FromBase32(key).Some? && |FromBase32(key).value| == 35
      && FromBase32(key).value[0] == ACCOUNT_ID_VERSION_BYTE && FromBase32(key).value[1..33] == raw
  {
    var payload := [ACCOUNT_ID_VERSION_BYTE] + raw;
    var bytes := payload + ToLittleEndian(Crc(payload));
    var key := GeneratePublicKey(raw);
    Base32RoundTrip(bytes);
    FiveBitSymbols(bytes);
    FirstSymbol(bytes);
    assert Canonical(key) by {
      var s := Encode(bytes, 5);
      forall i | 0 <= i < |s| ensures DigitValue(key[i]).Some? {
      }
    }
    CanonicalUnchanged(u, key);
    LittleEndianRoundTrip(Crc(payload));
    assert bytes[..1] + bytes[1..33] == payload;
    assert bytes[33..] == ToLittleEndian(Crc(payload));
  }

  // ---------------------------------------------------------------- mistyped addresses

  /** The 280 bits of an address: 264 of version and key, then the checksum, low byte first. */
  ghost predicate Codeword(c: seq<bool>)
    requires |c| == 280
  {
    REGISTER.Serial(ZERO, c[..264]) == c[272..] + c[264..272]
  }

  lemma {:induction false} BytesOfConcat(a: seq<bool>, b: seq<bool>)
    requires |a| % 8 == 0
    ensures BytesOf(a + b) == BytesOf(a) + BytesOf(b)
    decreases |a|
  {
    if a == [] {
      assert a + b == b;
    } else {
      BytesOfConcat(a[8..], b);
      FirstByte(a[..8], a[8..]);
      FirstByte(a[..8], a[8..] + b);
      assert a[..8] + a[8..] == a && a[..8] + (a[8..] + b) == a + b;
    }
  }

  lemma {:induction false} BitsBytesRoundTrip(bits: seq<bool>)
    requires |bits| % 8 == 0
    ensures ByteBits(BytesOf(bits)) == bits && 8 * |BytesOf(bits)| == |bits|
    decreases |bits|
  {
    if bits != [] {
      BitsBytesRoundTrip(bits[8..]);
      BitsRoundTrip(bits[..8]);
      var bytes := BytesOf(bits);
      assert bytes[0] == ValueOf(bits[..8]) && bytes[1..] == BytesOf(bits[8..]);
      assert bits == bits[..8] + bits[8..];
    }
  }

  lemma {:induction false} OneByte(b: seq<bool>)
    requires |b| == 8
    ensures ValueOf(b) < 256 && BytesOf(b) == [ValueOf(b)]
  {
    FirstByte(b, []);
    assert b + [] == b;
  }

  lemma {:induction false} TwoBytes(low: seq<bool>, high: seq<bool>)
    requires |low| == 8 && |high| == 8
    ensures LittleEndian(BytesOf(low + high)) == ValueOf(high + low)
  {
    OneByte(low);
    OneByte(high);
    BytesOfConcat(low, high);
    var b := BytesOf(low + high);
    assert b[1..] == [ValueOf(high)] && b[1..][1..] == [];
    assert LittleEndian(b[1..]) == ValueOf(high);
    ValueSplit(high, low);
    SixteenBits();
  }

  lemma ValueInjective(a: Reg, b: Reg)
    requires ValueOf(a) == ValueOf(b)
    ensures a == b
  {
    BitsRoundTrip(a);
    BitsRoundTrip(b);
  }

  /** `has_valid_checksum` on the decoded parts says that the bits are a codeword. */
  lemma {:induction false} ChecksumMeansCodeword(c: seq<bool>)
    requires |c| == 280
    ensures var bytes := BytesOf(c);
      |bytes| == 35 && (HasValidChecksum(bytes[..1], bytes[1..33], bytes[33..]) <==> Codeword(c))
  {
    var bytes := BytesOf(c);
    var body, low, high := c[..264], c[264..272], c[272..];
    assert c == body + (low + high);
    BytesOfConcat(body, low + high);
    BitsBytesRoundTrip(body);
    BitsBytesRoundTrip(low + high);
    assert bytes[..33] == BytesOf(body) && bytes[33..] == BytesOf(low + high);
    assert bytes[..1] + bytes[1..33] == bytes[..33];
    CrcIsSerial(bytes[..33]);
    TwoBytes(low, high);
    var r: Reg := high + low;
    if ValueOf(Crc(bytes[..33])) == ValueOf(r) {
      ValueInjective(Crc(bytes[..33]), r);
    }
  }

  lemma {:induction false} DifferenceOfCodewords(a: seq<bool>, b: seq<bool>)
    requires |a| == |b| == 280 && Codeword(a) && Codeword(b)
    ensures Codeword(Differ(a, b))
  {
    var d := Differ(a, b);
    assert d[..264] == Differ(a[..264], b[..264]);
    SerialDifference(a[..264], b[..264]);
    assert d[272..] + d[264..272] == Differ(a[272..] + a[264..272], b[272..] + b[264..272]);
  }

  lemma {:induction false} SerialDifference(a: seq<bool>, b: seq<bool>)
    requires |a| == |b|
    ensures REGISTER.Serial(ZERO, Differ(a, b)) == Differ(REGISTER.Serial(ZERO, a), REGISTER.Serial(ZERO, b))
  {
    LinearLaw();
    MedialLaws();
    SerialLinear(REGISTER, a, b);
    var x, y := REGISTER.Serial(ZERO, a), REGISTER.Serial(ZERO, b);
    assert Xor(x, y) == Differ(x, y);
  }

  /** Where the generator has no coefficient, a step just moves the bits. */
  lemma StepAt(r: Reg)
    ensures Step(r)[0] == r[1] && Step(r)[1] == r[2] && Step(r)[2] == r[3]
    ensures Step(r)[12] == r[13] && Step(r)[13] == r[14] && Step(r)[14] == r[15] && Step(r)[15] == r[0]
  {
    assert Push(r)[15] == false;
  }

  /** Four message bits at the end of the body show up unchanged at the end of the checksum. */
  lemma {:induction false} LowNibble(w: seq<bool>)
    requires |w| == 4
    ensures REGISTER.Iter(REGISTER.Word(w), 16)[12..] == w
  {
    ShortWord(w);
    var start := REGISTER.Word(w);
    ShortWordMoves(start, 12);
    var r := REGISTER.Iter(start, 12);
    assert r[..4] == w;
    FourSteps(r);
    IterAdd(REGISTER, start, 12, 4);
  }

  lemma {:induction false} FourSteps(r: Reg)
    ensures REGISTER.Iter(r, 4)[12..] == r[..4]
  {
    StepAt(r);
    StepAt(Step(r));
    StepAt(Step(Step(r)));
    StepAt(Step(Step(Step(r))));
    assert REGISTER.Iter(r, 1) == Step(r);
    assert REGISTER.Iter(r, 2) == Step(Step(r));
    assert REGISTER.Iter(r, 3) == Step(Step(Step(r)));
  }

  /** No codeword but zero has all its set bits inside one base32 character. */
  lemma {:induction false} NoShortCodeword(d: seq<bool>, p: nat, i: nat)
    requires |d| == 280 && p < 56 && i < 280 && d[i]
    requires forall k | 0 <= k < 280 && !(5 * p <= k < 5 * p + 5) :: !d[k]
    ensures !Codeword(d)
  {
    var body, tail := d[..264], d[272..] + d[264..272];
    if p <= 51 {
      BurstLeavesTrace(body, 5 * p, 5 * p + 5, i);
    } else if p >= 53 {
      ClearBody(body);
      if tail == ZERO {
        NotAllClear(d, i);
      }
    } else {
      AcrossTheBoundary(d, i);
    }
  }

  lemma {:induction false} ClearBody(body: seq<bool>)
    requires AllClear(body)
    ensures REGISTER.Serial(ZERO, body) == ZERO
  {
    Laws();
    SerialOfClear(REGISTER, ZERO, body);
    IterZero(REGISTER, |body|);
  }

  /** A set bit in the checksum is visible in the checksum word. */
  lemma NotAllClear(d: seq<bool>, i: nat)
    requires |d| == 280 && 264 <= i < 280 && d[i]
    ensures d[272..] + d[264..272] != ZERO
  {
    var k := if i < 272 then i - 256 else i - 272;
    assert (d[272..] + d[264..272])[k] == d[i];
    assert !ZERO[k];
  }

  /** The one character that holds bits of the key and of the checksum. */
  lemma {:induction false} AcrossTheBoundary(d: seq<bool>, i: nat)
    requires |d| == 280 && i < 280 && d[i]
    requires forall k | 0 <= k < 280 && !(260 <= k < 265) :: !d[k]
    ensures !Codeword(d)
  {
    if Codeword(d) {
      NibbleIsClear(d);
      assert forall k | 260 <= k < 264 :: !d[k] by {
        assert forall k | 260 <= k < 264 :: d[k] == d[260..264][k - 260];
      }
      ClearBody(d[..264]);
      NotAllClear(d, i);
    }
  }

  lemma {:induction false} NibbleIsClear(d: seq<bool>)
    requires |d| == 280 && Codeword(d)
    requires forall k | 0 <= k < 280 && !(260 <= k < 265) :: !d[k]
    ensures AllClear(d[260..264])
  {
    var before, w, tail := d[..260], d[260..264], d[272..] + d[264..272];
    assert d[..264] == before + w;
    BodyTail(before, w);
    LowNibble(w);
    assert w == tail[12..];
  }

  lemma {:induction false} BodyTail(before: seq<bool>, w: seq<bool>)
    requires AllClear(before)
    ensures REGISTER.Serial(ZERO, before + w) == REGISTER.Iter(REGISTER.Word(w), 16)
  {
    ClearBody(before);
    SerialConcat(REGISTER, ZERO, before, w);
    SerialWord(ZERO, w);
    Laws();
    IterZero(REGISTER, |w|);
  }

  lemma {:induction false} UngroupAt(symbols: seq<nat>, p: nat)
    requires p < |symbols|
    ensures |Ungroup(symbols, 5)| == 5 * |symbols|
    ensures Ungroup(symbols, 5)[5 * p..5 * p + 5] == BitsOf(symbols[p], 5)
  {
    UngroupSize(symbols, 5);
    var rest := Ungroup(symbols[1..], 5);
    if p > 0 {
      UngroupAt(symbols[1..], p - 1);
      assert Ungroup(symbols, 5)[5..] == rest;
      assert Ungroup(symbols, 5)[5 * p..5 * p + 5] == rest[5 * (p - 1)..5 * (p - 1) + 5];
    }
  }

  lemma {:induction false} UngroupElsewhere(a: seq<nat>, b: seq<nat>, p: nat)
    requires |a| == |b| && p < |a| && forall k | 0 <= k < |a| && k != p :: a[k] == b[k]
    ensures |Ungroup(a, 5)| == |Ungroup(b, 5)| == 5 * |a|
    ensures forall k | 0 <= k < 5 * |a| && !(5 * p <= k < 5 * p + 5) :: Ungroup(a, 5)[k] == Ungroup(b, 5)[k]
  {
    UngroupSize(a, 5);
    UngroupSize(b, 5);
    if p == 0 {
      assert a[1..] == b[1..];
    } else {
      UngroupElsewhere(a[1..], b[1..], p - 1);
      var x, y := Ungroup(a[1..], 5), Ungroup(b[1..], 5);
      forall k | 0 <= k < 5 * |a| && !(5 * p <= k < 5 * p + 5) ensures Ungroup(a, 5)[k] == Ungroup(b, 5)[k] {
        if k >= 5 {
          assert Ungroup(a, 5)[k] == x[k - 5] && Ungroup(b, 5)[k] == y[k - 5];
        }
      }
    }
  }

  /** Two bit strings of equal symbols but one are not both codewords. */
  lemma {:induction false} SymbolChangeBreaksCode(a: seq<nat>, b: seq<nat>, p: nat)
    requires |a| == |b| == 56 && p < 56 && Bounded(a, 32) && Bounded(b, 32) && a[p] != b[p]
    requires forall k | 0 <= k < 56 && k != p :: a[k] == b[k]
    ensures |Ungroup(a, 5)| == |Ungroup(b, 5)| == 280
    ensures !(Codeword(Ungroup(a, 5)) && Codeword(Ungroup(b, 5)))
  {
    UngroupElsewhere(a, b, p);
    var x, y := Ungroup(a, 5), Ungroup(b, 5);
    var i := SymbolsDiffer(a, b, p);
    if Codeword(x) && Codeword(y) {
      DifferenceOfCodewords(x, y);
      NoShortCodeword(Differ(x, y), p, i);
    }
  }

  lemma {:induction false} BitsDiffer(m: nat, n: nat) returns (j: nat)
    requires m < 32 && n < 32 && m != n
    ensures j < 5 && BitsOf(m, 5)[j] != BitsOf(n, 5)[j]
  {
    assert Pow2(2) == 4;
    ValueRoundTrip(m, 5);
    ValueRoundTrip(n, 5);
    var u, v := BitsOf(m, 5), BitsOf(n, 5);
    assert u != v;
    j :| 0 <= j < 5 && u[j] != v[j];
  }

  lemma {:induction false} SymbolsDiffer(a: seq<nat>, b: seq<nat>, p: nat) returns (i: nat)
    requires |a| == |b| && p < |a| && a[p] != b[p] && a[p] < 32 && b[p] < 32
    ensures |Ungroup(a, 5)| == |Ungroup(b, 5)| == 5 * |a|
    ensures i < 5 * |a| && Ungroup(a, 5)[i] != Ungroup(b, 5)[i]
  {
    UngroupAt(a, p);
    UngroupAt(b, p);
    var j := BitsDiffer(a[p], b[p]);
    i := 5 * p + j;
    assert Ungroup(a, 5)[i] == Ungroup(a, 5)[5 * p..5 * p + 5][j];
    assert Ungroup(b, 5)[i] == Ungroup(b, 5)[5 * p..5 * p + 5][j];
  }

  lemma {:induction false} CollectAt(t: string, symbols: seq<nat>)
    requires Collect(DigitValue, t) == Some(symbols)
    ensures |symbols| == |t| && forall k | 0 <= k < |t| :: DigitValue(t[k]) == Some(symbols[k])
  {
    if t != [] {
      CollectAt(t[..|t| - 1], Collect(DigitValue, t[..|t| - 1]).value);
    }
  }

  /** One mistyped character is always noticed: of two texts of 56 characters that differ in
      exactly one place, at most one has a right checksum. */
  lemma {:induction false} MistypedCharacterIsNoticed(address: string, p: nat, c: char)
    requires |address| == 56 && AddressChecks(address) && p < 56 && c != address[p]
    ensures !AddressChecks(address[p := c])
  {
    var typo := address[p := c];
    if AddressChecks(typo) {
      var a, b := Collect(DigitValue, address).value, Collect(DigitValue, typo).value;
      CollectAt(address, a);
      CollectAt(typo, b);
      assert Digit(a[p]) == address[p] && Digit(b[p]) == c;
      SymbolChangeBreaksCode(a, b, p);
      ChecksumMeansCodeword(Ungroup(a, 5));
      ChecksumMeansCodeword(Ungroup(b, 5));
    }
  }

  // ---------------------------------------------------------------- the alphabet and the errors

  /** The alphabet of section 6 of RFC 4648. */
  lemma {:induction false} AlphabetIs(n: nat)
    requires n < 32
    ensures Digit(n) == "ABCDEFGHIJKLMNOPQRSTUVWXYZ234567"[n]
  {
  }

  /** Upper-casing: the letters, and nothing else. */
  lemma {:induction false} UpperIs(k: nat, c: char)
    requires k < 26
    ensures AsciiUpper("abcdefghijklmnopqrstuvwxyz"[k]) == "ABCDEFGHIJKLMNOPQRSTUVWXYZ"[k]
    ensures c !in "abcdefghijklmnopqrstuvwxyz" ==> AsciiUpper(c) == c
  {
    var lower := "abcdefghijklmnopqrstuvwxyz";
    if 'a' <= c <= 'z' {
      assert lower[c as int - 97] == c;
    }
  }

  /** Which error an input is refused with: the first of the four checks that fails. */
  lemma {:induction false} NormalizeErrors(u: UpperFn, raw: string)
    ensures var upper, out := Uppercased(u, Strip(raw)), Normalize(u, raw);
      && (out == Err(Empty) <==> Strip(raw) == [])
      && (out == Err(WrongLength(|upper|)) <==> Strip(raw) != [] && |upper| != 56)
      && (out == Err(WrongPrefix) <==> Strip(raw) != [] && |upper| == 56 && upper[0] != 'G')
      && (out == Err(WrongCharacter) <==>
            Strip(raw) != [] && |upper| == 56 && upper[0] == 'G'
            && exists i :: 0 <= i < 56 && !('A' <= upper[i] <= 'Z' || '2' <= upper[i] <= '7'))
  {
  }
}
