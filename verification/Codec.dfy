/**
 The base-N encodings of RFC 4648: the bits of the bytes, most significant first, are cut into
 groups of k bits, and a last short group is filled with zeros. k is 5 for base32 (section 6)
 and 6 for base64url (section 5).
 */
module Codec {
  import opened Common

  type Byte = n: nat | n < 256

  // ---------------------------------------------------------------- symbol by symbol

  function Map<A, B>(f: A -> B, s: seq<A>): (r: seq<B>)
    ensures |r| == |s| && forall i | 0 <= i < |s| :: r[i] == f(s[i])
  {
    seq(|s|, i requires 0 <= i < |s| => f(s[i]))
  }

  /** The readings of all elements, unless one of them cannot be read. */
  function Collect<A, B>(g: A -> Option<B>, s: seq<A>): Option<seq<B>>
  {
    if s == [] then Some([])
    else
      var front, last := Collect(g, s[..|s| - 1]), g(s[|s| - 1]);
      if front.Some? && last.Some? then Some(front.value + [last.value]) else None
  }

  lemma {:induction false} CollectInverts<A, B>(f: A -> B, g: B -> Option<A>, s: seq<A>)
    requires forall i | 0 <= i < |s| :: g(f(s[i])) == Some(s[i])
    ensures Collect(g, Map(f, s)) == Some(s)
  {
    if s != [] {
      var n := |s| - 1;
      CollectInverts(f, g, s[..n]);
      assert Map(f, s)[..n] == Map(f, s[..n]);
      assert s == s[..n] + [s[n]];
    }
  }

  // ---------------------------------------------------------------- bits

  function Pow2(k: nat): nat {
    if k == 0 then 1 else 2 * Pow2(k - 1)
  }

  /** The low `width` bits of `n`, most significant first. */
  function BitsOf(n: nat, width: nat): (b: seq<bool>)
    ensures |b| == width
  {
    if width == 0 then [] else BitsOf(n / 2, width - 1) + [n % 2 == 1]
  }

  function ValueOf(b: seq<bool>): nat
  {
    if b == [] then 0 else 2 * ValueOf(b[..|b| - 1]) + if b[|b| - 1] then 1 else 0
  }

  lemma {:induction false} ValueBound(b: seq<bool>)
    ensures ValueOf(b) < Pow2(|b|)
  {
    if b != [] {
      ValueBound(b[..|b| - 1]);
    }
  }

  lemma {:induction false} BitsRoundTrip(b: seq<bool>)
    ensures BitsOf(ValueOf(b), |b|) == b
  {
    if b != [] {
      var front := b[..|b| - 1];
      BitsRoundTrip(front);
      assert ValueOf(b) / 2 == ValueOf(front);
      assert b == front + [b[|b| - 1]];
    }
  }

  lemma {:induction false} ValueRoundTrip(n: nat, width: nat)
    requires n < Pow2(width)
    ensures ValueOf(BitsOf(n, width)) == n
  {
    if width > 0 {
      ValueRoundTrip(n / 2, width - 1);
      var b := BitsOf(n, width);
      assert b[..|b| - 1] == BitsOf(n / 2, width - 1);
    }
  }

  function Zeros(n: nat): (z: seq<bool>)
    ensures |z| == n
  {
    seq(n, _ => false)
  }

  // ---------------------------------------------------------------- groups of bits

  function FillUp(bits: seq<bool>, k: nat): (b: seq<bool>)
    ensures |bits| <= k ==> |b| == k
  {
    if |bits| <= k then bits + Zeros(k - |bits|) else bits
  }

  /** The k-bit symbols of a bit string. */
  function Group(bits: seq<bool>, k: nat): (g: seq<nat>)
    requires k >= 1
    decreases |bits|
  {
    if bits == [] then []
    else if |bits| <= k then [ValueOf(FillUp(bits, k))]
    else [ValueOf(bits[..k])] + Group(bits[k..], k)
  }

  function Ungroup(symbols: seq<nat>, k: nat): seq<bool>
  {
    if symbols == [] then [] else BitsOf(symbols[0], k) + Ungroup(symbols[1..], k)
  }

  lemma {:induction false} UngroupSize(symbols: seq<nat>, k: nat)
    ensures |Ungroup(symbols, k)| == k * |symbols|
  {
    if symbols != [] {
      UngroupSize(symbols[1..], k);
      assert k * |symbols| == k + k * |symbols[1..]|;
    }
  }

  ghost predicate Bounded(symbols: seq<nat>, bound: nat) {
    forall i | 0 <= i < |symbols| :: symbols[i] < bound
  }

  /** Cutting into groups and joining them again only adds the filling. */
  lemma {:induction false} GroupRoundTrip(bits: seq<bool>, k: nat) returns (fill: nat)
    requires k >= 1
    ensures fill < k && Ungroup(Group(bits, k), k) == bits + Zeros(fill)
    ensures Bounded(Group(bits, k), Pow2(k))
    decreases |bits|
  {
    if bits == [] {
      fill := 0;
    } else if |bits| <= k {
      fill := k - |bits|;
      BitsRoundTrip(FillUp(bits, k));
      ValueBound(FillUp(bits, k));
      OneGroup(ValueOf(FillUp(bits, k)), k);
    } else {
      var head, tail := bits[..k], bits[k..];
      fill := GroupRoundTrip(tail, k);
      BitsRoundTrip(head);
      ValueBound(head);
      JoinGroups(ValueOf(head), Group(tail, k), k);
      Rejoined(bits, k, Zeros(fill));
      BoundedJoin(ValueOf(head), Group(tail, k), Pow2(k));
    }
  }

  lemma {:induction false} Rejoined(bits: seq<bool>, k: nat, z: seq<bool>)
    requires k <= |bits|
    ensures bits[..k] + (bits[k..] + z) == bits + z
  {
  }

  lemma {:induction false} BoundedJoin(x: nat, g: seq<nat>, bound: nat)
    requires x < bound && Bounded(g, bound)
    ensures Bounded([x] + g, bound)
  {
  }

  lemma {:induction false} OneGroup(x: nat, k: nat)
    ensures Ungroup([x], k) == BitsOf(x, k)
  {
    assert [x][1..] == [];
  }

  lemma {:induction false} JoinGroups(x: nat, g: seq<nat>, k: nat)
    ensures Ungroup([x] + g, k) == BitsOf(x, k) + Ungroup(g, k)
  {
    assert ([x] + g)[1..] == g;
  }

  // ---------------------------------------------------------------- bytes

  function ByteBits(bytes: seq<Byte>): (b: seq<bool>)
    ensures |b| == 8 * |bytes|
  {
    if bytes == [] then [] else BitsOf(bytes[0], 8) + ByteBits(bytes[1..])
  }

  lemma EightBits(b: seq<bool>)
    requires |b| == 8
    ensures ValueOf(b) < 256
  {
    ValueBound(b);
    assert Pow2(8) == 256 by {
      assert Pow2(4) == 16;
    }
  }

  /** Whole bytes of a bit string; bits that do not fill a byte are dropped. */
  function BytesOf(bits: seq<bool>): seq<Byte>
    decreases |bits|
  {
    if |bits| < 8 then []
    else EightBits(bits[..8]); [ValueOf(bits[..8])] + BytesOf(bits[8..])
  }

  lemma {:induction false} BytesRoundTrip(bytes: seq<Byte>, extra: seq<bool>)
    requires |extra| < 8
    ensures BytesOf(ByteBits(bytes) + extra) == bytes
  {
    if bytes == [] {
      assert ByteBits(bytes) + extra == extra;
    } else {
      var head, rest := BitsOf(bytes[0], 8), ByteBits(bytes[1..]) + extra;
      assert ByteBits(bytes) + extra == head + rest;
      BytesRoundTrip(bytes[1..], extra);
      ByteValue(bytes[0]);
      FirstByte(head, rest);
    }
  }

  lemma {:induction false} FirstByte(head: seq<bool>, rest: seq<bool>)
    requires |head| == 8
    ensures ValueOf(head) < 256 && BytesOf(head + rest) == [ValueOf(head)] + BytesOf(rest)
  {
    EightBits(head);
    assert (head + rest)[..8] == head && (head + rest)[8..] == rest;
  }

  lemma ByteValue(b: Byte)
    ensures ValueOf(BitsOf(b, 8)) == b
  {
    assert Pow2(4) == 16;
    assert Pow2(8) == 256;
    ValueRoundTrip(b, 8);
  }

  function Encode(bytes: seq<Byte>, k: nat): seq<nat>
    requires k >= 1
  {
    Group(ByteBits(bytes), k)
  }

  function Decode(symbols: seq<nat>, k: nat): seq<Byte> {
    BytesOf(Ungroup(symbols, k))
  }

  /** Decoding inverts encoding, for every group size up to a byte and every byte string. */
  lemma {:induction false} RoundTrip(bytes: seq<Byte>, k: nat)
    requires 1 <= k <= 8
    ensures Decode(Encode(bytes, k), k) == bytes
    ensures Bounded(Encode(bytes, k), Pow2(k))
    ensures 8 * |bytes| <= |Ungroup(Encode(bytes, k), k)| < 8 * |bytes| + k
  {
    var fill := GroupRoundTrip(ByteBits(bytes), k);
    BytesRoundTrip(bytes, Zeros(fill));
  }
}

/** The base64url text of section 5 of RFC 4648, with and without its padding. */
module Base64Url {
  import opened Common
  import opened Codec

  function Digit(n: nat): char
  {
    if n < 26 then 'A' + n as char
    else if n < 52 then 'a' + (n - 26) as char
    else if n < 62 then '0' + (n - 52) as char
    else if n == 62 then '-' else '_'
  }

  function DigitValue(c: char): (v: Option<nat>)
    ensures v.Some? ==> v.value < 64 && Digit(v.value) == c
  {
    if 'A' <= c <= 'Z' then Some((c - 'A') as nat)
    else if 'a' <= c <= 'z' then Some(26 + (c - 'a') as nat)
    else if '0' <= c <= '9' then Some(52 + (c - '0') as nat)
    else if c == '-' then Some(62)
    else if c == '_' then Some(63)
    else None
  }

  lemma DigitRoundTrip(n: nat)
    requires n < 64
    ensures DigitValue(Digit(n)) == Some(n) && Digit(n) != '='
  {
  }

  function Text(symbols: seq<nat>): string {
    Map(Digit, symbols)
  }

  /** The symbols of a text, unless a character is not in the alphabet. */
  function Symbols(t: string): Option<seq<nat>> {
    Collect(DigitValue, t)
  }

  lemma TextRoundTrip(symbols: seq<nat>)
    requires Bounded(symbols, 64)
    ensures Symbols(Text(symbols)) == Some(symbols)
  {
    forall i | 0 <= i < |symbols| ensures DigitValue(Digit(symbols[i])) == Some(symbols[i]) {
      DigitRoundTrip(symbols[i]);
    }
    CollectInverts(Digit, DigitValue, symbols);
  }

  function Pads(n: nat): (p: string)
    ensures |p| == n
  {
    seq(n, _ => '=')
  }

  function EncodeUnpadded(bytes: seq<Byte>): string {
    Text(Encode(bytes, 6))
  }

  function Pad(t: string): string {
    t + Pads((4 - |t| % 4) % 4)
  }

  /** The text RFC 4648 prescribes: filled with `=` to a multiple of four characters. */
  function EncodePadded(bytes: seq<Byte>): string {
    Pad(EncodeUnpadded(bytes))
  }

  lemma {:induction false} EncodeSymbols(bytes: seq<Byte>)
    ensures var s := Encode(bytes, 6);
      Bounded(s, 64) && 8 * |bytes| <= 6 * |s| < 8 * |bytes| + 6 && Decode(s, 6) == bytes
  {
    RoundTrip(bytes, 6);
    assert Pow2(3) == 8;
    assert Pow2(6) == 64;
    UngroupSize(Encode(bytes, 6), 6);
  }

  /** Python's `rstrip("=")`. */
  function StripPads(t: string): string
  {
    if t != [] && t[|t| - 1] == '=' then StripPads(t[..|t| - 1]) else t
  }

  /** How `decode_cursor` puts the padding back. */
  function PadBack(t: string): string {
    if |t| % 4 != 0 then t + Pads(4 - |t| % 4) else t
  }

  lemma {:induction false} StripAllPads(t: string, n: nat)
    requires t == [] || t[|t| - 1] != '='
    ensures StripPads(t + Pads(n)) == t
  {
    if n == 0 {
      assert t + Pads(0) == t;
    } else {
      StripAllPads(t, n - 1);
      assert (t + Pads(n))[..|t| + n - 1] == t + Pads(n - 1);
    }
  }

  lemma {:induction false} PadLaw(t: string)
    requires t == [] || t[|t| - 1] != '='
    ensures StripPads(Pad(t)) == t && PadBack(t) == Pad(t) && |Pad(t)| % 4 == 0
  {
    StripAllPads(t, (4 - |t| % 4) % 4);
    if |t| % 4 == 0 {
      assert t + Pads(0) == t;
    }
  }

  lemma PossibleLength(bytes: nat, symbols: nat)
    requires 8 * bytes <= 6 * symbols < 8 * bytes + 6
    ensures symbols % 4 != 1
  {
    var q := bytes / 3;
    assert symbols == 4 * q || symbols == 4 * q + 2 || symbols == 4 * q + 3;
  }

  /** The unpadded text uses the alphabet only, has a length that is possible, and its symbols
      give the bytes back. */
  lemma {:induction false} UnpaddedText(bytes: seq<Byte>)
    ensures var t := EncodeUnpadded(bytes);
      && (t == [] || t[|t| - 1] != '=')
      && |t| % 4 != 1 && (bytes != [] ==> t != [])
      && Symbols(t).Some? && Decode(Symbols(t).value, 6) == bytes
  {
    EncodeSymbols(bytes);
    var symbols := Encode(bytes, 6);
    PossibleLength(|bytes|, |symbols|);
    TextRoundTrip(symbols);
    if symbols != [] {
      DigitRoundTrip(symbols[|symbols| - 1]);
    }
  }

  /** Stripping the padding loses nothing: putting it back gives the RFC's text again. */
  lemma PaddingComesBack(bytes: seq<Byte>)
    ensures PadBack(StripPads(EncodePadded(bytes))) == EncodePadded(bytes)
  {
    UnpaddedText(bytes);
    PadLaw(EncodeUnpadded(bytes));
  }

  /** Decoding a padded text: whole quanta, at most two pads, alphabet characters only. */
  function DecodePadded(t: string): Option<seq<Byte>>
  {
    var data := StripPads(t);
    var symbols := Symbols(data);
    if |t| % 4 != 0 || |t| - |data| > 2 || symbols.None? then None
    else Some(Decode(symbols.value, 6))
  }

  lemma PaddedRoundTrip(bytes: seq<Byte>)
    ensures DecodePadded(EncodePadded(bytes)) == Some(bytes)
  {
    UnpaddedText(bytes);
    PadLaw(EncodeUnpadded(bytes));
  }

  /** Stripped text, with its padding put back, decodes to the bytes. */
  lemma StrippedRoundTrip(bytes: seq<Byte>)
    ensures var t := StripPads(EncodePadded(bytes));
      DecodePadded(PadBack(t)) == Some(bytes) && (bytes != [] ==> t != [])
  {
    UnpaddedText(bytes);
    PadLaw(EncodeUnpadded(bytes));
    PaddedRoundTrip(bytes);
  }

  /** The alphabet of section 5 of RFC 4648, and the first of its test vectors in section 10. */
  lemma {:induction false} AlphabetIs(n: nat)
    requires n < 64
    ensures Digit(0) == 'A' && Digit(25) == 'Z' && Digit(26) == 'a' && Digit(51) == 'z'
    ensures Digit(52) == '0' && Digit(61) == '9' && Digit(62) == '-' && Digit(63) == '_'
    ensures n != 25 && n != 51 && n < 61 ==> Digit(n + 1) as int == Digit(n) as int + 1
  {
  }

  lemma {:induction false} VectorOfF()
    ensures EncodePadded([102]) == "Zg=="
  {
    BitsOf102();
    GroupsOf102();
    assert ByteBits([102]) == BitsOf(102, 8) + [] by {
      assert [102][1..] == [];
    }
    assert ByteBits([102]) == [false, true, true, false, false, true, true, false];
    assert Encode([102], 6) == [25, 32];
    assert EncodeUnpadded([102]) == "Zg";
    assert Pad("Zg") == "Zg" + Pads(2) && Pads(2) == "==";
  }

  lemma {:induction false} GroupsOf102()
    ensures Group([false, true, true, false, false, true, true, false], 6) == [25, 32]
  {
    var bits := [false, true, true, false, false, true, true, false];
    assert bits[..6] == [false, true, true, false, false, true] && bits[6..] == [true, false];
    SixBits(false, true, true, false, false, true);
    SixBits(true, false, false, false, false, false);
    assert FillUp(bits[6..], 6) == [true, false, false, false, false, false];
    assert Group(bits[6..], 6) == [32];
    assert Group(bits, 6) == [25] + [32];
  }

  lemma {:induction false} BitsOf102()
    ensures BitsOf(102, 8) == [false, true, true, false, false, true, true, false]
  {
    assert BitsOf(1, 2) == [false, true] by {
      assert BitsOf(0, 1) == [false];
    }
    assert BitsOf(6, 4) == [false, true, true, false] by {
      assert BitsOf(3, 3) == [false, true, true];
    }
    assert BitsOf(25, 6) == [false, true, true, false, false, true] by {
      assert BitsOf(12, 5) == [false, true, true, false, false];
    }
    assert BitsOf(51, 7) == [false, true, true, false, false, true, true];
  }

  lemma {:induction false} SixBits(a: bool, b: bool, c: bool, d: bool, e: bool, f: bool)
    ensures ValueOf([a, b, c, d, e, f]) ==
      (if a then 32 else 0) + (if b then 16 else 0) + (if c then 8 else 0)
      + (if d then 4 else 0) + (if e then 2 else 0) + (if f then 1 else 0)
  {
    assert [a][..0] == [] && [a, b][..1] == [a] && [a, b, c][..2] == [a, b];
    assert [a, b, c, d][..3] == [a, b, c] && [a, b, c, d, e][..4] == [a, b, c, d];
    assert [a, b, c, d, e, f][..5] == [a, b, c, d, e];
    assert ValueOf([a, b]) == 2 * ValueOf([a]) + if b then 1 else 0;
    assert ValueOf([a, b, c, d]) == 2 * ValueOf([a, b, c]) + if d then 1 else 0;
  }
}
