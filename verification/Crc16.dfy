/**
 Registers driven by a linear step, over any group: the algebra that the checksum rests on.
 `feedback` is what a set message bit adds to the register, `one` the bit itself.
 */
module LinearRegister {

  datatype Register<!R(==)> = Register(step: R -> R, xor: (R, R) -> R, zero: R, one: R, feedback: R)
  {
    function Feedback(b: bool): R {
      if b then feedback else zero
    }

    function Unit(b: bool): R {
      if b then one else zero
    }

    function Iter(x: R, n: nat): R {
      if n == 0 then x else step(Iter(x, n - 1))
    }

    /** The register after the message bits, one at a time. */
    function Serial(r: R, bits: seq<bool>): R {
      if bits == [] then r else xor(step(Serial(r, bits[..|bits| - 1])), Feedback(bits[|bits| - 1]))
    }

    /** The message bits themselves, reduced as they come. */
    function Word(bits: seq<bool>): R {
      if bits == [] then zero else xor(step(Word(bits[..|bits| - 1])), Unit(bits[|bits| - 1]))
    }
  }

  ghost predicate Linear<R(!new)>(g: Register<R>) {
    && g.step(g.zero) == g.zero
    && forall x, y {:trigger g.step(g.xor(x, y))} :: g.step(g.xor(x, y)) == g.xor(g.step(x), g.step(y))
  }

  ghost predicate Injective<R(!new)>(g: Register<R>) {
    forall x {:trigger g.step(x)} :: g.step(x) == g.zero ==> x == g.zero
  }

  ghost predicate Neutral<R(!new)>(g: Register<R>) {
    forall x :: g.xor(x, g.zero) == x && g.xor(g.zero, x) == x
  }

  ghost predicate Associative<R(!new)>(g: Register<R>) {
    forall x, y, z {:trigger g.xor(g.xor(x, y), z)} :: g.xor(g.xor(x, y), z) == g.xor(x, g.xor(y, z))
  }

  /** The inner terms of a sum of sums can be exchanged. */
  ghost predicate Medial<R(!new)>(g: Register<R>) {
    forall x, a, y, b :: MedialAt(g, x, a, y, b)
  }

  ghost predicate MedialAt<R(!new)>(g: Register<R>, x: R, a: R, y: R, b: R) {
    g.xor(g.xor(x, a), g.xor(y, b)) == g.xor(g.xor(x, y), g.xor(a, b))
  }

  /** Sixteen steps turn the bit into its feedback: x^16 reduced. */
  ghost predicate Reduces<R(!new)>(g: Register<R>) {
    g.Iter(g.one, 16) == g.feedback
  }

  lemma {:induction false} IterLinear<R(!new)>(g: Register<R>, x: R, y: R, n: nat)
    requires Linear(g)
    ensures g.Iter(g.xor(x, y), n) == g.xor(g.Iter(x, n), g.Iter(y, n))
  {
    if n > 0 {
      IterLinear(g, x, y, n - 1);
    }
  }

  lemma {:induction false} IterZero<R(!new)>(g: Register<R>, n: nat)
    requires Linear(g)
    ensures g.Iter(g.zero, n) == g.zero
  {
    if n > 0 {
      IterZero(g, n - 1);
    }
  }

  lemma {:induction false} IterInjective<R(!new)>(g: Register<R>, x: R, n: nat)
    requires Linear(g) && Injective(g)
    ensures g.Iter(x, n) == g.zero <==> x == g.zero
  {
    if n > 0 {
      IterInjective(g, x, n - 1);
    }
  }

  lemma {:induction false} IterAdd<R(!new)>(g: Register<R>, x: R, m: nat, n: nat)
    ensures g.Iter(g.Iter(x, m), n) == g.Iter(x, m + n)
  {
    if n > 0 {
      IterAdd(g, x, m, n - 1);
    }
  }

  lemma {:induction false} SerialConcat<R(!new)>(g: Register<R>, r: R, a: seq<bool>, b: seq<bool>)
    ensures g.Serial(r, a + b) == g.Serial(g.Serial(r, a), b)
  {
    if b == [] {
      assert a + b == a;
    } else {
      SerialConcat(g, r, a, b[..|b| - 1]);
      assert (a + b)[..|a + b| - 1] == a + b[..|b| - 1];
    }
  }

  lemma {:induction false} UnitReduces<R(!new)>(g: Register<R>, b: bool)
    requires Linear(g) && Reduces(g)
    ensures g.Iter(g.Unit(b), 16) == g.Feedback(b)
  {
    IterZero(g, 16);
  }

  lemma {:induction false} StepCommutes<R(!new)>(g: Register<R>, x: R, n: nat)
    ensures g.step(g.Iter(x, n)) == g.Iter(g.step(x), n)
  {
    if n > 0 {
      StepCommutes(g, x, n - 1);
    }
  }

  /** The register is the initial value carried along, plus the reduced message times x^16. */
  lemma {:induction false} SerialIsWord<R(!new)>(g: Register<R>, r: R, bits: seq<bool>)
    requires Linear(g) && Neutral(g) && Associative(g) && Reduces(g)
    ensures g.Serial(r, bits) == g.xor(g.Iter(r, |bits|), g.Iter(g.Word(bits), 16))
  {
    if bits == [] {
      IterZero(g, 16);
    } else {
      var front, b := bits[..|bits| - 1], bits[|bits| - 1];
      var x, w := g.Iter(r, |front|), g.Word(front);
      SerialIsWord(g, r, front);
      StepCommutes(g, w, 16);
      UnitReduces(g, b);
      IterLinear(g, g.step(w), g.Unit(b), 16);
      assert g.step(g.xor(x, g.Iter(w, 16))) == g.xor(g.step(x), g.step(g.Iter(w, 16)));
    }
  }

  // ---------------------------------------------------------------- differences

  function Differ(a: seq<bool>, b: seq<bool>): (d: seq<bool>)
    requires |a| == |b|
    ensures |d| == |a| && forall i | 0 <= i < |a| :: d[i] == (a[i] != b[i])
  {
    seq(|a|, i requires 0 <= i < |a| => a[i] != b[i])
  }

  /** Equal feedbacks cancel. */
  ghost predicate Cancels<R(!new)>(g: Register<R>) {
    && g.xor(g.zero, g.zero) == g.zero
    && forall a, b :: g.xor(g.Feedback(a), g.Feedback(b)) == g.Feedback(a != b)
  }

  /** The difference of two checksums is the checksum of the difference. */
  lemma {:induction false} SerialLinear<R(!new)>(g: Register<R>, a: seq<bool>, b: seq<bool>)
    requires Linear(g) && Medial(g) && Cancels(g) && |a| == |b|
    ensures g.Serial(g.zero, Differ(a, b)) == g.xor(g.Serial(g.zero, a), g.Serial(g.zero, b))
  {
    if a != [] {
      var n := |a| - 1;
      SerialLinear(g, a[..n], b[..n]);
      assert Differ(a, b)[..n] == Differ(a[..n], b[..n]);
      var x, y := g.step(g.Serial(g.zero, a[..n])), g.step(g.Serial(g.zero, b[..n]));
      assert MedialAt(g, x, g.Feedback(a[n]), y, g.Feedback(b[n]));
    }
  }

  ghost predicate AllClear(bits: seq<bool>) {
    forall i | 0 <= i < |bits| :: !bits[i]
  }

  lemma {:induction false} SerialOfClear<R(!new)>(g: Register<R>, r: R, bits: seq<bool>)
    requires Neutral(g) && AllClear(bits)
    ensures g.Serial(r, bits) == g.Iter(r, |bits|)
  {
    if bits != [] {
      SerialOfClear(g, r, bits[..|bits| - 1]);
    }
  }

  /** A difference confined to a window whose bits do not reduce to zero leaves a trace,
      wherever in the message the window lies. */
  lemma {:induction false} WindowLeavesTrace<R(!new)>(
      g: Register<R>, before: seq<bool>, window: seq<bool>, after: seq<bool>)
    requires Linear(g) && Injective(g) && Neutral(g) && Associative(g) && Reduces(g)
    requires AllClear(before) && AllClear(after) && g.Word(window) != g.zero
    ensures g.Serial(g.zero, before + window + after) != g.zero
  {
    SerialConcat(g, g.zero, before + window, after);
    SerialConcat(g, g.zero, before, window);
    SerialOfClear(g, g.zero, before);
    IterZero(g, |before|);
    SerialIsWord(g, g.zero, window);
    IterZero(g, |window|);
    IterInjective(g, g.Word(window), 16);
    var r := g.Serial(g.zero, before + window);
    SerialOfClear(g, r, after);
    IterInjective(g, r, |after|);
  }
}

/**
 The sixteen-bit register of CRC16-XModem as a list of bits, most significant first, with the
 polynomial x^16 + x^12 + x^5 + 1.
 */
module ShiftRegister {
  import opened Common
  import opened LinearRegister

  type Reg = s: seq<bool> | |s| == 16 witness seq(16, _ => false)

  const T := true
  const F := false
  const ZERO: Reg := [F, F, F, F, F, F, F, F, F, F, F, F, F, F, F, F]
  const ONE: Reg := [F, F, F, F, F, F, F, F, F, F, F, F, F, F, F, T]
  const POLY: Reg := [F, F, F, T, F, F, F, F, F, F, T, F, F, F, F, T]

  function Xor(x: Reg, y: Reg): (z: Reg)
    ensures forall i | 0 <= i < 16 :: z[i] == (x[i] != y[i])
  {
    seq(16, i requires 0 <= i < 16 => x[i] != y[i])
  }

  function Push(r: Reg): Reg {
    r[1..] + [false]
  }

  function Step(r: Reg): Reg {
    if r[0] then Xor(Push(r), POLY) else Push(r)
  }

  const REGISTER := Register(Step, Xor, ZERO, ONE, POLY)

  lemma StepKernel(x: Reg)
    requires Step(x) == ZERO
    ensures x == ZERO
  {
    assert !x[0] by {
      assert Step(x)[15] == x[0];
    }
    assert forall i | 1 <= i < 16 :: x[i] == Push(x)[i - 1];
  }

  lemma LinearLaw()
    ensures Linear(REGISTER)
  {
    assert Push(ZERO) == ZERO;
    forall x: Reg, y: Reg
      ensures REGISTER.step(REGISTER.xor(x, y)) == REGISTER.xor(REGISTER.step(x), REGISTER.step(y))
    {
    }
  }

  lemma InjectiveLaw()
    ensures Injective(REGISTER)
  {
    forall x: Reg | REGISTER.step(x) == ZERO ensures x == ZERO {
      StepKernel(x);
    }
  }

  lemma SumLaws()
    ensures Neutral(REGISTER) && Associative(REGISTER)
  {
    forall x: Reg ensures Xor(x, ZERO) == x && Xor(ZERO, x) == x {
    }
    forall x: Reg, y: Reg, z: Reg ensures Xor(Xor(x, y), z) == Xor(x, Xor(y, z)) {
    }
  }

  lemma MedialLaws()
    ensures Medial(REGISTER) && Cancels(REGISTER)
  {
    forall x: Reg, a: Reg, y: Reg, b: Reg ensures MedialAt(REGISTER, x, a, y, b) {
      assert Xor(Xor(x, a), Xor(y, b)) == Xor(Xor(x, y), Xor(a, b));
    }
    assert Xor(POLY, POLY) == Xor(ZERO, ZERO) == ZERO;
    assert Xor(POLY, ZERO) == Xor(ZERO, POLY) == POLY;
  }

  /** Shifting in zeros moves a short word up unchanged. */
  lemma {:induction false} ShortWordMoves(r: Reg, n: nat)
    requires n <= 16 && forall i | 0 <= i < n :: !r[i]
    ensures REGISTER.Iter(r, n) == r[n..] + seq(n, _ => false)
  {
    if n > 0 {
      ShortWordMoves(r, n - 1);
      var before := REGISTER.Iter(r, n - 1);
      assert before[0] == r[n - 1];
      assert Push(before) == r[n..] + seq(n, _ => false);
    }
  }

  lemma ReducesLaw()
    ensures Reduces(REGISTER)
  {
    ShortWordMoves(ONE, 15);
    var top := REGISTER.Iter(ONE, 15);
    assert top[0];
    assert Xor(Push(top), POLY) == POLY;
  }

  lemma Laws()
    ensures Linear(REGISTER) && Injective(REGISTER) && Neutral(REGISTER) && Associative(REGISTER) && Reduces(REGISTER)
  {
    LinearLaw();
    InjectiveLaw();
    SumLaws();
    ReducesLaw();
  }

  function Clear(n: nat): (z: seq<bool>)
    ensures |z| == n && AllClear(z)
  {
    seq(n, _ => false)
  }

  lemma ShortStep(w: Reg, front: seq<bool>, b: bool)
    requires |front| < 16 && w == Clear(16 - |front|) + front
    ensures REGISTER.xor(REGISTER.step(w), REGISTER.Unit(b)) == Clear(15 - |front|) + (front + [b])
  {
    assert !w[0];
    var longer := Clear(15 - |front|) + (front + [b]);
    forall i | 0 <= i < 16 ensures Xor(Push(w), REGISTER.Unit(b))[i] == longer[i] {
    }
  }

  /** Up to sixteen bits are not reduced at all. */
  lemma {:induction false} ShortWord(bits: seq<bool>)
    requires |bits| <= 16
    ensures REGISTER.Word(bits) == Clear(16 - |bits|) + bits
  {
    if bits == [] {
      assert ZERO == Clear(16) + bits;
    } else {
      var front, b := bits[..|bits| - 1], bits[|bits| - 1];
      ShortWord(front);
      ShortStep(REGISTER.Word(front), front, b);
      assert front + [b] == bits;
    }
  }

  lemma {:induction false} SerialWord(r: Reg, bits: seq<bool>)
    ensures REGISTER.Serial(r, bits) == Xor(REGISTER.Iter(r, |bits|), REGISTER.Iter(REGISTER.Word(bits), 16))
  {
    Laws();
    SerialIsWord(REGISTER, r, bits);
  }

  lemma {:induction false} IterXor(x: Reg, y: Reg, n: nat)
    ensures REGISTER.Iter(Xor(x, y), n) == Xor(REGISTER.Iter(x, n), REGISTER.Iter(y, n))
  {
    LinearLaw();
    IterLinear(REGISTER, x, y, n);
  }

  lemma {:induction false} ShortWordNonzero(bits: seq<bool>, i: nat)
    requires |bits| <= 16 && i < |bits| && bits[i]
    ensures REGISTER.Word(bits) != ZERO
  {
    PaddedNotZero(bits, i);
    ShortWord(bits);
  }

  lemma {:induction false} PaddedNotZero(bits: seq<bool>, i: nat)
    requires |bits| <= 16 && i < |bits| && bits[i]
    ensures Clear(16 - |bits|) + bits != ZERO
  {
    var k := 16 - |bits| + i;
    assert (Clear(16 - |bits|) + bits)[k] && !ZERO[k];
  }

  lemma {:induction false} ShortWordLeavesTrace(before: seq<bool>, window: seq<bool>, after: seq<bool>)
    requires AllClear(before) && AllClear(after) && REGISTER.Word(window) != ZERO
    ensures REGISTER.Serial(ZERO, before + window + after) != ZERO
  {
    Laws();
    WindowLeavesTrace(REGISTER, before, window, after);
  }

  /** A burst: a difference inside sixteen consecutive bits cannot cancel. */
  lemma {:induction false} BurstLeavesTrace(d: seq<bool>, from: nat, to: nat, i: nat)
    requires from <= to <= |d| && to - from <= 16
    requires forall k | 0 <= k < |d| && !(from <= k < to) :: !d[k]
    requires i < |d| && d[i]
    ensures REGISTER.Serial(ZERO, d) != ZERO
  {
    var before, window, after := d[..from], d[from..to], d[to..];
    assert d == before + window + after;
    assert window[i - from] == d[i];
    ShortWordNonzero(window, i - from);
    ShortWordLeavesTrace(before, window, after);
  }

  /** So two messages of equal length whose differences lie within sixteen consecutive bits
      have different checksums. */
  lemma {:induction false} BurstDetected(a: seq<bool>, b: seq<bool>, from: nat, to: nat)
    requires |a| == |b| && from <= to <= |a| && to - from <= 16 && a != b
    requires forall k | 0 <= k < |a| && !(from <= k < to) :: a[k] == b[k]
    ensures REGISTER.Serial(ZERO, a) != REGISTER.Serial(ZERO, b)
  {
    var i :| 0 <= i < |a| && a[i] != b[i];
    BurstLeavesTrace(Differ(a, b), from, to, i);
    DifferenceLaw(a, b);
  }

  lemma {:induction false} DifferenceLaw(a: seq<bool>, b: seq<bool>)
    requires |a| == |b|
    ensures REGISTER.Serial(ZERO, a) == REGISTER.Serial(ZERO, b) ==> REGISTER.Serial(ZERO, Differ(a, b)) == ZERO
  {
    LinearLaw();
    MedialLaws();
    SerialLinear(REGISTER, a, b);
  }

  // ---------------------------------------------------------------- polynomials

  /** The seventeen coefficients x^16 + x^12 + x^5 + 1, or none of them. */
  function Scaled(t: bool): (p: seq<bool>)
    ensures |p| == 17
  {
    if t then [true] + POLY else Clear(17)
  }

  /** The product of q(x) with the generator polynomial, highest coefficient first. */
  function Product(q: seq<bool>): (p: seq<bool>)
    ensures |p| == |q| + 16
  {
    if q == [] then Clear(16)
    else
      var n := |q| - 1;
      var shifted := Product(q[..n]) + [false];
      shifted[..n] + Differ(shifted[n..], Scaled(q[n]))
  }

  /** The coefficients that long division by the generator brings out. */
  function Quotient(bits: seq<bool>): (q: seq<bool>)
    ensures |q| == |bits|
  {
    if bits == [] then []
    else
      var n := |bits| - 1;
      Quotient(bits[..n]) + [REGISTER.Serial(ZERO, bits[..n])[0] != bits[n]]
  }

  lemma FeedStep(r: Reg, b: bool)
    ensures Differ(r + [false], Scaled(r[0] != b)) == [b] + REGISTER.xor(REGISTER.step(r), REGISTER.Feedback(b))
  {
    var left, right := Differ(r + [false], Scaled(r[0] != b)), [b] + Xor(Step(r), REGISTER.Feedback(b));
    forall i | 0 <= i < 17 ensures left[i] == right[i] {
      if i > 0 {
        assert Scaled(r[0] != b)[i] == ((r[0] != b) && POLY[i - 1]);
        assert Push(r)[i - 1] == (r + [false])[i];
      }
    }
  }

  lemma {:induction false} ProductStep(q: seq<bool>, t: bool, front: seq<bool>, r: Reg)
    requires |q| == |front| && Product(q) == front + r
    ensures Product(q + [t]) == front + Differ(r + [false], Scaled(t))
  {
    var n := |q|;
    assert (q + [t])[..n] == q;
    var shifted := Product(q) + [false];
    assert shifted[..n] == front && shifted[n..] == r + [false];
  }

  function Feed(r: Reg, b: bool): Reg {
    REGISTER.xor(REGISTER.step(r), REGISTER.Feedback(b))
  }

  lemma {:induction false} MultipleStep(q: seq<bool>, front: seq<bool>, b: bool, r: Reg)
    requires |q| == |front| && Product(q) == front + r
    ensures Product(q + [r[0] != b]) == (front + [b]) + Feed(r, b)
  {
    ProductStep(q, r[0] != b, front, r);
    FeedStep(r, b);
    Regroup(front, [b], Feed(r, b));
  }

  /** The message followed by its checksum is a multiple of the generator. */
  lemma {:induction false} CodewordIsMultiple(bits: seq<bool>)
    ensures Product(Quotient(bits)) == bits + REGISTER.Serial(ZERO, bits)
  {
    if bits == [] {
      assert bits + ZERO == Clear(16);
    } else {
      var front, b := bits[..|bits| - 1], bits[|bits| - 1];
      assert bits == front + [b];
      CodewordIsMultiple(front);
      MultipleStep(Quotient(front), front, b, REGISTER.Serial(ZERO, front));
    }
  }

  /** And no other sixteen bits make it one: the checksum is the remainder of the message
      times x^16. */
  lemma {:induction false} OnlyRemainder(bits: seq<bool>, q: seq<bool>, r: Reg)
    requires |q| == |bits| && Product(q) == bits + r
    ensures r == REGISTER.Serial(ZERO, bits)
  {
    if bits == [] {
      assert r == (bits + r)[0..] == Clear(16);
    } else {
      var r0 := LastDivisionStep(bits, q, r);
      OnlyRemainder(bits[..|bits| - 1], q[..|q| - 1], r0);
    }
  }

  lemma {:induction false} LastDivisionStep(bits: seq<bool>, q: seq<bool>, r: Reg) returns (r0: Reg)
    requires |q| == |bits| > 0 && Product(q) == bits + r
    ensures var n := |bits| - 1; Product(q[..n]) == bits[..n] + r0 && r == Feed(r0, bits[n])
  {
    var n := |bits| - 1;
    var p := Product(q[..n]);
    r0 := p[n..];
    assert p == p[..n] + r0;
    assert q[..n] + [q[n]] == q;
    ProductStep(q[..n], q[n], p[..n], r0);
    LeadingBits(p[..n], Differ(r0 + [false], Scaled(q[n])), bits, r);
    assert q[n] == (r0[0] != bits[n]);
    FeedStep(r0, bits[n]);
    SameTail([bits[n]], r, Feed(r0, bits[n]));
  }

  lemma SameTail(a: seq<bool>, b: seq<bool>, c: seq<bool>)
    requires a + b == a + c
    ensures b == c
  {
    assert b == (a + b)[|a|..] == (a + c)[|a|..] == c;
  }

  lemma LeadingBits(head: seq<bool>, tail: seq<bool>, bits: seq<bool>, r: Reg)
    requires |tail| == 17 && |bits| == |head| + 1 && head + tail == bits + r
    ensures head == bits[..|head|] && tail == [bits[|head|]] + r && tail[0] == bits[|head|]
  {
    var n := |head|;
    assert head == (head + tail)[..n] == (bits + r)[..n];
    assert tail == (head + tail)[n..] == (bits + r)[n..];
  }
}

/**
 The CRC16-XModem checksum of Stellar addresses: the loop, what it computes as a polynomial
 remainder, and which alterations it is certain to notice. A sixteen-bit integer is modelled by
 the list of its bits.
 */
module Crc16 {
  import opened Codec
  import opened LinearRegister
  import opened ShiftRegister

  // ---------------------------------------------------------------- the loop

  /** `byte << 8` */
  function HighByte(b: Byte): Reg {
    BitsOf(b, 8) + Clear(8)
  }

  function Absorb(crc: Reg, b: Byte): Reg {
    REGISTER.Iter(Xor(crc, HighByte(b)), 8)
  }

  function Crc(data: seq<Byte>): Reg {
    if data == [] then ZERO else Absorb(Crc(data[..|data| - 1]), data[|data| - 1])
  }

  /** Exclusive or of the binary digits of two numbers. */
  function NatXor(m: nat, n: nat): nat
    decreases m + n
  {
    if m == 0 && n == 0 then 0 else 2 * NatXor(m / 2, n / 2) + (m + n) % 2
  }

  /** One turn of the inner loop on the sixteen-bit number: bit 0x8000 decides, the result is
      cut to sixteen bits. */
  function NextWord(crc: nat): nat {
    if crc / 0x8000 % 2 == 1 then NatXor(2 * crc, 0x1021) % 0x10000 else 2 * crc % 0x10000
  }

  method Crc16XModem(data: seq<Byte>) returns (crc: nat)
    ensures crc == ValueOf(Crc(data)) && crc < 0x10000
  {
    crc := 0;
    ClearValue(16);
    assert ZERO == Clear(16);
    for i := 0 to |data|
      invariant crc == ValueOf(Crc(data[..i]))
    {
      assert data[..i + 1][..i] == data[..i];
      crc := AddByte(crc, data[i], Crc(data[..i]));
    }
    assert data[..|data|] == data;
    TopBit(Crc(data));
  }

  /** The body of the outer loop. */
  method AddByte(before: nat, b: Byte, ghost word: Reg) returns (crc: nat)
    requires before == ValueOf(word)
    ensures crc == ValueOf(Absorb(word, b))
  {
    WordMeaning(word, b);
    crc := NatXor(before, 256 * b);
    ghost var w := Xor(word, HighByte(b));
    for j := 0 to 8
      invariant crc == ValueOf(REGISTER.Iter(w, j))
    {
      StepValue(REGISTER.Iter(w, j));
      crc := if crc / 0x8000 % 2 == 1 then NatXor(2 * crc, 0x1021) % 0x10000 else 2 * crc % 0x10000;
    }
  }

  /** The operations on bit lists are those on numbers: the turn of the inner loop, and the
      exclusive or with the byte shifted by eight. */
  lemma {:induction false} WordMeaning(r: Reg, b: Byte)
    ensures ValueOf(r) < 0x10000
    ensures ValueOf(Step(r)) == NextWord(ValueOf(r))
    ensures ValueOf(Xor(r, HighByte(b))) == NatXor(ValueOf(r), 256 * b)
  {
    TopBit(r);
    StepValue(r);
    HighByteValue(b);
    XorValue(r, HighByte(b));
    assert Xor(r, HighByte(b)) == Differ(r, HighByte(b));
  }

  lemma {:induction false} XorDigit(m: nat, n: nat, x: bool, y: bool)
    ensures NatXor(2 * m + if x then 1 else 0, 2 * n + if y then 1 else 0) == 2 * NatXor(m, n) + if x != y then 1 else 0
  {
  }

  lemma {:induction false} XorValue(a: seq<bool>, b: seq<bool>)
    requires |a| == |b|
    ensures ValueOf(Differ(a, b)) == NatXor(ValueOf(a), ValueOf(b))
  {
    if a != [] {
      var n := |a| - 1;
      XorValue(a[..n], b[..n]);
      XorDigit(ValueOf(a[..n]), ValueOf(b[..n]), a[n], b[n]);
      LastDigit(Differ(a, b), Differ(a[..n], b[..n]));
    }
  }

  lemma {:induction false} LastDigit(d: seq<bool>, front: seq<bool>)
    requires d != [] && front == d[..|d| - 1]
    ensures ValueOf(d) == 2 * ValueOf(front) + if d[|d| - 1] then 1 else 0
  {
  }

  lemma {:induction false} StepValue(r: Reg)
    ensures ValueOf(Step(r)) == NextWord(ValueOf(r))
  {
    TopBit(r);
    PushValue(r);
    if r[0] {
      PolyValue();
      AddPoly(r, POLY);
    }
  }

  /** Adding a polynomial with bit sixteen clear to the doubled number and cutting is adding it
      to the pushed word. */
  lemma {:induction false} AddPoly(r: Reg, poly: Reg)
    ensures NatXor(2 * ValueOf(r), ValueOf(poly)) % 0x10000 == ValueOf(Xor(Push(r), poly))
  {
    var shifted, padded := r + [false], [false] + poly;
    assert shifted[..16] == r;
    LastDigit(shifted, r);
    PadValue(poly);
    XorValue(shifted, padded);
    var d := Differ(shifted, padded);
    assert d == [d[0]] + Xor(Push(r), poly);
    CutTo16(d[0], Xor(Push(r), poly));
  }

  lemma {:induction false} PadValue(r: Reg)
    ensures ValueOf([false] + r) == ValueOf(r)
  {
    ValueSplit([false], r);
    Single(false);
  }

  lemma {:induction false} PushValue(r: Reg)
    ensures ValueOf(Push(r)) == 2 * ValueOf(r) % 0x10000
  {
    TopBit(r);
    ValueSplit(r[1..], [false]);
    Single(false);
    assert Pow2(1) == 2;
  }

  /** Dropping the seventeenth bit is cutting to sixteen. */
  lemma {:induction false} CutTo16(top: bool, r: Reg)
    ensures ValueOf([top] + r) % 0x10000 == ValueOf(r)
  {
    ValueSplit([top], r);
    Single(top);
    SixteenBits();
    ValueBound(r);
  }

  lemma Single(b: bool)
    ensures ValueOf([b]) == if b then 1 else 0
  {
    assert [b][..0] == [];
  }

  lemma TopBit(r: Reg)
    ensures ValueOf(r) == (if r[0] then 0x8000 else 0) + ValueOf(r[1..]) && ValueOf(r[1..]) < 0x8000
  {
    SixteenBits();
    assert r == [r[0]] + r[1..];
    ValueSplit([r[0]], r[1..]);
    Single(r[0]);
    ValueBound(r[1..]);
  }

  lemma HighByteValue(b: Byte)
    ensures ValueOf(HighByte(b)) == 256 * b
  {
    SixteenBits();
    ValueSplit(BitsOf(b, 8), Clear(8));
    ByteValue(b);
    ClearValue(8);
  }

  lemma SixteenBits()
    ensures Pow2(8) == 256 && Pow2(15) == 0x8000 && Pow2(16) == 0x10000
  {
    assert Pow2(4) == 16;
    assert Pow2(8) == 256;
    assert Pow2(12) == 4096;
  }

  lemma {:induction false} ValueSplit(a: seq<bool>, b: seq<bool>)
    ensures ValueOf(a + b) == ValueOf(a) * Pow2(|b|) + ValueOf(b)
  {
    if b == [] {
      assert a + b == a;
    } else {
      var n := |b| - 1;
      ValueSplit(a, b[..n]);
      assert (a + b)[..|a + b| - 1] == a + b[..n];
      assert ValueOf(a) * Pow2(|b|) == 2 * (ValueOf(a) * Pow2(n));
    }
  }

  lemma {:induction false} ClearValue(n: nat)
    ensures ValueOf(Clear(n)) == 0
  {
    if n > 0 {
      ClearValue(n - 1);
      assert Clear(n)[..n - 1] == Clear(n - 1);
    }
  }

  lemma PolyValue()
    ensures ValueOf(POLY) == 0x1021
  {
    assert POLY == [F, F, F, T] + [F, F, F, F] + [F, F, T, F] + [F, F, F, T];
    ValueSplit([F, F, F, T] + [F, F, F, F] + [F, F, T, F], [F, F, F, T]);
    ValueSplit([F, F, F, T] + [F, F, F, F], [F, F, T, F]);
    ValueSplit([F, F, F, T], [F, F, F, F]);
    Nibble(F, F, F, T);
    Nibble(F, F, F, F);
    Nibble(F, F, T, F);
    assert Pow2(4) == 16;
  }

  lemma Nibble(a: bool, b: bool, c: bool, d: bool)
    ensures ValueOf([a, b, c, d]) ==
      (if a then 8 else 0) + (if b then 4 else 0) + (if c then 2 else 0) + (if d then 1 else 0)
  {
    Single(a);
    assert [a, b][..1] == [a];
    assert [a, b, c][..2] == [a, b];
    assert ValueOf([a, b, c]) == 2 * ValueOf([a, b]) + if c then 1 else 0;
    assert [a, b, c, d][..3] == [a, b, c];
  }

  // ---------------------------------------------------------------- the same sum, bit by bit

  /** The byte loop absorbs the eight bits of a byte, the most significant first. */
  lemma {:induction false} AbsorbIsSerial(crc: Reg, b: Byte)
    ensures Absorb(crc, b) == REGISTER.Serial(crc, BitsOf(b, 8))
  {
    var bits := BitsOf(b, 8);
    ShortWord(bits);
    SerialWord(crc, bits);
    var w := REGISTER.Word(bits);
    ShortWordMoves(w, 8);
    assert REGISTER.Iter(w, 8) == HighByte(b);
    IterAdd(REGISTER, w, 8, 8);
    IterXor(crc, HighByte(b), 8);
  }

  lemma {:induction false} ByteBitsAppend(front: seq<Byte>, b: Byte)
    ensures ByteBits(front + [b]) == ByteBits(front) + BitsOf(b, 8)
  {
    if front == [] {
      assert front + [b] == [b] && [b][1..] == [];
    } else {
      ByteBitsAppend(front[1..], b);
      assert (front + [b])[1..] == front[1..] + [b];
    }
  }

  lemma {:induction false} CrcIsSerial(data: seq<Byte>)
    ensures Crc(data) == REGISTER.Serial(ZERO, ByteBits(data))
  {
    if data != [] {
      var front, b := data[..|data| - 1], data[|data| - 1];
      CrcIsSerial(front);
      AbsorbIsSerial(Crc(front), b);
      ByteBitsAppend(front, b);
      assert front + [b] == data;
      SerialConcat(REGISTER, ZERO, ByteBits(front), BitsOf(b, 8));
    }
  }

  // ---------------------------------------------------------------- what it detects

  lemma {:induction false} ByteBitsInjective(a: seq<Byte>, b: seq<Byte>)
    requires ByteBits(a) == ByteBits(b)
    ensures a == b
  {
    BytesRoundTrip(a, []);
    BytesRoundTrip(b, []);
    assert ByteBits(a) + [] == ByteBits(b) + [];
  }

  /** Two different messages of the same length whose differences lie within any sixteen
      consecutive bits have different checksums. */
  lemma {:induction false} BurstChangesCrc(a: seq<Byte>, b: seq<Byte>, from: nat, to: nat)
    requires |a| == |b| && a != b && from <= to <= 8 * |a| && to - from <= 16
    requires forall k | 0 <= k < 8 * |a| && !(from <= k < to) :: ByteBits(a)[k] == ByteBits(b)[k]
    ensures Crc(a) != Crc(b)
  {
    CrcIsSerial(a);
    CrcIsSerial(b);
    if ByteBits(a) == ByteBits(b) {
      ByteBitsInjective(a, b);
    }
    BurstDetected(ByteBits(a), ByteBits(b), from, to);
  }

  /** The checksum is the one word that makes message and checksum together a multiple of
      x^16 + x^12 + x^5 + 1. */
  lemma CrcIsPolynomialRemainder(data: seq<Byte>, r: Reg)
    ensures (exists q :: |q| == 8 * |data| && Product(q) == ByteBits(data) + r) <==> r == Crc(data)
  {
    var bits := ByteBits(data);
    CrcIsSerial(data);
    CodewordIsMultiple(bits);
    assert |Quotient(bits)| == 8 * |data|;
    if q :| |q| == 8 * |data| && Product(q) == bits + r {
      OnlyRemainder(bits, q, r);
    }
  }
}
