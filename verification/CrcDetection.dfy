/** What the CRC-8 detects. Bits are taken in the order the CRC processes them, most significant bit
    of each byte first; polynomials over GF(2) are bit sequences with the highest degree first. */
module CrcDetection {
  import opened Octets
  import opened Crc8

  // ----- bits -----

  function MsbBits(o: Octet): (r: seq<bool>)
    ensures |r| == 8
    ensures r[0] == o.b7 && r[1] == o.b6 && r[2] == o.b5 && r[3] == o.b4
    ensures r[4] == o.b3 && r[5] == o.b2 && r[6] == o.b1 && r[7] == o.b0
  {
    [o.b7, o.b6, o.b5, o.b4, o.b3, o.b2, o.b1, o.b0]
  }

  function Bits(data: seq<Octet>): (r: seq<bool>)
    ensures |r| == 8 * |data|
  {
    if |data| == 0 then [] else Bits(data[..|data| - 1]) + MsbBits(data[|data| - 1])
  }

  function Zeros(n: nat): seq<bool> { seq(n, _ => false) }

  predicate NoneSet(bits: seq<bool>) {
    forall t :: 0 <= t < |bits| ==> !bits[t]
  }

  /** The number of one bits. */
  function Weight(bits: seq<bool>): nat {
    if |bits| == 0 then 0
    else Weight(bits[..|bits| - 1]) + if bits[|bits| - 1] then 1 else 0
  }

  lemma {:induction false} WeightConcat(a: seq<bool>, b: seq<bool>)
    ensures Weight(a + b) == Weight(a) + Weight(b)
  {
    if b == [] {
      assert a + b == a;
    } else {
      WeightConcat(a, b[..|b| - 1]);
      assert (a + b)[..|a + b| - 1] == a + b[..|b| - 1];
    }
  }

  // ----- the CRC register, one bit at a time -----

  function ShiftIn(c: Octet, bit: bool): Octet {
    TimesX(c.(b7 := c.b7 != bit))
  }

  function Register(bits: seq<bool>): Octet {
    if |bits| == 0 then ZERO
    else ShiftIn(Register(bits[..|bits| - 1]), bits[|bits| - 1])
  }

  lemma ShiftInBits(c: Octet, bit: bool)
    ensures ShiftIn(c, bit)
         == Octet(c.b6, c.b5, c.b4, c.b3, c.b2, c.b1 != (c.b7 != bit), c.b0 != (c.b7 != bit), c.b7 != bit)
  {
    TimesXBits(c.(b7 := c.b7 != bit));
  }

  lemma ShiftInSplits(c: Octet, e: Octet)
    ensures TimesX(c.Xor(e)) == ShiftIn(c, e.b7).Xor(e.ShiftLeft())
  {
    TimesXBits(c.Xor(e));
    ShiftInBits(c, e.b7);
  }

  lemma ShiftLeftBits(e: Octet)
    ensures MsbBits(e.ShiftLeft()) == MsbBits(e)[1..] + [false]
  {
  }

  /** Feeding the leading bits of a byte whose other bits are zero. */
  lemma {:induction false} FeedBits(bits: seq<bool>, e: Octet, lead: seq<bool>)
    requires |lead| <= 8 && MsbBits(e) == lead + Zeros(8 - |lead|)
    ensures TimesXPow(|lead|, Register(bits).Xor(e)) == Register(bits + lead)
    decreases |lead|
  {
    if |lead| == 0 {
      FeedNothing(bits, e);
      assert bits + lead == bits;
    } else {
      LeadStep(e, lead);
      FeedBits(bits + [lead[0]], e.ShiftLeft(), lead[1..]);
      assert bits + [lead[0]] + lead[1..] == bits + lead;
      FeedOne(bits, e);
      TimesXPowAdd(|lead| - 1, 1, Register(bits).Xor(e));
    }
  }

  lemma FeedNothing(bits: seq<bool>, e: Octet)
    requires MsbBits(e) == [] + Zeros(8)
    ensures TimesXPow(0, Register(bits).Xor(e)) == Register(bits)
  {
    MsbBitsInjective(e, ZERO);
    XorUnchanged(ZERO, Register(bits));
  }

  lemma LeadStep(e: Octet, lead: seq<bool>)
    requires 0 < |lead| <= 8 && MsbBits(e) == lead + Zeros(8 - |lead|)
    ensures MsbBits(e.ShiftLeft()) == lead[1..] + Zeros(8 - |lead[1..]|)
    ensures e.b7 == lead[0]
  {
    ShiftLeftBits(e);
    assert MsbBits(e)[1..] + [false] == lead[1..] + Zeros(8 - |lead[1..]|);
  }

  lemma FeedOne(bits: seq<bool>, e: Octet)
    ensures TimesXPow(1, Register(bits).Xor(e)) == Register(bits + [e.b7]).Xor(e.ShiftLeft())
  {
    assert (bits + [e.b7])[..|bits|] == bits;
    ShiftInSplits(Register(bits), e);
    var c := Register(bits).Xor(e);
    assert TimesXPow(1, c) == TimesX(TimesXPow(0, c));
  }

  lemma FeedByte(bits: seq<bool>, e: Octet)
    ensures TimesXPow(8, Register(bits).Xor(e)) == Register(bits + MsbBits(e))
  {
    assert MsbBits(e) == MsbBits(e) + Zeros(0);
    FeedBits(bits, e, MsbBits(e));
  }

  lemma MsbBitsInjective(a: Octet, b: Octet)
    requires MsbBits(a) == MsbBits(b)
    ensures a == b
  {
  }

  /** The bit-serial register computes the byte-wise CRC. */
  lemma {:induction false} RegisterIsCrc(data: seq<Octet>)
    ensures Register(Bits(data)) == Crc(data)
  {
    if |data| > 0 {
      var n := |data| - 1;
      RegisterIsCrc(data[..n]);
      FeedByte(Bits(data[..n]), data[n]);
    }
  }

  // ----- the CRC is the remainder of a polynomial division -----

  /** The coefficients of x^8 + x^2 + x + 1. */
  predicate Generator(i: int) { i == 0 || 6 <= i <= 8 }

  /** Coefficient `i` of the product of the polynomial `q` and the generator. */
  predicate ProductBit(q: seq<bool>, i: int) {
    if |q| == 0 then false
    else
      var n := |q| - 1;
      (i < n + 8 && ProductBit(q[..n], i)) != (q[n] && Generator(i - n))
  }

  function TimesGenerator(q: seq<bool>): (r: seq<bool>)
    ensures |r| == |q| + 8
  {
    seq(|q| + 8, i => ProductBit(q, i))
  }

  function Add(a: seq<bool>, b: seq<bool>): (r: seq<bool>)
    requires |a| == |b|
    ensures |r| == |a|
  {
    seq(|a|, i requires 0 <= i < |a| => a[i] != b[i])
  }

  /** `message * x^8 == q * generator + r` with `r` of degree below 8. */
  predicate Divides(message: seq<bool>, q: seq<bool>, r: seq<bool>) {
    |q| == |message| && |r| == 8
    && message + Zeros(8) == Add(TimesGenerator(q), Zeros(|message|) + r)
  }

  /** The feedback bits of the register. */
  function Quotient(bits: seq<bool>): (q: seq<bool>)
    ensures |q| == |bits|
  {
    if |bits| == 0 then []
    else
      var n := |bits| - 1;
      Quotient(bits[..n]) + [Register(bits[..n]).b7 != bits[n]]
  }

  lemma {:induction false} RegisterIsRemainder(bits: seq<bool>)
    ensures Divides(bits, Quotient(bits), MsbBits(Register(bits)))
  {
    if |bits| == 0 {
      assert bits + Zeros(8) == Add(TimesGenerator([]), Zeros(0) + MsbBits(ZERO));
    } else {
      var n := |bits| - 1;
      RegisterIsRemainder(bits[..n]);
      var c := Register(bits[..n]);
      NextRowOfRegister(c, bits[n]);
      DivisionStep(bits, Quotient(bits[..n]) + [c.b7 != bits[n]], MsbBits(c), MsbBits(ShiftIn(c, bits[n])));
    }
  }

  /** The next row of the long division: the old remainder, shifted, combined with the new message
      bit and, when the feedback bit is set, with the generator. */
  predicate NextRow(bit: bool, feedback: bool, r: seq<bool>, r': seq<bool>)
    requires |r| == 8 && |r'| == 8
  {
    && bit == (r[0] != feedback)
    && r'[0] == r[1] && r'[1] == r[2] && r'[2] == r[3] && r'[3] == r[4] && r'[4] == r[5]
    && r'[5] == (r[6] != feedback) && r'[6] == (r[7] != feedback) && r'[7] == feedback
  }

  /** The register after one more bit is the next row. */
  lemma NextRowOfRegister(c: Octet, bit: bool)
    ensures NextRow(bit, c.b7 != bit, MsbBits(c), MsbBits(ShiftIn(c, bit)))
  {
    ShiftInBits(c, bit);
    NextRowOfBits(c, ShiftIn(c, bit), bit);
  }

  lemma NextRowOfBits(c: Octet, c': Octet, bit: bool)
    requires c' == Octet(c.b6, c.b5, c.b4, c.b3, c.b2, c.b1 != (c.b7 != bit), c.b0 != (c.b7 != bit), c.b7 != bit)
    ensures NextRow(bit, c.b7 != bit, MsbBits(c), MsbBits(c'))
  {
  }

  /** One subtraction of the long division. */
  lemma DivisionStep(m: seq<bool>, q: seq<bool>, r: seq<bool>, r': seq<bool>)
    requires |m| == |q| > 0 && |r| == |r'| == 8
    requires Divides(m[..|m| - 1], q[..|m| - 1], r)
    requires NextRow(m[|m| - 1], q[|m| - 1], r, r')
    ensures Divides(m, q, r')
  {
    forall i | 0 <= i < |m| + 8
      ensures (m + Zeros(8))[i] == Add(TimesGenerator(q), Zeros(|m|) + r')[i]
    {
      DivisionStepAt(m, q, r, r', i);
    }
  }

  lemma DivisionStepAt(m: seq<bool>, q: seq<bool>, r: seq<bool>, r': seq<bool>, i: nat)
    requires |m| == |q| > 0 && |r| == |r'| == 8 && i < |m| + 8
    requires Divides(m[..|m| - 1], q[..|m| - 1], r)
    requires NextRow(m[|m| - 1], q[|m| - 1], r, r')
    ensures (m + Zeros(8))[i] == Add(TimesGenerator(q), Zeros(|m|) + r')[i]
  {
    var n := |m| - 1;
    ProductStep(q, i);
    Padded(m, r', i);
    if i < n + 8 {
      Padded(m[..n], r, i);
      assert (m[..n] + Zeros(8))[i] == Add(TimesGenerator(q[..n]), Zeros(n) + r)[i];
    }
    if i >= n {
      NextRowAt(m[n], q[n], r, r', i - n);
    }
  }

  lemma NextRowAt(bit: bool, feedback: bool, r: seq<bool>, r': seq<bool>, j: nat)
    requires |r| == 8 && |r'| == 8 && j < 9 && NextRow(bit, feedback, r, r')
    ensures (j == 0 && bit) == (((j < 8 && r[j]) != (feedback && Generator(j))) != (j > 0 && r'[j - 1]))
  {
  }

  lemma ProductStep(q: seq<bool>, i: nat)
    requires |q| > 0 && i < |q| + 8
    ensures TimesGenerator(q)[i]
         == ((i < |q| + 7 && TimesGenerator(q[..|q| - 1])[i]) != (q[|q| - 1] && Generator(i - (|q| - 1))))
  {
  }

  /** The two padded sequences of a division, coefficient by coefficient. */
  lemma Padded(message: seq<bool>, r: seq<bool>, i: nat)
    requires |r| == 8 && i < |message| + 8
    ensures (message + Zeros(8))[i] == (i < |message| && message[i])
    ensures (Zeros(|message|) + r)[i] == (i >= |message| && r[i - |message|])
  {
  }

  /** Quotient and remainder are determined by the message. */
  lemma {:induction false} DivisionIsUnique(message: seq<bool>, q1: seq<bool>, r1: seq<bool>, q2: seq<bool>,
                                            r2: seq<bool>)
    requires Divides(message, q1, r1) && Divides(message, q2, r2)
    ensures q1 == q2 && r1 == r2
  {
    var n := |message|;
    var p1, p2 := TimesGenerator(q1), TimesGenerator(q2);
    forall i | 0 <= i < n
      ensures p1[i] == p2[i]
    {
      assert (message + Zeros(8))[i] == (p1[i] != (Zeros(n) + r1)[i]);
      assert (message + Zeros(8))[i] == (p2[i] != (Zeros(n) + r2)[i]);
    }
    ProductDeterminesFactor(q1, q2);
    forall i | 0 <= i < 8
      ensures r1[i] == r2[i]
    {
      assert (message + Zeros(8))[n + i] == (p1[n + i] != (Zeros(n) + r1)[n + i]);
      assert (message + Zeros(8))[n + i] == (p2[n + i] != (Zeros(n) + r2)[n + i]);
    }
  }

  lemma {:induction false} ProductDeterminesFactor(q1: seq<bool>, q2: seq<bool>)
    requires |q1| == |q2|
    requires forall i :: 0 <= i < |q1| ==> TimesGenerator(q1)[i] == TimesGenerator(q2)[i]
    ensures q1 == q2
  {
    if |q1| > 0 {
      var n := |q1| - 1;
      forall i | 0 <= i < n
        ensures TimesGenerator(q1[..n])[i] == TimesGenerator(q2[..n])[i]
      {
        ProductStep(q1, i);
        ProductStep(q2, i);
      }
      ProductDeterminesFactor(q1[..n], q2[..n]);
      ProductStep(q1, n);
      ProductStep(q2, n);
      assert q1 == q1[..n] + [q1[n]] && q2 == q2[..n] + [q2[n]];
    }
  }

  /** `Crc` is the remainder of dividing the message by the generator, and nothing else is. */
  lemma CrcIsRemainder(data: seq<Octet>, r: Octet)
    ensures r == Crc(data) <==> exists q :: Divides(Bits(data), q, MsbBits(r))
  {
    RegisterIsRemainder(Bits(data));
    RegisterIsCrc(data);
    if q :| Divides(Bits(data), q, MsbBits(r)) {
      DivisionIsUnique(Bits(data), q, MsbBits(r), Quotient(Bits(data)), MsbBits(Crc(data)));
      MsbBitsInjective(r, Crc(data));
    }
  }

  // ----- odd numbers of flipped bits -----

  function Parity(c: Octet): bool {
    c.b7 != (c.b6 != (c.b5 != (c.b4 != (c.b3 != (c.b2 != (c.b1 != c.b0))))))
  }

  /** The generator has the factor x + 1, so the register keeps the parity of the bits fed to it. */
  lemma {:induction false} RegisterKeepsParity(bits: seq<bool>)
    ensures Parity(Register(bits)) <==> Weight(bits) % 2 == 1
  {
    if |bits| > 0 {
      var n := |bits| - 1;
      RegisterKeepsParity(bits[..n]);
      ParityOfShift(Register(bits[..n]), bits[n]);
      assert Weight(bits) == Weight(bits[..n]) + if bits[n] then 1 else 0;
    }
  }

  lemma ParityOfShift(c: Octet, bit: bool)
    ensures Parity(ShiftIn(c, bit)) == (Parity(c) != bit)
  {
    ShiftInBits(c, bit);
  }

  // ----- two flipped bits: the order of x is 127 -----

  /** x^n == x^a + x^b + x^d as operators on the register. */
  ghost predicate Trinomial(n: nat, a: nat, b: nat, d: nat) {
    forall c: Octet :: TimesXPow(n, c) == TimesXPow(a, c).Xor(TimesXPow(b, c)).Xor(TimesXPow(d, c))
  }

  lemma GeneratorRelation()
    ensures Trinomial(8, 2, 1, 0)
  {
    forall c: Octet
      ensures TimesXPow(8, c) == TimesXPow(2, c).Xor(TimesXPow(1, c)).Xor(TimesXPow(0, c))
    {
      GeneratorRelationAt(c);
    }
  }

  lemma GeneratorRelationAt(c: Octet)
    ensures TimesXPow(8, c) == TimesXPow(2, c).Xor(TimesXPow(1, c)).Xor(TimesXPow(0, c))
  {
    EightSteps(c);
    TwoSteps(c);
    OneStep(c);
    FoldedBits(c);
  }

  lemma EightSteps(c: Octet)
    ensures TimesXPow(8, c) == AfterFour(AfterFour(c))
  {
    TimesXPowAdd(4, 4, c);
    FourSteps(c);
    FourSteps(TimesXPow(4, c));
  }

  lemma OneStep(c: Octet)
    ensures TimesXPow(1, c) == AfterOne(c) && TimesXPow(0, c) == c
  {
    TimesXBits(c);
  }

  /** FourSteps twice against the sum of two, one and no steps. */
  lemma FoldedBits(c: Octet)
    ensures AfterFour(AfterFour(c)) == AfterTwo(c).Xor(AfterOne(c)).Xor(c)
  {
    var d := AfterFour(c);
    assert d.b7 == c.b3 && d.b6 == c.b2;
  }

  function AfterOne(c: Octet): Octet {
    Octet(c.b6, c.b5, c.b4, c.b3, c.b2, c.b1 != c.b7, c.b0 != c.b7, c.b7)
  }

  function AfterTwo(c: Octet): Octet {
    Octet(c.b5, c.b4, c.b3, c.b2, c.b1 != c.b7, (c.b0 != c.b7) != c.b6, c.b7 != c.b6, c.b6)
  }

  function AfterFour(c: Octet): Octet {
    Octet(c.b3, c.b2, c.b1 != c.b7, (c.b0 != c.b6) != c.b7,
          (c.b5 != c.b6) != c.b7, (c.b4 != c.b5) != c.b6, c.b4 != c.b5, c.b4)
  }

  lemma FourSteps(c: Octet)
    ensures TimesXPow(4, c) == AfterFour(c)
  {
    TwoSteps(c);
    TwoSteps(TimesXPow(2, c));
    TimesXPowAdd(2, 2, c);
  }

  lemma TwoSteps(c: Octet)
    ensures TimesXPow(2, c) == AfterTwo(c)
  {
    TimesXBits(c);
    TimesXBits(TimesX(c));
    assert TimesXPow(1, c) == TimesX(c);
  }

  /** Squaring a sum over GF(2) squares its terms. */
  lemma Squared(n: nat, a: nat, b: nat, d: nat)
    requires Trinomial(n, a, b, d)
    ensures Trinomial(2 * n, 2 * a, 2 * b, 2 * d)
  {
    forall c: Octet
      ensures TimesXPow(2 * n, c) == TimesXPow(2 * a, c).Xor(TimesXPow(2 * b, c)).Xor(TimesXPow(2 * d, c))
    {
      SquareExpands(n, a, b, d, c);
      SquareFolds(a, b, d, c);
    }
  }

  /** The sum applied to each of its own terms. */
  function SquareOf(a: nat, b: nat, d: nat, c: Octet): Octet {
    var ca, cb, cd := TimesXPow(a, c), TimesXPow(b, c), TimesXPow(d, c);
    TimesXPow(a, ca).Xor(TimesXPow(b, ca)).Xor(TimesXPow(d, ca))
    .Xor(TimesXPow(a, cb).Xor(TimesXPow(b, cb)).Xor(TimesXPow(d, cb)))
    .Xor(TimesXPow(a, cd).Xor(TimesXPow(b, cd)).Xor(TimesXPow(d, cd)))
  }

  lemma SquareExpands(n: nat, a: nat, b: nat, d: nat, c: Octet)
    requires Trinomial(n, a, b, d)
    ensures TimesXPow(2 * n, c) == SquareOf(a, b, d, c)
  {
    var ca, cb, cd := TimesXPow(a, c), TimesXPow(b, c), TimesXPow(d, c);
    TimesXPowAdd(n, n, c);
    TimesXPowLinear(n, ca.Xor(cb), cd);
    TimesXPowLinear(n, ca, cb);
  }

  lemma SquareFolds(a: nat, b: nat, d: nat, c: Octet)
    ensures SquareOf(a, b, d, c) == TimesXPow(2 * a, c).Xor(TimesXPow(2 * b, c)).Xor(TimesXPow(2 * d, c))
  {
    var ca, cb, cd := TimesXPow(a, c), TimesXPow(b, c), TimesXPow(d, c);
    TimesXPowAdd(a, a, c);
    TimesXPowAdd(b, b, c);
    TimesXPowAdd(d, d, c);
    Commute(a, b, c);
    Commute(a, d, c);
    Commute(b, d, c);
    SquareCancels(TimesXPow(a, ca), TimesXPow(b, cb), TimesXPow(d, cd),
                  TimesXPow(a, cb), TimesXPow(a, cd), TimesXPow(b, cd));
  }

  lemma Commute(m: nat, n: nat, c: Octet)
    ensures TimesXPow(m, TimesXPow(n, c)) == TimesXPow(n, TimesXPow(m, c))
  {
    TimesXPowAdd(m, n, c);
    TimesXPowAdd(n, m, c);
  }

  lemma SquareCancels(aa: Octet, bb: Octet, dd: Octet, ab: Octet, ad: Octet, bd: Octet)
    ensures aa.Xor(ab).Xor(ad).Xor(ab.Xor(bb).Xor(bd)).Xor(ad.Xor(bd).Xor(dd)) == aa.Xor(bb).Xor(dd)
  {
    SquareCancelsBit(aa.b7, bb.b7, dd.b7, ab.b7, ad.b7, bd.b7);
    SquareCancelsBit(aa.b6, bb.b6, dd.b6, ab.b6, ad.b6, bd.b6);
    SquareCancelsBit(aa.b5, bb.b5, dd.b5, ab.b5, ad.b5, bd.b5);
    SquareCancelsBit(aa.b4, bb.b4, dd.b4, ab.b4, ad.b4, bd.b4);
    SquareCancelsBit(aa.b3, bb.b3, dd.b3, ab.b3, ad.b3, bd.b3);
    SquareCancelsBit(aa.b2, bb.b2, dd.b2, ab.b2, ad.b2, bd.b2);
    SquareCancelsBit(aa.b1, bb.b1, dd.b1, ab.b1, ad.b1, bd.b1);
    SquareCancelsBit(aa.b0, bb.b0, dd.b0, ab.b0, ad.b0, bd.b0);
  }

  lemma SquareCancelsBit(aa: bool, bb: bool, dd: bool, ab: bool, ad: bool, bd: bool)
    ensures ((((aa != ab) != ad) != ((ab != bb) != bd)) != ((ad != bd) != dd)) == ((aa != bb) != dd)
  {
  }

  /** x^16 = x^4 + x^2 + 1, x^32 = x^4 + x^2 + x, x^64 = x^4 + x + 1. */
  lemma PowersOfTwo()
    ensures Trinomial(8, 2, 1, 0) && Trinomial(128, 8, 2, 0)
  {
    GeneratorRelation();
    Squared(8, 2, 1, 0);
    Squared(16, 4, 2, 0);
    ReplaceX8(32, 4, 0, 4, 2, 1);
    Squared(32, 4, 2, 1);
    ReplaceX8(64, 4, 2, 4, 1, 0);
    Squared(64, 4, 1, 0);
  }

  /** Hence x^128 = x. */
  lemma OrderDivides127(c: Octet)
    ensures TimesXPow(127, c) == c
  {
    PowersOfTwo();
    assert TimesXPow(128, c) == TimesXPow(8, c).Xor(TimesXPow(2, c)).Xor(TimesXPow(0, c));
    CancelTwo(TimesXPow(2, c), TimesXPow(1, c), TimesXPow(0, c));
    LastStep(c);
  }

  lemma LastStep(c: Octet)
    requires TimesXPow(128, c) == TimesXPow(1, c)
    ensures TimesXPow(127, c) == c
  {
    assert TimesXPow(1, c) == TimesX(TimesXPow(0, c));
    TimesXInjective(TimesXPow(127, c), c);
  }

  lemma CancelTwo(p: Octet, q: Octet, r: Octet)
    ensures p.Xor(q).Xor(r).Xor(p).Xor(r) == q
  {
  }

  /** Rewrites x^8 as x^2 + x + 1 in a sum where it meets one of its own terms. */
  lemma ReplaceX8(n: nat, a: nat, b: nat, a': nat, b': nat, d': nat)
    requires Trinomial(8, 2, 1, 0) && Trinomial(n, 8, a, b)
    requires a == a' == 4 && ((b == 0 && b' == 2 && d' == 1) || (b == 2 && b' == 1 && d' == 0))
    ensures Trinomial(n, a', b', d')
  {
    forall c: Octet
      ensures TimesXPow(n, c) == TimesXPow(a', c).Xor(TimesXPow(b', c)).Xor(TimesXPow(d', c))
    {
      assert TimesXPow(n, c) == TimesXPow(8, c).Xor(TimesXPow(a, c)).Xor(TimesXPow(b, c));
      assert TimesXPow(8, c) == TimesXPow(2, c).Xor(TimesXPow(1, c)).Xor(TimesXPow(0, c));
      CancelOne(TimesXPow(2, c), TimesXPow(1, c), TimesXPow(0, c), TimesXPow(4, c));
    }
  }

  lemma CancelOne(p: Octet, q: Octet, r: Octet, s: Octet)
    ensures p.Xor(q).Xor(r).Xor(s).Xor(r) == s.Xor(p).Xor(q)
    ensures p.Xor(q).Xor(r).Xor(s).Xor(p) == s.Xor(q).Xor(r)
  {
    CancelOneBit(p.b7, q.b7, r.b7, s.b7);
    CancelOneBit(p.b6, q.b6, r.b6, s.b6);
    CancelOneBit(p.b5, q.b5, r.b5, s.b5);
    CancelOneBit(p.b4, q.b4, r.b4, s.b4);
    CancelOneBit(p.b3, q.b3, r.b3, s.b3);
    CancelOneBit(p.b2, q.b2, r.b2, s.b2);
    CancelOneBit(p.b1, q.b1, r.b1, s.b1);
    CancelOneBit(p.b0, q.b0, r.b0, s.b0);
  }

  lemma CancelOneBit(p: bool, q: bool, r: bool, s: bool)
    ensures ((((p != q) != r) != s) != r) == ((s != p) != q)
    ensures ((((p != q) != r) != s) != p) == ((s != q) != r)
  {
  }

  lemma {:induction false} Multiples(k: nat, d: nat, c: Octet)
    requires TimesXPow(d, c) == c
    ensures TimesXPow(k * d, c) == c
  {
    if k > 0 {
      Multiples(k - 1, d, c);
      assert k * d == d + (k - 1) * d;
      TimesXPowAdd(d, (k - 1) * d, c);
    }
  }

  lemma ReduceExponent(n: nat, d: nat, c: Octet)
    requires d > 0 && TimesXPow(d, c) == c
    ensures TimesXPow(n, c) == TimesXPow(n % d, c)
  {
    Multiples(n / d, d, c);
    assert n == n % d + n / d * d;
    TimesXPowAdd(n % d, n / d * d, c);
  }

  /** No smaller power of x acts trivially: 127 is prime, so a smaller period would descend to 1. */
  lemma {:induction false} NoShorterPeriod(d: nat)
    requires 0 < d < 127
    ensures TimesXPow(d, POLY) != POLY
    decreases d
  {
    if d == 1 {
      assert TimesXPow(1, POLY) == TimesX(POLY) != POLY;
    } else if TimesXPow(d, POLY) == POLY {
      OrderDivides127(POLY);
      ReduceExponent(127, d, POLY);
      NotAMultiple(d);
      NoShorterPeriod(127 % d);
    }
  }

  lemma NotAMultiple(d: nat)
    requires 1 < d < 127
    ensures 0 < 127 % d < d
  {
  }

  lemma PeriodIs127(d: nat)
    ensures TimesXPow(d, POLY) == POLY <==> d % 127 == 0
  {
    OrderDivides127(POLY);
    ReduceExponent(d, 127, POLY);
    if d % 127 != 0 {
      NoShorterPeriod(d % 127);
    }
  }

  lemma {:induction false} RegisterOfZeros(bits: seq<bool>)
    requires NoneSet(bits)
    ensures Register(bits) == ZERO
  {
    if |bits| > 0 {
      RegisterOfZeros(bits[..|bits| - 1]);
    }
  }

  lemma {:induction false} RegisterOfOne(bits: seq<bool>, i: nat)
    requires i < |bits|
    requires forall t :: 0 <= t < |bits| ==> (bits[t] <==> t == i)
    ensures Register(bits) == TimesXPow(|bits| - 1 - i, POLY)
  {
    var n := |bits| - 1;
    if i == n {
      RegisterOfZeros(bits[..n]);
      ShiftInBits(ZERO, true);
    } else {
      RegisterOfOne(bits[..n], i);
      ShiftInZero(Register(bits[..n]));
    }
  }

  lemma ShiftInZero(c: Octet)
    ensures ShiftIn(c, false) == TimesX(c)
    ensures ShiftIn(c, true) == TimesX(c).Xor(POLY)
  {
    ShiftInBits(c, false);
    ShiftInBits(c, true);
    TimesXBits(c);
  }

  /** Two flipped bits cancel exactly when their distance is a multiple of the period. */
  lemma {:induction false} RegisterOfTwo(bits: seq<bool>, i: nat, j: nat)
    requires i < j < |bits|
    requires forall t :: 0 <= t < |bits| ==> (bits[t] <==> t == i || t == j)
    ensures Register(bits) == ZERO <==> (j - i) % 127 == 0
  {
    var n := |bits| - 1;
    if j == n {
      RegisterOfOne(bits[..n], i);
      ShiftInZero(Register(bits[..n]));
      PeriodIs127(j - i);
      XorZero(TimesXPow(j - i, POLY), POLY);
    } else {
      RegisterOfTwo(bits[..n], i, j);
      ShiftInZero(Register(bits[..n]));
      TimesXInjective(Register(bits[..n]), ZERO);
    }
  }

  lemma {:induction false} WeightZero(bits: seq<bool>)
    requires Weight(bits) == 0
    ensures NoneSet(bits)
  {
    if |bits| > 0 {
      WeightZero(bits[..|bits| - 1]);
    }
  }

  lemma {:induction false} WeightOne(bits: seq<bool>) returns (i: nat)
    requires Weight(bits) == 1
    ensures i < |bits| && forall t :: 0 <= t < |bits| ==> (bits[t] <==> t == i)
  {
    var n := |bits| - 1;
    if bits[n] {
      WeightZero(bits[..n]);
      i := n;
    } else {
      i := WeightOne(bits[..n]);
    }
  }

  lemma {:induction false} WeightTwo(bits: seq<bool>) returns (i: nat, j: nat)
    requires Weight(bits) == 2
    ensures i < j < |bits| && forall t :: 0 <= t < |bits| ==> (bits[t] <==> t == i || t == j)
  {
    var n := |bits| - 1;
    if bits[n] {
      i := WeightOne(bits[..n]);
      j := n;
    } else {
      i, j := WeightTwo(bits[..n]);
    }
  }

  // ----- bursts -----

  lemma ZeroBits(e: Octet)
    ensures e == ZERO <==> NoneSet(MsbBits(e))
  {
    if NoneSet(MsbBits(e)) {
      assert !MsbBits(e)[0] && !MsbBits(e)[1] && !MsbBits(e)[2] && !MsbBits(e)[3];
      assert !MsbBits(e)[4] && !MsbBits(e)[5] && !MsbBits(e)[6] && !MsbBits(e)[7];
    }
  }

  lemma XorUnchanged(a: Octet, e: Octet)
    ensures a.Xor(e) == a <==> e == ZERO
    ensures ZERO.Xor(e) == e == e.Xor(ZERO)
  {
  }

  /** Eight bits that are not all zero leave a non-zero register behind. */
  lemma RegisterOfByte(bits: seq<bool>, e: Octet)
    requires NoneSet(bits)
    ensures Register(bits + MsbBits(e)) == ZERO <==> e == ZERO
  {
    RegisterOfZeros(bits);
    FeedByte(bits, e);
    XorUnchanged(ZERO, e);
    TimesXPowZero(8, e);
  }

  /** Zero bits after a burst do not clear the register. */
  lemma {:induction false} RegisterOfTail(bits: seq<bool>, k: nat)
    requires k <= |bits|
    requires forall t :: k <= t < |bits| ==> !bits[t]
    ensures Register(bits) == ZERO <==> Register(bits[..k]) == ZERO
  {
    if k == |bits| {
      assert bits[..k] == bits;
    } else {
      var n := |bits| - 1;
      RegisterOfTail(bits[..n], k);
      assert bits[..n][..k] == bits[..k];
      ShiftInZero(Register(bits[..n]));
      TimesXInjective(Register(bits[..n]), ZERO);
    }
  }

  /** Every one bit lies in the eight bits starting at `from`. */
  predicate WithinBurst(bits: seq<bool>, from: nat) {
    from + 8 <= |bits| && forall t :: 0 <= t < |bits| && bits[t] ==> from <= t < from + 8
  }

  lemma RegisterOfBurst(bits: seq<bool>, from: nat)
    requires WithinBurst(bits, from)
    ensures Register(bits) == ZERO <==> NoneSet(bits)
  {
    var e := Octet(bits[from], bits[from + 1], bits[from + 2], bits[from + 3],
                   bits[from + 4], bits[from + 5], bits[from + 6], bits[from + 7]);
    RegisterOfTail(bits, from + 8);
    RegisterOfByte(bits[..from], e);
    ZeroBits(e);
    SplitBurst(bits, from, e);
    AllZero(bits[..from], MsbBits(e));
  }

  lemma SplitBurst(bits: seq<bool>, from: nat, e: Octet)
    requires WithinBurst(bits, from)
    requires e == Octet(bits[from], bits[from + 1], bits[from + 2], bits[from + 3],
                        bits[from + 4], bits[from + 5], bits[from + 6], bits[from + 7])
    ensures bits[..from + 8] == bits[..from] + MsbBits(e)
    ensures NoneSet(bits) <==> NoneSet(bits[..from] + MsbBits(e))
  {
    var low := bits[..from] + MsbBits(e);
    assert bits[..from + 8] == low;
    assert forall t :: 0 <= t < |low| ==> bits[t] == low[t];
  }

  // ----- damaged frames -----

  /** Damage goes unnoticed exactly when its own register is zero. */
  lemma DamageDecides(frame: seq<Octet>, damage: seq<Octet>)
    requires |frame| == |damage| && Crc(frame) == ZERO
    ensures Crc(XorAll(frame, damage)) == ZERO <==> Register(Bits(damage)) == ZERO
  {
    CrcIsLinear(frame, damage);
    RegisterIsCrc(damage);
    assert ZERO.Xor(Crc(damage)) == Crc(damage);
  }

  /** Any odd number of flipped bits is detected, in a frame of any length. */
  lemma DetectsOddFlips(frame: seq<Octet>, damage: seq<Octet>)
    requires |frame| == |damage| && Crc(frame) == ZERO
    requires Weight(Bits(damage)) % 2 == 1
    ensures Crc(XorAll(frame, damage)) != ZERO
  {
    DamageDecides(frame, damage);
    RegisterKeepsParity(Bits(damage));
  }

  /** Two flipped bits are missed exactly when they are a multiple of 127 bits apart. */
  lemma DetectsPairs(frame: seq<Octet>, damage: seq<Octet>, i: nat, j: nat)
    requires |frame| == |damage| && Crc(frame) == ZERO
    requires i < j < |Bits(damage)|
    requires forall t :: 0 <= t < |Bits(damage)| ==> (Bits(damage)[t] <==> t == i || t == j)
    ensures Crc(XorAll(frame, damage)) == ZERO <==> (j - i) % 127 == 0
  {
    DamageDecides(frame, damage);
    RegisterOfTwo(Bits(damage), i, j);
  }

  lemma RegisterOfLightDamage(bits: seq<bool>)
    requires |bits| <= 127 && 1 <= Weight(bits) <= 3
    ensures Register(bits) != ZERO
  {
    if Weight(bits) == 2 {
      var i, j := WeightTwo(bits);
      RegisterOfTwo(bits, i, j);
    } else {
      RegisterKeepsParity(bits);
    }
  }

  /** Minimum distance four: one, two or three flipped bits in a frame of up to 127 bits are detected. */
  lemma DetectsUpToThreeFlips(frame: seq<Octet>, damage: seq<Octet>)
    requires |frame| == |damage| && 8 * |frame| <= 127 && Crc(frame) == ZERO
    requires 1 <= Weight(Bits(damage)) <= 3
    ensures Crc(XorAll(frame, damage)) != ZERO
  {
    DamageDecides(frame, damage);
    RegisterOfLightDamage(Bits(damage));
  }

  /** Damage confined to eight consecutive bits is detected, in a frame of any length. */
  lemma DetectsBursts(frame: seq<Octet>, damage: seq<Octet>, from: nat)
    requires |frame| == |damage| && Crc(frame) == ZERO
    requires WithinBurst(Bits(damage), from)
    ensures Crc(XorAll(frame, damage)) == ZERO <==> XorAll(frame, damage) == frame
  {
    DamageDecides(frame, damage);
    RegisterOfBurst(Bits(damage), from);
    NoDamage(frame, damage);
  }

  lemma AllZero(low: seq<bool>, high: seq<bool>)
    ensures NoneSet(low + high) <==> NoneSet(low) && NoneSet(high)
  {
    assert forall t :: 0 <= t < |low| ==> low[t] == (low + high)[t];
    assert forall t :: 0 <= t < |high| ==> high[t] == (low + high)[|low| + t];
  }

  lemma {:induction false} NoDamage(frame: seq<Octet>, damage: seq<Octet>)
    requires |frame| == |damage|
    ensures XorAll(frame, damage) == frame
       <==> NoneSet(Bits(damage))
  {
    if |frame| == 0 {
      assert XorAll(frame, damage) == frame;
    } else {
      var n := |frame| - 1;
      NoDamage(frame[..n], damage[..n]);
      assert XorAll(frame, damage) == XorAll(frame[..n], damage[..n]) + [frame[n].Xor(damage[n])];
      assert frame == frame[..n] + [frame[n]];
      var low, high := Bits(damage[..n]), MsbBits(damage[n]);
      assert Bits(damage) == low + high;
      AllZero(low, high);
      assert XorAll(frame, damage)[..n] == XorAll(frame[..n], damage[..n]);
      ZeroBits(damage[n]);
      XorUnchanged(frame[n], damage[n]);
      assert XorAll(frame, damage)[n] == frame[n].Xor(damage[n]);
    }
  }
}
