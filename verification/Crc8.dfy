/** The CRC-8 of the infrared frames (polynomial 0x07, initial value 0, no final exclusive-or):
    the byte loop of the firmware, and the facts every error-detection argument starts from. */
module Crc8 {
  import opened Octets

  /** 0x07, the generator x^8 + x^2 + x + 1 without its leading term. */
  const POLY := Octet(false, false, false, false, false, true, true, true)

  /** One inner-loop iteration: multiplication by x modulo the generator. */
  function TimesX(c: Octet): Octet {
    if c.b7 then c.ShiftLeft().Xor(POLY) else c.ShiftLeft()
  }

  /** `n` multiplications by x. */
  function TimesXPow(n: nat, c: Octet): Octet {
    if n == 0 then c else TimesX(TimesXPow(n - 1, c))
  }

  /** The whole byte loop. */
  function Crc(data: seq<Octet>): Octet {
    if |data| == 0 then ZERO
    else TimesXPow(8, Crc(data[..|data| - 1]).Xor(data[|data| - 1]))
  }

  lemma NextCrc(data: seq<Octet>, i: nat)
    requires i < |data|
    ensures Crc(data[..i + 1]) == TimesXPow(8, Crc(data[..i]).Xor(data[i]))
  {
    var next := data[..i + 1];
    assert |next| == i + 1 && next[..i] == data[..i] && next[i] == data[i];
  }

  /** The inner loop: the eight bits of one byte. */
  method FeedByte(start: Octet) returns (crc: Octet)
    ensures crc == TimesXPow(8, start)
  {
    crc := start;
    var j := 0;
    while j < 8
      invariant 0 <= j <= 8
      invariant crc == TimesXPow(j, start)
    {
      if crc.b7 {
        crc := crc.ShiftLeft().Xor(POLY);
      } else {
        crc := crc.ShiftLeft();
      }
      j := j + 1;
    }
  }

  method Calc(data: seq<Octet>) returns (crc: Octet)
    ensures crc == Crc(data)
  {
    crc := ZERO;
    var i := 0;
    while i < |data|
      invariant 0 <= i <= |data|
      invariant crc == Crc(data[..i])
    {
      NextCrc(data, i);
      crc := FeedByte(crc.Xor(data[i]));
      i := i + 1;
    }
    assert data[..|data|] == data;
  }

  lemma TimesXLinear(a: Octet, b: Octet)
    ensures TimesX(a.Xor(b)) == TimesX(a).Xor(TimesX(b))
  {
    TimesXBits(a);
    TimesXBits(b);
    TimesXBits(a.Xor(b));
  }

  /** The register bits after one iteration. */
  lemma TimesXBits(c: Octet)
    ensures TimesX(c) == Octet(c.b6, c.b5, c.b4, c.b3, c.b2, c.b1 != c.b7, c.b0 != c.b7, c.b7)
  {
  }

  lemma {:induction false} TimesXPowLinear(n: nat, a: Octet, b: Octet)
    ensures TimesXPow(n, a.Xor(b)) == TimesXPow(n, a).Xor(TimesXPow(n, b))
  {
    if n > 0 {
      TimesXPowLinear(n - 1, a, b);
      TimesXLinear(TimesXPow(n - 1, a), TimesXPow(n - 1, b));
    }
  }

  lemma TimesXInjective(a: Octet, b: Octet)
    ensures TimesX(a) == TimesX(b) <==> a == b
  {
  }

  /** Multiplication by x can be undone. */
  lemma {:induction false} TimesXPowInjective(n: nat, a: Octet, b: Octet)
    ensures TimesXPow(n, a) == TimesXPow(n, b) <==> a == b
  {
    if n > 0 {
      TimesXPowInjective(n - 1, a, b);
      TimesXInjective(TimesXPow(n - 1, a), TimesXPow(n - 1, b));
    }
  }

  /** In particular it never turns a non-zero register into zero. */
  lemma TimesXPowZero(n: nat, c: Octet)
    ensures TimesXPow(n, c) == ZERO <==> c == ZERO
  {
    ZeroStays(n);
    TimesXPowInjective(n, c, ZERO);
  }

  lemma {:induction false} ZeroStays(n: nat)
    ensures TimesXPow(n, ZERO) == ZERO
  {
    if n > 0 {
      ZeroStays(n - 1);
    }
  }

  lemma {:induction false} TimesXPowAdd(m: nat, n: nat, c: Octet)
    ensures TimesXPow(m + n, c) == TimesXPow(m, TimesXPow(n, c))
  {
    if m > 0 {
      TimesXPowAdd(m - 1, n, c);
    }
  }

  /** The CRC is linear: the CRC of a damaged message is the CRC of the message
      combined with the CRC of the damage. */
  lemma {:induction false} CrcIsLinear(a: seq<Octet>, b: seq<Octet>)
    requires |a| == |b|
    ensures Crc(XorAll(a, b)) == Crc(a).Xor(Crc(b))
  {
    if |a| > 0 {
      var n := |a| - 1;
      CrcIsLinear(a[..n], b[..n]);
      assert XorAll(a, b)[..n] == XorAll(a[..n], b[..n]);
      TimesXPowLinear(8, Crc(a[..n]).Xor(a[n]), Crc(b[..n]).Xor(b[n]));
      XorShuffle(Crc(a[..n]), a[n], Crc(b[..n]), b[n]);
    }
  }

  lemma XorShuffle(p: Octet, q: Octet, r: Octet, s: Octet)
    ensures p.Xor(q).Xor(r.Xor(s)) == p.Xor(r).Xor(q.Xor(s))
  {
  }

  lemma XorZero(a: Octet, b: Octet)
    ensures a.Xor(b) == ZERO <==> a == b
  {
  }

  /** The receiver's comparison of the last byte accepts exactly the frames whose whole CRC is zero. */
  lemma FrameCrc(buf: seq<Octet>)
    requires |buf| > 0
    ensures buf[|buf| - 1] == Crc(buf[..|buf| - 1]) <==> Crc(buf) == ZERO
  {
    var n := |buf| - 1;
    var sum := Crc(buf[..n]).Xor(buf[n]);
    assert Crc(buf) == TimesXPow(8, sum);
    TimesXPowZero(8, sum);
    XorZero(Crc(buf[..n]), buf[n]);
  }

  /** The same for a message followed by its check. */
  lemma CheckIsZeroRemainder(message: seq<Octet>, check: Octet)
    ensures check == Crc(message) <==> Crc(message + [check]) == ZERO
  {
    assert (message + [check])[..|message|] == message;
    FrameCrc(message + [check]);
  }
}
