/** The infrared receiver under disturbance: it recovers after arbitrary noise, and a frame with up
    to three wrong bits is never taken for a valid one. */
module IrNoise {
  import opened Bytes
  import opened Octets
  import opened Crc8
  import opened CrcDetection
  import opened IrLink
  import opened IrRoundTrip

  // ----- recovery -----

  /** The line level after the last transition of the trace. */
  function LastLevel(trace: seq<Event>): Option<bool> {
    if |trace| == 0 then None
    else
      var e := trace[|trace| - 1];
      if e.Edge? then Some(e.mark) else LastLevel(trace[..|trace| - 1])
  }

  /** The decoder's state agrees with the line, and the bit counter stays inside the buffer. */
  predicate Consistent(rx: Rx, level: Option<bool>) {
    && (rx.state == Mark ==> level == Some(true))
    && (rx.state == Space ==> level == Some(false))
    && |rx.bits| <= RX_BUF_BITS
  }

  lemma {:induction false} AlwaysConsistent(trace: seq<Event>)
    ensures Consistent(Run(RESET, trace).0, LastLevel(trace))
  {
    if |trace| > 0 {
      var n := |trace| - 1;
      AlwaysConsistent(trace[..n]);
      assert trace == trace[..n] + [trace[n]];
      RunConcat(RESET, trace[..n], [trace[n]]);
      RunOne(Run(RESET, trace[..n]).0, trace[n]);
    }
  }

  lemma RunOne(rx: Rx, e: Event)
    ensures Run(rx, [e]).0 == Step(rx, e).0
  {
    assert [e][1..] == [];
  }

  /** If the line rests and one poll sees more than 10 ms of silence, the decoder is idle again. */
  lemma SilenceRecovers(noise: seq<Event>, us: nat)
    requires LastLevel(noise) != Some(true) && us > 10000
    ensures Run(RESET, noise + [Poll(us)]).0.state == Idle
  {
    AlwaysConsistent(noise);
    RunConcat(RESET, noise, [Poll(us)]);
    RunOne(Run(RESET, noise).0, Poll(us));
  }

  /** After any noise and one such poll the next clean hit frame is delivered exactly. */
  lemma HitAfterNoise(noise: seq<Event>, us: nat, p: HitPacket, frame: seq<Event>, gap: nat, d: seq<nat>,
                      polls: seq<Event>)
    requires LastLevel(noise) != Some(true) && us > 10000
    requires CarriesFrame(frame, WireBits(HitBytes(p)), gap, d) && OnlyPolls(polls)
    ensures Run(RESET, noise + [Poll(us)] + (frame + polls)).1
         == Run(RESET, noise + [Poll(us)]).1 + if LongSilence(polls) then [HitFrame(p, true)] else []
  {
    SilenceRecovers(noise, us);
    HitRoundTrip(Run(RESET, noise + [Poll(us)]).0, p, frame, gap, d, polls);
    RunConcat(RESET, noise + [Poll(us)], frame + polls);
  }

  lemma PairingAfterNoise(noise: seq<Event>, us: nat, p: PairingPacket, frame: seq<Event>, gap: nat, d: seq<nat>,
                          polls: seq<Event>)
    requires LastLevel(noise) != Some(true) && us > 10000
    requires CarriesFrame(frame, WireBits(PairingBytes(p)), gap, d) && OnlyPolls(polls)
    ensures Run(RESET, noise + [Poll(us)] + (frame + polls)).1
         == Run(RESET, noise + [Poll(us)]).1 + if LongSilence(polls) then [PairingFrame(p)] else []
  {
    SilenceRecovers(noise, us);
    PairingRoundTrip(Run(RESET, noise + [Poll(us)]).0, p, frame, gap, d, polls);
    RunConcat(RESET, noise + [Poll(us)], frame + polls);
  }

  // ----- wrong bits -----

  lemma UnpackPackedByte(bits: seq<bool>)
    requires |bits| == 8
    ensures LsbBits(PackByte(bits)) == bits
  {
    var o := Octet(bits[7], bits[6], bits[5], bits[4], bits[3], bits[2], bits[1], bits[0]);
    assert LsbBits(o) == bits;
    PackLsbBits(o);
  }

  /** Decoding whole bytes loses nothing. */
  lemma {:induction false} WireBitsOfDecoded(bits: seq<bool>)
    requires |bits| % 8 == 0
    ensures WireBits(DecodedBytes(bits)) == bits
  {
    if |bits| > 0 {
      var n := |bits| / 8 - 1;
      WireBitsOfDecoded(bits[..8 * n]);
      LastByteOfDecoded(bits, n);
    }
  }

  lemma LastByteOfDecoded(bits: seq<bool>, n: nat)
    requires |bits| == 8 * n + 8 && WireBits(DecodedBytes(bits[..8 * n])) == bits[..8 * n]
    ensures WireBits(DecodedBytes(bits)) == bits
  {
    DecodedFront(bits, n);
    UnpackPackedByte(bits[8 * n..]);
    Assemble(DecodedBytes(bits), bits, n);
  }

  lemma Assemble(bytes: seq<Octet>, bits: seq<bool>, n: nat)
    requires |bytes| == n + 1 && |bits| == 8 * n + 8
    requires WireBits(bytes[..n]) == bits[..8 * n] && LsbBits(bytes[n]) == bits[8 * n..]
    ensures WireBits(bytes) == bits
  {
    assert bits == bits[..8 * n] + bits[8 * n..];
  }

  lemma DecodedFront(bits: seq<bool>, n: nat)
    requires |bits| == 8 * n + 8
    ensures DecodedBytes(bits)[..n] == DecodedBytes(bits[..8 * n])
    ensures DecodedBytes(bits)[n] == PackByte(bits[8 * n..])
  {
    forall i | 0 <= i < n
      ensures Chunk(bits, i) == Chunk(bits[..8 * n], i)
    {
      var front := bits[..8 * n];
      assert bits[8 * i..8 * i + 8] == front[8 * i..8 * i + 8];
      assert i == n - 1 ==> front[8 * i..] == front[8 * i..8 * i + 8];
    }
  }

  lemma {:induction false} WireBitsOfXor(a: seq<Octet>, b: seq<Octet>)
    requires |a| == |b|
    ensures WireBits(XorAll(a, b)) == Add(WireBits(a), WireBits(b))
  {
    if |a| > 0 {
      var n := |a| - 1;
      WireBitsOfXor(a[..n], b[..n]);
      assert XorAll(a, b)[..n] == XorAll(a[..n], b[..n]);
      LsbBitsOfXor(a[n], b[n]);
      AddConcat(WireBits(a[..n]), LsbBits(a[n]), WireBits(b[..n]), LsbBits(b[n]));
    }
  }

  lemma AddConcat(a1: seq<bool>, a2: seq<bool>, b1: seq<bool>, b2: seq<bool>)
    requires |a1| == |b1| && |a2| == |b2|
    ensures Add(a1 + a2, b1 + b2) == Add(a1, b1) + Add(a2, b2)
  {
  }

  lemma LsbBitsOfXor(a: Octet, b: Octet)
    ensures LsbBits(a.Xor(b)) == Add(LsbBits(a), LsbBits(b))
  {
    forall j | 0 <= j < 8
      ensures LsbBits(a.Xor(b))[j] == Add(LsbBits(a), LsbBits(b))[j]
    {
      LsbBitOfXor(a, b, j);
    }
  }

  lemma LsbBitOfXor(a: Octet, b: Octet, j: nat)
    requires j < 8
    ensures LsbBits(a.Xor(b))[j] == (LsbBits(a)[j] != LsbBits(b)[j])
  {
    LsbBitsAt(a, j);
    LsbBitsAt(b, j);
    LsbBitsAt(a.Xor(b), j);
    BitOfXor(a, b, j);
  }

  lemma BitOfXor(a: Octet, b: Octet, j: nat)
    requires j < 8
    ensures a.Xor(b).Bit(j) == (a.Bit(j) != b.Bit(j))
  {
    var x := a.Xor(b);
    if j == 0 {
      assert x.b0 == (a.b0 != b.b0);
    } else if j == 1 {
      assert x.b1 == (a.b1 != b.b1);
    } else if j == 2 {
      assert x.b2 == (a.b2 != b.b2);
    } else if j == 3 {
      assert x.b3 == (a.b3 != b.b3);
    } else if j == 4 {
      assert x.b4 == (a.b4 != b.b4);
    } else if j == 5 {
      assert x.b5 == (a.b5 != b.b5);
    } else if j == 6 {
      assert x.b6 == (a.b6 != b.b6);
    } else {
      assert x.b7 == (a.b7 != b.b7);
    }
  }

  /** The number of set bits does not depend on the bit order. */
  lemma {:induction false} WeightInEitherOrder(bytes: seq<Octet>)
    ensures Weight(WireBits(bytes)) == Weight(Bits(bytes))
  {
    if |bytes| > 0 {
      var n := |bytes| - 1;
      WeightInEitherOrder(bytes[..n]);
      WeightConcat(WireBits(bytes[..n]), LsbBits(bytes[n]));
      WeightConcat(Bits(bytes[..n]), MsbBits(bytes[n]));
      WeightOfByte(bytes[n]);
    }
  }

  lemma WeightOfByte(o: Octet)
    ensures Weight(LsbBits(o)) == Weight(MsbBits(o))
  {
    WeightReversed(LsbBits(o), MsbBits(o));
  }

  lemma {:induction false} WeightReversed(a: seq<bool>, b: seq<bool>)
    requires |a| == |b|
    requires forall i :: 0 <= i < |a| ==> a[i] == b[|a| - 1 - i]
    ensures Weight(a) == Weight(b)
  {
    if |a| > 0 {
      var n := |a| - 1;
      WeightReversed(a[..n], b[1..]);
      assert b == [b[0]] + b[1..];
      WeightConcat([b[0]], b[1..]);
      assert Weight([b[0]]) == if b[0] then 1 else 0;
    }
  }

  /** The number of bits in which two bit strings differ. */
  function Distance(a: seq<bool>, b: seq<bool>): nat
    requires |a| == |b|
  {
    Weight(Add(a, b))
  }

  /** The damage done to a frame, and its weight. */
  lemma DamageOf(bytes: seq<Octet>, got: seq<Octet>)
    requires |bytes| == |got|
    ensures XorAll(bytes, XorAll(got, bytes)) == got
    ensures Weight(Bits(XorAll(got, bytes))) == Distance(WireBits(got), WireBits(bytes))
  {
    WireBitsOfXor(got, bytes);
    WeightInEitherOrder(XorAll(got, bytes));
    forall i | 0 <= i < |bytes|
      ensures XorAll(bytes, XorAll(got, bytes))[i] == got[i]
    {
      XorTwice(bytes[i], got[i]);
    }
  }

  lemma XorTwice(a: Octet, b: Octet)
    ensures a.Xor(b.Xor(a)) == b
  {
  }

  /** A frame with a valid CRC that reaches the decoder with one to three wrong bits fails the CRC. */
  lemma WrongBitsFailCrc(bytes: seq<Octet>, received: seq<bool>)
    requires 0 < |bytes| <= PAIRING_PACKET_LEN && Crc(bytes) == ZERO
    requires |received| == 8 * |bytes| && 1 <= Distance(received, WireBits(bytes)) <= 3
    ensures Crc(DecodedBytes(received)) != ZERO
  {
    var got := DecodedBytes(received);
    WireBitsOfDecoded(received);
    DamageOf(bytes, got);
    DetectsUpToThreeFlips(bytes, XorAll(got, bytes));
  }

  lemma SentFramesAreValid(h: HitPacket, p: PairingPacket)
    ensures Crc(HitBytes(h)) == ZERO && Crc(PairingBytes(p)) == ZERO
  {
    CheckIsZeroRemainder([h.playerId, h.weaponId, h.teamId], Crc([h.playerId, h.weaponId, h.teamId]));
    var raw := [PAIRING_PREAMBLE, p.addrLow, p.addrHigh, p.playerId];
    CheckIsZeroRemainder(raw, Crc(raw));
  }

  lemma DispatchOfBadCrc(buf: seq<Octet>)
    requires |buf| > 0 && Crc(buf) != ZERO
    ensures |buf| == HIT_PACKET_LEN ==> Dispatch(buf) == Some(HitFrame(HitPacket(buf[0], buf[1], buf[2]), false))
    ensures |buf| == PAIRING_PACKET_LEN ==> Dispatch(buf) == None
  {
    FrameCrc(buf);
  }

  lemma DeliveredIsDispatched(bits: seq<bool>)
    requires |bits| > 0 && |bits| % 8 == 0
    ensures var d := Dispatch(DecodedBytes(bits)); Delivered(bits) == if d.Some? then [d.value] else []
  {
  }

  lemma WrongFrame(bytes: seq<Octet>, received: seq<bool>)
    requires |bytes| == HIT_PACKET_LEN || |bytes| == PAIRING_PACKET_LEN
    requires Crc(bytes) == ZERO
    requires |received| == 8 * |bytes| && 1 <= Distance(received, WireBits(bytes)) <= 3
    ensures |bytes| == PAIRING_PACKET_LEN ==> Delivered(received) == []
    ensures |bytes| == HIT_PACKET_LEN ==>
              var got := DecodedBytes(received);
              Delivered(received) == [HitFrame(HitPacket(got[0], got[1], got[2]), false)]
  {
    WrongBitsFailCrc(bytes, received);
    DispatchOfBadCrc(DecodedBytes(received));
    DeliveredIsDispatched(received);
  }

  /** A hit frame with one to three wrong bits is handed on as invalid. */
  lemma WrongHitIsInvalid(p: HitPacket, received: seq<bool>)
    requires |received| == 8 * HIT_PACKET_LEN && 1 <= Distance(received, WireBits(HitBytes(p))) <= 3
    ensures var got := DecodedBytes(received);
            Delivered(received) == [HitFrame(HitPacket(got[0], got[1], got[2]), false)]
  {
    SentFramesAreValid(p, PairingPacket(ZERO, ZERO, ZERO));
    WrongFrame(HitBytes(p), received);
  }

  /** A pairing frame with one to three wrong bits is dropped. */
  lemma WrongPairingIsDropped(p: PairingPacket, received: seq<bool>)
    requires |received| == 8 * PAIRING_PACKET_LEN && 1 <= Distance(received, WireBits(PairingBytes(p))) <= 3
    ensures Delivered(received) == []
  {
    SentFramesAreValid(HitPacket(ZERO, ZERO, ZERO), p);
    WrongFrame(PairingBytes(p), received);
  }
}
