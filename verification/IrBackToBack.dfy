/** Two infrared frames in a row: the poll between them decides about both. */
module IrBackToBack {
  import opened Crc8
  import opened IrLink
  import opened IrRoundTrip
  import opened Octets

  /** An idle decoder that has already missed the first mark of a frame takes its second bit for the first. */
  lemma {:induction false} SkipsFirstBit(rx: Rx, trace: seq<Event>, since: nat, bits: seq<bool>, d: seq<nat>)
    requires rx.state == Idle && 0 < |bits| <= RX_BUF_BITS
    requires |d| == 2 * |bits| + 1 && InTime(bits, d)
    requires EdgesOf(trace) == FrameEdges(bits, d) && EndsWithEdge(trace) && WellTimed(trace, since)
    ensures Run(rx, trace) == (Rx(Space, bits[1..]), [])
    decreases |trace|
  {
    QuietStep(rx, trace);
    if trace[0].Poll? {
      SkipsFirstBit(rx, trace[1..], trace[0].us, bits, d);
    } else {
      InTimeFront(bits, d);
      assert trace[0] == EdgesOf(trace)[0] == Edge(false, d[0]);
      assert EdgesOf(trace[1..]) == EdgesOf(trace)[1..];
      assert EdgesOf(trace[1..]) == [Edge(true, d[1])] + FrameEdges(bits[1..], d[2..]);
      DecodeFromIdle(rx, trace[1..], 0, d[1], bits[1..], d[2..]);
    }
  }

  /** A space that is that of no bit. */
  predicate OutOfWindow(gap: nat) { gap < 500 || gap >= 5000 }

  /** A frame whose first mark comes less than 0.5 ms or at least 5 ms after the previous frame, while the
      decoder still waits for that frame's end, loses its first bit, and the previous frame is forgotten. */
  lemma SecondFrameLosesFirstBit(first: seq<bool>, frame: seq<Event>, bits: seq<bool>, gap: nat, d: seq<nat>)
    requires 0 < |bits| <= RX_BUF_BITS && OutOfWindow(gap)
    requires CarriesFrame(frame, bits, gap, d) && frame[0].Edge?
    ensures Run(Rx(Space, first), frame) == (Rx(Space, bits[1..]), [])
  {
    TransitionsByBit(bits, d, gap);
    assert frame[0] == EdgesOf(frame)[0] == Edge(true, gap);
    assert EdgesOf(frame[1..]) == EdgesOf(frame)[1..] == FrameEdges(bits, d);
    assert |FrameEdges(bits, d)| > 0;
    QuietStep(Rx(Space, first), frame);
    SkipsFirstBit(Rx(Idle, first), frame[1..], 0, bits, d);
  }

  lemma Glue(rx: Rx, a: seq<Event>, mid: Rx, x: seq<Delivery>, b: seq<Event>, y: seq<Delivery>)
    requires Run(rx, a) == (mid, x) && Run(mid, b).1 == y
    ensures Run(rx, a + b).1 == x + y
  {
    RunConcat(rx, a, b);
  }

  lemma OneBitShort(bits: seq<bool>, polls: seq<Event>)
    requires |bits| > 0 && |bits| % 8 == 0 && OnlyPolls(polls)
    ensures Run(Rx(Space, bits[1..]), polls).1 == []
  {
    var short := bits[1..];
    PollsAfterFrame(short, polls);
    NotWhole(short);
  }

  lemma NotWhole(bits: seq<bool>)
    requires |bits| % 8 != 0
    ensures Delivered(bits) == []
  {
  }

  lemma SecondFrameIsLost(first: seq<bool>, frame: seq<Event>, bits: seq<bool>, gap: nat, d: seq<nat>,
                          polls: seq<Event>)
    requires 0 < |bits| <= RX_BUF_BITS && OutOfWindow(gap) && |bits| % 8 == 0
    requires CarriesFrame(frame, bits, gap, d) && frame[0].Edge? && OnlyPolls(polls)
    ensures Run(Rx(Space, first), frame + polls).1 == []
  {
    SecondFrameLosesFirstBit(first, frame, bits, gap, d);
    OneBitShort(bits, polls);
    Glue(Rx(Space, first), frame, Rx(Space, bits[1..]), [], polls, []);
  }

  /** Two whole-byte frames whose distance is that of no bit. If a poll between them sees the line silent
      for more than 10 ms both are delivered; if none does, neither is. */
  lemma PollBetweenFramesDecides(rx: Rx, frame1: seq<Event>, bits1: seq<bool>, gap1: nat, d1: seq<nat>,
                                 polls1: seq<Event>,
                                 frame2: seq<Event>, bits2: seq<bool>, gap2: nat, d2: seq<nat>, polls2: seq<Event>)
    requires rx.state == Idle
    requires 0 < |bits1| <= RX_BUF_BITS && 0 < |bits2| <= RX_BUF_BITS && |bits1| % 8 == |bits2| % 8 == 0
    requires CarriesFrame(frame1, bits1, gap1, d1) && OnlyPolls(polls1)
    requires CarriesFrame(frame2, bits2, gap2, d2) && OnlyPolls(polls2) && frame2[0].Edge? && OutOfWindow(gap2)
    requires LongSilence(polls2)
    ensures Run(rx, (frame1 + polls1) + (frame2 + polls2)).1
         == if LongSilence(polls1) then Delivered(bits1) + Delivered(bits2) else []
  {
    FrameRoundTrip(rx, frame1, bits1, gap1, d1, polls1);
    var second := frame2 + polls2;
    if LongSilence(polls1) {
      FrameRoundTrip(RESET, frame2, bits2, gap2, d2, polls2);
      Glue(rx, frame1 + polls1, RESET, Delivered(bits1), second, Delivered(bits2));
    } else {
      SecondFrameIsLost(bits1, frame2, bits2, gap2, d2, polls2);
      Glue(rx, frame1 + polls1, Rx(Space, bits1), [], second, []);
    }
  }

  // ----- frames too close to be told apart -----

  /** A frame whose first mark comes 0.5 to 5 ms after the previous frame continues it: the gap counts as
      one more bit, and what exceeds the buffer is lost. */
  lemma CloseFrameContinues(first: seq<bool>, frame: seq<Event>, bits: seq<bool>, gap: nat, d: seq<nat>)
    requires |first| <= RX_BUF_BITS && 500 <= gap < 5000
    requires CarriesFrame(frame, bits, gap, d)
    ensures Run(Rx(Space, first), frame) == (Rx(Space, Capped(first + ([gap >= 2200] + bits))), [])
  {
    TransitionsByBit(bits, d, gap);
    var all := [gap >= 2200] + bits;
    assert all[1..] == bits && ([gap] + d)[1..] == d;
    DecodeFromSpace(Rx(Space, first), frame, 0, all, [gap] + d);
  }

  /** What is delivered of two frames that close, when silence follows: the frame they add up to. */
  lemma CloseFramesMerge(rx: Rx, frame1: seq<Event>, bits1: seq<bool>, gap1: nat, d1: seq<nat>, polls1: seq<Event>,
                         frame2: seq<Event>, bits2: seq<bool>, gap2: nat, d2: seq<nat>, polls2: seq<Event>)
    requires rx.state == Idle && |bits1| <= RX_BUF_BITS && 500 <= gap2 < 5000
    requires CarriesFrame(frame1, bits1, gap1, d1) && OnlyPolls(polls1) && !LongSilence(polls1)
    requires CarriesFrame(frame2, bits2, gap2, d2) && OnlyPolls(polls2) && LongSilence(polls2)
    ensures Run(rx, (frame1 + polls1) + (frame2 + polls2)).1 == Delivered(Capped(bits1 + ([gap2 >= 2200] + bits2)))
  {
    var all := Capped(bits1 + ([gap2 >= 2200] + bits2));
    FrameRoundTrip(rx, frame1, bits1, gap1, d1, polls1);
    CloseFrameContinues(bits1, frame2, bits2, gap2, d2);
    PollsAfterFrame(all, polls2);
    Glue(Rx(Space, bits1), frame2, Rx(Space, all), [], polls2, Delivered(all));
    Glue(rx, frame1 + polls1, Rx(Space, bits1), [], frame2 + polls2, Delivered(all));
  }

  /** The byte that the gap and the first seven bits of the second frame make up. */
  function GapByte(o: Octet, long: bool): Octet {
    Octet(o.b6, o.b5, o.b4, o.b3, o.b2, o.b1, o.b0, long)
  }

  lemma MergedBits(p1: HitPacket, p2: HitPacket, long: bool)
    ensures Capped(WireBits(HitBytes(p1)) + ([long] + WireBits(HitBytes(p2))))
         == WireBits(HitBytes(p1) + [GapByte(p2.playerId, long)])
  {
    var last := GapByte(p2.playerId, long);
    assert (HitBytes(p1) + [last])[..4] == HitBytes(p1);
    FirstWireBits(HitBytes(p2));
    GapBits(p2.playerId, long, WireBits(HitBytes(p2)));
    CapAfterFour(WireBits(HitBytes(p1)), [long] + WireBits(HitBytes(p2)));
  }

  lemma FirstSeven(o: Octet, bits: seq<bool>)
    requires |bits| >= 8 && bits[..8] == LsbBits(o)
    ensures bits[..7] == [o.b0, o.b1, o.b2, o.b3, o.b4, o.b5, o.b6]
  {
    assert bits[..7] == bits[..8][..7] == LsbBits(o)[..7];
  }

  lemma GapBits(o: Octet, long: bool, bits: seq<bool>)
    requires |bits| >= 8 && bits[..8] == LsbBits(o)
    ensures ([long] + bits)[..8] == LsbBits(GapByte(o, long))
  {
    FirstSeven(o, bits);
    assert ([long] + bits)[..8] == [long] + bits[..7];
  }

  lemma CapAfterFour(first: seq<bool>, more: seq<bool>)
    requires |first| == 32 && |more| > 8
    ensures Capped(first + more) == first + more[..8]
  {
  }

  lemma {:induction false} FirstWireBits(bytes: seq<Octet>)
    requires |bytes| > 0
    ensures WireBits(bytes)[..8] == LsbBits(bytes[0])
  {
    var n := |bytes| - 1;
    if n == 0 {
      assert bytes[..0] == [];
      assert WireBits(bytes) == [] + LsbBits(bytes[0]);
    } else {
      FirstWireBits(bytes[..n]);
    }
  }

  /** The merged frame has five bytes, and its first four are a valid frame on their own: its check is
      right exactly if the fifth byte is zero. */
  lemma MergedDelivery(p1: HitPacket, last: Octet)
    ensures Delivered(WireBits(HitBytes(p1) + [last]))
         == if p1.playerId == PAIRING_PREAMBLE && last == ZERO then
              [PairingFrame(PairingPacket(p1.weaponId, p1.teamId, HitBytes(p1)[3]))]
            else []
  {
    var bytes := HitBytes(p1) + [last];
    var raw := [p1.playerId, p1.weaponId, p1.teamId];
    DecodeWireBits(bytes);
    CheckIsZeroRemainder(raw, Crc(raw));
    assert bytes[..4] == HitBytes(p1) == raw + [Crc(raw)];
    assert Delivered(WireBits(bytes)) == DispatchList(bytes);
  }

  function DispatchList(bytes: seq<Octet>): seq<Delivery> {
    var d := Dispatch(bytes); if d.Some? then [d.value] else []
  }

  /** Two hit frames 0.5 to 5 ms apart are lost as hits. In their place a pairing frame is delivered
      exactly if the first shooter's id is the pairing preamble, the gap is short, and the second
      shooter's id has none of its low seven bits set. */
  lemma CloseHitsAreLost(rx: Rx, p1: HitPacket, p2: HitPacket, frame1: seq<Event>, gap1: nat, d1: seq<nat>,
                         polls1: seq<Event>, frame2: seq<Event>, gap2: nat, d2: seq<nat>, polls2: seq<Event>)
    requires rx.state == Idle && 500 <= gap2 < 5000
    requires CarriesFrame(frame1, WireBits(HitBytes(p1)), gap1, d1) && OnlyPolls(polls1) && !LongSilence(polls1)
    requires CarriesFrame(frame2, WireBits(HitBytes(p2)), gap2, d2) && OnlyPolls(polls2) && LongSilence(polls2)
    ensures Run(rx, (frame1 + polls1) + (frame2 + polls2)).1
         == if p1.playerId == PAIRING_PREAMBLE && gap2 < 2200 && GapByte(p2.playerId, false) == ZERO then
              [PairingFrame(PairingPacket(p1.weaponId, p1.teamId, HitBytes(p1)[3]))]
            else []
  {
    CloseFramesMerge(rx, frame1, WireBits(HitBytes(p1)), gap1, d1, polls1,
                     frame2, WireBits(HitBytes(p2)), gap2, d2, polls2);
    MergedBits(p1, p2, gap2 >= 2200);
    MergedDelivery(p1, GapByte(p2.playerId, gap2 >= 2200));
  }
}
