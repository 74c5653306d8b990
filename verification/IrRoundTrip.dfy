/** Whole runs of the infrared link: what the receiver delivers for every timing jitter and every
    polling schedule. */
module IrRoundTrip {
  import opened Bytes
  import opened Octets
  import opened IrLink

  // ----- runs -----

  /** A line transition `us` after the previous one, or a poll `us` after the latest transition. */
  datatype Event = Edge(mark: bool, us: nat) | Poll(us: nat)

  function Step(rx: Rx, e: Event): (Rx, seq<Delivery>) {
    match e
    case Edge(mark, us) => (EdgeStep(rx, mark, us), [])
    case Poll(us) =>
      var (rx', d) := PollStep(rx, us);
      (rx', if d.Some? then [d.value] else [])
  }

  function Run(rx: Rx, trace: seq<Event>): (Rx, seq<Delivery>)
    decreases |trace|
  {
    if |trace| == 0 then (rx, [])
    else
      var (rx1, d1) := Step(rx, trace[0]);
      var (rx2, d2) := Run(rx1, trace[1..]);
      (rx2, d1 + d2)
  }

  lemma {:induction false} RunConcat(rx: Rx, a: seq<Event>, b: seq<Event>)
    ensures Run(rx, a + b).0 == Run(Run(rx, a).0, b).0
    ensures Run(rx, a + b).1 == Run(rx, a).1 + Run(Run(rx, a).0, b).1
    decreases |a|
  {
    if |a| == 0 {
      assert a + b == b;
    } else {
      assert (a + b)[0] == a[0] && (a + b)[1..] == a[1..] + b;
      var rx1 := Step(rx, a[0]).0;
      RunConcat(rx1, a[1..], b);
      Associative(Step(rx, a[0]).1, Run(rx1, a[1..]).1, Run(Run(rx1, a[1..]).0, b).1);
    }
  }

  lemma Associative(a: seq<Delivery>, b: seq<Delivery>, c: seq<Delivery>)
    ensures a + (b + c) == a + b + c
  {
  }

  /** A step that delivers nothing only moves the decoder. */
  lemma QuietStep(rx: Rx, trace: seq<Event>)
    requires |trace| > 0 && Step(rx, trace[0]).1 == []
    ensures Run(rx, trace) == Run(Step(rx, trace[0]).0, trace[1..])
  {
    var rest := Run(Step(rx, trace[0]).0, trace[1..]).1;
    assert [] + rest == rest;
  }

  function EdgesOf(trace: seq<Event>): seq<Event>
    decreases |trace|
  {
    if |trace| == 0 then []
    else if trace[0].Edge? then [trace[0]] + EdgesOf(trace[1..])
    else EdgesOf(trace[1..])
  }

  /** The events could happen in this order: time since the last transition (now `since`) never runs backwards. */
  predicate WellTimed(trace: seq<Event>, since: nat)
    decreases |trace|
  {
    |trace| == 0
    || (trace[0].us >= since && WellTimed(trace[1..], if trace[0].Edge? then 0 else trace[0].us))
  }

  predicate OnlyPolls(trace: seq<Event>) {
    forall i :: 0 <= i < |trace| ==> trace[i].Poll?
  }

  predicate EndsWithEdge(trace: seq<Event>) {
    |trace| > 0 && trace[|trace| - 1].Edge?
  }

  /** Some poll sees more than 10 ms without a transition. */
  predicate LongSilence(polls: seq<Event>) {
    exists i :: 0 <= i < |polls| && polls[i].us > 10000
  }

  // ----- the transitions of a transmitted frame -----

  /** The line transitions of a pulse train whose `k`-th pulse really lasts `d[k]` microseconds. */
  function Transitions(pulses: seq<Pulse>, d: seq<nat>, gap: nat): seq<Event>
    requires |pulses| == |d| + 1
  {
    seq(|pulses|, k requires 0 <= k < |pulses| => Edge(pulses[k].on, if k == 0 then gap else d[k - 1]))
  }

  /** The real duration lies in the window the receiver accepts for this pulse. */
  predicate InWindow(p: Pulse, us: nat) {
    if p.on then 500 <= us < 2500
    else if p.ms == 1 then 500 <= us < 2200
    else 2200 <= us < 5000
  }

  predicate InTime(bits: seq<bool>, d: seq<nat>) {
    |d| == 2 * |bits| + 1
    && forall k :: 0 <= k < |d| ==> InWindow(FramePulses(bits)[k], d[k])
  }

  lemma {:induction false} DataPulsesFront(bits: seq<bool>)
    requires |bits| > 0
    ensures DataPulses(bits) == BitPulses(bits[0]) + DataPulses(bits[1..])
  {
    var n := |bits| - 1;
    if n == 0 {
      assert bits[1..] == [] && bits[..n] == [];
    } else {
      DataPulsesFront(bits[..n]);
      assert bits[..n][1..] == bits[1..][..n - 1] && bits[1..][n - 1] == bits[n];
    }
  }

  lemma FramePulsesFront(bits: seq<bool>)
    requires |bits| > 0
    ensures FramePulses(bits) == BitPulses(bits[0]) + FramePulses(bits[1..])
  {
    DataPulsesFront(bits);
  }

  /** What follows the first transition, bit by bit. */
  function FrameEdges(bits: seq<bool>, d: seq<nat>): seq<Event>
    requires |d| == 2 * |bits| + 1
  {
    if |bits| == 0 then [Edge(false, d[0])]
    else [Edge(false, d[0]), Edge(true, d[1])] + FrameEdges(bits[1..], d[2..])
  }

  lemma {:induction false} TransitionsByBit(bits: seq<bool>, d: seq<nat>, gap: nat)
    requires |d| == 2 * |bits| + 1
    ensures Transitions(FramePulses(bits), d, gap) == [Edge(true, gap)] + FrameEdges(bits, d)
  {
    if |bits| > 0 {
      FramePulsesFront(bits);
      TransitionsByBit(bits[1..], d[2..], d[1]);
      var rest := Transitions(FramePulses(bits[1..]), d[2..], d[1]);
      assert Transitions(FramePulses(bits), d, gap) == [Edge(true, gap), Edge(false, d[0])] + rest;
    }
  }

  lemma InTimeFront(bits: seq<bool>, d: seq<nat>)
    requires |d| == 2 * |bits| + 1 && InTime(bits, d)
    ensures 500 <= d[0] < 2500
    ensures |bits| > 0 ==> InWindow(Pulse(false, if bits[0] then 3 else 1), d[1])
    ensures |bits| > 0 ==> InTime(bits[1..], d[2..])
  {
    assert InWindow(FramePulses(bits)[0], d[0]);
    if |bits| > 0 {
      FramePulsesFront(bits);
      assert InWindow(FramePulses(bits)[1], d[1]);
      InTimeTail(bits, d);
    }
  }

  lemma InTimeTail(bits: seq<bool>, d: seq<nat>)
    requires |bits| > 0 && |d| == 2 * |bits| + 1 && InTime(bits, d)
    ensures InTime(bits[1..], d[2..])
  {
    FramePulsesFront(bits);
    forall k | 0 <= k < |d[2..]|
      ensures InWindow(FramePulses(bits[1..])[k], d[2..][k])
    {
      assert InWindow(FramePulses(bits)[k + 2], d[k + 2]);
    }
  }

  /** The durations the transmitter asks for are in the windows. */
  lemma NominalTimingIsInTime(bits: seq<bool>)
    ensures InTime(bits, seq(2 * |bits| + 1, k requires 0 <= k < 2 * |bits| + 1 => 1000 * FramePulses(bits)[k].ms))
  {
    PulseLengths(bits);
  }

  lemma {:induction false} PulseLengths(bits: seq<bool>)
    ensures forall k :: 0 <= k < 2 * |bits| + 1 ==>
              var p := FramePulses(bits)[k]; if p.on then p.ms == 1 else p.ms == 1 || p.ms == 3
  {
    if |bits| > 0 {
      FramePulsesFront(bits);
      PulseLengths(bits[1..]);
      assert forall k :: 2 <= k < 2 * |bits| + 1 ==> FramePulses(bits)[k] == FramePulses(bits[1..])[k - 2];
    }
  }

  // ----- decoding -----

  /** What the receive buffer keeps of stored bits. */
  function Capped(bits: seq<bool>): seq<bool> {
    if |bits| <= RX_BUF_BITS then bits else bits[..RX_BUF_BITS]
  }

  lemma CapsOnce(a: seq<bool>, b: bool, rest: seq<bool>)
    requires |a| <= RX_BUF_BITS
    ensures Capped(StoreBit(a, b) + rest) == Capped(a + ([b] + rest))
  {
  }

  /** From the mark of a bit: the decoder stores exactly the bits sent, as far as the buffer goes,
      whatever polls intervene. */
  lemma {:induction false} DecodeFromMark(rx: Rx, trace: seq<Event>, since: nat, bits: seq<bool>, d: seq<nat>)
    requires rx.state == Mark && |rx.bits| <= RX_BUF_BITS
    requires |d| == 2 * |bits| + 1 && InTime(bits, d)
    requires EdgesOf(trace) == FrameEdges(bits, d) && EndsWithEdge(trace) && WellTimed(trace, since)
    ensures Run(rx, trace) == (Rx(Space, Capped(rx.bits + bits)), [])
    decreases |trace|, 0
  {
    QuietStep(rx, trace);
    if trace[0].Poll? {
      DecodeFromMark(rx, trace[1..], trace[0].us, bits, d);
    } else {
      FirstEdge(trace, FrameEdges(bits, d));
      InTimeFront(bits, d);
      LastEdge(trace, bits, d);
      MarkEnds(rx.bits, trace[1..], bits, d);
    }
  }

  lemma FirstEdge(trace: seq<Event>, edges: seq<Event>)
    requires |trace| > 0 && trace[0].Edge? && EdgesOf(trace) == edges
    ensures trace[0] == edges[0] && EdgesOf(trace[1..]) == edges[1..]
  {
  }

  /** After the edge that ends the stop mark the trace is over. */
  lemma LastEdge(trace: seq<Event>, bits: seq<bool>, d: seq<nat>)
    requires |d| == 2 * |bits| + 1 && EndsWithEdge(trace) && trace[0].Edge? && EdgesOf(trace) == FrameEdges(bits, d)
    ensures |bits| == 0 ==> trace[1..] == []
    ensures |bits| > 0 ==> EndsWithEdge(trace[1..])
  {
    FirstEdge(trace, FrameEdges(bits, d));
    if |bits| > 0 {
      assert |EdgesOf(trace[1..])| > 0;
    } else if |trace| > 1 {
      EndIsCounted(trace[1..]);
    }
  }

  lemma {:induction false} EndIsCounted(trace: seq<Event>)
    requires EndsWithEdge(trace)
    ensures |EdgesOf(trace)| > 0
    decreases |trace|
  {
    if trace[0].Poll? {
      EndIsCounted(trace[1..]);
    }
  }

  /** The mark of a bit is over. */
  lemma {:induction false} MarkEnds(stored: seq<bool>, trace: seq<Event>, bits: seq<bool>, d: seq<nat>)
    requires |stored| <= RX_BUF_BITS
    requires |d| == 2 * |bits| + 1 && InTime(bits, d)
    requires EdgesOf(trace) == FrameEdges(bits, d)[1..] && WellTimed(trace, 0)
    requires if |bits| > 0 then EndsWithEdge(trace) else trace == []
    ensures Run(Rx(Space, stored), trace) == (Rx(Space, Capped(stored + bits)), [])
    decreases |trace|, 1
  {
    if |bits| == 0 {
      assert stored + bits == stored;
    } else {
      InTimeFront(bits, d);
      DecodeFromSpace(Rx(Space, stored), trace, 0, bits, d[1..]);
    }
  }

  /** From the space of a bit: no poll can see 10 ms of silence before the next mark. */
  lemma {:induction false} DecodeFromSpace(rx: Rx, trace: seq<Event>, since: nat, bits: seq<bool>, d: seq<nat>)
    requires rx.state == Space && |rx.bits| <= RX_BUF_BITS && |bits| > 0 && |d| == 2 * |bits|
    requires InWindow(Pulse(false, if bits[0] then 3 else 1), d[0])
    requires InTime(bits[1..], d[1..])
    requires EdgesOf(trace) == [Edge(true, d[0])] + FrameEdges(bits[1..], d[1..])
    requires EndsWithEdge(trace) && WellTimed(trace, since)
    ensures Run(rx, trace) == (Rx(Space, Capped(rx.bits + bits)), [])
    decreases |trace|, 0
  {
    if trace[0].Poll? {
      PollBeforeEdge(trace, since);
      QuietStep(rx, trace);
      DecodeFromSpace(rx, trace[1..], trace[0].us, bits, d);
    } else {
      assert trace[0] == EdgesOf(trace)[0] == Edge(true, d[0]);
      QuietStep(rx, trace);
      assert EdgesOf(trace[1..]) == EdgesOf(trace)[1..];
      assert |FrameEdges(bits[1..], d[1..])| > 0;
      DecodeFromMark(Rx(Mark, StoreBit(rx.bits, bits[0])), trace[1..], 0, bits[1..], d[1..]);
      CapsOnce(rx.bits, bits[0], bits[1..]);
      assert [bits[0]] + bits[1..] == bits;
    }
  }

  /** A poll before a transition sees no more time than the transition will. */
  lemma {:induction false} PollBeforeEdge(trace: seq<Event>, since: nat)
    requires |trace| > 0 && |EdgesOf(trace)| > 0 && WellTimed(trace, since)
    ensures trace[0].us <= EdgesOf(trace)[0].us
  {
    if trace[0].Poll? {
      assert EdgesOf(trace) == EdgesOf(trace[1..]);
      PollBeforeEdge(trace[1..], trace[0].us);
      assert trace[1].us >= trace[0].us;
    }
  }

  /** What the decoder delivers when the stored bits are cut off by silence. */
  function Delivered(bits: seq<bool>): seq<Delivery> {
    var (_, d) := PollStep(Rx(Space, bits), 10001);
    if d.Some? then [d.value] else []
  }

  lemma {:induction false} PollsAfterFrame(bits: seq<bool>, polls: seq<Event>)
    requires OnlyPolls(polls)
    ensures Run(Rx(Space, bits), polls)
         == if LongSilence(polls) then (RESET, Delivered(bits)) else (Rx(Space, bits), [])
  {
    if |polls| > 0 {
      LongSilenceFront(polls);
      if polls[0].us > 10000 {
        PollsWhenIdle([], polls[1..]);
        assert Delivered(bits) + [] == Delivered(bits);
      } else {
        QuietStep(Rx(Space, bits), polls);
        PollsAfterFrame(bits, polls[1..]);
      }
    }
  }

  lemma LongSilenceFront(polls: seq<Event>)
    requires |polls| > 0
    ensures LongSilence(polls) <==> polls[0].us > 10000 || LongSilence(polls[1..])
  {
    if LongSilence(polls) {
      var i :| 0 <= i < |polls| && polls[i].us > 10000;
      assert i > 0 ==> polls[1..][i - 1].us > 10000;
    }
    if LongSilence(polls[1..]) {
      var i :| 0 <= i < |polls[1..]| && polls[1..][i].us > 10000;
      assert polls[i + 1].us > 10000;
    }
  }

  lemma {:induction false} PollsWhenIdle(bits: seq<bool>, polls: seq<Event>)
    requires OnlyPolls(polls)
    ensures Run(Rx(Idle, bits), polls) == (Rx(Idle, bits), [])
  {
    if |polls| > 0 {
      QuietStep(Rx(Idle, bits), polls);
      PollsWhenIdle(bits, polls[1..]);
    }
  }

  lemma {:induction false} DecodeFromIdle(rx: Rx, trace: seq<Event>, since: nat, gap: nat, bits: seq<bool>, d: seq<nat>)
    requires rx.state == Idle && |bits| <= RX_BUF_BITS
    requires |d| == 2 * |bits| + 1 && InTime(bits, d)
    requires EdgesOf(trace) == [Edge(true, gap)] + FrameEdges(bits, d)
    requires EndsWithEdge(trace) && WellTimed(trace, since)
    ensures Run(rx, trace) == (Rx(Space, bits), [])
    decreases |trace|
  {
    QuietStep(rx, trace);
    if trace[0].Poll? {
      DecodeFromIdle(rx, trace[1..], trace[0].us, gap, bits, d);
    } else {
      assert trace[0] == EdgesOf(trace)[0] == Edge(true, gap);
      assert EdgesOf(trace[1..]) == EdgesOf(trace)[1..];
      assert |FrameEdges(bits, d)| > 0;
      DecodeFromMark(Rx(Mark, []), trace[1..], 0, bits, d);
      assert [] + bits == bits;
    }
  }

  /** The trace carries exactly the transitions of one frame, all pulses within the receiver's
      windows, with any polls in between. */
  predicate CarriesFrame(trace: seq<Event>, bits: seq<bool>, gap: nat, d: seq<nat>) {
    && |d| == 2 * |bits| + 1 && InTime(bits, d)
    && EdgesOf(trace) == Transitions(FramePulses(bits), d, gap)
    && EndsWithEdge(trace) && WellTimed(trace, 0)
  }

  /** An idle decoder delivers a transmitted frame once, at the first poll that sees the silence
      after it, for every jitter and every polling schedule. */
  lemma FrameRoundTrip(rx: Rx, frame: seq<Event>, bits: seq<bool>, gap: nat, d: seq<nat>, polls: seq<Event>)
    requires rx.state == Idle && |bits| <= RX_BUF_BITS
    requires CarriesFrame(frame, bits, gap, d) && OnlyPolls(polls)
    ensures Run(rx, frame + polls)
         == if LongSilence(polls) then (RESET, Delivered(bits)) else (Rx(Space, bits), [])
  {
    TransitionsByBit(bits, d, gap);
    DecodeFromIdle(rx, frame, 0, gap, bits, d);
    PollsAfterFrame(bits, polls);
    RunConcat(rx, frame, polls);
    assert [] + Run(Rx(Space, bits), polls).1 == Run(Rx(Space, bits), polls).1;
  }

  // ----- packing and unpacking -----

  lemma {:induction false} ChunkOfWireBits(bytes: seq<Octet>, i: nat)
    requires i < |bytes|
    ensures Chunk(WireBits(bytes), i) == LsbBits(bytes[i])
  {
    var n := |bytes| - 1;
    var front := WireBits(bytes[..n]);
    var all := WireBits(bytes);
    assert all == front + LsbBits(bytes[n]);
    if i == n {
      assert all[8 * i..] == LsbBits(bytes[n]);
      assert all[8 * i..8 * i + 8] == all[8 * i..];
    } else {
      ChunkOfWireBits(bytes[..n], i);
      assert 8 * i + 8 <= |front|;
      assert front[8 * i..8 * i + 8] == all[8 * i..8 * i + 8];
      assert |front| == 8 * i + 8 ==> front[8 * i..] == front[8 * i..8 * i + 8];
    }
  }

  lemma PackFour(o: Octet)
    ensures var f := false; PackByte(LsbBits(o)[..4]) == Octet(f, f, f, f, o.b3, o.b2, o.b1, o.b0)
  {
    var b, f := LsbBits(o), false;
    assert b[..1][..0] == [] && b[..2][..1] == b[..1] && b[..3][..2] == b[..2] && b[..4][..3] == b[..3];
    assert PackByte(b[..1]) == Octet(f, f, f, f, f, f, f, o.b0);
    assert PackByte(b[..2]) == Octet(f, f, f, f, f, f, o.b1, o.b0);
    assert PackByte(b[..3]) == Octet(f, f, f, f, f, o.b2, o.b1, o.b0);
  }

  lemma PackSix(o: Octet)
    ensures var f := false; PackByte(LsbBits(o)[..6]) == Octet(f, f, o.b5, o.b4, o.b3, o.b2, o.b1, o.b0)
  {
    var b, f := LsbBits(o), false;
    PackFour(o);
    assert b[..5][..4] == b[..4] && b[..6][..5] == b[..5];
    assert PackByte(b[..5]) == Octet(f, f, f, o.b4, o.b3, o.b2, o.b1, o.b0);
  }

  lemma PackLsbBits(o: Octet)
    ensures PackByte(LsbBits(o)) == o
  {
    var b, f := LsbBits(o), false;
    PackSix(o);
    assert b[..7][..6] == b[..6];
    assert PackByte(b[..7]) == Octet(f, o.b6, o.b5, o.b4, o.b3, o.b2, o.b1, o.b0);
  }

  lemma DecodeWireBits(bytes: seq<Octet>)
    ensures DecodedBytes(WireBits(bytes)) == bytes
  {
    forall i | 0 <= i < |bytes|
      ensures DecodedBytes(WireBits(bytes))[i] == bytes[i]
    {
      ChunkOfWireBits(bytes, i);
      PackLsbBits(bytes[i]);
    }
  }

  lemma DispatchOfHit(p: HitPacket)
    ensures Dispatch(HitBytes(p)) == Some(HitFrame(p, true))
  {
    var raw := [p.playerId, p.weaponId, p.teamId];
    assert HitBytes(p)[..3] == raw;
  }

  lemma DispatchOfPairing(p: PairingPacket)
    ensures Dispatch(PairingBytes(p)) == Some(PairingFrame(p))
  {
    var raw := [PAIRING_PREAMBLE, p.addrLow, p.addrHigh, p.playerId];
    assert PairingBytes(p)[..4] == raw;
  }

  // ----- round trips -----

  lemma HitRoundTrip(rx: Rx, p: HitPacket, frame: seq<Event>, gap: nat, d: seq<nat>, polls: seq<Event>)
    requires rx.state == Idle
    requires CarriesFrame(frame, WireBits(HitBytes(p)), gap, d) && OnlyPolls(polls)
    ensures Run(rx, frame + polls).1 == if LongSilence(polls) then [HitFrame(p, true)] else []
  {
    FrameRoundTrip(rx, frame, WireBits(HitBytes(p)), gap, d, polls);
    DecodeWireBits(HitBytes(p));
    DispatchOfHit(p);
  }

  lemma PairingRoundTrip(rx: Rx, p: PairingPacket, frame: seq<Event>, gap: nat, d: seq<nat>, polls: seq<Event>)
    requires rx.state == Idle
    requires CarriesFrame(frame, WireBits(PairingBytes(p)), gap, d) && OnlyPolls(polls)
    ensures Run(rx, frame + polls).1 == if LongSilence(polls) then [PairingFrame(p)] else []
  {
    FrameRoundTrip(rx, frame, WireBits(PairingBytes(p)), gap, d, polls);
    DecodeWireBits(PairingBytes(p));
    DispatchOfPairing(p);
  }

  /** Without the stop mark the last space is never measured: the transitions are those of a frame
      one bit shorter, and no whole number of bytes is ever delivered. */
  lemma NoStopMarkNoDelivery(rx: Rx, bits: seq<bool>, trace: seq<Event>, gap: nat, d: seq<nat>, polls: seq<Event>)
    requires rx.state == Idle && 0 < |bits| <= RX_BUF_BITS && |bits| % 8 == 0
    requires |d| == 2 * |bits| - 1
    requires forall k :: 0 <= k < |d| ==> InWindow(DataPulses(bits)[k], d[k])
    requires EdgesOf(trace) == Transitions(DataPulses(bits), d, gap)
    requires EndsWithEdge(trace) && WellTimed(trace, 0) && OnlyPolls(polls)
    ensures Run(rx, trace + polls).1 == []
  {
    WithoutStopMark(bits, d, gap);
    NotWholeBytes(rx, bits[..|bits| - 1], trace, gap, d, polls);
  }

  lemma NotWholeBytes(rx: Rx, bits: seq<bool>, frame: seq<Event>, gap: nat, d: seq<nat>, polls: seq<Event>)
    requires rx.state == Idle && |bits| <= RX_BUF_BITS && |bits| % 8 != 0
    requires CarriesFrame(frame, bits, gap, d) && OnlyPolls(polls)
    ensures Run(rx, frame + polls).1 == []
  {
    FrameRoundTrip(rx, frame, bits, gap, d, polls);
    assert Delivered(bits) == [];
  }

  lemma WithoutStopMark(bits: seq<bool>, d: seq<nat>, gap: nat)
    requires |bits| > 0 && |d| == 2 * |bits| - 1
    requires forall k :: 0 <= k < |d| ==> InWindow(DataPulses(bits)[k], d[k])
    ensures Transitions(DataPulses(bits), d, gap) == Transitions(FramePulses(bits[..|bits| - 1]), d, gap)
    ensures InTime(bits[..|bits| - 1], d)
  {
    var shorter := bits[..|bits| - 1];
    assert forall k :: 0 <= k < |d| ==> DataPulses(bits)[k] == FramePulses(shorter)[k];
  }
}
