/** The converse of the infrared round trip: whatever is delivered was a frame all of whose marks and
    spaces lay in their windows. */
module IrDeliveries {
  import opened Bytes
  import opened Octets
  import opened Crc8
  import opened IrLink
  import opened IrRoundTrip

  // ----- the line -----

  /** The transitions that change the level of the line; an edge to the level it already has is none. */
  function Toggles(trace: seq<Event>, level: bool): seq<Event>
    decreases |trace|
  {
    if |trace| == 0 then []
    else
      var rest := trace[..|trace| - 1];
      var last := trace[|trace| - 1];
      Toggles(rest, level) + if last.Edge? && last.mark != Level(rest, level) then [last] else []
  }

  function Level(trace: seq<Event>, level: bool): bool {
    if |trace| == 0 then level
    else if trace[|trace| - 1].Edge? then trace[|trace| - 1].mark
    else Level(trace[..|trace| - 1], level)
  }

  // ----- what the decoder has stored -----

  /** A mark begins after these bits. */
  function MarkPulses(bits: seq<bool>): seq<Pulse> { DataPulses(bits) + [Pulse(true, 1)] }

  predicate AllInWindow(pulses: seq<Pulse>, d: seq<nat>)
    requires |pulses| == |d| + 1
  {
    forall k :: 0 <= k < |d| ==> InWindow(pulses[k], d[k])
  }

  /** Since event `n` the line has made exactly these pulses, each as long as its window allows. */
  predicate Made(trace: seq<Event>, n: nat, pulses: seq<Pulse>, gap: nat, d: seq<nat>) {
    && n < |trace| && |pulses| == |d| + 1 && AllInWindow(pulses, d)
    && Toggles(trace[n..], false) == Transitions(pulses, d, gap)
  }

  /** The bits stored are those of the pulses made since event `n`. */
  predicate Explains(rx: Rx, trace: seq<Event>, n: nat, bits: seq<bool>, gap: nat, d: seq<nat>) {
    && rx.bits == Capped(bits)
    && (rx.state == Mark ==> Made(trace, n, MarkPulses(bits), gap, d) && Level(trace[n..], false))
    && (rx.state == Space ==> Made(trace, n, FramePulses(bits), gap, d) && !Level(trace[n..], false))
  }

  lemma TransitionsGrow(pulses: seq<Pulse>, d: seq<nat>, gap: nat, p: Pulse, us: nat)
    requires |pulses| == |d| + 1
    ensures Transitions(pulses + [p], d + [us], gap) == Transitions(pulses, d, gap) + [Edge(p.on, us)]
  {
  }

  lemma OneMoreEvent(trace: seq<Event>, n: nat, ev: Event)
    requires n <= |trace|
    ensures (trace + [ev])[n..] == trace[n..] + [ev]
    ensures Toggles((trace + [ev])[n..], false)
         == Toggles(trace[n..], false) + if ev.Edge? && ev.mark != Level(trace[n..], false) then [ev] else []
    ensures Level((trace + [ev])[n..], false) == if ev.Edge? then ev.mark else Level(trace[n..], false)
  {
    var t := trace[n..] + [ev];
    assert t[..|t| - 1] == trace[n..];
  }

  lemma MarkOver(trace: seq<Event>, n: nat, bits: seq<bool>, gap: nat, d: seq<nat>, us: nat)
    requires Made(trace, n, MarkPulses(bits), gap, d) && Level(trace[n..], false) && 500 <= us < 2500
    ensures Made(trace + [Edge(false, us)], n, FramePulses(bits), gap, d + [us])
    ensures !Level((trace + [Edge(false, us)])[n..], false)
  {
    OneMoreEvent(trace, n, Edge(false, us));
    TransitionsGrow(MarkPulses(bits), d, gap, Pulse(false, 0), us);
    assert FramePulses(bits) == MarkPulses(bits) + [Pulse(false, 0)];
  }

  lemma SameLevels(a: seq<Pulse>, b: seq<Pulse>, d: seq<nat>, gap: nat)
    requires |a| == |b| == |d| + 1 && forall k :: 0 <= k < |a| ==> a[k].on == b[k].on
    ensures Transitions(a, d, gap) == Transitions(b, d, gap)
  {
  }

  lemma BitStored(trace: seq<Event>, n: nat, bits: seq<bool>, gap: nat, d: seq<nat>, us: nat, b: bool)
    requires Made(trace, n, FramePulses(bits), gap, d) && !Level(trace[n..], false)
    requires InWindow(Pulse(false, if b then 3 else 1), us)
    ensures Made(trace + [Edge(true, us)], n, MarkPulses(bits + [b]), gap, d + [us])
    ensures Level((trace + [Edge(true, us)])[n..], false)
  {
    var space := MarkPulses(bits) + [Pulse(false, if b then 3 else 1)];
    assert (bits + [b])[..|bits|] == bits;
    assert MarkPulses(bits + [b]) == space + [Pulse(true, 1)];
    assert FramePulses(bits) == MarkPulses(bits) + [Pulse(false, 0)];
    SameLevels(FramePulses(bits), space, d, gap);
    OneMoreEvent(trace, n, Edge(true, us));
    TransitionsGrow(space, d, gap, Pulse(true, 1), us);
    assert forall k :: 0 <= k < |d| ==> space[k] == FramePulses(bits)[k];
  }

  lemma Started(trace: seq<Event>, us: nat)
    ensures Made(trace + [Edge(true, us)], |trace|, MarkPulses([]), us, [])
    ensures Level((trace + [Edge(true, us)])[|trace|..], false)
  {
    OneMoreEvent(trace, |trace|, Edge(true, us));
    assert trace[|trace|..] == [];
    assert Transitions(MarkPulses([]), [], us) == [Edge(true, us)];
  }

  lemma StoreCapped(bits: seq<bool>, b: bool)
    ensures StoreBit(Capped(bits), b) == Capped(bits + [b])
  {
  }

  lemma Ignored(trace: seq<Event>, n: nat, pulses: seq<Pulse>, gap: nat, d: seq<nat>, ev: Event)
    requires Made(trace, n, pulses, gap, d) && (ev.Edge? ==> ev.mark == Level(trace[n..], false))
    ensures Made(trace + [ev], n, pulses, gap, d)
    ensures Level((trace + [ev])[n..], false) == Level(trace[n..], false)
  {
    OneMoreEvent(trace, n, ev);
  }

  lemma MarkExplained(rx: Rx, trace: seq<Event>, ev: Event, n: nat, bits: seq<bool>, gap: nat, d: seq<nat>)
    returns (n': nat, bits': seq<bool>, gap': nat, d': seq<nat>)
    requires rx.state == Mark && Explains(rx, trace, n, bits, gap, d) && Step(rx, ev).0.state != Idle
    ensures Explains(Step(rx, ev).0, trace + [ev], n', bits', gap', d')
  {
    n', bits', gap', d' := n, bits, gap, d;
    if ev.Edge? && !ev.mark {
      d' := d + [ev.us];
      MarkOver(trace, n, bits, gap, d, ev.us);
    } else {
      Ignored(trace, n, MarkPulses(bits), gap, d, ev);
    }
  }

  lemma SpaceExplained(rx: Rx, trace: seq<Event>, ev: Event, n: nat, bits: seq<bool>, gap: nat, d: seq<nat>)
    returns (n': nat, bits': seq<bool>, gap': nat, d': seq<nat>)
    requires rx.state == Space && Explains(rx, trace, n, bits, gap, d) && Step(rx, ev).0.state != Idle
    ensures Explains(Step(rx, ev).0, trace + [ev], n', bits', gap', d')
  {
    n', bits', gap', d' := n, bits, gap, d;
    if ev.Edge? && ev.mark {
      var b := ev.us >= 2200;
      bits', d' := bits + [b], d + [ev.us];
      BitStored(trace, n, bits, gap, d, ev.us, b);
      StoreCapped(bits, b);
    } else {
      Ignored(trace, n, FramePulses(bits), gap, d, ev);
    }
  }

  /** Whatever has happened to an idle decoder: if it is not idle now, what it has stored are the bits of
      pulses of the right lengths, without any other transition since the first. */
  lemma {:induction false} StoredIsMade(rx: Rx, trace: seq<Event>)
    returns (n: nat, bits: seq<bool>, gap: nat, d: seq<nat>)
    requires rx.state == Idle && Run(rx, trace).0.state != Idle
    ensures Explains(Run(rx, trace).0, trace, n, bits, gap, d)
    decreases |trace|
  {
    var front, ev := trace[..|trace| - 1], trace[|trace| - 1];
    var before := Run(rx, front).0;
    LastStep(rx, front, ev);
    assert trace == front + [ev];
    if before.state == Idle {
      n, bits, gap, d := |front|, [], ev.us, [];
      Started(front, ev.us);
    } else {
      n, bits, gap, d := StoredIsMade(rx, front);
      if before.state == Mark {
        n, bits, gap, d := MarkExplained(before, front, ev, n, bits, gap, d);
      } else {
        n, bits, gap, d := SpaceExplained(before, front, ev, n, bits, gap, d);
      }
    }
  }

  lemma LastStep(rx: Rx, front: seq<Event>, ev: Event)
    ensures Run(rx, front + [ev]).0 == Step(Run(rx, front).0, ev).0
  {
    RunConcat(rx, front, [ev]);
    assert [ev][1..] == [];
  }

  /** Everything delivered is the frame that the line made since some transition: all its marks and
      spaces in their windows, nothing between them, and then more than 10 ms of silence. */
  lemma DeliveredWasMade(rx: Rx, trace: seq<Event>, us: nat)
    returns (n: nat, bits: seq<bool>, gap: nat, d: seq<nat>)
    requires rx.state == Idle && Step(Run(rx, trace).0, Poll(us)).1 != []
    ensures n < |trace| && |d| == 2 * |bits| + 1 && InTime(bits, d) && us > 10000
    ensures Toggles(trace[n..], false) == Transitions(FramePulses(bits), d, gap)
    ensures Step(Run(rx, trace).0, Poll(us)).1 == Delivered(Capped(bits))
  {
    n, bits, gap, d := StoredIsMade(rx, trace);
  }

  // ----- what is delivered for which bytes -----

  lemma DeliveredIsDispatched(b: seq<Octet>)
    requires |b| <= 5
    ensures Delivered(WireBits(b)) == if |b| == 0 then [] else Dispatched(b)
  {
    DecodeWireBits(b);
    assert |WireBits(b)| % 8 == 0;
  }

  function Dispatched(b: seq<Octet>): seq<Delivery> {
    var d := Dispatch(b);
    if d.Some? then [d.value] else []
  }

  /** Of the frames of at most five bytes: four bytes are a hit, valid if their whole CRC is zero; five are a
      pairing frame if they begin with the preamble and their whole CRC is zero; all others are dropped. */
  lemma WhatIsDelivered(b: seq<Octet>)
    requires |b| <= 5
    ensures Delivered(WireBits(b))
         == if |b| == 4 then [HitFrame(HitPacket(b[0], b[1], b[2]), Crc(b) == ZERO)]
            else if |b| == 5 && b[0] == PAIRING_PREAMBLE && Crc(b) == ZERO then
              [PairingFrame(PairingPacket(b[1], b[2], b[3]))]
            else []
  {
    DeliveredIsDispatched(b);
    if |b| > 0 {
      FrameCrc(b);
      DispatchedExactly(b, Crc(b) == ZERO);
    }
  }

  lemma DispatchedExactly(b: seq<Octet>, valid: bool)
    requires 0 < |b| <= 5 && (valid <==> b[|b| - 1] == Crc(b[..|b| - 1]))
    ensures Dispatched(b)
         == if |b| == 4 then [HitFrame(HitPacket(b[0], b[1], b[2]), valid)]
            else if |b| == 5 && b[0] == PAIRING_PREAMBLE && valid then [PairingFrame(PairingPacket(b[1], b[2], b[3]))]
            else []
  {
  }
}
