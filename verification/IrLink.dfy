/** The infrared link: bytes to carrier pulses on the transmitter, edge intervals to bytes on the receiver. */
module IrLink {
  import opened Bytes
  import opened Octets
  import opened Crc8

  const HIT_PACKET_LEN := 4
  const PAIRING_PACKET_LEN := 5
  /** 0xFE */
  const PAIRING_PREAMBLE := Octet(true, true, true, true, true, true, true, false)
  const RX_BUF_BITS := 8 * PAIRING_PACKET_LEN

  datatype HitPacket = HitPacket(playerId: Octet, weaponId: Octet, teamId: Octet)

  /** The emitter's own address bytes 0 and 1, as the two octets of the 16-bit `addr_lsbs`. */
  datatype PairingPacket = PairingPacket(addrLow: Octet, addrHigh: Octet, playerId: Octet)

  // ===== Transmitter =====

  function HitBytes(p: HitPacket): (b: seq<Octet>)
    ensures |b| == HIT_PACKET_LEN
  {
    var raw := [p.playerId, p.weaponId, p.teamId];
    raw + [Crc(raw)]
  }

  function PairingBytes(p: PairingPacket): (b: seq<Octet>)
    ensures |b| == PAIRING_PACKET_LEN
  {
    var raw := [PAIRING_PREAMBLE, p.addrLow, p.addrHigh, p.playerId];
    raw + [Crc(raw)]
  }

  /** The bits of a byte in the order they go on the wire: least significant first. */
  function LsbBits(o: Octet): (r: seq<bool>)
    ensures |r| == 8
    ensures r[0] == o.b0 && r[1] == o.b1 && r[2] == o.b2 && r[3] == o.b3
    ensures r[4] == o.b4 && r[5] == o.b5 && r[6] == o.b6 && r[7] == o.b7
  {
    [o.b0, o.b1, o.b2, o.b3, o.b4, o.b5, o.b6, o.b7]
  }

  function WireBits(bytes: seq<Octet>): (r: seq<bool>)
    ensures |r| == 8 * |bytes|
  {
    if |bytes| == 0 then [] else WireBits(bytes[..|bytes| - 1]) + LsbBits(bytes[|bytes| - 1])
  }

  /** The carrier switched on or off, and the time slept before the next switch. */
  datatype Pulse = Pulse(on: bool, ms: nat)

  function BitPulses(bit: bool): seq<Pulse> {
    [Pulse(true, 1), Pulse(false, if bit then 3 else 1)]
  }

  function DataPulses(bits: seq<bool>): (r: seq<Pulse>)
    ensures |r| == 2 * |bits|
  {
    if |bits| == 0 then [] else DataPulses(bits[..|bits| - 1]) + BitPulses(bits[|bits| - 1])
  }

  /** The data bits followed by the stop mark, which lets the receiver measure the last space. */
  function FramePulses(bits: seq<bool>): (r: seq<Pulse>)
    ensures |r| == 2 * |bits| + 2
  {
    DataPulses(bits) + [Pulse(true, 1), Pulse(false, 0)]
  }

  lemma NextDataPulses(sent: seq<bool>, o: Octet, j: nat)
    requires j < 8
    ensures DataPulses(sent + LsbBits(o)[..j + 1]) == DataPulses(sent + LsbBits(o)[..j]) + BitPulses(o.Bit(j))
  {
    var next := sent + LsbBits(o)[..j + 1];
    assert next[..|next| - 1] == sent + LsbBits(o)[..j];
    LsbBitsAt(o, j);
  }

  lemma LsbBitsAt(o: Octet, j: nat)
    requires j < 8
    ensures LsbBits(o)[j] == o.Bit(j)
  {
  }

  /** The inner loop of the transmitter: one byte after the bits already sent. */
  method TxByte(o: Octet, ghost sent: seq<bool>) returns (pulses: seq<Pulse>)
    ensures DataPulses(sent) + pulses == DataPulses(sent + LsbBits(o))
  {
    pulses := [];
    var j := 0;
    assert sent + LsbBits(o)[..0] == sent;
    while j < 8
      invariant 0 <= j <= 8
      invariant DataPulses(sent) + pulses == DataPulses(sent + LsbBits(o)[..j])
    {
      var bit := o.Bit(j);
      NextDataPulses(sent, o, j);
      assert DataPulses(sent) + (pulses + BitPulses(bit)) == DataPulses(sent) + pulses + BitPulses(bit);
      pulses := pulses + [Pulse(true, 1), Pulse(false, if bit then 3 else 1)];
      j := j + 1;
    }
    assert LsbBits(o)[..8] == LsbBits(o);
  }

  method TxRaw(bytes: seq<Octet>) returns (pulses: seq<Pulse>)
    ensures pulses == FramePulses(WireBits(bytes))
  {
    pulses := [];
    var i := 0;
    while i < |bytes|
      invariant 0 <= i <= |bytes|
      invariant pulses == DataPulses(WireBits(bytes[..i]))
    {
      var byte := TxByte(bytes[i], WireBits(bytes[..i]));
      pulses := pulses + byte;
      assert bytes[..i + 1][..i] == bytes[..i];
      i := i + 1;
    }
    assert bytes[..|bytes|] == bytes;
    pulses := pulses + [Pulse(true, 1), Pulse(false, 0)];
  }

  // ===== Receiver =====

  datatype RxState = Idle | Mark | Space

  /** The decoder: its state and the bits stored since the last reset. */
  datatype Rx = Rx(state: RxState, bits: seq<bool>)

  const RESET := Rx(Idle, [])

  datatype Delivery = HitFrame(packet: HitPacket, crcValid: bool) | PairingFrame(pairing: PairingPacket)

  function StoreBit(bits: seq<bool>, value: bool): seq<bool> {
    if |bits| >= RX_BUF_BITS then bits else bits + [value]
  }

  /** One line transition: `mark` is the new level, `deltaUs` the time since the previous transition. */
  function EdgeStep(rx: Rx, mark: bool, deltaUs: nat): Rx {
    if mark then
      match rx.state
      case Idle => Rx(Mark, [])
      case Mark => rx
      case Space =>
        if 500 <= deltaUs < 2200 then Rx(Mark, StoreBit(rx.bits, false))
        else if 2200 <= deltaUs < 5000 then Rx(Mark, StoreBit(rx.bits, true))
        else rx.(state := Idle)
    else
      match rx.state
      case Mark => rx.(state := if 500 <= deltaUs < 2500 then Space else Idle)
      case _ => rx
  }

  /** Bits packed into a byte, the first bit least significant. */
  function PackByte(bits: seq<bool>): Octet
    requires |bits| <= 8
  {
    if |bits| == 0 then ZERO
    else
      var n := |bits| - 1;
      if bits[n] then PackByte(bits[..n]).SetBit(n) else PackByte(bits[..n])
  }

  /** The stored bits that fall into byte `i` of the receive buffer. */
  function Chunk(bits: seq<bool>, i: nat): (r: seq<bool>)
    ensures |r| <= 8
  {
    if |bits| <= 8 * i then []
    else if |bits| <= 8 * i + 8 then bits[8 * i..]
    else bits[8 * i..8 * i + 8]
  }

  function DecodedBytes(bits: seq<bool>): (r: seq<Octet>)
    ensures |r| == |bits| / 8
  {
    seq(|bits| / 8, i requires 0 <= i < |bits| / 8 => PackByte(Chunk(bits, i)))
  }

  /** What the polling loop hands to the application for a complete frame. */
  function Dispatch(buf: seq<Octet>): Option<Delivery> {
    if |buf| == HIT_PACKET_LEN then
      Some(HitFrame(HitPacket(buf[0], buf[1], buf[2]), buf[3] == Crc(buf[..3])))
    else if |buf| == PAIRING_PACKET_LEN && buf[0] == PAIRING_PREAMBLE && buf[4] == Crc(buf[..4]) then
      Some(PairingFrame(PairingPacket(buf[1], buf[2], buf[3])))
    else
      None
  }

  predicate EndOfFrame(rx: Rx, sinceUs: nat) {
    rx.state == Space && sinceUs > 10000
  }

  /** One pass of the polling loop, `sinceUs` after the last transition. */
  function PollStep(rx: Rx, sinceUs: nat): (Rx, Option<Delivery>) {
    if EndOfFrame(rx, sinceUs) then
      (RESET, if |rx.bits| % 8 == 0 && |rx.bits| > 0 then Dispatch(DecodedBytes(rx.bits)) else None)
    else
      (rx, None)
  }

  /** Storing a bit changes exactly the buffer byte it belongs to. */
  lemma StoredBitChunk(bits: seq<bool>, value: bool, i: nat)
    requires |bits| < RX_BUF_BITS
    ensures Chunk(bits + [value], i)
         == if i == |bits| / 8 then Chunk(bits, i) + [value] else Chunk(bits, i)
    ensures |Chunk(bits, |bits| / 8)| == |bits| % 8
  {
    var all := bits + [value];
    if i < |bits| / 8 {
      assert all[8 * i..8 * i + 8] == bits[8 * i..8 * i + 8];
    } else if i == |bits| / 8 {
      assert all[8 * i..] == bits[8 * i..] + [value];
    }
  }

  /** The receiver's static variables, changed by the edge interrupt and by the polling loop.
      A poll runs as one step: the snapshot is taken with interrupts locked, and nothing the
      interrupt touches is read afterwards. */
  class IrReceiver {
    var rxState: RxState
    var bitCount: nat
    var rxBytes: array<Octet>
    var dataReady: bool
    var decodedBytes: array<Octet>
    var decodedLen: nat
    ghost var bits: seq<bool>

    ghost predicate Valid()
      reads this, rxBytes
    {
      && rxBytes.Length == decodedBytes.Length == PAIRING_PACKET_LEN
      && rxBytes != decodedBytes
      && bitCount == |bits| <= RX_BUF_BITS
      && !dataReady
      && forall i :: 0 <= i < PAIRING_PACKET_LEN ==> rxBytes[i] == PackByte(Chunk(bits, i))
    }

    ghost function Abs(): Rx
      reads this
    {
      Rx(rxState, bits)
    }

    constructor ()
      ensures Valid() && Abs() == RESET
      ensures fresh(rxBytes) && fresh(decodedBytes)
    {
      rxState, bitCount, dataReady, decodedLen := Idle, 0, false, 0;
      bits := [];
      rxBytes := new Octet[PAIRING_PACKET_LEN](_ => ZERO);
      decodedBytes := new Octet[PAIRING_PACKET_LEN](_ => ZERO);
    }

    method ClearBits()
      requires Valid()
      modifies this`bitCount, this`bits, rxBytes
      ensures Valid() && bits == []
    {
      bitCount, bits := 0, [];
      forall i | 0 <= i < rxBytes.Length {
        rxBytes[i] := ZERO;
      }
    }

    method Reset()
      requires Valid()
      modifies this`rxState, this`bitCount, this`bits, rxBytes
      ensures Valid() && Abs() == RESET
    {
      rxState := Idle;
      ClearBits();
    }

    method Store(value: bool)
      requires Valid()
      modifies this`bitCount, this`bits, rxBytes
      ensures Valid() && bits == StoreBit(old(bits), value)
    {
      if bitCount >= RX_BUF_BITS {
        return;
      }
      forall i | 0 <= i < PAIRING_PACKET_LEN
        ensures Chunk(bits + [value], i) == if i == |bits| / 8 then Chunk(bits, i) + [value] else Chunk(bits, i)
      {
        StoredBitChunk(bits, value, i);
      }
      StoredBitChunk(bits, value, bitCount / 8);
      assert (Chunk(bits, bitCount / 8) + [value])[..bitCount % 8] == Chunk(bits, bitCount / 8);
      if value {
        rxBytes[bitCount / 8] := rxBytes[bitCount / 8].SetBit(bitCount % 8);
      }
      bitCount, bits := bitCount + 1, bits + [value];
    }

    /** The interrupt handler. */
    method IrTriggered(mark: bool, deltaUs: nat)
      requires Valid()
      modifies this`rxState, this`bitCount, this`bits, rxBytes
      ensures Valid() && Abs() == EdgeStep(old(Abs()), mark, deltaUs)
    {
      if mark {
        if rxState == Idle {
          rxState := Mark;
          ClearBits();
        } else if rxState == Space {
          if 500 <= deltaUs < 2200 {
            Store(false);
            rxState := Mark;
          } else if 2200 <= deltaUs < 5000 {
            Store(true);
            rxState := Mark;
          } else {
            rxState := Idle;
          }
        }
      } else {
        if rxState == Mark {
          if 500 <= deltaUs < 2500 {
            rxState := Space;
          } else {
            rxState := Idle;
          }
        }
      }
    }

    /** The part of the polling loop that runs with interrupts locked: cuts a frame after a long silence. */
    method CutFrame(sinceUs: nat)
      requires Valid()
      modifies this, rxBytes, decodedBytes
      ensures rxBytes == old(rxBytes) && decodedBytes == old(decodedBytes)
      ensures var ready := EndOfFrame(old(Abs()), sinceUs) && old(bitCount) % 8 == 0 && old(bitCount) > 0;
              && dataReady == ready
              && (ready ==> decodedLen <= decodedBytes.Length
                            && decodedBytes[..decodedLen] == DecodedBytes(old(bits)))
      ensures Abs() == if EndOfFrame(old(Abs()), sinceUs) then RESET else old(Abs())
      ensures bitCount == |bits| <= RX_BUF_BITS
      ensures forall i :: 0 <= i < PAIRING_PACKET_LEN ==> rxBytes[i] == PackByte(Chunk(bits, i))
    {
      if rxState == Space {
        if sinceUs > 10000 {
          if bitCount % 8 == 0 && bitCount > 0 && !dataReady {
            decodedLen := bitCount / 8;
            forall i | 0 <= i < decodedLen {
              decodedBytes[i] := rxBytes[i];
            }
            dataReady := true;
            assert decodedBytes[..decodedLen] == DecodedBytes(bits);
          }
          rxState := Idle;
          bitCount, bits := 0, [];
          forall i | 0 <= i < rxBytes.Length {
            rxBytes[i] := ZERO;
          }
        }
      }
    }

    /** The polling loop; the result is the callback it makes. */
    method RxLoop(sinceUs: nat) returns (d: Option<Delivery>)
      requires Valid()
      modifies this, rxBytes, decodedBytes
      ensures Valid() && rxBytes == old(rxBytes) && decodedBytes == old(decodedBytes)
      ensures (Abs(), d) == PollStep(old(Abs()), sinceUs)
    {
      CutFrame(sinceUs);
      if !dataReady {
        return None;
      }
      var buf := decodedBytes[..decodedLen];
      dataReady := false;
      d := DispatchFrame(buf);
    }
  }

  method DispatchFrame(buf: seq<Octet>) returns (d: Option<Delivery>)
    ensures d == Dispatch(buf)
  {
    d := None;
    if |buf| == HIT_PACKET_LEN {
      var crc := Calc(buf[..3]);
      d := Some(HitFrame(HitPacket(buf[0], buf[1], buf[2]), buf[3] == crc));
    } else if |buf| == PAIRING_PACKET_LEN && buf[0] == PAIRING_PREAMBLE {
      var crc := Calc(buf[..4]);
      if buf[4] == crc {
        d := Some(PairingFrame(PairingPacket(buf[1], buf[2], buf[3])));
      }
    }
  }
}
