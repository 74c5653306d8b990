/** One node of the mesh: building frames, repeating them, and filtering, forwarding and relaying
    what is received. */
module MeshNode {
  import opened Bytes
  import opened DedupRing

  const HEADER_SIZE := 6
  const DEFAULT_TTL: byte := 3
  const DEDUP_SIZE := 64
  const BUF_SIZE := 256
  const FORWARD_MAX := 254

  const GAME_START: byte := 0x05
  const PLAYER_STATE: byte := 0x10
  /** First byte of a frame forwarded to the phone. */
  const FORWARD_OPCODE: byte := 0x05

  type Frame = seq<byte>

  /** What the duplicate filter remembers of a frame. */
  datatype Key = Key(origin: byte, seqNum: u16)

  function KeyOf(f: Frame): Key
    requires |f| >= HEADER_SIZE
  {
    Key(f[1], GetLe16(f[2], f[3]))
  }

  function Ttl(f: Frame): byte {
    if |f| >= HEADER_SIZE then f[4] else 0
  }

  /** The relay slot and the repeat slot hold one frame each; `phone` means a phone is connected. */
  datatype Node = Node(player: byte, team: byte, seqCounter: u16, window: seq<Key>,
                       relay: Frame, relayScheduled: bool,
                       repeat: Frame, remaining: nat, repeatScheduled: bool, phone: bool)

  // ----- sending -----

  function PacketHeader(player: byte, seqNum: u16, meshType: byte, payloadLen: byte): (h: Frame)
    ensures |h| == HEADER_SIZE
  {
    [meshType, player] + PutLe16(seqNum) + [DEFAULT_TTL, payloadLen]
  }

  /** A frame with a new sequence number, or nothing when it would not fit the buffer. */
  function Build(n: Node, meshType: byte, payload: seq<byte>): (Node, Option<Frame>)
    requires |payload| < 0x100
  {
    if HEADER_SIZE + |payload| > BUF_SIZE then (n, None)
    else
      var frame := PacketHeader(n.player, n.seqCounter, meshType, |payload|) + payload;
      (n.(seqCounter := U16(n.seqCounter + 1)), Some(frame))
  }

  /** Sends a new frame once and schedules `count` - 1 repetitions. The frames in the result are those
      handed to the transmitter. */
  function Broadcast(n: Node, meshType: byte, payload: seq<byte>, count: byte): (Node, seq<Frame>)
    requires |payload| < 0x100
  {
    var (n1, frame) := Build(n, meshType, payload);
    if frame == None then (n1, [])
    else if count > 1 then
      (n1.(repeat := frame.value, remaining := count - 1, repeatScheduled := true), [frame.value])
    else (n1, [frame.value])
  }

  /** The length of the configuration is passed on in eight bits. */
  function BroadcastGameStart(n: Node, config: seq<byte>, count: byte): (Node, seq<Frame>) {
    Broadcast(n, GAME_START, config[..|config| % 0x100], count)
  }

  function OnRepeat(n: Node): (Node, seq<Frame>) {
    var n1 := n.(repeatScheduled := false);
    if n.remaining == 0 then (n1, [])
    else (n1.(remaining := n.remaining - 1, repeatScheduled := n.remaining > 1), [n.repeat])
  }

  // ----- receiving -----

  /** The team byte of a player-state frame. The filter trusts the payload length in the header: in a
      frame shorter than that it reads `overrun`, whatever follows the frame in memory. */
  function TeamByte(f: Frame, overrun: byte): byte {
    if |f| > HEADER_SIZE + 1 then f[HEADER_SIZE + 1] else overrun
  }

  /** Player states pass only among the team they belong to. */
  predicate Passes(n: Node, f: Frame, overrun: byte)
    requires |f| >= HEADER_SIZE
  {
    f[0] == PLAYER_STATE && f[5] >= 2 ==> TeamByte(f, overrun) == n.team
  }

  function Relayed(f: Frame): Frame
    requires |f| >= HEADER_SIZE && f[4] > 0
  {
    f[4 := f[4] - 1]
  }

  /** What a received frame makes the node do besides changing its state: the bytes notified to the
      phone, and the configuration handed to the game-start callback. */
  datatype Effects = Effects(forwarded: Option<seq<byte>>, gameStart: Option<seq<byte>>)

  const NOTHING := Effects(None, None)

  /** The node takes up the frame: not too short, not its own, not a duplicate. */
  predicate New(n: Node, f: Frame) {
    |f| >= HEADER_SIZE && f[1] != n.player && KeyOf(f) !in n.window
  }

  function Forwarded(n: Node, f: Frame): Option<seq<byte>> {
    if n.phone && 0 < |f| <= FORWARD_MAX then Some([FORWARD_OPCODE] + f) else None
  }

  function StartConfig(f: Frame): Option<seq<byte>>
    requires |f| >= HEADER_SIZE
  {
    if f[0] == GAME_START && HEADER_SIZE + f[5] <= |f| then Some(f[HEADER_SIZE..HEADER_SIZE + f[5]]) else None
  }

  function Relay(n: Node, f: Frame): Node {
    if HEADER_SIZE <= |f| <= BUF_SIZE && f[4] > 0 then n.(relay := Relayed(f), relayScheduled := true) else n
  }

  function Process(n: Node, f: Frame, overrun: byte): (Node, Effects) {
    if !New(n, f) then (n, NOTHING)
    else
      var n1 := n.(window := Push(n.window, KeyOf(f), DEDUP_SIZE));
      if Passes(n, f, overrun) then (Relay(n1, f), Effects(Forwarded(n, f), StartConfig(f)))
      else (n1, Effects(None, StartConfig(f)))
  }

  /** Mesh frames are taken from the scanner only while a phone is connected. */
  function OnScan(n: Node, f: Frame, overrun: byte): (Node, Effects) {
    if n.phone then Process(n, f, overrun) else (n, NOTHING)
  }

  function OnRelay(n: Node): (Node, seq<Frame>) {
    (n.(relayScheduled := false), [n.relay])
  }

  // ----- the program -----

  class MeshStore {
    var localPlayerId: byte
    var localTeamId: byte
    var seqCounter: u16
    var dedup: Ring<Key>
    var relayBuf: array<byte>
    var relayLen: nat
    var relayScheduled: bool
    var repeatBuf: array<byte>
    var repeatLen: nat
    var repeatRemaining: nat
    var repeatScheduled: bool
    var phoneConn: bool

    ghost predicate Valid()
      reads this, dedup, dedup.entries
    {
      && dedup.Valid() && dedup.entries.Length == DEDUP_SIZE
      && relayBuf.Length == repeatBuf.Length == BUF_SIZE && relayBuf != repeatBuf
      && relayLen <= BUF_SIZE && repeatLen <= BUF_SIZE
    }

    ghost function Abs(): Node
      requires Valid()
      reads this, dedup, dedup.entries, relayBuf, repeatBuf
    {
      Node(localPlayerId, localTeamId, seqCounter, dedup.window, relayBuf[..relayLen], relayScheduled,
           repeatBuf[..repeatLen], repeatRemaining, repeatScheduled, phoneConn)
    }

    constructor ()
      ensures Valid() && fresh(dedup) && fresh(dedup.entries) && fresh(relayBuf) && fresh(repeatBuf)
      ensures Abs() == Node(0, 0, 0, [], [], false, [], 0, false, false)
    {
      localPlayerId, localTeamId, seqCounter := 0, 0, 0;
      dedup := new Ring<Key>(DEDUP_SIZE);
      relayBuf := new byte[BUF_SIZE](_ => 0);
      repeatBuf := new byte[BUF_SIZE](_ => 0);
      relayLen, relayScheduled := 0, false;
      repeatLen, repeatRemaining, repeatScheduled := 0, 0, false;
      phoneConn := false;
    }

    /** Writes the frame into `buf`; the result is its length, 0 when it does not fit. */
    method BuildMeshPacket(buf: array<byte>, meshType: byte, payload: seq<byte>) returns (len: nat)
      requires Valid() && buf.Length == BUF_SIZE && |payload| < 0x100
      requires buf != relayBuf && buf != repeatBuf
      modifies buf, this`seqCounter
      ensures Valid() && len <= BUF_SIZE
      ensures (Abs(), if len == 0 then None else Some(buf[..len])) == Build(old(Abs()), meshType, payload)
    {
      if HEADER_SIZE + |payload| > BUF_SIZE {
        return 0;
      }
      FillPacket(buf, meshType, payload);
      seqCounter := (seqCounter + 1) % 0x1_0000;
      return HEADER_SIZE + |payload|;
    }

    method FillPacket(buf: array<byte>, meshType: byte, payload: seq<byte>)
      requires Valid() && buf.Length == BUF_SIZE && HEADER_SIZE + |payload| <= BUF_SIZE
      modifies buf
      ensures buf[..HEADER_SIZE + |payload|] == PacketHeader(localPlayerId, seqCounter, meshType, |payload|) + payload
    {
      buf[0], buf[1] := meshType, localPlayerId;
      buf[2], buf[3] := seqCounter % 0x100, seqCounter / 0x100;
      buf[4], buf[5] := DEFAULT_TTL, |payload|;
      forall i | 0 <= i < |payload| {
        buf[HEADER_SIZE + i] := payload[i];
      }
      assert buf[..HEADER_SIZE] == PacketHeader(localPlayerId, seqCounter, meshType, |payload|);
    }

    method BroadcastWithRepeat(meshType: byte, payload: seq<byte>, count: byte) returns (out: seq<Frame>)
      requires Valid() && |payload| < 0x100
      modifies this`seqCounter, this`repeatLen, this`repeatRemaining, this`repeatScheduled, repeatBuf
      ensures Valid() && (Abs(), out) == Broadcast(old(Abs()), meshType, payload, count)
    {
      var buf := new byte[BUF_SIZE](_ => 0);
      var len := BuildMeshPacket(buf, meshType, payload);
      if len == 0 {
        return [];
      }
      out := [buf[..len]];
      if count > 1 {
        KeepForRepeat(buf[..len]);
        repeatRemaining := count - 1;
        repeatScheduled := true;
      }
    }

    method KeepForRepeat(frame: Frame)
      requires Valid() && |frame| <= BUF_SIZE
      modifies this`repeatLen, repeatBuf
      ensures Valid() && repeatBuf[..repeatLen] == frame
    {
      forall i | 0 <= i < |frame| {
        repeatBuf[i] := frame[i];
      }
      repeatLen := |frame|;
    }

    method GameStart(config: seq<byte>, count: byte) returns (out: seq<Frame>)
      requires Valid()
      modifies this`seqCounter, this`repeatLen, this`repeatRemaining, this`repeatScheduled, repeatBuf
      ensures Valid() && (Abs(), out) == BroadcastGameStart(old(Abs()), config, count)
    {
      out := BroadcastWithRepeat(GAME_START, config[..|config| % 0x100], count);
    }

    method RepeatWork() returns (out: seq<Frame>)
      requires Valid()
      modifies this`repeatRemaining, this`repeatScheduled
      ensures Valid() && (Abs(), out) == OnRepeat(old(Abs()))
    {
      repeatScheduled := false;
      out := [];
      if repeatRemaining > 0 {
        repeatRemaining := repeatRemaining - 1;
        out := [repeatBuf[..repeatLen]];
        if repeatRemaining > 0 {
          repeatScheduled := true;
        }
      }
    }

    method RelayMessage(data: Frame)
      requires Valid()
      requires |data| >= HEADER_SIZE ==> data[4] > 0
      modifies this`relayLen, this`relayScheduled, relayBuf
      ensures Valid() && Abs() == Relay(old(Abs()), data)
    {
      if |data| < HEADER_SIZE || |data| > BUF_SIZE {
        return;
      }
      forall i | 0 <= i < |data| {
        relayBuf[i] := data[i];
      }
      relayLen := |data|;
      assert relayBuf[..relayLen] == data;
      relayBuf[4] := relayBuf[4] - 1;
      assert relayBuf[..relayLen] == Relayed(data);
      relayScheduled := true;
    }

    method RelayWork() returns (out: seq<Frame>)
      requires Valid()
      modifies this`relayScheduled
      ensures Valid() && (Abs(), out) == OnRelay(old(Abs()))
    {
      relayScheduled := false;
      out := [relayBuf[..relayLen]];
    }

    method ProcessReceived(data: Frame, overrun: byte) returns (effects: Effects)
      requires Valid()
      modifies this`relayLen, this`relayScheduled, relayBuf, dedup`next, dedup`window, dedup.entries
      ensures Valid() && (Abs(), effects) == Process(old(Abs()), data, overrun)
    {
      if |data| < HEADER_SIZE {
        return NOTHING;
      }
      if data[1] == localPlayerId {
        return NOTHING;
      }
      var duplicate := dedup.CheckAndInsert(KeyOf(data));
      if duplicate {
        return NOTHING;
      }
      effects := Handle(data, overrun);
    }

    /** A frame that is new to this node. */
    method Handle(data: Frame, overrun: byte) returns (effects: Effects)
      requires Valid() && |data| >= HEADER_SIZE
      modifies this`relayLen, this`relayScheduled, relayBuf
      ensures Valid() && Abs() == if Passes(old(Abs()), data, overrun) then Relay(old(Abs()), data) else old(Abs())
      ensures effects.gameStart == StartConfig(data)
      ensures effects.forwarded == if Passes(old(Abs()), data, overrun) then Forwarded(old(Abs()), data) else None
    {
      var shouldRelay, shouldForward := true, true;
      if data[0] == PLAYER_STATE && data[5] >= 2 {
        var msgTeamId := TeamByte(data, overrun);
        if msgTeamId != localTeamId {
          shouldRelay, shouldForward := false, false;
        }
      }
      var start := None;
      if data[0] == GAME_START && HEADER_SIZE + data[5] <= |data| {
        start := Some(data[HEADER_SIZE..HEADER_SIZE + data[5]]);
      }
      var forwarded := None;
      if shouldForward && phoneConn && |data| <= FORWARD_MAX {
        forwarded := Some([FORWARD_OPCODE] + data);
      }
      if shouldRelay && data[4] > 0 {
        RelayMessage(data);
      }
      effects := Effects(forwarded, start);
    }
  }
}
