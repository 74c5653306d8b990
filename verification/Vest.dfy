/** The vest: infrared pairing, hit notification with bounded retry, and the emitter's commands. */
module Vest {
  import opened Bytes
  import opened Octets
  import opened Protocol
  import IrLink

  const HIT_RETRY_MAX_COUNT := 10

  datatype State = Unpaired | PairedIdle | GameActive | Dead

  /** A Bluetooth address: its two lowest bytes, which the pairing frame carries, and the rest. */
  datatype Address = Address(low: Octet, high: Octet, rest: seq<byte>)

  /** Identity bytes carried by a pairing frame. */
  datatype Lsbs = Lsbs(low: Octet, high: Octet)

  function LsbsOf(a: Address): Lsbs { Lsbs(a.low, a.high) }

  const NO_ADDRESS := Address(ZERO, ZERO, [])

  datatype Pairing = Pairing(addr: Address, paired: bool, expected: Lsbs, pending: bool, timeout: bool)
  datatype Friends = Friends(ids: seq<byte>, count: nat, fire: bool)
  datatype Hit = Hit(buf: seq<byte>, id: u16, pending: bool, retries: nat, scheduled: bool)

  datatype Vest = Vest(state: State, connected: bool, pairing: Pairing, friends: Friends, hit: Hit)

  const NO_FRIENDS: seq<byte> := [0, 0, 0, 0, 0, 0, 0, 0, 0, 0, 0, 0, 0, 0, 0, 0]
  const NO_PAYLOAD: seq<byte> := [0, 0, 0, 0, 0]

  const POWER_ON := Vest(Unpaired, false, Pairing(NO_ADDRESS, false, Lsbs(ZERO, ZERO), false, false),
                         Friends(NO_FRIENDS, 0, false), Hit(NO_PAYLOAD, 0, false, 0, false))

  predicate Shape(v: Vest) {
    |v.friends.ids| == MAX_PLAYERS && v.friends.count <= MAX_PLAYERS && |v.hit.buf| == HIT_PAYLOAD_SIZE
  }

  // ----- hits -----

  predicate IsFriendly(f: Friends, player: byte)
    requires f.count <= |f.ids|
  {
    !f.fire && player in f.ids[..f.count]
  }

  function HitPayload(id: u16, p: IrLink.HitPacket): (b: seq<byte>)
    ensures |b| == HIT_PAYLOAD_SIZE
  {
    PutLe16(id) + [p.playerId.ToNat(), p.weaponId.ToNat(), p.teamId.ToNat()]
  }

  /** A hit the vest takes up. */
  predicate TakesHit(v: Vest, p: IrLink.HitPacket, crcValid: bool)
    requires Shape(v)
  {
    crcValid && v.state == GameActive && !IsFriendly(v.friends, p.playerId.ToNat()) && !v.hit.pending
  }

  /** Sends the pending hit; the second result is the notification, if there is a link to carry it. */
  function SendHit(h: Hit, connected: bool): (Hit, Option<seq<byte>>) {
    if connected then (h, Some(h.buf)) else (h.(pending := false), None)
  }

  /** Makes the payload the pending hit, sends it and schedules its first retry. */
  function TakeUp(payload: seq<byte>, id: u16, connected: bool): (Hit, Option<seq<byte>>) {
    var (h, out) := SendHit(Hit(payload, id, true, 0, false), connected);
    (h.(scheduled := true), out)
  }

  /** An infrared hit frame; `id` is the random packet id drawn for it. */
  function OnIrRx(v: Vest, p: IrLink.HitPacket, crcValid: bool, id: u16): (Vest, Option<seq<byte>>)
    requires Shape(v)
  {
    if !TakesHit(v, p, crcValid) then (v, None)
    else
      var (h, out) := TakeUp(HitPayload(id, p), id, v.connected);
      (v.(hit := h), out)
  }

  /** The retry work item runs (it is no longer scheduled when it does). */
  function Retry(h: Hit, connected: bool): (Hit, Option<seq<byte>>) {
    if !h.pending then (h.(scheduled := false), None)
    else if h.retries + 1 >= HIT_RETRY_MAX_COUNT then
      (h.(scheduled := false, retries := h.retries + 1, pending := false), None)
    else
      var (h', out) := SendHit(h.(retries := h.retries + 1), connected);
      (h'.(scheduled := true), out)
  }

  function OnRetry(v: Vest): (Vest, Option<seq<byte>>) {
    var (h, out) := Retry(v.hit, v.connected);
    (v.(hit := h), out)
  }

  // ----- commands from the emitter -----

  function DropHit(h: Hit): Hit {
    h.(pending := false, scheduled := false)
  }

  function OnHitAck(v: Vest, id: u16): Vest {
    if v.hit.pending && id == v.hit.id then v.(hit := DropHit(v.hit)) else v
  }

  function ListFriends(f: Friends, data: seq<byte>): Friends
    requires |f.ids| == MAX_PLAYERS && |data| >= 2
  {
    var count := if data[1] > MAX_PLAYERS then MAX_PLAYERS else data[1];
    f.(count := count, ids := if |data| >= 2 + count then data[2..2 + count] + f.ids[count..] else f.ids)
  }

  function OnFriendlyList(v: Vest, data: seq<byte>): Vest
    requires Shape(v) && |data| >= 2
  {
    v.(friends := ListFriends(v.friends, data), state := if v.state == PairedIdle then GameActive else v.state)
  }

  /** Forgets the binding, as the unpair command and the unpair button do. */
  function Forget(v: Vest): Vest {
    v.(pairing := v.pairing.(paired := false, pending := false, timeout := false), state := Unpaired,
       friends := v.friends.(count := 0), hit := v.hit.(pending := false))
  }

  function OnCommand(v: Vest, data: seq<byte>): Vest
    requires Shape(v)
  {
    if |data| == 0 then v
    else if data[0] == VEST_CMD_HIT_ACK then
      if |data| >= 3 then OnHitAck(v, GetLe16(data[1], data[2])) else v
    else if data[0] == VEST_CMD_FRIENDLY_LIST then
      if |data| >= 2 then OnFriendlyList(v, data) else v
    else if data[0] == VEST_CMD_DEATH then v.(state := Dead, hit := DropHit(v.hit))
    else if data[0] == VEST_CMD_RESPAWN then v.(state := GameActive)
    else if data[0] == VEST_CMD_FRIENDLY_FIRE then
      if |data| >= 2 then v.(friends := v.friends.(fire := data[1] != 0)) else v
    else if data[0] == VEST_CMD_UNPAIR then Forget(v)
    else v
  }

  // ----- pairing and the link -----

  function OnIrPairing(v: Vest, p: IrLink.PairingPacket): Vest {
    if v.state != Unpaired || v.pairing.pending then v
    else v.(pairing := v.pairing.(expected := Lsbs(p.addrLow, p.addrHigh), pending := true, timeout := true))
  }

  /** The pairing window's timeout work item runs. */
  function OnPairTimeout(v: Vest): Vest {
    var pending := v.pairing.paired && v.pairing.pending;
    v.(pairing := v.pairing.(timeout := false, pending := pending))
  }

  /** Whether a connecting peer is let in. */
  predicate Admits(p: Pairing, peer: Address) {
    if p.paired then peer == p.addr else p.pending && LsbsOf(peer) == p.expected
  }

  function OnConnected(v: Vest, peer: Address): Vest {
    if !Admits(v.pairing, peer) then v
    else if v.pairing.paired then v.(connected := true)
    else v.(pairing := v.pairing.(addr := peer, paired := true, pending := false, timeout := false),
            state := PairedIdle, connected := true)
  }

  function OnDisconnected(v: Vest): Vest {
    v.(connected := false, hit := DropHit(v.hit),
       state := if v.state == GameActive || v.state == Dead then PairedIdle else v.state)
  }

  // ----- the program -----

  class VestStore {
    var currentState: State
    var linked: bool
    var pairedEmitterAddr: Address
    var hasPairedAddr: bool
    var expectedAddrLsbs: Lsbs
    var pairPending: bool
    var timeoutScheduled: bool
    var friendlyIds: array<byte>
    var friendlyCount: nat
    var friendlyFireEnabled: bool
    var pendingHitBuf: array<byte>
    var pendingHitId: u16
    var hitPending: bool
    var hitRetryCount: nat
    var retryScheduled: bool

    ghost predicate Valid()
      reads this
    {
      && friendlyIds.Length == MAX_PLAYERS && friendlyCount <= MAX_PLAYERS
      && pendingHitBuf.Length == HIT_PAYLOAD_SIZE
      && friendlyIds != pendingHitBuf
    }

    ghost function AbsPairing(): Pairing
      reads this
    {
      Pairing(pairedEmitterAddr, hasPairedAddr, expectedAddrLsbs, pairPending, timeoutScheduled)
    }

    ghost function AbsFriends(): Friends
      reads this, friendlyIds
    {
      Friends(friendlyIds[..], friendlyCount, friendlyFireEnabled)
    }

    ghost function AbsHit(): Hit
      reads this, pendingHitBuf
    {
      Hit(pendingHitBuf[..], pendingHitId, hitPending, hitRetryCount, retryScheduled)
    }

    ghost function Abs(): Vest
      reads this, friendlyIds, pendingHitBuf
    {
      Vest(currentState, linked, AbsPairing(), AbsFriends(), AbsHit())
    }

    constructor ()
      ensures Valid() && Abs() == POWER_ON && fresh(friendlyIds) && fresh(pendingHitBuf)
    {
      currentState, linked, pairedEmitterAddr, hasPairedAddr := Unpaired, false, NO_ADDRESS, false;
      expectedAddrLsbs, pairPending, timeoutScheduled := Lsbs(ZERO, ZERO), false, false;
      friendlyIds := new byte[MAX_PLAYERS](_ => 0);
      friendlyCount, friendlyFireEnabled := 0, false;
      pendingHitBuf := new byte[HIT_PAYLOAD_SIZE](_ => 0);
      pendingHitId, hitPending, hitRetryCount, retryScheduled := 0, false, 0, false;
      new;
      assert friendlyIds[..] == NO_FRIENDS;
      assert pendingHitBuf[..] == NO_PAYLOAD;
    }

    method CheckFriendly(playerId: byte) returns (friendly: bool)
      requires Valid()
      ensures friendly == IsFriendly(AbsFriends(), playerId)
    {
      if friendlyFireEnabled {
        return false;
      }
      var i := 0;
      while i < friendlyCount
        invariant 0 <= i <= friendlyCount
        invariant playerId !in friendlyIds[..i]
      {
        if friendlyIds[i] == playerId {
          assert friendlyIds[..][..friendlyCount][i] == playerId;
          return true;
        }
        i := i + 1;
      }
      assert friendlyIds[..][..friendlyCount] == friendlyIds[..i];
      return false;
    }

    method SendHitNotification() returns (out: Option<seq<byte>>)
      modifies this`hitPending
      ensures (AbsHit(), out) == SendHit(old(AbsHit()), linked)
    {
      if !linked {
        hitPending := false;
        return None;
      }
      return Some(pendingHitBuf[..]);
    }

    method FillHitBuf(id: u16, p: IrLink.HitPacket)
      requires pendingHitBuf.Length == HIT_PAYLOAD_SIZE
      modifies pendingHitBuf
      ensures pendingHitBuf[..] == HitPayload(id, p)
    {
      pendingHitBuf[0] := id % 0x100;
      pendingHitBuf[1] := id / 0x100;
      pendingHitBuf[2] := p.playerId.ToNat();
      pendingHitBuf[3] := p.weaponId.ToNat();
      pendingHitBuf[4] := p.teamId.ToNat();
    }

    method IrRx(p: IrLink.HitPacket, crcValid: bool, random: u16) returns (out: Option<seq<byte>>)
      requires Valid()
      modifies this`pendingHitId, this`hitPending, this`hitRetryCount, this`retryScheduled, pendingHitBuf
      ensures Valid() && (Abs(), out) == OnIrRx(old(Abs()), p, crcValid, random)
    {
      if !crcValid {
        return None;
      }
      if currentState != GameActive {
        return None;
      }
      var friendly := CheckFriendly(p.playerId.ToNat());
      if friendly {
        return None;
      }
      if hitPending {
        return None;
      }
      FillHitBuf(random, p);
      out := QueueHit(random);
    }

    method QueueHit(id: u16) returns (out: Option<seq<byte>>)
      modifies this`pendingHitId, this`hitPending, this`hitRetryCount, this`retryScheduled
      ensures (AbsHit(), out) == TakeUp(pendingHitBuf[..], id, linked)
    {
      pendingHitId := id;
      hitPending := true;
      hitRetryCount := 0;
      out := SendHitNotification();
      retryScheduled := true;
    }

    method HitRetry() returns (out: Option<seq<byte>>)
      requires Valid()
      modifies this`hitPending, this`hitRetryCount, this`retryScheduled
      ensures Valid() && (Abs(), out) == OnRetry(old(Abs()))
    {
      retryScheduled := false;
      if !hitPending {
        return None;
      }
      hitRetryCount := hitRetryCount + 1;
      if hitRetryCount >= HIT_RETRY_MAX_COUNT {
        hitPending := false;
        return None;
      }
      out := SendHitNotification();
      retryScheduled := true;
    }

    method FriendlyList(data: seq<byte>)
      requires Valid() && |data| >= 2
      modifies this`currentState, this`friendlyCount, friendlyIds
      ensures Valid() && Abs() == OnFriendlyList(old(Abs()), data)
    {
      friendlyCount := data[1];
      if friendlyCount > MAX_PLAYERS {
        friendlyCount := MAX_PLAYERS;
      }
      if |data| >= 2 + friendlyCount {
        forall i | 0 <= i < friendlyCount {
          friendlyIds[i] := data[2 + i];
        }
        assert friendlyIds[..] == data[2..2 + friendlyCount] + old(friendlyIds[..])[friendlyCount..];
      }
      if currentState == PairedIdle {
        currentState := GameActive;
      }
    }

    method EmitterCmd(data: seq<byte>)
      requires Valid()
      modifies this, friendlyIds
      ensures Valid() && Abs() == OnCommand(old(Abs()), data)
      ensures friendlyIds == old(friendlyIds) && pendingHitBuf == old(pendingHitBuf)
    {
      if |data| == 0 {
        return;
      }
      if data[0] == VEST_CMD_HIT_ACK {
        if |data| >= 3 {
          var ackId := GetLe16(data[1], data[2]);
          if hitPending && ackId == pendingHitId {
            hitPending := false;
            retryScheduled := false;
          }
        }
      } else if data[0] == VEST_CMD_FRIENDLY_LIST {
        if |data| >= 2 {
          FriendlyList(data);
        }
      } else if data[0] == VEST_CMD_DEATH {
        currentState := Dead;
        hitPending := false;
        retryScheduled := false;
      } else if data[0] == VEST_CMD_RESPAWN {
        currentState := GameActive;
      } else if data[0] == VEST_CMD_FRIENDLY_FIRE {
        if |data| >= 2 {
          friendlyFireEnabled := data[1] != 0;
        }
      } else if data[0] == VEST_CMD_UNPAIR {
        ForgetEmitter();
      }
    }

    method ForgetEmitter()
      requires Valid()
      modifies this`hasPairedAddr, this`pairPending, this`currentState
      modifies this`friendlyCount, this`hitPending, this`timeoutScheduled
      ensures Valid() && Abs() == Forget(old(Abs()))
    {
      hasPairedAddr := false;
      pairPending := false;
      currentState := Unpaired;
      friendlyCount := 0;
      hitPending := false;
      timeoutScheduled := false;
    }

    method IrPairing(p: IrLink.PairingPacket)
      requires Valid()
      modifies this`expectedAddrLsbs, this`pairPending, this`timeoutScheduled
      ensures Valid() && Abs() == OnIrPairing(old(Abs()), p)
    {
      if currentState != Unpaired {
        return;
      }
      if pairPending {
        return;
      }
      expectedAddrLsbs := Lsbs(p.addrLow, p.addrHigh);
      pairPending := true;
      timeoutScheduled := true;
    }

    method PairPendingTimeout()
      requires Valid()
      modifies this`pairPending, this`timeoutScheduled
      ensures Valid() && Abs() == OnPairTimeout(old(Abs()))
    {
      timeoutScheduled := false;
      if hasPairedAddr || !pairPending {
        return;
      }
      pairPending := false;
    }

    /** The result tells whether the peer is kept; otherwise the link is dropped again. */
    method Connected(peer: Address) returns (kept: bool)
      requires Valid()
      modifies this`linked, this`pairedEmitterAddr, this`hasPairedAddr
      modifies this`pairPending, this`currentState, this`timeoutScheduled
      ensures Valid() && Abs() == OnConnected(old(Abs()), peer) && kept == Admits(old(AbsPairing()), peer)
    {
      if hasPairedAddr {
        if peer != pairedEmitterAddr {
          return false;
        }
        linked := true;
        return true;
      }
      if pairPending {
        if LsbsOf(peer) != expectedAddrLsbs {
          return false;
        }
        pairedEmitterAddr := peer;
        hasPairedAddr := true;
        pairPending := false;
        currentState := PairedIdle;
        timeoutScheduled := false;
        linked := true;
        return true;
      }
      return false;
    }

    method Disconnected()
      requires Valid()
      modifies this`linked, this`hitPending, this`retryScheduled, this`currentState
      ensures Valid() && Abs() == OnDisconnected(old(Abs()))
    {
      linked := false;
      hitPending := false;
      retryScheduled := false;
      if currentState == GameActive || currentState == Dead {
        currentState := PairedIdle;
      }
    }

    method UnpairPressed()
      requires Valid()
      modifies this`hasPairedAddr, this`pairPending, this`currentState
      modifies this`friendlyCount, this`hitPending, this`timeoutScheduled
      ensures Valid() && Abs() == Forget(old(Abs()))
    {
      ForgetEmitter();
    }
  }
}
