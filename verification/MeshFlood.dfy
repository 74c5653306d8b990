/** A network of mesh nodes: floods end, copies are faithful and travel a bounded number of hops, and
    player states stay within their team. */
module MeshFlood {
  import opened Bytes
  import opened MeshNode
  import opened Sequences

  /** A copy of a transmission on its way to one node: sent by `from`, first originated by `src` as
      `orig`, relayed `hops` times since. */
  datatype Copy = Copy(dest: nat, from: nat, src: nat, orig: Frame, hops: nat, frame: Frame)

  /** Where the frame in a node's relay slot came from. */
  datatype Slot = Slot(src: nat, orig: Frame, hops: nat)

  datatype Tx = Tx(from: nat, src: nat, orig: Frame, hops: nat, frame: Frame)

  /** The bytes notified to a node's phone. */
  datatype Forward = Forward(node: nat, src: nat, orig: Frame, hops: nat, bytes: seq<byte>)

  /** The nodes with their relay slots, the copies in the air, and the history of transmissions and of
      frames forwarded to phones. */
  datatype Net = Net(nodes: seq<Node>, slots: seq<Slot>, air: seq<Copy>, sent: seq<Tx>, forwards: seq<Forward>)

  /** A node originates a frame of its own, whatever its bytes; a copy is heard or lost, in any order;
      a relay's jitter expires, and its frame goes out unless the transmitter drops it. */
  datatype Event = Originate(node: nat, f: Frame) | Hear(i: nat, overrun: byte) | Lose(k: nat)
    | RelayFires(relayer: nat, out: bool)

  predicate Enabled(s: Net, ev: Event) {
    match ev
    case Originate(k, _) => k < |s.nodes|
    case Hear(i, _) => i < |s.air|
    case Lose(i) => i < |s.air|
    case RelayFires(k, _) => k < |s.nodes| && s.nodes[k].relayScheduled
  }

  /** One copy for every node. */
  function Copies(tx: Tx, n: nat): (c: seq<Copy>)
    ensures |c| == n
  {
    seq(n, d requires 0 <= d < n => Copy(d, tx.from, tx.src, tx.orig, tx.hops, tx.frame))
  }

  function Transmit(s: Net, tx: Tx): Net {
    s.(air := s.air + Copies(tx, |s.nodes|), sent := s.sent + [tx])
  }

  predicate Shape(s: Net) {
    |s.slots| == |s.nodes| && forall i :: 0 <= i < |s.air| ==> s.air[i].dest < |s.nodes|
  }

  /** Whether hearing the frame fills the relay slot. */
  predicate Stores(n: Node, f: Frame, overrun: byte) {
    && n.phone && New(n, f) && Passes(n, f, overrun) && |f| <= BUF_SIZE && f[4] > 0
  }

  function Heard(s: Net, c: Copy, overrun: byte): Net
    requires |s.slots| == |s.nodes| && c.dest < |s.nodes|
  {
    var n := s.nodes[c.dest];
    var (n', effects) := OnScan(n, c.frame, overrun);
    s.(nodes := s.nodes[c.dest := n'],
       slots := if Stores(n, c.frame, overrun) then s.slots[c.dest := Slot(c.src, c.orig, c.hops + 1)] else s.slots,
       forwards := if effects.forwarded.None? then s.forwards
                   else s.forwards + [Forward(c.dest, c.src, c.orig, c.hops, effects.forwarded.value)])
  }

  function Step(s: Net, ev: Event): Net
    requires Shape(s) && Enabled(s, ev)
  {
    match ev
    case Originate(k, f) => Transmit(s, Tx(k, k, f, 0, f))
    case Hear(i, overrun) => Heard(s.(air := Without(s.air, i)), s.air[i], overrun)
    case Lose(i) => s.(air := Without(s.air, i))
    case RelayFires(k, out) =>
      var (n, frames) := OnRelay(s.nodes[k]);
      var s1 := s.(nodes := s.nodes[k := n]);
      if out then Transmit(s1, Tx(k, s.slots[k].src, s.slots[k].orig, s.slots[k].hops, frames[0])) else s1
  }

  lemma StepKeepsShape(s: Net, ev: Event)
    requires Shape(s) && Enabled(s, ev)
    ensures Shape(Step(s, ev)) && |Step(s, ev).nodes| == |s.nodes|
  {
  }

  // ----- faithful copies, bounded hops -----

  /** `f` is `orig` after `hops` relays: equal in every byte but the time to live, which has gone down
      by one at each hop and never below zero. */
  predicate AfterHops(orig: Frame, hops: nat, f: Frame) {
    if hops == 0 then f == orig
    else |orig| >= HEADER_SIZE && hops <= orig[4] && f == orig[4 := orig[4] - hops]
  }

  /** The bytes are the opcode for mesh frames, then the frame. */
  predicate Notified(w: Forward) {
    |w.bytes| > 0 && w.bytes[0] == 0x05 && AfterHops(w.orig, w.hops, w.bytes[1..])
  }

  predicate Faithful(s: Net) {
    && |s.slots| == |s.nodes|
    && (forall i :: 0 <= i < |s.air| ==> AfterHops(s.air[i].orig, s.air[i].hops, s.air[i].frame))
    && (forall k :: 0 <= k < |s.nodes| && s.nodes[k].relayScheduled ==>
          AfterHops(s.slots[k].orig, s.slots[k].hops, s.nodes[k].relay))
    && (forall t :: 0 <= t < |s.sent| ==> AfterHops(s.sent[t].orig, s.sent[t].hops, s.sent[t].frame))
    && (forall t :: 0 <= t < |s.forwards| ==> Notified(s.forwards[t]))
  }

  lemma OneMoreHop(orig: Frame, hops: nat, f: Frame)
    requires AfterHops(orig, hops, f) && |f| >= HEADER_SIZE && f[4] > 0
    ensures AfterHops(orig, hops + 1, Relayed(f))
  {
  }

  lemma TransmitIsFaithful(s: Net, tx: Tx)
    requires Faithful(s) && AfterHops(tx.orig, tx.hops, tx.frame)
    ensures Faithful(Transmit(s, tx))
  {
  }

  lemma ScanStores(n: Node, f: Frame, overrun: byte)
    ensures var n' := OnScan(n, f, overrun).0;
            n'.player == n.player && n'.team == n.team && n'.phone == n.phone
            && if Stores(n, f, overrun) then n'.relay == Relayed(f) && n'.relayScheduled
               else n'.relay == n.relay && n'.relayScheduled == n.relayScheduled
  {
  }

  lemma HeardIsFaithful(s: Net, c: Copy, overrun: byte)
    requires Faithful(s) && c.dest < |s.nodes| && AfterHops(c.orig, c.hops, c.frame)
    ensures Faithful(Heard(s, c, overrun))
  {
    var n := s.nodes[c.dest];
    ScanStores(n, c.frame, overrun);
    if Stores(n, c.frame, overrun) {
      OneMoreHop(c.orig, c.hops, c.frame);
    }
    if OnScan(n, c.frame, overrun).1.forwarded.Some? {
      ForwardedBytes(n, c.frame, overrun);
    }
  }

  lemma ForwardedBytes(n: Node, f: Frame, overrun: byte)
    requires OnScan(n, f, overrun).1.forwarded.Some?
    ensures var bytes := OnScan(n, f, overrun).1.forwarded.value; |bytes| > 0 && bytes[0] == 0x05 && bytes[1..] == f
  {
  }

  lemma LoseIsFaithful(s: Net, i: nat)
    requires Faithful(s) && i < |s.air|
    ensures Faithful(s.(air := Without(s.air, i)))
  {
  }

  lemma StepIsFaithful(s: Net, ev: Event)
    requires Shape(s) && Faithful(s) && Enabled(s, ev)
    ensures Faithful(Step(s, ev))
  {
    match ev
    case Originate(k, f) => TransmitIsFaithful(s, Tx(k, k, f, 0, f));
    case Hear(i, overrun) =>
      LoseIsFaithful(s, i);
      HeardIsFaithful(s.(air := Without(s.air, i)), s.air[i], overrun);
    case Lose(i) => LoseIsFaithful(s, i);
    case RelayFires(k, out) =>
      var (n, frames) := OnRelay(s.nodes[k]);
      var s1 := s.(nodes := s.nodes[k := n]);
      TransmitIsFaithful(s1, Tx(k, s.slots[k].src, s.slots[k].orig, s.slots[k].hops, frames[0]));
  }

  // ----- teams -----

  /** A complete player-state frame names the team it belongs to in its second payload byte. */
  predicate NamesTeam(f: Frame) {
    |f| > HEADER_SIZE + 1 && f[0] == PLAYER_STATE && f[5] >= 2
  }

  predicate OfTeam(s: Net, k: nat, f: Frame) {
    NamesTeam(f) ==> k < |s.nodes| && s.nodes[k].team == f[HEADER_SIZE + 1]
  }

  /** Every player state in the air or sent was sent by its originator or by a node of its team, every
      one waiting to be relayed waits at a node of its team, and no other team's node forwarded one. */
  predicate Confined(s: Net) {
    && (forall i :: 0 <= i < |s.air| ==> s.air[i].from == s.air[i].src || OfTeam(s, s.air[i].from, s.air[i].frame))
    && (forall k :: 0 <= k < |s.nodes| && s.nodes[k].relayScheduled ==> OfTeam(s, k, s.nodes[k].relay))
    && (forall t :: 0 <= t < |s.sent| ==> s.sent[t].from == s.sent[t].src || OfTeam(s, s.sent[t].from, s.sent[t].frame))
    && (forall t :: 0 <= t < |s.forwards| ==>
          |s.forwards[t].bytes| > 0 && OfTeam(s, s.forwards[t].node, s.forwards[t].bytes[1..]))
  }

  lemma TransmitIsConfined(s: Net, tx: Tx)
    requires Confined(s) && (tx.from == tx.src || OfTeam(s, tx.from, tx.frame))
    ensures Confined(Transmit(s, tx))
  {
  }

  lemma RelayKeepsTeam(n: Node, f: Frame, overrun: byte)
    requires Stores(n, f, overrun)
    ensures NamesTeam(Relayed(f)) ==> n.team == Relayed(f)[HEADER_SIZE + 1]
  {
  }

  lemma ForwardKeepsTeam(n: Node, f: Frame, overrun: byte)
    requires OnScan(n, f, overrun).1.forwarded.Some?
    ensures var bytes := OnScan(n, f, overrun).1.forwarded.value;
            |bytes| > 0 && (NamesTeam(bytes[1..]) ==> n.team == bytes[1..][HEADER_SIZE + 1])
  {
    ForwardedBytes(n, f, overrun);
  }

  lemma NodeChanges(s: Net, k: nat, n: Node, slots: seq<Slot>)
    requires Confined(s) && k < |s.nodes| && n.team == s.nodes[k].team
    requires n.relayScheduled && NamesTeam(n.relay) ==>
               (s.nodes[k].relayScheduled && n.relay == s.nodes[k].relay) || n.team == n.relay[HEADER_SIZE + 1]
    ensures Confined(s.(nodes := s.nodes[k := n], slots := slots))
  {
  }

  lemma PhoneTold(s: Net, w: Forward)
    requires Confined(s) && |w.bytes| > 0 && OfTeam(s, w.node, w.bytes[1..])
    ensures Confined(s.(forwards := s.forwards + [w]))
  {
  }

  lemma HeardIsConfined(s: Net, c: Copy, overrun: byte)
    requires Confined(s) && |s.slots| == |s.nodes| && c.dest < |s.nodes|
    ensures Confined(Heard(s, c, overrun))
  {
    var n := s.nodes[c.dest];
    var (n', effects) := OnScan(n, c.frame, overrun);
    ScanStores(n, c.frame, overrun);
    if Stores(n, c.frame, overrun) {
      RelayKeepsTeam(n, c.frame, overrun);
    }
    var s1 := Heard(s, c, overrun).(forwards := s.forwards);
    NodeChanges(s, c.dest, n', s1.slots);
    if effects.forwarded.Some? {
      ForwardKeepsTeam(n, c.frame, overrun);
      PhoneTold(s1, Forward(c.dest, c.src, c.orig, c.hops, effects.forwarded.value));
    }
  }

  lemma LoseIsConfined(s: Net, i: nat)
    requires Confined(s) && i < |s.air|
    ensures Confined(s.(air := Without(s.air, i)))
  {
  }

  lemma StepIsConfined(s: Net, ev: Event)
    requires Shape(s) && Confined(s) && Enabled(s, ev)
    ensures Confined(Step(s, ev))
  {
    match ev
    case Originate(k, f) => TransmitIsConfined(s, Tx(k, k, f, 0, f));
    case Hear(i, overrun) =>
      LoseIsConfined(s, i);
      HeardIsConfined(s.(air := Without(s.air, i)), s.air[i], overrun);
    case Lose(i) => LoseIsConfined(s, i);
    case RelayFires(k, out) =>
      var (n, frames) := OnRelay(s.nodes[k]);
      var s1 := s.(nodes := s.nodes[k := n]);
      TransmitIsConfined(s1, Tx(k, s.slots[k].src, s.slots[k].orig, s.slots[k].hops, frames[0]));
  }
}
