/** Whole runs of the vest: who may be bound to it, and how long a hit is retried. */
module VestPairing {
  import opened Bytes
  import opened Protocol
  import opened Vest
  import IrLink
  import IrRoundTrip

  datatype Event = IrHit(p: IrLink.HitPacket, crcValid: bool, id: u16) | IrPairing(frame: IrLink.PairingPacket)
    | RetryFires | TimeoutFires | Command(data: seq<byte>) | PeerConnects(peer: Address) | LinkDrops | UnpairButton

  /** The vest and whether some peer is linked to it, admitted or not. */
  datatype World = World(v: Vest, up: bool)

  const START := World(POWER_ON, false)

  /** Work items run only when scheduled, the radio keeps at most one connection, and commands come
      over the bound emitter's link, none of them between an unpair and the disconnect it causes. */
  predicate Enabled(w: World, e: Event) {
    match e
    case RetryFires => w.v.hit.scheduled
    case TimeoutFires => w.v.pairing.timeout
    case Command(_) => w.v.connected && w.v.pairing.paired
    case PeerConnects(_) => !w.up
    case LinkDrops => w.up
    case _ => true
  }

  function Step(w: World, e: Event): (r: (World, Option<seq<byte>>))
    requires Shape(w.v)
    ensures Shape(r.0.v)
  {
    match e
    case IrHit(p, crcValid, id) => var (v, out) := OnIrRx(w.v, p, crcValid, id); (w.(v := v), out)
    case IrPairing(frame) => (w.(v := OnIrPairing(w.v, frame)), None)
    case RetryFires => var (v, out) := OnRetry(w.v); (w.(v := v), out)
    case TimeoutFires => (w.(v := OnPairTimeout(w.v)), None)
    case Command(data) => (w.(v := OnCommand(w.v, data)), None)
    case PeerConnects(peer) => (World(OnConnected(w.v, peer), true), None)
    case LinkDrops => (World(OnDisconnected(w.v), false), None)
    case UnpairButton => (w.(v := Forget(w.v)), None)
  }

  // ----- what every step keeps -----

  predicate Safe(w: World) {
    && Shape(w.v)
    && (w.v.pairing.paired <==> w.v.state != Unpaired)
    && (w.v.pairing.pending ==> w.v.state == Unpaired && w.v.pairing.timeout)
    && (w.v.connected ==> w.up)
    && (w.v.hit.pending ==> w.v.hit.scheduled && w.v.connected && w.v.state == GameActive)
    && (w.v.state == Unpaired ==> w.v.friends.count == 0)
    && (w.v.hit.scheduled ==> w.v.hit.retries < HIT_RETRY_MAX_COUNT)
  }

  lemma CommandIsSafe(w: World, data: seq<byte>)
    requires Safe(w) && Enabled(w, Command(data))
    ensures Safe(Step(w, Command(data)).0)
  {
  }

  lemma StepIsSafe(w: World, e: Event)
    requires Safe(w) && Enabled(w, e)
    ensures Safe(Step(w, e).0)
  {
    if e.Command? {
      CommandIsSafe(w, e.data);
    }
  }

  predicate Legal(w: World, trace: seq<Event>)
    requires Shape(w.v)
    decreases |trace|
  {
    |trace| == 0 || (Enabled(w, trace[0]) && Legal(Step(w, trace[0]).0, trace[1..]))
  }

  function Run(w: World, trace: seq<Event>): (r: World)
    requires Shape(w.v)
    ensures Shape(r.v)
    decreases |trace|
  {
    if |trace| == 0 then w else Run(Step(w, trace[0]).0, trace[1..])
  }

  /** In every run the vest is paired exactly when it is not in the unpaired state, an open pairing
      window means unpaired with its timeout scheduled, a hit is pending only in the game, with a retry
      scheduled, and an unpaired vest has no friends left. */
  lemma {:induction false} RunIsSafe(w: World, trace: seq<Event>)
    requires Safe(w) && Legal(w, trace)
    ensures Safe(Run(w, trace))
    decreases |trace|
  {
    if |trace| > 0 {
      StepIsSafe(w, trace[0]);
      RunIsSafe(Step(w, trace[0]).0, trace[1..]);
    }
  }

  // ----- who is bound -----

  /** The world before event `n` of a run from power-on. */
  function At(trace: seq<Event>, n: nat): (w: World)
    requires n <= |trace|
    ensures Shape(w.v)
  {
    Run(START, trace[..n])
  }

  lemma {:induction false} RunSplit(w: World, trace: seq<Event>, n: nat)
    requires Shape(w.v) && n < |trace| && Legal(w, trace)
    ensures Legal(w, trace[..n]) && Enabled(Run(w, trace[..n]), trace[n])
    ensures Run(w, trace[..n + 1]) == Step(Run(w, trace[..n]), trace[n]).0
    decreases n
  {
    if n > 0 {
      RunSplit(Step(w, trace[0]).0, trace[1..], n - 1);
      assert trace[..n][1..] == trace[1..][..n - 1] && trace[..n + 1][1..] == trace[1..][..n];
    } else {
      assert trace[..1][1..] == [] && trace[..0] == [];
    }
  }

  lemma AtNext(trace: seq<Event>, n: nat)
    requires Legal(START, trace) && n < |trace|
    ensures Safe(At(trace, n)) && Enabled(At(trace, n), trace[n])
    ensures At(trace, n + 1) == Step(At(trace, n), trace[n]).0
  {
    RunSplit(START, trace, n);
    RunIsSafe(START, trace[..n]);
  }

  predicate WindowOpen(w: World) {
    w.v.state == Unpaired && w.v.pairing.pending
  }

  /** The pairing window that is open before event `n` was opened by event `i`: the first pairing
      frame of the window, whatever frames were heard since. */
  predicate OpenedBy(trace: seq<Event>, n: nat, i: nat)
    requires n <= |trace|
  {
    && i < n && trace[i].IrPairing?
    && !WindowOpen(At(trace, i)) && At(trace, i).v.state == Unpaired
    && (forall k :: i < k <= n ==> WindowOpen(At(trace, k)))
    && At(trace, n).v.pairing.expected == Lsbs(trace[i].frame.addrLow, trace[i].frame.addrHigh)
  }

  lemma {:induction false} WindowHasOpener(trace: seq<Event>, n: nat) returns (i: nat)
    requires Legal(START, trace) && n <= |trace| && WindowOpen(At(trace, n))
    ensures OpenedBy(trace, n, i)
    decreases n
  {
    if n > 0 {
      AtNext(trace, n - 1);
      if WindowOpen(At(trace, n - 1)) {
        i := WindowHasOpener(trace, n - 1);
        WindowKeepsName(At(trace, n - 1), trace[n - 1]);
      } else {
        i := n - 1;
        OpensWindow(At(trace, n - 1), trace[n - 1]);
      }
    }
  }

  lemma WindowKeepsName(w: World, e: Event)
    requires Safe(w) && Enabled(w, e) && WindowOpen(w) && WindowOpen(Step(w, e).0)
    ensures Step(w, e).0.v.pairing.expected == w.v.pairing.expected
  {
  }

  lemma OpensWindow(w: World, e: Event)
    requires Safe(w) && Enabled(w, e) && !WindowOpen(w) && WindowOpen(Step(w, e).0)
    ensures e.IrPairing? && w.v.state == Unpaired
    ensures Step(w, e).0.v.pairing.expected == Lsbs(e.frame.addrLow, e.frame.addrHigh)
  {
  }

  lemma StaysPaired(w: World, e: Event)
    requires Safe(w) && Enabled(w, e) && Step(w, e).0.v.pairing.paired
    ensures w.v.pairing.paired ==> Step(w, e).0.v.pairing.addr == w.v.pairing.addr
    ensures !w.v.pairing.paired ==> e.PeerConnects? && WindowOpen(w) && LsbsOf(e.peer) == w.v.pairing.expected
                                    && Step(w, e).0.v.pairing.addr == e.peer
  {
  }

  /** Event `j` bound its peer, in the window that event `i` opened, and the vest stayed bound to it until `n`. */
  predicate BoundBy(trace: seq<Event>, n: nat, i: nat, j: nat)
    requires n <= |trace|
  {
    && i < j < n && trace[j].PeerConnects? && OpenedBy(trace, j, i)
    && LsbsOf(trace[j].peer) == Lsbs(trace[i].frame.addrLow, trace[i].frame.addrHigh)
    && (forall k :: j < k <= n ==> At(trace, k).v.pairing.paired && At(trace, k).v.pairing.addr == trace[j].peer)
  }

  /** A vest that is paired is bound to a peer that connected during the pairing window and whose
      address ends in the two bytes carried by the first pairing frame of that window. */
  lemma {:induction false} BoundToFirstFrame(trace: seq<Event>, n: nat) returns (i: nat, j: nat)
    requires Legal(START, trace) && n <= |trace| && At(trace, n).v.pairing.paired
    ensures BoundBy(trace, n, i, j)
    decreases n
  {
    if n > 0 {
      AtNext(trace, n - 1);
      StaysPaired(At(trace, n - 1), trace[n - 1]);
      if At(trace, n - 1).v.pairing.paired {
        i, j := BoundToFirstFrame(trace, n - 1);
      } else {
        i := WindowHasOpener(trace, n - 1);
        j := n - 1;
      }
    }
  }

  // ----- who is linked -----

  /** A bound vest lets in its emitter and nobody else; an unbound one, while its window is open, exactly the
      peers with the expected low address bytes, and binds the one that connects. */
  lemma ConnectsExactly(w: World, peer: Address)
    requires Safe(w) && Enabled(w, PeerConnects(peer))
    ensures var p, v' := w.v.pairing, Step(w, PeerConnects(peer)).0.v;
            && (v'.connected <==> if p.paired then peer == p.addr
                                  else p.pending && peer.low == p.expected.low && peer.high == p.expected.high)
            && (v'.connected ==> v'.pairing.paired && v'.pairing.addr == peer && !v'.pairing.pending
                                 && v'.state == if p.paired then w.v.state else PairedIdle)
            && (!v'.connected ==> v' == w.v)
  {
  }

  /** Event `j` is the latest connection before `n`, and no link has dropped since. */
  predicate LinkedBy(trace: seq<Event>, n: nat, j: nat)
    requires n <= |trace|
  {
    && j < n && trace[j].PeerConnects?
    && forall k :: j < k < n ==> !trace[k].PeerConnects? && !trace[k].LinkDrops?
  }

  lemma ConnectedStep(w: World, e: Event)
    requires Safe(w) && Enabled(w, e) && Step(w, e).0.v.connected
    ensures !e.LinkDrops? && (e.PeerConnects? <==> !w.v.connected)
    ensures Step(w, e).0.v.pairing.addr == if e.PeerConnects? then e.peer else w.v.pairing.addr
  {
  }

  /** Over every run the peer linked to a connected vest is the one whose address the vest stores. */
  lemma {:induction false} ConnectedIsBound(trace: seq<Event>, n: nat) returns (j: nat)
    requires Legal(START, trace) && n <= |trace| && At(trace, n).v.connected
    ensures LinkedBy(trace, n, j) && trace[j].peer == At(trace, n).v.pairing.addr
    decreases n
  {
    if n > 0 {
      AtNext(trace, n - 1);
      ConnectedStep(At(trace, n - 1), trace[n - 1]);
      if At(trace, n - 1).v.connected {
        j := ConnectedIsBound(trace, n - 1);
      } else {
        j := n - 1;
      }
    }
  }

  /** So the peer linked to a paired vest is the one that was bound, and its address ends in the two bytes of
      the first pairing frame of the window in which it was. */
  lemma ConnectedIsAnnounced(trace: seq<Event>, n: nat) returns (i: nat, b: nat, j: nat)
    requires Legal(START, trace) && n <= |trace| && At(trace, n).v.connected && At(trace, n).v.pairing.paired
    ensures BoundBy(trace, n, i, b) && LinkedBy(trace, n, j) && trace[j].peer == trace[b].peer
    ensures LsbsOf(trace[j].peer) == Lsbs(trace[i].frame.addrLow, trace[i].frame.addrHigh)
  {
    j := ConnectedIsBound(trace, n);
    i, b := BoundToFirstFrame(trace, n);
  }

  /** The unpair command and the unpair button: nobody is bound any more, no friend and no hit is left, and
      the next pairing frame opens a window. */
  lemma UnpairForgets(w: World, e: Event, frame: IrLink.PairingPacket)
    requires Safe(w) && Enabled(w, e)
    requires e.UnpairButton? || (e.Command? && |e.data| > 0 && e.data[0] == VEST_CMD_UNPAIR)
    ensures var w1 := Step(w, e).0;
            && w1.v.state == Unpaired && !w1.v.pairing.paired && !w1.v.pairing.pending && !w1.v.hit.pending
            && w1.v.friends.count == 0 && w1.v.connected == w.v.connected
            && var p := Step(w1, IrPairing(frame)).0.v.pairing;
            p.pending && p.expected == Lsbs(frame.addrLow, frame.addrHigh) && p.timeout
  {
  }

  /** When the link drops the vest leaves the game and forgets its hit, dead or alive, but stays bound: its
      emitter can connect again and nobody else can. */
  lemma DropLeavesTheGame(w: World, peer: Address)
    requires Safe(w) && Enabled(w, LinkDrops) && w.v.pairing.paired
    ensures var w1 := Step(w, LinkDrops).0;
            && w1.v.state == PairedIdle && !w1.v.connected && !w1.v.hit.pending && !w1.v.hit.scheduled
            && w1.v.pairing == w.v.pairing && w1.v.friends == w.v.friends
            && (Step(w1, PeerConnects(peer)).0.v.connected <==> peer == w.v.pairing.addr)
  {
  }

  // ----- the emitter that sent the frame -----

  /** The vest handles what its infrared receiver delivers; `ids` are the random hit ids. */
  function Hear(v: Vest, ds: seq<IrLink.Delivery>, id: u16): (v': Vest)
    requires Shape(v)
    ensures Shape(v')
    decreases |ds|
  {
    if |ds| == 0 then v
    else
      match ds[0]
      case HitFrame(p, crcValid) => Hear(OnIrRx(v, p, crcValid, id).0, ds[1..], id)
      case PairingFrame(p) => Hear(OnIrPairing(v, p), ds[1..], id)
  }

  /** The emitter with address `a` announces itself over the infrared link to a vest that is listening:
      from then on the vest admits exactly the peers with the announced low address bytes, the
      emitter among them, and binds the emitter when it connects. */
  lemma PairingEndToEnd(v: Vest, a: Address, player: Octets.Octet, rx: IrLink.Rx, frame: seq<IrRoundTrip.Event>,
                        gap: nat, d: seq<nat>, polls: seq<IrRoundTrip.Event>, id: u16, peer: Address)
    requires Shape(v) && v.state == Unpaired && !v.pairing.paired && !v.pairing.pending
    requires rx.state == IrLink.Idle
    requires var sent := IrLink.PairingBytes(IrLink.PairingPacket(a.low, a.high, player));
             IrRoundTrip.CarriesFrame(frame, IrLink.WireBits(sent), gap, d)
    requires IrRoundTrip.OnlyPolls(polls) && IrRoundTrip.LongSilence(polls)
    ensures var v' := Hear(v, IrRoundTrip.Run(rx, frame + polls).1, id);
            && (OnConnected(v', peer).pairing.paired <==> LsbsOf(peer) == LsbsOf(a))
            && OnConnected(v', a).pairing.paired && OnConnected(v', a).pairing.addr == a
            && OnConnected(v', a).connected && OnConnected(v', a).state == PairedIdle
  {
    var p := IrLink.PairingPacket(a.low, a.high, player);
    IrRoundTrip.PairingRoundTrip(rx, p, frame, gap, d, polls);
    var ds := [IrLink.PairingFrame(p)];
    assert ds[1..] == [];
    assert Hear(v, ds, id) == OnIrPairing(v, p);
  }

  // ----- bounded retry -----

  predicate TakesUp(w: World, e: Event)
    requires Shape(w.v)
  {
    e.IrHit? && TakesHit(w.v, e.p, e.crcValid)
  }

  /** No event of the run takes up another hit. */
  predicate SameHit(w: World, trace: seq<Event>)
    requires Shape(w.v)
    decreases |trace|
  {
    |trace| == 0 || (!TakesUp(w, trace[0]) && SameHit(Step(w, trace[0]).0, trace[1..]))
  }

  /** The number of notifications sent. */
  function Sends(w: World, trace: seq<Event>): nat
    requires Shape(w.v)
    decreases |trace|
  {
    if |trace| == 0 then 0
    else (if Step(w, trace[0]).1.Some? then 1 else 0) + Sends(Step(w, trace[0]).0, trace[1..])
  }

  /** The number of times the retry work item runs. */
  function Fires(trace: seq<Event>): nat {
    if |trace| == 0 then 0 else (if trace[0].RetryFires? then 1 else 0) + Fires(trace[1..])
  }

  /** Sends a pending hit may still make. */
  function Budget(w: World): int {
    if w.v.hit.pending then HIT_RETRY_MAX_COUNT - 1 - w.v.hit.retries else 0
  }

  lemma RetryStep(w: World, e: Event)
    requires Safe(w) && Enabled(w, e) && !TakesUp(w, e)
    ensures var (w', out) := Step(w, e);
            && (if out.Some? then 1 else 0) + Budget(w') <= Budget(w)
            && Budget(w') >= 0
            && (w'.v.hit.pending ==> w.v.hit.pending && w'.v.hit.buf == w.v.hit.buf)
            && (w'.v.hit.pending ==> w'.v.hit.retries == w.v.hit.retries + (if e.RetryFires? then 1 else 0))
            && (out.Some? ==> out.value == w.v.hit.buf)
  {
  }

  lemma {:induction false} RetriesAreBounded(w: World, trace: seq<Event>)
    requires Safe(w) && Legal(w, trace) && SameHit(w, trace)
    ensures Sends(w, trace) + Budget(Run(w, trace)) <= Budget(w)
    ensures var v := Run(w, trace).v;
            v.hit.pending ==> w.v.hit.pending && v.hit.retries == w.v.hit.retries + Fires(trace)
    decreases |trace|
  {
    if |trace| > 0 {
      RetryStep(w, trace[0]);
      StepIsSafe(w, trace[0]);
      RetriesAreBounded(Step(w, trace[0]).0, trace[1..]);
    }
  }

  /** From the moment a hit is taken up and until the next one is, it is sent at most ten times,
      and it is no longer pending once its retry has run ten times. */
  lemma EachHitSentAtMostTenTimes(w: World, trace: seq<Event>)
    requires Safe(w) && Legal(w, trace) && |trace| > 0 && TakesUp(w, trace[0])
    requires SameHit(Step(w, trace[0]).0, trace[1..])
    ensures Sends(w, trace) <= HIT_RETRY_MAX_COUNT
    ensures Fires(trace) >= HIT_RETRY_MAX_COUNT ==> !Run(w, trace).v.hit.pending
  {
    StepIsSafe(w, trace[0]);
    var w1 := Step(w, trace[0]).0;
    RetriesAreBounded(w1, trace[1..]);
    RunIsSafe(w1, trace[1..]);
  }

  /** The event ends the hit with this id before its retries run out: it is answered, or the vest is told that
      the player is dead or is unpaired, or the link drops. */
  predicate EndsHit(e: Event, id: u16) {
    match e
    case LinkDrops => true
    case UnpairButton => true
    case Command(data) =>
      |data| > 0 && (data[0] == VEST_CMD_DEATH || data[0] == VEST_CMD_UNPAIR
                     || (data[0] == VEST_CMD_HIT_ACK && |data| >= 3 && GetLe16(data[1], data[2]) == id))
    case _ => false
  }

  predicate Unanswered(trace: seq<Event>, id: u16) {
    forall i :: 0 <= i < |trace| ==> !EndsHit(trace[i], id)
  }

  lemma PendingStep(w: World, e: Event)
    requires Safe(w) && Enabled(w, e) && w.v.hit.pending && !EndsHit(e, w.v.hit.id)
    ensures var (w', out) := Step(w, e);
            var h, h' := w.v.hit, w'.v.hit;
            && h'.id == h.id
            && if e.RetryFires? && h.retries + 1 < 10 then
                 h' == h.(retries := h.retries + 1) && out == Some(h.buf)
               else if e.RetryFires? then !h'.pending && !h'.scheduled && out == None
               else h' == h && out == None
  {
  }

  /** A hit that is over is not sent again. */
  lemma {:induction false} OverIsQuiet(w: World, trace: seq<Event>)
    requires Safe(w) && Legal(w, trace) && SameHit(w, trace) && !w.v.hit.pending && !w.v.hit.scheduled
    ensures Sends(w, trace) == 0 && Fires(trace) == 0 && !Run(w, trace).v.hit.pending
    decreases |trace|
  {
    if |trace| > 0 {
      OverStep(w, trace[0]);
      StepIsSafe(w, trace[0]);
      OverIsQuiet(Step(w, trace[0]).0, trace[1..]);
    }
  }

  lemma OverStep(w: World, e: Event)
    requires Safe(w) && Enabled(w, e) && !TakesUp(w, e) && !w.v.hit.pending && !w.v.hit.scheduled
    ensures var (w', out) := Step(w, e); out == None && !w'.v.hit.pending && !w'.v.hit.scheduled && !e.RetryFires?
  {
  }

  lemma {:induction false} SendsExactly(w: World, trace: seq<Event>)
    requires Safe(w) && Legal(w, trace) && SameHit(w, trace) && w.v.hit.pending && Unanswered(trace, w.v.hit.id)
    ensures var left := 9 - w.v.hit.retries;
            && Sends(w, trace) == (if Fires(trace) <= left then Fires(trace) else left)
            && (Run(w, trace).v.hit.pending <==> Fires(trace) <= left)
            && Fires(trace) <= left + 1
    decreases |trace|
  {
    if |trace| > 0 {
      PendingStep(w, trace[0]);
      StepIsSafe(w, trace[0]);
      var w1 := Step(w, trace[0]).0;
      if w1.v.hit.pending {
        SendsExactly(w1, trace[1..]);
      } else {
        OverIsQuiet(w1, trace[1..]);
      }
    }
  }

  /** Over a lasting link a hit that nobody answers is sent when it is taken up and at every run of its retry
      item but the tenth: ten times in all. It is pending until the item has run ten times. */
  lemma UnansweredIsSentTenTimes(w: World, trace: seq<Event>)
    requires Safe(w) && Legal(w, trace) && |trace| > 0 && TakesUp(w, trace[0]) && w.v.connected
    requires SameHit(Step(w, trace[0]).0, trace[1..]) && Unanswered(trace[1..], trace[0].id)
    ensures Sends(w, trace) == 1 + if Fires(trace) < 10 then Fires(trace) else 9
    ensures Run(w, trace).v.hit.pending <==> Fires(trace) < 10
  {
    StepIsSafe(w, trace[0]);
    SendsExactly(Step(w, trace[0]).0, trace[1..]);
  }
}
