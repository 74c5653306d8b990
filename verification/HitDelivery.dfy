/** Hit delivery between a vest and its emitter over two in-order lossy channels: no infrared hit is
    ever applied twice, whatever is lost, repeated, dropped with the link or given a colliding id. */
module HitDelivery {
  import opened Bytes
  import opened DedupRing
  import opened Protocol
  import opened Sequences
  import IrLink
  import V = Vest
  import E = Emitter
  import R = EmitterRuns

  /** A hit the vest took up: the random id it drew and the infrared frame. Its position in the
      list of all hits is its serial number, which neither device knows. */
  datatype Taken = Taken(id: u16, frame: IrLink.HitPacket)

  /** A hit notification on its way to the emitter. */
  datatype Up = Up(serial: int, data: seq<byte>)

  /** A command on its way to the vest; an acknowledgement carries the serial of the notification it answers. */
  datatype Down = Down(cmd: seq<byte>, serial: Option<int>)

  /** A notification the emitter did not count as a duplicate, and whether it was applied to the player's health. */
  datatype Accept = Accept(serial: int, applied: bool)

  datatype System = System(v: V.Vest, e: E.Emitter, linked: bool, up: seq<Up>, down: seq<Down>,
                           hits: seq<Taken>, accepted: seq<Accept>)

  datatype Event = IrFrame(p: IrLink.HitPacket, crcValid: bool, id: u16) | IrPair(frame: IrLink.PairingPacket)
    | RetryFires | PairTimeout | UnpairButton | EmitterDoes(ev: R.Event)
    | DeliverUp | LoseUp(i: nat) | DeliverDown | LoseDown(j: nat)
    | Connect(peer: V.Address) | GattReady | Drop | VestNotices | EmitterNotices

  predicate Shape(s: System) { V.Shape(s.v) && E.Shape(s.e) }

  /** Work items run only when scheduled; notifications are delivered once the emitter has subscribed;
      the two devices connect again only after both have noticed that the last link is gone. */
  predicate Enabled(s: System, ev: Event) {
    match ev
    case RetryFires => s.v.hit.scheduled
    case PairTimeout => s.v.pairing.timeout
    case EmitterDoes(x) => R.Enabled(s.e, x) && !x.Notify? && !x.VestReady? && !x.VestLost?
    case DeliverUp => |s.up| > 0 && s.e.vestReady
    case LoseUp(i) => i < |s.up|
    case DeliverDown => |s.down| > 0
    case LoseDown(j) => j < |s.down|
    case Connect(_) => !s.linked && !s.v.connected && !s.e.vestReady
    case GattReady => s.linked
    case Drop => s.linked
    case VestNotices => !s.linked
    case EmitterNotices => !s.linked
    case _ => true
  }

  // ----- steps -----

  function TakesUp(s: System, ev: Event): bool
    requires Shape(s)
  {
    ev.IrFrame? && V.TakesHit(s.v, ev.p, ev.crcValid)
  }

  /** The vest changes and sends a notification of its latest hit, unless the link is already gone. */
  function VestStep(s: System, v: V.Vest, out: Option<seq<byte>>): System {
    s.(v := v, up := if out.Some? && s.linked then s.up + [Up(|s.hits| - 1, out.value)] else s.up)
  }

  function Tagged(cmds: seq<seq<byte>>, serial: Option<int>): seq<Down> {
    seq(|cmds|, i requires 0 <= i < |cmds| => Down(cmds[i], serial))
  }

  function EmitterStep(s: System, e: E.Emitter, cmds: seq<seq<byte>>, serial: Option<int>): System {
    s.(e := e, down := if s.linked then s.down + Tagged(cmds, serial) else s.down)
  }

  /** The emitter takes the notified id for a new hit. */
  predicate Accepts(e: E.Emitter, id: u16) {
    R.InGame(e) && id !in e.window
  }

  function IdOf(data: seq<byte>): u16
    requires |data| >= 2
  {
    GetLe16(data[0], data[1])
  }

  function Receive(s: System): System
    requires |s.up| > 0
  {
    var m := s.up[0];
    var (e, cmds) := E.OnNotify(s.e, m.data);
    var s1 := EmitterStep(s.(up := s.up[1..]), e, cmds, Some(m.serial));
    if |m.data| >= HIT_PAYLOAD_SIZE && Accepts(s.e, IdOf(m.data)) then
      s1.(accepted := s.accepted + [Accept(m.serial, s.e.mode == E.GameActive)])
    else s1
  }

  function VestEvent(s: System, ev: Event): System
    requires Shape(s)
  {
    match ev
    case IrFrame(p, crcValid, id) =>
      var (v, out) := V.OnIrRx(s.v, p, crcValid, id);
      VestStep(if TakesUp(s, ev) then s.(hits := s.hits + [Taken(id, p)]) else s, v, out)
    case IrPair(frame) => VestStep(s, V.OnIrPairing(s.v, frame), None)
    case RetryFires => var (v, out) := V.OnRetry(s.v); VestStep(s, v, out)
    case PairTimeout => VestStep(s, V.OnPairTimeout(s.v), None)
    case UnpairButton => VestStep(s, V.Forget(s.v), None)
    case DeliverDown =>
      if |s.down| > 0 then VestStep(s, V.OnCommand(s.v, s.down[0].cmd), None).(down := s.down[1..]) else s
    case Connect(peer) => VestStep(s, V.OnConnected(s.v, peer), None).(linked := true)
    case VestNotices => VestStep(s, V.OnDisconnected(s.v), None)
    case _ => s
  }

  function OtherEvent(s: System, ev: Event): System
    requires Shape(s) && Enabled(s, ev)
  {
    match ev
    case EmitterDoes(x) => var (e, cmds) := R.Step(s.e, x); EmitterStep(s, e, cmds, None)
    case DeliverUp => Receive(s)
    case LoseUp(i) => s.(up := Without(s.up, i))
    case LoseDown(j) => s.(down := Without(s.down, j))
    case GattReady => s.(e := s.e.(vestReady := true))
    case Drop => s.(linked := false, up := [], down := [])
    case EmitterNotices => s.(e := s.e.(vestReady := false))
    case _ => s
  }

  predicate OfVest(ev: Event) {
    ev.IrFrame? || ev.IrPair? || ev.RetryFires? || ev.PairTimeout? || ev.UnpairButton? || ev.DeliverDown?
    || ev.Connect? || ev.VestNotices?
  }

  function Step(s: System, ev: Event): System
    requires Shape(s) && Enabled(s, ev)
  {
    if OfVest(ev) then VestEvent(s, ev) else OtherEvent(s, ev)
  }

  lemma VestKeepsShape(s: System, ev: Event)
    requires Shape(s)
    ensures Shape(VestEvent(s, ev))
  {
  }

  lemma EmitterKeepsShape(s: System, ev: Event)
    requires Shape(s) && Enabled(s, ev)
    ensures Shape(OtherEvent(s, ev))
  {
  }

  lemma StepKeepsShape(s: System, ev: Event)
    requires Shape(s) && Enabled(s, ev)
    ensures Shape(Step(s, ev))
  {
    if OfVest(ev) {
      VestKeepsShape(s, ev);
    } else {
      EmitterKeepsShape(s, ev);
    }
  }

  // ----- what every step keeps -----

  /** A notification carries the id and the frame of the hit with its serial. */
  predicate Carries(m: Up, hits: seq<Taken>) {
    0 <= m.serial < |hits| && m.data == V.HitPayload(hits[m.serial].id, hits[m.serial].frame)
  }

  predicate InOrder(up: seq<Up>) {
    forall i, j :: 0 <= i < j < |up| ==> up[i].serial <= up[j].serial
  }

  predicate Increasing(accepted: seq<Accept>) {
    forall i, j :: 0 <= i < j < |accepted| ==> accepted[i].serial < accepted[j].serial
  }

  predicate ChannelSafe(up: seq<Up>, hits: seq<Taken>) {
    InOrder(up) && forall i :: 0 <= i < |up| ==> Carries(up[i], hits)
  }

  /** The pending hit is the latest one taken up. */
  predicate PendingIsLatest(h: V.Hit, hits: seq<Taken>) {
    h.pending ==> |hits| > 0 && var t := hits[|hits| - 1]; h.id == t.id && h.buf == V.HitPayload(t.id, t.frame)
  }

  /** Nothing accepted or still on its way precedes the last accepted hit, whose id is the newest in the ring. */
  predicate LastAccepted(window: seq<u16>, up: seq<Up>, hits: seq<Taken>, accepted: seq<Accept>) {
    |accepted| > 0 ==>
      var last := accepted[|accepted| - 1].serial;
      && 0 <= last < |hits| && |window| > 0 && window[|window| - 1] == hits[last].id
      && forall i :: 0 <= i < |up| ==> last <= up[i].serial
  }

  predicate Safe(s: System) {
    && Shape(s)
    && (!s.linked ==> s.up == [] && s.down == [])
    && ChannelSafe(s.up, s.hits)
    && PendingIsLatest(s.v.hit, s.hits)
    && Increasing(s.accepted)
    && LastAccepted(s.e.window, s.up, s.hits, s.accepted)
  }

  // --- the vest's steps ---

  /** A vest step that takes up no hit: it may drop the pending hit or repeat its notification, no more. */
  predicate Quiet(h: V.Hit, h': V.Hit, out: Option<seq<byte>>) {
    && (h'.pending ==> h.pending && h'.buf == h.buf && h'.id == h.id)
    && (out.Some? ==> h.pending && out.value == h.buf)
  }

  lemma SendKeepsChannel(up: seq<Up>, hits: seq<Taken>, t: Taken)
    requires ChannelSafe(up, hits) && |hits| > 0 && t == hits[|hits| - 1]
    ensures ChannelSafe(up + [Up(|hits| - 1, V.HitPayload(t.id, t.frame))], hits)
  {
  }

  lemma QuietIsSafe(s: System, v: V.Vest, out: Option<seq<byte>>)
    requires Safe(s) && V.Shape(v) && Quiet(s.v.hit, v.hit, out)
    ensures Safe(VestStep(s, v, out))
  {
    if out.Some? {
      SendKeepsChannel(s.up, s.hits, s.hits[|s.hits| - 1]);
    }
  }

  lemma LongerList(up: seq<Up>, hits: seq<Taken>, t: Taken)
    requires ChannelSafe(up, hits)
    ensures ChannelSafe(up, hits + [t])
  {
    forall i | 0 <= i < |up|
      ensures Carries(up[i], hits + [t])
    {
      assert Carries(up[i], hits);
    }
  }

  lemma TakeUpIsSafe(s: System, v: V.Vest, t: Taken, out: Option<seq<byte>>)
    requires Safe(s) && V.Shape(v) && (v.hit, out) == V.TakeUp(V.HitPayload(t.id, t.frame), t.id, s.v.connected)
    ensures Safe(VestStep(s.(hits := s.hits + [t]), v, out))
  {
    LongerList(s.up, s.hits, t);
    SendKeepsChannel(s.up, s.hits + [t], t);
    TakenIsLatest(s.hits, t, s.v.connected);
    NewHitIsLast(s.e.window, s.up, s.hits, s.accepted, t);
  }

  lemma TakenIsLatest(hits: seq<Taken>, t: Taken, connected: bool)
    ensures var (h, out) := V.TakeUp(V.HitPayload(t.id, t.frame), t.id, connected);
            PendingIsLatest(h, hits + [t]) && (out.Some? ==> out.value == V.HitPayload(t.id, t.frame))
  {
  }

  lemma NewHitIsLast(window: seq<u16>, up: seq<Up>, hits: seq<Taken>, accepted: seq<Accept>, t: Taken)
    requires LastAccepted(window, up, hits, accepted)
    ensures LastAccepted(window, up, hits + [t], accepted)
    ensures LastAccepted(window, up + [Up(|hits|, V.HitPayload(t.id, t.frame))], hits + [t], accepted)
  {
  }

  lemma CommandIsQuiet(v: V.Vest, cmd: seq<byte>)
    requires V.Shape(v)
    ensures V.Shape(V.OnCommand(v, cmd)) && Quiet(v.hit, V.OnCommand(v, cmd).hit, None)
  {
  }

  lemma VestEventIsSafe(s: System, ev: Event)
    requires Safe(s) && Enabled(s, ev) && OfVest(ev)
    ensures Safe(Step(s, ev))
  {
    match ev
    case IrFrame(p, crcValid, id) =>
      var (v, out) := V.OnIrRx(s.v, p, crcValid, id);
      if TakesUp(s, ev) {
        TakeUpIsSafe(s, v, Taken(id, p), out);
      }
    case IrPair(frame) => QuietIsSafe(s, V.OnIrPairing(s.v, frame), None);
    case RetryFires => QuietIsSafe(s, V.OnRetry(s.v).0, V.OnRetry(s.v).1);
    case PairTimeout => QuietIsSafe(s, V.OnPairTimeout(s.v), None);
    case UnpairButton => QuietIsSafe(s, V.Forget(s.v), None);
    case DeliverDown =>
      CommandIsQuiet(s.v, s.down[0].cmd);
      QuietIsSafe(s, V.OnCommand(s.v, s.down[0].cmd), None);
    case Connect(peer) => QuietIsSafe(s, V.OnConnected(s.v, peer), None);
    case VestNotices => QuietIsSafe(s, V.OnDisconnected(s.v), None);
  }

  // --- the emitter's steps and the channels ---

  lemma PushEndsWith(window: seq<u16>, id: u16)
    ensures var w := Push(window, id, E.HIT_DEDUP_SIZE); |w| > 0 && w[|w| - 1] == id
  {
  }

  lemma CarriedId(m: Up, hits: seq<Taken>)
    requires Carries(m, hits)
    ensures |m.data| == HIT_PAYLOAD_SIZE && IdOf(m.data) == hits[m.serial].id
  {
    Le16RoundTrip(hits[m.serial].id);
  }

  /** The window and the shape after a notification. */
  lemma Notified(e: E.Emitter, data: seq<byte>)
    requires E.Shape(e) && |data| == HIT_PAYLOAD_SIZE
    ensures E.Shape(E.OnNotify(e, data).0)
    ensures E.OnNotify(e, data).0.window
         == if Accepts(e, IdOf(data)) then Push(e.window, IdOf(data), E.HIT_DEDUP_SIZE) else e.window
  {
  }

  lemma TailSafe(up: seq<Up>, hits: seq<Taken>)
    requires ChannelSafe(up, hits) && |up| > 0
    ensures ChannelSafe(up[1..], hits) && forall i :: 0 <= i < |up[1..]| ==> up[0].serial <= up[1..][i].serial
  {
  }

  lemma AcceptIsSafe(s: System, a: Accept)
    requires Safe(s) && |s.up| > 0 && a.serial == s.up[0].serial && 0 <= a.serial < |s.hits|
    requires Accepts(s.e, s.hits[a.serial].id)
    ensures Increasing(s.accepted + [a])
    ensures LastAccepted(Push(s.e.window, s.hits[a.serial].id, E.HIT_DEDUP_SIZE), s.up[1..], s.hits, s.accepted + [a])
  {
    TailSafe(s.up, s.hits);
    PushEndsWith(s.e.window, s.hits[a.serial].id);
    if |s.accepted| > 0 {
      assert s.accepted[|s.accepted| - 1].serial < a.serial;
    }
  }

  lemma ReceiveIsSafe(s: System)
    requires Safe(s) && |s.up| > 0
    ensures Safe(Receive(s))
  {
    var m := s.up[0];
    TailSafe(s.up, s.hits);
    assert Carries(m, s.hits);
    CarriedId(m, s.hits);
    Notified(s.e, m.data);
    if Accepts(s.e, IdOf(m.data)) {
      AcceptIsSafe(s, Accept(m.serial, s.e.mode == E.GameActive));
    }
  }

  lemma LoseUpIsSafe(s: System, i: nat)
    requires Safe(s) && i < |s.up|
    ensures Safe(s.(up := Without(s.up, i)))
  {
  }

  lemma EmitterKeepsWindow(e: E.Emitter, x: R.Event)
    requires E.Shape(e) && !x.Notify?
    ensures R.Step(e, x).0.window == e.window
  {
  }

  lemma OtherEventIsSafe(s: System, ev: Event)
    requires Safe(s) && Enabled(s, ev) && !OfVest(ev)
    ensures Safe(Step(s, ev))
  {
    match ev
    case EmitterDoes(x) => EmitterKeepsWindow(s.e, x);
    case DeliverUp => ReceiveIsSafe(s);
    case LoseUp(i) => LoseUpIsSafe(s, i);
    case _ =>
  }

  lemma StepIsSafe(s: System, ev: Event)
    requires Safe(s) && Enabled(s, ev)
    ensures Safe(Step(s, ev))
  {
    if OfVest(ev) {
      VestEventIsSafe(s, ev);
    } else {
      OtherEventIsSafe(s, ev);
    }
  }
}
