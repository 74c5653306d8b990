/** What an acknowledgement means: if the random ids do not collide with those still in use, a hit
    that the vest considers delivered was accepted by the emitter, exactly once. */
module HitAcks {
  import opened Bytes
  import opened DedupRing
  import opened HitDelivery
  import opened Protocol
  import opened Sequences
  import opened HitRuns
  import opened HitVerdicts
  import G = GameState
  import V = Vest
  import E = Emitter
  import R = EmitterRuns

  predicate IsAck(cmd: seq<byte>) {
    |cmd| > 0 && cmd[0] == VEST_CMD_HIT_ACK
  }

  // ----- fresh ids -----

  /** The id drawn for a new hit is not in the ring, in a notification under way or in an
      acknowledgement under way. */
  predicate Fresh(s: System, id: u16)
    requires Safe(s)
  {
    && id !in s.e.window
    && (forall i :: 0 <= i < |s.up| ==> s.hits[ChannelSerial(s, i)].id != id)
    && (forall j :: 0 <= j < |s.down| ==> s.down[j].cmd != E.HitAck(id))
  }

  function ChannelSerial(s: System, i: nat): (t: nat)
    requires Safe(s) && i < |s.up|
    ensures t < |s.hits| && t == s.up[i].serial
  {
    assert Carries(s.up[i], s.hits);
    s.up[i].serial
  }

  predicate DrawsFresh(s: System, ev: Event)
    requires Safe(s)
  {
    TakesUp(s, ev) ==> Fresh(s, ev.id)
  }

  // ----- what every step keeps -----

  predicate Known(accepted: seq<Accept>, serial: int) {
    exists k :: 0 <= k < |accepted| && accepted[k].serial == serial
  }

  /** The hit with this serial, if its id is in the ring, is there on its own account. */
  predicate OwnId(window: seq<u16>, accepted: seq<Accept>, hits: seq<Taken>, serial: int) {
    0 <= serial < |hits| && (hits[serial].id in window ==> Known(accepted, serial))
  }

  /** Hits under way have different ids. */
  predicate Apart(hits: seq<Taken>, a: int, b: int) {
    0 <= a < |hits| && 0 <= b < |hits| && (hits[a].id == hits[b].id ==> a == b)
  }

  predicate AckSound(d: Down, hits: seq<Taken>, accepted: seq<Accept>) {
    IsAck(d.cmd) ==>
      && d.serial.Some? && 0 <= d.serial.value < |hits| && Known(accepted, d.serial.value)
      && d.cmd == E.HitAck(hits[d.serial.value].id)
  }

  predicate UpSound(window: seq<u16>, up: seq<Up>, hits: seq<Taken>, accepted: seq<Accept>) {
    && (forall i :: 0 <= i < |up| ==> OwnId(window, accepted, hits, up[i].serial))
    && (forall i, j :: 0 <= i < j < |up| ==> Apart(hits, up[i].serial, up[j].serial))
  }

  predicate DownSound(down: seq<Down>, hits: seq<Taken>, accepted: seq<Accept>) {
    forall j :: 0 <= j < |down| ==> AckSound(down[j], hits, accepted)
  }

  /** The hit `p`, still pending, against everything under way. */
  predicate PendingSound(window: seq<u16>, up: seq<Up>, down: seq<Down>, hits: seq<Taken>, accepted: seq<Accept>,
                         p: int) {
    && OwnId(window, accepted, hits, p)
    && (forall i :: 0 <= i < |up| ==> Apart(hits, up[i].serial, p))
    && (forall j :: 0 <= j < |down| && IsAck(down[j].cmd) && down[j].serial.Some? ==>
          Apart(hits, down[j].serial.value, p))
  }

  predicate Sound(s: System) {
    && Safe(s)
    && UpSound(s.e.window, s.up, s.hits, s.accepted)
    && DownSound(s.down, s.hits, s.accepted)
    && (s.v.hit.pending ==> PendingSound(s.e.window, s.up, s.down, s.hits, s.accepted, |s.hits| - 1))
  }

  // --- the vest's steps ---

  lemma SendIsSound(window: seq<u16>, up: seq<Up>, down: seq<Down>, hits: seq<Taken>, accepted: seq<Accept>, p: int,
                    m: Up)
    requires UpSound(window, up, hits, accepted) && PendingSound(window, up, down, hits, accepted, p) && m.serial == p
    ensures UpSound(window, up + [m], hits, accepted) && PendingSound(window, up + [m], down, hits, accepted, p)
  {
  }

  lemma QuietIsSound(s: System, v: V.Vest, out: Option<seq<byte>>)
    requires Sound(s) && V.Shape(v) && Quiet(s.v.hit, v.hit, out)
    ensures Sound(VestStep(s, v, out))
  {
    QuietIsSafe(s, v, out);
    if out.Some? {
      SendIsSound(s.e.window, s.up, s.down, s.hits, s.accepted, |s.hits| - 1, Up(|s.hits| - 1, out.value));
    }
  }

  lemma LongerListIsSound(window: seq<u16>, up: seq<Up>, down: seq<Down>, hits: seq<Taken>, accepted: seq<Accept>,
                          t: Taken)
    requires UpSound(window, up, hits, accepted) && DownSound(down, hits, accepted)
    ensures UpSound(window, up, hits + [t], accepted) && DownSound(down, hits + [t], accepted)
  {
    forall i | 0 <= i < |up|
      ensures OwnId(window, accepted, hits + [t], up[i].serial)
    {
      assert OwnId(window, accepted, hits, up[i].serial);
    }
    forall i, j | 0 <= i < j < |up|
      ensures Apart(hits + [t], up[i].serial, up[j].serial)
    {
      assert Apart(hits, up[i].serial, up[j].serial);
    }
    forall j | 0 <= j < |down|
      ensures AckSound(down[j], hits + [t], accepted)
    {
      assert AckSound(down[j], hits, accepted);
    }
  }

  lemma FreshIsApart(s: System, t: Taken)
    requires Sound(s) && Fresh(s, t.id)
    ensures PendingSound(s.e.window, s.up, s.down, s.hits + [t], s.accepted, |s.hits|)
  {
    var hits := s.hits + [t];
    forall i | 0 <= i < |s.up|
      ensures Apart(hits, s.up[i].serial, |s.hits|)
    {
      assert hits[ChannelSerial(s, i)].id != t.id;
    }
    forall j | 0 <= j < |s.down| && IsAck(s.down[j].cmd) && s.down[j].serial.Some?
      ensures Apart(hits, s.down[j].serial.value, |s.hits|)
    {
      assert AckSound(s.down[j], s.hits, s.accepted);
    }
  }

  /** The new hit's notification, if there is a link, against everything under way. */
  lemma SentIsSound(s: System, v: V.Vest, t: Taken, out: Option<seq<byte>>)
    requires Sound(s) && Fresh(s, t.id)
    ensures var s1 := VestStep(s.(hits := s.hits + [t]), v, out);
            && UpSound(s1.e.window, s1.up, s1.hits, s1.accepted) && DownSound(s1.down, s1.hits, s1.accepted)
            && PendingSound(s1.e.window, s1.up, s1.down, s1.hits, s1.accepted, |s1.hits| - 1)
  {
    LongerListIsSound(s.e.window, s.up, s.down, s.hits, s.accepted, t);
    FreshIsApart(s, t);
    if out.Some? {
      SendIsSound(s.e.window, s.up, s.down, s.hits + [t], s.accepted, |s.hits|, Up(|s.hits|, out.value));
    }
  }

  lemma TakeUpIsSound(s: System, v: V.Vest, t: Taken, out: Option<seq<byte>>)
    requires Sound(s) && Fresh(s, t.id) && V.Shape(v)
    requires (v.hit, out) == V.TakeUp(V.HitPayload(t.id, t.frame), t.id, s.v.connected)
    ensures Sound(VestStep(s.(hits := s.hits + [t]), v, out))
  {
    TakeUpIsSafe(s, v, t, out);
    SentIsSound(s, v, t, out);
  }

  lemma PopDownIsSound(s: System)
    requires Sound(s) && |s.down| > 0
    ensures Sound(s.(down := s.down[1..]))
  {
  }

  lemma VestEventIsSound(s: System, ev: Event)
    requires Sound(s) && Enabled(s, ev) && OfVest(ev) && DrawsFresh(s, ev)
    ensures Sound(Step(s, ev))
  {
    match ev
    case IrFrame(p, crcValid, id) =>
      var (v, out) := V.OnIrRx(s.v, p, crcValid, id);
      if TakesUp(s, ev) {
        TakeUpIsSound(s, v, Taken(id, p), out);
      }
    case IrPair(frame) => QuietIsSound(s, V.OnIrPairing(s.v, frame), None);
    case RetryFires => QuietIsSound(s, V.OnRetry(s.v).0, V.OnRetry(s.v).1);
    case PairTimeout => QuietIsSound(s, V.OnPairTimeout(s.v), None);
    case UnpairButton => QuietIsSound(s, V.Forget(s.v), None);
    case DeliverDown =>
      CommandIsQuiet(s.v, s.down[0].cmd);
      QuietIsSound(s, V.OnCommand(s.v, s.down[0].cmd), None);
      PopDownIsSound(VestStep(s, V.OnCommand(s.v, s.down[0].cmd), None));
    case Connect(peer) => QuietIsSound(s, V.OnConnected(s.v, peer), None);
    case VestNotices => QuietIsSound(s, V.OnDisconnected(s.v), None);
  }

  // --- the emitter's steps and the channels ---

  /** Accepting hit `q` makes it known; the ids that enter the ring are its own. */
  lemma AcceptOwnId(window: seq<u16>, hits: seq<Taken>, accepted: seq<Accept>, q: int, a: Accept, serial: int)
    requires OwnId(window, accepted, hits, serial) && Apart(hits, q, serial) && a.serial == q
    ensures OwnId(Push(window, hits[q].id, E.HIT_DEDUP_SIZE), accepted + [a], hits, serial)
  {
    KnownGrows(accepted, a, serial);
    if hits[serial].id in Push(window, hits[q].id, E.HIT_DEDUP_SIZE) {
      PushContents(window, hits[q].id, hits[serial].id);
    }
  }

  lemma PushContents(window: seq<u16>, id: u16, other: u16)
    requires other in Push(window, id, E.HIT_DEDUP_SIZE)
    ensures other in window || other == id
  {
  }

  lemma KnownGrows(accepted: seq<Accept>, a: Accept, serial: int)
    ensures Known(accepted + [a], serial) <==> Known(accepted, serial) || a.serial == serial
  {
    var all := accepted + [a];
    assert all[|accepted|] == a;
    if Known(accepted, serial) {
      var k :| 0 <= k < |accepted| && accepted[k].serial == serial;
      assert all[k].serial == serial;
    }
  }

  lemma AcceptKeepsUp(window: seq<u16>, up: seq<Up>, hits: seq<Taken>, accepted: seq<Accept>, a: Accept)
    requires UpSound(window, up, hits, accepted) && |up| > 0 && a.serial == up[0].serial
    ensures 0 <= a.serial < |hits|
    ensures UpSound(Push(window, hits[a.serial].id, E.HIT_DEDUP_SIZE), up[1..], hits, accepted + [a])
  {
    assert OwnId(window, accepted, hits, up[0].serial);
    var window', rest := Push(window, hits[a.serial].id, E.HIT_DEDUP_SIZE), up[1..];
    forall i | 0 <= i < |rest|
      ensures OwnId(window', accepted + [a], hits, rest[i].serial)
    {
      assert OwnId(window, accepted, hits, up[i + 1].serial) && Apart(hits, up[0].serial, up[i + 1].serial);
      AcceptOwnId(window, hits, accepted, a.serial, a, rest[i].serial);
    }
    forall i, j | 0 <= i < j < |rest|
      ensures Apart(hits, rest[i].serial, rest[j].serial)
    {
      assert Apart(hits, up[i + 1].serial, up[j + 1].serial);
    }
  }

  lemma AcceptKeepsPending(window: seq<u16>, up: seq<Up>, down: seq<Down>, hits: seq<Taken>, accepted: seq<Accept>,
                           p: int, a: Accept)
    requires PendingSound(window, up, down, hits, accepted, p) && |up| > 0 && a.serial == up[0].serial
    requires 0 <= a.serial < |hits|
    ensures PendingSound(Push(window, hits[a.serial].id, E.HIT_DEDUP_SIZE), up[1..], down, hits, accepted + [a], p)
  {
    assert Apart(hits, up[0].serial, p);
    AcceptOwnId(window, hits, accepted, a.serial, a, p);
  }

  lemma AcceptKeepsDown(down: seq<Down>, hits: seq<Taken>, accepted: seq<Accept>, a: Accept)
    requires DownSound(down, hits, accepted)
    ensures DownSound(down, hits, accepted + [a])
  {
    forall j | 0 <= j < |down|
      ensures AckSound(down[j], hits, accepted + [a])
    {
      assert AckSound(down[j], hits, accepted);
      if IsAck(down[j].cmd) {
        KnownGrows(accepted, a, down[j].serial.value);
      }
    }
  }

  lemma PopUpIsSound(window: seq<u16>, up: seq<Up>, hits: seq<Taken>, accepted: seq<Accept>)
    requires UpSound(window, up, hits, accepted) && |up| > 0
    ensures UpSound(window, up[1..], hits, accepted)
  {
    forall i, j | 0 <= i < j < |up[1..]|
      ensures Apart(hits, up[1..][i].serial, up[1..][j].serial)
    {
      assert Apart(hits, up[i + 1].serial, up[j + 1].serial);
    }
  }

  /** Commands whose acknowledgements all answer hit `q`, which is known. */
  predicate Answers(cmds: seq<seq<byte>>, hits: seq<Taken>, q: int) {
    0 <= q < |hits| && forall i :: 0 <= i < |cmds| && IsAck(cmds[i]) ==> cmds[i] == E.HitAck(hits[q].id)
  }

  lemma AppendAnswers(down: seq<Down>, cmds: seq<seq<byte>>, hits: seq<Taken>, accepted: seq<Accept>, q: int)
    requires DownSound(down, hits, accepted) && Answers(cmds, hits, q) && (cmds != [] ==> Known(accepted, q))
    ensures DownSound(down + Tagged(cmds, Some(q)), hits, accepted)
  {
  }

  lemma AnswersKeepPending(window: seq<u16>, up: seq<Up>, down: seq<Down>, cmds: seq<seq<byte>>, hits: seq<Taken>,
                           accepted: seq<Accept>, p: int, q: int)
    requires PendingSound(window, up, down, hits, accepted, p) && Apart(hits, q, p)
    ensures PendingSound(window, up, down + Tagged(cmds, Some(q)), hits, accepted, p)
  {
  }

  /** What the emitter writes in answer to a notification. */
  lemma NotifyAnswers(e: E.Emitter, data: seq<byte>)
    requires |data| == HIT_PAYLOAD_SIZE
    ensures var cmds := E.OnNotify(e, data).1;
            (forall i :: 0 <= i < |cmds| && IsAck(cmds[i]) ==> cmds[i] == E.HitAck(IdOf(data)))
            && (cmds != [] ==> R.InGame(e))
  {
  }

  lemma ReceiveIsSound(s: System)
    requires Sound(s) && |s.up| > 0 && s.linked
    ensures Sound(Receive(s))
  {
    ReceiveIsSafe(s);
    var m := s.up[0];
    assert Carries(m, s.hits) && OwnId(s.e.window, s.accepted, s.hits, m.serial);
    CarriedId(m, s.hits);
    Notified(s.e, m.data);
    NotifyAnswers(s.e, m.data);
    var cmds := E.OnNotify(s.e, m.data).1;
    if Accepts(s.e, IdOf(m.data)) {
      var a := Accept(m.serial, s.e.mode == E.GameActive);
      AcceptedSound(s, a, cmds);
    } else {
      RepeatedSound(s, cmds);
    }
  }

  /** The parts of the system, with the pending hit if there is one. */
  predicate PartsSound(window: seq<u16>, up: seq<Up>, down: seq<Down>, hits: seq<Taken>, accepted: seq<Accept>,
                       pending: bool) {
    && UpSound(window, up, hits, accepted) && DownSound(down, hits, accepted)
    && (pending ==> PendingSound(window, up, down, hits, accepted, |hits| - 1))
  }

  lemma AcceptedSound(s: System, a: Accept, cmds: seq<seq<byte>>)
    requires Sound(s) && |s.up| > 0 && a.serial == s.up[0].serial && Answers(cmds, s.hits, a.serial)
    ensures PartsSound(Push(s.e.window, s.hits[a.serial].id, E.HIT_DEDUP_SIZE), s.up[1..],
                       s.down + Tagged(cmds, Some(a.serial)), s.hits, s.accepted + [a], s.v.hit.pending)
  {
    var window := Push(s.e.window, s.hits[a.serial].id, E.HIT_DEDUP_SIZE);
    AcceptKeepsUp(s.e.window, s.up, s.hits, s.accepted, a);
    AcceptKeepsDown(s.down, s.hits, s.accepted, a);
    KnownGrows(s.accepted, a, a.serial);
    AppendAnswers(s.down, cmds, s.hits, s.accepted + [a], a.serial);
    if s.v.hit.pending {
      var p := |s.hits| - 1;
      assert Apart(s.hits, s.up[0].serial, p);
      AcceptKeepsPending(s.e.window, s.up, s.down, s.hits, s.accepted, p, a);
      AnswersKeepPending(window, s.up[1..], s.down, cmds, s.hits, s.accepted + [a], p, a.serial);
    }
  }

  lemma RepeatedSound(s: System, cmds: seq<seq<byte>>)
    requires Sound(s) && |s.up| > 0 && Answers(cmds, s.hits, s.up[0].serial)
    requires cmds != [] ==> Known(s.accepted, s.up[0].serial)
    ensures PartsSound(s.e.window, s.up[1..], s.down + Tagged(cmds, Some(s.up[0].serial)), s.hits, s.accepted,
                       s.v.hit.pending)
  {
    PopUpIsSound(s.e.window, s.up, s.hits, s.accepted);
    AppendAnswers(s.down, cmds, s.hits, s.accepted, s.up[0].serial);
    if s.v.hit.pending {
      var p := |s.hits| - 1;
      assert Apart(s.hits, s.up[0].serial, p);
      AnswersKeepPending(s.e.window, s.up[1..], s.down, cmds, s.hits, s.accepted, p, s.up[0].serial);
    }
  }

  lemma NoAcks(e: E.Emitter, x: R.Event)
    requires E.Shape(e) && !x.Notify?
    ensures forall i :: 0 <= i < |R.Step(e, x).1| ==> !IsAck(R.Step(e, x).1[i])
  {
  }

  lemma EmitterDoesIsSound(s: System, x: R.Event)
    requires Sound(s) && Enabled(s, EmitterDoes(x))
    ensures Sound(Step(s, EmitterDoes(x)))
  {
    OtherEventIsSafe(s, EmitterDoes(x));
    EmitterKeepsWindow(s.e, x);
    NoAcks(s.e, x);
  }

  lemma WithoutKeepsUp(window: seq<u16>, up: seq<Up>, hits: seq<Taken>, accepted: seq<Accept>, i: nat)
    requires UpSound(window, up, hits, accepted) && i < |up|
    ensures UpSound(window, Without(up, i), hits, accepted)
  {
    var rest := Without(up, i);
    forall a, b | 0 <= a < b < |rest|
      ensures Apart(hits, rest[a].serial, rest[b].serial)
    {
      assert Apart(hits, up[if a < i then a else a + 1].serial, up[if b < i then b else b + 1].serial);
    }
  }

  lemma LoseUpIsSound(s: System, i: nat)
    requires Sound(s) && i < |s.up|
    ensures Sound(s.(up := Without(s.up, i)))
  {
    LoseUpIsSafe(s, i);
    WithoutKeepsUp(s.e.window, s.up, s.hits, s.accepted, i);
  }

  lemma LoseDownIsSound(s: System, j: nat)
    requires Sound(s) && j < |s.down|
    ensures Sound(s.(down := Without(s.down, j)))
  {
  }

  lemma DropIsSound(s: System)
    requires Sound(s)
    ensures Sound(s.(linked := false, up := [], down := []))
  {
  }

  lemma OtherEventIsSound(s: System, ev: Event)
    requires Sound(s) && Enabled(s, ev) && !OfVest(ev)
    ensures Sound(Step(s, ev))
  {
    match ev
    case EmitterDoes(x) => EmitterDoesIsSound(s, x);
    case DeliverUp => ReceiveIsSound(s);
    case LoseUp(i) => LoseUpIsSound(s, i);
    case LoseDown(j) => LoseDownIsSound(s, j);
    case Drop => DropIsSound(s);
    case _ =>
  }

  // ----- runs with fresh ids -----

  predicate FreshAt(saved: G.Config, trace: seq<Event>, n: nat)
    requires Runs(saved, trace) && n < |trace|
  {
    AtIsSafe(saved, trace, n);
    DrawsFresh(At(saved, trace, n), trace[n])
  }

  predicate FreshRun(saved: G.Config, trace: seq<Event>)
    requires Runs(saved, trace)
  {
    forall n :: 0 <= n < |trace| ==> FreshAt(saved, trace, n)
  }

  lemma {:induction false} AtIsSound(saved: G.Config, trace: seq<Event>, n: nat)
    requires Runs(saved, trace) && FreshRun(saved, trace) && n <= |trace|
    ensures Sound(At(saved, trace, n))
    decreases n
  {
    if n > 0 {
      AtIsSound(saved, trace, n - 1);
      AtNext(saved, trace, n - 1);
      var s, ev := At(saved, trace, n - 1), trace[n - 1];
      assert FreshAt(saved, trace, n - 1);
      if OfVest(ev) {
        VestEventIsSound(s, ev);
      } else {
        OtherEventIsSound(s, ev);
      }
    }
  }

  lemma {:induction false} KnownHasDelivery(saved: G.Config, trace: seq<Event>, n: nat, q: int) returns (m: nat)
    requires Runs(saved, trace) && n <= |trace| && Known(At(saved, trace, n).accepted, q)
    ensures m < n && AcceptsAt(saved, trace, m) && SerialAt(saved, trace, m) == q
    decreases n
  {
    if n > 0 {
      AtNext(saved, trace, n - 1);
      var s := At(saved, trace, n - 1);
      StepAccepts(s, trace[n - 1]);
      if Known(s.accepted, q) {
        m := KnownHasDelivery(saved, trace, n - 1, q);
      } else {
        m := n - 1;
        KnownGrows(s.accepted, Accept(Arriving(s).serial, s.e.mode == E.GameActive), q);
      }
    }
  }

  /** Event `n` hands the vest an acknowledgement that ends its pending hit. */
  predicate EndsPending(s: System, ev: Event)
    requires Shape(s) && Enabled(s, ev)
  {
    && ev.DeliverDown? && |s.down| > 0 && IsAck(s.down[0].cmd)
    && s.v.hit.pending && !Step(s, ev).v.hit.pending
  }

  lemma EndedHitIsKnown(s: System, ev: Event)
    requires Sound(s) && Enabled(s, ev) && EndsPending(s, ev)
    ensures Known(s.accepted, |s.hits| - 1)
  {
    var d, p := s.down[0], |s.hits| - 1;
    assert AckSound(d, s.hits, s.accepted);
    assert Apart(s.hits, d.serial.value, p);
    Le16RoundTrip(s.hits[d.serial.value].id);
  }

  predicate EndsPendingAt(saved: G.Config, trace: seq<Event>, n: nat)
    requires Runs(saved, trace) && n < |trace|
  {
    AtNext(saved, trace, n);
    EndsPending(At(saved, trace, n), trace[n])
  }

  /** The delivery that accepted the hit with this serial, the only one in the run. */
  predicate OnlyAcceptance(saved: G.Config, trace: seq<Event>, m: nat, serial: int)
    requires Runs(saved, trace) && m < |trace|
  {
    && AcceptsAt(saved, trace, m) && SerialAt(saved, trace, m) == serial
    && forall n :: 0 <= n < |trace| && n != m && AcceptsAt(saved, trace, n) ==> SerialAt(saved, trace, n) != serial
  }

  /** When every new id is fresh, a hit that an acknowledgement ends was accepted by the emitter, once;
      it was applied to the player's health exactly if the game was active at that moment. */
  lemma AckIsSound(saved: G.Config, trace: seq<Event>, n: nat) returns (m: nat)
    requires Runs(saved, trace) && FreshRun(saved, trace) && n < |trace|
    requires EndsPendingAt(saved, trace, n)
    ensures m < n && OnlyAcceptance(saved, trace, m, |At(saved, trace, n).hits| - 1)
    ensures var ended := |At(saved, trace, n).hits| - 1;
            Accept(ended, At(saved, trace, m).e.mode == E.GameActive) in At(saved, trace, n).accepted
  {
    AtIsSound(saved, trace, n);
    EndedHitIsKnown(At(saved, trace, n), trace[n]);
    m := KnownHasDelivery(saved, trace, n, |At(saved, trace, n).hits| - 1);
    AcceptIsLogged(saved, trace, m, n);
    AcceptedOnlyHere(saved, trace, m);
  }

  // ----- delivered hits are accepted -----

  /** With hits apart, a notification in a game is taken for a duplicate only if its own hit is known. */
  lemma NoFalseDuplicate(s: System)
    requires Sound(s) && |s.up| > 0 && R.InGame(s.e)
    ensures Accepts(s.e, IdOf(Arriving(s).data)) || Known(s.accepted, s.up[0].serial)
  {
    CarriedId(Arriving(s), s.hits);
    assert OwnId(s.e.window, s.accepted, s.hits, s.up[0].serial);
  }

  /** When every new id is fresh, every hit that reaches an emitter in a game is accepted, at its first
      delivery there, by exactly one delivery. */
  lemma DeliveredIsAccepted(saved: G.Config, trace: seq<Event>, n: nat) returns (m: nat)
    requires Runs(saved, trace) && FreshRun(saved, trace) && n < |trace| && HeardAt(saved, trace, n)
    ensures m <= n && OnlyAcceptance(saved, trace, m, HitAt(saved, trace, n))
  {
    AtIsSound(saved, trace, n);
    AtNext(saved, trace, n);
    NoFalseDuplicate(At(saved, trace, n));
    if AcceptsAt(saved, trace, n) {
      m := n;
    } else {
      m := KnownHasDelivery(saved, trace, n, HitAt(saved, trace, n));
    }
    AcceptedOnlyHere(saved, trace, m);
  }

  lemma AcceptedOnlyHere(saved: G.Config, trace: seq<Event>, m: nat)
    requires Runs(saved, trace) && m < |trace| && AcceptsAt(saved, trace, m)
    ensures OnlyAcceptance(saved, trace, m, SerialAt(saved, trace, m))
  {
    forall k | 0 <= k < |trace| && k != m && AcceptsAt(saved, trace, k)
      ensures SerialAt(saved, trace, k) != SerialAt(saved, trace, m)
    {
      if k < m {
        AcceptedAtMostOnce(saved, trace, k, m);
      } else {
        AcceptedAtMostOnce(saved, trace, m, k);
      }
    }
  }
}
