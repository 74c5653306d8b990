/** A game from power-on, and why the random hit ids must be fresh: when an id is drawn again while an
    answer to its first use is still under way, that answer ends a hit the emitter never received. */
module RepeatedIds {
  import opened Bytes
  import opened DedupRing
  import opened HitDelivery
  import opened Protocol
  import opened HitRuns
  import opened HitAcks
  import opened FreshIds
  import IrLink
  import Octets
  import G = GameState
  import V = Vest
  import E = Emitter
  import R = EmitterRuns

  /** The vest is in the game, linked, and free to take up a hit of this shooter. */
  predicate Free(s: System, p: IrLink.HitPacket) {
    && Safe(s) && s.linked && s.v.connected && s.v.state == V.GameActive && !s.v.hit.pending && s.up == []
    && !V.IsFriendly(s.v.friends, p.playerId.ToNat())
  }

  /** The emitter is in the game, ready for notifications, and the player survives a hit. */
  predicate Running(s: System) {
    s.e.vestReady && s.e.mode == E.GameActive && s.e.game.cfg.damage < s.e.game.health
  }

  function Payload(s: System, p: IrLink.HitPacket, id: u16): Up {
    Up(|s.hits|, V.HitPayload(id, p))
  }

  lemma HitTaken(s: System, p: IrLink.HitPacket, id: u16)
    requires Free(s, p)
    ensures Enabled(s, IrFrame(p, true, id))
    ensures var s1 := Step(s, IrFrame(p, true, id));
            && Safe(s1) && s1 == s.(v := s1.v, up := [Payload(s, p, id)], hits := s.hits + [Taken(id, p)])
            && s1.v.hit == V.Hit(V.HitPayload(id, p), id, true, 0, true)
            && s1.v == s.v.(hit := s1.v.hit)
  {
    StepIsSafe(s, IrFrame(p, true, id));
  }

  lemma HitRepeated(s: System, m: Up)
    requires Safe(s) && s.linked && s.v.connected && s.up == [m] && m.serial == |s.hits| - 1
    requires s.v.hit == V.Hit(m.data, s.v.hit.id, true, 0, true)
    ensures Enabled(s, RetryFires)
    ensures var s1 := Step(s, RetryFires);
            && Safe(s1) && s1 == s.(v := s.v.(hit := s.v.hit.(retries := 1)), up := [m, m])
  {
    StepIsSafe(s, RetryFires);
  }

  /** The first copy is applied, the second is a duplicate; both are acknowledged. */
  lemma CopiesAnswered(s: System, m: Up)
    requires Safe(s) && s.linked && s.up == [m, m] && s.down == [] && s.e.vestReady
    requires s.e.mode == E.GameActive && s.e.game.cfg.damage < s.e.game.health
    requires |m.data| == HIT_PAYLOAD_SIZE && IdOf(m.data) !in s.e.window
    ensures Enabled(s, DeliverUp)
    ensures var s1 := Step(s, DeliverUp);
            && Safe(s1) && Enabled(s1, DeliverUp)
            && s1.accepted == s.accepted + [Accept(m.serial, true)]
            && var s2 := Step(s1, DeliverUp);
            var ack := Down(E.HitAck(IdOf(m.data)), Some(m.serial));
            Safe(s2) && s2 == s.(e := s2.e, up := [], down := [ack, ack], accepted := s1.accepted)
  {
    var id := IdOf(m.data);
    var s1 := Step(s, DeliverUp);
    StepIsSafe(s, DeliverUp);
    PushEndsWith(s.e.window, id);
    FirstCopy(s, m);
    SecondCopy(s1, m);
    StepIsSafe(s1, DeliverUp);
  }

  lemma FirstCopy(s: System, m: Up)
    requires Safe(s) && s.linked && s.up == [m, m] && s.down == [] && s.e.vestReady
    requires s.e.mode == E.GameActive && s.e.game.cfg.damage < s.e.game.health
    requires |m.data| == HIT_PAYLOAD_SIZE && IdOf(m.data) !in s.e.window
    ensures var id := IdOf(m.data);
            var s1 := Step(s, DeliverUp);
            && s1 == s.(e := s1.e, up := [m], down := [Down(E.HitAck(id), Some(m.serial))],
                        accepted := s.accepted + [Accept(m.serial, true)])
            && s1.e.window == Push(s.e.window, id, E.HIT_DEDUP_SIZE) && s1.e.mode == E.GameActive && s1.e.vestReady
  {
  }

  lemma SecondCopy(s: System, m: Up)
    requires Safe(s) && s.linked && s.up == [m] && |s.down| == 1 && s.e.vestReady
    requires s.e.mode == E.GameActive && |m.data| == HIT_PAYLOAD_SIZE && IdOf(m.data) in s.e.window
    ensures var s1 := Step(s, DeliverUp);
            s1 == s.(e := s1.e, up := [], down := [s.down[0], Down(E.HitAck(IdOf(m.data)), Some(m.serial))])
  {
  }

  lemma NewestNotKnown(accepted: seq<Accept>, n: int)
    requires Increasing(accepted) && |accepted| > 0 && accepted[|accepted| - 1].serial == n
    ensures !Known(accepted, n + 1)
  {
  }

  lemma Follow(s: System, ev: Event, rest: seq<Event>)
    requires Shape(s) && Enabled(s, ev) && Shape(Step(s, ev)) && Legal(Step(s, ev), rest)
    ensures Legal(s, [ev] + rest) && Run(s, [ev] + rest) == Run(Step(s, ev), rest)
  {
    assert ([ev] + rest)[1..] == rest;
  }

  /** The first half of a run with a repeated id: a hit is taken up, repeated once and answered twice;
      the first answer ends it, the second stays under way. */
  lemma OneHitTwoAnswers(s: System, p: IrLink.HitPacket, id: u16) returns (t: System, trace: seq<Event>)
    requires Free(s, p) && Running(s) && s.down == [] && id !in s.e.window
    ensures Legal(s, trace) && t == Run(s, trace) && Free(t, p)
    ensures |t.down| == 1 && t.down[0].cmd == E.HitAck(id) && t.hits == s.hits + [Taken(id, p)]
    ensures t.accepted == s.accepted + [Accept(|s.hits|, true)]
  {
    var m := Payload(s, p, id);
    HitTaken(s, p, id);
    var s1 := Step(s, IrFrame(p, true, id));
    HitRepeated(s1, m);
    var s2 := Step(s1, RetryFires);
    Le16RoundTrip(id);
    CopiesAnswered(s2, m);
    var s3 := Step(s2, DeliverUp);
    var s4 := Step(s3, DeliverUp);
    AckDelivered(s4, id);
    t := Step(s4, DeliverDown);
    Follow(s4, DeliverDown, []);
    Follow(s3, DeliverUp, [DeliverDown]);
    Follow(s2, DeliverUp, [DeliverUp] + [DeliverDown]);
    Follow(s1, RetryFires, [DeliverUp] + ([DeliverUp] + [DeliverDown]));
    trace := [RetryFires] + ([DeliverUp] + ([DeliverUp] + [DeliverDown]));
    Follow(s, IrFrame(p, true, id), trace);
    trace := [IrFrame(p, true, id)] + trace;
  }

  lemma OnlyCopyLost(s: System)
    requires Safe(s) && |s.up| == 1
    ensures Enabled(s, LoseUp(0)) && Safe(Step(s, LoseUp(0))) && Step(s, LoseUp(0)) == s.(up := [])
  {
    LoseUpIsSafe(s, 0);
  }

  /** The second half: the same id is drawn again, the notification is lost, and the stale answer ends
      a hit that the emitter never received. */
  lemma StaleAnswer(s: System, p: IrLink.HitPacket, id: u16) returns (t: System, trace: seq<Event>)
    requires Free(s, p) && |s.down| == 1 && s.down[0].cmd == E.HitAck(id)
    requires |s.accepted| > 0 && s.accepted[|s.accepted| - 1].serial == |s.hits| - 1
    ensures Legal(s, trace) && t == Run(s, trace)
    ensures EndsUnaccepted(t) && t.hits == s.hits + [Taken(id, p)]
  {
    t, trace := TakenAndLost(s, p, id);
    AckDelivered(t, id);
    NewestNotKnown(s.accepted, |s.hits| - 1);
  }

  lemma TakenAndLost(s: System, p: IrLink.HitPacket, id: u16) returns (t: System, trace: seq<Event>)
    requires Free(s, p)
    ensures Legal(s, trace) && t == Run(s, trace) && Safe(t)
    ensures t == s.(v := t.v, up := [], hits := s.hits + [Taken(id, p)]) && t.v.hit.pending && t.v.hit.id == id
  {
    HitTaken(s, p, id);
    var s1 := Step(s, IrFrame(p, true, id));
    OnlyCopyLost(s1);
    t := Step(s1, LoseUp(0));
    Follow(s1, LoseUp(0), []);
    Follow(s, IrFrame(p, true, id), [LoseUp(0)]);
    trace := [IrFrame(p, true, id)] + [LoseUp(0)];
  }

  lemma {:induction false} RunInTwo(s: System, a: seq<Event>, b: seq<Event>)
    requires Shape(s) && Legal(s, a) && Shape(Run(s, a)) && Legal(Run(s, a), b)
    ensures Legal(s, a + b) && Run(s, a + b) == Run(Run(s, a), b)
    decreases |a|
  {
    if |a| == 0 {
      assert a + b == b;
    } else {
      StepKeepsShape(s, a[0]);
      RunInTwo(Step(s, a[0]), a[1..], b);
      assert (a + b)[0] == a[0] && (a + b)[1..] == a[1..] + b;
    }
  }

  // --- a game from power-on ---

  /** The vest hears the emitter's pairing frame, the emitter connects and finds the vest's services. */
  lemma PairedFromPowerOn(saved: G.Config, a: V.Address, player: Octets.Octet) returns (t: System, trace: seq<Event>)
    ensures Legal(Start(saved), trace) && t == Run(Start(saved), trace) && Safe(t)
    ensures t == Start(saved).(v := t.v, linked := true, e := E.PowerOn(saved).(vestReady := true))
    ensures t.v.connected && t.v.state == V.PairedIdle && t.v.friends == V.POWER_ON.friends && t.v.hit == V.POWER_ON.hit
    ensures t.v.pairing.paired
  {
    var s0 := Start(saved);
    var heard := IrPair(IrLink.PairingPacket(a.low, a.high, player));
    var s1 := Step(s0, heard);
    var s2 := Step(s1, Connect(a));
    t := Step(s2, GattReady);
    StepIsSafe(s0, heard);
    StepIsSafe(s1, Connect(a));
    StepIsSafe(s2, GattReady);
    Follow(s2, GattReady, []);
    Follow(s1, Connect(a), [GattReady]);
    Follow(s0, heard, [Connect(a)] + [GattReady]);
    trace := [heard] + ([Connect(a)] + [GattReady]);
  }

  lemma StartWritten(s: System)
    requires Safe(s) && s.linked && s.e.vestReady && s.down == [] && s.e.setup.friendlies == []
    ensures Enabled(s, EmitterDoes(R.Phone([CMD_START])))
    ensures var s1 := Step(s, EmitterDoes(R.Phone([CMD_START])));
            && Safe(s1) && s1 == s.(e := E.BeginGame(s.e), down := s1.down)
            && s1.down == [Down([VEST_CMD_FRIENDLY_LIST, 0], None),
                           Down([VEST_CMD_FRIENDLY_FIRE, s.e.game.cfg.friendlyFire], None)]
  {
    StepIsSafe(s, EmitterDoes(R.Phone([CMD_START])));
    var list, fire := E.FriendlyListCmd([]), E.FriendlyFireCmd(s.e.game.cfg.friendlyFire);
    assert list == [VEST_CMD_FRIENDLY_LIST, 0];
    assert Tagged([list, fire], None) == [Down(list, None), Down(fire, None)];
  }

  lemma ListHeard(s: System, fire: Down)
    requires Safe(s) && s.down == [Down([VEST_CMD_FRIENDLY_LIST, 0], None), fire] && s.v.state == V.PairedIdle
    ensures var s1 := Step(s, DeliverDown);
            && Safe(s1) && s1 == s.(v := s1.v, down := [fire])
            && s1.v == s.v.(state := V.GameActive, friends := s1.v.friends) && s1.v.friends.count == 0
  {
    StepIsSafe(s, DeliverDown);
  }

  lemma FireHeard(s: System, enabled: byte)
    requires Safe(s) && s.down == [Down([VEST_CMD_FRIENDLY_FIRE, enabled], None)]
    ensures var s1 := Step(s, DeliverDown);
            && Safe(s1) && s1 == s.(v := s1.v, down := [])
            && s1.v == s.v.(friends := s.v.friends.(fire := enabled != 0))
  {
    StepIsSafe(s, DeliverDown);
  }

  /** Every configuration leads from power-on into a game in which the vest is free to take up a hit. */
  lemma GameFromPowerOn(saved: G.Config, a: V.Address, player: Octets.Octet, p: IrLink.HitPacket)
    returns (t: System, trace: seq<Event>)
    ensures Legal(Start(saved), trace) && t == Run(Start(saved), trace)
    ensures Free(t, p) && t.e == E.BeginGame(E.PowerOn(saved).(vestReady := true))
    ensures t.down == [] && t.e.window == [] && t.hits == [] && t.accepted == [] && t.v.pairing.paired
  {
    var s, first := PairedFromPowerOn(saved, a, player);
    var start := EmitterDoes(R.Phone([CMD_START]));
    StartWritten(s);
    var s1 := Step(s, start);
    ListHeard(s1, s1.down[1]);
    var s2 := Step(s1, DeliverDown);
    FireHeard(s2, s.e.game.cfg.friendlyFire);
    t := Step(s2, DeliverDown);
    Follow(s2, DeliverDown, []);
    Follow(s1, DeliverDown, [DeliverDown]);
    Follow(s, start, [DeliverDown] + [DeliverDown]);
    var second := [start] + ([DeliverDown] + [DeliverDown]);
    RunInTwo(Start(saved), first, second);
    trace := first + second;
  }

  /** For every id there is a run from power-on that draws it for two hits, and in which the answer to
      the first ends the second, which the emitter never accepted. */
  lemma RepeatedIdEndsLostHit(saved: G.Config, p: IrLink.HitPacket, id: u16) returns (trace: seq<Event>)
    requires saved.damage < saved.maxHealth
    ensures Runs(saved, trace)
    ensures var t := Run(Start(saved), trace);
            t.hits == [Taken(id, p), Taken(id, p)] && EndsUnaccepted(t)
  {
    var s, start := GameFromPowerOn(saved, V.NO_ADDRESS, Octets.ZERO, p);
    var s5, first := OneHitTwoAnswers(s, p, id);
    var t, second := StaleAnswer(s5, p, id);
    RunInTwo(s, first, second);
    RunInTwo(Start(saved), start, first + second);
    trace := start + (first + second);
  }
}
