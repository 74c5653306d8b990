/** What an infrared hit frame leads to: which frames the vest takes up, what it tells the emitter, and
    whom the emitter names as shooter and killer. */
module HitFrames {
  import opened Bytes
  import opened GameConfig
  import opened HitDelivery
  import opened HitRuns
  import opened IrLink
  import opened IrRoundTrip
  import opened Protocol
  import C = GameConfigEncoding
  import E = Emitter
  import F = FriendlyList
  import G = GameState
  import IrNoise
  import P = PhoneView
  import R = EmitterRuns
  import Reports = EmitterReports
  import V = Vest
  import VestPairing

  // ----- from the light to the vest -----

  /** The vest `v'` has taken up the hit of `v` and sent it. */
  predicate TookUp(v: V.Vest, v': V.Vest, out: Option<seq<byte>>, p: HitPacket, id: u16) {
    && v' == v.(hit := v'.hit) && v'.hit.pending && v'.hit.id == id && v'.hit.retries == 0 && v'.hit.scheduled
    && Tells(v'.hit.buf, p, id) && out == Some(v'.hit.buf)
  }

  /** A vest takes up a frame exactly if its check is valid, the vest is in the game with no hit pending, and
      the shooter is no friend or friendly fire is on; any other frame changes nothing. Without a link the
      hit is dropped at once. */
  lemma TakenUpExactly(v: V.Vest, p: HitPacket, crcValid: bool, id: u16)
    requires V.Shape(v)
    ensures var (v', out) := V.OnIrRx(v, p, crcValid, id);
            if !HostileFrame(v, IrFrame(p, crcValid, id)) then (v', out) == (v, None)
            else if v.connected then TookUp(v, v', out, p, id)
            else v' == v.(hit := v'.hit) && !v'.hit.pending && out == None
  {
    PayloadTells(p, id);
  }

  /** A hit frame received with one to three wrong bits leaves the vest as it was. */
  lemma WrongHitIsIgnored(v: V.Vest, p: HitPacket, received: seq<bool>, rx: Rx, frame: seq<IrRoundTrip.Event>,
                          gap: nat, d: seq<nat>, polls: seq<IrRoundTrip.Event>, id: u16)
    requires V.Shape(v) && rx.state == Idle
    requires |received| == 8 * HIT_PACKET_LEN && 1 <= IrNoise.Distance(received, WireBits(HitBytes(p))) <= 3
    requires CarriesFrame(frame, received, gap, d) && OnlyPolls(polls)
    ensures VestPairing.Hear(v, IrRoundTrip.Run(rx, frame + polls).1, id) == v
  {
    FrameRoundTrip(rx, frame, received, gap, d, polls);
    IrNoise.WrongHitIsInvalid(p, received);
    var got := DecodedBytes(received);
    HearOne(v, HitPacket(got[0], got[1], got[2]), false, id);
  }

  lemma HearOne(v: V.Vest, p: HitPacket, crcValid: bool, id: u16)
    requires V.Shape(v)
    ensures VestPairing.Hear(v, [HitFrame(p, crcValid)], id) == V.OnIrRx(v, p, crcValid, id).0
    ensures VestPairing.Hear(v, [], id) == v
  {
    assert [HitFrame(p, crcValid)][1..] == [];
  }

  /** A hit frame received without error, from a shooter who is no friend, is taken up once the receiver has
      seen the silence behind it. */
  lemma RightHitIsTakenUp(v: V.Vest, p: HitPacket, rx: Rx, frame: seq<IrRoundTrip.Event>, gap: nat, d: seq<nat>,
                          polls: seq<IrRoundTrip.Event>, id: u16)
    requires V.Shape(v) && v.connected && rx.state == Idle && LongSilence(polls)
    requires CarriesFrame(frame, WireBits(HitBytes(p)), gap, d) && OnlyPolls(polls)
    requires HostileFrame(v, IrFrame(p, true, id))
    ensures var v' := VestPairing.Hear(v, IrRoundTrip.Run(rx, frame + polls).1, id);
            TookUp(v, v', V.OnIrRx(v, p, true, id).1, p, id)
  {
    HitRoundTrip(rx, p, frame, gap, d, polls);
    HearOne(v, p, true, id);
    TakenUpExactly(v, p, true, id);
  }

  /** After a game start from a well-formed configuration, its writes delivered, the vest takes up the frames of
      exactly those shooters who are not among the first sixteen other players of the team, or of all if
      friendly fire is on. */
  lemma FriendsAreSpared(e: E.Emitter, v: V.Vest, header: seq<byte>, teams: seq<C.Team>, players: seq<C.Player>,
                         cfg: G.Config, rest: seq<byte>, p: HitPacket, id: u16)
    requires E.Shape(e) && e.vestReady && V.Shape(v)
    requires v.connected && !v.hit.pending && (v.state == V.PairedIdle || v.state == V.GameActive)
    requires |header| == 9 && C.TeamsFit(teams) && C.PlayersFit(players)
    requires |C.Blob(header, teams, players, C.EncodeConfig(cfg) + rest)| <= RAW_SIZE
    ensures var blob := C.Blob(header, teams, players, C.EncodeConfig(cfg) + rest);
            var v1 := F.Deliver(v, E.StartGameLocal(e, blob).1);
            var (v2, out) := V.OnIrRx(v1, p, true, id);
            if cfg.friendlyFire == 0 && F.Friend(e, players, p.playerId.ToNat()) then (v2, out) == (v1, None)
            else TookUp(v1, v2, out, p, id)
  {
    F.FriendsEndToEnd(e, v, header, teams, players, cfg, rest, p.playerId.ToNat());
    var blob := C.Blob(header, teams, players, C.EncodeConfig(cfg) + rest);
    TakenUpExactly(F.Deliver(v, E.StartGameLocal(e, blob).1), p, true, id);
  }

  // ----- from the vest to the phone and the mesh -----

  /** What the emitter reports when event `n` delivers a notification. */
  function ReportAt(saved: G.Config, trace: seq<HitDelivery.Event>, n: nat): Reports.Report
    requires Runs(saved, trace) && n < |trace| && trace[n].DeliverUp?
  {
    AtNext(saved, trace, n);
    Reports.NotifyReport(At(saved, trace, n).e, At(saved, trace, n).up[0].data)
  }

  lemma CauseOf(saved: G.Config, trace: seq<HitDelivery.Event>, n: nat) returns (i: nat)
    requires Runs(saved, trace) && n < |trace| && trace[n].DeliverUp? && At(saved, trace, n).e.mode == E.GameActive
    ensures CausedBy(saved, trace, n, i)
  {
    AtNext(saved, trace, n);
    i := HitHasFrame(saved, trace, n, Arriving(At(saved, trace, n)).serial);
    PayloadTells(trace[i].p, trace[i].id);
  }

  lemma DamageIsReported(e: E.Emitter, data: seq<byte>)
    requires R.Agree(e) && |data| == HIT_PAYLOAD_SIZE && e.mode == E.GameActive
    requires GetLe16(data[0], data[1]) !in e.window
    ensures var e' := E.OnNotify(e, data).0;
            Reports.HitEvent(data[2], e.setup.playerId, e.game.cfg.damage, e'.game.health)
            in Reports.NotifyReport(e, data).mesh
  {
    assert Reports.NotifyReport(e, data).mesh[0].HitEvent?;
  }

  /** Every loss of health is reported to the mesh with the shooter of its infrared frame, the local player,
      the damage and the health left. */
  lemma ShooterIsNamed(saved: G.Config, trace: seq<HitDelivery.Event>, n: nat) returns (i: nat)
    requires Runs(saved, trace) && n < |trace| && LosesHealth(saved, trace, n)
    ensures CausedBy(saved, trace, n, i)
    ensures var e, e' := At(saved, trace, n).e, At(saved, trace, n + 1).e;
            Reports.HitEvent(trace[i].p.playerId.ToNat(), e.setup.playerId, e.game.cfg.damage, e'.game.health)
            in ReportAt(saved, trace, n).mesh
  {
    AtNext(saved, trace, n);
    AtAgrees(saved, trace, n);
    LossIsAcceptance(At(saved, trace, n), trace[n]);
    i := CauseOf(saved, trace, n);
    DamageIsReported(At(saved, trace, n).e, Arriving(At(saved, trace, n)).data);
  }

  lemma DeathIsDelivered(s: System, ev: HitDelivery.Event)
    requires Safe(s) && HitDelivery.Enabled(s, ev) && R.Agree(s.e)
    requires s.e.mode != E.Dead && HitDelivery.Step(s, ev).e.mode == E.Dead
    ensures ev.DeliverUp? && s.e.mode == E.GameActive
    ensures P.Dies(s.e, R.Notify(s.up[0].data)) && HitDelivery.Step(s, ev).e == E.OnNotify(s.e, s.up[0].data).0
    ensures GetLe16(s.up[0].data[0], s.up[0].data[1]) !in s.e.window
  {
    if ev.EmitterDoes? {
      P.DeathIsReported(s.e, ev.ev);
    } else if ev.DeliverUp? {
      assert |Arriving(s).data| == HIT_PAYLOAD_SIZE;
    }
  }

  /** When the player dies, the killer named to the phone and to the mesh, and the shooter of the reported
      hit, are the shooter of the infrared frame that the vest took up. */
  lemma KillerIsShooter(saved: G.Config, trace: seq<HitDelivery.Event>, n: nat) returns (i: nat)
    requires Runs(saved, trace) && n < |trace|
    requires At(saved, trace, n).e.mode != E.Dead && At(saved, trace, n + 1).e.mode == E.Dead
    ensures trace[n].DeliverUp? && CausedBy(saved, trace, n, i)
    ensures var e, e' := At(saved, trace, n).e, At(saved, trace, n + 1).e;
            var shooter := trace[i].p.playerId.ToNat();
            var r := ReportAt(saved, trace, n);
            && [RSP_DEATH_NOTIFY, shooter] in r.phone
            && Reports.PlayerDeath(e.setup.playerId, shooter, e'.game.kills, e'.game.deaths) in r.mesh
            && Reports.HitEvent(shooter, e.setup.playerId, e.game.cfg.damage, 0) in r.mesh
  {
    AtNext(saved, trace, n);
    AtAgrees(saved, trace, n);
    AtAgrees(saved, trace, n + 1);
    var s := At(saved, trace, n);
    DeathIsDelivered(s, trace[n]);
    i := CauseOf(saved, trace, n);
    P.DeathIsReported(s.e, R.Notify(s.up[0].data));
    DamageIsReported(s.e, Arriving(s).data);
  }
}
