/** What the phone and the mesh learn from the emitter: the phone's picture of health and ammunition is
    always up to date, and the emitter reports a death exactly when its player dies. */
module PhoneView {
  import opened Bytes
  import opened Emitter
  import opened EmitterReports
  import opened EmitterRuns
  import opened GameState
  import opened Protocol

  /** What is reported at an event. */
  function Reported(e: Emitter, ev: Event): Report
    requires Shape(e)
  {
    match ev
    case Phone(data) => PhoneReport(e, data)
    case Notify(hit) => NotifyReport(e, hit)
    case MeshStart(cfg) => MeshStartReport(e, cfg)
    case ReloadFires => ReloadReport(e)
    case AnnounceFires => AnnounceReport(e)
    case PlayerStateFires => PlayerStateReport(e)
    case ScoreboardFires => ScoreboardReport(e)
    case Trigger(pressed, nowMs) => TriggerReport(e, pressed, nowMs)
    case _ => SILENT
  }

  // ----- the phone's picture -----

  datatype View = View(health: byte, mag: u16, reserve: u16)

  function ViewOf(g: Game): View { View(g.health, g.mag, g.reserve) }

  /** The phone decodes state updates and takes over what they say. */
  function SeeOne(v: View, msg: seq<byte>): View {
    if |msg| == 6 && msg[0] == RSP_STATE_UPDATE then View(msg[1], GetLe16(msg[2], msg[3]), GetLe16(msg[4], msg[5]))
    else v
  }

  function See(v: View, msgs: seq<seq<byte>>): View
    decreases |msgs|
  {
    if |msgs| == 0 then v else See(SeeOne(v, msgs[0]), msgs[1..])
  }

  lemma UpdateSeen(v: View, g: Game)
    ensures SeeOne(v, StateUpdate(g)) == ViewOf(g)
  {
    Le16RoundTrip(g.mag);
    Le16RoundTrip(g.reserve);
  }

  lemma SeenOne(v: View, msg: seq<byte>)
    ensures See(v, [msg]) == SeeOne(v, msg)
  {
    assert [msg][1..] == [];
  }

  lemma SeenTwo(v: View, a: seq<byte>, b: seq<byte>)
    ensures See(v, [a, b]) == SeeOne(SeeOne(v, a), b)
  {
    assert [a, b][1..] == [b];
    SeenOne(SeeOne(v, a), b);
  }

  /** A report of one update, possibly after or before a message that is none. */
  lemma UpdateAlone(v: View, g: Game, other: seq<byte>)
    requires |other| < 6
    ensures See(v, [StateUpdate(g)]) == ViewOf(g)
    ensures See(v, [other]) == v
    ensures See(v, [other, StateUpdate(g)]) == ViewOf(g)
    ensures See(v, [StateUpdate(g), other]) == ViewOf(g)
  {
    UpdateSeen(v, g);
    SeenOne(v, StateUpdate(g));
    SeenOne(v, other);
    SeenTwo(v, other, StateUpdate(g));
    SeenTwo(v, StateUpdate(g), other);
  }

  lemma NotifyInSync(e: Emitter, hit: seq<byte>)
    ensures See(ViewOf(e.game), NotifyReport(e, hit).phone) == ViewOf(OnNotify(e, hit).0.game)
  {
    if |hit| >= HIT_PAYLOAD_SIZE {
      UpdateAlone(ViewOf(e.game), ApplyHit(e.game, e.game.cfg.damage).0, [RSP_DEATH_NOTIFY, hit[2]]);
    }
  }

  lemma StartInSync(e: Emitter, cfg: seq<byte>)
    requires Shape(e)
    ensures See(ViewOf(e.game), StartReport(e, cfg).phone) == ViewOf(StartGameLocal(e, cfg).0.game)
    ensures See(ViewOf(e.game), HostReport(e, cfg).phone) == ViewOf(StartGameLocal(e, cfg).0.game)
  {
    UpdateAlone(ViewOf(e.game), StartGameLocal(e, cfg).0.game, [RSP_GAME_CFG_ACK]);
  }

  lemma GameCommandInSync(e: Emitter, data: seq<byte>)
    requires Shape(e) && |data| > 0 && IsGameCommand(data[0])
    ensures See(ViewOf(e.game), GameCommandReport(e, data).phone) == ViewOf(OnGameCommand(e, data).0.game)
  {
    var v := ViewOf(e.game);
    UpdateAlone(v, StartGame(e.game), [RSP_START_ACK]);
    UpdateAlone(v, Respawn(e.game), [RSP_RESPAWN_ACK]);
    UpdateAlone(v, e.game, [RSP_GAME_OVER_ACK]);
    if data[0] == CMD_BROADCAST_GAME_CFG && |data| > 1 {
      StartInSync(e.(timers := e.timers.(announce := false)), data[1..]);
    }
  }

  lemma AckChangesNothing(v: View, opcode: byte)
    ensures See(v, [[opcode]]) == v
  {
    SeenOne(v, [opcode]);
  }

  lemma OtherCommandInSync(e: Emitter, data: seq<byte>)
    requires Shape(e) && |data| > 0
    ensures See(ViewOf(e.game), OtherReport(e, data).phone) == ViewOf(OnOtherCommand(e, data).game)
  {
    forall opcode
      ensures See(ViewOf(e.game), [[opcode]]) == ViewOf(e.game)
    {
      AckChangesNothing(ViewOf(e.game), opcode);
    }
    if data[0] == CMD_AMMO_INCREASE && |data| >= 3 {
      UpdateAlone(ViewOf(e.game), AddAmmo(e.game, GetLe16(data[1], data[2])), [RSP_AMMO_ACK]);
    }
  }

  lemma StepInSync(e: Emitter, ev: Event)
    requires Shape(e) && Enabled(e, ev)
    ensures See(ViewOf(e.game), Reported(e, ev).phone) == ViewOf(Step(e, ev).0.game)
  {
    match ev
    case Phone(data) =>
      if |data| > 0 && IsGameCommand(data[0]) {
        GameCommandInSync(e, data);
      } else if |data| > 0 && data[0] != CMD_UNPAIR_VEST {
        OtherCommandInSync(e, data);
      }
    case Notify(hit) => NotifyInSync(e, hit);
    case MeshStart(cfg) =>
      if !InGame(e) {
        StartInSync(e, cfg);
        StartInSync(e.(timers := e.timers.(announce := false)), cfg);
      }
    case ReloadFires => UpdateAlone(ViewOf(e.game), CompleteReload(e.game), []);
    case Trigger(pressed, nowMs) => UpdateAlone(ViewOf(e.game), TryFire(e.game, nowMs).0, []);
    case _ =>
  }

  /** The phone's picture after a run of which it received every notification. */
  function ViewAfter(v: View, e: Emitter, trace: seq<Event>): View
    requires Shape(e)
    decreases |trace|
  {
    if |trace| == 0 then v else ViewAfter(See(v, Reported(e, trace[0]).phone), Step(e, trace[0]).0, trace[1..])
  }

  /** Every change of health and ammunition is reported: a phone that starts with the right picture and
      receives every notification has the right picture after every run. */
  lemma {:induction false} PhoneStaysInSync(e: Emitter, trace: seq<Event>)
    requires Shape(e) && Legal(e, trace)
    ensures ViewAfter(ViewOf(e.game), e, trace) == ViewOf(Run(e, trace).game)
    decreases |trace|
  {
    if |trace| > 0 {
      StepInSync(e, trace[0]);
      PhoneStaysInSync(Step(e, trace[0]).0, trace[1..]);
    }
  }

  // ----- deaths -----

  /** The emitter itself reports a death to the mesh. */
  predicate ReportsDeath(r: Report) {
    exists m :: m in r.mesh && m.PlayerDeath?
  }

  /** A message that other emitters and their phones take for a death, whoever wrote it. */
  predicate ReadsAsDeath(m: Mesh) {
    m.PlayerDeath? || (m.Raw? && |m.frame| > 0 && m.frame[0] == MESH_PLAYER_DEATH)
  }

  predicate AnnouncesDeath(r: Report) {
    exists m :: m in r.mesh && ReadsAsDeath(m)
  }

  predicate Dies(e: Emitter, ev: Event)
    requires Shape(e)
  {
    e.mode != Dead && Step(e, ev).0.mode == Dead
  }

  /** The phone has a frame of its own making broadcast, and it begins as a death does. */
  predicate PassesOnDeath(ev: Event) {
    && ev.Phone? && |ev.data| > 1
    && ev.data[0] == CMD_BROADCAST_CODED_PHY && ev.data[1] == MESH_PLAYER_DEATH
  }

  lemma PhoneNeverKills(e: Emitter, data: seq<byte>)
    requires Shape(e)
    ensures OnPhone(e, data).0.mode == Dead ==> e.mode == Dead
    ensures !ReportsDeath(PhoneReport(e, data))
  {
  }

  lemma PhoneAnnounces(e: Emitter, data: seq<byte>)
    requires Shape(e)
    ensures AnnouncesDeath(PhoneReport(e, data)) <==> PassesOnDeath(Phone(data))
  {
    if PassesOnDeath(Phone(data)) {
      var m := PhoneReport(e, data).mesh[0];
      assert m == Raw(data[1..]) && ReadsAsDeath(m);
    }
  }

  /** The emitter reports a death to the mesh exactly when its player dies; then the phone is told the
      killer, the mesh the killer and the new counters, and a vest that is ready is told as well. */
  lemma DeathIsReported(e: Emitter, ev: Event)
    requires Shape(e) && Agree(e) && Enabled(e, ev)
    ensures ReportsDeath(Reported(e, ev)) <==> Dies(e, ev)
    ensures Dies(e, ev) ==> ev.Notify? && |ev.hit| >= HIT_PAYLOAD_SIZE
    ensures Dies(e, ev) ==>
              var (e', cmds) := Step(e, ev);
              && [RSP_DEATH_NOTIFY, ev.hit[2]] in Reported(e, ev).phone
              && PlayerDeath(e.setup.playerId, ev.hit[2], e'.game.kills, e'.game.deaths) in Reported(e, ev).mesh
              && (e.vestReady ==> DEATH in cmds)
  {
    match ev
    case Phone(data) => PhoneNeverKills(e, data);
    case Notify(hit) => NotifyDeath(e, hit);
    case _ =>
  }

  /** What the mesh takes for a death is either one or a frame that the phone had broadcast. */
  lemma DeathOnAir(e: Emitter, ev: Event)
    requires Shape(e) && Agree(e) && Enabled(e, ev)
    ensures AnnouncesDeath(Reported(e, ev)) <==> Dies(e, ev) || PassesOnDeath(ev)
  {
    DeathIsReported(e, ev);
    if ev.Phone? {
      PhoneAnnounces(e, ev.data);
    } else {
      assert forall m :: m in Reported(e, ev).mesh ==> !m.Raw?;
      if ReportsDeath(Reported(e, ev)) {
        var m :| m in Reported(e, ev).mesh && m.PlayerDeath?;
        assert ReadsAsDeath(m);
      }
    }
  }

  /** Such a frame goes out although nobody dies, from every state. */
  lemma DeathCanBeFeigned(e: Emitter, rest: seq<byte>)
    requires Shape(e) && Agree(e)
    ensures var ev := Phone([CMD_BROADCAST_CODED_PHY, MESH_PLAYER_DEATH] + rest);
            Enabled(e, ev) && !Dies(e, ev) && AnnouncesDeath(Reported(e, ev))
  {
    DeathOnAir(e, Phone([CMD_BROADCAST_CODED_PHY, MESH_PLAYER_DEATH] + rest));
    PhoneNeverKills(e, [CMD_BROADCAST_CODED_PHY, MESH_PLAYER_DEATH] + rest);
  }

  lemma NotifyDeath(e: Emitter, hit: seq<byte>)
    requires Agree(e)
    ensures var (e', cmds) := OnNotify(e, hit);
            var died := e.mode != Dead && e'.mode == Dead;
            && (ReportsDeath(NotifyReport(e, hit)) <==> died)
            && (died ==>
                  && |hit| >= HIT_PAYLOAD_SIZE
                  && [RSP_DEATH_NOTIFY, hit[2]] in NotifyReport(e, hit).phone
                  && PlayerDeath(e.setup.playerId, hit[2], e'.game.kills, e'.game.deaths) in NotifyReport(e, hit).mesh
                  && (e.vestReady ==> DEATH in cmds))
  {
    if |hit| >= HIT_PAYLOAD_SIZE && e.mode == GameActive && GetLe16(hit[0], hit[1]) !in e.window {
      var r := DamageReport(e, hit[2]);
      if ApplyHit(e.game, e.game.cfg.damage).1 {
        assert r.mesh[1].PlayerDeath?;
        assert r.phone[1] == [RSP_DEATH_NOTIFY, hit[2]];
      }
    }
  }
}
