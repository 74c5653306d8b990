/** Whole runs of the emitter: state and work items agree, lives begin only where they should, and
    everything proved about sequences of game operations holds of every run. */
module EmitterRuns {
  import opened Bytes
  import opened GameState
  import GameConfig
  import Encoding = GameConfigEncoding
  import opened Emitter
  import opened Protocol
  import DedupRing
  import G = GameRuns

  datatype Event = Phone(data: seq<byte>) | Notify(hit: seq<byte>) | MeshStart(cfg: seq<byte>)
    | ReloadFires | AnnounceFires | PlayerStateFires | ScoreboardFires
    | Trigger(pressed: bool, nowMs: int) | VestReady | VestLost

  /** Work items run only when scheduled, and the two debug commands are not used. */
  predicate Enabled(e: Emitter, ev: Event) {
    match ev
    case Phone(data) => |data| == 0 || (data[0] != CMD_DEBUG_FIRE && data[0] != CMD_DEBUG_HIT)
    case ReloadFires => e.timers.reload
    case AnnounceFires => e.timers.announce
    case PlayerStateFires => e.timers.playerState
    case ScoreboardFires => e.timers.scoreboard
    case _ => true
  }

  function Step(e: Emitter, ev: Event): (r: (Emitter, seq<seq<byte>>))
    requires Shape(e)
    ensures Shape(r.0)
  {
    match ev
    case Phone(data) => OnPhone(e, data)
    case Notify(hit) => OnNotify(e, hit)
    case MeshStart(cfg) => OnMeshGameStart(e, cfg)
    case ReloadFires => (OnReloadDone(e), [])
    case AnnounceFires => (OnAnnounce(e), [])
    case PlayerStateFires => (OnPlayerState(e), [])
    case ScoreboardFires => (OnScoreboard(e), [])
    case Trigger(pressed, nowMs) => (OnTrigger(e, pressed, nowMs), [])
    case VestReady => (e.(vestReady := true), [])
    case VestLost => (e.(vestReady := false), [])
  }

  predicate Legal(e: Emitter, trace: seq<Event>)
    requires Shape(e)
    decreases |trace|
  {
    |trace| == 0 || (Enabled(e, trace[0]) && Legal(Step(e, trace[0]).0, trace[1..]))
  }

  function Run(e: Emitter, trace: seq<Event>): (r: Emitter)
    requires Shape(e)
    ensures Shape(r)
    decreases |trace|
  {
    if |trace| == 0 then e else Run(Step(e, trace[0]).0, trace[1..])
  }

  // ----- state and work items agree -----

  predicate InGame(e: Emitter) { e.mode == GameActive || e.mode == Dead }

  predicate Agree(e: Emitter) {
    && (e.mode == GameActive ==> e.game.alive && e.timers.playerState && e.timers.scoreboard)
    && (e.mode == Dead ==> !e.game.alive && e.game.health == 0 && !e.timers.playerState && !e.timers.scoreboard)
    && (InGame(e) && e.game.reloading ==> e.timers.reload)
    && (e.mode == LobbyHost ==> e.timers.announce)
    && DedupRing.Distinct(e.window) && |e.window| <= HIT_DEDUP_SIZE
  }

  lemma GameCommandAgrees(e: Emitter, data: seq<byte>)
    requires Shape(e) && Agree(e) && |data| > 0
    ensures Agree(OnGameCommand(e, data).0)
  {
    BegunGameAgrees(e);
    if data[0] == CMD_BROADCAST_GAME_CFG && |data| > 1 {
      MeshStartAgrees(e, data[1..]);
    }
  }

  lemma BegunGameAgrees(e: Emitter)
    requires DedupRing.Distinct(e.window) && |e.window| <= HIT_DEDUP_SIZE
    ensures Agree(BeginGame(e))
  {
  }

  lemma MeshStartAgrees(e: Emitter, cfg: seq<byte>)
    requires Shape(e) && Agree(e)
    ensures Agree(OnHostStart(e, cfg).0)
  {
    BegunGameAgrees(ApplyConfigBlob(e.(timers := e.timers.(announce := false)), cfg));
  }

  lemma ReloadAgrees(e: Emitter)
    requires Agree(e)
    ensures Agree(OnReload(e))
  {
  }

  lemma AmmoAgrees(e: Emitter, data: seq<byte>)
    requires Agree(e)
    ensures Agree(OnAmmo(e, data))
  {
  }

  lemma OtherCommandAgrees(e: Emitter, data: seq<byte>)
    requires Shape(e) && Agree(e) && |data| > 0
    ensures Agree(OnOtherCommand(e, data))
  {
    if data[0] == CMD_RELOAD {
      ReloadAgrees(e);
    } else if data[0] == CMD_AMMO_INCREASE {
      AmmoAgrees(e, data);
    }
  }

  lemma PhoneAgrees(e: Emitter, data: seq<byte>)
    requires Shape(e) && Agree(e)
    ensures Agree(OnPhone(e, data).0)
  {
    if |data| > 0 {
      if IsGameCommand(data[0]) {
        GameCommandAgrees(e, data);
      } else if data[0] != CMD_UNPAIR_VEST {
        OtherCommandAgrees(e, data);
      }
    }
  }

  lemma HitAgrees(e: Emitter, id: u16)
    requires Agree(e)
    ensures Agree(OnVestHit(e, id).0)
  {
    DedupRing.ArriveKeepsWindow(e.window, id, HIT_DEDUP_SIZE);
  }

  lemma StepAgrees(e: Emitter, ev: Event)
    requires Shape(e) && Agree(e) && Enabled(e, ev)
    ensures Agree(Step(e, ev).0)
  {
    match ev
    case Phone(data) => PhoneAgrees(e, data);
    case MeshStart(cfg) => MeshStartAgrees(e, cfg);
    case Notify(hit) =>
      if |hit| >= 2 {
        HitAgrees(e, GetLe16(hit[0], hit[1]));
      }
    case _ =>
  }

  /** In every run an active game is alive with both periodic broadcasts scheduled; a dead player has
      no health and neither broadcast; a reload in progress has its completion scheduled, so it never
      sticks; a hosted lobby has its announcement scheduled. */
  lemma {:induction false} RunAgrees(e: Emitter, trace: seq<Event>)
    requires Shape(e) && Agree(e) && Legal(e, trace)
    ensures Agree(Run(e, trace))
    decreases |trace|
  {
    if |trace| > 0 {
      StepAgrees(e, trace[0]);
      RunAgrees(Step(e, trace[0]).0, trace[1..]);
    }
  }

  lemma AgreesFromPowerOn(saved: Config, trace: seq<Event>)
    requires Legal(PowerOn(saved), trace)
    ensures Agree(Run(PowerOn(saved), trace))
  {
    RunAgrees(PowerOn(saved), trace);
  }

  // ----- where lives and games begin -----

  predicate StartCommand(data: seq<byte>) {
    |data| > 0 && (data[0] == CMD_START || (data[0] == CMD_BROADCAST_GAME_CFG && |data| > 1))
  }

  predicate BeginsLife(e: Emitter, ev: Event) {
    match ev
    case Phone(data) => StartCommand(data) || (|data| > 0 && data[0] == CMD_RESPAWN && e.mode == Dead)
    case MeshStart(_) => !InGame(e)
    case _ => false
  }

  predicate Injures(e: Emitter, ev: Event) {
    && ev.Notify? && |ev.hit| >= 5 && e.mode == GameActive
    && GetLe16(ev.hit[0], ev.hit[1]) !in e.window
  }

  lemma PhoneKeepsHealth(e: Emitter, data: seq<byte>)
    requires Shape(e) && !BeginsLife(e, Phone(data))
    ensures OnPhone(e, data).0.game.health == e.game.health && OnPhone(e, data).0.game.alive == e.game.alive
  {
  }

  /** Health falls only through a hit notification whose id is not among the last sixteen accepted,
      received in an active game; it rises only when a life begins. */
  lemma HealthOnlyFalls(e: Emitter, ev: Event)
    requires Shape(e) && Enabled(e, ev) && !BeginsLife(e, ev)
    ensures Step(e, ev).0.game.health <= e.game.health
    ensures Step(e, ev).0.game.health < e.game.health ==> Injures(e, ev)
    ensures Step(e, ev).0.game.alive ==> e.game.alive
  {
    if ev.Phone? {
      PhoneKeepsHealth(e, ev.data);
    }
  }

  /** Game starts arriving over the mesh leave a running or dead player's emitter alone, whatever
      else happens, until the phone ends the game or leaves it for a lobby or for pairing. */
  predicate Leaves(ev: Event) {
    ev.Phone? && |ev.data| > 0
    && (ev.data[0] == CMD_GAME_OVER || ev.data[0] == CMD_STOP_LOBBY || ev.data[0] == CMD_START_LOBBY_HOST
        || ev.data[0] == CMD_START_LOBBY_SCAN || ev.data[0] == CMD_ENTER_PAIRING || StartCommand(ev.data))
  }

  function WithoutMeshStarts(trace: seq<Event>): seq<Event> {
    if |trace| == 0 then []
    else (if trace[0].MeshStart? then [] else [trace[0]]) + WithoutMeshStarts(trace[1..])
  }

  lemma {:induction false} MeshStartsNeverReset(e: Emitter, trace: seq<Event>)
    requires Shape(e) && InGame(e) && Legal(e, trace)
    requires forall i :: 0 <= i < |trace| ==> !Leaves(trace[i])
    ensures Legal(e, WithoutMeshStarts(trace)) && Run(e, trace) == Run(e, WithoutMeshStarts(trace))
    ensures InGame(Run(e, trace))
    decreases |trace|
  {
    if |trace| > 0 {
      StaysInGame(e, trace[0]);
      MeshStartsNeverReset(Step(e, trace[0]).0, trace[1..]);
      if !trace[0].MeshStart? {
        var rest := WithoutMeshStarts(trace[1..]);
        assert ([trace[0]] + rest)[1..] == rest;
      } else {
        assert [] + WithoutMeshStarts(trace[1..]) == WithoutMeshStarts(trace[1..]);
      }
    }
  }

  lemma StaysInGame(e: Emitter, ev: Event)
    requires Shape(e) && InGame(e) && !Leaves(ev)
    ensures InGame(Step(e, ev).0)
    ensures ev.MeshStart? ==> Step(e, ev).0 == e
  {
  }

  // ----- the game inside the emitter -----

  function PhoneOps(e: Emitter, data: seq<byte>): seq<G.Op>
    requires Shape(e)
  {
    if |data| == 0 then []
    else if data[0] == CMD_START then [G.Start]
    else if data[0] == CMD_BROADCAST_GAME_CFG then
      if |data| > 1 then [G.Configure(ApplyConfigBlob(e, data[1..]).game.cfg), G.Start] else []
    else if data[0] == CMD_RESPAWN then
      if e.mode == Dead then [G.Revive] else []
    else if data[0] == CMD_CONFIG then
      if |data| >= 1 + GameConfig.CONFIG_SIZE then [G.Configure(GameConfig.ParseConfig(data[1..]))] else []
    else if data[0] == CMD_AMMO_INCREASE then
      if e.mode == GameActive && |data| >= 3 then [G.Resupply(GetLe16(data[1], data[2]))] else []
    else if data[0] == CMD_RELOAD then
      if e.mode == GameActive then [G.BeginReload] else []
    else []
  }

  /** The game operations an event performs. */
  function OpsOf(e: Emitter, ev: Event): seq<G.Op>
    requires Shape(e)
  {
    match ev
    case Phone(data) => PhoneOps(e, data)
    case Notify(_) => if Injures(e, ev) then [G.Hit(e.game.cfg.damage)] else []
    case MeshStart(cfg) => if InGame(e) then [] else [G.Configure(ApplyConfigBlob(e, cfg).game.cfg), G.Start]
    case ReloadFires => [G.FinishReload]
    case Trigger(pressed, nowMs) => if Shoots(e, pressed, nowMs) then [G.Fire(nowMs)] else []
    case _ => []
  }

  lemma OneOp(g: Game, op: G.Op)
    ensures G.Run(g, [op]) == G.Apply(g, op)
  {
    assert [op][1..] == [];
  }

  lemma TwoOps(g: Game, a: G.Op, b: G.Op)
    ensures G.Run(g, [a, b]) == G.Apply(G.Apply(g, a), b)
  {
    assert [a, b][1..] == [b];
    OneOp(G.Apply(g, a), b);
  }

  lemma PhoneStepIsOps(e: Emitter, data: seq<byte>)
    requires Shape(e)
    ensures OnPhone(e, data).0.game == G.Run(e.game, PhoneOps(e, data))
  {
    var ops := PhoneOps(e, data);
    if |ops| == 1 {
      OneOp(e.game, ops[0]);
      assert ops == [ops[0]];
    } else if |ops| == 2 {
      TwoOps(e.game, ops[0], ops[1]);
      assert ops == [ops[0], ops[1]];
    }
  }

  lemma StepIsOps(e: Emitter, ev: Event)
    requires Shape(e) && Enabled(e, ev)
    ensures Step(e, ev).0.game == G.Run(e.game, OpsOf(e, ev))
  {
    if ev.Phone? {
      PhoneStepIsOps(e, ev.data);
    } else {
      var ops := OpsOf(e, ev);
      if |ops| == 1 {
        OneOp(e.game, ops[0]);
        assert ops == [ops[0]];
      } else if |ops| == 2 {
        TwoOps(e.game, ops[0], ops[1]);
        assert ops == [ops[0], ops[1]];
      }
    }
  }

  /** The game operations of a whole run. */
  function GameOps(e: Emitter, trace: seq<Event>): seq<G.Op>
    requires Shape(e)
    decreases |trace|
  {
    if |trace| == 0 then [] else OpsOf(e, trace[0]) + GameOps(Step(e, trace[0]).0, trace[1..])
  }

  lemma {:induction false} OpsConcat(g: Game, a: seq<G.Op>, b: seq<G.Op>)
    ensures G.Run(g, a + b) == G.Run(G.Run(g, a), b)
    decreases |a|
  {
    if |a| == 0 {
      assert a + b == b;
    } else {
      assert (a + b)[0] == a[0] && (a + b)[1..] == a[1..] + b;
      OpsConcat(G.Apply(g, a[0]), a[1..], b);
    }
  }

  /** The game state of every run of the emitter is that of a sequence of game operations. */
  lemma {:induction false} GameRefines(e: Emitter, trace: seq<Event>)
    requires Shape(e) && Legal(e, trace)
    ensures Run(e, trace).game == G.Run(e.game, GameOps(e, trace))
    decreases |trace|
  {
    if |trace| > 0 {
      StepIsOps(e, trace[0]);
      GameRefines(Step(e, trace[0]).0, trace[1..]);
      OpsConcat(e.game, OpsOf(e, trace[0]), GameOps(Step(e, trace[0]).0, trace[1..]));
    }
  }

  /** No event of the run begins a life. */
  predicate OneLife(e: Emitter, trace: seq<Event>)
    requires Shape(e)
    decreases |trace|
  {
    |trace| == 0 || (!BeginsLife(e, trace[0]) && OneLife(Step(e, trace[0]).0, trace[1..]))
  }

  lemma {:induction false} OneLifeOps(e: Emitter, trace: seq<Event>)
    requires Shape(e) && OneLife(e, trace)
    ensures G.WithinLife(GameOps(e, trace))
    decreases |trace|
  {
    if |trace| > 0 {
      OneLifeOps(Step(e, trace[0]).0, trace[1..]);
      assert G.WithinLife(OpsOf(e, trace[0]));
    }
  }

  /** Whatever the phone, the vest, the mesh and the timers do within a life, magazine, reserve, shots
      and 2^16 for every overflow together equal the ammunition at its start plus that supplied. */
  lemma AmmoConservedInRuns(e: Emitter, trace: seq<Event>)
    requires Shape(e) && Legal(e, trace) && OneLife(e, trace)
    ensures G.AmmoBalanced(e.game, GameOps(e, trace), Run(e, trace).game)
  {
    GameRefines(e, trace);
    OneLifeOps(e, trace);
    G.AmmoIsConserved(e.game, GameOps(e, trace));
  }

  // ----- magazine and fire rate -----

  predicate Reconfigures(ev: Event) {
    ev.Phone? && |ev.data| >= 1 + GameConfig.CONFIG_SIZE && ev.data[0] == CMD_CONFIG
  }

  lemma StartedFits(e: Emitter, data: seq<byte>)
    requires Shape(e) && e.game.mag <= e.game.cfg.magSize && |data| > 0
    ensures OnGameCommand(e, data).0.game.mag <= OnGameCommand(e, data).0.game.cfg.magSize
  {
  }

  lemma PhoneFits(e: Emitter, data: seq<byte>)
    requires Shape(e) && e.game.mag <= e.game.cfg.magSize && !Reconfigures(Phone(data))
    ensures OnPhone(e, data).0.game.mag <= OnPhone(e, data).0.game.cfg.magSize
  {
    if |data| > 0 {
      StartedFits(e, data);
    }
  }

  lemma StepFits(e: Emitter, ev: Event)
    requires Shape(e) && Enabled(e, ev) && e.game.mag <= e.game.cfg.magSize && !Reconfigures(ev)
    ensures Step(e, ev).0.game.mag <= Step(e, ev).0.game.cfg.magSize
  {
    if ev.Phone? {
      PhoneFits(e, ev.data);
    }
  }

  /** The magazine never exceeds its size in a run without the plain configuration command: a game
      started with a new configuration refills it to fit. */
  lemma {:induction false} MagazineFitsInRuns(e: Emitter, trace: seq<Event>)
    requires Shape(e) && Legal(e, trace) && e.game.mag <= e.game.cfg.magSize
    requires forall i :: 0 <= i < |trace| ==> !Reconfigures(trace[i])
    ensures Run(e, trace).game.mag <= Run(e, trace).game.cfg.magSize
    decreases |trace|
  {
    if |trace| > 0 {
      StepFits(e, trace[0]);
      MagazineFitsInRuns(Step(e, trace[0]).0, trace[1..]);
    }
  }

  predicate Fits(e: Emitter) { G.Fits(e.game) }

  /** A configuration command whose magazine size is below the rounds now in the magazine. */
  predicate LeavesNoRoom(e: Emitter, ev: Event) {
    Reconfigures(ev) && GameConfig.ParseConfig(ev.data[1..]).magSize < e.game.mag
  }

  /** From a fitting magazine exactly such a command leads to one that does not fit. */
  lemma StepFitsExactly(e: Emitter, ev: Event)
    requires Shape(e) && Enabled(e, ev) && Fits(e)
    ensures Fits(Step(e, ev).0) <==> !LeavesNoRoom(e, ev)
  {
    if !Reconfigures(ev) {
      StepFits(e, ev);
    }
  }

  /** The magazine fits at every point of the run. */
  predicate AlwaysFits(e: Emitter, trace: seq<Event>)
    requires Shape(e)
    decreases |trace|
  {
    Fits(e) && (|trace| == 0 || AlwaysFits(Step(e, trace[0]).0, trace[1..]))
  }

  predicate ConfigsHaveRoom(e: Emitter, trace: seq<Event>)
    requires Shape(e)
    decreases |trace|
  {
    |trace| == 0 || (!LeavesNoRoom(e, trace[0]) && ConfigsHaveRoom(Step(e, trace[0]).0, trace[1..]))
  }

  /** The magazine never exceeds its size exactly if every configuration command of full length carries
      a magazine size of at least the rounds in the magazine when it arrives. */
  lemma {:induction false} AlwaysFitsExactly(e: Emitter, trace: seq<Event>)
    requires Shape(e) && Legal(e, trace) && Fits(e)
    ensures AlwaysFits(e, trace) <==> ConfigsHaveRoom(e, trace)
    decreases |trace|
  {
    if |trace| > 0 {
      StepFitsExactly(e, trace[0]);
      if Fits(Step(e, trace[0]).0) {
        AlwaysFitsExactly(Step(e, trace[0]).0, trace[1..]);
      }
    }
  }

  /** The bytes of a configuration command. */
  function ConfigCommand(cfg: Config): seq<byte> {
    [CMD_CONFIG] + Encoding.EncodeConfig(cfg)
  }

  /** The failing input, byte by byte: sent to any emitter, it leaves a magazine that does not fit exactly
      if it carries a smaller size than there are rounds. */
  lemma ConfigCommandDecides(e: Emitter, cfg: Config)
    requires Shape(e)
    ensures Step(e, Phone(ConfigCommand(cfg))).0 == Configured(e, cfg)
    ensures Fits(Step(e, Phone(ConfigCommand(cfg))).0) <==> cfg.magSize >= e.game.mag
  {
    var data := ConfigCommand(cfg);
    Encoding.ConfigRoundTrip(cfg, []);
    assert data[1..] == Encoding.EncodeConfig(cfg) + [];
  }

  lemma RunOne(e: Emitter, ev: Event)
    requires Shape(e) && Enabled(e, ev)
    ensures Legal(e, [ev]) && Run(e, [ev]) == Step(e, ev).0
  {
    assert [ev][1..] == [];
  }

  lemma RunFirst(e: Emitter, ev: Event, rest: seq<Event>)
    requires Shape(e) && Enabled(e, ev) && Legal(Step(e, ev).0, rest)
    ensures Legal(e, [ev] + rest) && Run(e, [ev] + rest) == Run(Step(e, ev).0, rest)
  {
    assert ([ev] + rest)[1..] == rest;
  }

  lemma StartedWith(e: Emitter, cfg: Config)
    requires Shape(e)
    ensures Step(Configured(e, cfg), Phone([CMD_START])).0 == BeginGame(Configured(e, cfg))
    ensures BeginGame(Configured(e, cfg)).game.mag == StartingMag(cfg)
  {
  }

  /** Such an input from power-on: configure, start, and configure again with a smaller magazine. */
  lemma MagazineOverflowsInARun(saved: Config, large: Config, small: Config)
    requires small.magSize < StartingMag(large)
    ensures var trace := [Phone(ConfigCommand(large))] + ([Phone([CMD_START])] + [Phone(ConfigCommand(small))]);
            Legal(PowerOn(saved), trace) && !Fits(Run(PowerOn(saved), trace))
  {
    var e1 := Configured(PowerOn(saved), large);
    var e2 := BeginGame(e1);
    ConfigCommandDecides(PowerOn(saved), large);
    StartedWith(PowerOn(saved), large);
    ConfigCommandDecides(e2, small);
    RunOne(e2, Phone(ConfigCommand(small)));
    RunFirst(e1, Phone([CMD_START]), [Phone(ConfigCommand(small))]);
    RunFirst(PowerOn(saved), Phone(ConfigCommand(large)), [Phone([CMD_START])] + [Phone(ConfigCommand(small))]);
  }

  /** One game: the configuration stays, no game starts, and the trigger is handled at times that
      are positive and do not run backwards from `now`. */
  predicate SameGame(e: Emitter, trace: seq<Event>, now: int)
    requires Shape(e)
    decreases |trace|
  {
    |trace| == 0
    || (!Reconfigures(trace[0]) && !(trace[0].Phone? && StartCommand(trace[0].data))
        && (trace[0].MeshStart? ==> InGame(e))
        && (trace[0].Trigger? ==> trace[0].nowMs >= now && trace[0].nowMs > 0)
        && SameGame(Step(e, trace[0]).0, trace[1..], if trace[0].Trigger? then trace[0].nowMs else now))
  }

  lemma {:induction false} SameGameOps(e: Emitter, trace: seq<Event>, now: int, lower: int)
    requires Shape(e) && SameGame(e, trace, now) && lower <= now
    ensures G.OneGame(GameOps(e, trace), lower)
    decreases |trace|
  {
    if |trace| > 0 {
      var ev, ops := trace[0], OpsOf(e, trace[0]);
      var now' := if ev.Trigger? then ev.nowMs else now;
      var rest := GameOps(Step(e, ev).0, trace[1..]);
      SameGameOps(Step(e, ev).0, trace[1..], now', if ops != [] && ops[0].Fire? then now' else lower);
      if ops == [] {
        assert ops + rest == rest;
      } else {
        assert |ops| == 1;
        assert (ops + rest)[0] == ops[0] && (ops + rest)[1..] == rest;
      }
    }
  }

  /** Within one game, respawns included, any interval [a, b] holds at most
      (b - a) / fire_rate_ms + 1 shots. */
  lemma FireRateInRuns(e: Emitter, trace: seq<Event>, now: int, lo: nat, hi: nat, a: int, b: int)
    requires Shape(e) && Legal(e, trace) && SameGame(e, trace, now) && e.game.cfg.fireRateMs > 0 && a <= b
    requires lo <= hi <= |G.ShotTimes(e.game, GameOps(e, trace))|
    requires forall i :: lo <= i < hi ==> a <= G.ShotTimes(e.game, GameOps(e, trace))[i] <= b
    ensures hi - lo <= (b - a) / e.game.cfg.fireRateMs + 1
  {
    SameGameOps(e, trace, now, now);
    G.FireRateBound(e.game, GameOps(e, trace), now, lo, hi, a, b);
  }

  // ----- the trigger -----

  /** A shot takes a round out of the magazine when the trigger is handled. */
  function ShotBy(e: Emitter, ev: Event): nat
    requires Shape(e)
  {
    if ev.Trigger? && Step(e, ev).0.game.mag < e.game.mag then 1 else 0
  }

  function ShotsFired(e: Emitter, trace: seq<Event>): nat
    requires Shape(e)
    decreases |trace|
  {
    if |trace| == 0 then 0 else ShotBy(e, trace[0]) + ShotsFired(Step(e, trace[0]).0, trace[1..])
  }

  /** The weapon is semi-automatic whenever the trigger is handled, and the trigger is never released. */
  predicate HeldSemiAutomatic(e: Emitter, trace: seq<Event>)
    requires Shape(e)
    decreases |trace|
  {
    |trace| == 0
    || ((trace[0].Trigger? ==> trace[0].pressed && e.game.cfg.fullAuto == 0)
        && HeldSemiAutomatic(Step(e, trace[0]).0, trace[1..]))
  }

  lemma TriggerReadyKept(e: Emitter, ev: Event)
    requires Shape(e) && !ev.Trigger?
    ensures Step(e, ev).0.triggerReady == e.triggerReady
  {
  }

  /** Holding the trigger of a semi-automatic weapon fires at most one shot, across reloads,
      deaths, respawns and new games. */
  lemma {:induction false} SemiAutomaticNeedsRelease(e: Emitter, trace: seq<Event>)
    requires Shape(e) && Legal(e, trace) && HeldSemiAutomatic(e, trace)
    ensures ShotsFired(e, trace) <= if e.triggerReady then 1 else 0
    decreases |trace|
  {
    if |trace| > 0 {
      if !trace[0].Trigger? {
        TriggerReadyKept(e, trace[0]);
      }
      SemiAutomaticNeedsRelease(Step(e, trace[0]).0, trace[1..]);
    }
  }
}
