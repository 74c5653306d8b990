/** The trigger's work item over runs: a held automatic weapon fires until its magazine is empty, and a shot
    that comes too early is tried again. */
module TriggerRuns {
  import opened Bytes
  import opened Emitter
  import opened EmitterRuns
  import opened GameState
  import opened Protocol

  // ----- what the handler schedules -----

  /** The handler has scheduled itself again. */
  predicate Again(a: TriggerAction) { a == TryAgain || a == Shot(true) }

  /** A trigger handled in a game with rounds in the magazine and no reload under way: an automatic weapon is
      handled again exactly if rounds are left, a semi-automatic one that was released since its last shot
      exactly if it has not fired. It fires unless the last shot is less than the fire rate ago. */
  lemma PressedInGame(e: Emitter, nowMs: int)
    requires Agree(e) && e.mode == GameActive && !e.game.reloading && e.game.mag > 0
    requires e.game.cfg.fullAuto != 0 || e.triggerReady
    ensures var e', a := OnTrigger(e, true, nowMs), TriggerSchedules(e, true, nowMs);
            var tooEarly := e.game.lastShotMs > 0 && nowMs - e.game.lastShotMs < e.game.cfg.fireRateMs;
            && (if tooEarly then e' == e && a == TryAgain
                else e'.game.mag == e.game.mag - 1 && e'.game.lastShotMs == nowMs && !e'.triggerReady && a.Shot?)
            && (Again(a) <==> if e.game.cfg.fullAuto != 0 then e'.game.mag > 0 else e' == e)
  {
  }

  /** In every other case no shot leaves and nothing is scheduled, but while pairing a pressed trigger has
      pairing frames sent. */
  lemma OtherwiseNothing(e: Emitter, pressed: bool, nowMs: int)
    requires !pressed || e.mode != GameActive || e.game.reloading || e.game.mag == 0
             || (e.game.cfg.fullAuto == 0 && !e.triggerReady)
    ensures OnTrigger(e, pressed, nowMs).game == e.game
    ensures TriggerSchedules(e, pressed, nowMs) == if pressed && e.mode == Pairing then PairingFrames else Nothing
  {
  }

  /** A released trigger is ready again. */
  lemma ReleaseRearms(e: Emitter, nowMs: int)
    ensures OnTrigger(e, false, nowMs) == e.(triggerReady := true)
  {
  }

  /** From power-on, whatever was saved, the first press in a game with ammunition fires. */
  lemma FirstPressFires(saved: Config, nowMs: int)
    requires StartingMag(saved) > 0
    ensures var trace := [Phone([CMD_START])] + [Trigger(true, nowMs)];
            && Legal(PowerOn(saved), trace)
            && Run(PowerOn(saved), trace).game.mag == StartingMag(saved) - 1
  {
    var e := PowerOn(saved);
    var e1 := Step(e, Phone([CMD_START])).0;
    StepAgrees(e, Phone([CMD_START]));
    PressedInGame(e1, nowMs);
    RunOne(e1, Trigger(true, nowMs));
    RunFirst(e, Phone([CMD_START]), [Trigger(true, nowMs)]);
  }

  // ----- over runs -----

  /** The emitter with its trigger item. */
  datatype Gun = Gun(e: Emitter, scheduled: bool)

  /** An event of the emitter, or a transition of the trigger's pin, which schedules the item. */
  datatype GunEvent = Does(ev: Event) | PinChanges

  predicate GunEnabled(g: Gun, x: GunEvent) {
    x.Does? ==> EmitterRuns.Enabled(g.e, x.ev) && (x.ev.Trigger? ==> g.scheduled)
  }

  predicate EndsGame(ev: Event) { ev.Phone? && |ev.data| > 0 && ev.data[0] == CMD_GAME_OVER }

  function GunStep(g: Gun, x: GunEvent): (g': Gun)
    requires Shape(g.e)
    ensures Shape(g'.e)
  {
    match x
    case PinChanges => g.(scheduled := true)
    case Does(ev) =>
      var e := Step(g.e, ev).0;
      if ev.Trigger? then Gun(e, Again(TriggerSchedules(g.e, ev.pressed, ev.nowMs)))
      else Gun(e, g.scheduled && !EndsGame(ev))
  }

  predicate GunLegal(g: Gun, trace: seq<GunEvent>)
    requires Shape(g.e)
    decreases |trace|
  {
    |trace| == 0 || (GunEnabled(g, trace[0]) && GunLegal(GunStep(g, trace[0]), trace[1..]))
  }

  function GunRun(g: Gun, trace: seq<GunEvent>): (g': Gun)
    requires Shape(g.e)
    ensures Shape(g'.e)
    decreases |trace|
  {
    if |trace| == 0 then g else GunRun(GunStep(g, trace[0]), trace[1..])
  }

  /** Commands that leave game, configuration and reload alone. */
  predicate Harmless(data: seq<byte>) {
    |data| == 0 || data[0] == CMD_AMMO_INCREASE || data[0] == CMD_BROADCAST_CODED_PHY || data[0] == CMD_SET_PLAYER_INFO
    || data[0] == CMD_UPDATE_LOCATION || data[0] == CMD_REQUEST_MESH_STATS || data[0] == CMD_UNPAIR_VEST
    || data[0] == CMD_BROADCAST_LOBBY_JOIN || data[0] == CMD_BROADCAST_LOBBY_STATE
  }

  /** The trigger stays pressed and the phone leaves the game alone; hits, supplies, mesh starts and the
      periodic broadcasts may come as they like. */
  predicate Held(x: GunEvent) {
    x.Does? ==>
      && (x.ev.Trigger? ==> x.ev.pressed) && (x.ev.Phone? ==> Harmless(x.ev.data)) && !x.ev.ReloadFires?
  }

  /** An automatic weapon in a game: while the player lives and rounds are left, the trigger is handled again. */
  predicate KeepsFiring(g: Gun) {
    && Shape(g.e) && Agree(g.e) && InGame(g.e) && g.e.game.cfg.fullAuto != 0 && !g.e.game.reloading
    && (g.e.mode == GameActive && g.e.game.mag > 0 ==> g.scheduled)
  }

  lemma PhoneLeavesAlone(e: Emitter, data: seq<byte>)
    requires Shape(e) && Harmless(data)
    ensures var e' := OnPhone(e, data).0;
            && e'.mode == e.mode && e'.game.cfg == e.game.cfg && e'.game.reloading == e.game.reloading
            && e'.game.mag == e.game.mag
  {
  }

  lemma EventLeavesAlone(e: Emitter, ev: Event)
    requires Shape(e) && Agree(e) && InGame(e) && EmitterRuns.Enabled(e, ev) && Held(Does(ev)) && !ev.Trigger?
    ensures var e' := Step(e, ev).0;
            && InGame(e') && (e'.mode == GameActive ==> e.mode == GameActive)
            && e'.game.cfg == e.game.cfg && e'.game.reloading == e.game.reloading && e'.game.mag == e.game.mag
  {
    if ev.Phone? {
      PhoneLeavesAlone(e, ev.data);
    }
  }

  lemma StepKeepsFiring(g: Gun, x: GunEvent)
    requires KeepsFiring(g) && GunEnabled(g, x) && Held(x)
    ensures KeepsFiring(GunStep(g, x))
  {
    if x.Does? {
      StepAgrees(g.e, x.ev);
      if x.ev.Trigger? {
        if g.e.mode == GameActive && g.e.game.mag > 0 {
          PressedInGame(g.e, x.ev.nowMs);
        } else {
          OtherwiseNothing(g.e, x.ev.pressed, x.ev.nowMs);
        }
      } else {
        EventLeavesAlone(g.e, x.ev);
      }
    }
  }

  /** In every run with the trigger of an automatic weapon held, the item stays scheduled until the magazine is
      empty or the player dead, whatever hits, supplies and mesh messages come in between. */
  lemma {:induction false} HeldAutomaticGoesOn(g: Gun, trace: seq<GunEvent>)
    requires KeepsFiring(g) && GunLegal(g, trace)
    requires forall i :: 0 <= i < |trace| ==> Held(trace[i])
    ensures KeepsFiring(GunRun(g, trace))
    decreases |trace|
  {
    if |trace| > 0 {
      StepKeepsFiring(g, trace[0]);
      HeldAutomaticGoesOn(GunStep(g, trace[0]), trace[1..]);
    }
  }

  /** The emitter after the pressed trigger was handled at these times. */
  function Handled(e: Emitter, times: seq<int>): Emitter
    decreases |times|
  {
    if |times| == 0 then e else Handled(OnTrigger(e, true, times[0]), times[1..])
  }

  /** Each time is at least the fire rate after the one before. */
  predicate Spaced(times: seq<int>, rate: nat) {
    forall i :: 0 <= i < |times| ==> times[i] > 0 && (i > 0 ==> times[i] - times[i - 1] >= rate)
  }

  /** Handled often enough at the fire rate, an automatic weapon empties its magazine, one round each time. */
  lemma {:induction false} MagazineIsEmptied(e: Emitter, times: seq<int>)
    requires Agree(e) && e.mode == GameActive && !e.game.reloading && e.game.cfg.fullAuto != 0
    requires |times| <= e.game.mag && Spaced(times, e.game.cfg.fireRateMs)
    requires |times| > 0 && e.game.lastShotMs > 0 ==> times[0] - e.game.lastShotMs >= e.game.cfg.fireRateMs
    ensures Handled(e, times).game.mag == e.game.mag - |times|
    decreases |times|
  {
    if |times| > 0 {
      PressedInGame(e, times[0]);
      assert |times| > 1 ==> times[1..][0] - times[0] >= e.game.cfg.fireRateMs;
      assert forall i :: 0 <= i < |times[1..]| ==> times[1..][i] == times[i + 1];
      MagazineIsEmptied(OnTrigger(e, true, times[0]), times[1..]);
    }
  }

  // ----- pairing and the end of a game -----

  /** After the pairing command a pressed trigger sends pairing frames and no shot. */
  lemma PairingCommandAims(e: Emitter, rest: seq<byte>, nowMs: int)
    requires Shape(e)
    ensures var e' := Step(e, Phone([CMD_ENTER_PAIRING] + rest)).0;
            && TriggerSchedules(e', true, nowMs) == PairingFrames && OnTrigger(e', true, nowMs) == e'
  {
  }

  predicate BeginsNothing(e: Emitter, trace: seq<Event>)
    requires Shape(e)
    decreases |trace|
  {
    |trace| == 0 || (!BeginsLife(e, trace[0]) && BeginsNothing(Step(e, trace[0]).0, trace[1..]))
  }

  /** No game is on and nothing of one is still scheduled. */
  predicate AtRest(e: Emitter) {
    !InGame(e) && !e.timers.playerState && !e.timers.scoreboard && !e.timers.reload
  }

  lemma PhoneLeavesAtRest(e: Emitter, data: seq<byte>)
    requires Shape(e) && AtRest(e) && !BeginsLife(e, Phone(data))
    ensures var e' := OnPhone(e, data).0;
            AtRest(e') && e'.game == e.game.(cfg := e'.game.cfg) && e'.window == e.window
  {
    if |data| > 0 {
      GameCommandLeavesAtRest(e, data);
      OtherCommandLeavesAtRest(e, data);
    }
  }

  lemma GameCommandLeavesAtRest(e: Emitter, data: seq<byte>)
    requires Shape(e) && AtRest(e) && |data| > 0 && !BeginsLife(e, Phone(data))
    ensures var e' := OnGameCommand(e, data).0; AtRest(e') && e'.game == e.game && e'.window == e.window
  {
  }

  lemma OtherCommandLeavesAtRest(e: Emitter, data: seq<byte>)
    requires Shape(e) && AtRest(e) && |data| > 0
    ensures var e' := OnOtherCommand(e, data);
            AtRest(e') && e'.game == e.game.(cfg := e'.game.cfg) && e'.window == e.window
  {
  }

  lemma StaysAtRest(e: Emitter, ev: Event)
    requires Shape(e) && AtRest(e) && EmitterRuns.Enabled(e, ev) && !BeginsLife(e, ev)
    ensures var e' := Step(e, ev).0;
            AtRest(e') && e'.game == e.game.(cfg := e'.game.cfg) && e'.window == e.window
  {
    if ev.Phone? {
      PhoneLeavesAtRest(e, ev.data);
    }
  }

  lemma {:induction false} NothingCounts(e: Emitter, trace: seq<Event>)
    requires Shape(e) && AtRest(e) && Legal(e, trace) && BeginsNothing(e, trace)
    ensures var e' := Run(e, trace);
            AtRest(e') && e'.game == e.game.(cfg := e'.game.cfg) && e'.window == e.window
    decreases |trace|
  {
    if |trace| > 0 {
      StaysAtRest(e, trace[0]);
      NothingCounts(Step(e, trace[0]).0, trace[1..]);
    }
  }

  /** After the end of a game and until the next life no game is on and no broadcast or reload of one is
      scheduled; nothing of the game state changes but the configuration, and no hit is accepted. */
  lemma GameOverEndsIt(e: Emitter, rest: seq<byte>, trace: seq<Event>)
    requires Shape(e)
    requires var e1 := Step(e, Phone([CMD_GAME_OVER] + rest)).0; Legal(e1, trace) && BeginsNothing(e1, trace)
    ensures var e2 := Run(Step(e, Phone([CMD_GAME_OVER] + rest)).0, trace);
            AtRest(e2) && e2.game == e.game.(cfg := e2.game.cfg) && e2.window == e.window
  {
    NothingCounts(Step(e, Phone([CMD_GAME_OVER] + rest)).0, trace);
  }
}
