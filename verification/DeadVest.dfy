/** A vest that its emitter left dead stays dead through the next game, and with it nobody can hit the
    player until the link has been dropped. */
module DeadVest {
  import opened Bytes
  import opened DedupRing
  import opened FreshIds
  import opened HitDelivery
  import opened HitRuns
  import opened Protocol
  import opened RepeatedIds
  import IrLink
  import Octets
  import G = GameState
  import V = Vest
  import E = Emitter
  import R = EmitterRuns

  // ----- how it comes about -----

  /** A running game with nothing under way. */
  predicate Duel(s: System, p: IrLink.HitPacket) {
    Free(s, p) && s.e.vestReady && s.e.mode == E.GameActive && s.e.game.alive && s.down == []
  }

  /** The player has died and the vest knows it. */
  predicate BothDead(s: System) {
    && Safe(s) && s.linked && s.v.connected && s.v.state == V.Dead && !s.v.hit.pending
    && s.e.vestReady && s.e.mode == E.Dead && s.up == [] && s.down == []
  }

  /** A taken hit reaches the emitter. */
  lemma HitArrives(s: System, m: Up)
    requires Safe(s) && s.linked && s.up == [m] && s.down == [] && s.e.vestReady
    requires s.e.mode == E.GameActive && s.e.game.alive && IdOf(Arriving(s).data) !in s.e.window
    ensures Enabled(s, DeliverUp)
    ensures var id := IdOf(m.data);
            var s1 := Step(s, DeliverUp);
            var fatal := s.e.game.cfg.damage >= s.e.game.health;
            && Safe(s1) && s1 == s.(e := s1.e, up := [], down := s1.down, accepted := s1.accepted)
            && s1.e.window == Push(s.e.window, id, E.HIT_DEDUP_SIZE) && s1.e.vestReady && s1.e.setup == s.e.setup
            && s1.e.game.cfg == s.e.game.cfg
            && s1.down == Tagged([E.HitAck(id)] + (if fatal then [E.DEATH] else []), Some(m.serial))
            && s1.e.mode == (if fatal then E.Dead else E.GameActive)
            && s1.e.game.health == After(s.e.game.health, s.e.game.cfg.damage) && s1.e.game.alive == !fatal
  {
    StepIsSafe(s, DeliverUp);
  }

  lemma DeathHeard(s: System, d: Down)
    requires Safe(s) && s.down == [d] && d.cmd == E.DEATH
    ensures Enabled(s, DeliverDown)
    ensures var s1 := Step(s, DeliverDown);
            Safe(s1) && s1 == s.(v := s.v.(state := V.Dead, hit := V.DropHit(s.v.hit)), down := [])
  {
    StepIsSafe(s, DeliverDown);
  }

  /** A hit is taken up and its notification delivered. */
  lemma HitReaches(s: System, p: IrLink.HitPacket, id: u16) returns (t: System)
    requires Duel(s, p) && id !in s.e.window
    ensures var trace := [IrFrame(p, true, id)] + [DeliverUp]; Legal(s, trace) && t == Run(s, trace) && Safe(t)
    ensures t == s.(v := s.v.(hit := t.v.hit), e := t.e, down := t.down, hits := s.hits + [Taken(id, p)],
                    accepted := t.accepted)
    ensures t.v.hit.pending && t.v.hit.id == id
    ensures var fatal := s.e.game.cfg.damage >= s.e.game.health;
            && t.e.window == Push(s.e.window, id, E.HIT_DEDUP_SIZE) && t.e.vestReady && t.e.setup == s.e.setup
            && t.e.game.cfg == s.e.game.cfg && t.e.mode == (if fatal then E.Dead else E.GameActive)
            && t.e.game.health == After(s.e.game.health, s.e.game.cfg.damage) && t.e.game.alive == !fatal
            && t.down == Tagged([E.HitAck(id)] + (if fatal then [E.DEATH] else []), Some(|s.hits|))
  {
    var frame := IrFrame(p, true, id);
    HitTaken(s, p, id);
    var s1 := Step(s, frame);
    Le16RoundTrip(id);
    HitArrives(s1, Payload(s, p, id));
    t := Step(s1, DeliverUp);
    Follow(s1, DeliverUp, []);
    Follow(s, frame, [DeliverUp]);
  }

  /** What one answered hit leaves: the emitter's state after it, and a death still to be told. */
  predicate Answered(s: System, p: IrLink.HitPacket, id: u16, t: System) {
    var fatal := s.e.game.cfg.damage >= s.e.game.health;
    && Free(t, p) && t.e.vestReady && t.e.setup == s.e.setup && t.e.game.cfg == s.e.game.cfg
    && t.v.pairing == s.v.pairing
    && t.e.window == Push(s.e.window, id, E.HIT_DEDUP_SIZE)
    && t.e.mode == (if fatal then E.Dead else E.GameActive)
    && (if fatal then |t.down| == 1 && t.down[0].cmd == E.DEATH
        else t.down == [] && t.e.game.alive && t.e.game.health == s.e.game.health - s.e.game.cfg.damage)
  }

  lemma HitAnswered(s: System, p: IrLink.HitPacket, id: u16) returns (t: System, trace: seq<Event>)
    requires Duel(s, p) && id !in s.e.window
    ensures Legal(s, trace) && t == Run(s, trace) && Answered(s, p, id, t)
  {
    var mid := HitReaches(s, p, id);
    AckDelivered(mid, id);
    t := Step(mid, DeliverDown);
    Follow(mid, DeliverDown, []);
    RunInTwo(s, [IrFrame(p, true, id)] + [DeliverUp], [DeliverDown] + []);
    trace := ([IrFrame(p, true, id)] + [DeliverUp]) + ([DeliverDown] + []);
  }

  /** One hit, delivered and acknowledged: the player survives it or both devices are dead. */
  lemma OneHit(s: System, p: IrLink.HitPacket, id: u16) returns (t: System, trace: seq<Event>)
    requires Duel(s, p) && id !in s.e.window
    ensures Legal(s, trace) && t == Run(s, trace)
    ensures t.e.window == Push(s.e.window, id, E.HIT_DEDUP_SIZE)
    ensures t.e.game.cfg == s.e.game.cfg && t.e.setup == s.e.setup && t.v.pairing == s.v.pairing
    ensures Safe(t) && !V.IsFriendly(t.v.friends, p.playerId.ToNat())
    ensures if s.e.game.cfg.damage >= s.e.game.health then BothDead(t)
            else Duel(t, p) && t.e.game.health == s.e.game.health - s.e.game.cfg.damage
  {
    t, trace := HitAnswered(s, p, id);
    if s.e.game.cfg.damage >= s.e.game.health {
      var mid, first := t, trace;
      DeathHeard(mid, mid.down[0]);
      t := Step(mid, DeliverDown);
      Follow(mid, DeliverDown, []);
      RunInTwo(s, first, [DeliverDown] + []);
      trace := first + ([DeliverDown] + []);
    }
  }

  predicate IdsBelow(window: seq<u16>, next: nat) {
    forall i :: 0 <= i < |window| ==> window[i] < next
  }

  lemma PushedBelow(window: seq<u16>, id: u16)
    requires IdsBelow(window, id)
    ensures id !in window && IdsBelow(Push(window, id, E.HIT_DEDUP_SIZE), id + 1)
  {
  }

  /** Hits with ever new ids, until the player is dead. */
  lemma {:induction false} HitsToDeath(s: System, p: IrLink.HitPacket, next: nat) returns (t: System, trace: seq<Event>)
    requires Duel(s, p) && IdsBelow(s.e.window, next) && next + s.e.game.health < 0x1_0000
    requires s.e.game.cfg.damage > 0 || s.e.game.health == 0
    ensures Legal(s, trace) && t == Run(s, trace) && BothDead(t) && !V.IsFriendly(t.v.friends, p.playerId.ToNat())
    ensures t.e.setup == s.e.setup && t.v.pairing == s.v.pairing && t.e.game.cfg == s.e.game.cfg
    ensures IdsBelow(t.e.window, next + s.e.game.health + 1)
    decreases s.e.game.health
  {
    PushedBelow(s.e.window, next);
    t, trace := OneHit(s, p, next);
    if s.e.game.cfg.damage < s.e.game.health {
      var mid, first := t, trace;
      var rest;
      t, rest := HitsToDeath(mid, p, next + 1);
      RunInTwo(s, first, rest);
      trace := first + rest;
    }
  }

  lemma GameEnds(s: System)
    requires BothDead(s)
    ensures Enabled(s, EmitterDoes(R.Phone([CMD_GAME_OVER])))
    ensures var s1 := Step(s, EmitterDoes(R.Phone([CMD_GAME_OVER])));
            Safe(s1) && s1 == s.(e := E.GameOver(s.e))
  {
    StepIsSafe(s, EmitterDoes(R.Phone([CMD_GAME_OVER])));
    assert s.down + Tagged([], None) == s.down;
  }

  lemma ListIgnored(s: System, fire: Down)
    requires Safe(s) && s.down == [Down([VEST_CMD_FRIENDLY_LIST, 0], None), fire] && s.v.state == V.Dead
    ensures var s1 := Step(s, DeliverDown);
            Safe(s1) && s1 == s.(v := s1.v, down := [fire]) && s1.v == s.v.(friends := s1.v.friends)
  {
    StepIsSafe(s, DeliverDown);
  }

  /** The next game starts, both writes reach the vest, and it stays dead. */
  lemma NextGame(s: System) returns (t: System, trace: seq<Event>)
    requires BothDead(s) && s.e.setup.friendlies == []
    ensures Legal(s, trace) && t == Run(s, trace)
    ensures Deaf(t) && t.linked && t.e.vestReady && t.e.mode == E.GameActive && t.e.game.alive && t.v.state == V.Dead
    ensures t.down == [] && t.v.pairing == s.v.pairing && t.e.setup == s.e.setup
  {
    var over, start := EmitterDoes(R.Phone([CMD_GAME_OVER])), EmitterDoes(R.Phone([CMD_START]));
    GameEnds(s);
    var s1 := Step(s, over);
    StartWritten(s1);
    var s2 := Step(s1, start);
    ListIgnored(s2, s2.down[1]);
    var s3 := Step(s2, DeliverDown);
    FireHeard(s3, s1.e.game.cfg.friendlyFire);
    t := Step(s3, DeliverDown);
    Follow(s3, DeliverDown, []);
    Follow(s2, DeliverDown, [DeliverDown]);
    Follow(s1, start, [DeliverDown] + [DeliverDown]);
    Follow(s, over, [start] + ([DeliverDown] + [DeliverDown]));
    trace := [over] + ([start] + ([DeliverDown] + [DeliverDown]));
  }

  /** From power-on, under every configuration under which a player can die: a game is played to the
      player's death, and the vest has heard of it. */
  lemma BothDeadFromPowerOn(saved: G.Config, p: IrLink.HitPacket) returns (t: System, trace: seq<Event>)
    requires saved.damage > 0 || saved.maxHealth == 0
    ensures Runs(saved, trace) && t == Run(Start(saved), trace) && BothDead(t)
    ensures !V.IsFriendly(t.v.friends, p.playerId.ToNat()) && IdsBelow(t.e.window, 0x100)
    ensures t.v.pairing.paired && t.e.setup.friendlies == [] && t.e.game.cfg == saved
  {
    var s, first := GameFromPowerOn(saved, V.NO_ADDRESS, Octets.ZERO, p);
    var second;
    t, second := HitsToDeath(s, p, 0);
    RunInTwo(Start(saved), first, second);
    trace := first + second;
  }

  /** From power-on, under every configuration under which a player can die: a game is played to the
      player's death and ended, the next one is started and all its writes arrive; now the emitter is
      in the game and the vest is dead. */
  lemma DeadVestFromPowerOn(saved: G.Config, p: IrLink.HitPacket) returns (t: System, trace: seq<Event>)
    requires saved.damage > 0 || saved.maxHealth == 0
    ensures Runs(saved, trace) && t == Run(Start(saved), trace)
    ensures Deaf(t) && t.linked && t.e.vestReady && t.e.mode == E.GameActive && t.e.game.alive && t.v.state == V.Dead
    ensures t.down == [] && t.v.pairing.paired && t.e.setup.friendlies == []
  {
    var d, first := BothDeadFromPowerOn(saved, p);
    var second;
    t, second := NextGame(d);
    RunInTwo(Start(saved), first, second);
    trace := first + second;
  }

  // ----- how long it lasts -----

  predicate IsRespawn(cmd: seq<byte>) {
    |cmd| > 0 && cmd[0] == VEST_CMD_RESPAWN
  }

  /** The vest takes no hits, none is under way, and nothing under way will change that. */
  predicate Deaf(s: System) {
    && Safe(s) && s.up == [] && !s.v.hit.pending && s.v.connected
    && (s.v.state == V.Dead || s.v.state == V.Unpaired) && s.e.mode != E.Dead
    && forall j :: 0 <= j < |s.down| ==> !IsRespawn(s.down[j].cmd)
  }

  lemma GameCommandSendsNoRespawn(e: E.Emitter, data: seq<byte>)
    requires E.Shape(e) && e.mode != E.Dead && |data| > 0
    ensures E.OnGameCommand(e, data).0.mode != E.Dead
    ensures forall i :: 0 <= i < |E.OnGameCommand(e, data).1| ==> !IsRespawn(E.OnGameCommand(e, data).1[i])
  {
  }

  lemma NoRespawn(e: E.Emitter, x: R.Event)
    requires E.Shape(e) && e.mode != E.Dead && !x.Notify?
    ensures R.Step(e, x).0.mode != E.Dead
    ensures forall i :: 0 <= i < |R.Step(e, x).1| ==> !IsRespawn(R.Step(e, x).1[i])
  {
    if x.Phone? && |x.data| > 0 {
      GameCommandSendsNoRespawn(e, x.data);
    }
  }

  lemma CommandLeavesDeaf(v: V.Vest, cmd: seq<byte>)
    requires V.Shape(v) && (v.state == V.Dead || v.state == V.Unpaired) && !v.hit.pending && !IsRespawn(cmd)
    ensures var v' := V.OnCommand(v, cmd);
            (v'.state == V.Dead || v'.state == V.Unpaired) && !v'.hit.pending && v'.connected == v.connected
  {
  }

  lemma VestStaysDeaf(s: System, ev: Event)
    requires Deaf(s) && Enabled(s, ev) && OfVest(ev) && !ev.VestNotices?
    ensures Deaf(Step(s, ev)) && Step(s, ev).hits == s.hits && Step(s, ev).accepted == s.accepted
  {
    VestEventIsSafe(s, ev);
    if ev.DeliverDown? {
      CommandLeavesDeaf(s.v, s.down[0].cmd);
    }
  }

  lemma StaysDeaf(s: System, ev: Event)
    requires Deaf(s) && Enabled(s, ev) && !ev.VestNotices?
    ensures Deaf(Step(s, ev)) && Step(s, ev).hits == s.hits && Step(s, ev).accepted == s.accepted
  {
    if OfVest(ev) {
      VestStaysDeaf(s, ev);
    } else {
      OtherEventIsSafe(s, ev);
      if ev.EmitterDoes? {
        NoRespawn(s.e, ev.ev);
      }
    }
  }

  /** In every run from there, until the vest has noticed that the link dropped, no infrared frame is
      taken up and no hit accepted; so the player cannot die, and no respawn is ever sent either. */
  lemma {:induction false} NobodyCanHit(s: System, trace: seq<Event>)
    requires Deaf(s) && Legal(s, trace)
    requires forall i :: 0 <= i < |trace| ==> !trace[i].VestNotices?
    ensures var t := Run(s, trace);
            t.hits == s.hits && t.accepted == s.accepted && t.v.state != V.GameActive && t.e.mode != E.Dead
    decreases |trace|
  {
    if |trace| > 0 {
      StaysDeaf(s, trace[0]);
      NobodyCanHit(Step(s, trace[0]), trace[1..]);
    }
  }
}
