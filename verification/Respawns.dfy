/** How a dead vest comes back: by a respawn, or by a new connection. */
module Respawns {
  import opened Bytes
  import opened DeadVest
  import opened HitDelivery
  import opened HitRuns
  import opened Protocol
  import opened RepeatedIds
  import IrLink
  import G = GameState
  import V = Vest
  import E = Emitter
  import R = EmitterRuns

  // ----- respawn -----

  const RESPAWN := EmitterDoes(R.Phone([CMD_RESPAWN]))

  /** Both devices are in the game, the player with full health. */
  predicate BothAlive(s: System) {
    && s.v.state == V.GameActive && !s.v.hit.pending && s.e.mode == E.GameActive && s.e.game.alive
    && s.e.game.health == s.e.game.cfg.maxHealth && !s.e.game.reloading
  }

  lemma RespawnWritten(s: System)
    requires BothDead(s)
    ensures Enabled(s, RESPAWN)
    ensures var s1 := Step(s, RESPAWN);
            && Safe(s1) && s1 == s.(e := s1.e, down := [Down([VEST_CMD_RESPAWN], None)])
            && s1.e.mode == E.GameActive && s1.e.game.alive && s1.e.game.health == s.e.game.cfg.maxHealth
            && !s1.e.game.reloading && s1.e.game.cfg == s.e.game.cfg && s1.e.vestReady && s1.e.window == s.e.window
            && s1.e.setup == s.e.setup
  {
    StepIsSafe(s, RESPAWN);
    assert Tagged([[VEST_CMD_RESPAWN]], None) == [Down([VEST_CMD_RESPAWN], None)];
  }

  lemma RespawnHeard(s: System)
    requires Safe(s) && s.down == [Down([VEST_CMD_RESPAWN], None)]
    ensures Enabled(s, DeliverDown)
    ensures var s1 := Step(s, DeliverDown);
            Safe(s1) && s1 == s.(v := s.v.(state := V.GameActive), down := [])
  {
    StepIsSafe(s, DeliverDown);
  }

  /** The phone's respawn command and its delivery to the vest. */
  lemma RespawnRevivesBoth(s: System) returns (t: System)
    requires BothDead(s)
    ensures Legal(s, [RESPAWN] + [DeliverDown]) && t == Run(s, [RESPAWN] + [DeliverDown])
    ensures Safe(t) && BothAlive(t) && t.e.game.cfg == s.e.game.cfg && t.hits == s.hits
    ensures t == s.(e := t.e, v := s.v.(state := V.GameActive)) && t.e.window == s.e.window && t.e.vestReady
  {
    RespawnWritten(s);
    var s1 := Step(s, RESPAWN);
    RespawnHeard(s1);
    t := Step(s1, DeliverDown);
    Follow(s1, DeliverDown, []);
    Follow(s, RESPAWN, [DeliverDown]);
  }

  /** After that the next frame of a shooter who is no friend is taken up and, delivered, costs health. */
  lemma RespawnedCanBeHit(s: System, p: IrLink.HitPacket, id: u16) returns (t: System, trace: seq<Event>)
    requires BothDead(s) && !V.IsFriendly(s.v.friends, p.playerId.ToNat()) && id !in s.e.window
    ensures trace == ([RESPAWN] + [DeliverDown]) + ([IrFrame(p, true, id)] + [DeliverUp])
    ensures Legal(s, trace) && t == Run(s, trace) && t.hits == s.hits + [Taken(id, p)]
    ensures t.e.game.health == After(s.e.game.cfg.maxHealth, s.e.game.cfg.damage)
  {
    var mid := RespawnRevivesBoth(s);
    t := HitReaches(mid, p, id);
    trace := ([RESPAWN] + [DeliverDown]) + ([IrFrame(p, true, id)] + [DeliverUp]);
    RunInTwo(s, [RESPAWN] + [DeliverDown], [IrFrame(p, true, id)] + [DeliverUp]);
  }

  /** From power-on, under every configuration under which a player can die: death, respawn and the next hit. */
  lemma RespawnFromPowerOn(saved: G.Config, p: IrLink.HitPacket) returns (t: System, trace: seq<Event>, dead: nat)
    requires saved.damage > 0 || saved.maxHealth == 0
    ensures Runs(saved, trace) && t == Run(Start(saved), trace) && dead + 4 == |trace|
    ensures trace[dead..] == ([RESPAWN] + [DeliverDown]) + ([IrFrame(p, true, 0xFFFF)] + [DeliverUp])
    ensures t.e.game.health == After(saved.maxHealth, saved.damage) && |t.hits| > 0 && t.hits[|t.hits| - 1].frame == p
  {
    var d, first := BothDeadFromPowerOn(saved, p);
    var second;
    t, second := RespawnedCanBeHit(d, p, 0xFFFF);
    RunInTwo(Start(saved), first, second);
    trace, dead := first + second, |first|;
  }

  // ----- a new connection -----

  lemma LinkLost(s: System) returns (t: System, trace: seq<Event>)
    requires Safe(s) && s.linked && s.v.state == V.Dead && s.v.pairing.paired
    ensures Legal(s, trace) && t == Run(s, trace) && Safe(t)
    ensures t == s.(linked := false, up := [], down := [], v := t.v, e := s.e.(vestReady := false))
    ensures t.v == s.v.(connected := false, state := V.PairedIdle, hit := t.v.hit) && !t.v.hit.pending
  {
    var s1 := Step(s, Drop);
    StepIsSafe(s, Drop);
    var s2 := Step(s1, VestNotices);
    StepIsSafe(s1, VestNotices);
    t := Step(s2, EmitterNotices);
    StepIsSafe(s2, EmitterNotices);
    Follow(s2, EmitterNotices, []);
    Follow(s1, VestNotices, [EmitterNotices]);
    Follow(s, Drop, [VestNotices] + [EmitterNotices]);
    trace := [Drop] + ([VestNotices] + [EmitterNotices]);
  }

  lemma LinkedAgain(s: System) returns (t: System, trace: seq<Event>)
    requires Safe(s) && !s.linked && !s.v.connected && !s.e.vestReady && s.v.pairing.paired
    ensures Legal(s, trace) && t == Run(s, trace) && Safe(t)
    ensures t == s.(linked := true, v := s.v.(connected := true), e := s.e.(vestReady := true))
  {
    var hello := Connect(s.v.pairing.addr);
    var s1 := Step(s, hello);
    StepIsSafe(s, hello);
    t := Step(s1, GattReady);
    StepIsSafe(s1, GattReady);
    Follow(s1, GattReady, []);
    Follow(s, hello, [GattReady]);
    trace := [hello] + [GattReady];
  }

  lemma GameStarts(s: System, p: IrLink.HitPacket) returns (t: System, trace: seq<Event>)
    requires Safe(s) && s.linked && s.v.connected && s.v.state == V.PairedIdle && !s.v.hit.pending && s.e.vestReady
    requires s.up == [] && s.down == [] && s.e.setup.friendlies == []
    ensures Legal(s, trace) && t == Run(s, trace) && Free(t, p) && t.e == E.BeginGame(s.e)
  {
    var start := EmitterDoes(R.Phone([CMD_START]));
    StartWritten(s);
    var s1 := Step(s, start);
    ListHeard(s1, s1.down[1]);
    var s2 := Step(s1, DeliverDown);
    FireHeard(s2, s.e.game.cfg.friendlyFire);
    t := Step(s2, DeliverDown);
    Follow(s2, DeliverDown, []);
    Follow(s1, DeliverDown, [DeliverDown]);
    Follow(s, start, [DeliverDown] + [DeliverDown]);
    trace := [start] + ([DeliverDown] + [DeliverDown]);
  }

  /** A dead vest whose link drops becomes idle; after its emitter has connected again it joins the next game
      and can be hit. */
  lemma NewLinkRevives(s: System, p: IrLink.HitPacket) returns (t: System, trace: seq<Event>)
    requires Safe(s) && s.linked && s.v.state == V.Dead && s.v.pairing.paired && s.e.setup.friendlies == []
    ensures Legal(s, trace) && t == Run(s, trace) && Free(t, p) && t.e.mode == E.GameActive && t.e.game.alive
  {
    var a, first := LinkLost(s);
    var b, second := LinkedAgain(a);
    var third;
    t, third := GameStarts(b, p);
    RunInTwo(s, first, second);
    RunInTwo(s, first + second, third);
    trace := (first + second) + third;
  }

  /** So the state in which nobody could hit the player, reached from power-on, is left by a new connection. */
  lemma DeafnessEnds(saved: G.Config, p: IrLink.HitPacket) returns (d: System, t: System, trace: seq<Event>, deaf: nat)
    requires saved.damage > 0 || saved.maxHealth == 0
    ensures Runs(saved, trace) && t == Run(Start(saved), trace) && deaf <= |trace|
    ensures d == At(saved, trace, deaf) && Deaf(d) && d.e.mode == E.GameActive && d.v.state == V.Dead
    ensures Free(t, p) && t.e.mode == E.GameActive && t.e.game.alive
  {
    var first, second;
    d, first := DeadVestFromPowerOn(saved, p);
    t, second := NewLinkRevives(d, p);
    RunInTwo(Start(saved), first, second);
    trace, deaf := first + second, |first|;
    assert trace[..deaf] == first;
  }
}
