/** The player's team as the emitter plays for it and as its mesh node knows it: in every run they are
    the same until a game start with a cut roster, and exactly those starts can part them. */
module Identities {
  import opened Bytes
  import opened Emitter
  import opened EmitterRuns
  import opened GameConfig
  import opened GameState
  import opened Protocol
  import Encoding = GameConfigEncoding
  import MeshNode

  predicate Together(e: Emitter) { e.setup.meshTeam == e.setup.teamId }

  /** The configuration with which an event starts a game. */
  function StartBlob(e: Emitter, ev: Event): Option<seq<byte>> {
    match ev
    case Phone(data) => if |data| > 1 && data[0] == CMD_BROADCAST_GAME_CFG then Some(data[1..]) else None
    case MeshStart(cfg) => if InGame(e) then None else Some(cfg)
    case _ => None
  }

  function StoredLen(cfg: seq<byte>): nat { if |cfg| > RAW_SIZE then RAW_SIZE else |cfg| }

  predicate SetsPlayer(ev: Event) {
    ev.Phone? && |ev.data| >= 3 && ev.data[0] == CMD_SET_PLAYER_INFO
  }

  /** The event starts a game with complete teams and a cut roster whose last complete entry for the
      player names a team that is not the mesh's. */
  predicate MovesPlayerAlone(e: Emitter, ev: Event)
    requires Shape(e)
  {
    && StartBlob(e, ev).Some?
    && var cfg := StartBlob(e, ev).value;
    var raw, len := StoreRaw(e.raw, cfg), StoredLen(cfg);
    Encoding.CutsRoster(raw, len) && Encoding.MovedTeam(e.setup, raw, len) != e.setup.meshTeam
  }

  lemma StartIdentities(e: Emitter, ev: Event)
    requires Shape(e) && StartBlob(e, ev).Some?
    ensures var cfg := StartBlob(e, ev).value;
            Step(e, ev).0.setup == ApplyBlob(e.setup, StoreRaw(e.raw, cfg), StoredLen(cfg))
  {
  }

  lemma OtherPhoneIdentities(e: Emitter, data: seq<byte>)
    requires Shape(e) && StartBlob(e, Phone(data)).None? && !SetsPlayer(Phone(data))
    ensures OnPhone(e, data).0.setup == e.setup.(cfg := OnPhone(e, data).0.setup.cfg)
  {
  }

  lemma OtherIdentities(e: Emitter, ev: Event)
    requires Shape(e) && StartBlob(e, ev).None? && !SetsPlayer(ev)
    ensures Step(e, ev).0.setup == e.setup.(cfg := Step(e, ev).0.setup.cfg)
  {
    if ev.Phone? {
      OtherPhoneIdentities(e, ev.data);
    }
  }

  /** While player and mesh agree on the team, exactly such a start makes them disagree. The player's id
      is always the one the mesh knows. */
  lemma StepParts(e: Emitter, ev: Event)
    requires Shape(e) && Enabled(e, ev) && Together(e) && e.setup.meshPlayer == e.setup.playerId
    ensures Together(Step(e, ev).0) <==> !MovesPlayerAlone(e, ev)
    ensures Step(e, ev).0.setup.meshPlayer == Step(e, ev).0.setup.playerId
  {
    if StartBlob(e, ev).Some? {
      var cfg := StartBlob(e, ev).value;
      StartIdentities(e, ev);
      Encoding.IdentitiesPart(e.setup, StoreRaw(e.raw, cfg), StoredLen(cfg));
    } else if !SetsPlayer(ev) {
      OtherIdentities(e, ev);
    }
  }

  predicate AlwaysTogether(e: Emitter, trace: seq<Event>)
    requires Shape(e)
    decreases |trace|
  {
    Together(e) && (|trace| == 0 || AlwaysTogether(Step(e, trace[0]).0, trace[1..]))
  }

  predicate NeverMovedAlone(e: Emitter, trace: seq<Event>)
    requires Shape(e)
    decreases |trace|
  {
    |trace| == 0 || (!MovesPlayerAlone(e, trace[0]) && NeverMovedAlone(Step(e, trace[0]).0, trace[1..]))
  }

  lemma {:induction false} TogetherExactly(e: Emitter, trace: seq<Event>)
    requires Shape(e) && Legal(e, trace) && Together(e) && e.setup.meshPlayer == e.setup.playerId
    ensures AlwaysTogether(e, trace) <==> NeverMovedAlone(e, trace)
    decreases |trace|
  {
    if |trace| > 0 {
      StepParts(e, trace[0]);
      if Together(Step(e, trace[0]).0) {
        TogetherExactly(Step(e, trace[0]).0, trace[1..]);
      }
    }
  }

  /** From power-on player and mesh agree on the team throughout a run exactly if no game start of the run
      has complete teams and a cut roster that moves the player to another team. */
  lemma TogetherFromPowerOn(saved: Config, trace: seq<Event>)
    requires Legal(PowerOn(saved), trace)
    ensures AlwaysTogether(PowerOn(saved), trace) <==> NeverMovedAlone(PowerOn(saved), trace)
  {
    TogetherExactly(PowerOn(saved), trace);
  }

  lemma StepKeepsPlayer(e: Emitter, ev: Event)
    requires Shape(e) && Enabled(e, ev) && e.setup.meshPlayer == e.setup.playerId
    ensures Step(e, ev).0.setup.meshPlayer == Step(e, ev).0.setup.playerId
  {
    if StartBlob(e, ev).Some? {
      var cfg := StartBlob(e, ev).value;
      StartIdentities(e, ev);
      Encoding.IdentitiesPart(e.setup, StoreRaw(e.raw, cfg), StoredLen(cfg));
    } else if !SetsPlayer(ev) {
      OtherIdentities(e, ev);
    }
  }

  /** The player's id never differs from the one the mesh node goes by. */
  lemma {:induction false} SamePlayerInRuns(e: Emitter, trace: seq<Event>)
    requires Shape(e) && Legal(e, trace) && e.setup.meshPlayer == e.setup.playerId
    ensures Run(e, trace).setup.meshPlayer == Run(e, trace).setup.playerId
    decreases |trace|
  {
    if |trace| > 0 {
      StepKeepsPlayer(e, trace[0]);
      SamePlayerInRuns(Step(e, trace[0]).0, trace[1..]);
    }
  }

  // ----- a run that parts them -----

  /** A game start of fourteen bytes: no teams, two players announced, one of them there. */
  function CutStart(header: seq<byte>, pid: byte, tid: byte): seq<byte> {
    header + [0, 2, pid, tid, 0]
  }

  lemma CutStartMoves(e: Emitter, header: seq<byte>, tid: byte)
    requires Shape(e) && Together(e) && |header| == 9 && tid != e.setup.teamId
    ensures var ev := Phone([CMD_BROADCAST_GAME_CFG] + CutStart(header, e.setup.playerId, tid));
            && Enabled(e, ev) && Step(e, ev).0.mode == GameActive
            && Step(e, ev).0.setup.teamId == tid && Step(e, ev).0.setup.meshTeam == e.setup.meshTeam
  {
    var cfg := CutStart(header, e.setup.playerId, tid);
    var raw := StoreRaw(e.raw, cfg);
    assert ([CMD_BROADCAST_GAME_CFG] + cfg)[1..] == cfg;
    assert raw[9..14] == [0, 2, e.setup.playerId, tid, 0];
    Encoding.IdentitiesCanPart(e.setup, raw, tid);
  }

  /** From power-on: the phone sets the player and then starts a game with a cut roster. The game is on, the
      player in one team and its mesh node in another. */
  lemma PartInARun(saved: Config, header: seq<byte>, pid: byte, home: byte, tid: byte)
    requires |header| == 9 && tid != home
    ensures var trace := [Phone([CMD_SET_PLAYER_INFO, pid, home])]
                         + [Phone([CMD_BROADCAST_GAME_CFG] + CutStart(header, pid, tid))];
            && Legal(PowerOn(saved), trace)
            && var e := Run(PowerOn(saved), trace);
            e.mode == GameActive && e.setup.playerId == pid && e.setup.teamId == tid && e.setup.meshTeam == home
  {
    var first := Phone([CMD_SET_PLAYER_INFO, pid, home]);
    var e1 := Step(PowerOn(saved), first).0;
    var start := Phone([CMD_BROADCAST_GAME_CFG] + CutStart(header, pid, tid));
    CutStartMoves(e1, header, tid);
    StartIdentities(e1, start);
    RunOne(e1, start);
    RunFirst(PowerOn(saved), first, [start]);
  }

  /** Then the node drops the player states of the player's own team-mates. */
  lemma TeammatesAreDropped(e: Emitter, n: MeshNode.Node, f: MeshNode.Frame, overrun: byte)
    requires !Together(e) && n.team == e.setup.meshTeam
    requires |f| > MeshNode.HEADER_SIZE + 1 && f[0] == MeshNode.PLAYER_STATE && f[5] >= 2
    requires f[MeshNode.HEADER_SIZE + 1] == e.setup.teamId
    ensures MeshNode.Process(n, f, overrun).1 == MeshNode.NOTHING
    ensures MeshNode.Process(n, f, overrun).0.relay == n.relay
  {
  }

  // ----- the stale byte -----

  /** A ten-byte configuration after a longer one: if it announces no teams, whether it clears the friendly list
      depends on the player count of the earlier one. */
  lemma StaleByteDecides(e: Emitter, earlier: seq<byte>, cfg: seq<byte>)
    requires Shape(e) && 10 < |earlier| <= RAW_SIZE && |cfg| == 10
    ensures var e1 := Step(e, Phone([CMD_BROADCAST_GAME_CFG] + earlier)).0;
            var e2 := Step(e1, Phone([CMD_BROADCAST_GAME_CFG] + cfg)).0;
            && e2.setup.friendlies == (if cfg[9] == 0 && earlier[10] == 0 then [] else e1.setup.friendlies)
            && e2.setup.numTeams == (if cfg[9] > MAX_TEAMS then MAX_TEAMS else cfg[9])
            && e2.game.cfg == e1.game.cfg
  {
    var first, second := Phone([CMD_BROADCAST_GAME_CFG] + earlier), Phone([CMD_BROADCAST_GAME_CFG] + cfg);
    var e1 := Step(e, first).0;
    assert ([CMD_BROADCAST_GAME_CFG] + earlier)[1..] == earlier && ([CMD_BROADCAST_GAME_CFG] + cfg)[1..] == cfg;
    StartIdentities(e1, second);
    KeptByte(e, earlier, cfg);
    Encoding.TenByteBlob(e1.setup, StoreRaw(e1.raw, cfg));
  }

  lemma KeptByte(e: Emitter, earlier: seq<byte>, cfg: seq<byte>)
    requires Shape(e) && 10 < |earlier| <= RAW_SIZE && |cfg| == 10
    ensures var raw := StoreRaw(StoreRaw(e.raw, earlier), cfg); raw[9] == cfg[9] && raw[10] == earlier[10]
  {
  }
}
