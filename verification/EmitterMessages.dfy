/** What phone, vest and other emitters read from the emitter's messages. */
module EmitterMessages {
  import opened Bytes
  import opened Emitter
  import opened EmitterReports
  import opened EmitterRuns
  import opened GameConfig
  import opened GameState
  import opened PhoneView
  import opened Protocol
  import D = HitDelivery
  import V = Vest

  // ----- periodic messages -----

  /** `pct` is the whole per cent that `rounds` are of `total`. */
  predicate IsPercentage(pct: byte, rounds: nat, total: nat) {
    pct * total <= rounds * 100 < (pct + 1) * total
  }

  lemma DivisionBounds(n: nat, d: nat)
    requires d > 0
    ensures n / d * d <= n < (n / d + 1) * d
  {
  }

  lemma Smaller(q: nat, d: nat, n: nat)
    requires q * d <= n < 256 * d
    ensures q < 256
  {
    if q >= 256 {
      MoreTimes(q, d);
    }
  }

  lemma MoreTimes(q: nat, d: nat)
    requires q >= 256
    ensures q * d >= 256 * d
  {
  }

  lemma Quotient(n: nat, d: nat)
    requires n < 256 * d
    ensures n / d < 256 && n / d * d <= n < (n / d + 1) * d
  {
    DivisionBounds(n, d);
    Smaller(n / d, d, n);
  }

  lemma SmallIsWhole(q: nat)
    requires q < 256
    ensures U8(q) == q
  {
  }

  lemma PercentageFits(rounds: nat, total: nat)
    requires rounds * 100 < 256 * total
    ensures IsPercentage(Percent(rounds, total), rounds, total)
  {
    var n := rounds * 100;
    Quotient(n, total);
    SmallIsWhole(n / total);
  }

  /** The player state that goes to the mesh while the game is active: the player, its team, and health,
      counters and life as they are; the ammunition as a percentage of the configured total, as long as it
      is less than 256 per cent. */
  lemma PlayerStateIsTrue(e: Emitter)
    requires Shape(e) && Agree(e)
    ensures if e.mode != GameActive then Reported(e, PlayerStateFires) == SILENT
            else
              var g, mesh := e.game, Reported(e, PlayerStateFires).mesh;
              && |mesh| == 1 && mesh[0].PlayerState?
              && var m := mesh[0];
              && m.player == e.setup.playerId && m.team == e.setup.teamId && m.health == g.health && m.alive
              && m.kills == g.kills && m.deaths == g.deaths
              && ((g.mag + g.reserve) * 100 < 256 * g.cfg.initialTotalAmmo ==>
                    IsPercentage(m.ammoPct, g.mag + g.reserve, g.cfg.initialTotalAmmo))
              && (g.cfg.initialTotalAmmo == 0 ==> m.ammoPct == 0)
  {
    var g := e.game;
    if (g.mag + g.reserve) * 100 < 256 * g.cfg.initialTotalAmmo {
      PercentageFits(g.mag + g.reserve, g.cfg.initialTotalAmmo);
    }
  }

  /** The periodic messages go on exactly while they are sent: player states in an active game, announcements
      while a lobby is hosted. The scoreboard's handler would go on in every game, alive or dead. */
  lemma PeriodicGoesOn(e: Emitter)
    requires Shape(e)
    ensures Step(e, PlayerStateFires).0.timers.playerState <==> e.mode == GameActive
    ensures Step(e, ScoreboardFires).0.timers.scoreboard <==> InGame(e)
    ensures Step(e, AnnounceFires).0.timers.announce <==> e.mode == LobbyHost
  {
  }

  /** But in every run a dead player sends neither player states nor scoreboards. */
  lemma DeadAreSilent(saved: Config, trace: seq<Event>)
    requires Legal(PowerOn(saved), trace) && Run(PowerOn(saved), trace).mode == Dead
    ensures var e := Run(PowerOn(saved), trace);
            !EmitterRuns.Enabled(e, PlayerStateFires) && !EmitterRuns.Enabled(e, ScoreboardFires)
  {
    AgreesFromPowerOn(saved, trace);
  }

  /** The scoreboard's handler sends the team table in every game and never outside one. */
  lemma ScoreboardIsTrue(e: Emitter)
    requires Shape(e)
    ensures var mesh := Reported(e, ScoreboardFires).mesh;
            if !InGame(e) then mesh == []
            else |mesh| == 1 && mesh[0] == Scoreboard(e.setup.numTeams, e.setup.teamIds, e.setup.teamKills)
  {
  }

  /** A dead player's respawn is told to phone and mesh, a living one's command is not obeyed. */
  lemma RespawnIsTold(e: Emitter, rest: seq<byte>)
    requires Shape(e)
    ensures var ev := Phone([CMD_RESPAWN] + rest);
            var e', r := Step(e, ev).0, Reported(e, ev);
            if e.mode == Dead then
              && e'.mode == GameActive && e'.game.alive && e'.game.health == e.game.cfg.maxHealth
              && r.mesh == [PlayerRespawn(e.setup.playerId)] && [0x99] in r.phone
              && See(ViewOf(e.game), r.phone) == ViewOf(e'.game)
            else e' == e && r == SILENT
  {
    StepInSync(e, Phone([CMD_RESPAWN] + rest));
    var r := Reported(e, Phone([CMD_RESPAWN] + rest));
    if e.mode == Dead {
      assert r.phone[0] == [0x99];
    }
  }

  // ----- acknowledgements -----

  /** The commands that are acknowledged, with the lengths they need and the states they are obeyed in. */
  predicate Acknowledged(e: Emitter, data: seq<byte>) {
    && |data| > 0
    && match data[0]
       case 0x01 => |data| >= 15
       case 0x02 => true
       case 0x03 => e.mode == GameActive && |data| >= 3
       case 0x04 => true
       case 0x05 => |data| > 1
       case 0x10 => |data| >= 3
       case 0x11 => |data| >= 7
       case 0x12 => true
       case 0x14 => |data| > 1
       case 0x15 => |data| >= 11
       case 0x16 => true
       case 0x17 => true
       case 0x19 => e.mode == Dead
       case _ => false
  }

  /** An acknowledgement is the command's opcode with the top bit set, sent exactly if the command is obeyed;
      the phone gets no other one-byte message. */
  lemma AcksEcho(e: Emitter, data: seq<byte>)
    requires Shape(e) && EmitterRuns.Enabled(e, Phone(data))
    ensures forall m :: m in PhoneReport(e, data).phone && |m| == 1 ==> Acknowledged(e, data) && m == [data[0] + 0x80]
    ensures Acknowledged(e, data) ==> [data[0] + 0x80] in PhoneReport(e, data).phone
  {
    if |data| > 0 {
      if IsGameCommand(data[0]) {
        GameCommandAcks(e, data);
      } else if data[0] != CMD_UNPAIR_VEST {
        OtherCommandAcks(e, data);
      }
    }
  }

  lemma GameCommandAcks(e: Emitter, data: seq<byte>)
    requires Shape(e) && |data| > 0 && IsGameCommand(data[0])
    ensures var phone := GameCommandReport(e, data).phone;
            && (forall m :: m in phone && |m| == 1 ==> Acknowledged(e, data) && m == [data[0] + 0x80])
            && (Acknowledged(e, data) ==> [data[0] + 0x80] in phone)
  {
    var phone := GameCommandReport(e, data).phone;
    if data[0] == CMD_BROADCAST_GAME_CFG && |data| > 1 {
      assert phone[1] == [data[0] + 0x80];
    } else if |phone| > 0 {
      assert phone[0] == [data[0] + 0x80];
    }
  }

  lemma OtherCommandAcks(e: Emitter, data: seq<byte>)
    requires Shape(e) && |data| > 0 && !IsGameCommand(data[0])
    ensures var phone := OtherReport(e, data).phone;
            && (forall m :: m in phone && |m| == 1 ==> Acknowledged(e, data) && m == [data[0] + 0x80])
            && (Acknowledged(e, data) ==> [data[0] + 0x80] in phone)
  {
    var phone := OtherReport(e, data).phone;
    if |phone| > 0 {
      assert phone[0] == [data[0] + 0x80];
    }
  }

  // ----- the lobby -----

  /** The part of a name that is kept: its length is counted in eight bits and cut at sixteen. */
  function Kept(name: seq<byte>): seq<byte> {
    var len := |name| % 256;
    name[..if len > 16 then 16 else len]
  }

  /** `shown` is the name up to its first zero byte, if there is one. */
  predicate Shows(shown: seq<byte>, name: seq<byte>) {
    && shown <= name && (forall i :: 0 <= i < |shown| ==> shown[i] != 0)
    && (|shown| < |name| ==> name[|shown|] == 0)
  }

  lemma {:induction false} ShownUpToZero(name: seq<byte>)
    ensures Shows(CString(name), name)
    decreases |name|
  {
    if |name| > 0 && name[0] != 0 {
      ShownUpToZero(name[1..]);
      assert name == [name[0]] + name[1..];
    }
  }

  function PlayerCommand(player: byte, team: byte, name: seq<byte>): seq<byte> {
    [CMD_SET_PLAYER_INFO, player, team] + name
  }

  function HostCommand(code: nat, gameMode: byte, host: byte): seq<byte>
    requires code < 0x1_0000_0000
  {
    [CMD_START_LOBBY_HOST] + PutLe32(code) + [gameMode, host]
  }

  lemma NameIsStored(e: Emitter, player: byte, team: byte, name: seq<byte>)
    requires Shape(e)
    ensures var e' := Step(e, Phone(PlayerCommand(player, team, name))).0;
            e'.lobby.username == Kept(name) && e'.setup.playerId == player && e'.setup.teamId == team
  {
    var data, len := PlayerCommand(player, team, name), |Kept(name)|;
    assert data[3..3 + len] == name[..len];
  }

  lemma LobbyIsOpened(e: Emitter, code: nat, gameMode: byte, host: byte)
    requires Shape(e) && code < 0x1_0000_0000
    ensures var e' := Step(e, Phone(HostCommand(code, gameMode, host))).0;
            && e'.mode == LobbyHost && e'.timers.announce
            && e'.lobby == Lobby(code, gameMode, host, e.lobby.username)
  {
    var data, b := HostCommand(code, gameMode, host), PutLe32(code);
    assert data[1] == b[0] && data[2] == b[1] && data[3] == b[2] && data[4] == b[3];
    Le32RoundTrip(code);
  }

  /** The phone sets the player's name and hosts a lobby: the announcement that follows carries the code and
      the game mode as they were sent and the name as far as it is kept, and is scheduled again. */
  lemma LobbyIsAnnounced(e: Emitter, player: byte, team: byte, name: seq<byte>, code: nat, gameMode: byte, host: byte)
    requires Shape(e) && code < 0x1_0000_0000
    ensures var e1 := Step(e, Phone(PlayerCommand(player, team, name))).0;
            var e2 := Step(e1, Phone(HostCommand(code, gameMode, host))).0;
            var mesh := Reported(e2, AnnounceFires).mesh;
            && Enabled(e2, AnnounceFires) && Step(e2, AnnounceFires).0 == e2
            && |mesh| == 1 && mesh[0].LobbyAnnounce? && mesh[0].code == code && mesh[0].gameMode == gameMode
            && Shows(mesh[0].host, Kept(name))
  {
    NameIsStored(e, player, team, name);
    LobbyIsOpened(Step(e, Phone(PlayerCommand(player, team, name))).0, code, gameMode, host);
    ShownUpToZero(Kept(name));
  }

  /** A game start that the host's phone sends or that is heard and joined ends the lobby's announcements, and so
      does the command that stops the lobby; that command and the one that scans for lobbies leave a game. */
  lemma LobbyEnds(e: Emitter, rest: seq<byte>, cfg: seq<byte>)
    requires Shape(e)
    ensures |rest| > 0 ==> !Step(e, Phone([CMD_BROADCAST_GAME_CFG] + rest)).0.timers.announce
    ensures !InGame(e) ==> !Step(e, MeshStart(cfg)).0.timers.announce
    ensures var e' := Step(e, Phone([CMD_STOP_LOBBY] + rest)).0; e'.mode == Idle && !e'.timers.announce
    ensures Step(e, Phone([CMD_START_LOBBY_SCAN] + rest)).0.mode == LobbyScan
  {
  }

  function JoinCommand(code: nat, player: byte, name: seq<byte>): seq<byte>
    requires code < 0x1_0000_0000
  {
    [CMD_BROADCAST_LOBBY_JOIN] + PutLe32(code) + [player] + name
  }

  lemma JoinFields(code: nat, player: byte, name: seq<byte>)
    requires code < 0x1_0000_0000
    ensures var data := JoinCommand(code, player, name);
            && |data| == 6 + |name| && data[0] == CMD_BROADCAST_LOBBY_JOIN && data[5] == player && data[6..] == name
            && GetLe32(data[1], data[2], data[3], data[4]) == code
  {
    var data, b := JoinCommand(code, player, name), PutLe32(code);
    assert data[1] == b[0] && data[2] == b[1] && data[3] == b[2] && data[4] == b[3];
    Le32RoundTrip(code);
  }

  /** Joining a lobby is passed on with the code and the player as they were sent and the name as far as it is
      kept. */
  lemma JoinIsPassedOn(e: Emitter, code: nat, player: byte, name: seq<byte>)
    requires Shape(e) && code < 0x1_0000_0000
    ensures var data := JoinCommand(code, player, name);
            var mesh := PhoneReport(e, data).mesh;
            && Step(e, Phone(data)).0 == e && |mesh| == 1 && mesh[0].LobbyJoin?
            && mesh[0].code == code && mesh[0].player == player && Shows(mesh[0].name, Kept(name))
  {
    var data, len := JoinCommand(code, player, name), |Kept(name)|;
    JoinFields(code, player, name);
    assert data[6..6 + len] == data[6..][..len] == Kept(name);
    ShownUpToZero(Kept(name));
  }

  /** Bytes to be broadcast are handed to the mesh as they are: frames and lobby states. */
  lemma BytesArePassedOn(e: Emitter, bytes: seq<byte>)
    requires Shape(e) && |bytes| > 0
    ensures PhoneReport(e, [CMD_BROADCAST_CODED_PHY] + bytes).mesh == [Raw(bytes)]
    ensures PhoneReport(e, [CMD_BROADCAST_LOBBY_STATE] + bytes).mesh == [LobbyState(bytes)]
  {
    assert ([CMD_BROADCAST_CODED_PHY] + bytes)[1..] == bytes;
    assert ([CMD_BROADCAST_LOBBY_STATE] + bytes)[1..] == bytes;
  }

  // ----- unpairing -----

  const UNPAIRING := D.EmitterDoes(Phone([CMD_UNPAIR_VEST]))

  /** The unpair command reaches the vest before the emitter drops the link: the vest forgets its binding, its
      friends and its hit. */
  lemma UnpairReachesVest(s: D.System)
    requires D.Safe(s) && s.linked && s.e.vestReady && s.down == []
    ensures D.Enabled(s, UNPAIRING)
    ensures var s1 := D.Step(s, UNPAIRING);
            && D.Safe(s1) && D.Enabled(s1, D.DeliverDown)
            && var v := D.Step(s1, D.DeliverDown).v;
            v.state == V.Unpaired && !v.pairing.paired && !v.pairing.pending && v.friends.count == 0 && !v.hit.pending
    ensures Reported(s.e, Phone([CMD_UNPAIR_VEST])).dropVest
  {
    D.StepIsSafe(s, UNPAIRING);
    assert D.Tagged([[VEST_CMD_UNPAIR]], None) == [D.Down([VEST_CMD_UNPAIR], None)];
  }

  /** No other event drops the vest. */
  lemma OnlyUnpairDrops(e: Emitter, ev: Event)
    requires Shape(e) && EmitterRuns.Enabled(e, ev)
    ensures Reported(e, ev).dropVest <==> ev.Phone? && |ev.data| > 0 && ev.data[0] == CMD_UNPAIR_VEST
  {
  }
}
