/** The emitter's program: the static variables of its main file and the handlers that change them. */
module EmitterProgram {
  import opened Bytes
  import opened Emitter
  import opened EmitterReports
  import opened GameConfig
  import opened GameState
  import opened Protocol
  import DedupRing

  class EmitterStore {
    var currentState: Mode
    var game: GameStore
    var setup: SetupStore
    var hitDedup: DedupRing.Ring<u16>
    var gameConfigRaw: array<byte>
    var playerStateScheduled: bool
    var scoreboardScheduled: bool
    var reloadScheduled: bool
    var announceScheduled: bool
    var triggerReady: bool
    var vestReady: bool
    var lobbyCode: nat
    var lobbyGameMode: byte
    var lobbyHostId: byte
    var username: seq<byte>

    ghost predicate Valid()
      reads this, setup, hitDedup, hitDedup.entries
    {
      && setup.Valid() && setup.game == game
      && hitDedup.Valid() && hitDedup.entries.Length == HIT_DEDUP_SIZE
      && gameConfigRaw.Length == RAW_SIZE && gameConfigRaw != setup.teamIds && gameConfigRaw != setup.friendlyIds
    }

    ghost function AbsTimers(): Timers
      reads this
    {
      Timers(playerStateScheduled, scoreboardScheduled, reloadScheduled, announceScheduled)
    }

    ghost function AbsLobby(): Lobby
      reads this
    {
      Lobby(lobbyCode, lobbyGameMode, lobbyHostId, username)
    }

    ghost function Repr(): set<object>
      reads this, setup, hitDedup
    {
      {this, game, setup, setup.teamIds, setup.teamKills, setup.friendlyIds, hitDedup, hitDedup.entries, gameConfigRaw}
    }

    ghost function Abs(): (e: Emitter)
      requires Valid()
      reads this, setup, hitDedup, hitDedup.entries, Repr()
      ensures Shape(e)
    {
      Emitter(currentState, game.Abs(), setup.Abs(), hitDedup.window, gameConfigRaw[..], AbsTimers(),
              triggerReady, vestReady, AbsLobby())
    }

    constructor (saved: Config)
      ensures Valid() && Abs() == PowerOn(saved)
    {
      var g := new GameStore();
      g.Configure(saved);
      game := g;
      setup := new SetupStore(g);
      hitDedup := new DedupRing.Ring<u16>(HIT_DEDUP_SIZE);
      gameConfigRaw := new byte[RAW_SIZE](_ => 0);
      currentState := Idle;
      playerStateScheduled, scoreboardScheduled, reloadScheduled, announceScheduled := false, false, false, false;
      triggerReady, vestReady := true, false;
      lobbyCode, lobbyGameMode, lobbyHostId, username := 0, 0, 0, [];
      new;
      assert gameConfigRaw[..] == seq(RAW_SIZE, _ => 0);
    }

    // --- the vest's link ---

    method VestWrite(cmd: seq<byte>) returns (out: seq<seq<byte>>)
      requires Valid()
      ensures out == Writes(Abs(), [cmd])
    {
      return if vestReady then [cmd] else [];
    }

    method HitNotified(data: seq<byte>) returns (out: seq<seq<byte>>, report: Report)
      requires Valid()
      modifies this, game, hitDedup`next, hitDedup`window, hitDedup.entries
      ensures Valid() && (Abs(), out) == OnNotify(old(Abs()), data) && report == NotifyReport(old(Abs()), data)
    {
      if |data| < HIT_PAYLOAD_SIZE {
        return [], SILENT;
      }
      out, report := VestHit(GetLe16(data[0], data[1]), data[2]);
    }

    method VestHit(id: u16, shooterId: byte) returns (out: seq<seq<byte>>, report: Report)
      requires Valid()
      modifies this, game, hitDedup`next, hitDedup`window, hitDedup.entries
      ensures Valid() && (Abs(), out) == OnVestHit(old(Abs()), id) && report == HitReport(old(Abs()), id, shooterId)
    {
      report := SILENT;
      if currentState != GameActive && currentState != Dead {
        out := [];
        return;
      }
      out := VestWrite(HitAck(id));
      var duplicate := hitDedup.CheckAndInsert(id);
      if duplicate {
        return;
      }
      if currentState != GameActive {
        return;
      }
      var more;
      more, report := Damage(shooterId);
      out := out + more;
    }

    method Damage(shooterId: byte) returns (out: seq<seq<byte>>, report: Report)
      requires Valid()
      modifies this`currentState, this`playerStateScheduled, this`scoreboardScheduled, game
      ensures Valid() && (Abs(), out) == TakeDamage(old(Abs())) && report == DamageReport(old(Abs()), shooterId)
    {
      var damage := game.cfg.damage;
      var died := game.Hit(damage);
      var update := StateUpdate(game.Abs());
      var hit := HitEvent(shooterId, setup.playerId, damage, game.health);
      if !died {
        return [], Report([update], [hit], false);
      }
      out := Fall();
      report := Report([update, [RSP_DEATH_NOTIFY, shooterId]],
                       [hit, PlayerDeath(setup.playerId, shooterId, game.kills, game.deaths)], false);
    }

    /** The player dies. */
    method Fall() returns (out: seq<seq<byte>>)
      requires Valid()
      modifies this`currentState, this`playerStateScheduled, this`scoreboardScheduled
      ensures Valid() && Abs() == Die(old(Abs())) && out == Writes(old(Abs()), [DEATH])
    {
      currentState := Dead;
      out := VestWrite(DEATH);
      playerStateScheduled := false;
      scoreboardScheduled := false;
    }

    // --- starting a game ---

    method SendGameSetup() returns (out: seq<seq<byte>>)
      requires Valid()
      ensures out == GameSetup(Abs())
    {
      if !vestReady {
        return [];
      }
      var list := VestWrite(FriendlyListCmd(setup.friendlyIds[..setup.friendlyCount]));
      var fire := VestWrite(FriendlyFireCmd(game.cfg.friendlyFire));
      return list + fire;
    }

    method Activate()
      modifies this`currentState, this`playerStateScheduled, this`scoreboardScheduled
      ensures currentState == GameActive
      ensures AbsTimers() == old(AbsTimers()).(playerState := true, scoreboard := true)
    {
      currentState := GameActive;
      playerStateScheduled := true;
      scoreboardScheduled := true;
    }

    method StartNow()
      requires Valid()
      modifies this`currentState, this`playerStateScheduled, this`scoreboardScheduled, game
      ensures Valid() && Abs() == BeginGame(old(Abs()))
    {
      game.Start();
      Activate();
    }

    method CopyRaw(cfg: seq<byte>) returns (len: nat)
      requires gameConfigRaw.Length == RAW_SIZE
      modifies gameConfigRaw
      ensures len == if |cfg| > RAW_SIZE then RAW_SIZE else |cfg|
      ensures gameConfigRaw[..] == StoreRaw(old(gameConfigRaw[..]), cfg)
    {
      len := if |cfg| > RAW_SIZE then RAW_SIZE else |cfg|;
      forall i | 0 <= i < len {
        gameConfigRaw[i] := cfg[i];
      }
      assert gameConfigRaw[..] == cfg[..len] + old(gameConfigRaw[..])[len..];
    }

    method ApplyConfig(cfg: seq<byte>)
      requires Valid()
      modifies setup`numTeams, setup`teamId, setup`meshPlayer, setup`meshTeam, setup`friendlyCount
      modifies setup.teamIds, setup.teamKills, setup.friendlyIds, game`cfg, gameConfigRaw
      ensures Valid() && Abs() == ApplyConfigBlob(old(Abs()), cfg)
    {
      var len := CopyRaw(cfg);
      setup.ApplyGameConfig(gameConfigRaw, len);
    }

    method StartLocal(cfg: seq<byte>) returns (out: seq<seq<byte>>, report: Report)
      requires Valid()
      modifies this`currentState, this`playerStateScheduled, this`scoreboardScheduled, game
      modifies setup`numTeams, setup`teamId, setup`meshPlayer, setup`meshTeam, setup`friendlyCount
      modifies setup.teamIds, setup.teamKills, setup.friendlyIds, gameConfigRaw
      ensures Valid() && (Abs(), out) == StartGameLocal(old(Abs()), cfg) && report == StartReport(old(Abs()), cfg)
    {
      ApplyConfig(cfg);
      StartNow();
      out := SendGameSetup();
      report := Tell(StateUpdate(game.Abs()));
    }

    method MeshGameStart(cfg: seq<byte>) returns (out: seq<seq<byte>>, report: Report)
      requires Valid()
      modifies this, game
      modifies setup`numTeams, setup`teamId, setup`meshPlayer, setup`meshTeam, setup`friendlyCount
      modifies setup.teamIds, setup.teamKills, setup.friendlyIds, gameConfigRaw
      ensures Valid() && (Abs(), out) == OnMeshGameStart(old(Abs()), cfg) && report == MeshStartReport(old(Abs()), cfg)
    {
      if currentState == GameActive || currentState == Dead {
        return [], SILENT;
      }
      out, report := LeaveLobbyAndStart(cfg);
    }

    // --- phone commands ---

    method PhoneRx(data: seq<byte>) returns (out: seq<seq<byte>>, report: Report)
      requires Valid()
      modifies this, game, setup
      modifies setup.teamIds, setup.teamKills, setup.friendlyIds, gameConfigRaw
      ensures Valid() && (Abs(), out) == OnPhone(old(Abs()), data) && report == PhoneReport(old(Abs()), data)
    {
      out, report := [], SILENT;
      if |data| == 0 {
        return;
      }
      if IsGameCommand(data[0]) {
        out, report := GameCommand(data);
      } else if data[0] == CMD_UNPAIR_VEST {
        out := VestWrite(UNPAIR);
        report := Report([], [], true);
      } else {
        report := OtherCommand(data);
      }
    }

    method GameCommand(data: seq<byte>) returns (out: seq<seq<byte>>, report: Report)
      requires Valid() && |data| > 0
      modifies this, game
      modifies setup`numTeams, setup`teamId, setup`meshPlayer, setup`meshTeam, setup`friendlyCount
      modifies setup.teamIds, setup.teamKills, setup.friendlyIds, gameConfigRaw
      ensures Valid() && (Abs(), out) == OnGameCommand(old(Abs()), data)
      ensures report == GameCommandReport(old(Abs()), data)
    {
      out, report := [], SILENT;
      if data[0] == CMD_START {
        out, report := StartCommand();
      } else if data[0] == CMD_BROADCAST_GAME_CFG {
        if |data| > 1 {
          out, report := HostStart(data[1..]);
        }
      } else if data[0] == CMD_GAME_OVER {
        EndGame();
        report := Ack(RSP_GAME_OVER_ACK);
      } else if data[0] == CMD_RESPAWN {
        out, report := ComeBack();
      }
    }

    method StartCommand() returns (out: seq<seq<byte>>, report: Report)
      requires Valid()
      modifies this`currentState, this`playerStateScheduled, this`scoreboardScheduled, game
      ensures Valid() && Abs() == BeginGame(old(Abs())) && out == GameSetup(Abs())
      ensures report == Report([[RSP_START_ACK], StateUpdate(StartGame(old(Abs().game)))], [], false)
    {
      StartNow();
      out := SendGameSetup();
      report := Report([[RSP_START_ACK], StateUpdate(game.Abs())], [], false);
    }

    method LeaveLobbyAndStart(cfg: seq<byte>) returns (out: seq<seq<byte>>, report: Report)
      requires Valid()
      modifies this, game
      modifies setup`numTeams, setup`teamId, setup`meshPlayer, setup`meshTeam, setup`friendlyCount
      modifies setup.teamIds, setup.teamKills, setup.friendlyIds, gameConfigRaw
      ensures Valid() && (Abs(), out) == OnHostStart(old(Abs()), cfg)
      ensures report == StartReport(old(Abs().(timers := AbsTimers().(announce := false))), cfg)
      ensures gameConfigRaw == old(gameConfigRaw)
    {
      announceScheduled := false;
      out, report := StartLocal(cfg);
    }

    /** The host's game start, which is also broadcast. */
    method HostStart(cfg: seq<byte>) returns (out: seq<seq<byte>>, report: Report)
      requires Valid()
      modifies this, game
      modifies setup`numTeams, setup`teamId, setup`meshPlayer, setup`meshTeam, setup`friendlyCount
      modifies setup.teamIds, setup.teamKills, setup.friendlyIds, gameConfigRaw
      ensures Valid() && (Abs(), out) == OnHostStart(old(Abs()), cfg)
      ensures report == HostReport(old(Abs().(timers := AbsTimers().(announce := false))), cfg)
    {
      out, report := LeaveLobbyAndStart(cfg);
      var len := if |cfg| > RAW_SIZE then RAW_SIZE else |cfg|;
      report := Report(report.phone + [[RSP_GAME_CFG_ACK]], [GameStart(gameConfigRaw[..len])], false);
      assert gameConfigRaw[..][..len] == gameConfigRaw[..len];
    }

    method EndGame()
      requires Valid()
      modifies this`currentState, this`playerStateScheduled, this`scoreboardScheduled, this`reloadScheduled
      ensures currentState == Idle && AbsTimers() == GameOver(old(Abs())).timers
    {
      playerStateScheduled := false;
      scoreboardScheduled := false;
      reloadScheduled := false;
      currentState := Idle;
    }

    method ComeBack() returns (out: seq<seq<byte>>, report: Report)
      requires Valid()
      modifies this`currentState, this`playerStateScheduled, this`scoreboardScheduled, game
      ensures Valid() && (Abs(), out) == OnRespawn(old(Abs())) && report == RespawnReport(old(Abs()))
    {
      if currentState != Dead {
        return [], SILENT;
      }
      game.Revive();
      Activate();
      out := VestWrite(RESPAWN);
      report := Report([[RSP_RESPAWN_ACK], StateUpdate(game.Abs())], [PlayerRespawn(setup.playerId)], false);
    }

    method OtherCommand(data: seq<byte>) returns (report: Report)
      requires Valid() && |data| > 0
      modifies this`currentState, this`announceScheduled, this`reloadScheduled
      modifies this`lobbyCode, this`lobbyGameMode, this`lobbyHostId, this`username, game
      modifies setup`playerId, setup`teamId, setup`meshPlayer, setup`meshTeam
      ensures Valid() && Abs() == OnOtherCommand(old(Abs()), data) && report == OtherReport(old(Abs()), data)
    {
      report := SILENT;
      if data[0] == CMD_CONFIG {
        if |data| >= 1 + CONFIG_SIZE {
          game.Configure(ParseConfig(data[1..]));
          report := Ack(RSP_CONFIG_ACK);
        }
      } else if data[0] == CMD_AMMO_INCREASE {
        report := Ammo(data);
      } else if data[0] == CMD_SET_PLAYER_INFO {
        if |data| >= 3 {
          PlayerInfo(data);
          report := Ack(RSP_PLAYER_INFO_ACK);
        }
      } else if data[0] == CMD_RELOAD {
        Reload();
      } else {
        LobbyCommand(data);
        report := LobbyReport(data);
      }
    }

    method Ammo(data: seq<byte>) returns (report: Report)
      requires Valid()
      modifies game
      ensures Valid() && Abs() == OnAmmo(old(Abs()), data) && report == AmmoReport(old(Abs()), data)
    {
      if currentState == GameActive && |data| >= 3 {
        game.Resupply(GetLe16(data[1], data[2]));
        return Report([[RSP_AMMO_ACK], StateUpdate(game.Abs())], [], false);
      }
      return SILENT;
    }

    method PlayerInfo(data: seq<byte>)
      requires Valid() && |data| >= 3
      modifies this`username, setup`playerId, setup`teamId, setup`meshPlayer, setup`meshTeam
      ensures Valid() && Abs() == SetPlayer(old(Abs()), data)
    {
      setup.playerId, setup.teamId := data[1], data[2];
      var nameLen := U8(|data| - 3);
      if nameLen > MAX_USERNAME_LEN {
        nameLen := MAX_USERNAME_LEN;
      }
      username := data[3..3 + nameLen];
      setup.meshPlayer, setup.meshTeam := setup.playerId, setup.teamId;
    }

    method Reload()
      requires Valid()
      modifies this`reloadScheduled, game
      ensures Valid() && Abs() == OnReload(old(Abs()))
    {
      if currentState == GameActive {
        var started := game.BeginReload();
        if started {
          reloadScheduled := true;
        }
      }
    }

    predicate IsLobbyCommand(opcode: byte) {
      opcode != CMD_CONFIG && opcode != CMD_AMMO_INCREASE && opcode != CMD_SET_PLAYER_INFO && opcode != CMD_RELOAD
    }

    method LobbyCommand(data: seq<byte>)
      requires Valid() && |data| > 0 && IsLobbyCommand(data[0])
      modifies this`currentState, this`announceScheduled, this`lobbyCode, this`lobbyGameMode, this`lobbyHostId
      ensures Valid() && Abs() == OnOtherCommand(old(Abs()), data)
    {
      if data[0] == CMD_START_LOBBY_HOST {
        if |data| >= 7 {
          OpenLobby(data);
        }
      } else if data[0] == CMD_START_LOBBY_SCAN {
        currentState := LobbyScan;
      } else if data[0] == CMD_STOP_LOBBY {
        announceScheduled := false;
        currentState := Idle;
      } else if data[0] == CMD_ENTER_PAIRING {
        currentState := Pairing;
      }
    }

    method OpenLobby(data: seq<byte>)
      requires Valid() && |data| >= 7
      modifies this`currentState, this`announceScheduled, this`lobbyCode, this`lobbyGameMode, this`lobbyHostId
      ensures currentState == LobbyHost && AbsTimers() == old(AbsTimers()).(announce := true)
      ensures AbsLobby() == HostLobby(old(Abs()), data).lobby
    {
      lobbyCode := GetLe32(data[1], data[2], data[3], data[4]);
      lobbyGameMode := data[5];
      lobbyHostId := data[6];
      currentState := LobbyHost;
      announceScheduled := true;
    }

    method LobbyReport(data: seq<byte>) returns (report: Report)
      requires Valid() && |data| > 0 && IsLobbyCommand(data[0])
      ensures forall e :: report == OtherReport(e, data)
    {
      report := SILENT;
      if data[0] == CMD_START_LOBBY_HOST {
        if |data| >= 7 {
          report := Ack(RSP_LOBBY_HOST_ACK);
        }
      } else if data[0] == CMD_START_LOBBY_SCAN {
        report := Ack(RSP_LOBBY_SCAN_ACK);
      } else if data[0] == CMD_UPDATE_LOCATION {
        if |data| >= 11 {
          report := Ack(RSP_LOCATION_ACK);
        }
      } else if data[0] == CMD_REQUEST_MESH_STATS {
        report := Ack(RSP_MESH_STATS_ACK);
      } else if data[0] == CMD_ENTER_PAIRING {
        report := Ack(RSP_PAIRING_ACK);
      } else {
        report := RelayedReport(data);
      }
    }

    // --- work items ---

    method ReloadWork() returns (report: Report)
      requires Valid()
      modifies this`reloadScheduled, game
      ensures Valid() && Abs() == OnReloadDone(old(Abs())) && report == ReloadReport(old(Abs()))
    {
      reloadScheduled := false;
      game.FinishReload();
      report := Tell(StateUpdate(game.Abs()));
    }

    method LobbyAnnounceWork() returns (report: Report)
      requires Valid()
      modifies this`announceScheduled
      ensures Valid() && Abs() == OnAnnounce(old(Abs())) && report == AnnounceReport(old(Abs()))
    {
      announceScheduled := false;
      if currentState != LobbyHost {
        return SILENT;
      }
      report := Report([], [LobbyAnnounce(lobbyCode, lobbyGameMode, CString(username))], false);
      announceScheduled := true;
    }

    method PlayerStateWork() returns (report: Report)
      requires Valid()
      modifies this`playerStateScheduled
      ensures Valid() && Abs() == OnPlayerState(old(Abs())) && report == PlayerStateReport(old(Abs()))
    {
      playerStateScheduled := false;
      if currentState != GameActive {
        return SILENT;
      }
      report := Report([], [PlayerState(setup.playerId, setup.teamId, game.health, AmmoPct(game.Abs()), game.alive,
                                        game.kills, game.deaths)], false);
      playerStateScheduled := true;
    }

    method ScoreboardWork() returns (report: Report)
      requires Valid()
      modifies this`scoreboardScheduled
      ensures Valid() && Abs() == OnScoreboard(old(Abs())) && report == ScoreboardReport(old(Abs()))
    {
      scoreboardScheduled := false;
      if currentState != GameActive && currentState != Dead {
        return SILENT;
      }
      report := Report([], [Scoreboard(setup.numTeams, setup.teamIds[..], setup.teamKills[..])], false);
      scoreboardScheduled := true;
    }

    /** The results are what is reported and what is scheduled. */
    method TriggerWork(pressed: bool, nowMs: int) returns (report: Report, action: TriggerAction)
      requires Valid()
      modifies this`triggerReady, game
      ensures Valid() && Abs() == OnTrigger(old(Abs()), pressed, nowMs)
      ensures report == TriggerReport(old(Abs()), pressed, nowMs)
      ensures action == TriggerSchedules(old(Abs()), pressed, nowMs)
    {
      report := SILENT;
      if !pressed {
        triggerReady := true;
        return SILENT, Nothing;
      }
      if currentState == Pairing {
        return SILENT, PairingFrames;
      }
      if currentState != GameActive {
        return SILENT, Nothing;
      }
      if game.reloading {
        return SILENT, Nothing;
      }
      if game.magCurrent == 0 {
        return SILENT, Nothing;
      }
      if game.cfg.fullAuto == 0 && !triggerReady {
        return SILENT, Nothing;
      }
      var fired := game.Fire(nowMs);
      if !fired {
        return SILENT, TryAgain;
      }
      triggerReady := false;
      report := Tell(StateUpdate(game.Abs()));
      action := Shot(game.cfg.fullAuto != 0 && game.magCurrent > 0);
    }
  }
}
