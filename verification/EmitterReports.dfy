/** What the emitter tells the phone and the mesh at each event, and when it drops the vest's link. */
module EmitterReports {
  import opened Bytes
  import opened Emitter
  import opened GameConfig
  import opened GameState
  import opened Protocol

  /** The mesh broadcasts of the emitter, without the location fields. */
  datatype Mesh = Raw(frame: seq<byte>)
    | LobbyAnnounce(code: nat, gameMode: byte, host: seq<byte>)
    | LobbyJoin(code: nat, player: byte, name: seq<byte>)
    | LobbyState(roster: seq<byte>)
    | GameStart(config: seq<byte>)
    | PlayerState(player: byte, team: byte, health: byte, ammoPct: byte, alive: bool, kills: u16, deaths: u16)
    | HitEvent(shooter: byte, target: byte, damage: byte, health: byte)
    | PlayerDeath(player: byte, killer: byte, kills: u16, deaths: u16)
    | Scoreboard(numTeams: nat, teamIds: seq<byte>, teamKills: seq<u16>)
    | PlayerRespawn(player: byte)

  datatype Report = Report(phone: seq<seq<byte>>, mesh: seq<Mesh>, dropVest: bool)

  const SILENT := Report([], [], false)

  function Tell(msg: seq<byte>): Report { Report([msg], [], false) }

  function Ack(opcode: byte): Report { Tell([opcode]) }

  function StateUpdate(g: Game): seq<byte> {
    [RSP_STATE_UPDATE, g.health] + PutLe16(g.mag) + PutLe16(g.reserve)
  }

  /** A byte string up to its first zero. */
  function CString(s: seq<byte>): seq<byte> {
    if |s| == 0 || s[0] == 0 then [] else [s[0]] + CString(s[1..])
  }

  // ----- hits -----

  /** A hit applied to the player: the new state, the hit, and the death if it was one. */
  function DamageReport(e: Emitter, shooter: byte): Report {
    var (g, died) := ApplyHit(e.game, e.game.cfg.damage);
    var hit := HitEvent(shooter, e.setup.playerId, e.game.cfg.damage, g.health);
    if died then
      Report([StateUpdate(g), [RSP_DEATH_NOTIFY, shooter]],
             [hit, PlayerDeath(e.setup.playerId, shooter, g.kills, g.deaths)], false)
    else Report([StateUpdate(g)], [hit], false)
  }

  function HitReport(e: Emitter, id: u16, shooter: byte): Report {
    if e.mode == GameActive && id !in e.window then DamageReport(e, shooter) else SILENT
  }

  function NotifyReport(e: Emitter, data: seq<byte>): Report {
    if |data| < HIT_PAYLOAD_SIZE then SILENT else HitReport(e, GetLe16(data[0], data[1]), data[2])
  }

  // ----- games -----

  /** A game started from a configuration reports the new state. */
  function StartReport(e: Emitter, cfg: seq<byte>): Report
    requires Shape(e)
  {
    Tell(StateUpdate(StartGameLocal(e, cfg).0.game))
  }

  function MeshStartReport(e: Emitter, cfg: seq<byte>): Report
    requires Shape(e)
  {
    if e.mode == GameActive || e.mode == Dead then SILENT else StartReport(e, cfg)
  }

  /** The host passes the configuration on to the mesh as it stored it. */
  function HostReport(e: Emitter, cfg: seq<byte>): Report
    requires Shape(e)
  {
    var e' := StartGameLocal(e, cfg).0;
    Report([StateUpdate(e'.game), [RSP_GAME_CFG_ACK]],
           [GameStart(e'.raw[..if |cfg| > RAW_SIZE then RAW_SIZE else |cfg|])], false)
  }

  function RespawnReport(e: Emitter): Report {
    if e.mode != Dead then SILENT
    else Report([[RSP_RESPAWN_ACK], StateUpdate(Respawn(e.game))], [PlayerRespawn(e.setup.playerId)], false)
  }

  // ----- phone commands -----

  function GameCommandReport(e: Emitter, data: seq<byte>): Report
    requires Shape(e) && |data| > 0
  {
    if data[0] == CMD_START then Report([[RSP_START_ACK], StateUpdate(StartGame(e.game))], [], false)
    else if data[0] == CMD_BROADCAST_GAME_CFG then
      if |data| > 1 then HostReport(e.(timers := e.timers.(announce := false)), data[1..]) else SILENT
    else if data[0] == CMD_GAME_OVER then Ack(RSP_GAME_OVER_ACK)
    else if data[0] == CMD_RESPAWN then RespawnReport(e)
    else SILENT
  }

  function AmmoReport(e: Emitter, data: seq<byte>): Report {
    if e.mode == GameActive && |data| >= 3 then
      Report([[RSP_AMMO_ACK], StateUpdate(AddAmmo(e.game, GetLe16(data[1], data[2])))], [], false)
    else SILENT
  }

  /** Commands that are passed on to the mesh. */
  function RelayedReport(data: seq<byte>): Report
    requires |data| > 0
  {
    if data[0] == CMD_BROADCAST_CODED_PHY then
      if |data| > 1 then Report([[RSP_BROADCAST_ACK]], [Raw(data[1..])], false) else SILENT
    else if data[0] == CMD_BROADCAST_LOBBY_JOIN then
      if |data| >= 6 then
        Report([], [LobbyJoin(GetLe32(data[1], data[2], data[3], data[4]), data[5], CString(NameFrom(data, 6)))], false)
      else SILENT
    else if data[0] == CMD_BROADCAST_LOBBY_STATE then
      if |data| > 1 then Report([], [LobbyState(data[1..])], false) else SILENT
    else SILENT
  }

  function OtherReport(e: Emitter, data: seq<byte>): Report
    requires |data| > 0
  {
    if data[0] == CMD_CONFIG then (if |data| >= 1 + CONFIG_SIZE then Ack(RSP_CONFIG_ACK) else SILENT)
    else if data[0] == CMD_AMMO_INCREASE then AmmoReport(e, data)
    else if data[0] == CMD_SET_PLAYER_INFO then (if |data| >= 3 then Ack(RSP_PLAYER_INFO_ACK) else SILENT)
    else if data[0] == CMD_START_LOBBY_HOST then (if |data| >= 7 then Ack(RSP_LOBBY_HOST_ACK) else SILENT)
    else if data[0] == CMD_START_LOBBY_SCAN then Ack(RSP_LOBBY_SCAN_ACK)
    else if data[0] == CMD_UPDATE_LOCATION then (if |data| >= 11 then Ack(RSP_LOCATION_ACK) else SILENT)
    else if data[0] == CMD_REQUEST_MESH_STATS then Ack(RSP_MESH_STATS_ACK)
    else if data[0] == CMD_ENTER_PAIRING then Ack(RSP_PAIRING_ACK)
    else RelayedReport(data)
  }

  function PhoneReport(e: Emitter, data: seq<byte>): Report
    requires Shape(e)
  {
    if |data| == 0 then SILENT
    else if IsGameCommand(data[0]) then GameCommandReport(e, data)
    else if data[0] == CMD_UNPAIR_VEST then Report([], [], true)
    else OtherReport(e, data)
  }

  // ----- work items -----

  function ReloadReport(e: Emitter): Report { Tell(StateUpdate(CompleteReload(e.game))) }

  function AnnounceReport(e: Emitter): Report {
    if e.mode == LobbyHost then
      Report([], [LobbyAnnounce(e.lobby.code, e.lobby.gameMode, CString(e.lobby.username))], false)
    else SILENT
  }

  function Percent(rounds: nat, total: nat): byte {
    if total > 0 then U8(rounds * 100 / total) else 0
  }

  /** The rounds left as a percentage of the configured ammunition, in eight bits. */
  function AmmoPct(g: Game): byte {
    Percent(g.mag + g.reserve, g.cfg.initialTotalAmmo)
  }

  function PlayerStateReport(e: Emitter): Report {
    if e.mode == GameActive then
      Report([], [PlayerState(e.setup.playerId, e.setup.teamId, e.game.health, AmmoPct(e.game), e.game.alive,
                              e.game.kills, e.game.deaths)], false)
    else SILENT
  }

  function ScoreboardReport(e: Emitter): Report {
    if e.mode == GameActive || e.mode == Dead then
      Report([], [Scoreboard(e.setup.numTeams, e.setup.teamIds, e.setup.teamKills)], false)
    else SILENT
  }

  function TriggerReport(e: Emitter, pressed: bool, nowMs: int): Report {
    if Shoots(e, pressed, nowMs) then Tell(StateUpdate(TryFire(e.game, nowMs).0)) else SILENT
  }
}
