/** The emitter: phone commands, vest hits, mesh game starts and the delayed work items of the game. */
module Emitter {
  import opened Bytes
  import opened GameState
  import opened GameConfig
  import opened Protocol
  import DedupRing

  const HIT_DEDUP_SIZE := 16

  datatype Mode = Idle | Pairing | LobbyHost | LobbyScan | GameActive | Dead

  /** Which delayed work items are scheduled. */
  datatype Timers = Timers(playerState: bool, scoreboard: bool, reload: bool, announce: bool)

  /** What the lobby announces, and the local player's name. */
  datatype Lobby = Lobby(code: nat, gameMode: byte, hostId: byte, username: seq<byte>)

  /** `window` holds the ids of the last 16 hits accepted, `raw` the buffer of the last game
      configuration; `vestReady` means commands can be written to the vest. */
  datatype Emitter = Emitter(mode: Mode, game: Game, setup: Setup, window: seq<u16>, raw: seq<byte>,
                             timers: Timers, triggerReady: bool, vestReady: bool, lobby: Lobby)

  /** The configuration is one variable, seen by the game state and by the parser. */
  predicate Shape(e: Emitter) {
    && |e.raw| == RAW_SIZE && e.setup.cfg == e.game.cfg && |e.setup.friendlies| <= MAX_PLAYERS
  }

  // ----- commands to the vest -----

  function HitAck(id: u16): seq<byte> { [VEST_CMD_HIT_ACK] + PutLe16(id) }

  function FriendlyListCmd(ids: seq<byte>): seq<byte>
    requires |ids| <= MAX_PLAYERS
  {
    [VEST_CMD_FRIENDLY_LIST, |ids|] + ids
  }

  function FriendlyFireCmd(enabled: byte): seq<byte> { [VEST_CMD_FRIENDLY_FIRE, enabled] }

  const DEATH: seq<byte> := [VEST_CMD_DEATH]
  const RESPAWN: seq<byte> := [VEST_CMD_RESPAWN]
  const UNPAIR: seq<byte> := [VEST_CMD_UNPAIR]

  /** What reaches the link: nothing is written while the vest's command characteristic is unknown. */
  function Writes(e: Emitter, cmds: seq<seq<byte>>): seq<seq<byte>> {
    if e.vestReady then cmds else []
  }

  function GameSetup(e: Emitter): seq<seq<byte>>
    requires Shape(e)
  {
    Writes(e, [FriendlyListCmd(e.setup.friendlies), FriendlyFireCmd(e.game.cfg.friendlyFire)])
  }

  // ----- hits -----

  function Die(e: Emitter): Emitter {
    e.(mode := Dead, timers := e.timers.(playerState := false, scoreboard := false))
  }

  /** A hit accepted for the first time. */
  function TakeDamage(e: Emitter): (Emitter, seq<seq<byte>>) {
    var (game, died) := ApplyHit(e.game, e.game.cfg.damage);
    if died then (Die(e.(game := game)), Writes(e, [DEATH])) else (e.(game := game), [])
  }

  function OnVestHit(e: Emitter, id: u16): (Emitter, seq<seq<byte>>) {
    if e.mode != GameActive && e.mode != Dead then (e, [])
    else
      var ack := Writes(e, [HitAck(id)]);
      var e1 := e.(window := DedupRing.Arrive(e.window, id, HIT_DEDUP_SIZE));
      if id in e.window || e.mode != GameActive then (e1, ack)
      else
        var (e2, more) := TakeDamage(e1);
        (e2, ack + more)
  }

  /** A notification from the vest. */
  function OnNotify(e: Emitter, data: seq<byte>): (Emitter, seq<seq<byte>>) {
    if |data| < HIT_PAYLOAD_SIZE then (e, []) else OnVestHit(e, GetLe16(data[0], data[1]))
  }

  // ----- starting a game -----

  function BeginGame(e: Emitter): Emitter {
    e.(game := StartGame(e.game), mode := GameActive, timers := e.timers.(playerState := true, scoreboard := true))
  }

  function StoreRaw(raw: seq<byte>, cfg: seq<byte>): (r: seq<byte>)
    requires |raw| == RAW_SIZE
    ensures |r| == RAW_SIZE
  {
    var len := if |cfg| > RAW_SIZE then RAW_SIZE else |cfg|;
    cfg[..len] + raw[len..]
  }

  function ApplyConfigBlob(e: Emitter, cfg: seq<byte>): Emitter
    requires Shape(e)
  {
    var raw := StoreRaw(e.raw, cfg);
    var setup := ApplyBlob(e.setup, raw, if |cfg| > RAW_SIZE then RAW_SIZE else |cfg|);
    e.(raw := raw, setup := setup, game := SetConfig(e.game, setup.cfg))
  }

  lemma BlobKeepsShape(s: Setup, raw: seq<byte>, len: nat)
    requires |raw| == RAW_SIZE && len <= RAW_SIZE && |s.friendlies| <= MAX_PLAYERS
    ensures |ApplyBlob(s, raw, len).friendlies| <= MAX_PLAYERS
  {
  }

  function StartGameLocal(e: Emitter, cfg: seq<byte>): (r: (Emitter, seq<seq<byte>>))
    requires Shape(e)
    ensures Shape(r.0)
  {
    BlobKeepsShape(e.setup, StoreRaw(e.raw, cfg), if |cfg| > RAW_SIZE then RAW_SIZE else |cfg|);
    var e' := BeginGame(ApplyConfigBlob(e, cfg));
    (e', GameSetup(e'))
  }

  /** The end of the lobby: no more announcements, and the game starts here. */
  function OnHostStart(e: Emitter, cfg: seq<byte>): (r: (Emitter, seq<seq<byte>>))
    requires Shape(e)
    ensures Shape(r.0)
  {
    StartGameLocal(e.(timers := e.timers.(announce := false)), cfg)
  }

  /** A peer's game start: joins unless a game is running or the player is dead in it. */
  function OnMeshGameStart(e: Emitter, cfg: seq<byte>): (r: (Emitter, seq<seq<byte>>))
    requires Shape(e)
    ensures Shape(r.0)
  {
    if e.mode == GameActive || e.mode == Dead then (e, [])
    else OnHostStart(e, cfg)
  }

  // ----- phone commands -----

  function Configured(e: Emitter, cfg: Config): Emitter {
    e.(game := SetConfig(e.game, cfg), setup := e.setup.(cfg := cfg))
  }

  /** A name sent by the phone: its length is computed in eight bits and capped at sixteen. */
  function NameFrom(data: seq<byte>, start: nat): (name: seq<byte>)
    requires start <= |data|
    ensures |name| <= MAX_USERNAME_LEN
  {
    var len := U8(|data| - start);
    data[start..start + if len > MAX_USERNAME_LEN then MAX_USERNAME_LEN else len]
  }

  function SetPlayer(e: Emitter, data: seq<byte>): Emitter
    requires |data| >= 3
  {
    e.(setup := e.setup.(playerId := data[1], teamId := data[2], meshPlayer := data[1], meshTeam := data[2]),
       lobby := e.lobby.(username := NameFrom(data, 3)))
  }

  function HostLobby(e: Emitter, data: seq<byte>): Emitter
    requires |data| >= 7
  {
    e.(lobby := e.lobby.(code := GetLe32(data[1], data[2], data[3], data[4]), gameMode := data[5], hostId := data[6]),
       mode := LobbyHost, timers := e.timers.(announce := true))
  }

  function GameOver(e: Emitter): Emitter {
    e.(mode := Idle, timers := e.timers.(playerState := false, scoreboard := false, reload := false))
  }

  function OnRespawn(e: Emitter): (Emitter, seq<seq<byte>>) {
    if e.mode != Dead then (e, [])
    else
      (e.(game := Respawn(e.game), mode := GameActive, timers := e.timers.(playerState := true, scoreboard := true)),
       Writes(e, [RESPAWN]))
  }

  function OnReload(e: Emitter): Emitter {
    if e.mode != GameActive then e
    else
      var (game, started) := StartReload(e.game);
      e.(game := game, timers := if started then e.timers.(reload := true) else e.timers)
  }

  function OnAmmo(e: Emitter, data: seq<byte>): Emitter {
    if e.mode == GameActive && |data| >= 3 then e.(game := AddAmmo(e.game, GetLe16(data[1], data[2]))) else e
  }

  /** Commands that start or end a game or a life. */
  function OnGameCommand(e: Emitter, data: seq<byte>): (r: (Emitter, seq<seq<byte>>))
    requires Shape(e) && |data| > 0
    ensures Shape(r.0)
  {
    if data[0] == CMD_START then (BeginGame(e), GameSetup(BeginGame(e)))
    else if data[0] == CMD_BROADCAST_GAME_CFG then
      if |data| > 1 then OnHostStart(e, data[1..]) else (e, [])
    else if data[0] == CMD_GAME_OVER then (GameOver(e), [])
    else if data[0] == CMD_RESPAWN then OnRespawn(e)
    else (e, [])
  }

  /** Commands that only change settings, ammunition or the lobby. */
  function OnOtherCommand(e: Emitter, data: seq<byte>): (r: Emitter)
    requires Shape(e) && |data| > 0
    ensures Shape(r)
  {
    if data[0] == CMD_CONFIG then
      if |data| >= 1 + CONFIG_SIZE then Configured(e, ParseConfig(data[1..])) else e
    else if data[0] == CMD_AMMO_INCREASE then OnAmmo(e, data)
    else if data[0] == CMD_SET_PLAYER_INFO then
      if |data| >= 3 then SetPlayer(e, data) else e
    else if data[0] == CMD_START_LOBBY_HOST then
      if |data| >= 7 then HostLobby(e, data) else e
    else if data[0] == CMD_START_LOBBY_SCAN then e.(mode := LobbyScan)
    else if data[0] == CMD_STOP_LOBBY then e.(mode := Idle, timers := e.timers.(announce := false))
    else if data[0] == CMD_ENTER_PAIRING then e.(mode := Pairing)
    else if data[0] == CMD_RELOAD then OnReload(e)
    else e
  }

  predicate IsGameCommand(opcode: byte) {
    opcode == CMD_START || opcode == CMD_BROADCAST_GAME_CFG || opcode == CMD_GAME_OVER || opcode == CMD_RESPAWN
  }

  function OnPhone(e: Emitter, data: seq<byte>): (r: (Emitter, seq<seq<byte>>))
    requires Shape(e)
    ensures Shape(r.0)
  {
    if |data| == 0 then (e, [])
    else if IsGameCommand(data[0]) then OnGameCommand(e, data)
    else if data[0] == CMD_UNPAIR_VEST then (e, Writes(e, [UNPAIR]))
    else (OnOtherCommand(e, data), [])
  }

  // ----- work items -----

  function OnReloadDone(e: Emitter): Emitter {
    e.(timers := e.timers.(reload := false), game := CompleteReload(e.game))
  }

  function OnAnnounce(e: Emitter): Emitter {
    e.(timers := e.timers.(announce := e.mode == LobbyHost))
  }

  function OnPlayerState(e: Emitter): Emitter {
    e.(timers := e.timers.(playerState := e.mode == GameActive))
  }

  function OnScoreboard(e: Emitter): Emitter {
    e.(timers := e.timers.(scoreboard := e.mode == GameActive || e.mode == Dead))
  }

  predicate Shoots(e: Emitter, pressed: bool, nowMs: int) {
    && pressed && e.mode == GameActive && !e.game.reloading && e.game.mag != 0
    && (e.game.cfg.fullAuto != 0 || e.triggerReady)
    && MayFire(e.game, nowMs)
  }

  /** What the trigger handler schedules besides changing the state: pairing frames, another try after
      the fire-rate interval, or a shot, which a fully automatic weapon with rounds left repeats. */
  datatype TriggerAction = Nothing | PairingFrames | TryAgain | Shot(again: bool)

  function TriggerSchedules(e: Emitter, pressed: bool, nowMs: int): TriggerAction {
    if !pressed then Nothing
    else if e.mode == Pairing then PairingFrames
    else if e.mode != GameActive || e.game.reloading || e.game.mag == 0
         || (e.game.cfg.fullAuto == 0 && !e.triggerReady) then Nothing
    else if Shoots(e, pressed, nowMs) then Shot(e.game.cfg.fullAuto != 0 && e.game.mag > 1)
    else TryAgain
  }

  /** The debounced trigger; a semi-automatic weapon fires again only after a release. */
  function OnTrigger(e: Emitter, pressed: bool, nowMs: int): Emitter {
    if !pressed then e.(triggerReady := true)
    else if Shoots(e, pressed, nowMs) then e.(game := TryFire(e.game, nowMs).0, triggerReady := false)
    else e
  }

  function PowerOn(saved: Config): (e: Emitter)
    ensures Shape(e)
  {
    Emitter(Idle, SetConfig(INITIAL, saved),
            Setup(0, 0, 0, 0, 0, seq(MAX_TEAMS, _ => 0), seq(MAX_TEAMS, _ => 0), [], saved),
            [], seq(RAW_SIZE, _ => 0), Timers(false, false, false, false), true, false,
            Lobby(0, 0, 0, []))
  }
}
