/** The local player's game state: health, ammunition, reloading and the fire-rate gate. */
module GameState {
  import opened Bytes

  datatype Config = Config(userId: byte, damage: byte, magSize: u16, fireRateMs: u16, reloadSpeedMs: u16,
                           fullAuto: byte, ammoType: byte, initialTotalAmmo: u16, maxHealth: byte, friendlyFire: byte)

  const ZERO_CONFIG := Config(0, 0, 0, 0, 0, 0, 0, 0, 0, 0)

  datatype Game = Game(cfg: Config, health: byte, mag: u16, reserve: u16, alive: bool, reloading: bool,
                       lastShotMs: int, kills: u16, deaths: u16)

  const INITIAL := Game(ZERO_CONFIG, 0, 0, 0, false, false, 0, 0, 0)

  function StartingMag(cfg: Config): u16 {
    if cfg.initialTotalAmmo > cfg.magSize then cfg.magSize else cfg.initialTotalAmmo
  }

  function SetConfig(g: Game, cfg: Config): Game {
    g.(cfg := cfg)
  }

  function Respawn(g: Game): Game {
    g.(health := g.cfg.maxHealth, mag := StartingMag(g.cfg), reserve := g.cfg.initialTotalAmmo - StartingMag(g.cfg),
       alive := true, reloading := false)
  }

  function StartGame(g: Game): Game {
    Respawn(g).(lastShotMs := 0, kills := 0, deaths := 0)
  }

  predicate MayFire(g: Game, nowMs: int) {
    && g.alive && !g.reloading && g.mag > 0
    && !(g.lastShotMs > 0 && nowMs - g.lastShotMs < g.cfg.fireRateMs)
  }

  function TryFire(g: Game, nowMs: int): (Game, bool) {
    if MayFire(g, nowMs) then (g.(mag := g.mag - 1, lastShotMs := nowMs), true) else (g, false)
  }

  /** The flag tells whether the hit was fatal. */
  function ApplyHit(g: Game, damage: byte): (Game, bool) {
    if !g.alive then (g, false)
    else if damage >= g.health then (g.(health := 0, alive := false, deaths := U16(g.deaths + 1)), true)
    else (g.(health := g.health - damage), false)
  }

  function StartReload(g: Game): (Game, bool) {
    if g.reloading || g.mag == g.cfg.magSize || (g.reserve == 0 && g.mag > 0) then (g, false)
    else (g.(reloading := true), true)
  }

  function Transfer(g: Game): u16 {
    var needed := U16(g.cfg.magSize - g.mag);
    if g.reserve >= needed then needed else g.reserve
  }

  function CompleteReload(g: Game): Game {
    g.(mag := U16(g.mag + Transfer(g)), reserve := g.reserve - Transfer(g), reloading := false)
  }

  function AddAmmo(g: Game, amount: u16): Game {
    g.(reserve := U16(g.reserve + amount))
  }

  function AddKill(g: Game): Game {
    g.(kills := U16(g.kills + 1))
  }

  /** The file's static variables. */
  class GameStore {
    var cfg: Config
    var health: byte
    var magCurrent: u16
    var reserveCurrent: u16
    var alive: bool
    var reloading: bool
    var lastShotMs: int
    var kills: u16
    var deaths: u16

    function Abs(): Game
      reads this
    {
      Game(cfg, health, magCurrent, reserveCurrent, alive, reloading, lastShotMs, kills, deaths)
    }

    constructor ()
      ensures Abs() == INITIAL
    {
      cfg := ZERO_CONFIG;
      health, magCurrent, reserveCurrent := 0, 0, 0;
      alive, reloading, lastShotMs := false, false, 0;
      kills, deaths := 0, 0;
    }

    method Configure(newCfg: Config)
      modifies this`cfg
      ensures Abs() == SetConfig(old(Abs()), newCfg)
    {
      cfg := newCfg;
    }

    method Start()
      modifies this
      ensures Abs() == StartGame(old(Abs()))
    {
      health := cfg.maxHealth;
      var startingMag := if cfg.initialTotalAmmo > cfg.magSize then cfg.magSize else cfg.initialTotalAmmo;
      magCurrent := startingMag;
      reserveCurrent := cfg.initialTotalAmmo - startingMag;
      alive := true;
      reloading := false;
      lastShotMs := 0;
      kills := 0;
      deaths := 0;
    }

    method Fire(nowMs: int) returns (fired: bool)
      modifies this
      ensures (Abs(), fired) == TryFire(old(Abs()), nowMs)
    {
      if !alive || reloading || magCurrent == 0 {
        return false;
      }
      if lastShotMs > 0 && nowMs - lastShotMs < cfg.fireRateMs {
        return false;
      }
      magCurrent := magCurrent - 1;
      lastShotMs := nowMs;
      return true;
    }

    method Hit(damage: byte) returns (died: bool)
      modifies this
      ensures (Abs(), died) == ApplyHit(old(Abs()), damage)
    {
      if !alive {
        return false;
      }
      if damage >= health {
        health := 0;
        alive := false;
        deaths := (deaths + 1) % 0x1_0000;
        return true;
      }
      health := health - damage;
      return false;
    }

    method BeginReload() returns (started: bool)
      modifies this
      ensures (Abs(), started) == StartReload(old(Abs()))
    {
      if reloading {
        return false;
      }
      if magCurrent == cfg.magSize {
        return false;
      }
      if reserveCurrent == 0 && magCurrent > 0 {
        return false;
      }
      reloading := true;
      return true;
    }

    method FinishReload()
      modifies this
      ensures Abs() == CompleteReload(old(Abs()))
    {
      var needed: u16 := (cfg.magSize - magCurrent) % 0x1_0000;
      var transfer := if reserveCurrent >= needed then needed else reserveCurrent;
      magCurrent := (magCurrent + transfer) % 0x1_0000;
      reserveCurrent := reserveCurrent - transfer;
      reloading := false;
    }

    method Revive()
      modifies this
      ensures Abs() == Respawn(old(Abs()))
    {
      health := cfg.maxHealth;
      var startingMag := if cfg.initialTotalAmmo > cfg.magSize then cfg.magSize else cfg.initialTotalAmmo;
      magCurrent := startingMag;
      reserveCurrent := cfg.initialTotalAmmo - startingMag;
      alive := true;
      reloading := false;
    }

    method Resupply(amount: u16)
      modifies this
      ensures Abs() == AddAmmo(old(Abs()), amount)
    {
      reserveCurrent := (reserveCurrent + amount) % 0x1_0000;
    }

    method CountKill()
      modifies this
      ensures Abs() == AddKill(old(Abs()))
    {
      kills := (kills + 1) % 0x1_0000;
    }
  }
}
