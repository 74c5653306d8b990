/** What every sequence of game-state operations keeps: ammunition is conserved, the magazine stays
    within its size, and shots keep their distance in time. */
module GameRuns {
  import opened Bytes
  import opened GameState

  datatype Op = Configure(cfg: Config) | Start | Fire(nowMs: int) | Hit(damage: byte)
    | BeginReload | FinishReload | Revive | Resupply(amount: u16) | CountKill

  function Apply(g: Game, op: Op): Game {
    match op
    case Configure(cfg) => SetConfig(g, cfg)
    case Start => StartGame(g)
    case Fire(nowMs) => TryFire(g, nowMs).0
    case Hit(damage) => ApplyHit(g, damage).0
    case BeginReload => StartReload(g).0
    case FinishReload => CompleteReload(g)
    case Revive => Respawn(g)
    case Resupply(amount) => AddAmmo(g, amount)
    case CountKill => AddKill(g)
  }

  function Run(g: Game, ops: seq<Op>): Game
    decreases |ops|
  {
    if |ops| == 0 then g else Run(Apply(g, ops[0]), ops[1..])
  }

  // ----- ammunition -----

  predicate StartsLife(op: Op) { op.Start? || op.Revive? }

  predicate WithinLife(ops: seq<Op>) {
    forall i :: 0 <= i < |ops| ==> !StartsLife(ops[i])
  }

  function Fired(g: Game, op: Op): nat {
    if op.Fire? && MayFire(g, op.nowMs) then 1 else 0
  }

  /** The number of shots fired. */
  function Shots(g: Game, ops: seq<Op>): nat
    decreases |ops|
  {
    if |ops| == 0 then 0 else Fired(g, ops[0]) + Shots(Apply(g, ops[0]), ops[1..])
  }

  function SuppliedBy(op: Op): nat {
    if op.Resupply? then op.amount else 0
  }

  /** The ammunition handed out by the phone. */
  function Supplied(ops: seq<Op>): nat
    decreases |ops|
  {
    if |ops| == 0 then 0 else SuppliedBy(ops[0]) + Supplied(ops[1..])
  }

  function Ammo(g: Game): nat { g.mag + g.reserve }

  /** An operation whose 16-bit arithmetic wraps: a supply that does not fit the reserve, or a reload of
      a magazine above its size that has more than 16 bits of rounds to distribute. */
  predicate Overflows(g: Game, op: Op) {
    || (op.Resupply? && g.reserve + op.amount >= 0x1_0000)
    || (op.FinishReload? && !Fits(g) && Ammo(g) >= 0x1_0000)
  }

  function Overflowing(g: Game, op: Op): nat {
    if Overflows(g, op) then 1 else 0
  }

  /** The number of overflows in a run. */
  function OverflowCount(g: Game, ops: seq<Op>): nat
    decreases |ops|
  {
    if |ops| == 0 then 0 else Overflowing(g, ops[0]) + OverflowCount(Apply(g, ops[0]), ops[1..])
  }

  /** What is left, what was shot and 2^16 for every overflow equal what was there and what was supplied. */
  predicate AmmoBalanced(g: Game, ops: seq<Op>, g': Game) {
    Ammo(g') + Shots(g, ops) + 0x1_0000 * OverflowCount(g, ops) == Ammo(g) + Supplied(ops)
  }

  lemma WrapEarly(a: int, b: int)
    ensures U16(U16(a) + b) == U16(a + b)
  {
  }

  lemma ReloadBalances(g: Game)
    ensures Ammo(CompleteReload(g)) + 0x1_0000 * Overflowing(g, FinishReload) == Ammo(g)
  {
  }

  lemma StepBalances(g: Game, op: Op)
    requires !StartsLife(op)
    ensures Ammo(Apply(g, op)) + Fired(g, op) + 0x1_0000 * Overflowing(g, op) == Ammo(g) + SuppliedBy(op)
  {
    match op
    case FinishReload => ReloadBalances(g);
    case _ =>
  }

  /** Within a life the ammunition is balanced. Configuration changes and reload completions of any
      age do not matter. */
  lemma {:induction false} AmmoIsConserved(g: Game, ops: seq<Op>)
    requires WithinLife(ops)
    ensures AmmoBalanced(g, ops, Run(g, ops))
    decreases |ops|
  {
    if |ops| > 0 {
      StepBalances(g, ops[0]);
      AmmoIsConserved(Apply(g, ops[0]), ops[1..]);
    }
  }

  /** So it is conserved modulo 2^16 always, and exactly if and only if nothing overflowed; nothing
      overflows while everything there and everything supplied fits 16 bits. */
  lemma ConservedExactly(g: Game, ops: seq<Op>)
    requires WithinLife(ops)
    ensures U16(Ammo(Run(g, ops)) + Shots(g, ops)) == U16(Ammo(g) + Supplied(ops))
    ensures Ammo(Run(g, ops)) + Shots(g, ops) == Ammo(g) + Supplied(ops) <==> OverflowCount(g, ops) == 0
    ensures Ammo(g) + Supplied(ops) < 0x1_0000 ==> OverflowCount(g, ops) == 0
  {
    AmmoIsConserved(g, ops);
    WholeWraps(Ammo(Run(g, ops)) + Shots(g, ops), OverflowCount(g, ops));
  }

  lemma {:induction false} WholeWraps(a: nat, n: nat)
    ensures U16(a + 0x1_0000 * n) == U16(a)
    decreases n
  {
    if n > 0 {
      WholeWraps(a, n - 1);
      OneWrap(a + 0x1_0000 * (n - 1));
    }
  }

  lemma OneWrap(a: nat)
    ensures U16(a + 0x1_0000) == U16(a)
  {
  }

  /** A game and a respawn start a life with exactly the configured ammunition, the magazine as full as
      its size allows, full health and no reload under way; only a game start clears the counters and
      the fire-rate gate. */
  lemma LifeStartsAsConfigured(g: Game, g': Game)
    requires g' == StartGame(g) || g' == Respawn(g)
    ensures Ammo(g') == g.cfg.initialTotalAmmo && g'.mag <= g.cfg.magSize
    ensures g'.reserve > 0 ==> g'.mag == g.cfg.magSize
    ensures g'.alive && g'.health == g.cfg.maxHealth && !g'.reloading && g'.cfg == g.cfg
    ensures g' == StartGame(g) ==> g'.kills == 0 && g'.deaths == 0 && g'.lastShotMs == 0
    ensures g' != StartGame(g) ==> g'.kills == g.kills && g'.deaths == g.deaths && g'.lastShotMs == g.lastShotMs
  {
  }

  /** A completed reload leaves the magazine at its size or the reserve empty. It keeps the total exactly
      if the magazine fitted before or magazine and reserve together fit 16 bits. */
  lemma ReloadFills(g: Game)
    ensures var g' := CompleteReload(g);
            && !g'.reloading && (g'.mag == g.cfg.magSize || g'.reserve == 0)
            && (Ammo(g') == Ammo(g) <==> Fits(g) || Ammo(g) < 0x1_0000)
  {
  }

  /** A reload starts exactly when none is under way and completing it would change the magazine or the
      magazine is empty but should not be. */
  lemma ReloadStartsWhenUseful(g: Game)
    ensures StartReload(g).1 <==> !g.reloading && (CompleteReload(g).mag != g.mag || (g.mag == 0 && g.cfg.magSize > 0))
  {
  }

  predicate KeepsConfig(ops: seq<Op>) {
    forall i :: 0 <= i < |ops| ==> !ops[i].Configure?
  }

  /** With the configuration unchanged since the magazine last fitted, it keeps fitting. */
  lemma {:induction false} MagazineFits(g: Game, ops: seq<Op>)
    requires g.mag <= g.cfg.magSize && KeepsConfig(ops)
    ensures Run(g, ops).mag <= Run(g, ops).cfg.magSize && Run(g, ops).cfg == g.cfg
    decreases |ops|
  {
    if |ops| > 0 {
      MagazineFits(Apply(g, ops[0]), ops[1..]);
    }
  }

  predicate Fits(g: Game) { g.mag <= g.cfg.magSize }

  /** From a fitting magazine only a configuration whose size is below the rounds now in the magazine
      leads to one that does not fit. */
  lemma StepFits(g: Game, op: Op)
    requires Fits(g)
    ensures Fits(Apply(g, op)) <==> !(op.Configure? && op.cfg.magSize < g.mag)
  {
  }

  /** The magazine fits at every point of the run. */
  predicate AlwaysFits(g: Game, ops: seq<Op>)
    decreases |ops|
  {
    Fits(g) && (|ops| == 0 || AlwaysFits(Apply(g, ops[0]), ops[1..]))
  }

  /** Every new configuration has room for the rounds in the magazine when it arrives. */
  predicate ConfigsHaveRoom(g: Game, ops: seq<Op>)
    decreases |ops|
  {
    |ops| == 0
    || ((ops[0].Configure? ==> ops[0].cfg.magSize >= g.mag) && ConfigsHaveRoom(Apply(g, ops[0]), ops[1..]))
  }

  /** Exactly then the magazine never exceeds its size. */
  lemma {:induction false} AlwaysFitsExactly(g: Game, ops: seq<Op>)
    requires Fits(g)
    ensures AlwaysFits(g, ops) <==> ConfigsHaveRoom(g, ops)
    decreases |ops|
  {
    if |ops| > 0 {
      StepFits(g, ops[0]);
      if Fits(Apply(g, ops[0])) {
        AlwaysFitsExactly(Apply(g, ops[0]), ops[1..]);
      }
    }
  }

  /** A reload after a mid-game change to a smaller magazine leaves a fitting magazine exactly when
      the magazine already fitted or the 16-bit sum of magazine and reserve overflows. */
  lemma ReloadFits(g: Game)
    ensures CompleteReload(g).mag <= g.cfg.magSize <==> g.mag <= g.cfg.magSize || g.mag + g.reserve >= 0x1_0000
  {
  }

  // ----- counters -----

  function Fatal(g: Game, op: Op): nat {
    if op.Hit? && ApplyHit(g, op.damage).1 then 1 else 0
  }

  function Reported(op: Op): nat {
    if op.CountKill? then 1 else 0
  }

  lemma CountersStep(g: Game, op: Op)
    requires !op.Start?
    ensures Apply(g, op).deaths == U16(g.deaths + Fatal(g, op)) && Apply(g, op).kills == U16(g.kills + Reported(op))
  {
  }

  /** The hits that killed the player, and the kills reported. */
  function Killed(g: Game, ops: seq<Op>): (nat, nat)
    decreases |ops|
  {
    if |ops| == 0 then (0, 0)
    else
      var (deaths, kills) := Killed(Apply(g, ops[0]), ops[1..]);
      (Fatal(g, ops[0]) + deaths, Reported(ops[0]) + kills)
  }

  /** Within a game the counters count deaths and kills modulo 2^16. */
  lemma {:induction false} CountersCount(g: Game, ops: seq<Op>)
    requires forall i :: 0 <= i < |ops| ==> !ops[i].Start?
    ensures Run(g, ops).deaths == U16(g.deaths + Killed(g, ops).0)
    ensures Run(g, ops).kills == U16(g.kills + Killed(g, ops).1)
    decreases |ops|
  {
    if |ops| > 0 {
      var g1 := Apply(g, ops[0]);
      CountersCount(g1, ops[1..]);
      var (deaths, kills) := Killed(g1, ops[1..]);
      CountersStep(g, ops[0]);
      WrapEarly(g.deaths + Fatal(g, ops[0]), deaths);
      WrapEarly(g.kills + Reported(ops[0]), kills);
    }
  }

  /** A hit is counted as a death exactly if it takes a living player, who is left without health. */
  lemma DeathKills(g: Game, damage: byte)
    ensures ApplyHit(g, damage).1 <==> g.alive && !ApplyHit(g, damage).0.alive
    ensures ApplyHit(g, damage).1 ==> ApplyHit(g, damage).0.health == 0
  {
  }

  // ----- fire rate -----

  /** The times of the accepted shots. */
  function ShotTimes(g: Game, ops: seq<Op>): seq<int>
    decreases |ops|
  {
    if |ops| == 0 then []
    else
      var rest := ShotTimes(Apply(g, ops[0]), ops[1..]);
      if Fired(g, ops[0]) == 1 then [ops[0].nowMs] + rest else rest
  }

  /** One game: the configuration is fixed, nothing restarts the game, and time moves on from `now`. */
  predicate OneGame(ops: seq<Op>, now: int)
    decreases |ops|
  {
    |ops| == 0
    || (!ops[0].Configure? && !ops[0].Start?
        && if ops[0].Fire? then ops[0].nowMs >= now && ops[0].nowMs > 0 && OneGame(ops[1..], ops[0].nowMs)
           else OneGame(ops[1..], now))
  }

  predicate Spaced(times: seq<int>, rate: nat) {
    forall i :: 0 <= i < |times| - 1 ==> times[i + 1] >= times[i] + rate
  }

  lemma {:induction false} ShotsAreSpaced(g: Game, ops: seq<Op>, now: int)
    requires OneGame(ops, now)
    ensures Spaced(ShotTimes(g, ops), g.cfg.fireRateMs)
    ensures g.lastShotMs > 0 && |ShotTimes(g, ops)| > 0 ==> ShotTimes(g, ops)[0] >= g.lastShotMs + g.cfg.fireRateMs
    decreases |ops|
  {
    if |ops| > 0 {
      var g1 := Apply(g, ops[0]);
      ShotsAreSpaced(g1, ops[1..], if ops[0].Fire? then ops[0].nowMs else now);
      if Fired(g, ops[0]) == 1 {
        SpacedFront(ops[0].nowMs, ShotTimes(g1, ops[1..]), g.cfg.fireRateMs);
      }
    }
  }

  /** The gate's memory is the time of the latest shot of this game. */
  lemma {:induction false} GateRemembersLastShot(g: Game, ops: seq<Op>, now: int)
    requires OneGame(ops, now)
    ensures var times := ShotTimes(g, ops);
            Run(g, ops).lastShotMs == if |times| == 0 then g.lastShotMs else times[|times| - 1]
    ensures forall i :: 0 <= i < |ShotTimes(g, ops)| ==> ShotTimes(g, ops)[i] > 0
    ensures Run(g, ops).cfg == g.cfg
    decreases |ops|
  {
    if |ops| > 0 {
      GateRemembersLastShot(Apply(g, ops[0]), ops[1..], if ops[0].Fire? then ops[0].nowMs else now);
    }
  }

  /** A shot is refused exactly when the player is dead, reloading or out of ammunition, or the latest
      shot of this game was less than fire_rate_ms ago. */
  lemma RefusedForAReason(g: Game, ops: seq<Op>, now: int, t: int)
    requires OneGame(ops, now) && g.lastShotMs == 0
    ensures var g', times := Run(g, ops), ShotTimes(g, ops);
            !TryFire(g', t).1 <==> (!g'.alive || g'.reloading || g'.mag == 0
                                    || (|times| > 0 && t - times[|times| - 1] < g.cfg.fireRateMs))
  {
    GateRemembersLastShot(g, ops, now);
  }

  lemma SpacedFront(t: int, times: seq<int>, rate: nat)
    requires Spaced(times, rate) && (|times| > 0 ==> times[0] >= t + rate)
    ensures Spaced([t] + times, rate)
  {
  }

  lemma {:induction false} Spread(times: seq<int>, rate: nat)
    requires |times| > 0 && Spaced(times, rate)
    ensures times[|times| - 1] - times[0] >= (|times| - 1) * rate
  {
    if |times| > 1 {
      var n := |times| - 1;
      Spread(times[..n], rate);
      assert times[n] >= times[n - 1] + rate;
      assert n * rate == (n - 1) * rate + rate;
    }
  }

  /** Any interval [a, b] contains at most (b - a) / fire_rate_ms + 1 shots of one game. */
  lemma FireRateBound(g: Game, ops: seq<Op>, now: int, lo: nat, hi: nat, a: int, b: int)
    requires OneGame(ops, now) && g.cfg.fireRateMs > 0
    requires lo <= hi <= |ShotTimes(g, ops)| && a <= b
    requires forall i :: lo <= i < hi ==> a <= ShotTimes(g, ops)[i] <= b
    ensures hi - lo <= (b - a) / g.cfg.fireRateMs + 1
  {
    ShotsAreSpaced(g, ops, now);
    SpacedWithin(ShotTimes(g, ops), g.cfg.fireRateMs, lo, hi, a, b);
  }

  lemma SpacedWithin(times: seq<int>, rate: nat, lo: nat, hi: nat, a: int, b: int)
    requires Spaced(times, rate) && rate > 0
    requires lo <= hi <= |times| && a <= b
    requires forall i :: lo <= i < hi ==> a <= times[i] <= b
    ensures hi - lo <= (b - a) / rate + 1
  {
    if lo < hi {
      SpacedSlice(times, rate, lo, hi);
      Spread(times[lo..hi], rate);
      assert a <= times[lo] && times[hi - 1] <= b;
      Quotient(hi - lo - 1, b - a, rate);
    }
  }

  lemma SpacedSlice(times: seq<int>, rate: nat, lo: nat, hi: nat)
    requires Spaced(times, rate) && lo <= hi <= |times|
    ensures Spaced(times[lo..hi], rate)
  {
    forall i | 0 <= i < hi - lo - 1
      ensures times[lo..hi][i + 1] >= times[lo..hi][i] + rate
    {
      assert times[lo + i + 1] >= times[lo + i] + rate;
    }
  }

  lemma Quotient(n: nat, d: nat, rate: nat)
    requires rate > 0 && n * rate <= d
    ensures n <= d / rate
  {
    var q := d / rate;
    if n > q {
      Multiples(q + 1, n, rate);
      assert false;
    }
  }

  lemma Multiples(m: nat, n: nat, rate: nat)
    requires m <= n
    ensures m * rate <= n * rate
  {
  }
}
