/** What the emitter counts over its runs: deaths as they happen, and never a kill. */
module EmitterCounters {
  import opened Bytes
  import opened Emitter
  import opened EmitterReports
  import opened EmitterRuns
  import opened GameConfig
  import opened GameState
  import opened PhoneView
  import opened Protocol
  import GameRuns

  // ----- kills -----

  predicate AllZero(kills: seq<u16>) {
    forall i :: 0 <= i < |kills| ==> kills[i] == 0
  }

  predicate NoKills(e: Emitter) { e.game.kills == 0 && AllZero(e.setup.teamKills) }

  lemma {:induction false} ZerosRecorded(kills: seq<u16>, i: nat, n: nat)
    requires AllZero(kills)
    ensures AllZero(RecordFrom(kills, i, Zeros(n)))
    decreases n
  {
    if n > 0 {
      assert Zeros(n)[1..] == Zeros(n - 1);
      ZerosRecorded(Record(kills, i, 0), i + 1, n - 1);
    }
  }

  lemma BlobCountsNothing(s: Setup, raw: seq<byte>, len: nat)
    requires |raw| == RAW_SIZE && len <= RAW_SIZE && AllZero(s.teamKills)
    ensures AllZero(ApplyBlob(s, raw, len).teamKills)
  {
    if len >= 10 {
      ZerosRecorded(s.teamKills, 0, |TeamsFrom(raw[..len], 11, raw[9]).0|);
    }
  }

  lemma StartCountsNothing(e: Emitter, cfg: seq<byte>)
    requires Shape(e) && NoKills(e)
    ensures NoKills(OnHostStart(e, cfg).0)
  {
    BlobCountsNothing(e.setup, StoreRaw(e.raw, cfg), if |cfg| > RAW_SIZE then RAW_SIZE else |cfg|);
  }

  lemma PhoneCountsNothing(e: Emitter, data: seq<byte>)
    requires Shape(e) && NoKills(e)
    ensures NoKills(OnPhone(e, data).0)
  {
    if |data| > 1 && data[0] == CMD_BROADCAST_GAME_CFG {
      StartCountsNothing(e, data[1..]);
    }
  }

  lemma StepCountsNothing(e: Emitter, ev: Event)
    requires Shape(e) && NoKills(e) && Enabled(e, ev)
    ensures NoKills(Step(e, ev).0)
  {
    match ev
    case Phone(data) => PhoneCountsNothing(e, data);
    case MeshStart(cfg) => StartCountsNothing(e, cfg);
    case _ =>
  }

  lemma {:induction false} RunCountsNothing(e: Emitter, trace: seq<Event>)
    requires Shape(e) && NoKills(e) && Legal(e, trace)
    ensures NoKills(Run(e, trace))
    decreases |trace|
  {
    if |trace| > 0 {
      StepCountsNothing(e, trace[0]);
      RunCountsNothing(Step(e, trace[0]).0, trace[1..]);
    }
  }

  /** The kills that a mesh message of the emitter's own carries are all zero. */
  predicate CarriesNoKills(m: Mesh) {
    match m
    case PlayerState(_, _, _, _, _, kills, _) => kills == 0
    case PlayerDeath(_, _, kills, _) => kills == 0
    case Scoreboard(_, _, kills) => AllZero(kills)
    case _ => true
  }

  /** In every run from power-on no kill is ever counted, for the player or for a team: every player state,
      death and scoreboard that is sent carries zeros. */
  lemma NobodyScores(saved: Config, trace: seq<Event>, ev: Event)
    requires Legal(PowerOn(saved), trace) && Enabled(Run(PowerOn(saved), trace), ev)
    ensures NoKills(Run(PowerOn(saved), trace))
    ensures forall m :: m in Reported(Run(PowerOn(saved), trace), ev).mesh ==> CarriesNoKills(m)
  {
    RunCountsNothing(PowerOn(saved), trace);
    NothingToReport(Run(PowerOn(saved), trace), ev);
  }

  lemma NothingToReport(e: Emitter, ev: Event)
    requires Shape(e) && NoKills(e)
    ensures forall m :: m in Reported(e, ev).mesh ==> CarriesNoKills(m)
  {
  }

  // ----- deaths -----

  /** Events that begin a game, and with it the count. */
  predicate BeginsGame(e: Emitter, ev: Event) {
    BeginsLife(e, ev) && (ev.Phone? ==> StartCommand(ev.data))
  }

  predicate SameCount(e: Emitter, trace: seq<Event>)
    requires Shape(e)
    decreases |trace|
  {
    |trace| == 0 || (!BeginsGame(e, trace[0]) && SameCount(Step(e, trace[0]).0, trace[1..]))
  }

  function DeathBy(e: Emitter, ev: Event): nat
    requires Shape(e)
  {
    if Dies(e, ev) then 1 else 0
  }

  /** One or nothing for every event, as the player dies or not. */
  function DeathsIn(e: Emitter, trace: seq<Event>): seq<nat>
    requires Shape(e)
    decreases |trace|
  {
    if |trace| == 0 then [] else [DeathBy(e, trace[0])] + DeathsIn(Step(e, trace[0]).0, trace[1..])
  }

  lemma PhoneCountsNoDeath(e: Emitter, data: seq<byte>)
    requires Shape(e) && !StartCommand(data)
    ensures OnPhone(e, data).0.game.deaths == e.game.deaths
  {
  }

  lemma NotifyCountsDeath(e: Emitter, hit: seq<byte>)
    requires Agree(e)
    ensures OnNotify(e, hit).0.game.deaths
         == if e.mode != Dead && OnNotify(e, hit).0.mode == Dead then U16(e.game.deaths + 1) else e.game.deaths
  {
  }

  lemma StepCountsDeath(e: Emitter, ev: Event)
    requires Shape(e) && Agree(e) && Enabled(e, ev) && !BeginsGame(e, ev)
    ensures Step(e, ev).0.game.deaths == U16(e.game.deaths + DeathBy(e, ev))
  {
    match ev
    case Phone(data) =>
      PhoneCountsNoDeath(e, data);
      PhoneNeverKills(e, data);
    case Notify(hit) => NotifyCountsDeath(e, hit);
    case _ =>
  }

  /** A 16-bit counter. */
  function CountUp(count: u16, deaths: seq<nat>): u16
    decreases |deaths|
  {
    if |deaths| == 0 then count else CountUp(U16(count + deaths[0]), deaths[1..])
  }

  function Sum(deaths: seq<nat>): nat {
    if |deaths| == 0 then 0 else deaths[0] + Sum(deaths[1..])
  }

  lemma {:induction false} CountedUp(count: u16, deaths: seq<nat>)
    ensures CountUp(count, deaths) == U16(count + Sum(deaths))
    decreases |deaths|
  {
    if |deaths| > 0 {
      CountedUp(U16(count + deaths[0]), deaths[1..]);
      GameRuns.WrapEarly(count + deaths[0], Sum(deaths[1..]));
    }
  }

  lemma CountFirst(count: u16, now: nat, later: seq<nat>)
    ensures CountUp(count, [now] + later) == CountUp(U16(count + now), later)
  {
    assert ([now] + later)[1..] == later;
  }

  lemma {:induction false} CountsUp(e: Emitter, trace: seq<Event>)
    requires Shape(e) && Agree(e) && Legal(e, trace) && SameCount(e, trace)
    ensures Run(e, trace).game.deaths == CountUp(e.game.deaths, DeathsIn(e, trace))
    decreases |trace|
  {
    if |trace| > 0 {
      StepAgrees(e, trace[0]);
      StepCountsDeath(e, trace[0]);
      CountsUp(Step(e, trace[0]).0, trace[1..]);
      CountFirst(e.game.deaths, DeathBy(e, trace[0]), DeathsIn(Step(e, trace[0]).0, trace[1..]));
    }
  }

  /** Within a game, respawns included, the counter is the number of the player's deaths, modulo 2^16. */
  lemma DeathsAreCounted(e: Emitter, trace: seq<Event>)
    requires Shape(e) && Agree(e) && Legal(e, trace) && SameCount(e, trace)
    ensures Run(e, trace).game.deaths == U16(e.game.deaths + Sum(DeathsIn(e, trace)))
  {
    CountsUp(e, trace);
    CountedUp(e.game.deaths, DeathsIn(e, trace));
  }
}
