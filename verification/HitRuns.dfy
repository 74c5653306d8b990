/** Whole runs of a vest and its emitter: every loss of health has its own infrared frame, and health
    is exactly what the applied hits leave. */
module HitRuns {
  import opened Bytes
  import opened HitDelivery
  import opened Protocol
  import IrLink
  import G = GameState
  import V = Vest
  import E = Emitter
  import R = EmitterRuns

  function Start(saved: G.Config): System {
    System(V.POWER_ON, E.PowerOn(saved), false, [], [], [], [])
  }

  predicate Legal(s: System, trace: seq<Event>)
    requires Shape(s)
    decreases |trace|
  {
    |trace| == 0
    || (Enabled(s, trace[0]) && (StepKeepsShape(s, trace[0]); Legal(Step(s, trace[0]), trace[1..])))
  }

  function Run(s: System, trace: seq<Event>): System
    requires Shape(s) && Legal(s, trace)
    decreases |trace|
  {
    if |trace| == 0 then s else StepKeepsShape(s, trace[0]); Run(Step(s, trace[0]), trace[1..])
  }

  lemma {:induction false} RunIsSafe(s: System, trace: seq<Event>)
    requires Safe(s) && Legal(s, trace)
    ensures Safe(Run(s, trace))
    decreases |trace|
  {
    if |trace| > 0 {
      StepIsSafe(s, trace[0]);
      RunIsSafe(Step(s, trace[0]), trace[1..]);
    }
  }

  // ----- the states of a run -----

  lemma {:induction false} LegalPrefix(s: System, trace: seq<Event>, n: nat)
    requires Shape(s) && Legal(s, trace) && n <= |trace|
    ensures Legal(s, trace[..n])
    decreases n
  {
    if n > 0 {
      StepKeepsShape(s, trace[0]);
      LegalPrefix(Step(s, trace[0]), trace[1..], n - 1);
      assert trace[..n][1..] == trace[1..][..n - 1];
    }
  }

  lemma {:induction false} RunSplit(s: System, trace: seq<Event>, n: nat)
    requires Shape(s) && Legal(s, trace) && n < |trace|
    requires Legal(s, trace[..n]) && Legal(s, trace[..n + 1])
    ensures Shape(Run(s, trace[..n])) && Enabled(Run(s, trace[..n]), trace[n])
    ensures Run(s, trace[..n + 1]) == Step(Run(s, trace[..n]), trace[n])
    decreases n
  {
    StepKeepsShape(s, trace[0]);
    if n > 0 {
      assert trace[..n][1..] == trace[1..][..n - 1] && trace[..n + 1][1..] == trace[1..][..n];
      RunSplit(Step(s, trace[0]), trace[1..], n - 1);
    } else {
      assert trace[..1][1..] == [] && trace[..0] == [];
    }
  }

  /** A run from power-on. */
  predicate Runs(saved: G.Config, trace: seq<Event>) {
    Legal(Start(saved), trace)
  }

  /** The system before event `n` of a run from power-on. */
  function At(saved: G.Config, trace: seq<Event>, n: nat): System
    requires Runs(saved, trace) && n <= |trace|
  {
    LegalPrefix(Start(saved), trace, n);
    Run(Start(saved), trace[..n])
  }

  lemma AtIsSafe(saved: G.Config, trace: seq<Event>, n: nat)
    requires Runs(saved, trace) && n <= |trace|
    ensures Safe(At(saved, trace, n))
  {
    LegalPrefix(Start(saved), trace, n);
    RunIsSafe(Start(saved), trace[..n]);
  }

  lemma AtNext(saved: G.Config, trace: seq<Event>, n: nat)
    requires Runs(saved, trace) && n < |trace|
    ensures Safe(At(saved, trace, n)) && Enabled(At(saved, trace, n), trace[n])
    ensures At(saved, trace, n + 1) == Step(At(saved, trace, n), trace[n])
  {
    LegalPrefix(Start(saved), trace, n);
    LegalPrefix(Start(saved), trace, n + 1);
    RunSplit(Start(saved), trace, n);
    AtIsSafe(saved, trace, n);
  }

  // ----- where a hit comes from and where it is accepted -----

  lemma StepLogs(s: System, ev: Event)
    requires Safe(s) && Enabled(s, ev)
    ensures Step(s, ev).hits == if TakesUp(s, ev) then s.hits + [Taken(ev.id, ev.p)] else s.hits
    ensures !ev.DeliverUp? ==> Step(s, ev).accepted == s.accepted
  {
  }

  /** A frame with a valid check, seen while the vest is in the game with no hit pending; friendly fire is
      on or the shooter is not in the vest's list. */
  predicate HostileFrame(v: V.Vest, ev: Event)
    requires V.Shape(v)
  {
    && ev.IrFrame? && ev.crcValid && v.state == V.GameActive && !v.hit.pending
    && (v.friends.fire || ev.p.playerId.ToNat() !in v.friends.ids[..v.friends.count])
  }

  /** Hit number `k` was taken up by event `i`: a frame with a valid check from a shooter who is not a
      friend, seen while the vest was in the game. */
  ghost predicate TakenBy(saved: G.Config, trace: seq<Event>, n: nat, k: nat, i: nat)
    requires Runs(saved, trace) && n <= |trace|
  {
    && i < n && Shape(At(saved, trace, i)) && HostileFrame(At(saved, trace, i).v, trace[i])
    && |At(saved, trace, i).hits| == k < |At(saved, trace, n).hits|
    && At(saved, trace, n).hits[k] == Taken(trace[i].id, trace[i].p)
  }

  lemma {:induction false} HitHasFrame(saved: G.Config, trace: seq<Event>, n: nat, k: nat) returns (i: nat)
    requires Runs(saved, trace) && n <= |trace| && k < |At(saved, trace, n).hits|
    ensures TakenBy(saved, trace, n, k, i)
    decreases n
  {
    if n > 0 {
      AtNext(saved, trace, n - 1);
      StepLogs(At(saved, trace, n - 1), trace[n - 1]);
      if k < |At(saved, trace, n - 1).hits| {
        i := HitHasFrame(saved, trace, n - 1, k);
      } else {
        i := n - 1;
      }
    }
  }

  /** The head of the channel when event `n` delivers it. */
  function Arriving(s: System): (m: Up)
    requires Safe(s) && |s.up| > 0
    ensures Carries(m, s.hits) && |m.data| == HIT_PAYLOAD_SIZE
  {
    assert Carries(s.up[0], s.hits);
    s.up[0]
  }

  predicate AcceptsNow(s: System, ev: Event)
    requires Safe(s) && Enabled(s, ev)
  {
    ev.DeliverUp? && Accepts(s.e, IdOf(Arriving(s).data))
  }

  lemma StepAccepts(s: System, ev: Event)
    requires Safe(s) && Enabled(s, ev)
    ensures Step(s, ev).accepted
         == if AcceptsNow(s, ev) then s.accepted + [Accept(Arriving(s).serial, s.e.mode == E.GameActive)]
            else s.accepted
  {
    StepLogs(s, ev);
  }

  lemma {:induction false} AcceptedGrows(saved: G.Config, trace: seq<Event>, m: nat, n: nat)
    requires Runs(saved, trace) && m <= n <= |trace|
    ensures At(saved, trace, m).accepted <= At(saved, trace, n).accepted
    decreases n
  {
    if m < n {
      AtNext(saved, trace, n - 1);
      StepAccepts(At(saved, trace, n - 1), trace[n - 1]);
      AcceptedGrows(saved, trace, m, n - 1);
    }
  }

  // ----- at most once -----

  /** Event `n` delivers a notification that the emitter takes for a new hit. */
  predicate AcceptsAt(saved: G.Config, trace: seq<Event>, n: nat)
    requires Runs(saved, trace) && n < |trace|
  {
    AtNext(saved, trace, n);
    AcceptsNow(At(saved, trace, n), trace[n])
  }

  function SerialAt(saved: G.Config, trace: seq<Event>, n: nat): int
    requires Runs(saved, trace) && n < |trace| && AcceptsAt(saved, trace, n)
  {
    AtNext(saved, trace, n);
    Arriving(At(saved, trace, n)).serial
  }

  lemma AcceptIsLogged(saved: G.Config, trace: seq<Event>, m: nat, n: nat)
    requires Runs(saved, trace) && m < n <= |trace| && AcceptsAt(saved, trace, m)
    ensures var k := |At(saved, trace, m).accepted|;
            var all := At(saved, trace, n).accepted;
            k < |all| && all[k] == Accept(SerialAt(saved, trace, m), At(saved, trace, m).e.mode == E.GameActive)
  {
    AtNext(saved, trace, m);
    StepAccepts(At(saved, trace, m), trace[m]);
    AcceptedGrows(saved, trace, m + 1, n);
  }

  /** No hit is accepted twice: of two accepting deliveries the later one carries a later hit. */
  lemma AcceptedAtMostOnce(saved: G.Config, trace: seq<Event>, m: nat, n: nat)
    requires Runs(saved, trace) && m < n < |trace|
    requires AcceptsAt(saved, trace, m) && AcceptsAt(saved, trace, n)
    ensures SerialAt(saved, trace, m) < SerialAt(saved, trace, n)
  {
    AcceptIsLogged(saved, trace, m, n);
    AcceptIsLogged(saved, trace, m, n + 1);
    AcceptIsLogged(saved, trace, n, n + 1);
    AtIsSafe(saved, trace, n + 1);
  }

  predicate LifeBegins(s: System, ev: Event)
    requires Shape(s)
  {
    ev.EmitterDoes? && R.BeginsLife(s.e, ev.ev)
  }

  predicate LosesHealth(saved: G.Config, trace: seq<Event>, n: nat)
    requires Runs(saved, trace) && n < |trace|
  {
    AtIsSafe(saved, trace, n);
    && At(saved, trace, n + 1).e.game.health < At(saved, trace, n).e.game.health
    && !LifeBegins(At(saved, trace, n), trace[n])
  }

  lemma LossIsAcceptance(s: System, ev: Event)
    requires Safe(s) && Enabled(s, ev) && !LifeBegins(s, ev)
    requires Step(s, ev).e.game.health < s.e.game.health
    ensures AcceptsNow(s, ev) && s.e.mode == E.GameActive
  {
    if ev.EmitterDoes? {
      R.HealthOnlyFalls(s.e, ev.ev);
      assert false;
    } else if ev.DeliverUp? {
      R.HealthOnlyFalls(s.e, R.Notify(Arriving(s).data));
    }
  }

  /** The bytes of a notification: the id, then shooter, weapon and team of the frame. */
  predicate Tells(data: seq<byte>, p: IrLink.HitPacket, id: u16) {
    && |data| == HIT_PAYLOAD_SIZE && GetLe16(data[0], data[1]) == id
    && data[2] == p.playerId.ToNat() && data[3] == p.weaponId.ToNat() && data[4] == p.teamId.ToNat()
  }

  /** Event `n` brings the emitter, in an active game, the notification of the frame of event `i`. */
  ghost predicate CausedBy(saved: G.Config, trace: seq<Event>, n: nat, i: nat)
    requires Runs(saved, trace) && n < |trace|
  {
    var s := At(saved, trace, n);
    && Safe(s) && trace[n].DeliverUp? && |s.up| > 0 && s.e.mode == E.GameActive
    && 0 <= Arriving(s).serial && TakenBy(saved, trace, n, Arriving(s).serial, i)
    && Tells(Arriving(s).data, trace[i].p, trace[i].id)
  }

  lemma LossHasFrame(saved: G.Config, trace: seq<Event>, n: nat) returns (i: nat)
    requires Runs(saved, trace) && n < |trace| && LosesHealth(saved, trace, n)
    ensures CausedBy(saved, trace, n, i)
  {
    AtNext(saved, trace, n);
    var s := At(saved, trace, n);
    LossIsAcceptance(s, trace[n]);
    i := HitHasFrame(saved, trace, n, Arriving(s).serial);
    PayloadTells(trace[i].p, trace[i].id);
  }

  lemma PayloadTells(p: IrLink.HitPacket, id: u16)
    ensures Tells(V.HitPayload(id, p), p, id)
  {
    Le16RoundTrip(id);
  }

  /** In every run each loss of health is caused by a delivered notification of an infrared frame that
      had a valid check, came from a shooter who was not a friend, and was seen while the vest was in
      the game; and different losses are caused by different frames. */
  lemma EachLossHasItsOwnFrame(saved: G.Config, trace: seq<Event>, m: nat, n: nat) returns (i: nat, j: nat)
    requires Runs(saved, trace) && m < n < |trace|
    requires LosesHealth(saved, trace, m) && LosesHealth(saved, trace, n)
    ensures CausedBy(saved, trace, m, i) && CausedBy(saved, trace, n, j) && i != j
  {
    i := LossHasFrame(saved, trace, m);
    j := LossHasFrame(saved, trace, n);
    AtNext(saved, trace, m);
    AtNext(saved, trace, n);
    LossIsAcceptance(At(saved, trace, m), trace[m]);
    LossIsAcceptance(At(saved, trace, n), trace[n]);
    AcceptedAtMostOnce(saved, trace, m, n);
  }

  // ----- health is what the applied hits leave -----

  /** The number of accepted hits that were applied. */
  function Applied(accepted: seq<Accept>): nat {
    if |accepted| == 0 then 0
    else Applied(accepted[..|accepted| - 1]) + if accepted[|accepted| - 1].applied then 1 else 0
  }

  lemma AppliedNext(accepted: seq<Accept>, a: Accept)
    ensures Applied(accepted + [a]) == Applied(accepted) + if a.applied then 1 else 0
  {
    assert (accepted + [a])[..|accepted|] == accepted;
  }

  /** What one hit leaves. */
  function After(health: nat, damage: nat): nat {
    if damage >= health then 0 else health - damage
  }

  /** What `k` hits of the given damage leave of `health`. */
  function Left(health: nat, damage: nat, k: nat): nat {
    if k == 0 then health else Left(After(health, damage), damage, k - 1)
  }

  lemma {:induction false} LeftIsDifference(health: nat, damage: nat, k: nat)
    ensures Left(health, damage, k) == if k * damage >= health then 0 else health - k * damage
    decreases k
  {
    if k > 0 {
      LeftIsDifference(After(health, damage), damage, k - 1);
      assert k * damage == (k - 1) * damage + damage;
      assert (k - 1) * damage >= 0;
    }
  }

  /** The event neither begins a life nor changes the configuration. */
  predicate Calm(s: System, ev: Event)
    requires Shape(s)
  {
    !LifeBegins(s, ev) && !(ev.EmitterDoes? && R.Reconfigures(ev.ev))
  }

  lemma StepAgrees(s: System, ev: Event)
    requires Safe(s) && Enabled(s, ev) && R.Agree(s.e)
    ensures R.Agree(Step(s, ev).e)
  {
    if ev.EmitterDoes? {
      R.StepAgrees(s.e, ev.ev);
    } else if ev.DeliverUp? {
      R.StepAgrees(s.e, R.Notify(s.up[0].data));
    }
  }

  lemma PhoneKeepsDamage(e: E.Emitter, data: seq<byte>)
    requires E.Shape(e) && !R.BeginsLife(e, R.Phone(data)) && !R.Reconfigures(R.Phone(data))
    ensures E.OnPhone(e, data).0.game.health == e.game.health
    ensures E.OnPhone(e, data).0.game.cfg == e.game.cfg
  {
  }

  lemma QuietEventKeepsHealth(e: E.Emitter, x: R.Event)
    requires E.Shape(e) && !x.Notify? && !R.BeginsLife(e, x) && !R.Reconfigures(x)
    ensures R.Step(e, x).0.game.health == e.game.health && R.Step(e, x).0.game.cfg == e.game.cfg
  {
    if x.Phone? {
      PhoneKeepsDamage(e, x.data);
    }
  }

  lemma NotifyHealth(e: E.Emitter, data: seq<byte>)
    requires R.Agree(e) && |data| == HIT_PAYLOAD_SIZE
    ensures var g := E.OnNotify(e, data).0.game;
            g.cfg == e.game.cfg
            && g.health == if Accepts(e, IdOf(data)) && e.mode == E.GameActive then After(e.game.health, g.cfg.damage)
                           else e.game.health
  {
  }

  lemma StepHealth(s: System, ev: Event)
    requires Safe(s) && Enabled(s, ev) && R.Agree(s.e) && Calm(s, ev)
    ensures var hit := AcceptsNow(s, ev) && s.e.mode == E.GameActive;
            var g := Step(s, ev).e.game;
            g.cfg == s.e.game.cfg && g.health == if hit then After(s.e.game.health, g.cfg.damage) else s.e.game.health
  {
    if ev.EmitterDoes? {
      QuietEventKeepsHealth(s.e, ev.ev);
    } else if ev.DeliverUp? {
      NotifyHealth(s.e, Arriving(s).data);
    }
  }

  lemma StepIsAccounted(s: System, ev: Event) returns (k: nat)
    requires Safe(s) && Enabled(s, ev) && R.Agree(s.e) && Calm(s, ev)
    ensures var s' := Step(s, ev);
            s'.e.game.cfg == s.e.game.cfg && Applied(s'.accepted) == Applied(s.accepted) + k
            && k <= 1
            && s'.e.game.health == if k == 1 then After(s.e.game.health, s.e.game.cfg.damage) else s.e.game.health
  {
    StepHealth(s, ev);
    StepAccepts(s, ev);
    k := 0;
    if AcceptsNow(s, ev) {
      k := if s.e.mode == E.GameActive then 1 else 0;
      AppliedNext(s.accepted, Accept(Arriving(s).serial, s.e.mode == E.GameActive));
    }
  }

  lemma {:induction false} AtAgrees(saved: G.Config, trace: seq<Event>, n: nat)
    requires Runs(saved, trace) && n <= |trace|
    ensures R.Agree(At(saved, trace, n).e)
    decreases n
  {
    if n > 0 {
      AtAgrees(saved, trace, n - 1);
      AtNext(saved, trace, n - 1);
      StepAgrees(At(saved, trace, n - 1), trace[n - 1]);
    }
  }

  /** Between events `m` and `n` nothing begins a life or changes the configuration. */
  predicate SameLife(saved: G.Config, trace: seq<Event>, m: nat, n: nat)
    requires Runs(saved, trace) && m <= n <= |trace|
  {
    forall i :: m <= i < n ==> CalmAt(saved, trace, i)
  }

  predicate CalmAt(saved: G.Config, trace: seq<Event>, i: nat)
    requires Runs(saved, trace) && i < |trace|
  {
    AtNext(saved, trace, i);
    Calm(At(saved, trace, i), trace[i])
  }

  /** `k` more hits were applied, and health is exactly what `k` configured damages leave of it. */
  predicate Accounted(s: System, s': System, k: nat) {
    && s'.e.game.cfg == s.e.game.cfg
    && Applied(s'.accepted) == Applied(s.accepted) + k
    && s'.e.game.health == Left(s.e.game.health, s.e.game.cfg.damage, k)
  }

  lemma {:induction false} LeftOnceMore(health: nat, damage: nat, k: nat)
    ensures After(Left(health, damage, k), damage) == Left(health, damage, k + 1)
    decreases k
  {
    if k > 0 {
      LeftOnceMore(After(health, damage), damage, k - 1);
    }
  }

  lemma NextIsAccounted(saved: G.Config, trace: seq<Event>, n: nat) returns (k: nat)
    requires Runs(saved, trace) && n < |trace| && CalmAt(saved, trace, n)
    ensures Accounted(At(saved, trace, n), At(saved, trace, n + 1), k) && k <= 1
  {
    AtNext(saved, trace, n);
    AtAgrees(saved, trace, n);
    k := StepIsAccounted(At(saved, trace, n), trace[n]);
  }

  lemma AccountedTwice(s: System, s1: System, s2: System, k: nat, more: nat)
    requires Accounted(s, s1, k) && Accounted(s1, s2, more) && more <= 1
    ensures Accounted(s, s2, k + more)
  {
    var health, damage := s.e.game.health, s.e.game.cfg.damage;
    LeftOnceMore(health, damage, k);
    if more == 1 {
      assert Left(s1.e.game.health, damage, 1) == Left(After(s1.e.game.health, damage), damage, 0);
    }
  }

  /** Within a life and under one configuration, health is exactly what the hits applied since leave
      of it, one configured damage each, down to zero. */
  lemma {:induction false} HealthIsAccounted(saved: G.Config, trace: seq<Event>, m: nat, n: nat) returns (k: nat)
    requires Runs(saved, trace) && m <= n <= |trace| && SameLife(saved, trace, m, n)
    ensures Accounted(At(saved, trace, m), At(saved, trace, n), k)
    decreases n
  {
    k := 0;
    if m < n {
      var before := HealthIsAccounted(saved, trace, m, n - 1);
      assert CalmAt(saved, trace, n - 1);
      var more := NextIsAccounted(saved, trace, n - 1);
      k := before + more;
      AccountedTwice(At(saved, trace, m), At(saved, trace, n - 1), At(saved, trace, n), before, more);
    }
  }
}
