/** The first copy of a hit that the emitter hears in a game decides about the hit for good, whatever
    ids collide: it is applied then or never. */
module HitVerdicts {
  import opened HitDelivery
  import opened HitRuns
  import opened Sequences
  import G = GameState
  import E = Emitter
  import R = EmitterRuns

  /** The emitter has heard hit `k` in a game: nothing earlier is under way, and the hit's id is still
      in the ring or a later hit has been accepted since. */
  predicate Decided(s: System, k: int) {
    && 0 <= k < |s.hits|
    && (forall i :: 0 <= i < |s.up| ==> k <= s.up[i].serial)
    && (s.hits[k].id in s.e.window || (|s.accepted| > 0 && k < s.accepted[|s.accepted| - 1].serial))
  }

  /** A copy of a decided hit is a duplicate: an id that has left the ring was pushed out by later hits,
      and then no copy is under way any more. */
  lemma DecidedIsNotAccepted(s: System, k: int)
    requires Safe(s) && Decided(s, k) && |s.up| > 0 && Accepts(s.e, IdOf(Arriving(s).data))
    ensures k < s.up[0].serial
  {
    CarriedId(s.up[0], s.hits);
  }

  lemma ReceiveKeepsDecided(s: System, k: int)
    requires Safe(s) && Decided(s, k) && |s.up| > 0
    ensures Decided(Receive(s), k)
  {
    var m := Arriving(s);
    CarriedId(m, s.hits);
    Notified(s.e, m.data);
    TailSafe(s.up, s.hits);
    if Accepts(s.e, IdOf(m.data)) {
      DecidedIsNotAccepted(s, k);
    }
  }

  /** In a game every delivery decides about its hit. */
  lemma DeliveryDecides(s: System)
    requires Safe(s) && |s.up| > 0 && R.InGame(s.e)
    ensures Decided(Receive(s), s.up[0].serial)
  {
    var m := Arriving(s);
    CarriedId(m, s.hits);
    Notified(s.e, m.data);
    TailSafe(s.up, s.hits);
    if Accepts(s.e, IdOf(m.data)) {
      PushEndsWith(s.e.window, IdOf(m.data));
    }
  }

  /** The vest sends only its latest hit, and takes nothing away from the list of hits. */
  lemma VestAdds(s: System, ev: Event)
    requires Safe(s) && OfVest(ev)
    ensures var s1 := VestEvent(s, ev);
            && s.hits <= s1.hits && s1.e == s.e && s1.accepted == s.accepted
            && (s1.up == s.up || (|s1.up| == |s.up| + 1 && s.up <= s1.up && s1.up[|s.up|].serial == |s1.hits| - 1))
  {
  }

  lemma VestKeepsDecided(s: System, ev: Event, k: int)
    requires Safe(s) && Decided(s, k) && Enabled(s, ev) && OfVest(ev)
    ensures Decided(Step(s, ev), k)
  {
    VestAdds(s, ev);
  }

  lemma LossKeepsDecided(s: System, i: nat, k: int)
    requires Decided(s, k) && i < |s.up|
    ensures Decided(s.(up := Without(s.up, i)), k)
  {
  }

  lemma StepKeepsDecided(s: System, ev: Event, k: int)
    requires Safe(s) && Decided(s, k) && Enabled(s, ev)
    ensures Decided(Step(s, ev), k)
  {
    if OfVest(ev) {
      VestKeepsDecided(s, ev, k);
    } else {
      match ev
      case EmitterDoes(x) => EmitterKeepsWindow(s.e, x);
      case DeliverUp => ReceiveKeepsDecided(s, k);
      case LoseUp(i) => LossKeepsDecided(s, i, k);
      case _ =>
    }
  }

  // ----- runs -----

  /** Event `n` delivers a notification to an emitter that is in a game, alive or dead. */
  predicate HeardAt(saved: G.Config, trace: seq<Event>, n: nat)
    requires Runs(saved, trace) && n < |trace|
  {
    trace[n].DeliverUp? && R.InGame(At(saved, trace, n).e)
  }

  /** The hit whose notification event `n` delivers. */
  function HitAt(saved: G.Config, trace: seq<Event>, n: nat): int
    requires Runs(saved, trace) && n < |trace| && trace[n].DeliverUp?
  {
    AtNext(saved, trace, n);
    Arriving(At(saved, trace, n)).serial
  }

  lemma HeardIsDecided(saved: G.Config, trace: seq<Event>, m: nat)
    requires Runs(saved, trace) && m < |trace| && HeardAt(saved, trace, m)
    ensures Decided(At(saved, trace, m + 1), HitAt(saved, trace, m))
  {
    AtNext(saved, trace, m);
    DeliveryDecides(At(saved, trace, m));
  }

  lemma NextIsDecided(saved: G.Config, trace: seq<Event>, n: nat, k: int)
    requires Runs(saved, trace) && n < |trace| && Decided(At(saved, trace, n), k)
    ensures Decided(At(saved, trace, n + 1), k)
  {
    AtNext(saved, trace, n);
    StepKeepsDecided(At(saved, trace, n), trace[n], k);
  }

  lemma {:induction false} StaysDecided(saved: G.Config, trace: seq<Event>, m: nat, n: nat)
    requires Runs(saved, trace) && m < n <= |trace| && HeardAt(saved, trace, m)
    ensures Decided(At(saved, trace, n), HitAt(saved, trace, m))
    decreases n
  {
    if m == n - 1 {
      HeardIsDecided(saved, trace, m);
    } else {
      StaysDecided(saved, trace, m, n - 1);
      NextIsDecided(saved, trace, n - 1, HitAt(saved, trace, m));
    }
  }

  /** Once the emitter has heard a hit in a game, accepted or taken for a duplicate, only later hits
      are ever accepted: the first copy heard in a game fixes the verdict on its hit. */
  lemma FirstCopyDecides(saved: G.Config, trace: seq<Event>, m: nat, n: nat)
    requires Runs(saved, trace) && m < n < |trace|
    requires HeardAt(saved, trace, m) && AcceptsAt(saved, trace, n)
    ensures HitAt(saved, trace, m) < SerialAt(saved, trace, n)
  {
    StaysDecided(saved, trace, m, n);
    AtNext(saved, trace, n);
    DecidedIsNotAccepted(At(saved, trace, n), HitAt(saved, trace, m));
  }

  /** A hit of which any copy was heard by a dead player is never applied afterwards, not even after the
      respawn, and whether or not that copy was taken for a duplicate. */
  lemma DeadHitNeverApplied(saved: G.Config, trace: seq<Event>, m: nat, n: nat)
    requires Runs(saved, trace) && m < n < |trace|
    requires trace[m].DeliverUp? && At(saved, trace, m).e.mode == E.Dead
    requires LosesHealth(saved, trace, n)
    ensures trace[n].DeliverUp? && HitAt(saved, trace, m) < HitAt(saved, trace, n)
  {
    AtNext(saved, trace, n);
    LossIsAcceptance(At(saved, trace, n), trace[n]);
    FirstCopyDecides(saved, trace, m, n);
  }
}
