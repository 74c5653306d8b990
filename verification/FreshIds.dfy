/** Which draws of a hit's random id are harmless: exactly the fresh ones. */
module FreshIds {
  import opened Bytes
  import opened HitAcks
  import opened HitDelivery
  import opened HitRuns
  import opened Protocol
  import opened Sequences
  import IrLink
  import V = Vest
  import E = Emitter
  import R = EmitterRuns

  /** The next acknowledgement ends the vest's hit although the emitter never accepted it. */
  predicate EndsUnaccepted(s: System) {
    && Safe(s) && Enabled(s, DeliverDown) && EndsPending(s, DeliverDown)
    && !Known(s.accepted, |s.hits| - 1)
  }

  /** A legal continuation in which every further id is fresh when it is drawn. */
  ghost predicate Leads(s: System, trace: seq<Event>, t: System)
    decreases |trace|
  {
    && Safe(s)
    && if |trace| == 0 then t == s
       else Enabled(s, trace[0]) && DrawsFresh(s, trace[0]) && Leads(Step(s, trace[0]), trace[1..], t)
  }

  /** Nothing that can happen, with fresh ids from now on, ends a hit that was not accepted. */
  ghost predicate Harmless(s: System) {
    forall trace, t :: Leads(s, trace, t) ==> !EndsUnaccepted(t)
  }

  // ----- fresh draws are harmless -----

  lemma {:induction false} SoundnessIsKept(s: System, trace: seq<Event>, t: System)
    requires Sound(s) && Leads(s, trace, t)
    ensures Sound(t)
    decreases |trace|
  {
    if |trace| > 0 {
      if OfVest(trace[0]) {
        VestEventIsSound(s, trace[0]);
      } else {
        OtherEventIsSound(s, trace[0]);
      }
      SoundnessIsKept(Step(s, trace[0]), trace[1..], t);
    }
  }

  lemma SoundIsHarmless(s: System)
    requires Sound(s)
    ensures Harmless(s)
  {
    forall trace, t | Leads(s, trace, t)
      ensures !EndsUnaccepted(t)
    {
      SoundnessIsKept(s, trace, t);
      if Enabled(t, DeliverDown) && EndsPending(t, DeliverDown) {
        EndedHitIsKnown(t, DeliverDown);
      }
    }
  }

  // ----- any other draw can do harm -----

  lemma Before(s: System, ev: Event, trace: seq<Event>, t: System)
    requires Safe(s) && Enabled(s, ev) && !ev.IrFrame? && Leads(Step(s, ev), trace, t)
    ensures Leads(s, [ev] + trace, t)
  {
    assert ([ev] + trace)[1..] == trace;
  }

  lemma LoseFirstUp(s: System)
    requires Safe(s) && |s.up| > 0
    ensures Enabled(s, LoseUp(0)) && Safe(Step(s, LoseUp(0))) && Step(s, LoseUp(0)) == s.(up := s.up[1..])
  {
    StepIsSafe(s, LoseUp(0));
    assert Without(s.up, 0) == s.up[1..];
  }

  /** What can follow once the first `n` notifications are lost can follow now. */
  lemma {:induction false} LoseUps(s: System, n: nat, rest: seq<Event>, t: System) returns (trace: seq<Event>)
    requires Safe(s) && n <= |s.up| && Leads(s.(up := s.up[n..]), rest, t)
    ensures Leads(s, trace, t)
    decreases n
  {
    trace := rest;
    if n == 0 {
      assert s.up[0..] == s.up;
    } else {
      LoseFirstUp(s);
      assert s.up[1..][n - 1..] == s.up[n..];
      trace := LoseUps(s.(up := s.up[1..]), n - 1, rest, t);
      Before(s, LoseUp(0), trace, t);
      trace := [LoseUp(0)] + trace;
    }
  }

  lemma LoseFirstDown(s: System)
    requires Safe(s) && |s.down| > 0
    ensures Enabled(s, LoseDown(0)) && Safe(Step(s, LoseDown(0))) && Step(s, LoseDown(0)) == s.(down := s.down[1..])
  {
    StepIsSafe(s, LoseDown(0));
    assert Without(s.down, 0) == s.down[1..];
  }

  lemma {:induction false} LoseDowns(s: System, n: nat, rest: seq<Event>, t: System) returns (trace: seq<Event>)
    requires Safe(s) && n <= |s.down| && Leads(s.(down := s.down[n..]), rest, t)
    ensures Leads(s, trace, t)
    decreases n
  {
    trace := rest;
    if n == 0 {
      assert s.down[0..] == s.down;
    } else {
      LoseFirstDown(s);
      assert s.down[1..][n - 1..] == s.down[n..];
      trace := LoseDowns(s.(down := s.down[1..]), n - 1, rest, t);
      Before(s, LoseDown(0), trace, t);
      trace := [LoseDown(0)] + trace;
    }
  }

  lemma AckDelivered(s: System, id: u16)
    requires Safe(s) && |s.down| > 0 && s.down[0].cmd == E.HitAck(id) && s.v.hit.pending && s.v.hit.id == id
    ensures Enabled(s, DeliverDown) && EndsPending(s, DeliverDown)
    ensures var s1 := Step(s, DeliverDown);
            Safe(s1) && s1 == s.(v := s.v.(hit := V.DropHit(s.v.hit)), down := s.down[1..])
  {
    StepIsSafe(s, DeliverDown);
    Le16RoundTrip(id);
  }

  /** Everything accepted is older than a hit just taken up. */
  lemma NewHitNotKnown(s: System)
    requires Safe(s)
    ensures !Known(s.accepted, |s.hits|)
  {
  }

  /** The vest waits for its latest hit, which has this id and is not known to the emitter. */
  predicate Waits(s: System, id: u16) {
    && Safe(s) && s.v.hit.pending && s.v.hit.id == id && !Known(s.accepted, |s.hits| - 1)
  }

  /** An answer to the id is the next to arrive. */
  lemma AnswerArrives(s: System, id: u16)
    requires Waits(s, id) && |s.down| > 0 && s.down[0].cmd == E.HitAck(id)
    ensures EndsUnaccepted(s)
  {
    AckDelivered(s, id);
  }

  /** Another notification with the id, or one whose id is in the ring, is the next to reach the emitter. */
  lemma AnswerIsSent(s: System, id: u16)
    requires Waits(s, id) && s.linked && s.e.vestReady && R.InGame(s.e) && s.down == []
    requires |s.up| > 0 && s.hits[ChannelSerial(s, 0)].id == id
    requires id in s.e.window || s.up[0].serial < |s.hits| - 1
    ensures Enabled(s, DeliverUp) && EndsUnaccepted(Step(s, DeliverUp))
  {
    var m := Arriving(s);
    CarriedId(m, s.hits);
    StepIsSafe(s, DeliverUp);
    StepAccepts(s, DeliverUp);
    FirstIsAck(s.e, m.data);
    KnownGrows(s.accepted, Accept(m.serial, s.e.mode == E.GameActive), |s.hits| - 1);
    AnswerArrives(Step(s, DeliverUp), id);
  }

  lemma FirstIsAck(e: E.Emitter, data: seq<byte>)
    requires |data| == HIT_PAYLOAD_SIZE && R.InGame(e) && e.vestReady
    ensures var cmds := E.OnNotify(e, data).1; |cmds| > 0 && cmds[0] == E.HitAck(IdOf(data))
  {
  }

  lemma ShorterUpIsSafe(s: System, i: nat)
    requires Safe(s) && i <= |s.up|
    ensures Safe(s.(up := s.up[i..]))
  {
  }

  lemma ShorterDownIsSafe(s: System, j: nat)
    requires Safe(s) && j <= |s.down|
    ensures Safe(s.(down := s.down[j..]))
  {
  }

  /** Somewhere in the channels waits what will answer the id: its acknowledgement, a notification with
      it, or any notification of it while the ring holds it. */
  lemma AnswerReachable(s: System, id: u16, i: nat, j: nat)
    requires Waits(s, id) && s.linked && s.e.vestReady && R.InGame(s.e)
    requires i <= |s.up| && j <= |s.down|
    requires (j < |s.down| && s.down[j].cmd == E.HitAck(id))
          || (j == |s.down| && i < |s.up| && s.hits[ChannelSerial(s, i)].id == id
              && (id in s.e.window || s.up[i].serial < |s.hits| - 1))
    ensures !Harmless(s)
  {
    var s1 := s.(up := s.up[i..]);
    var t := s1.(down := s.down[j..]);
    ShorterUpIsSafe(s, i);
    ShorterDownIsSafe(s1, j);
    var end, rest := t, [];
    if j < |s.down| {
      AnswerArrives(t, id);
    } else {
      AnswerIsSent(t, id);
      end := Step(t, DeliverUp);
      Before(t, DeliverUp, [], end);
      rest := [DeliverUp] + [];
    }
    var trace := LoseDowns(s1, j, rest, end);
    trace := LoseUps(s, i, trace, end);
    assert Leads(s, trace, end) && EndsUnaccepted(end);
  }

  /** The vest takes up a hit. */
  lemma TakenWaits(s: System, p: IrLink.HitPacket, id: u16)
    requires Safe(s) && s.linked && s.v.connected && TakesUp(s, IrFrame(p, true, id))
    ensures var s1 := Step(s, IrFrame(p, true, id));
            && Waits(s1, id) && s1 == s.(v := s1.v, up := s1.up, hits := s.hits + [Taken(id, p)])
            && s1.up == s.up + [Up(|s.hits|, V.HitPayload(id, p))]
  {
    StepIsSafe(s, IrFrame(p, true, id));
    NewHitNotKnown(s);
  }

  /** A draw that is not fresh can do harm without any further draw. */
  lemma StaleDrawIsHarmful(s: System, p: IrLink.HitPacket, id: u16)
    requires Safe(s) && s.linked && s.v.connected && s.e.vestReady && R.InGame(s.e)
    requires TakesUp(s, IrFrame(p, true, id)) && !Fresh(s, id)
    ensures !Harmless(Step(s, IrFrame(p, true, id)))
  {
    TakenWaits(s, p, id);
    var s1 := Step(s, IrFrame(p, true, id));
    if id in s.e.window {
      AnswerReachable(s1, id, |s.up|, |s1.down|);
    } else if j :| 0 <= j < |s.down| && s.down[j].cmd == E.HitAck(id) {
      AnswerReachable(s1, id, 0, j);
    } else {
      var i :| 0 <= i < |s.up| && s.hits[ChannelSerial(s, i)].id == id;
      assert s1.hits[ChannelSerial(s1, i)].id == id;
      AnswerReachable(s1, id, i, |s1.down|);
    }
  }

  /** Exactly the fresh draws are harmless: a hit is taken up in a game over a working link, all ids
      under way being apart. If its id is fresh, nothing that happens later, with fresh ids, ends a hit
      that the emitter did not accept; if it is not, something can. */
  lemma FreshIsHarmless(s: System, p: IrLink.HitPacket, id: u16)
    requires Sound(s) && s.linked && s.v.connected && s.e.vestReady && R.InGame(s.e)
    requires TakesUp(s, IrFrame(p, true, id))
    ensures Fresh(s, id) <==> Harmless(Step(s, IrFrame(p, true, id)))
  {
    if Fresh(s, id) {
      VestEventIsSound(s, IrFrame(p, true, id));
      SoundIsHarmless(Step(s, IrFrame(p, true, id)));
    } else {
      StaleDrawIsHarmful(s, p, id);
    }
  }
}
