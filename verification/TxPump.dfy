/** The transmit pump: callers on several threads, one work-queue thread, and a radio that may fail.
    Every step is one atomic action of one thread. */
module TxPump {
  import opened TxQueue

  /** Where the work-queue thread is: idle, inside the pump's handler or inside the stop handler. */
  datatype Worker = Idle
    | PumpCheck | PumpPop | PumpSetData(frame: Frame) | PumpStartAdv(frame: Frame)
    | PumpMark | PumpSchedule | PumpResubmit
    | StopAdv | StopClear | StopSubmit

  /** A frame taken from the queue: put on the air, or lost to a radio error. */
  datatype Outcome = Sent(frame: Frame) | Failed(frame: Frame)

  /** `testing` callers have pushed a frame and not yet looked at the flag; `submitting` callers found
      it clear and have not yet submitted the pump. `accepted` and `outcomes` are the history. */
  datatype Pump = Pump(created: bool, queue: seq<Frame>, broadcasting: bool, onAir: bool,
                       pumpPending: bool, stopScheduled: bool, worker: Worker, testing: nat, submitting: nat,
                       accepted: seq<Frame>, outcomes: seq<Outcome>)

  const START := Pump(false, [], false, false, false, false, Idle, 0, 0, [], [])

  datatype Action = CreateSet | Broadcast(data: Frame) | Test | Submit
    | RunPump | RunStop | Work(radioOk: bool)

  predicate Enabled(p: Pump, a: Action) {
    match a
    case Test => p.testing > 0
    case Submit => p.submitting > 0
    case RunPump => p.worker == Idle && p.pumpPending
    case RunStop => p.worker == Idle && p.stopScheduled
    case Work(_) => p.worker != Idle
    case _ => true
  }

  /** The next action of the handler that is running. */
  function WorkStep(p: Pump, radioOk: bool): Pump {
    match p.worker
    case Idle => p
    case PumpCheck => p.(worker := if p.broadcasting then Idle else PumpPop)
    case PumpPop =>
      if p.queue == [] then p.(worker := Idle)
      else if !p.created then p.(worker := Idle, queue := p.queue[1..], outcomes := p.outcomes + [Failed(p.queue[0])])
      else p.(worker := PumpSetData(p.queue[0]), queue := p.queue[1..])
    case PumpSetData(f) =>
      if radioOk then p.(worker := PumpStartAdv(f))
      else p.(worker := PumpResubmit, outcomes := p.outcomes + [Failed(f)])
    case PumpStartAdv(f) =>
      if radioOk then p.(worker := PumpMark, onAir := true, outcomes := p.outcomes + [Sent(f)])
      else p.(worker := PumpResubmit, outcomes := p.outcomes + [Failed(f)])
    case PumpMark => p.(worker := PumpSchedule, broadcasting := true)
    case PumpSchedule => p.(worker := Idle, stopScheduled := true)
    case PumpResubmit => p.(worker := Idle, pumpPending := true)
    case StopAdv => p.(worker := StopClear, onAir := false)
    case StopClear => p.(worker := StopSubmit, broadcasting := false)
    case StopSubmit => p.(worker := Idle, pumpPending := true)
  }

  function Step(p: Pump, a: Action): Pump
    requires Enabled(p, a)
  {
    match a
    case CreateSet => p.(created := true)
    case Broadcast(data) =>
      if !p.created || !Takes(p.queue, data) then p
      else p.(queue := p.queue + [data], accepted := p.accepted + [data], testing := p.testing + 1)
    case Test =>
      p.(testing := p.testing - 1, submitting := if p.broadcasting then p.submitting else p.submitting + 1)
    case Submit => p.(submitting := p.submitting - 1, pumpPending := true)
    case RunPump => p.(pumpPending := false, worker := PumpCheck)
    case RunStop => p.(stopScheduled := false, worker := StopAdv)
    case Work(radioOk) => WorkStep(p, radioOk)
  }

  // ----- what every step keeps -----

  /** Somebody is going to run the pump, or is about to find out whether they must. */
  predicate WakeUp(p: Pump) {
    p.pumpPending || p.stopScheduled || p.worker != Idle || p.testing > 0 || p.submitting > 0
  }

  function InHand(w: Worker): seq<Frame> {
    match w
    case PumpSetData(f) => [f]
    case PumpStartAdv(f) => [f]
    case _ => []
  }

  function Frames(outcomes: seq<Outcome>): seq<Frame> {
    seq(|outcomes|, i requires 0 <= i < |outcomes| => outcomes[i].frame)
  }

  /** Every accepted frame is dealt with, in hand or queued, in the order of acceptance. */
  predicate Conserved(p: Pump) {
    p.accepted == Frames(p.outcomes) + InHand(p.worker) + p.queue
  }

  predicate Inv(p: Pump) {
    && |p.queue| <= QUEUE_SIZE && (p.queue != [] ==> p.created && WakeUp(p))
    && (p.broadcasting ==> p.stopScheduled || p.worker == PumpSchedule || p.worker == StopAdv || p.worker == StopClear)
    && (p.onAir ==> p.broadcasting || p.worker == PumpMark) && (p.worker == StopClear ==> !p.onAir)
    && (p.worker == PumpPop || InHand(p.worker) != [] ==> !p.onAir && !p.broadcasting)
    && (InHand(p.worker) != [] || p.worker == PumpMark ==> p.created && !p.broadcasting)
    && Conserved(p)
  }

  lemma NextOutcome(outcomes: seq<Outcome>, o: Outcome, queue: seq<Frame>)
    ensures Frames(outcomes + [o]) + [] + queue == Frames(outcomes) + [o.frame] + queue
  {
    assert Frames(outcomes + [o]) == Frames(outcomes) + [o.frame];
  }

  lemma Regroup(done: seq<Frame>, queue: seq<Frame>)
    requires queue != []
    ensures done + [] + queue == done + [queue[0]] + queue[1..]
  {
  }

  lemma PopKeepsInv(p: Pump)
    requires Inv(p) && p.worker == PumpPop
    ensures Inv(WorkStep(p, true))
  {
    if p.queue != [] {
      Regroup(Frames(p.outcomes), p.queue);
    }
  }

  lemma SendKeepsInv(p: Pump, f: Frame, radioOk: bool)
    requires Inv(p) && (p.worker == PumpSetData(f) || p.worker == PumpStartAdv(f))
    ensures Inv(WorkStep(p, radioOk))
  {
    NextOutcome(p.outcomes, Failed(f), p.queue);
    NextOutcome(p.outcomes, Sent(f), p.queue);
  }

  lemma WorkKeepsInv(p: Pump, radioOk: bool)
    requires Inv(p) && p.worker != Idle
    ensures Inv(WorkStep(p, radioOk))
  {
    match p.worker
    case PumpPop => PopKeepsInv(p);
    case PumpSetData(f) => SendKeepsInv(p, f, radioOk);
    case PumpStartAdv(f) => SendKeepsInv(p, f, radioOk);
    case _ =>
  }

  lemma BroadcastKeepsInv(p: Pump, data: Frame)
    requires Inv(p)
    ensures Inv(Step(p, Broadcast(data)))
  {
    assert p.accepted + [data] == Frames(p.outcomes) + InHand(p.worker) + (p.queue + [data]);
  }

  lemma StepKeepsInv(p: Pump, a: Action)
    requires Inv(p) && Enabled(p, a)
    ensures Inv(Step(p, a))
  {
    match a
    case Work(radioOk) => WorkKeepsInv(p, radioOk);
    case Broadcast(data) => BroadcastKeepsInv(p, data);
    case _ =>
  }

  predicate Legal(p: Pump, trace: seq<Action>)
    decreases |trace|
  {
    |trace| == 0 || (Enabled(p, trace[0]) && Legal(Step(p, trace[0]), trace[1..]))
  }

  function Run(p: Pump, trace: seq<Action>): Pump
    requires Legal(p, trace)
    decreases |trace|
  {
    if |trace| == 0 then p else Run(Step(p, trace[0]), trace[1..])
  }

  lemma {:induction false} RunKeepsInv(p: Pump, trace: seq<Action>)
    requires Inv(p) && Legal(p, trace)
    ensures Inv(Run(p, trace))
    decreases |trace|
  {
    if |trace| > 0 {
      StepKeepsInv(p, trace[0]);
      RunKeepsInv(Step(p, trace[0]), trace[1..]);
    }
  }

  /** No wake-up is lost: in every interleaving a frame in the queue means that the pump or the stop
      handler is pending or running, or that a caller is about to test or submit. */
  lemma NoLostWakeUp(trace: seq<Action>)
    requires Legal(START, trace)
    ensures Run(START, trace).queue != [] ==> WakeUp(Run(START, trace))
    ensures Conserved(Run(START, trace)) && |Run(START, trace).queue| <= QUEUE_SIZE
  {
    RunKeepsInv(START, trace);
  }

  /** A frame is put on the radio only while no other frame is on the air. */
  lemma OneFrameOnAir(trace: seq<Action>)
    requires Legal(START, trace)
    ensures InHand(Run(START, trace).worker) != [] ==> !Run(START, trace).onAir
  {
    RunKeepsInv(START, trace);
  }

  // ----- everything accepted is dealt with -----

  function Rank(w: Worker): nat {
    match w
    case Idle => 0
    case PumpPop => 1
    case PumpCheck => 2
    case PumpResubmit => 4
    case StopSubmit => 4
    case StopClear => 5
    case StopAdv => 6
    case PumpSchedule => 8
    case PumpMark => 9
    case PumpStartAdv(_) => 10
    case PumpSetData(_) => 11
  }

  /** The steps still to come if nobody broadcasts anything more. */
  function Remaining(p: Pump): nat {
    11 * |p.queue| + Rank(p.worker) + (if p.pumpPending then 3 else 0) + (if p.stopScheduled then 7 else 0)
    + 5 * p.testing + 4 * p.submitting
  }

  predicate Internal(a: Action) {
    !a.Broadcast? && !a.CreateSet?
  }

  lemma WorkRunsOut(p: Pump, radioOk: bool)
    requires p.worker != Idle
    ensures Remaining(WorkStep(p, radioOk)) < Remaining(p)
  {
    match p.worker
    case PumpPop => PopRunsOut(p, radioOk);
    case PumpSetData(_) => SendRunsOut(p, radioOk);
    case PumpStartAdv(_) => SendRunsOut(p, radioOk);
    case _ => OtherWorkRunsOut(p, radioOk);
  }

  lemma SendRunsOut(p: Pump, radioOk: bool)
    requires p.worker.PumpSetData? || p.worker.PumpStartAdv?
    ensures Remaining(WorkStep(p, radioOk)) < Remaining(p)
  {
  }

  lemma OtherWorkRunsOut(p: Pump, radioOk: bool)
    requires p.worker != Idle && p.worker != PumpPop && !p.worker.PumpSetData? && !p.worker.PumpStartAdv?
    ensures Remaining(WorkStep(p, radioOk)) < Remaining(p)
  {
  }

  lemma PopRunsOut(p: Pump, radioOk: bool)
    requires p.worker == PumpPop
    ensures Remaining(WorkStep(p, radioOk)) < Remaining(p)
  {
    if p.queue != [] {
      assert |p.queue[1..]| == |p.queue| - 1;
    }
  }

  lemma StepsRunOut(p: Pump, a: Action)
    requires Enabled(p, a) && Internal(a)
    ensures Remaining(Step(p, a)) < Remaining(p)
  {
    if a.Work? {
      WorkRunsOut(p, a.radioOk);
    }
  }

  lemma {:induction false} InternalRunsAreShort(p: Pump, trace: seq<Action>)
    requires Legal(p, trace) && forall i :: 0 <= i < |trace| ==> Internal(trace[i])
    ensures |trace| + Remaining(Run(p, trace)) <= Remaining(p)
    decreases |trace|
  {
    if |trace| > 0 {
      StepsRunOut(p, trace[0]);
      InternalRunsAreShort(Step(p, trace[0]), trace[1..]);
    }
  }

  /** Nothing but a new broadcast can happen. */
  predicate Quiescent(p: Pump) {
    !Enabled(p, Test) && !Enabled(p, Submit) && !Enabled(p, RunPump) && !Enabled(p, RunStop) && !Enabled(p, Work(true))
  }

  lemma QuiescentIsEmpty(p: Pump)
    requires Inv(p) && Quiescent(p)
    ensures p.queue == [] && p.accepted == Frames(p.outcomes)
  {
    assert Frames(p.outcomes) + [] + [] == Frames(p.outcomes);
  }

  /** Whatever happened before, once callers stop broadcasting only boundedly many steps are left, and
      when none is left the queue is empty and every accepted frame was sent or failed on the radio,
      in the order of acceptance. */
  lemma AcceptedFramesAreDealtWith(before: seq<Action>, after: seq<Action>)
    requires Legal(START, before) && Legal(Run(START, before), after)
    requires forall i :: 0 <= i < |after| ==> Internal(after[i])
    ensures |after| <= Remaining(Run(START, before))
    ensures var p := Run(Run(START, before), after);
            Quiescent(p) ==> p.queue == [] && p.accepted == Frames(p.outcomes)
  {
    var p := Run(START, before);
    RunKeepsInv(START, before);
    RunKeepsInv(p, after);
    InternalRunsAreShort(p, after);
    if Quiescent(Run(p, after)) {
      QuiescentIsEmpty(Run(p, after));
    }
  }

  // ----- what is accepted, and what a working radio sends -----

  /** A broadcast is accepted exactly if the radio is set up, the frame has 1 to 256 bytes and fewer than four
      frames are queued. */
  lemma AcceptedExactly(p: Pump, data: Frame)
    ensures Step(p, Broadcast(data)).accepted
         == p.accepted + (if p.created && 1 <= |data| <= 256 && |p.queue| < 4 then [data] else [])
  {
    if !(p.created && Takes(p.queue, data)) {
      assert p.accepted + [] == p.accepted;
    }
  }

  predicate NoFailure(trace: seq<Action>) {
    forall i :: 0 <= i < |trace| && trace[i].Work? ==> trace[i].radioOk
  }

  predicate AllSent(outcomes: seq<Outcome>) {
    forall i :: 0 <= i < |outcomes| ==> outcomes[i].Sent?
  }

  lemma NothingFailsNow(p: Pump, a: Action)
    requires Inv(p) && Enabled(p, a) && AllSent(p.outcomes) && (a.Work? ==> a.radioOk)
    ensures AllSent(Step(p, a).outcomes)
  {
  }

  lemma {:induction false} NothingFails(p: Pump, trace: seq<Action>)
    requires Inv(p) && Legal(p, trace) && NoFailure(trace) && AllSent(p.outcomes)
    ensures AllSent(Run(p, trace).outcomes)
    decreases |trace|
  {
    if |trace| > 0 {
      StepKeepsInv(p, trace[0]);
      NothingFailsNow(p, trace[0]);
      NothingFails(Step(p, trace[0]), trace[1..]);
    }
  }

  /** If the radio never fails, every accepted frame is on the way or was sent, in the order of acceptance, and
      none is left when nothing more can happen. */
  lemma WorkingRadioSendsAll(trace: seq<Action>)
    requires Legal(START, trace) && NoFailure(trace)
    ensures var p := Run(START, trace);
            && AllSent(p.outcomes) && p.accepted == Frames(p.outcomes) + InHand(p.worker) + p.queue
            && (Quiescent(p) ==> p.accepted == Frames(p.outcomes))
  {
    NothingFails(START, trace);
    RunKeepsInv(START, trace);
    if Quiescent(Run(START, trace)) {
      QuiescentIsEmpty(Run(START, trace));
    }
  }
}
