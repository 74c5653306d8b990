/** The transmit path as the program runs it, one function at a time, and its place among the
    interleavings of the transmit pump. */
module Transmitter {
  import opened Bytes
  import opened TxQueue
  import opened TxPump

  // ----- each function run without interruption -----

  function BroadcastAlone(p: Pump, data: Frame): Pump {
    if !p.created || !Takes(p.queue, data) then p
    else p.(queue := p.queue + [data], accepted := p.accepted + [data], pumpPending := p.pumpPending || !p.broadcasting)
  }

  function PumpAlone(p: Pump, setOk: bool, startOk: bool): Pump {
    var p1 := p.(pumpPending := false);
    if p.broadcasting || p.queue == [] then p1
    else
      var p2 := p1.(queue := p.queue[1..]);
      if !p.created then p2.(outcomes := p.outcomes + [Failed(p.queue[0])])
      else if !setOk || !startOk then p2.(outcomes := p.outcomes + [Failed(p.queue[0])], pumpPending := true)
      else p2.(outcomes := p.outcomes + [Sent(p.queue[0])], onAir := true, broadcasting := true, stopScheduled := true)
  }

  function StopAlone(p: Pump): Pump {
    p.(stopScheduled := false, onAir := false, broadcasting := false, pumpPending := true)
  }

  // ----- they are interleavings of the pump -----

  lemma Prepend(p: Pump, a: Action, t: seq<Action>)
    requires Enabled(p, a) && Legal(Step(p, a), t)
    ensures Legal(p, [a] + t) && Run(p, [a] + t) == Run(Step(p, a), t)
  {
    assert ([a] + t)[1..] == t;
  }

  /** The running handler continued until it returns. */
  function Finish(p: Pump, setOk: bool, startOk: bool): Pump
    decreases Remaining(p)
  {
    if p.worker == Idle then p
    else
      var ok := if p.worker.PumpSetData? then setOk else startOk;
      WorkRunsOut(p, ok);
      Finish(WorkStep(p, ok), setOk, startOk)
  }

  lemma {:induction false} FinishIsRun(p: Pump, setOk: bool, startOk: bool) returns (t: seq<Action>)
    ensures Legal(p, t) && Run(p, t) == Finish(p, setOk, startOk)
    decreases Remaining(p)
  {
    t := [];
    if p.worker != Idle {
      var ok := if p.worker.PumpSetData? then setOk else startOk;
      WorkRunsOut(p, ok);
      var rest := FinishIsRun(WorkStep(p, ok), setOk, startOk);
      Prepend(p, Work(ok), rest);
      t := [Work(ok)] + rest;
    }
  }

  lemma SentIsFinish(p: Pump, f: Frame, setOk: bool, startOk: bool)
    requires p.worker == PumpSetData(f) && p.created
    ensures Finish(p, setOk, startOk)
         == if !setOk || !startOk then p.(worker := Idle, outcomes := p.outcomes + [Failed(f)], pumpPending := true)
            else p.(worker := Idle, outcomes := p.outcomes + [Sent(f)], onAir := true, broadcasting := true,
                    stopScheduled := true)
  {
    var p1 := WorkStep(p, setOk);
    var p2 := WorkStep(p1, startOk);
    var p3 := WorkStep(p2, startOk);
    assert Finish(p, setOk, startOk) == Finish(p1, setOk, startOk) == Finish(p2, setOk, startOk);
    if setOk {
      assert Finish(p2, setOk, startOk) == Finish(p3, setOk, startOk);
      if startOk {
        assert Finish(p3, setOk, startOk) == Finish(WorkStep(p3, startOk), setOk, startOk);
      }
    }
  }

  lemma PumpAloneIsRun(p: Pump, setOk: bool, startOk: bool) returns (t: seq<Action>)
    requires p.worker == Idle && p.pumpPending
    ensures Legal(p, t) && Run(p, t) == PumpAlone(p, setOk, startOk)
  {
    var p1 := Step(p, RunPump);
    var rest := FinishIsRun(p1, setOk, startOk);
    Prepend(p, RunPump, rest);
    t := [RunPump] + rest;
    var p2 := WorkStep(p1, startOk);
    assert Finish(p1, setOk, startOk) == Finish(p2, setOk, startOk);
    if !p.broadcasting {
      var p3 := WorkStep(p2, startOk);
      assert Finish(p2, setOk, startOk) == Finish(p3, setOk, startOk);
      if p.queue != [] && p.created {
        SentIsFinish(p3, p.queue[0], setOk, startOk);
      }
    }
  }

  lemma StopIsFinish(p: Pump)
    requires p.worker == StopAdv
    ensures Finish(p, true, true) == p.(worker := Idle, onAir := false, broadcasting := false, pumpPending := true)
  {
    var p2 := WorkStep(p, true);
    var p3 := WorkStep(p2, true);
    assert Finish(p, true, true) == Finish(p2, true, true) == Finish(p3, true, true);
    assert Finish(p3, true, true) == Finish(WorkStep(p3, true), true, true);
  }

  lemma StopAloneIsRun(p: Pump) returns (t: seq<Action>)
    requires p.worker == Idle && p.stopScheduled
    ensures Legal(p, t) && Run(p, t) == StopAlone(p)
  {
    var p1 := Step(p, RunStop);
    var rest := FinishIsRun(p1, true, true);
    Prepend(p, RunStop, rest);
    t := [RunStop] + rest;
    StopIsFinish(p1);
  }

  lemma BroadcastAloneIsRun(p: Pump, data: Frame) returns (t: seq<Action>)
    requires p.testing == 0 && p.submitting == 0
    ensures Legal(p, t) && Run(p, t) == BroadcastAlone(p, data)
  {
    var p1 := Step(p, Broadcast(data));
    t := [];
    if p1.testing > 0 {
      var p2 := Step(p1, Test);
      if p2.submitting > 0 {
        Prepend(p2, Submit, []);
        t := [Submit] + t;
      }
      Prepend(p1, Test, t);
      t := [Test] + t;
    }
    Prepend(p, Broadcast(data), t);
    t := [Broadcast(data)] + t;
  }

  // ----- the program -----

  class Radio {
    var codedAdvSet: bool
    var queue: Queue
    var isBroadcasting: bool
    var pumpPending: bool
    var stopScheduled: bool
    ghost var onAir: bool
    ghost var accepted: seq<Frame>
    ghost var outcomes: seq<Outcome>

    ghost predicate Valid()
      reads this, queue
    {
      queue.Valid()
    }

    /** Between calls no handler runs and no caller is half-way. */
    ghost function Abs(): Pump
      requires Valid()
      reads this, queue, queue.slots
    {
      Pump(codedAdvSet, queue.Contents(), isBroadcasting, onAir, pumpPending, stopScheduled, Idle, 0, 0,
           accepted, outcomes)
    }

    constructor ()
      ensures Valid() && Abs() == START && fresh(queue) && fresh(queue.slots)
    {
      codedAdvSet, isBroadcasting, pumpPending, stopScheduled := false, false, false, false;
      queue := new Queue();
      onAir, accepted, outcomes := false, [], [];
    }

    method DoCodedBroadcast(data: Frame)
      requires Valid()
      modifies this`pumpPending, this`accepted, queue`tail, queue`count, queue.slots
      ensures Valid() && Abs() == BroadcastAlone(old(Abs()), data)
    {
      if !codedAdvSet || |data| == 0 {
        return;
      }
      var ok := queue.Push(data);
      if !ok {
        return;
      }
      accepted := accepted + [data];
      if !isBroadcasting {
        pumpPending := true;
      }
    }

    /** `setOk` and `startOk` are the radio's answers to setting the data and to starting. */
    method TxPumpHandler(setOk: bool, startOk: bool)
      requires Valid() && pumpPending
      modifies this, queue`head, queue`count
      ensures Valid() && queue == old(queue) && Abs() == PumpAlone(old(Abs()), setOk, startOk)
    {
      pumpPending := false;
      if isBroadcasting {
        return;
      }
      var frame := queue.Pop();
      if frame == None {
        return;
      }
      if !codedAdvSet {
        outcomes := outcomes + [Failed(frame.value)];
        return;
      }
      if !setOk {
        outcomes := outcomes + [Failed(frame.value)];
        pumpPending := true;
        return;
      }
      if !startOk {
        outcomes := outcomes + [Failed(frame.value)];
        pumpPending := true;
        return;
      }
      onAir, outcomes := true, outcomes + [Sent(frame.value)];
      isBroadcasting := true;
      stopScheduled := true;
    }

    method StopAdvHandler()
      requires Valid() && stopScheduled
      modifies this`stopScheduled, this`onAir, this`isBroadcasting, this`pumpPending
      ensures Valid() && Abs() == StopAlone(old(Abs()))
    {
      stopScheduled := false;
      onAir := false;
      isBroadcasting := false;
      pumpPending := true;
    }
  }
}
