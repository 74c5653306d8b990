/** How often a node sends its own frames: whatever it sends, hears and relays in between, a broadcast
    goes out once and then once for every run of the repeat item, until another one takes the repeat slot. */
module MeshRepeats {
  import opened Bytes
  import opened MeshNode

  /** What a node does, in any order. */
  datatype Activity = Send(meshType: byte, payload: seq<byte>, count: byte) | RepeatFires
    | Hear(frame: Frame, overrun: byte) | RelayFires

  /** One transmission of the node's own broadcast with this serial. */
  datatype Sent = Sent(serial: nat, frame: Frame)

  /** A node with the number of broadcasts built so far, the one in the repeat slot, and all
      transmissions of its own frames. */
  datatype Sender = Sender(node: Node, built: nat, slot: nat, log: seq<Sent>)

  predicate Enabled(s: Sender, a: Activity) {
    match a
    case Send(_, payload, _) => |payload| < 0x100
    case RepeatFires => s.node.repeatScheduled
    case RelayFires => s.node.relayScheduled
    case Hear(_, _) => true
  }

  function AfterSend(s: Sender, meshType: byte, payload: seq<byte>, count: byte): Sender
    requires |payload| < 0x100
  {
    var (n, out) := Broadcast(s.node, meshType, payload, count);
    if out == [] then s.(node := n)
    else Sender(n, s.built + 1, if count > 1 then s.built else s.slot, s.log + [Sent(s.built, out[0])])
  }

  function AfterRepeat(s: Sender): Sender {
    var (n, out) := OnRepeat(s.node);
    if out == [] then s.(node := n) else s.(node := n, log := s.log + [Sent(s.slot, out[0])])
  }

  function Step(s: Sender, a: Activity): Sender
    requires Enabled(s, a)
  {
    match a
    case Send(meshType, payload, count) => AfterSend(s, meshType, payload, count)
    case RepeatFires => AfterRepeat(s)
    case Hear(f, overrun) => s.(node := OnScan(s.node, f, overrun).0)
    case RelayFires => s.(node := OnRelay(s.node).0)
  }

  predicate Legal(s: Sender, trace: seq<Activity>)
    decreases |trace|
  {
    |trace| == 0 || (Enabled(s, trace[0]) && Legal(Step(s, trace[0]), trace[1..]))
  }

  function Run(s: Sender, trace: seq<Activity>): Sender
    requires Legal(s, trace)
    decreases |trace|
  {
    if |trace| == 0 then s else Run(Step(s, trace[0]), trace[1..])
  }

  /** The repeat item is scheduled exactly while repetitions remain, those of a broadcast built before. */
  predicate Tidy(s: Sender) {
    && s.node.repeatScheduled == (s.node.remaining > 0)
    && (s.node.remaining > 0 ==> s.slot < s.built)
    && forall i :: 0 <= i < |s.log| ==> s.log[i].serial < s.built
  }

  lemma StepKeepsTidy(s: Sender, a: Activity)
    requires Tidy(s) && Enabled(s, a)
    ensures Tidy(Step(s, a))
  {
    if a.Hear? {
      HearKeepsSlot(s.node, a.frame, a.overrun);
    }
  }

  lemma HearKeepsSlot(n: Node, f: Frame, overrun: byte)
    ensures var n' := OnScan(n, f, overrun).0;
            n' == n.(window := n'.window, relay := n'.relay, relayScheduled := n'.relayScheduled)
  {
  }

  lemma {:induction false} RunIsTidy(s: Sender, trace: seq<Activity>)
    requires Tidy(s) && Legal(s, trace)
    ensures Tidy(Run(s, trace))
    decreases |trace|
  {
    if |trace| > 0 {
      StepKeepsTidy(s, trace[0]);
      RunIsTidy(Step(s, trace[0]), trace[1..]);
    }
  }

  // ----- counting -----

  /** How often the broadcast `k` was sent. */
  function Times(log: seq<Sent>, k: nat): nat {
    if |log| == 0 then 0 else Times(log[..|log| - 1], k) + if log[|log| - 1].serial == k then 1 else 0
  }

  lemma OneMore(log: seq<Sent>, t: Sent, k: nat)
    ensures Times(log + [t], k) == Times(log, k) + if t.serial == k then 1 else 0
  {
    assert (log + [t])[..|log|] == log;
  }

  lemma {:induction false} NeverYet(log: seq<Sent>, k: nat)
    requires forall i :: 0 <= i < |log| ==> log[i].serial < k
    ensures Times(log, k) == 0
  {
    if |log| > 0 {
      NeverYet(log[..|log| - 1], k);
    }
  }

  predicate AlwaysAs(log: seq<Sent>, k: nat, f: Frame) {
    forall i :: 0 <= i < |log| && log[i].serial == k ==> log[i].frame == f
  }

  /** A broadcast with repetitions that fits: it takes the repeat slot. */
  predicate TakesSlot(a: Activity) {
    a.Send? && a.count > 1 && HEADER_SIZE + |a.payload| <= BUF_SIZE
  }

  /** How often the repeat item runs before another broadcast takes the slot. */
  function Fires(trace: seq<Activity>): nat
    decreases |trace|
  {
    if |trace| == 0 || TakesSlot(trace[0]) then 0 else (if trace[0].RepeatFires? then 1 else 0) + Fires(trace[1..])
  }

  /** Once its slot is taken, or if it never had it, a broadcast is not sent again. */
  lemma {:induction false} NotSentAgain(s: Sender, trace: seq<Activity>, k: nat, f: Frame)
    requires Tidy(s) && Legal(s, trace) && k < s.built && (s.node.remaining > 0 ==> s.slot != k)
    requires AlwaysAs(s.log, k, f)
    ensures Times(Run(s, trace).log, k) == Times(s.log, k) && AlwaysAs(Run(s, trace).log, k, f)
    decreases |trace|
  {
    if |trace| > 0 {
      StepKeepsTidy(s, trace[0]);
      OtherActivity(s, trace[0], k);
      NotSentAgain(Step(s, trace[0]), trace[1..], k, f);
    }
  }

  lemma OtherActivity(s: Sender, a: Activity, k: nat)
    requires Tidy(s) && Enabled(s, a) && k < s.built && (s.node.remaining > 0 ==> s.slot != k)
    ensures var s1 := Step(s, a);
            && k < s1.built && (s1.node.remaining > 0 ==> s1.slot != k) && Times(s1.log, k) == Times(s.log, k)
            && (s1.log == s.log
                || (|s1.log| == |s.log| + 1 && s1.log[..|s.log|] == s.log && s1.log[|s.log|].serial != k))
  {
    match a
    case Send(meshType, payload, count) =>
      if HEADER_SIZE + |payload| <= BUF_SIZE {
        OneMore(s.log, Sent(s.built, Built(s.node, meshType, payload)), k);
      }
    case RepeatFires => OneMore(s.log, Sent(s.slot, s.node.repeat), k);
    case Hear(frame, overrun) => HearKeepsSlot(s.node, frame, overrun);
    case RelayFires =>
  }

  /** While a broadcast has the slot, it is sent once at every run of the repeat item. */
  lemma {:induction false} SentWhenFired(s: Sender, trace: seq<Activity>, f: Frame)
    requires Tidy(s) && Legal(s, trace) && s.slot < s.built && s.node.repeat == f && AlwaysAs(s.log, s.slot, f)
    ensures Times(Run(s, trace).log, s.slot) == Times(s.log, s.slot) + Fires(trace)
    ensures AlwaysAs(Run(s, trace).log, s.slot, f) && Fires(trace) <= s.node.remaining
    ensures (forall i :: 0 <= i < |trace| ==> !TakesSlot(trace[i])) ==>
              Run(s, trace).node.remaining == s.node.remaining - Fires(trace)
    decreases |trace|
  {
    if |trace| > 0 {
      var s1 := Step(s, trace[0]);
      StepKeepsTidy(s, trace[0]);
      SlotActivity(s, trace[0], f);
      if TakesSlot(trace[0]) {
        NotSentAgain(s1, trace[1..], s.slot, f);
      } else {
        SentWhenFired(s1, trace[1..], f);
      }
    }
  }

  lemma SlotActivity(s: Sender, a: Activity, f: Frame)
    requires Tidy(s) && Enabled(s, a) && s.slot < s.built && s.node.repeat == f && AlwaysAs(s.log, s.slot, f)
    ensures var s1 := Step(s, a);
            && AlwaysAs(s1.log, s.slot, f) && s.slot < s1.built
            && Times(s1.log, s.slot) == Times(s.log, s.slot) + (if a.RepeatFires? then 1 else 0)
            && (if TakesSlot(a) then s1.slot != s.slot
                else s1.slot == s.slot && s1.node.repeat == f
                     && s.node.remaining == s1.node.remaining + (if a.RepeatFires? then 1 else 0))
  {
    match a
    case Send(meshType, payload, count) => SendBesideSlot(s, meshType, payload, count, f);
    case RepeatFires => OneMore(s.log, Sent(s.slot, f), s.slot);
    case Hear(frame, overrun) => HearKeepsSlot(s.node, frame, overrun);
    case RelayFires =>
  }

  lemma SendBesideSlot(s: Sender, meshType: byte, payload: seq<byte>, count: byte, f: Frame)
    requires |payload| < 0x100 && s.slot < s.built && s.node.repeat == f && AlwaysAs(s.log, s.slot, f)
    ensures var s1 := AfterSend(s, meshType, payload, count);
            && AlwaysAs(s1.log, s.slot, f) && s.slot < s1.built && Times(s1.log, s.slot) == Times(s.log, s.slot)
            && (if TakesSlot(Send(meshType, payload, count)) then s1.slot != s.slot
                else s1.slot == s.slot && s1.node.repeat == f && s.node.remaining == s1.node.remaining)
  {
    if HEADER_SIZE + |payload| <= BUF_SIZE {
      OneMore(s.log, Sent(s.built, Built(s.node, meshType, payload)), s.slot);
    }
  }

  function Built(n: Node, meshType: byte, payload: seq<byte>): Frame
    requires |payload| < 0x100
  {
    PacketHeader(n.player, n.seqCounter, meshType, |payload|) + payload
  }

  lemma SendsOnce(s: Sender, meshType: byte, payload: seq<byte>, count: byte)
    requires Tidy(s) && HEADER_SIZE + |payload| <= BUF_SIZE
    ensures var f := Built(s.node, meshType, payload);
            var s1 := AfterSend(s, meshType, payload, count);
            && Tidy(s1) && s.built < s1.built && Times(s1.log, s.built) == 1 && AlwaysAs(s1.log, s.built, f)
            && KeyOf(f) == Key(s.node.player, s.node.seqCounter)
            && (if count > 1 then s1.slot == s.built && s1.node.repeat == f && s1.node.remaining == count - 1
                else s1.node.remaining > 0 ==> s1.slot != s.built)
  {
    StepKeepsTidy(s, Send(meshType, payload, count));
    NeverYet(s.log, s.built);
    OneMore(s.log, Sent(s.built, Built(s.node, meshType, payload)), s.built);
    Le16RoundTrip(s.node.seqCounter);
  }

  /** In every run a broadcast is sent once, and once more for every run of the repeat item before another
      broadcast takes the slot, at most as often as its count allows: always as the same frame with one
      sequence number. If none takes the slot and the item is left to run out, it is sent exactly
      `count` times. */
  lemma SentExactly(s: Sender, meshType: byte, payload: seq<byte>, count: byte, trace: seq<Activity>)
    requires Tidy(s) && HEADER_SIZE + |payload| <= BUF_SIZE && Legal(AfterSend(s, meshType, payload, count), trace)
    ensures var s' := Run(AfterSend(s, meshType, payload, count), trace);
            && Times(s'.log, s.built) == 1 + (if count > 1 then Fires(trace) else 0)
            && AlwaysAs(s'.log, s.built, Built(s.node, meshType, payload))
            && KeyOf(Built(s.node, meshType, payload)) == Key(s.node.player, s.node.seqCounter)
            && (count > 1 ==> Fires(trace) <= count - 1)
            && (count > 1 && (forall i :: 0 <= i < |trace| ==> !TakesSlot(trace[i])) && !s'.node.repeatScheduled ==>
                  Times(s'.log, s.built) == count)
  {
    var f := Built(s.node, meshType, payload);
    var s1 := AfterSend(s, meshType, payload, count);
    SendsOnce(s, meshType, payload, count);
    RunIsTidy(s1, trace);
    if count > 1 {
      SentWhenFired(s1, trace, f);
    } else {
      NotSentAgain(s1, trace, s.built, f);
    }
  }

  // ----- different broadcasts, different keys -----

  lemma CounterStep(s: Sender, a: Activity)
    requires Enabled(s, a)
    ensures var s1 := Step(s, a);
            && s.built <= s1.built <= s.built + 1 && s1.node.player == s.node.player
            && s1.node.seqCounter == if s1.built == s.built then s.node.seqCounter else U16(s.node.seqCounter + 1)
  {
    if a.Hear? {
      HearKeepsSlot(s.node, a.frame, a.overrun);
    }
  }

  /** The sequence number counts the node's broadcasts, modulo 2^16. */
  lemma {:induction false} CounterCounts(s: Sender, trace: seq<Activity>)
    requires Legal(s, trace)
    ensures var s' := Run(s, trace);
            && s'.built >= s.built && s'.node.player == s.node.player
            && s'.node.seqCounter == U16(s.node.seqCounter + (s'.built - s.built))
    decreases |trace|
  {
    if |trace| > 0 {
      var s1 := Step(s, trace[0]);
      CounterStep(s, trace[0]);
      CounterCounts(s1, trace[1..]);
      Added(s.node.seqCounter, s1.built - s.built, Run(s1, trace[1..]).built - s1.built);
    }
  }

  lemma Added(x: u16, a: nat, b: nat)
    ensures U16(U16(x + a) + b) == U16(x + (a + b)) && U16(x) == x
  {
  }

  /** Two broadcasts of a node, fewer than 2^16 apart, have different keys: none is taken for a copy of the
      other. */
  lemma BroadcastsDiffer(s: Sender, trace: seq<Activity>, typeA: byte, a: seq<byte>, typeB: byte, b: seq<byte>)
    requires Legal(s, trace) && |a| < 0x100 && |b| < 0x100
    requires 0 < Run(s, trace).built - s.built < 0x1_0000
    ensures KeyOf(Built(s.node, typeA, a)) != KeyOf(Built(Run(s, trace).node, typeB, b))
  {
    CounterCounts(s, trace);
    BuiltKey(s.node, typeA, a);
    BuiltKey(Run(s, trace).node, typeB, b);
    Apart(s.node.seqCounter, Run(s, trace).built - s.built);
  }

  lemma BuiltKey(n: Node, meshType: byte, payload: seq<byte>)
    requires |payload| < 0x100
    ensures KeyOf(Built(n, meshType, payload)) == Key(n.player, n.seqCounter)
  {
    Le16RoundTrip(n.seqCounter);
  }

  lemma Apart(x: u16, d: nat)
    requires 0 < d < 0x1_0000
    ensures U16(x + d) != x
  {
  }
}
