/** Whole runs of a mesh network. */
module MeshRuns {
  import opened Bytes
  import opened MeshNode
  import opened MeshFlood
  import opened Sequences

  /** A network with nothing in the air and empty relay slots. */
  predicate Fresh(nodes: seq<Node>) {
    forall k :: 0 <= k < |nodes| ==> !nodes[k].relayScheduled
  }

  function Start(nodes: seq<Node>): (s: Net)
    ensures Shape(s)
  {
    Net(nodes, seq(|nodes|, _ => Slot(0, [], 0)), [], [], [])
  }

  predicate Legal(s: Net, trace: seq<Event>)
    requires Shape(s)
    decreases |trace|
  {
    |trace| == 0
    || (Enabled(s, trace[0]) && (StepKeepsShape(s, trace[0]); Legal(Step(s, trace[0]), trace[1..])))
  }

  function Run(s: Net, trace: seq<Event>): (r: Net)
    requires Shape(s) && Legal(s, trace)
    ensures Shape(r)
    decreases |trace|
  {
    if |trace| == 0 then s else StepKeepsShape(s, trace[0]); Run(Step(s, trace[0]), trace[1..])
  }

  // ----- floods end -----

  /** The most transmissions and other steps that a copy with this time to live can still cause among
      `n` nodes: being heard or lost, and the relay it may fill. */
  function CopyWeight(n: nat, ttl: nat): nat
    decreases ttl, 0
  {
    if ttl == 0 then 1 else 1 + RelayWeight(n, ttl - 1)
  }

  /** The same for a frame in a relay slot: its expiry and a copy to every node. */
  function RelayWeight(n: nat, ttl: nat): nat
    decreases ttl, 1
  {
    1 + n * CopyWeight(n, ttl)
  }

  function AirWeight(n: nat, air: seq<Copy>): nat {
    if |air| == 0 then 0 else AirWeight(n, air[..|air| - 1]) + CopyWeight(n, Ttl(air[|air| - 1].frame))
  }

  function SlotWeight(n: nat, node: Node): nat {
    if node.relayScheduled then RelayWeight(n, Ttl(node.relay)) else 0
  }

  function SlotsWeight(n: nat, nodes: seq<Node>): nat {
    if |nodes| == 0 then 0 else SlotsWeight(n, nodes[..|nodes| - 1]) + SlotWeight(n, nodes[|nodes| - 1])
  }

  /** The steps the network can still make if nobody originates anything. */
  function Pending(s: Net): nat {
    AirWeight(|s.nodes|, s.air) + SlotsWeight(|s.nodes|, s.nodes)
  }

  lemma {:induction false} AirConcat(n: nat, a: seq<Copy>, b: seq<Copy>)
    ensures AirWeight(n, a + b) == AirWeight(n, a) + AirWeight(n, b)
    decreases |b|
  {
    if |b| == 0 {
      assert a + b == a;
    } else {
      AirConcat(n, a, b[..|b| - 1]);
      assert (a + b)[..|a + b| - 1] == a + b[..|b| - 1];
    }
  }

  lemma AirWithout(n: nat, air: seq<Copy>, i: nat)
    requires i < |air|
    ensures AirWeight(n, air) == AirWeight(n, Without(air, i)) + CopyWeight(n, Ttl(air[i].frame))
  {
    AirConcat(n, air[..i], air[i + 1..]);
    AirConcat(n, air[..i + 1], air[i + 1..]);
    assert air[..i + 1][..i] == air[..i];
    assert air == air[..i + 1] + air[i + 1..];
  }

  lemma {:induction false} CopiesWeight(n: nat, tx: Tx, k: nat)
    ensures AirWeight(n, Copies(tx, k)) == k * CopyWeight(n, Ttl(tx.frame))
    decreases k
  {
    if k > 0 {
      CopiesWeight(n, tx, k - 1);
      assert Copies(tx, k)[..k - 1] == Copies(tx, k - 1);
      var w := CopyWeight(n, Ttl(tx.frame));
      assert k * w == (k - 1) * w + w;
    }
  }

  lemma {:induction false} SlotUpdate(n: nat, nodes: seq<Node>, k: nat, node: Node)
    requires k < |nodes|
    ensures SlotsWeight(n, nodes[k := node]) + SlotWeight(n, nodes[k]) == SlotsWeight(n, nodes) + SlotWeight(n, node)
    decreases |nodes|
  {
    var m := |nodes| - 1;
    if k == m {
      assert nodes[k := node][..m] == nodes[..m];
    } else {
      SlotUpdate(n, nodes[..m], k, node);
      assert nodes[k := node][..m] == nodes[..m][k := node];
    }
  }

  /** What an origination adds. */
  function OriginWeight(n: nat, f: Frame): nat {
    n * CopyWeight(n, Ttl(f))
  }

  lemma TransmitWeight(s: Net, tx: Tx)
    ensures Pending(Transmit(s, tx)) == Pending(s) + OriginWeight(|s.nodes|, tx.frame)
  {
    AirConcat(|s.nodes|, s.air, Copies(tx, |s.nodes|));
    CopiesWeight(|s.nodes|, tx, |s.nodes|);
  }

  lemma HearingDecreases(s: Net, i: nat, overrun: byte)
    requires Shape(s) && i < |s.air|
    ensures Pending(Step(s, Hear(i, overrun))) < Pending(s)
  {
    var n, c := |s.nodes|, s.air[i];
    var node := s.nodes[c.dest];
    var node' := OnScan(node, c.frame, overrun).0;
    AirWithout(n, s.air, i);
    SlotUpdate(n, s.nodes, c.dest, node');
    ScanStores(node, c.frame, overrun);
    StoredWeight(n, node, node', c.frame, overrun);
  }

  lemma StoredWeight(n: nat, node: Node, node': Node, f: Frame, overrun: byte)
    requires if Stores(node, f, overrun) then node'.relay == Relayed(f) && node'.relayScheduled
             else node'.relay == node.relay && node'.relayScheduled == node.relayScheduled
    ensures SlotWeight(n, node') < SlotWeight(n, node) + CopyWeight(n, Ttl(f))
  {
  }

  lemma LosingDecreases(s: Net, i: nat)
    requires Shape(s) && i < |s.air|
    ensures Pending(Step(s, Lose(i))) < Pending(s)
  {
    AirWithout(|s.nodes|, s.air, i);
  }

  lemma RelayingDecreases(s: Net, k: nat, out: bool)
    requires Shape(s) && Enabled(s, RelayFires(k, out))
    ensures Pending(Step(s, RelayFires(k, out))) < Pending(s)
  {
    var (n, frames) := OnRelay(s.nodes[k]);
    var s1 := s.(nodes := s.nodes[k := n]);
    SlotUpdate(|s.nodes|, s.nodes, k, n);
    TransmitWeight(s1, Tx(k, s.slots[k].src, s.slots[k].orig, s.slots[k].hops, frames[0]));
  }

  lemma StepWeight(s: Net, ev: Event)
    requires Shape(s) && Enabled(s, ev)
    ensures !ev.Originate? ==> Pending(Step(s, ev)) < Pending(s)
    ensures ev.Originate? ==> Pending(Step(s, ev)) == Pending(s) + OriginWeight(|s.nodes|, ev.f)
  {
    match ev
    case Originate(k, f) => TransmitWeight(s, Tx(k, k, f, 0, f));
    case Hear(i, overrun) => HearingDecreases(s, i, overrun);
    case Lose(i) => LosingDecreases(s, i);
    case RelayFires(k, out) => RelayingDecreases(s, k, out);
  }

  /** All that the originated frames of a run can cause. */
  function Originated(n: nat, trace: seq<Event>): nat
    decreases |trace|
  {
    if |trace| == 0 then 0
    else (if trace[0].Originate? then 1 + OriginWeight(n, trace[0].f) else 0) + Originated(n, trace[1..])
  }

  /** Finitely many originated frames cause finitely many steps, hence finitely many transmissions:
      the whole run is no longer than what its originations allow. */
  lemma {:induction false} FloodsEnd(s: Net, trace: seq<Event>)
    requires Shape(s) && Legal(s, trace)
    ensures |trace| + Pending(Run(s, trace)) <= Pending(s) + Originated(|s.nodes|, trace)
    ensures |Run(s, trace).sent| <= |s.sent| + |trace|
    decreases |trace|
  {
    if |trace| > 0 {
      StepKeepsShape(s, trace[0]);
      StepWeight(s, trace[0]);
      SendsAtMostOne(s, trace[0]);
      FloodsEnd(Step(s, trace[0]), trace[1..]);
    }
  }

  lemma SendsAtMostOne(s: Net, ev: Event)
    requires Shape(s) && Enabled(s, ev)
    ensures |Step(s, ev).sent| <= |s.sent| + 1
  {
  }

  lemma {:induction false} NothingPending(nodes: seq<Node>)
    requires Fresh(nodes)
    ensures SlotsWeight(|nodes|, nodes) == 0 && Pending(Start(nodes)) == 0
  {
    NoSlots(|nodes|, nodes);
  }

  lemma {:induction false} NoSlots(n: nat, nodes: seq<Node>)
    requires Fresh(nodes)
    ensures SlotsWeight(n, nodes) == 0
  {
    if |nodes| > 0 {
      NoSlots(n, nodes[..|nodes| - 1]);
    }
  }

  function Originations(trace: seq<Event>): nat
    decreases |trace|
  {
    if |trace| == 0 then 0 else (if trace[0].Originate? then 1 else 0) + Originations(trace[1..])
  }

  /** Steps caused by one frame with the default time to live in a network of `n` nodes. */
  function FloodBound(n: nat): nat {
    1 + n * (2 + n * (2 + n * (2 + n)))
  }

  lemma {:induction false} WeightGrows(n: nat, t: nat, u: nat)
    requires t <= u
    ensures CopyWeight(n, t) <= CopyWeight(n, u)
    decreases u
  {
    if t > 0 {
      WeightGrows(n, t - 1, u - 1);
      Monotone(n, CopyWeight(n, t - 1), CopyWeight(n, u - 1));
    }
  }

  lemma Monotone(n: nat, a: nat, b: nat)
    requires a <= b
    ensures n * a <= n * b
  {
  }

  lemma DefaultWeight(n: nat, f: Frame)
    requires Ttl(f) <= DEFAULT_TTL
    ensures 1 + OriginWeight(n, f) <= FloodBound(n)
  {
    WeightGrows(n, Ttl(f), 3);
    Monotone(n, CopyWeight(n, Ttl(f)), CopyWeight(n, 3));
    assert CopyWeight(n, 0) == 1;
    assert CopyWeight(n, 1) == 2 + n;
    assert CopyWeight(n, 2) == 2 + n * (2 + n);
    assert CopyWeight(n, 3) == 2 + n * (2 + n * (2 + n));
  }

  predicate DefaultOrigins(trace: seq<Event>) {
    forall i :: 0 <= i < |trace| && trace[i].Originate? ==> Ttl(trace[i].f) <= DEFAULT_TTL
  }

  lemma {:induction false} DefaultOriginated(n: nat, trace: seq<Event>)
    requires DefaultOrigins(trace)
    ensures Originated(n, trace) <= Originations(trace) * FloodBound(n)
    decreases |trace|
  {
    if |trace| > 0 {
      DefaultOriginated(n, trace[1..]);
      if trace[0].Originate? {
        DefaultWeight(n, trace[0].f);
        OneMoreOf(Originations(trace[1..]), FloodBound(n));
      }
    }
  }

  lemma OneMoreOf(k: nat, a: nat)
    ensures (1 + k) * a == a + k * a
  {
  }

  /** In a network of `n` nodes, frames originated with the default time to live cause at most
      1 + 2n + 2n^2 + 2n^3 + n^4 steps each, transmissions included. */
  lemma FloodsAreBounded(nodes: seq<Node>, trace: seq<Event>)
    requires Fresh(nodes) && Legal(Start(nodes), trace) && DefaultOrigins(trace)
    ensures |trace| <= Originations(trace) * FloodBound(|nodes|)
    ensures |Run(Start(nodes), trace).sent| <= Originations(trace) * FloodBound(|nodes|)
    ensures FloodBound(|nodes|) == 1 + 2 * |nodes| + 2 * |nodes| * |nodes| + 2 * |nodes| * |nodes| * |nodes|
                                   + |nodes| * |nodes| * |nodes| * |nodes|
  {
    NothingPending(nodes);
    FloodsEnd(Start(nodes), trace);
    DefaultOriginated(|nodes|, trace);
    Expanded(|nodes|);
  }

  lemma Expanded(n: nat)
    ensures FloodBound(n) == 1 + 2 * n + 2 * n * n + 2 * n * n * n + n * n * n * n
  {
    var a := 2 + n;
    assert n * a == 2 * n + n * n;
    var b := 2 + n * a;
    assert n * b == 2 * n + 2 * n * n + n * n * n;
  }

  // ----- faithful copies and confined teams in every run -----

  lemma {:induction false} RunKeeps(s: Net, trace: seq<Event>)
    requires Shape(s) && Legal(s, trace) && Faithful(s) && Confined(s)
    ensures Faithful(Run(s, trace)) && Confined(Run(s, trace))
    decreases |trace|
  {
    if |trace| > 0 {
      StepKeepsShape(s, trace[0]);
      StepIsFaithful(s, trace[0]);
      StepIsConfined(s, trace[0]);
      RunKeeps(Step(s, trace[0]), trace[1..]);
    }
  }

  /** Every transmission of every run is the frame as its originator sent it but for the time to live,
      and has been relayed no more often than the originator's time to live allowed. */
  lemma HopsAreBounded(nodes: seq<Node>, trace: seq<Event>, t: nat)
    requires Fresh(nodes) && Legal(Start(nodes), trace)
    requires t < |Run(Start(nodes), trace).sent|
    ensures var tx := Run(Start(nodes), trace).sent[t];
            && |tx.frame| == |tx.orig| && tx.hops <= Ttl(tx.orig) && Ttl(tx.frame) == Ttl(tx.orig) - tx.hops
            && forall i :: 0 <= i < |tx.orig| && i != 4 ==> tx.frame[i] == tx.orig[i]
  {
    RunKeeps(Start(nodes), trace);
    var tx := Run(Start(nodes), trace).sent[t];
    assert AfterHops(tx.orig, tx.hops, tx.frame);
    if tx.hops == 0 {
      assert tx.frame == tx.orig;
    }
  }

  /** Everything notified to a phone in a run is the opcode followed by the frame as its originator sent it, but
      for the time to live, which is lower by the number of relays. */
  lemma PhonesHearFaithfully(nodes: seq<Node>, trace: seq<Event>, t: nat)
    requires Fresh(nodes) && Legal(Start(nodes), trace)
    requires t < |Run(Start(nodes), trace).forwards|
    ensures var w := Run(Start(nodes), trace).forwards[t];
            && |w.bytes| == |w.orig| + 1 && w.bytes[0] == 0x05 && w.hops <= Ttl(w.orig)
            && forall i :: 0 <= i < |w.orig| ==>
                 w.bytes[i + 1] == if i == 4 && w.hops > 0 then w.orig[4] - w.hops else w.orig[i]
  {
    RunKeeps(Start(nodes), trace);
    var w := Run(Start(nodes), trace).forwards[t];
    assert Notified(w);
    assert forall i :: 0 <= i < |w.bytes| - 1 ==> w.bytes[1..][i] == w.bytes[i + 1];
  }

  /** With fixed identities every player state of every run was sent by its originator or by a node of
      the team it names, and only nodes of that team forwarded it to their phones. */
  lemma PlayerStatesStayInTheTeam(nodes: seq<Node>, trace: seq<Event>)
    requires Fresh(nodes) && Legal(Start(nodes), trace)
    ensures var s := Run(Start(nodes), trace);
            && (forall t :: 0 <= t < |s.sent| && NamesTeam(s.sent[t].frame) && s.sent[t].from != s.sent[t].src ==>
                  s.sent[t].from < |nodes| && nodes[s.sent[t].from].team == s.sent[t].frame[HEADER_SIZE + 1])
            && (forall t :: 0 <= t < |s.forwards| && |s.forwards[t].bytes| > 0
                            && NamesTeam(s.forwards[t].bytes[1..]) ==>
                  && s.forwards[t].node < |nodes|
                  && nodes[s.forwards[t].node].team == s.forwards[t].bytes[HEADER_SIZE + 2])
  {
    RunKeeps(Start(nodes), trace);
    IdentitiesStay(Start(nodes), trace);
  }

  /** The team filter goes by the frame alone exactly when the frame is long enough to hold the team
      byte or is no player state with at least two payload bytes announced. */
  lemma FilterGoesByTheFrame(n: Node, f: Frame)
    requires |f| >= HEADER_SIZE
    ensures (forall a: byte, b: byte :: Passes(n, f, a) == Passes(n, f, b))
       <==> |f| > HEADER_SIZE + 1 || !(f[0] == PLAYER_STATE && f[5] >= 2)
  {
    var other: byte := if n.team == 0 then 1 else 0;
    assert TeamByte(f, other) == other || |f| > HEADER_SIZE + 1;
    assert TeamByte(f, n.team) == n.team || |f| > HEADER_SIZE + 1;
    if |f| <= HEADER_SIZE + 1 && f[0] == PLAYER_STATE && f[5] >= 2 {
      assert Passes(n, f, n.team) && !Passes(n, f, other);
    }
  }

  predicate SameIdentities(a: seq<Node>, b: seq<Node>) {
    |a| == |b| && forall k :: 0 <= k < |a| ==> a[k].team == b[k].team && a[k].player == b[k].player
  }

  lemma {:induction false} IdentitiesStay(s: Net, trace: seq<Event>)
    requires Shape(s) && Legal(s, trace)
    ensures SameIdentities(s.nodes, Run(s, trace).nodes)
    decreases |trace|
  {
    if |trace| > 0 {
      StepKeepsShape(s, trace[0]);
      StepKeepsIdentities(s, trace[0]);
      IdentitiesStay(Step(s, trace[0]), trace[1..]);
    }
  }

  lemma StepKeepsIdentities(s: Net, ev: Event)
    requires Shape(s) && Enabled(s, ev)
    ensures SameIdentities(s.nodes, Step(s, ev).nodes)
  {
  }

  // ----- a node and its own frames -----

  /** A node that built a frame takes no notice of any copy of it, however often it was relayed:
      hearing one changes no node, fills no slot and forwards nothing. */
  lemma OwnFramesAreIgnored(s: Net, i: nat, overrun: byte)
    requires Shape(s) && Faithful(s) && i < |s.air|
    requires |s.air[i].orig| >= HEADER_SIZE && s.nodes[s.air[i].dest].player == s.air[i].orig[1]
    ensures Step(s, Hear(i, overrun)) == s.(air := Without(s.air, i))
  {
    var c := s.air[i];
    assert AfterHops(c.orig, c.hops, c.frame);
    assert c.frame[1] == c.orig[1];
    assert s.nodes[c.dest := s.nodes[c.dest]] == s.nodes;
  }
}
