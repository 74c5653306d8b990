/** The duplicate filter in the network: how often a node relays a frame. */
module MeshRelays {
  import opened Bytes
  import opened DedupRing
  import opened MeshNode
  import opened MeshFlood
  import opened MeshRuns

  // ----- what a node hears and relays -----

  predicate HasKey(f: Frame, key: Key) { |f| >= HEADER_SIZE && KeyOf(f) == key }

  /** The key that hearing this copy brings to its node's filter: short frames and the node's own are
      dropped before, and without a phone nothing is taken from the scanner. */
  function KeyHeard(n: Node, f: Frame): seq<Key> {
    if n.phone && |f| >= HEADER_SIZE && f[1] != n.player then [KeyOf(f)] else []
  }

  function KeysHeard(s: Net, ev: Event, k: nat): seq<Key>
    requires Shape(s) && Enabled(s, ev) && k < |s.nodes|
  {
    if ev.Hear? && s.air[ev.i].dest == k then KeyHeard(s.nodes[k], s.air[ev.i].frame) else []
  }

  /** The keys that arrive at a node's filter in a run. */
  function Arrivals(s: Net, trace: seq<Event>, k: nat): seq<Key>
    requires Shape(s) && Legal(s, trace) && k < |s.nodes|
    decreases |trace|
  {
    if |trace| == 0 then []
    else
      StepKeepsShape(s, trace[0]);
      KeysHeard(s, trace[0], k) + Arrivals(Step(s, trace[0]), trace[1..], k)
  }

  predicate RelayOf(t: Tx, k: nat, key: Key) { t.from == k && t.hops > 0 && HasKey(t.frame, key) }

  /** How often a node relayed a key. */
  function Relays(sent: seq<Tx>, k: nat, key: Key): nat {
    if |sent| == 0 then 0
    else Relays(sent[..|sent| - 1], k, key) + if RelayOf(sent[|sent| - 1], k, key) then 1 else 0
  }

  function Count(keys: seq<Key>, key: Key): nat {
    if |keys| == 0 then 0 else Count(keys[..|keys| - 1], key) + if keys[|keys| - 1] == key then 1 else 0
  }

  function WaitingAt(n: Node, key: Key): nat {
    if n.relayScheduled && HasKey(n.relay, key) then 1 else 0
  }

  function Waiting(s: Net, k: nat, key: Key): nat
    requires k < |s.nodes|
  {
    WaitingAt(s.nodes[k], key)
  }

  // ----- relays are acceptances -----

  /** The filter holds what arrived; relays done and waiting are covered by keys accepted. */
  predicate Covered(s: Net, k: nat, key: Key, past: seq<Key>)
    requires k < |s.nodes|
  {
    && s.nodes[k].window == LastN(Accepted(past, DEDUP_SIZE), DEDUP_SIZE)
    && Relays(s.sent, k, key) + Waiting(s, k, key) <= Count(Accepted(past, DEDUP_SIZE), key)
  }

  lemma OneMoreRelay(sent: seq<Tx>, t: Tx, k: nat, key: Key)
    ensures Relays(sent + [t], k, key) == Relays(sent, k, key) + if RelayOf(t, k, key) then 1 else 0
  {
    assert (sent + [t])[..|sent|] == sent;
  }

  lemma OneMoreKey(past: seq<Key>, key: Key, other: Key)
    ensures var before, after := Accepted(past, DEDUP_SIZE), Accepted(past + [key], DEDUP_SIZE);
            && after == (if key in LastN(before, DEDUP_SIZE) then before else before + [key])
            && LastN(after, DEDUP_SIZE) == Arrive(LastN(before, DEDUP_SIZE), key, DEDUP_SIZE)
            && Count(after, other)
               == Count(before, other) + if key == other && key !in LastN(before, DEDUP_SIZE) then 1 else 0
  {
    var before := Accepted(past, DEDUP_SIZE);
    assert (past + [key])[..|past|] == past;
    assert (before + [key])[..|before|] == before;
    LastNPush(before, key, DEDUP_SIZE);
  }

  lemma ScanIsArrival(n: Node, f: Frame, overrun: byte)
    ensures var n' := OnScan(n, f, overrun).0;
            && n'.window == (if KeyHeard(n, f) == [] then n.window else Arrive(n.window, KeyOf(f), DEDUP_SIZE))
            && (Stores(n, f, overrun) ==> KeyHeard(n, f) == [KeyOf(f)] && KeyOf(f) !in n.window
                                          && |n'.relay| >= HEADER_SIZE && KeyOf(n'.relay) == KeyOf(f))
  {
  }

  /** A node that hears a frame: the key enters its filter, and the frame may wait for relaying. */
  lemma NodeIsCovered(n: Node, f: Frame, overrun: byte, key: Key, past: seq<Key>)
    requires n.window == LastN(Accepted(past, DEDUP_SIZE), DEDUP_SIZE)
    ensures var n' := OnScan(n, f, overrun).0;
            var before, after := Accepted(past, DEDUP_SIZE), Accepted(past + KeyHeard(n, f), DEDUP_SIZE);
            && n'.window == LastN(after, DEDUP_SIZE)
            && WaitingAt(n', key) + Count(before, key) <= WaitingAt(n, key) + Count(after, key)
  {
    ScanStores(n, f, overrun);
    ScanIsArrival(n, f, overrun);
    if KeyHeard(n, f) == [] {
      assert past + [] == past;
    } else {
      OneMoreKey(past, KeyOf(f), key);
    }
  }

  lemma HearIsCovered(s: Net, i: nat, overrun: byte, k: nat, key: Key, past: seq<Key>)
    requires Shape(s) && i < |s.air| && k < |s.nodes| && Covered(s, k, key, past)
    ensures Covered(Step(s, Hear(i, overrun)), k, key, past + KeysHeard(s, Hear(i, overrun), k))
  {
    if s.air[i].dest == k {
      NodeIsCovered(s.nodes[k], s.air[i].frame, overrun, key, past);
    } else {
      assert past + [] == past;
    }
  }

  lemma RelayIsCovered(s: Net, r: nat, out: bool, k: nat, key: Key, past: seq<Key>)
    requires Shape(s) && Enabled(s, RelayFires(r, out)) && k < |s.nodes| && Covered(s, k, key, past)
    ensures Covered(Step(s, RelayFires(r, out)), k, key, past)
  {
    var t := Tx(r, s.slots[r].src, s.slots[r].orig, s.slots[r].hops, s.nodes[r].relay);
    OneMoreRelay(s.sent, t, k, key);
  }

  lemma StepIsCovered(s: Net, ev: Event, k: nat, key: Key, past: seq<Key>)
    requires Shape(s) && Enabled(s, ev) && k < |s.nodes| && Covered(s, k, key, past)
    ensures k < |Step(s, ev).nodes| && Covered(Step(s, ev), k, key, past + KeysHeard(s, ev, k))
  {
    match ev
    case Hear(i, overrun) => HearIsCovered(s, i, overrun, k, key, past);
    case RelayFires(r, out) =>
      assert past + [] == past;
      RelayIsCovered(s, r, out, k, key, past);
    case Originate(j, f) =>
      assert past + [] == past;
      OneMoreRelay(s.sent, Tx(j, j, f, 0, f), k, key);
    case Lose(_) => assert past + [] == past;
  }

  lemma Regroup(a: seq<Key>, b: seq<Key>, c: seq<Key>)
    ensures a + b + c == a + (b + c)
  {
  }

  lemma ArrivalsInParts(s: Net, trace: seq<Event>, k: nat, past: seq<Key>)
    requires Shape(s) && Legal(s, trace) && |trace| > 0 && k < |s.nodes| && |Step(s, trace[0]).nodes| == |s.nodes|
    requires Shape(Step(s, trace[0]))
    ensures past + KeysHeard(s, trace[0], k) + Arrivals(Step(s, trace[0]), trace[1..], k)
         == past + Arrivals(s, trace, k)
  {
    Regroup(past, KeysHeard(s, trace[0], k), Arrivals(Step(s, trace[0]), trace[1..], k));
  }

  lemma {:induction false} RunIsCovered(s: Net, trace: seq<Event>, k: nat, key: Key, past: seq<Key>)
    requires Shape(s) && Legal(s, trace) && k < |s.nodes| && Covered(s, k, key, past)
    ensures k < |Run(s, trace).nodes| && Covered(Run(s, trace), k, key, past + Arrivals(s, trace, k))
    decreases |trace|
  {
    if |trace| == 0 {
      assert past + [] == past;
    } else {
      StepKeepsShape(s, trace[0]);
      StepIsCovered(s, trace[0], k, key, past);
      RunIsCovered(Step(s, trace[0]), trace[1..], k, key, past + KeysHeard(s, trace[0], k));
      ArrivalsInParts(s, trace, k, past);
    }
  }

  predicate Unused(nodes: seq<Node>) {
    Fresh(nodes) && forall k :: 0 <= k < |nodes| ==> nodes[k].window == []
  }

  /** In every run a node relays a key at most as often as its filter accepted it. */
  lemma RelaysAreAcceptances(nodes: seq<Node>, trace: seq<Event>, k: nat, key: Key)
    requires Unused(nodes) && Legal(Start(nodes), trace) && k < |nodes|
    ensures Relays(Run(Start(nodes), trace).sent, k, key)
         <= Count(Accepted(Arrivals(Start(nodes), trace, k), DEDUP_SIZE), key)
  {
    RunIsCovered(Start(nodes), trace, k, key, []);
    assert [] + Arrivals(Start(nodes), trace, k) == Arrivals(Start(nodes), trace, k);
  }

  // ----- the filter's reach -----

  /** Fewer than 64 keys are accepted from one copy of the key to any later one. */
  predicate WithinReach(arrivals: seq<Key>, key: Key) {
    forall i, j :: 0 <= i < j < |arrivals| && arrivals[i] == arrivals[j] == key ==>
      |Accepted(arrivals[..j], DEDUP_SIZE)| - |Accepted(arrivals[..i + 1], DEDUP_SIZE)| < DEDUP_SIZE
  }

  lemma LastKey(arrivals: seq<Key>, key: Key)
    requires |arrivals| > 0
    ensures var n := |arrivals| - 1;
            var isNew := AcceptedAt(arrivals, DEDUP_SIZE, n);
            && (isNew <==> arrivals[n] !in LastN(Accepted(arrivals[..n], DEDUP_SIZE), DEDUP_SIZE))
            && Count(Accepted(arrivals, DEDUP_SIZE), key)
               == Count(Accepted(arrivals[..n], DEDUP_SIZE), key) + if arrivals[n] == key && isNew then 1 else 0
  {
    var n := |arrivals| - 1;
    WindowIsRecentHistory(arrivals[..n], DEDUP_SIZE);
    var before := Accepted(arrivals[..n], DEDUP_SIZE);
    assert (before + [arrivals[n]])[..|before|] == before;
  }

  lemma SameBefore(arrivals: seq<Key>, n: nat, i: nat)
    requires i < n <= |arrivals|
    ensures AcceptedAt(arrivals[..n], DEDUP_SIZE, i) == AcceptedAt(arrivals, DEDUP_SIZE, i)
  {
    assert arrivals[..n][..i] == arrivals[..i];
  }

  lemma {:induction false} AcceptedSomewhere(arrivals: seq<Key>, key: Key) returns (i: nat)
    requires Count(Accepted(arrivals, DEDUP_SIZE), key) > 0
    ensures i < |arrivals| && arrivals[i] == key && AcceptedAt(arrivals, DEDUP_SIZE, i)
    decreases |arrivals|
  {
    var n := |arrivals| - 1;
    LastKey(arrivals, key);
    if Count(Accepted(arrivals[..n], DEDUP_SIZE), key) > 0 {
      i := AcceptedSomewhere(arrivals[..n], key);
      SameBefore(arrivals, n, i);
    } else {
      i := n;
    }
  }

  lemma {:induction false} AcceptedTwice(arrivals: seq<Key>, key: Key) returns (i: nat, j: nat)
    requires Count(Accepted(arrivals, DEDUP_SIZE), key) > 1
    ensures i < j < |arrivals| && arrivals[i] == arrivals[j] == key
    ensures AcceptedAt(arrivals, DEDUP_SIZE, i) && AcceptedAt(arrivals, DEDUP_SIZE, j)
    decreases |arrivals|
  {
    j := |arrivals| - 1;
    LastKey(arrivals, key);
    if Count(Accepted(arrivals[..j], DEDUP_SIZE), key) > 1 {
      var n := j;
      i, j := AcceptedTwice(arrivals[..n], key);
      SameBefore(arrivals, n, i);
      SameBefore(arrivals, n, j);
    } else {
      i := AcceptedSomewhere(arrivals[..j], key);
      SameBefore(arrivals, j, i);
    }
  }

  lemma AcceptedAtMostOnce(arrivals: seq<Key>, key: Key)
    requires WithinReach(arrivals, key)
    ensures Count(Accepted(arrivals, DEDUP_SIZE), key) <= 1
  {
    if Count(Accepted(arrivals, DEDUP_SIZE), key) > 1 {
      var i, j := AcceptedTwice(arrivals, key);
      RepeatIsDuplicate(arrivals, DEDUP_SIZE, i, j);
    }
  }

  /** A node relays a key at most once in a run, whatever is relayed, lost or repeated, if between any two
      copies it hears fewer than 64 keys are accepted. */
  lemma RelayedAtMostOnce(nodes: seq<Node>, trace: seq<Event>, k: nat, key: Key)
    requires Unused(nodes) && Legal(Start(nodes), trace) && k < |nodes|
    requires WithinReach(Arrivals(Start(nodes), trace, k), key)
    ensures Relays(Run(Start(nodes), trace).sent, k, key) <= 1
  {
    RelaysAreAcceptances(nodes, trace, k, key);
    AcceptedAtMostOnce(Arrivals(Start(nodes), trace, k), key);
  }

  // ----- all relays of a key -----

  /** The relays of a key by the first `m` nodes. */
  function RelaysBy(sent: seq<Tx>, m: nat, key: Key): nat {
    if m == 0 then 0 else RelaysBy(sent, m - 1, key) + Relays(sent, m - 1, key)
  }

  function AllRelays(sent: seq<Tx>, key: Key): nat {
    if |sent| == 0 then 0
    else
      var t := sent[|sent| - 1];
      AllRelays(sent[..|sent| - 1], key) + if t.hops > 0 && HasKey(t.frame, key) then 1 else 0
  }

  lemma {:induction false} NoRelaysBy(m: nat, key: Key)
    ensures RelaysBy([], m, key) == 0
  {
    if m > 0 {
      NoRelaysBy(m - 1, key);
    }
  }

  lemma {:induction false} OneMoreBy(sent: seq<Tx>, t: Tx, m: nat, key: Key)
    ensures RelaysBy(sent + [t], m, key)
         == RelaysBy(sent, m, key) + if t.from < m && t.hops > 0 && HasKey(t.frame, key) then 1 else 0
  {
    if m > 0 {
      OneMoreBy(sent, t, m - 1, key);
      OneMoreRelay(sent, t, m - 1, key);
    }
  }

  lemma {:induction false} RelaysByNode(sent: seq<Tx>, n: nat, key: Key)
    requires forall t :: 0 <= t < |sent| ==> sent[t].from < n
    ensures AllRelays(sent, key) == RelaysBy(sent, n, key)
    decreases |sent|
  {
    if |sent| == 0 {
      NoRelaysBy(n, key);
    } else {
      var front, t := sent[..|sent| - 1], sent[|sent| - 1];
      RelaysByNode(front, n, key);
      OneMoreBy(front, t, n, key);
      assert sent == front + [t];
    }
  }

  predicate SendersExist(s: Net) {
    forall t :: 0 <= t < |s.sent| ==> s.sent[t].from < |s.nodes|
  }

  lemma {:induction false} SendersAreNodes(s: Net, trace: seq<Event>)
    requires Shape(s) && Legal(s, trace) && SendersExist(s)
    ensures SendersExist(Run(s, trace)) && |Run(s, trace).nodes| == |s.nodes|
    decreases |trace|
  {
    if |trace| > 0 {
      StepKeepsShape(s, trace[0]);
      StepKeepsSenders(s, trace[0]);
      SendersAreNodes(Step(s, trace[0]), trace[1..]);
    }
  }

  lemma StepKeepsSenders(s: Net, ev: Event)
    requires Shape(s) && SendersExist(s) && Enabled(s, ev)
    ensures SendersExist(Step(s, ev))
  {
  }

  lemma {:induction false} OncePerNode(nodes: seq<Node>, trace: seq<Event>, m: nat, key: Key)
    requires Unused(nodes) && Legal(Start(nodes), trace) && m <= |nodes|
    requires forall k :: 0 <= k < |nodes| ==> WithinReach(Arrivals(Start(nodes), trace, k), key)
    ensures RelaysBy(Run(Start(nodes), trace).sent, m, key) <= m
    decreases m
  {
    if m > 0 {
      OncePerNode(nodes, trace, m - 1, key);
      RelayedAtMostOnce(nodes, trace, m - 1, key);
    }
  }

  /** Within the filter's reach all copies and repetitions of a frame together cause at most one relay for
      each node of the network. */
  lemma OneRelayPerNode(nodes: seq<Node>, trace: seq<Event>, key: Key)
    requires Unused(nodes) && Legal(Start(nodes), trace)
    requires forall k :: 0 <= k < |nodes| ==> WithinReach(Arrivals(Start(nodes), trace, k), key)
    ensures AllRelays(Run(Start(nodes), trace).sent, key) <= |nodes|
  {
    SendersAreNodes(Start(nodes), trace);
    RelaysByNode(Run(Start(nodes), trace).sent, |nodes|, key);
    OncePerNode(nodes, trace, |nodes|, key);
  }

  // ----- few keys stay within reach -----

  lemma {:induction false} DistinctFit(s: seq<Key>, keys: set<Key>)
    requires Distinct(s) && forall i :: 0 <= i < |s| ==> s[i] in keys
    ensures |s| <= |keys|
    decreases |s|
  {
    if |s| > 0 {
      var front, last := s[..|s| - 1], s[|s| - 1];
      forall i | 0 <= i < |front| ensures front[i] in keys - {last} {
        assert s[i] != last;
      }
      DistinctFit(front, keys - {last});
      assert |keys - {last}| == |keys| - 1;
    }
  }

  predicate AllIn(arrivals: seq<Key>, keys: set<Key>) {
    forall i :: 0 <= i < |arrivals| ==> arrivals[i] in keys
  }

  /** With no more keys than the filter has entries none is ever forgotten, so none is accepted twice. */
  lemma {:induction false} FewAreDistinct(arrivals: seq<Key>, keys: set<Key>)
    requires AllIn(arrivals, keys) && |keys| <= DEDUP_SIZE
    ensures var a := Accepted(arrivals, DEDUP_SIZE); Distinct(a) && AllIn(a, keys) && |a| <= DEDUP_SIZE
    decreases |arrivals|
  {
    if |arrivals| > 0 {
      FewAreDistinct(arrivals[..|arrivals| - 1], keys);
    }
    DistinctFit(Accepted(arrivals, DEDUP_SIZE), keys);
  }

  lemma {:induction false} SomethingAccepted(arrivals: seq<Key>)
    requires |arrivals| > 0
    ensures |Accepted(arrivals, DEDUP_SIZE)| > 0
  {
    if |arrivals| > 1 {
      SomethingAccepted(arrivals[..|arrivals| - 1]);
    } else {
      assert arrivals[..0] == [];
    }
  }

  lemma FewAreWithinReach(arrivals: seq<Key>, keys: set<Key>, key: Key)
    requires AllIn(arrivals, keys) && |keys| <= DEDUP_SIZE
    ensures WithinReach(arrivals, key)
  {
    forall i, j | 0 <= i < j < |arrivals| && arrivals[i] == arrivals[j] == key
      ensures |Accepted(arrivals[..j], DEDUP_SIZE)| - |Accepted(arrivals[..i + 1], DEDUP_SIZE)| < DEDUP_SIZE
    {
      FewAreDistinct(arrivals[..j], keys);
      SomethingAccepted(arrivals[..i + 1]);
    }
  }

  predicate KeyIn(f: Frame, keys: set<Key>) { |f| >= HEADER_SIZE ==> KeyOf(f) in keys }

  /** Everything under way has one of the keys. */
  predicate KeysFrom(s: Net, keys: set<Key>) {
    && (forall i :: 0 <= i < |s.air| ==> KeyIn(s.air[i].frame, keys))
    && (forall k :: 0 <= k < |s.nodes| && s.nodes[k].relayScheduled ==> KeyIn(s.nodes[k].relay, keys))
  }

  predicate OriginsFrom(trace: seq<Event>, keys: set<Key>) {
    forall i :: 0 <= i < |trace| && trace[i].Originate? ==> KeyIn(trace[i].f, keys)
  }

  lemma StepKeepsKeys(s: Net, ev: Event, keys: set<Key>)
    requires Shape(s) && Enabled(s, ev) && KeysFrom(s, keys) && (ev.Originate? ==> KeyIn(ev.f, keys))
    ensures KeysFrom(Step(s, ev), keys)
  {
    if ev.Hear? {
      var c := s.air[ev.i];
      ScanStores(s.nodes[c.dest], c.frame, ev.overrun);
      ScanIsArrival(s.nodes[c.dest], c.frame, ev.overrun);
    }
  }

  lemma {:induction false} ArrivalsHaveKeys(s: Net, trace: seq<Event>, k: nat, keys: set<Key>)
    requires Shape(s) && Legal(s, trace) && k < |s.nodes| && KeysFrom(s, keys) && OriginsFrom(trace, keys)
    ensures AllIn(Arrivals(s, trace, k), keys)
    decreases |trace|
  {
    if |trace| > 0 {
      StepKeepsShape(s, trace[0]);
      StepKeepsKeys(s, trace[0], keys);
      ArrivalsHaveKeys(Step(s, trace[0]), trace[1..], k, keys);
    }
  }

  /** If the frames originated in a run have at most 64 keys, every one of these keys is relayed at most
      once by each node, however often its frame is repeated. */
  lemma FewKeysFewRelays(nodes: seq<Node>, trace: seq<Event>, keys: set<Key>, key: Key)
    requires Unused(nodes) && Legal(Start(nodes), trace) && OriginsFrom(trace, keys) && |keys| <= DEDUP_SIZE
    ensures AllRelays(Run(Start(nodes), trace).sent, key) <= |nodes|
  {
    forall k | 0 <= k < |nodes|
      ensures WithinReach(Arrivals(Start(nodes), trace, k), key)
    {
      ArrivalsHaveKeys(Start(nodes), trace, k, keys);
      FewAreWithinReach(Arrivals(Start(nodes), trace, k), keys, key);
    }
    OneRelayPerNode(nodes, trace, key);
  }
}
