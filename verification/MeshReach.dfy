/** What a node does with a frame it hears, and how far a frame gets. */
module MeshReach {
  import opened Bytes
  import opened DedupRing
  import opened MeshNode
  import opened MeshFlood
  import opened MeshRuns
  import opened Sequences

  // ----- one node -----

  /** A complete frame of another player whose key is not among the last 64 accepted, heard with a phone
      connected. */
  predicate Accepts(n: Node, f: Frame) {
    n.phone && |f| >= 6 && f[1] != n.player && Key(f[1], GetLe16(f[2], f[3])) !in n.window
  }

  /** A player state that announces its team is for that team; one too short to hold the team byte is judged
      by whatever follows it in memory. */
  predicate ForTeam(n: Node, f: Frame, overrun: byte)
    requires |f| >= 6
  {
    f[0] == 0x10 && f[5] >= 2 ==> n.team == if |f| > 7 then f[7] else overrun
  }

  /** Hearing a frame: the phone is notified exactly if the frame is accepted, is not a player state of
      another team, and has at most 254 bytes; it is taken for relaying exactly if it is accepted, is not
      such a state, has at most 256 bytes and time to live left; it is remembered exactly if it is accepted. */
  lemma HearExactly(s: Net, i: nat, overrun: byte)
    requires Shape(s) && i < |s.air|
    ensures var c := s.air[i];
            var n, f, s1 := s.nodes[c.dest], c.frame, Step(s, Hear(i, overrun));
            var n1 := s1.nodes[c.dest];
            && s1.forwards == s.forwards + (if Accepts(n, f) && ForTeam(n, f, overrun) && |f| <= 254 then
                                              [Forward(c.dest, c.src, c.orig, c.hops, [0x05] + f)] else [])
            && (if Accepts(n, f) && ForTeam(n, f, overrun) && |f| <= 256 && f[4] > 0 then
                  n1.relayScheduled && n1.relay == f[4 := f[4] - 1]
                else n1.relayScheduled == n.relayScheduled && n1.relay == n.relay)
            && n1.window == (if Accepts(n, f) then Push(n.window, Key(f[1], GetLe16(f[2], f[3])), 64) else n.window)
            && s1.sent == s.sent && s1.air == Without(s.air, i)
            && forall k :: 0 <= k < |s.nodes| && k != c.dest ==> s1.nodes[k] == s.nodes[k]
  {
    var c := s.air[i];
    var n := s.nodes[c.dest];
    if OnScan(n, c.frame, overrun).1.forwarded.None? {
      assert s.forwards + [] == s.forwards;
    }
  }

  /** A frame taken for relaying is transmitted with the time to live one lower, one hop further. */
  lemma RelaySends(s: Net, k: nat)
    requires Shape(s) && k < |s.nodes| && s.nodes[k].relayScheduled
    ensures var s1 := Step(s, RelayFires(k, true));
            var tx := Tx(k, s.slots[k].src, s.slots[k].orig, s.slots[k].hops, s.nodes[k].relay);
            && s1.sent == s.sent + [tx] && s1.air == s.air + Copies(tx, |s.nodes|) && s1.forwards == s.forwards
            && !s1.nodes[k].relayScheduled && s1.nodes[k].window == s.nodes[k].window
            && forall j :: 0 <= j < |s.nodes| && j != k ==> s1.nodes[j] == s.nodes[j]
  {
  }

  // ----- along a path -----

  /** The node would accept the frame and is not of another team. */
  predicate Open(n: Node, f: Frame) {
    Accepts(n, f) && (f[0] == 0x10 && f[5] >= 2 ==> |f| > 7 && f[7] == n.team)
  }

  predicate OpenPath(s: Net, path: seq<nat>, f: Frame) {
    && (forall k :: 0 <= k < |path| ==> path[k] < |s.nodes| && Open(s.nodes[path[k]], f))
    && (forall j, k :: 0 <= j < k < |path| ==> path[j] != path[k])
  }

  lemma Follow(s: Net, ev: Event, rest: seq<Event>)
    requires Shape(s) && Enabled(s, ev) && Shape(Step(s, ev)) && Legal(Step(s, ev), rest)
    ensures Legal(s, [ev] + rest) && Run(s, [ev] + rest) == Run(Step(s, ev), rest)
  {
    assert ([ev] + rest)[1..] == rest;
  }

  lemma LowerTtl(n: Node, f: Frame)
    requires Open(n, f) && f[4] > 0
    ensures Open(n, f[4 := f[4] - 1])
  {
  }

  /** The next node of the path hears the frame and passes it on. */
  lemma OneHop(s: Net, i: nat, path: seq<nat>) returns (t: Net, j: nat)
    requires Shape(s) && i < |s.air| && |path| > 1 && s.air[i].dest == path[0]
    requires var f := s.air[i].frame; OpenPath(s, path, f) && |f| <= 254 && f[4] > 0
    ensures var trace := [Hear(i, 0)] + [RelayFires(path[0], true)]; Legal(s, trace) && t == Run(s, trace) && Shape(t)
    ensures var c, f := s.air[i], s.air[i].frame;
            && j < |t.air| && t.air[j] == Copy(path[1], path[0], c.src, c.orig, c.hops + 1, f[4 := f[4] - 1])
            && OpenPath(t, path[1..], f[4 := f[4] - 1])
  {
    var c := s.air[i];
    HearExactly(s, i, 0);
    var s1 := Step(s, Hear(i, 0));
    StepKeepsShape(s, Hear(i, 0));
    assert s1.slots[path[0]] == Slot(c.src, c.orig, c.hops + 1);
    RelaySends(s1, path[0]);
    t := Step(s1, RelayFires(path[0], true));
    StepKeepsShape(s1, RelayFires(path[0], true));
    j := |s1.air| + path[1];
    Follow(s1, RelayFires(path[0], true), []);
    Follow(s, Hear(i, 0), [RelayFires(path[0], true)]);
    forall k | 0 <= k < |path[1..]|
      ensures path[1..][k] < |t.nodes| && Open(t.nodes[path[1..][k]], c.frame[4 := c.frame[4] - 1])
    {
      assert path[1..][k] == path[k + 1] && path[k + 1] != path[0];
      LowerTtl(s.nodes[path[k + 1]], c.frame);
    }
  }

  lemma {:induction false} RunInTwo(s: Net, a: seq<Event>, b: seq<Event>)
    requires Shape(s) && Legal(s, a) && Legal(Run(s, a), b)
    ensures Legal(s, a + b) && Run(s, a + b) == Run(Run(s, a), b)
    decreases |a|
  {
    if |a| == 0 {
      assert a + b == b;
    } else {
      StepKeepsShape(s, a[0]);
      RunInTwo(Step(s, a[0]), a[1..], b);
      assert (a + b)[0] == a[0] && (a + b)[1..] == a[1..] + b;
    }
  }

  /** The bytes with the time to live lower by `hops`. */
  function Lowered(f: Frame, hops: nat): Frame
    requires |f| >= 6 && hops <= f[4]
  {
    f[4 := f[4] - hops]
  }

  /** What the node `last` tells its phone after `more` further hops of the copy. */
  function LastNotice(c: Copy, last: nat, more: nat): Forward
    requires |c.frame| >= 6 && more <= c.frame[4]
  {
    Forward(last, c.src, c.orig, c.hops + more, [0x05] + Lowered(c.frame, more))
  }

  lemma OneHopLess(c: Copy, c': Copy, last: nat, more: nat)
    requires |c.frame| >= 6 && 0 < more <= c.frame[4]
    requires c' == Copy(c'.dest, c'.from, c.src, c.orig, c.hops + 1, c.frame[4 := c.frame[4] - 1])
    ensures LastNotice(c', last, more - 1) == LastNotice(c, last, more)
  {
    assert Lowered(c.frame, more) == Lowered(c'.frame, more - 1);
  }

  lemma {:induction false} AlongPath(s: Net, i: nat, path: seq<nat>) returns (trace: seq<Event>)
    requires Shape(s) && i < |s.air| && |path| > 0 && s.air[i].dest == path[0]
    requires |s.air[i].frame| >= 6 && OpenPath(s, path, s.air[i].frame) && |s.air[i].frame| <= 254
    requires |path| - 1 <= s.air[i].frame[4]
    ensures Legal(s, trace)
    ensures LastNotice(s.air[i], path[|path| - 1], |path| - 1) in Run(s, trace).forwards
    decreases |path|
  {
    if |path| == 1 {
      HearExactly(s, i, 0);
      assert Open(s.nodes[path[0]], s.air[i].frame);
      assert Lowered(s.air[i].frame, 0) == s.air[i].frame;
      StepKeepsShape(s, Hear(i, 0));
      Follow(s, Hear(i, 0), []);
      trace := [Hear(i, 0)] + [];
    } else {
      var t, j := OneHop(s, i, path);
      var rest := AlongPath(t, j, path[1..]);
      OneHopLess(s.air[i], t.air[j], path[|path| - 1], |path| - 1);
      RunInTwo(s, [Hear(i, 0)] + [RelayFires(path[0], true)], rest);
      trace := ([Hear(i, 0)] + [RelayFires(path[0], true)]) + rest;
    }
  }

  /** A frame reaches every node at the end of a path of open nodes that is no longer than its time to live
      allows: that node's phone is notified of it, relayed once by every node before. */
  lemma Reaches(s: Net, origin: nat, f: Frame, path: seq<nat>) returns (trace: seq<Event>)
    requires Shape(s) && origin < |s.nodes| && |path| > 0 && 6 <= |f| <= 254
    requires OpenPath(s, path, f) && |path| - 1 <= f[4]
    ensures Legal(s, trace)
    ensures var hops := |path| - 1;
            Forward(path[hops], origin, f, hops, [0x05] + Lowered(f, hops)) in Run(s, trace).forwards
  {
    var start := Originate(origin, f);
    var s1 := Step(s, start);
    StepKeepsShape(s, start);
    var rest := AlongPath(s1, |s.air| + path[0], path);
    Follow(s, start, rest);
    trace := [start] + rest;
  }
}
