/** One mesh node over time: what its duplicate filter amounts to. */
module MeshHistory {
  import opened Bytes
  import opened DedupRing
  import opened MeshNode

  datatype Arrival = Arrival(frame: Frame, overrun: byte)

  function Hear(n: Node, arrivals: seq<Arrival>): Node {
    if |arrivals| == 0 then n
    else
      var a := arrivals[|arrivals| - 1];
      Process(Hear(n, arrivals[..|arrivals| - 1]), a.frame, a.overrun).0
  }

  /** The keys of the complete frames of other players. */
  function ForeignKeys(player: byte, arrivals: seq<Arrival>): seq<Key> {
    if |arrivals| == 0 then []
    else
      var f := arrivals[|arrivals| - 1].frame;
      ForeignKeys(player, arrivals[..|arrivals| - 1])
      + if |f| >= HEADER_SIZE && f[1] != player then [KeyOf(f)] else []
  }

  lemma ProcessWindow(n: Node, f: Frame, overrun: byte)
    ensures var n' := Process(n, f, overrun).0;
            n'.player == n.player
            && n'.window == if |f| >= HEADER_SIZE && f[1] != n.player then Arrive(n.window, KeyOf(f), DEDUP_SIZE)
                            else n.window
  {
  }

  lemma {:induction false} FilterIsWindow(n: Node, arrivals: seq<Arrival>)
    requires n.window == []
    ensures Hear(n, arrivals).window == Window(ForeignKeys(n.player, arrivals), DEDUP_SIZE)
    ensures Hear(n, arrivals).player == n.player
    decreases |arrivals|
  {
    if |arrivals| > 0 {
      var front, a := arrivals[..|arrivals| - 1], arrivals[|arrivals| - 1];
      FilterIsWindow(n, front);
      ProcessWindow(Hear(n, front), a.frame, a.overrun);
      var before, keys := ForeignKeys(n.player, front), ForeignKeys(n.player, arrivals);
      if |a.frame| >= HEADER_SIZE && a.frame[1] != n.player {
        assert keys[..|keys| - 1] == before;
      } else {
        assert keys == before;
      }
    }
  }

  /** Over any history the node's filter is the sliding window over the keys of other players' frames:
      a frame is taken for a duplicate exactly if its key is among the last 64 accepted ones. */
  lemma FilterIsSlidingWindow(n: Node, arrivals: seq<Arrival>)
    requires n.window == []
    ensures Hear(n, arrivals).window == LastN(Accepted(ForeignKeys(n.player, arrivals), DEDUP_SIZE), DEDUP_SIZE)
  {
    FilterIsWindow(n, arrivals);
    WindowIsRecentHistory(ForeignKeys(n.player, arrivals), DEDUP_SIZE);
  }
}
