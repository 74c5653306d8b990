/** The duplicate filter used for vest hits (16 entries) and mesh frames (64 entries):
    a ring of accepted keys that refines a sliding window over the accepted history. */
module DedupRing {
  import opened Bytes

  // ----- specification -----

  /** The last `size` elements. */
  function LastN<K>(s: seq<K>, size: nat): seq<K> {
    if |s| <= size then s else s[|s| - size..]
  }

  /** The window after accepting `k`. */
  function Push<K>(window: seq<K>, k: K, size: nat): seq<K> {
    LastN(window + [k], size)
  }

  /** The window after the arrival of `k`: an arrival already in the window is a duplicate. */
  function Arrive<K(==)>(window: seq<K>, k: K, size: nat): seq<K> {
    if k in window then window else Push(window, k, size)
  }

  predicate Distinct<K(==)>(s: seq<K>) {
    forall i, j :: 0 <= i < j < |s| ==> s[i] != s[j]
  }

  lemma ArriveKeepsWindow<K>(window: seq<K>, k: K, size: nat)
    requires Distinct(window) && |window| <= size && size > 0
    ensures Distinct(Arrive(window, k, size)) && |Arrive(window, k, size)| <= size
    ensures k in Arrive(window, k, size)
  {
    if k !in window {
      var all := window + [k];
      assert Distinct(all);
      assert Push(window, k, size)[|Push(window, k, size)| - 1] == k;
    }
  }

  /** All keys accepted from a sequence of arrivals, oldest first. */
  function Accepted<K(==)>(arrivals: seq<K>, size: nat): seq<K> {
    if |arrivals| == 0 then []
    else
      var n := |arrivals| - 1;
      var before := Accepted(arrivals[..n], size);
      if arrivals[n] in LastN(before, size) then before else before + [arrivals[n]]
  }

  /** The window after a sequence of arrivals. */
  function Window<K(==)>(arrivals: seq<K>, size: nat): seq<K> {
    if |arrivals| == 0 then [] else Arrive(Window(arrivals[..|arrivals| - 1], size), arrivals[|arrivals| - 1], size)
  }

  /** The window holds exactly the last `size` accepted keys of the whole history. */
  lemma {:induction false} WindowIsRecentHistory<K>(arrivals: seq<K>, size: nat)
    requires size > 0
    ensures Window(arrivals, size) == LastN(Accepted(arrivals, size), size)
    ensures Distinct(Window(arrivals, size))
  {
    if |arrivals| > 0 {
      var n := |arrivals| - 1;
      WindowIsRecentHistory(arrivals[..n], size);
      var before := Accepted(arrivals[..n], size);
      ArriveKeepsWindow(LastN(before, size), arrivals[n], size);
      LastNPush(before, arrivals[n], size);
    }
  }

  lemma LastNPush<K>(s: seq<K>, k: K, size: nat)
    requires size > 0
    ensures LastN(LastN(s, size) + [k], size) == LastN(s + [k], size)
  {
  }

  /** Whether arrival `n` is accepted. */
  predicate AcceptedAt<K(==)>(arrivals: seq<K>, size: nat, n: nat)
    requires n < |arrivals|
  {
    arrivals[n] !in Window(arrivals[..n], size)
  }

  lemma {:induction false} AcceptedGrows<K>(arrivals: seq<K>, size: nat, m: nat)
    requires m <= |arrivals|
    ensures Accepted(arrivals[..m], size) <= Accepted(arrivals, size)
    decreases |arrivals|
  {
    if m == |arrivals| {
      assert arrivals[..m] == arrivals;
    } else {
      var n := |arrivals| - 1;
      AcceptedGrows(arrivals[..n], size, m);
      assert arrivals[..n][..m] == arrivals[..m];
    }
  }

  /** A key that recurs while fewer than `size` other keys were accepted since its own acceptance is a
      duplicate. */
  lemma RepeatIsDuplicate<K>(arrivals: seq<K>, size: nat, i: nat, j: nat)
    requires size > 0 && i < j < |arrivals| && arrivals[i] == arrivals[j]
    requires AcceptedAt(arrivals, size, i)
    requires |Accepted(arrivals[..j], size)| - |Accepted(arrivals[..i + 1], size)| < size
    ensures !AcceptedAt(arrivals, size, j)
  {
    var k := arrivals[i];
    var first, later := Accepted(arrivals[..i + 1], size), Accepted(arrivals[..j], size);
    WindowIsRecentHistory(arrivals[..i], size);
    assert arrivals[..i + 1][..i] == arrivals[..i];
    assert first == Accepted(arrivals[..i], size) + [k];
    AcceptedGrows(arrivals[..j], size, i + 1);
    assert arrivals[..j][..i + 1] == arrivals[..i + 1];
    assert later[|first| - 1] == k;
    WindowIsRecentHistory(arrivals[..j], size);
    assert k in LastN(later, size) by {
      if |later| > size {
        assert later[|later| - size..][|first| - 1 - (|later| - size)] == k;
      }
    }
  }

  /** If every two copies of a key have fewer than `size` accepted keys between them,
      the key is accepted exactly once. */
  lemma AcceptedOnce<K>(arrivals: seq<K>, size: nat, k: K)
    requires size > 0
    requires k in arrivals
    requires forall i, j :: 0 <= i < j < |arrivals| && arrivals[i] == arrivals[j] == k ==>
               |Accepted(arrivals[..j], size)| - |Accepted(arrivals[..i + 1], size)| < size
    ensures exists i ::
              && 0 <= i < |arrivals| && arrivals[i] == k && AcceptedAt(arrivals, size, i)
              && forall j :: 0 <= j < |arrivals| && arrivals[j] == k && AcceptedAt(arrivals, size, j) ==> j == i
  {
    var i := FirstIndex(arrivals, k);
    FirstIsAccepted(arrivals, size, i);
    forall j | 0 <= j < |arrivals| && arrivals[j] == k && AcceptedAt(arrivals, size, j)
      ensures j == i
    {
      if i < j {
        RepeatIsDuplicate(arrivals, size, i, j);
      }
    }
  }

  lemma FirstIndex<K>(s: seq<K>, k: K) returns (i: nat)
    requires k in s
    ensures i < |s| && s[i] == k && k !in s[..i]
  {
    i := 0;
    while s[i] != k
      invariant i < |s| && k in s[i..] && k !in s[..i]
      decreases |s| - i
    {
      i := i + 1;
    }
  }

  lemma FirstIsAccepted<K>(arrivals: seq<K>, size: nat, i: nat)
    requires i < |arrivals| && arrivals[i] !in arrivals[..i]
    ensures AcceptedAt(arrivals, size, i)
  {
    WindowFromArrivals(arrivals[..i], size);
  }

  lemma {:induction false} WindowFromArrivals<K>(arrivals: seq<K>, size: nat)
    ensures forall k :: k in Window(arrivals, size) ==> k in arrivals
  {
    if |arrivals| > 0 {
      WindowFromArrivals(arrivals[..|arrivals| - 1], size);
    }
  }

  // ----- the ring -----

  /** The ring's entries and write position hold the window, oldest key first. */
  ghost predicate Layout<K>(entries: seq<Option<K>>, next: nat, window: seq<K>) {
    var size := |entries|;
    && next < size
    && |window| <= size
    && if |window| < size then
         && next == |window|
         && (forall i :: 0 <= i < next ==> entries[i] == Some(window[i]))
         && (forall i :: next <= i < size ==> entries[i] == None)
       else
         && (forall i :: next <= i < size ==> entries[i] == Some(window[i - next]))
         && (forall i :: 0 <= i < next ==> entries[i] == Some(window[size - next + i]))
  }

  lemma LayoutHasWindow<K>(entries: seq<Option<K>>, next: nat, window: seq<K>, k: K)
    requires Layout(entries, next, window)
    ensures k in window <==> Some(k) in entries
  {
    var size := |entries|;
    if k in window {
      var j :| 0 <= j < |window| && window[j] == k;
      if |window| < size {
        assert entries[j] == Some(k);
      } else if j < size - next {
        assert entries[next + j] == Some(window[j]);
      } else {
        assert entries[j - (size - next)] == Some(window[j]);
      }
    }
  }

  /** Writing a key at the write position and advancing it pushes the key onto the window. */
  lemma LayoutInsert<K>(entries: seq<Option<K>>, next: nat, window: seq<K>, k: K)
    requires Layout(entries, next, window)
    ensures Layout(entries[next := Some(k)], (next + 1) % |entries|, Push(window, k, |entries|))
  {
    PushShape(window, k, |entries|);
    WrapNext(next, |entries|);
  }

  class Ring<K(==)> {
    var entries: array<Option<K>>
    var next: nat
    /** The accepted keys still in the ring, oldest first. */
    ghost var window: seq<K>

    ghost predicate Valid()
      reads this, entries
    {
      Layout(entries[..], next, window) && Distinct(window)
    }

    constructor (size: nat)
      requires size > 0
      ensures Valid() && fresh(entries) && entries.Length == size && window == []
    {
      entries := new Option<K>[size](_ => None);
      next, window := 0, [];
    }

    /** True for a duplicate; otherwise the key is recorded in place of the oldest one. */
    method CheckAndInsert(k: K) returns (duplicate: bool)
      requires Valid()
      modifies this`next, this`window, entries
      ensures Valid()
      ensures duplicate <==> k in old(window)
      ensures window == Arrive(old(window), k, entries.Length)
    {
      LayoutHasWindow(entries[..], next, window, k);
      var i := 0;
      while i < entries.Length
        invariant 0 <= i <= entries.Length
        invariant forall j :: 0 <= j < i ==> entries[j] != Some(k)
      {
        if entries[i] == Some(k) {
          return true;
        }
        i := i + 1;
      }
      Insert(k);
      return false;
    }

    /** Overwrites the oldest entry. */
    method Insert(k: K)
      requires Valid() && k !in window
      modifies this`next, this`window, entries
      ensures Valid() && window == Push(old(window), k, entries.Length)
    {
      ArriveKeepsWindow(window, k, entries.Length);
      LayoutInsert(entries[..], next, window, k);
      ghost var written := entries[..][next := Some(k)];
      entries[next] := Some(k);
      assert entries[..] == written;
      next := (next + 1) % entries.Length;
      window := Push(window, k, entries.Length);
    }
  }

  lemma PushShape<K>(window: seq<K>, k: K, size: nat)
    requires |window| <= size && size > 0
    ensures Push(window, k, size) == if |window| < size then window + [k] else window[1..] + [k]
  {
  }

  lemma WrapNext(next: nat, size: nat)
    requires next < size
    ensures (next + 1) % size == if next + 1 == size then 0 else next + 1
  {
  }
}
