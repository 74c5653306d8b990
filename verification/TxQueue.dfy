/** The mesh transmit queue: a ring of four slots that is a first-in first-out queue of frames. */
module TxQueue {
  import opened Bytes

  const QUEUE_SIZE := 4
  const FRAME_MAX := 256

  type Frame = seq<byte>

  predicate Fits(data: Frame) {
    0 < |data| <= FRAME_MAX
  }

  /** Whether a push is accepted. */
  predicate Takes(queue: seq<Frame>, data: Frame) {
    Fits(data) && |queue| < QUEUE_SIZE
  }

  class Queue {
    var slots: array<Frame>
    var head: nat
    var tail: nat
    var count: nat

    ghost predicate Valid()
      reads this
    {
      && slots.Length == QUEUE_SIZE && head < QUEUE_SIZE && tail < QUEUE_SIZE && count <= QUEUE_SIZE
      && tail == (if head + count >= QUEUE_SIZE then head + count - QUEUE_SIZE else head + count)
    }

    /** The slot of the queue's element `i`. */
    ghost function Slot(i: nat): (k: nat)
      requires Valid() && i < QUEUE_SIZE
      reads this
      ensures k < QUEUE_SIZE
    {
      if head + i >= QUEUE_SIZE then head + i - QUEUE_SIZE else head + i
    }

    ghost function Contents(): (q: seq<Frame>)
      requires Valid()
      reads this, slots
      ensures |q| == count
    {
      seq(count, i requires 0 <= i < count reads this, slots requires Valid() => slots[Slot(i)])
    }

    constructor ()
      ensures Valid() && Contents() == [] && fresh(slots)
    {
      slots := new Frame[QUEUE_SIZE](_ => []);
      head, tail, count := 0, 0, 0;
    }

    method Push(data: Frame) returns (ok: bool)
      requires Valid()
      modifies this`tail, this`count, slots
      ensures Valid() && ok == Takes(old(Contents()), data)
      ensures Contents() == if ok then old(Contents()) + [data] else old(Contents())
    {
      if |data| == 0 || |data| > FRAME_MAX {
        return false;
      }
      if count >= QUEUE_SIZE {
        return false;
      }
      slots[tail] := data;
      tail := (tail + 1) % QUEUE_SIZE;
      count := count + 1;
      return true;
    }

    method Pop() returns (out: Option<Frame>)
      requires Valid()
      modifies this`head, this`count
      ensures Valid() && (out.Some? <==> old(Contents()) != [])
      ensures if out.Some? then old(Contents()) == [out.value] + Contents() else Contents() == []
    {
      if count == 0 {
        return None;
      }
      out := Some(slots[head]);
      head := (head + 1) % QUEUE_SIZE;
      count := count - 1;
    }
  }
}
