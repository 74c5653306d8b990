/** The unsigned 8-bit integers of the firmware's infrared code, as their eight bits. */
module Octets {
  datatype Octet = Octet(b7: bool, b6: bool, b5: bool, b4: bool, b3: bool, b2: bool, b1: bool, b0: bool) {
    function Xor(o: Octet): Octet {
      Octet(b7 != o.b7, b6 != o.b6, b5 != o.b5, b4 != o.b4, b3 != o.b3, b2 != o.b2, b1 != o.b1, b0 != o.b0)
    }

    function ShiftLeft(): Octet {
      Octet(b6, b5, b4, b3, b2, b1, b0, false)
    }

    /** Bit `j`, counted from the least significant one: `(o >> j) & 1`. */
    function Bit(j: nat): bool
      requires j < 8
    {
      if j == 0 then b0 else if j == 1 then b1 else if j == 2 then b2 else if j == 3 then b3
      else if j == 4 then b4 else if j == 5 then b5 else if j == 6 then b6 else b7
    }

    /** `o | (1 << j)`. */
    function SetBit(j: nat): Octet
      requires j < 8
    {
      if j == 0 then this.(b0 := true) else if j == 1 then this.(b1 := true)
      else if j == 2 then this.(b2 := true) else if j == 3 then this.(b3 := true)
      else if j == 4 then this.(b4 := true) else if j == 5 then this.(b5 := true)
      else if j == 6 then this.(b6 := true) else this.(b7 := true)
    }

    function ToNat(): (n: nat)
      ensures n < 256
    {
      Plus(b0, Plus(b1, Plus(b2, Plus(b3, Plus(b4, Plus(b5, Plus(b6, Plus(b7, 0))))))))
    }

    /** A binary numeral extended by one low digit. */
    static function Plus(low: bool, rest: nat): nat { 2 * rest + if low then 1 else 0 }
  }

  const ZERO := Octet(false, false, false, false, false, false, false, false)

  /** Bitwise exclusive-or of two equally long messages: a message and the damage done to it. */
  function XorAll(a: seq<Octet>, b: seq<Octet>): (r: seq<Octet>)
    requires |a| == |b|
    ensures |r| == |a|
  {
    seq(|a|, i requires 0 <= i < |a| => a[i].Xor(b[i]))
  }
}
