/** Sequence idioms shared by the network models. */
module Sequences {
  /** The sequence with element `i` taken out. */
  function Without<T>(s: seq<T>, i: nat): seq<T>
    requires i < |s|
  {
    s[..i] + s[i + 1..]
  }
}
