/**
 Callbacks that take the results of an enumeration one by one.
 */
module Callback {
  import opened BlockDevice

  /** A callback: what it was given, and its answer to each thing given. */
  class Listener<T> {
    const answers: nat -> Error
    var got: seq<T>

    method Accept(x: T) returns (answer: Error)
      modifies this
      ensures got == old(got) + [x] && answer == answers(|old(got)|)
    {
      answer := answers(|got|);
      got := got + [x];
    }
  }
}
