/** Failures of the outside world: commands, connections and answers. */
module Faults {
  /** A failure that may happen, where failures may happen at all. */
  method Fault(possible: bool) returns (happens: bool)
    ensures happens ==> possible
  {
    happens := *;
    happens := happens && possible;
  }
}
