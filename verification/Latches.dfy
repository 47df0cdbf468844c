/**
  A large invariant that a proof only hands on is best not looked into: it is stated for every lifted latch, and the
  proofs that need what it says lift one.
 */
module Latches {
  datatype Latch = Latch

  ghost predicate Lifted(l: Latch) { l.Latch? }
}
