/** The identity of a generated trampoline. */
module Precise {
  const STACK_WINDOW := 480     // bytes of stack area a trampoline can capture
  const STUB_MAX_WORDS := 64    // one uint64 of bits per direction

  /** The method index, and which words of the caller's stack area are pointers:
      argument words first, then result words, one bit each. */
  datatype StubShape = StubShape(index: nat, argWords: nat, retWords: nat, argPtrs: nat, retPtrs: nat)
}
