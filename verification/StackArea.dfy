/** The caller's stack area as memory words, and the result words a trampoline
    clears in it. */
module StackArea {
  import opened Bits
  import opened LittleEndian
  import opened Precise

  /** The address of word `k` counted from `base`. */
  function WordAddr(base: int, k: int): int { base + 8 * k }

  /** Word `a` is one of the first `n` result words of the area at `base`, and the
      shape marks it as a pointer. */
  ghost predicate Cleared(sh: StubShape, base: int, n: nat, a: int) {
    exists i: nat :: i < n && Has(sh.retPtrs, i) && a == WordAddr(base, sh.argWords + i)
  }

  /** Memory `after` is `before` with the marked ones of the first `n` words zero. */
  ghost predicate ClearedMem(sh: StubShape, base: int, n: nat, before: map<int, int>, after: map<int, int>) {
    && after.Keys == before.Keys
    && forall a :: a in before ==> after[a] == if Cleared(sh, base, n, a) then 0 else before[a]
  }

  lemma ClearedNext(sh: StubShape, base: int, n: nat, before: map<int, int>, mem: map<int, int>)
    requires ClearedMem(sh, base, n, before, mem)
    requires WordAddr(base, sh.argWords + n) in before
    ensures ClearedMem(sh, base, n + 1, before,
                       if Has(sh.retPtrs, n) then mem[WordAddr(base, sh.argWords + n) := 0] else mem)
  {
    hide Has, WordAddr;
    forall a ensures Cleared(sh, base, n + 1, a) <==>
      Cleared(sh, base, n, a) || (Has(sh.retPtrs, n) && a == WordAddr(base, sh.argWords + n))
    {
    }
    hide Cleared;
  }

  lemma ClearedAbove(sh: StubShape, base: int, n: nat)
    ensures forall a :: Cleared(sh, base, n, a) ==> base <= a
  {
  }

  // ----- the area as bytes -----

  function WordBytes(v: int): (w: Word8) {
    LowBytesLen(v, 8);
    LowBytes(v, 8)
  }

  /** The stack window at `base`; what is not mapped reads as zero. */
  function Area(mem: map<int, int>, base: int): (r: seq<Byte>)
    ensures |r| == STACK_WINDOW
  {
    seq(STACK_WINDOW, b requires 0 <= b < STACK_WINDOW => AreaByte(mem, base, b))
  }

  function AreaByte(mem: map<int, int>, base: int, b: nat): Byte {
    if WordAddr(base, b / 8) in mem then WordBytes(mem[WordAddr(base, b / 8)])[b % 8] else 0
  }

  predicate SameWord(before: map<int, int>, after: map<int, int>, a: int) {
    (a in before <==> a in after) && (a in before ==> before[a] == after[a])
  }

  /** Words kept are bytes kept. */
  lemma AreaKept(before: map<int, int>, after: map<int, int>, base: int, words: nat, n: nat)
    requires n <= STACK_WINDOW && n <= 8 * words && forall w: nat :: w < words ==> SameWord(before, after, WordAddr(base, w))
    ensures Area(before, base)[0..n] == Area(after, base)[0..n]
  {
    hide LowBytes;
    forall b | 0 <= b < n ensures Area(before, base)[b] == Area(after, base)[b] {
      assert SameWord(before, after, WordAddr(base, b / 8));
    }
  }
}
