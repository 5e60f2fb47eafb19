/** The arm64 trampoline: its words in a fixed 512-byte buffer and the entries of its
    stack-delta table. */
module Arm64Stub {
  import opened Bits
  import opened LittleEndian
  import opened PcTable
  import opened Precise
  import opened Arm64Asm

  const JIT_FRAME_SIZE := 288
  const PC_QUANTUM := 4

  // ----- the code -----

  /** The frame opened: R20 is the new SP until FP and LR are saved. */
  function Opening(): seq<Ins> {
    [SubImm(20, SP, JIT_FRAME_SIZE), Stp(FP, LR, 20, -8), AddImm(SP, 20, 0)]
  }

  function Spills(): seq<Ins> {
    [SubImm(FP, SP, 8),
     Str(15, SP, 8),                     // a15, dispatch's seventeenth integer argument
     AddImm(16, SP, JIT_FRAME_SIZE + 8), // &s0
     Str(16, SP, 16)]                    // stack parameter
  }

  function Clears(sh: StubShape, n: nat): seq<Ins> {
    if n == 0 then []
    else Clears(sh, n - 1) + if Has(sh.retPtrs, n - 1) then [Str(ZR, 16, (sh.argWords + n - 1) * 8)] else []
  }

  /** The first `n` of the moves R14 -> R15, R13 -> R14, down to R0 -> R1. */
  function Shift(n: nat): seq<Ins>
    requires n <= 15
  {
    if n == 0 then [] else Shift(n - 1) + [MovReg(16 - n, 15 - n)]
  }

  /** The sixteen bits of `x` from `16 * k` up. */
  function Piece(x: nat, k: nat): nat
    requires k < 4
  {
    (if k == 0 then x else if k == 1 then x / 0x1_0000 else if k == 2 then x / 0x1_0000_0000
     else x / 0x1_0000_0000_0000) % 0x1_0000
  }

  function LoadAddress(dispatch: nat): seq<Ins> {
    [Movz(16, Piece(dispatch, 0)), Movk(16, Piece(dispatch, 1), 16),
     Movk(16, Piece(dispatch, 2), 32), Movk(16, Piece(dispatch, 3), 48)]
  }

  /** Everything before the BLR. */
  function Before(sh: StubShape, dispatch: nat): seq<Ins> {
    Opening() + Spills() + Clears(sh, sh.retWords) + Shift(15) + [Movz(0, sh.index)] + LoadAddress(dispatch)
  }

  function Stub(sh: StubShape, dispatch: nat): seq<Ins> {
    Before(sh, dispatch) + [Blr(16), Ldp(FP, LR, SP, -8), AddImm(SP, SP, JIT_FRAME_SIZE), Ret]
  }

  function EncodeAll(prog: seq<Ins>): seq<Byte> {
    if prog == [] then [] else EncodeAll(prog[..|prog| - 1]) + LowBytes(Word(prog[|prog| - 1]), 4)
  }

  /** SP moves after the third instruction and again before the RET. */
  function Entries(len: nat): seq<Entry>
    requires len >= 4
  {
    [Entry(12, 0), Entry(len - 4, JIT_FRAME_SIZE), Entry(len, 0)]
  }

  /** MOVZ takes sixteen bits of index. */
  predicate StubOk(sh: StubShape, dispatch: nat) {
    && sh.index < 0x1_0000 && dispatch < W64
    && sh.argWords <= STUB_MAX_WORDS && sh.retWords <= STUB_MAX_WORDS
  }

  /** The code buffer and how much of it is written. */
  class Buffer {
    const code: array<Byte>
    var off: nat
    ghost var prog: seq<Ins>

    ghost predicate Valid()
      reads this, code
    {
      off <= code.Length && off == 4 * |prog| && code[..off] == EncodeAll(prog)
    }

    constructor (size: nat)
      ensures Valid() && prog == [] && code.Length == size && fresh(code)
    {
      code := new Byte[size](_ => 0);
      off, prog := 0, [];
    }

    /** Writes one word; the caller leaves room for it. */
    method Put(i: Ins)
      requires Valid() && off + 4 <= code.Length
      modifies this, code
      ensures Valid() && prog == old(prog) + [i] && off == old(off) + 4
    {
      hide Word;
      var w := LowBytes(Word(i), 4);
      LowBytesLen(Word(i), 4);
      ghost var before := code[..off];
      code[off] := w[0];
      code[off + 1] := w[1];
      code[off + 2] := w[2];
      code[off + 3] := w[3];
      assert code[..off + 4] == before + w;
      assert (prog + [i])[..|prog|] == prog;
      off := off + 4;
      prog := prog + [i];
    }

    /** Consecutive words. */
    method PutAll(list: seq<Ins>)
      requires Valid() && off + 4 * |list| <= code.Length
      modifies this, code
      ensures Valid() && prog == old(prog) + list && off == old(off) + 4 * |list|
    {
      hide EncodeAll;
      for i := 0 to |list|
        invariant Valid() && prog == old(prog) + list[..i] && off == old(off) + 4 * i
      {
        Put(list[i]);
      }
    }
  }

  method PutClears(b: Buffer, sh: StubShape)
    requires b.Valid() && b.off + 4 * sh.retWords <= b.code.Length
    modifies b, b.code
    ensures b.Valid() && b.prog == old(b.prog) + Clears(sh, sh.retWords)
    ensures |Clears(sh, sh.retWords)| <= sh.retWords
  {
    hide EncodeAll;
    for i := 0 to sh.retWords
      invariant b.Valid() && b.prog == old(b.prog) + Clears(sh, i) && |Clears(sh, i)| <= i
    {
      if Has(sh.retPtrs, i) {
        var w := sh.argWords + i;
        b.Put(Str(ZR, 16, w * 8));
      }
    }
  }

  /** The loop from R14 down to R0. */
  method PutShift(b: Buffer)
    requires b.Valid() && b.off + 60 <= b.code.Length
    modifies b, b.code
    ensures b.Valid() && b.prog == old(b.prog) + Shift(15) && |Shift(15)| == 15
  {
    hide EncodeAll, Shift;
    ghost var p := b.prog;
    var r := 14;
    NoShift(p);
    while r >= 0
      invariant -1 <= r <= 14 && b.Valid() && b.prog == p + Shift(14 - r)
      invariant |Shift(14 - r)| == 14 - r
    {
      ShiftNext(p, 14 - r);
      b.Put(MovReg(r + 1, r));
      r := r - 1;
    }
  }

  lemma NoShift(p: seq<Ins>)
    ensures p + Shift(0) == p && |Shift(0)| == 0
  {
  }

  lemma ShiftNext(p: seq<Ins>, n: nat)
    requires n < 15
    ensures p + Shift(n) + [MovReg(15 - n, 14 - n)] == p + Shift(n + 1) && |Shift(n + 1)| == |Shift(n)| + 1
  {
  }

  /** Everything before the BLR; `spMoved` is where SP has moved. */
  method PutBefore(b: Buffer, sh: StubShape, dispatch: nat) returns (spMoved: nat)
    requires b.Valid() && StubOk(sh, dispatch) && b.off + 368 <= b.code.Length
    modifies b, b.code
    ensures b.Valid() && b.prog == old(b.prog) + Before(sh, dispatch) && spMoved == old(b.off) + 12
    ensures b.off <= old(b.off) + 368
  {
    hide EncodeAll, Clears, Shift;
    ghost var p := b.prog;
    b.PutAll(Opening());
    spMoved := b.off;
    b.PutAll(Spills());
    hide Opening, Spills, LoadAddress, Before;
    PutClears(b, sh);
    PutShift(b);
    b.PutAll([Movz(0, sh.index)]);
    b.PutAll(LoadAddress(dispatch));
    BeforeIs(sh, dispatch, p);
  }

  lemma BeforeIs(sh: StubShape, dispatch: nat, p: seq<Ins>)
    ensures p + Opening() + Spills() + Clears(sh, sh.retWords) + Shift(15) + [Movz(0, sh.index)] + LoadAddress(dispatch)
         == p + Before(sh, dispatch)
    ensures |LoadAddress(dispatch)| == 4
  {
    assert |LoadAddress(dispatch)| == 4;
    var a, b, c, d, e, f := Opening(), Spills(), Clears(sh, sh.retWords), Shift(15), [Movz(0, sh.index)], LoadAddress(dispatch);
    assert Before(sh, dispatch) == a + b + c + d + e + f;
    hide *;
    Regroup(p, a, b, c, d, e, f);
  }

  lemma Regroup(p: seq<Ins>, a: seq<Ins>, b: seq<Ins>, c: seq<Ins>, d: seq<Ins>, e: seq<Ins>, f: seq<Ins>)
    ensures p + a + b + c + d + e + f == p + (a + b + c + d + e + f)
  {
    assert p + a + b == p + (a + b);
    assert p + (a + b) + c == p + (a + b + c);
    assert p + (a + b + c) + d == p + (a + b + c + d);
    assert p + (a + b + c + d) + e == p + (a + b + c + d + e);
  }

  /** Never writes past its 512 bytes, whatever the shape. */
  method JitStubCode(sh: StubShape, dispatch: nat) returns (code: seq<Byte>, pcsp: seq<Byte>)
    requires StubOk(sh, dispatch)
    ensures code == EncodeAll(Stub(sh, dispatch)) && |code| == 4 * |Stub(sh, dispatch)|
    ensures 20 <= |code| <= 512 && pcsp == EncodeFrom(Entries(|code|), -1, 0)
  {
    hide EncodeAll, EncodeFrom, Before;
    var b := new Buffer(512);
    var spMoved := PutBefore(b, sh, dispatch);
    b.PutAll([Blr(16)]);
    b.PutAll([Ldp(FP, LR, SP, -8), AddImm(SP, SP, JIT_FRAME_SIZE)]);
    var spRestored := b.off;
    b.PutAll([Ret]);
    assert b.prog == Stub(sh, dispatch);
    LongEnough(sh, dispatch);
    code := b.code[..b.off];
    pcsp := EncodePCSP([Entry(spMoved, 0), Entry(spRestored, JIT_FRAME_SIZE), Entry(|code|, 0)]);
  }

  lemma LongEnough(sh: StubShape, dispatch: nat)
    ensures |Before(sh, dispatch)| >= 7
  {
  }
}
