/** The amd64 trampoline: its instructions, the entries of its stack-delta table, and
    the emitter that writes both. */
module Amd64Stub {
  import opened Bits
  import opened LittleEndian
  import opened PcTable
  import opened Precise
  import opened Amd64Asm

  const JIT_FRAME_SIZE := 0xd0
  const JIT_SP_DELTA := JIT_FRAME_SIZE + 8

  // ----- the code -----

  function Prologue(): seq<Ins> {
    [Push(RBP), MovReg(RBP, RSP), SubSP(JIT_FRAME_SIZE),
     MovMemReg(RSP, 0, R11),             // a8, dispatch's ninth integer argument
     Lea(RDX, RSP, JIT_FRAME_SIZE + 16), // &s0
     MovMemReg(RSP, 8, RDX)]             // stack parameter
  }

  /** Clears of the first `n` result words, where they are pointers. */
  function Clears(sh: StubShape, n: nat): seq<Ins> {
    if n == 0 then []
    else Clears(sh, n - 1)
         + if Has(sh.retPtrs, n - 1) then [MovMemImm(RDX, (sh.argWords + n - 1) * 8, 0)] else []
  }

  function ShiftHigh(): seq<Ins> {
    [MovReg(R11, R10), MovReg(R10, R9), MovReg(R9, R8), MovReg(R8, RSI)]
  }

  function ShiftLow(): seq<Ins> {
    [MovReg(RSI, RDI), MovReg(RDI, RCX), MovReg(RCX, RBX), MovReg(RBX, RAX)]
  }

  /** The argument registers up by one, last first, to free RAX for the index. */
  function Shift(): seq<Ins> {
    ShiftHigh() + ShiftLow()
  }

  /** Everything before the CALL. */
  function Before(sh: StubShape, dispatch: nat): seq<Ins> {
    Prologue() + Clears(sh, sh.retWords) + Shift() + [MovEax(sh.index), MovAbsR12(dispatch)]
  }

  function Stub(sh: StubShape, dispatch: nat): seq<Ins> {
    Before(sh, dispatch) + [CallR12, AddSP(JIT_FRAME_SIZE), Pop(RBP), Ret]
  }

  /** The stack-delta entries for code of `len` bytes. */
  function Entries(len: nat): seq<Entry>
    requires len > 2
  {
    [Entry(1, 0), Entry(11, 8), Entry(len - 2, JIT_SP_DELTA), Entry(len - 1, 8), Entry(len, 0)]
  }

  /** What a shape and a dispatch address have to be for their numbers to survive
      the assembler: MOVL takes an int32 and MOVABS a decimal int64. */
  predicate StubOk(sh: StubShape, dispatch: nat) {
    && sh.index < 0x8000_0000 && dispatch < 0x8000_0000_0000_0000
    && sh.argWords <= STUB_MAX_WORDS && sh.retWords <= STUB_MAX_WORDS
  }

  /** The code emitted so far, as bytes and as the instructions they encode. */
  class Emitter {
    var code: seq<Byte>
    ghost var prog: seq<Ins>

    ghost predicate Valid()
      reads this
    {
      code == EncodeAll(prog)
    }

    constructor ()
      ensures Valid() && prog == []
    {
      code, prog := [], [];
    }

    method Emit(list: seq<Ins>)
      requires Valid()
      modifies this
      ensures Valid() && prog == old(prog) + list
    {
      hide Encode;
      for i := 0 to |list|
        invariant Valid() && prog == old(prog) + list[..i]
      {
        EncodeAllAppend(prog, [list[i]]);
        assert EncodeAll([list[i]]) == Encode(list[i]);
        code := code + Encode(list[i]);
        prog := prog + [list[i]];
      }
    }
  }

  method JitStubCode(sh: StubShape, dispatch: nat) returns (code: seq<Byte>, pcsp: seq<Byte>)
    requires StubOk(sh, dispatch)
    ensures code == EncodeAll(Stub(sh, dispatch))
    ensures |code| > 13 && pcsp == EncodeFrom(Entries(|code|), -1, 0)
  {
    hide EncodeAll, EncodeFrom;
    var e := new Emitter();
    e.Emit([Push(RBP), MovReg(RBP, RSP), SubSP(JIT_FRAME_SIZE)]);
    assert e.prog == [Push(RBP), MovReg(RBP, RSP), SubSP(JIT_FRAME_SIZE)];
    var spMoved := |e.code|;
    e.Emit([MovMemReg(RSP, 0, R11), Lea(RDX, RSP, JIT_FRAME_SIZE + 16), MovMemReg(RSP, 8, RDX)]);
    assert e.prog == Prologue() + Clears(sh, 0);
    var i := 0;
    while i < sh.retWords
      invariant 0 <= i <= sh.retWords && e.Valid() && e.prog == Prologue() + Clears(sh, i)
      invariant fresh(e)
    {
      if Has(sh.retPtrs, i) {
        var disp := (sh.argWords + i) * 8;
        e.Emit([MovMemImm(RDX, disp, 0)]);
      }
      i := i + 1;
    }
    e.Emit(Shift());
    e.Emit([MovEax(sh.index), MovAbsR12(dispatch)]);
    assert e.prog == Before(sh, dispatch);
    e.Emit([CallR12]);
    e.Emit([AddSP(JIT_FRAME_SIZE), Pop(RBP), Ret]);
    assert e.prog == Stub(sh, dispatch);
    code := e.code;
    StubLength(sh, dispatch);
    var sp8, sp0 := |code| - 2, |code| - 1;
    pcsp := EncodePCSP([Entry(1, 0), Entry(spMoved, 8), Entry(sp8, JIT_SP_DELTA), Entry(sp0, 8), Entry(|code|, 0)]);
  }

  // ----- where the instructions lie -----

  lemma EncodeOne(i: Ins)
    ensures EncodeAll([i]) == Encode(i)
  {
  }

  /** PUSH is one byte, MOV three, SUB seven. */
  lemma PrologueLength()
    ensures |EncodeAll([Push(RBP)])| == 1
    ensures |EncodeAll([Push(RBP), MovReg(RBP, RSP)])| == 4
    ensures |EncodeAll([Push(RBP), MovReg(RBP, RSP), SubSP(JIT_FRAME_SIZE)])| == 11
  {
    var a, b, c := Push(RBP), MovReg(RBP, RSP), SubSP(JIT_FRAME_SIZE);
    EncodeOne(a); EncodeOne(b); EncodeOne(c);
    LowBytesLen(JIT_FRAME_SIZE, 4);
    EncodeAllAppend([a], [b]);
    EncodeAllAppend([a, b], [c]);
    assert [a] + [b] == [a, b] && [a, b] + [c] == [a, b, c];
  }

  /** The epilogue is ADD of seven bytes, POP and RET of one each. */
  lemma EpilogueLength()
    ensures |EncodeAll([AddSP(JIT_FRAME_SIZE), Pop(RBP), Ret])| == 9
    ensures |EncodeAll([Pop(RBP), Ret])| == 2 && |EncodeAll([Ret])| == 1
  {
    var a, b, c := AddSP(JIT_FRAME_SIZE), Pop(RBP), Ret;
    EncodeOne(a); EncodeOne(b); EncodeOne(c);
    LowBytesLen(JIT_FRAME_SIZE, 4);
    EncodeAllAppend([b], [c]);
    EncodeAllAppend([a], [b, c]);
    assert [b] + [c] == [b, c] && [a] + [b, c] == [a, b, c];
  }

  lemma StubLength(sh: StubShape, dispatch: nat)
    ensures |EncodeAll(Stub(sh, dispatch))| > 13
    ensures |EncodeAll([Push(RBP), MovReg(RBP, RSP), SubSP(JIT_FRAME_SIZE)])| == 11
  {
    hide EncodeAll, Encode;
    PrologueLength();
    EpilogueLength();
    var head := [Push(RBP), MovReg(RBP, RSP), SubSP(JIT_FRAME_SIZE)];
    var tail := [AddSP(JIT_FRAME_SIZE), Pop(RBP), Ret];
    var prog := Stub(sh, dispatch);
    var mid := prog[3..|prog| - 3];
    assert prog == head + (mid + tail);
    EncodeAllAppend(head, mid + tail);
    EncodeAllAppend(mid, tail);
  }
}
