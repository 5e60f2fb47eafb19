/** The amd64 trampoline byte for byte, written out from the instruction set reference. */
module Amd64Bytes {
  import opened Bits
  import opened LittleEndian
  import opened Precise
  import opened Amd64Asm
  import opened Amd64Stub

  const OPENING_BYTES: seq<Byte> := [
    0x55,                                               // push rbp
    0x48, 0x89, 0xE5,                                   // mov rbp, rsp
    0x48, 0x81, 0xEC, 0xD0, 0x00, 0x00, 0x00            // sub rsp, 0xd0
  ]

  const SPILL_BYTES: seq<Byte> := [
    0x4C, 0x89, 0x1C, 0x24,                             // mov [rsp], r11
    0x48, 0x8D, 0x94, 0x24, 0xE0, 0x00, 0x00, 0x00,     // lea rdx, [rsp+0xe0]
    0x48, 0x89, 0x54, 0x24, 0x08                        // mov [rsp+8], rdx
  ]

  const HIGH_BYTES: seq<Byte> := [
    0x4D, 0x89, 0xD3,                                   // mov r11, r10
    0x4D, 0x89, 0xCA,                                   // mov r10, r9
    0x4D, 0x89, 0xC1,                                   // mov r9, r8
    0x49, 0x89, 0xF0                                    // mov r8, rsi
  ]

  const LOW_BYTES: seq<Byte> := [
    0x48, 0x89, 0xFE,                                   // mov rsi, rdi
    0x48, 0x89, 0xCF,                                   // mov rdi, rcx
    0x48, 0x89, 0xD9,                                   // mov rcx, rbx
    0x48, 0x89, 0xC3                                    // mov rbx, rax
  ]

  const EPILOGUE_BYTES: seq<Byte> := [
    0x41, 0xFF, 0xD4,                                   // call r12
    0x48, 0x81, 0xC4, 0xD0, 0x00, 0x00, 0x00,           // add rsp, 0xd0
    0x5D,                                               // pop rbp
    0xC3                                                // ret
  ]

  /** mov qword [rdx+8w], 0, with the shortest displacement. */
  function ClearBytes(w: nat): seq<Byte> {
    if w == 0 then [0x48, 0xC7, 0x02, 0, 0, 0, 0]
    else if w < 16 then [0x48, 0xC7, 0x42, 8 * w, 0, 0, 0, 0]
    else [0x48, 0xC7, 0x82] + LowBytes(8 * w, 4) + [0, 0, 0, 0]
  }

  /** One clear for every result word, of the first `n`, whose bit is set. */
  function AllClears(sh: StubShape, n: nat): seq<Byte> {
    if n == 0 then [] else AllClears(sh, n - 1) + if Has(sh.retPtrs, n - 1) then ClearBytes(sh.argWords + n - 1) else []
  }

  /** mov eax, imm32; movabs r12, imm64 */
  function LoadBytes(index: nat, dispatch: nat): seq<Byte> {
    [0xB8] + LowBytes(index, 4) + [0x49, 0xBC] + LowBytes(dispatch, 8)
  }

  lemma FrameBytes()
    ensures LowBytes(JIT_FRAME_SIZE, 4) == [0xD0, 0, 0, 0] && LowBytes(JIT_FRAME_SIZE + 16, 4) == [0xE0, 0, 0, 0]
    ensures LowBytes(8, 1) == [8] && LowBytes(0, 4) == [0, 0, 0, 0]
  {
  }

  lemma EncodeTwo(a: Ins, b: Ins)
    ensures EncodeAll([a, b]) == Encode(a) + Encode(b)
  {
    EncodeOne(a); EncodeOne(b);
    EncodeAllAppend([a], [b]);
    assert [a] + [b] == [a, b];
  }

  lemma EncodeThree(a: Ins, b: Ins, c: Ins)
    ensures EncodeAll([a, b, c]) == Encode(a) + Encode(b) + Encode(c)
  {
    hide Encode;
    EncodeTwo(a, b); EncodeOne(c);
    EncodeAllAppend([a, b], [c]);
    assert [a, b] + [c] == [a, b, c];
  }

  lemma OpeningIs()
    ensures Encode(Push(RBP)) == [0x55] && Encode(MovReg(RBP, RSP)) == [0x48, 0x89, 0xE5]
    ensures Encode(SubSP(JIT_FRAME_SIZE)) == [0x48, 0x81, 0xEC, 0xD0, 0, 0, 0]
  {
    FrameBytes();
    hide LowBytes;
  }

  lemma SpillsAre()
    ensures Encode(MovMemReg(RSP, 0, R11)) == [0x4C, 0x89, 0x1C, 0x24]
    ensures Encode(Lea(RDX, RSP, JIT_FRAME_SIZE + 16)) == [0x48, 0x8D, 0x94, 0x24, 0xE0, 0, 0, 0]
    ensures Encode(MovMemReg(RSP, 8, RDX)) == [0x48, 0x89, 0x54, 0x24, 8]
  {
    FrameBytes();
    hide LowBytes;
  }

  lemma PrologueIs()
    ensures EncodeAll(Prologue()) == OPENING_BYTES + SPILL_BYTES
  {
    hide Encode, EncodeAll;
    OpeningIs();
    SpillsAre();
    var a, b, c := Push(RBP), MovReg(RBP, RSP), SubSP(JIT_FRAME_SIZE);
    var d, e, f := MovMemReg(RSP, 0, R11), Lea(RDX, RSP, JIT_FRAME_SIZE + 16), MovMemReg(RSP, 8, RDX);
    assert EncodeAll([a, b, c]) == OPENING_BYTES by { EncodeThree(a, b, c); }
    assert EncodeAll([d, e, f]) == SPILL_BYTES by { EncodeThree(d, e, f); }
    EncodeAllAppend([a, b, c], [d, e, f]);
    assert Prologue() == [a, b, c] + [d, e, f];
  }

  lemma FourMoves(a: Ins, b: Ins, c: Ins, d: Ins)
    ensures EncodeAll([a, b, c, d]) == Encode(a) + Encode(b) + Encode(c) + Encode(d)
  {
    hide Encode;
    EncodeTwo(a, b); EncodeTwo(c, d);
    EncodeAllAppend([a, b], [c, d]);
    assert [a, b] + [c, d] == [a, b, c, d];
  }

  lemma MovesAre()
    ensures EncodeAll(ShiftHigh()) == HIGH_BYTES && EncodeAll(ShiftLow()) == LOW_BYTES
  {
    assert EncodeAll(ShiftHigh()) == HIGH_BYTES by {
      FourMoves(MovReg(R11, R10), MovReg(R10, R9), MovReg(R9, R8), MovReg(R8, RSI));
    }
    assert EncodeAll(ShiftLow()) == LOW_BYTES by {
      FourMoves(MovReg(RSI, RDI), MovReg(RDI, RCX), MovReg(RCX, RBX), MovReg(RBX, RAX));
    }
  }

  lemma ShiftIs()
    ensures EncodeAll(Shift()) == HIGH_BYTES + LOW_BYTES
  {
    hide Encode, EncodeAll;
    MovesAre();
    EncodeAllAppend(ShiftHigh(), ShiftLow());
  }

  lemma EpilogueIs()
    ensures EncodeAll([CallR12, AddSP(JIT_FRAME_SIZE), Pop(RBP), Ret]) == EPILOGUE_BYTES
  {
    FrameBytes();
    FourMoves(CallR12, AddSP(JIT_FRAME_SIZE), Pop(RBP), Ret);
  }

  lemma ClearIs(w: nat)
    requires 8 * w < 0x8000_0000
    ensures Encode(MovMemImm(RDX, w * 8, 0)) == ClearBytes(w)
  {
    FrameBytes();
    NoWrap(w);
    OneByte(8 * w);
    hide LowBytes, ToInt32;
  }

  lemma NoWrap(w: nat)
    requires 8 * w < 0x8000_0000
    ensures ToInt32(w * 8) == 8 * w
  {
  }

  lemma OneByte(x: nat)
    ensures x < 256 ==> LowBytes(x, 1) == [x]
  {
    assert LowBytes(x / 0x100, 0) == [];
  }

  lemma {:induction false} ClearsAre(sh: StubShape, n: nat)
    requires 8 * (sh.argWords + n) < 0x8000_0000
    ensures EncodeAll(Clears(sh, n)) == AllClears(sh, n)
  {
    hide Encode, ClearBytes;
    if n != 0 {
      ClearsAre(sh, n - 1);
      if Has(sh.retPtrs, n - 1) {
        var i := MovMemImm(RDX, (sh.argWords + n - 1) * 8, 0);
        ClearIs(sh.argWords + n - 1);
        EncodeOne(i);
        EncodeAllAppend(Clears(sh, n - 1), [i]);
      } else {
        assert Clears(sh, n) == Clears(sh, n - 1);
      }
    }
  }

  /** The whole trampoline, for every shape and dispatch address. */
  lemma StubBytes(sh: StubShape, dispatch: nat)
    requires StubOk(sh, dispatch)
    ensures EncodeAll(Stub(sh, dispatch)) ==
            OPENING_BYTES + SPILL_BYTES + AllClears(sh, sh.retWords) + HIGH_BYTES + LOW_BYTES + LoadBytes(sh.index, dispatch) + EPILOGUE_BYTES
  {
    hide EncodeAll, Prologue, Clears, Shift, LowBytes;
    PrologueIs();
    ClearsAre(sh, sh.retWords);
    ShiftIs();
    EncodeTwo(MovEax(sh.index), MovAbsR12(dispatch));
    EpilogueIs();
    hide Encode;
    var load, tail := [MovEax(sh.index), MovAbsR12(dispatch)], [CallR12, AddSP(JIT_FRAME_SIZE), Pop(RBP), Ret];
    EncodeAllAppend(Prologue(), Clears(sh, sh.retWords));
    EncodeAllAppend(Prologue() + Clears(sh, sh.retWords), Shift());
    EncodeAllAppend(Prologue() + Clears(sh, sh.retWords) + Shift(), load);
    EncodeAllAppend(Before(sh, dispatch), tail);
  }
}
