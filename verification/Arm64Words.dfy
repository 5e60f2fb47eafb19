/** The arm64 trampoline word for word, written out from the instruction set reference. */
module Arm64Words {
  import opened Bits
  import opened LittleEndian
  import opened Precise
  import opened Arm64Asm
  import opened Arm64Stub

  function WordsOf(prog: seq<Ins>): (ws: seq<nat>)
    ensures |ws| == |prog|
  {
    seq(|prog|, k requires 0 <= k < |prog| => Word(prog[k]))
  }

  /** A word's four bytes, low one first. */
  function Bytes4(w: nat): seq<nat> {
    [w % 0x100, w / 0x100 % 0x100, w / 0x1_0000 % 0x100, w / 0x100_0000 % 0x100]
  }

  /** The code in memory holds the words in order. */
  lemma {:induction false} CodeIsWords(prog: seq<Ins>, k: nat)
    requires k < |prog|
    ensures |EncodeAll(prog)| == 4 * |prog| && EncodeAll(prog)[4 * k..4 * k + 4] == Bytes4(WordsOf(prog)[k])
    decreases |prog|
  {
    hide *;
    var n := |prog| - 1;
    LastWord(prog);
    WordAt(prog, k);
    if n == 0 {
      assert prog[..n] == [];
      NoCode();
      Sliced([], Bytes4(Word(prog[n])));
    } else {
      CodeIsWords(prog[..n], if k < n then k else 0);
      if k < n {
        WordAt(prog[..n], k);
        SlicedBefore(EncodeAll(prog[..n]), Bytes4(Word(prog[n])), 4 * k);
      } else {
        Sliced(EncodeAll(prog[..n]), Bytes4(Word(prog[n])));
      }
    }
  }

  lemma NoCode()
    ensures EncodeAll([]) == []
  {
  }

  lemma WordAt(prog: seq<Ins>, k: nat)
    requires k < |prog|
    ensures WordsOf(prog)[k] == Word(prog[k]) && |Bytes4(Word(prog[k]))| == 4
  {
    hide Word;
  }

  lemma LastWord(prog: seq<Ins>)
    requires prog != []
    ensures var n := |prog| - 1; EncodeAll(prog) == EncodeAll(prog[..n]) + Bytes4(Word(prog[n])) && |Bytes4(Word(prog[n]))| == 4
  {
    hide Word, LowBytes, Bytes4;
    FourBytesOf(Word(prog[|prog| - 1]));
  }

  lemma Sliced(a: seq<nat>, b: seq<nat>)
    requires |b| == 4
    ensures (a + b)[|a|..|a| + 4] == b
  {
  }

  lemma SlicedBefore(a: seq<nat>, b: seq<nat>, i: nat)
    requires i + 4 <= |a|
    ensures (a + b)[i..i + 4] == a[i..i + 4]
  {
  }

  lemma FourBytesOf(w: nat)
    ensures LowBytes(w, 4) == Bytes4(w) && |Bytes4(w)| == 4
  {
    var a, b, c := w / 0x100, w / 0x100 / 0x100, w / 0x100 / 0x100 / 0x100;
    assert LowBytes(w, 4) == [w % 0x100] + LowBytes(a, 3);
    assert LowBytes(a, 3) == [a % 0x100] + LowBytes(b, 2);
    assert LowBytes(b, 2) == [b % 0x100] + LowBytes(c, 1);
    assert LowBytes(c, 1) == [c % 0x100] + LowBytes(c / 0x100, 0);
    assert b == w / 0x1_0000 && c == w / 0x100_0000;
  }

  const OPENING_WORDS: seq<nat> := [
    0xD104_83F4,    // sub x20, sp, #288
    0xA93F_FA9D,    // stp x29, x30, [x20, #-8]
    0x9100_029F     // add sp, x20, #0
  ]

  const SPILL_WORDS: seq<nat> := [
    0xD100_23FD,    // sub x29, sp, #8
    0xF900_07EF,    // str x15, [sp, #8]
    0x9104_A3F0,    // add x16, sp, #296
    0xF900_0BF0     // str x16, [sp, #16]
  ]

  const EPILOGUE_WORDS: seq<nat> := [
    0xD63F_0200,    // blr x16
    0xA97F_FBFD,    // ldp x29, x30, [sp, #-8]
    0x9104_83FF,    // add sp, sp, #288
    0xD65F_03C0     // ret
  ]

  /** str xzr, [x16, #8w] for every result word, of the first `n`, whose bit is set. */
  function ClearWords(sh: StubShape, n: nat): seq<nat> {
    if n == 0 then []
    else ClearWords(sh, n - 1) + if Has(sh.retPtrs, n - 1) then [0xF900_021F + 0x400 * (sh.argWords + n - 1)] else []
  }

  /** mov x15, x14 down to mov x1, x0 */
  function ShiftWords(n: nat): seq<nat>
    requires n <= 15
  {
    seq(n, k requires 0 <= k < n => 0xAA0E_03EF - 0x1_0001 * k)
  }

  /** movz x0, #index; movz x16 and three movk x16 for the pieces of the address */
  function LoadWords(index: nat, dispatch: nat): seq<nat> {
    [0xD280_0000 + 0x20 * index,
     0xD280_0010 + 0x20 * (dispatch % 0x1_0000),
     0xF2A0_0010 + 0x20 * (dispatch / 0x1_0000 % 0x1_0000),
     0xF2C0_0010 + 0x20 * (dispatch / 0x1_0000_0000 % 0x1_0000),
     0xF2E0_0010 + 0x20 * (dispatch / 0x1_0000_0000_0000 % 0x1_0000)]
  }

  lemma Join(a: seq<Ins>, b: seq<Ins>)
    ensures WordsOf(a + b) == WordsOf(a) + WordsOf(b)
  {
    hide Word;
  }

  lemma OpeningIs()
    ensures WordsOf(Opening()) == OPENING_WORDS
  {
    hide Word;
    NoOverlap(SubImm(20, SP, JIT_FRAME_SIZE));
    NoOverlap(Stp(FP, LR, 20, -8));
    NoOverlap(AddImm(SP, 20, 0));
  }

  lemma SpillsAre()
    ensures WordsOf(Spills()) == SPILL_WORDS
  {
    hide Word;
    NoOverlap(SubImm(FP, SP, 8));
    NoOverlap(Str(15, SP, 8));
    NoOverlap(AddImm(16, SP, JIT_FRAME_SIZE + 8));
    NoOverlap(Str(16, SP, 16));
  }

  lemma EpilogueIs()
    ensures WordsOf([Blr(16), Ldp(FP, LR, SP, -8), AddImm(SP, SP, JIT_FRAME_SIZE), Ret]) == EPILOGUE_WORDS
  {
    hide Word;
    NoOverlap(Blr(16));
    NoOverlap(Ldp(FP, LR, SP, -8));
    NoOverlap(AddImm(SP, SP, JIT_FRAME_SIZE));
    NoOverlap(Ret);
  }

  lemma {:induction false} ClearsAre(sh: StubShape, n: nat)
    requires 8 * (sh.argWords + n) <= 0x8000
    ensures WordsOf(Clears(sh, n)) == ClearWords(sh, n)
  {
    hide Word, WordsOf;
    if n == 0 {
      NoWords();
    } else {
      ClearsAre(sh, n - 1);
      if Has(sh.retPtrs, n - 1) {
        var i := Str(ZR, 16, (sh.argWords + n - 1) * 8);
        Join(Clears(sh, n - 1), [i]);
        NoOverlap(i);
        OneWord(i);
      } else {
        assert Clears(sh, n) == Clears(sh, n - 1);
      }
    }
  }

  lemma NoWords()
    ensures WordsOf([]) == []
  {
  }

  lemma OneWord(i: Ins)
    ensures WordsOf([i]) == [Word(i)]
  {
  }

  lemma {:induction false} ShiftIs(n: nat)
    requires n <= 15
    ensures WordsOf(Shift(n)) == ShiftWords(n)
  {
    hide Word, WordsOf;
    if n == 0 {
      NoWords();
    } else {
      var i := MovReg(16 - n, 15 - n);
      ShiftIs(n - 1);
      Join(Shift(n - 1), [i]);
      NoOverlap(i);
      OneWord(i);
    }
  }

  lemma WideMoves(rd: Reg, imm: nat)
    requires imm < 0x1_0000
    ensures Word(Movz(rd, imm)) == 0xD280_0000 + 0x20 * imm + rd
    ensures Word(Movk(rd, imm, 16)) == 0xF2A0_0000 + 0x20 * imm + rd
    ensures Word(Movk(rd, imm, 32)) == 0xF2C0_0000 + 0x20 * imm + rd
    ensures Word(Movk(rd, imm, 48)) == 0xF2E0_0000 + 0x20 * imm + rd
  {
    hide Word;
    NoOverlap(Movz(rd, imm));
    NoOverlap(Movk(rd, imm, 16));
    NoOverlap(Movk(rd, imm, 32));
    NoOverlap(Movk(rd, imm, 48));
  }

  lemma PiecesAre(x: nat)
    ensures Piece(x, 0) == x % 0x1_0000 && Piece(x, 1) == x / 0x1_0000 % 0x1_0000
    ensures Piece(x, 2) == x / 0x1_0000_0000 % 0x1_0000 && Piece(x, 3) == x / 0x1_0000_0000_0000 % 0x1_0000
  {
  }

  lemma LoadIs(index: nat, dispatch: nat)
    requires index < 0x1_0000 && dispatch < W64
    ensures WordsOf([Movz(0, index)] + LoadAddress(dispatch)) == LoadWords(index, dispatch)
  {
    hide Word, Piece;
    PiecesAre(dispatch);
    WideMoves(0, index);
    WideMoves(16, Piece(dispatch, 0));
    WideMoves(16, Piece(dispatch, 1));
    WideMoves(16, Piece(dispatch, 2));
    WideMoves(16, Piece(dispatch, 3));
  }

  /** The whole trampoline, for every shape and dispatch address. */
  lemma StubWords(sh: StubShape, dispatch: nat)
    requires StubOk(sh, dispatch)
    ensures WordsOf(Stub(sh, dispatch)) ==
            OPENING_WORDS + SPILL_WORDS + ClearWords(sh, sh.retWords) + ShiftWords(15) + LoadWords(sh.index, dispatch) + EPILOGUE_WORDS
  {
    OpeningIs();
    SpillsAre();
    ClearsAre(sh, sh.retWords);
    ShiftIs(15);
    LoadIs(sh.index, dispatch);
    EpilogueIs();
    hide Opening, Spills, Clears, Shift, LoadAddress, WordsOf, Word, ShiftWords, ClearWords, LoadWords;
    var a, b := Opening() + Spills(), Opening() + Spills() + Clears(sh, sh.retWords);
    var load := [Movz(0, sh.index)] + LoadAddress(dispatch);
    assert Before(sh, dispatch) == b + Shift(15) + load;
    Join(Opening(), Spills());
    Join(a, Clears(sh, sh.retWords));
    Join(b, Shift(15));
    Join(b + Shift(15), load);
    Join(Before(sh, dispatch), [Blr(16), Ldp(FP, LR, SP, -8), AddImm(SP, SP, JIT_FRAME_SIZE), Ret]);
  }
}
