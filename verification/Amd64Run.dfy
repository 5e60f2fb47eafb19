/** Running the amd64 trampoline: the state dispatch is called in, the state the
    caller gets back, and the unwind table in between. */
module Amd64Run {
  import opened Wrappers
  import opened Bits
  import opened LittleEndian
  import opened PcTable
  import opened Precise
  import opened StackArea
  import opened Amd64Asm
  import opened Amd64Cpu
  import opened Amd64Stub

  // ----- what a caller provides -----

  /** Register contents are 64-bit words, the words of memory do not overlap, and the
      frame, the return address and the stack area of the shape are mapped and inside
      the address space. */
  ghost predicate CallerOk(sh: StubShape, m: Machine) {
    && MachineOk(m)
    && (forall r :: 0 <= r < 13 ==> 0 <= m.regs[r] < W64)
    && var sp := m.regs[RSP];
       && (forall a :: a in m.mem ==> (a - sp) % 8 == 0)
       && JIT_SP_DELTA + 8 <= sp && sp + 8 + 8 * (sh.argWords + sh.retWords) < W64
       && forall k :: -28 <= k <= sh.argWords + sh.retWords ==> WordAddr(sp, k) in m.mem
  }

  /** The state in which control reaches the CALL, from the entry state `m`. */
  ghost predicate AtCall(sh: StubShape, dispatch: nat, m: Machine, c: Machine)
    requires MachineOk(m)
  {
    && MachineOk(c)
    && var sp := m.regs[RSP];
       && c.regs[RSP] == sp - JIT_SP_DELTA && c.regs[RBP] == sp - 8 && c.regs[R12] == dispatch
       && c.regs[RAX] == sh.index
       && c.regs[RBX] == m.regs[RAX] && c.regs[RCX] == m.regs[RBX] && c.regs[RDI] == m.regs[RCX]
       && c.regs[RSI] == m.regs[RDI] && c.regs[R8] == m.regs[RSI] && c.regs[R9] == m.regs[R8]
       && c.regs[R10] == m.regs[R9] && c.regs[R11] == m.regs[R10]
       && c.mem.Keys == m.mem.Keys
       && forall a :: a in m.mem ==>
            c.mem[a] == if a == sp - 8 then m.regs[RBP]                       // saved RBP
                        else if a == sp - JIT_SP_DELTA then m.regs[R11]       // outgoing slot 0: a8
                        else if a == sp - JIT_SP_DELTA + 8 then sp + 8        // outgoing slot 1: &s0
                        else if Cleared(sh, sp + 8, sh.retWords, a) then 0
                        else m.mem[a]
  }

  // ----- every instruction is one the assembler handles -----

  lemma {:induction false} ClearsOk(sh: StubShape, n: nat)
    requires n <= sh.retWords <= STUB_MAX_WORDS && sh.argWords <= STUB_MAX_WORDS
    ensures forall k :: 0 <= k < |Clears(sh, n)| ==>
              Encodable(Clears(sh, n)[k]) && IsStraight(Clears(sh, n)[k]) && KeepsSP(Clears(sh, n)[k])
  {
    if n != 0 { ClearsOk(sh, n - 1); }
  }

  lemma StubOkAll(sh: StubShape, dispatch: nat)
    requires StubOk(sh, dispatch)
    ensures forall k :: 0 <= k < |Before(sh, dispatch)| ==> IsStraight(Before(sh, dispatch)[k])
    ensures forall k :: 0 <= k < |Stub(sh, dispatch)| ==> Encodable(Stub(sh, dispatch)[k])
    ensures forall k :: 3 <= k < |Before(sh, dispatch)| ==> KeepsSP(Before(sh, dispatch)[k])
    ensures |Before(sh, dispatch)| >= 16
  {
    ClearsOk(sh, sh.retWords);
    hide Clears;
    var a, b := Prologue(), Clears(sh, sh.retWords);
    var c, d := Shift(), [MovEax(sh.index), MovAbsR12(dispatch)];
    assert forall k :: 0 <= k < |c| ==> Encodable(c[k]) && IsStraight(c[k]) && KeepsSP(c[k]);
    assert forall k :: 0 <= k < |d| ==> Encodable(d[k]) && IsStraight(d[k]) && KeepsSP(d[k]);
    hide Encodable, KeepsSP;
  }

  /** Leaves the stack pointer alone. */
  predicate KeepsSP(i: Ins) {
    match i
    case MovReg(d, _) => d != RSP
    case Lea(d, _, _) => d != RSP
    case MovMemReg(_, _, _) | MovMemImm(_, _, _) | MovEax(_) | MovAbsR12(_) => true
    case _ => false
  }

  // ----- the three stages -----

  lemma EffectsStep(prog: seq<Ins>, k: nat, m: Machine)
    requires MachineOk(m) && k < |prog| && forall j :: 0 <= j < |prog| ==> IsStraight(prog[j])
    ensures Effects(prog[k..], m) ==
            match Effect(prog[k], m) case None => None case Some(m') => Effects(prog[k + 1..], m')
  {
    hide Effect;
    assert prog[k..][1..] == prog[k + 1..];
  }

  /** After the prologue: frame open, ninth argument and &s0 in the outgoing slots. */
  ghost predicate Opened(m: Machine, c: Machine)
    requires MachineOk(m)
  {
    var sp := m.regs[RSP];
    && c.regs == m.regs[RSP := sp - JIT_SP_DELTA][RBP := sp - 8][RDX := sp + 8]
    && c.mem == m.mem[sp - 8 := m.regs[RBP]][sp - JIT_SP_DELTA := m.regs[R11]][sp - JIT_SP_DELTA + 8 := sp + 8]
  }

  lemma RunPrologue(sh: StubShape, m: Machine)
    requires CallerOk(sh, m)
    ensures Effects(Prologue(), m).Some? && Opened(m, Effects(Prologue(), m).value)
  {
    hide Effects, Prologue;
    var sp := m.regs[RSP];
    var m1 := Machine(m.regs[RSP := sp - 8], m.mem[sp - 8 := m.regs[RBP]]);
    var m2 := m1.(regs := m1.regs[RBP := sp - 8]);
    var m3 := m2.(regs := m2.regs[RSP := sp - JIT_SP_DELTA]);
    var m4 := m3.(mem := m3.mem[sp - JIT_SP_DELTA := m.regs[R11]]);
    var m5 := m4.(regs := m4.regs[RDX := sp + 8]);
    var m6 := m5.(mem := m5.mem[sp - JIT_SP_DELTA + 8 := sp + 8]);
    assert WordAddr(sp, -1) in m.mem && WordAddr(sp, -27) in m.mem && WordAddr(sp, -26) in m.mem;
    assert MachineOk(m) && JIT_SP_DELTA + 8 <= sp < W64 - 8;
    hide CallerOk;
    assert Effect(Push(RBP), m) == Some(m1);
    assert Effect(MovReg(RBP, RSP), m1) == Some(m2);
    assert Effect(SubSP(JIT_FRAME_SIZE), m2) == Some(m3);
    assert Effect(MovMemReg(RSP, 0, R11), m3) == Some(m4);
    assert Effect(Lea(RDX, RSP, JIT_FRAME_SIZE + 16), m4) == Some(m5);
    assert Effect(MovMemReg(RSP, 8, RDX), m5) == Some(m6);
    SixSteps(m, m1, m2, m3, m4, m5, m6);
    assert m6.regs == m.regs[RSP := sp - JIT_SP_DELTA][RBP := sp - 8][RDX := sp + 8];
  }

  lemma SixSteps(m: Machine, m1: Machine, m2: Machine, m3: Machine, m4: Machine, m5: Machine, m6: Machine)
    requires MachineOk(m) && MachineOk(m1) && MachineOk(m2) && MachineOk(m3) && MachineOk(m4) && MachineOk(m5) && MachineOk(m6)
    requires Effect(Push(RBP), m) == Some(m1) && Effect(MovReg(RBP, RSP), m1) == Some(m2)
    requires Effect(SubSP(JIT_FRAME_SIZE), m2) == Some(m3) && Effect(MovMemReg(RSP, 0, R11), m3) == Some(m4)
    requires Effect(Lea(RDX, RSP, JIT_FRAME_SIZE + 16), m4) == Some(m5) && Effect(MovMemReg(RSP, 8, RDX), m5) == Some(m6)
    ensures Effects(Prologue(), m) == Some(m6)
  {
    hide Effect, Effects;
    var p := Prologue();
    EffectsStep(p, 0, m); EffectsStep(p, 1, m1); EffectsStep(p, 2, m2);
    EffectsStep(p, 3, m3); EffectsStep(p, 4, m4); EffectsStep(p, 5, m5);
    assert p[0..] == p && p[6..] == [];
    NoEffects(m6);
  }

  lemma NoEffects(m: Machine)
    requires MachineOk(m)
    ensures Effects([], m) == Some(m)
  {
  }

  lemma ClearOne(c: Machine, disp: nat)
    requires MachineOk(c) && 0 <= c.regs[RDX] && c.regs[RDX] + disp < W64 && c.regs[RDX] + disp in c.mem
    ensures Effect(MovMemImm(RDX, disp, 0), c) == Some(c.(mem := c.mem[c.regs[RDX] + disp := 0]))
  {
  }

  /** The words of the stack area are mapped, inside the address space. */
  ghost predicate AreaMapped(sh: StubShape, m: Machine) {
    && MachineOk(m) && 0 <= m.regs[RDX] && m.regs[RDX] + 8 * (sh.argWords + sh.retWords) <= W64
    && forall i: nat :: i < sh.argWords + sh.retWords ==> WordAddr(m.regs[RDX], i) in m.mem
  }

  /** One more clear, or none if the word is no pointer. */
  lemma ClearStep(sh: StubShape, n: nat, m: Machine, c: Machine)
    requires n < sh.retWords && AreaMapped(sh, m) && MachineOk(c)
    requires c.regs == m.regs && ClearedMem(sh, m.regs[RDX], n, m.mem, c.mem)
    requires Has(sh.retPtrs, n)
    ensures var r := Effect(MovMemImm(RDX, (sh.argWords + n) * 8, 0), c);
            r.Some? && r.value.regs == m.regs && ClearedMem(sh, m.regs[RDX], n + 1, m.mem, r.value.mem)
  {
    assert WordAddr(m.regs[RDX], sh.argWords + n) in m.mem;
    ClearedNext(sh, m.regs[RDX], n, m.mem, c.mem);
    ClearOne(c, (sh.argWords + n) * 8);
    hide Effect, Has, Cleared;
  }

  lemma {:induction false} RunClears(sh: StubShape, n: nat, m: Machine)
    requires n <= sh.retWords <= STUB_MAX_WORDS && sh.argWords <= STUB_MAX_WORDS
    requires MachineOk(m) && AreaMapped(sh, m)
    ensures forall k :: 0 <= k < |Clears(sh, n)| ==> IsStraight(Clears(sh, n)[k])
    ensures var r := Effects(Clears(sh, n), m);
            r.Some? && r.value.regs == m.regs && ClearedMem(sh, m.regs[RDX], n, m.mem, r.value.mem)
  {
    ClearsOk(sh, n);
    hide ClearedMem, Effect, Effects, AreaMapped, IsStraight, Encodable, KeepsSP;
    if n == 0 {
      NoEffects(m);
      NoneCleared(sh, m);
    } else {
      RunClears(sh, n - 1, m);
      var c := Effects(Clears(sh, n - 1), m).value;
      if Has(sh.retPtrs, n - 1) {
        ClearStep(sh, n - 1, m, c);
        var i := MovMemImm(RDX, (sh.argWords + n - 1) * 8, 0);
        assert [i][0] == Clears(sh, n)[|Clears(sh, n - 1)|];
        EffectsAppend(Clears(sh, n - 1), [i], m);
        OneEffect(i, c);
      } else {
        KeptWord(sh, n - 1, m, c);
        assert Clears(sh, n) == Clears(sh, n - 1);
      }
    }
  }

  lemma NoneCleared(sh: StubShape, m: Machine)
    requires AreaMapped(sh, m)
    ensures ClearedMem(sh, m.regs[RDX], 0, m.mem, m.mem)
  {
  }

  lemma KeptWord(sh: StubShape, n: nat, m: Machine, c: Machine)
    requires n < sh.retWords && AreaMapped(sh, m) && MachineOk(c) && !Has(sh.retPtrs, n)
    requires ClearedMem(sh, m.regs[RDX], n, m.mem, c.mem)
    ensures ClearedMem(sh, m.regs[RDX], n + 1, m.mem, c.mem)
  {
    assert WordAddr(m.regs[RDX], sh.argWords + n) in m.mem;
    ClearedNext(sh, m.regs[RDX], n, m.mem, c.mem);
  }

  lemma OneEffect(i: Ins, m: Machine)
    requires MachineOk(m) && IsStraight(i)
    ensures Effects([i], m) == Effect(i, m)
  {
    hide Effect;
    EffectsStep([i], 0, m);
    assert [i][0..] == [i] && [i][1..] == [];
    if Effect(i, m).Some? { NoEffects(Effect(i, m).value); }
  }

  /** Each argument register has moved to the next, leaving RAX for the index. */
  ghost predicate Shifted(sh: StubShape, dispatch: nat, m: Machine, c: Machine)
    requires MachineOk(m)
  {
    && MachineOk(c) && c.mem == m.mem
    && c.regs[R11] == m.regs[R10] && c.regs[R10] == m.regs[R9] && c.regs[R9] == m.regs[R8]
    && c.regs[R8] == m.regs[RSI] && c.regs[RSI] == m.regs[RDI] && c.regs[RDI] == m.regs[RCX]
    && c.regs[RCX] == m.regs[RBX] && c.regs[RBX] == m.regs[RAX]
    && c.regs[RAX] == sh.index && c.regs[R12] == dispatch
    && c.regs[RSP] == m.regs[RSP] && c.regs[RBP] == m.regs[RBP] && c.regs[RDX] == m.regs[RDX]
  }

  function Mov(m: Machine, d: Reg, s: Reg): (r: Machine)
    requires MachineOk(m)
    ensures MachineOk(r)
  {
    SetReg(m, d, m.regs[s])
  }

  lemma MovStep(prog: seq<Ins>, k: nat, m: Machine, d: Reg, s: Reg)
    requires MachineOk(m) && k < |prog| && forall j :: 0 <= j < |prog| ==> IsStraight(prog[j])
    requires prog[k] == MovReg(d, s)
    ensures Effects(prog[k..], m) == Effects(prog[k + 1..], Mov(m, d, s))
  {
    hide Effects;
    EffectsStep(prog, k, m);
  }

  /** The machine after the eight moves. */
  function Moved(m: Machine): (r: Machine)
    requires MachineOk(m)
    ensures MachineOk(r)
  {
    Mov(Mov(Mov(Mov(Mov(Mov(Mov(Mov(m, R11, R10), R10, R9), R9, R8), R8, RSI), RSI, RDI), RDI, RCX), RCX, RBX), RBX, RAX)
  }

  lemma FourMoves(m: Machine, p: seq<Ins>)
    requires MachineOk(m) && |p| == 4 && forall k :: 0 <= k < 4 ==> p[k].MovReg?
    ensures Effects(p, m) ==
            Some(Mov(Mov(Mov(Mov(m, p[0].dst, p[0].src), p[1].dst, p[1].src), p[2].dst, p[2].src), p[3].dst, p[3].src))
  {
    hide Effects, Mov;
    var m1 := Mov(m, p[0].dst, p[0].src);
    var m2 := Mov(m1, p[1].dst, p[1].src);
    var m3 := Mov(m2, p[2].dst, p[2].src);
    var m4 := Mov(m3, p[3].dst, p[3].src);
    MovStep(p, 0, m, p[0].dst, p[0].src); MovStep(p, 1, m1, p[1].dst, p[1].src);
    MovStep(p, 2, m2, p[2].dst, p[2].src); MovStep(p, 3, m3, p[3].dst, p[3].src);
    assert p[0..] == p && p[4..] == [];
    NoEffects(m4);
  }

  lemma RunMoves(m: Machine)
    requires MachineOk(m)
    ensures Effects(Shift(), m) == Some(Moved(m))
  {
    hide Effects, Effect, Mov;
    var m4 := Mov(Mov(Mov(Mov(m, R11, R10), R10, R9), R9, R8), R8, RSI);
    FourMoves(m, ShiftHigh());
    FourMoves(m4, ShiftLow());
    EffectsAppend(ShiftHigh(), ShiftLow(), m);
    MovedIs(m, m4);
    hide Moved;
  }

  lemma MovedIs(m: Machine, m4: Machine)
    requires MachineOk(m) && m4 == Mov(Mov(Mov(Mov(m, R11, R10), R10, R9), R9, R8), R8, RSI)
    ensures Moved(m) == Mov(Mov(Mov(Mov(m4, RSI, RDI), RDI, RCX), RCX, RBX), RBX, RAX)
  {
    hide Mov;
  }

  lemma MovedRegs(m: Machine)
    requires MachineOk(m)
    ensures var r := Moved(m).regs;
            && r[R11] == m.regs[R10] && r[R10] == m.regs[R9] && r[R9] == m.regs[R8] && r[R8] == m.regs[RSI]
            && r[RSI] == m.regs[RDI] && r[RDI] == m.regs[RCX] && r[RCX] == m.regs[RBX] && r[RBX] == m.regs[RAX]
            && r[RSP] == m.regs[RSP] && r[RBP] == m.regs[RBP] && r[RDX] == m.regs[RDX]
    ensures Moved(m).mem == m.mem
  {
  }

  lemma RunShift(sh: StubShape, dispatch: nat, m: Machine)
    requires MachineOk(m) && StubOk(sh, dispatch)
    ensures var p := Shift() + [MovEax(sh.index), MovAbsR12(dispatch)];
            (forall k :: 0 <= k < |p| ==> IsStraight(p[k]))
            && Effects(p, m).Some? && Shifted(sh, dispatch, m, Effects(p, m).value)
  {
    hide *;
    RunMoves(m);
    var i, j := MovEax(sh.index), MovAbsR12(dispatch);
    LastTwo(sh, dispatch, m);
    ShiftIsStraight(i, j, sh, dispatch);
    var m9 := SetReg(Moved(m), RAX, sh.index);
    TwoEffects(i, j, Moved(m), m9, SetReg(m9, R12, dispatch));
    EffectsAppend(Shift(), [i, j], m);
  }

  lemma ShiftIsStraight(i: Ins, j: Ins, sh: StubShape, dispatch: nat)
    requires i == MovEax(sh.index) && j == MovAbsR12(dispatch)
    ensures forall k :: 0 <= k < |Shift()| ==> IsStraight(Shift()[k])
    ensures IsStraight(i) && IsStraight(j)
  {
  }

  lemma LastTwo(sh: StubShape, dispatch: nat, m: Machine)
    requires MachineOk(m) && StubOk(sh, dispatch)
    ensures MachineOk(SetReg(Moved(m), RAX, sh.index))
    ensures MachineOk(SetReg(SetReg(Moved(m), RAX, sh.index), R12, dispatch))
    ensures var m9 := SetReg(Moved(m), RAX, sh.index); var m10 := SetReg(m9, R12, dispatch);
            && Effect(MovEax(sh.index), Moved(m)) == Some(m9) && Effect(MovAbsR12(dispatch), m9) == Some(m10)
            && Shifted(sh, dispatch, m, m10)
  {
    MovedRegs(m);
    hide Moved;
  }

  lemma TwoEffects(i: Ins, j: Ins, m: Machine, m1: Machine, m2: Machine)
    requires MachineOk(m) && MachineOk(m1) && MachineOk(m2) && IsStraight(i) && IsStraight(j)
    requires Effect(i, m) == Some(m1) && Effect(j, m1) == Some(m2)
    ensures Effects([i, j], m) == Some(m2)
  {
    hide Effect, Effects;
    EffectsStep([i, j], 0, m);
    EffectsStep([i, j], 1, m1);
    assert [i, j][0..] == [i, j] && [i, j][2..] == [];
    NoEffects(m2);
  }

  /** All of the code before the CALL. */
  lemma RunBefore(sh: StubShape, dispatch: nat, m: Machine)
    requires StubOk(sh, dispatch) && CallerOk(sh, m)
    ensures forall k :: 0 <= k < |Before(sh, dispatch)| ==> IsStraight(Before(sh, dispatch)[k])
    ensures var r := Effects(Before(sh, dispatch), m); r.Some? && AtCall(sh, dispatch, m, r.value)
  {
    StubOkAll(sh, dispatch);
    ClearsOk(sh, sh.retWords);
    RunPrologue(sh, m);
    var a := Effects(Prologue(), m).value;
    var sp := m.regs[RSP];
    forall i: nat | i < sh.argWords + sh.retWords ensures WordAddr(a.regs[RDX], i) in a.mem {
      assert WordAddr(sp + 8, i) == WordAddr(sp, i + 1);
    }
    RunClears(sh, sh.retWords, a);
    var b := Effects(Clears(sh, sh.retWords), a).value;
    RunShift(sh, dispatch, b);
    var tail := Shift() + [MovEax(sh.index), MovAbsR12(dispatch)];
    var c := Effects(tail, b).value;
    hide Effects, Effect, Clears, IsStraight, Shift;
    EffectsAppend(Prologue(), Clears(sh, sh.retWords), m);
    EffectsAppend(Prologue() + Clears(sh, sh.retWords), tail, m);
    assert Before(sh, dispatch) == Prologue() + Clears(sh, sh.retWords) + tail;
    Composed(sh, dispatch, m, a, b, c);
  }

  lemma Composed(sh: StubShape, dispatch: nat, m: Machine, a: Machine, b: Machine, c: Machine)
    requires CallerOk(sh, m) && Opened(m, a) && MachineOk(a) && MachineOk(b) && MachineOk(c)
    requires b.regs == a.regs && ClearedMem(sh, a.regs[RDX], sh.retWords, a.mem, b.mem)
    requires Shifted(sh, dispatch, b, c)
    ensures AtCall(sh, dispatch, m, c)
  {
    var sp := m.regs[RSP];
    ClearedAbove(sh, sp + 8, sh.retWords);
    hide Cleared;
    assert WordAddr(sp, -1) in m.mem && WordAddr(sp, -27) in m.mem && WordAddr(sp, -26) in m.mem;
  }

  // ----- the bytes -----

  /** What dispatch finds: the arguments one register on, the ninth and &s0 as its
      stack parameters above the return address, the marked result words zero and
      the rest of the caller's memory as it was. */
  ghost predicate InDispatch(sh: StubShape, m: Machine, d: Machine, ret: int)
    requires MachineOk(m)
  {
    && MachineOk(d)
    && var sp := m.regs[RSP]; var top := d.regs[RSP];
       && top == sp - JIT_SP_DELTA - 8 && d.regs[RBP] == sp - 8
       && d.regs[RAX] == sh.index
       && d.regs[RBX] == m.regs[RAX] && d.regs[RCX] == m.regs[RBX] && d.regs[RDI] == m.regs[RCX]
       && d.regs[RSI] == m.regs[RDI] && d.regs[R8] == m.regs[RSI] && d.regs[R9] == m.regs[R8]
       && d.regs[R10] == m.regs[R9] && d.regs[R11] == m.regs[R10]
       && d.mem.Keys == m.mem.Keys && top in d.mem && top + 8 in d.mem && top + 16 in d.mem && sp - 8 in d.mem
       && d.mem[top] == ret && d.mem[top + 8] == m.regs[R11] && d.mem[top + 16] == sp + 8
       && d.mem[sp - 8] == m.regs[RBP]
       && forall a :: a in m.mem && a !in {top, top + 8, top + 16, sp - 8} ==>
            d.mem[a] == if Cleared(sh, sp + 8, sh.retWords, a) then 0 else m.mem[a]
  }

  /** The number of instructions before the CALL. */
  function CallAt(sh: StubShape, dispatch: nat): nat {
    |Before(sh, dispatch)|
  }

  /** The bytes from entry up to instruction `k`, `k` at most the CALL. */
  lemma RunTo(sh: StubShape, dispatch: nat, text: int, m: Machine, k: nat)
    requires StubOk(sh, dispatch) && CallerOk(sh, m) && k <= CallAt(sh, dispatch)
    ensures forall j :: 0 <= j < k ==> IsStraight(Before(sh, dispatch)[j])
    ensures var r := Effects(Before(sh, dispatch)[..k], m);
            && r.Some?
            && Run(EncodeAll(Stub(sh, dispatch)), text, Cpu(m, text), k)
               == Some(Cpu(r.value, text + Offset(Stub(sh, dispatch), k)))
  {
    hide *;
    CallerIsOk(sh, m);
    StubOkAll(sh, dispatch);
    RunBefore(sh, dispatch, m);
    StubIs(sh, dispatch);
    var before, prog := Before(sh, dispatch), Stub(sh, dispatch);
    assert prog[0..k] == before[..k];
    assert before == before[..k] + before[k..];
    EffectsAppend(before[..k], before[k..], m);
    FirstOffset(prog);
    RunStraight(prog, text, 0, k, m);
  }

  lemma StubIs(sh: StubShape, dispatch: nat)
    ensures CallAt(sh, dispatch) == |Before(sh, dispatch)|
    ensures Stub(sh, dispatch) == Before(sh, dispatch) + [CallR12, AddSP(JIT_FRAME_SIZE), Pop(RBP), Ret]
  {
  }

  lemma CallerIsOk(sh: StubShape, m: Machine)
    requires CallerOk(sh, m)
    ensures MachineOk(m) && |m.regs| == 13 && JIT_SP_DELTA + 8 <= m.regs[RSP] < W64 - 8
  {
  }

  lemma FirstOffset(prog: seq<Ins>)
    ensures Offset(prog, 0) == 0
  {
  }

  /** From entry the code reaches dispatch, with its return address the byte after
      the CALL. */
  lemma ReachesDispatch(sh: StubShape, dispatch: nat, text: int, m: Machine)
    requires StubOk(sh, dispatch) && CallerOk(sh, m)
    ensures var n := CallAt(sh, dispatch);
            var r := Run(EncodeAll(Stub(sh, dispatch)), text, Cpu(m, text), n + 1);
            && r.Some? && r.value.ip == dispatch
            && InDispatch(sh, m, r.value.m, text + Offset(Stub(sh, dispatch), n + 1))
  {
    hide *;
    CallerIsOk(sh, m);
    StubIs(sh, dispatch);
    StubOkAll(sh, dispatch);
    var n, prog := CallAt(sh, dispatch), Stub(sh, dispatch);
    RunTo(sh, dispatch, text, m, n);
    assert Before(sh, dispatch)[..n] == Before(sh, dispatch);
    RunBefore(sh, dispatch, m);
    var c := Effects(Before(sh, dispatch), m).value;
    RunSplit(EncodeAll(prog), text, Cpu(m, text), n, 1);
    CallStep(sh, dispatch, m, c, text + Offset(prog, n + 1));
    ProgStep(prog, text, n, c);
    RunOne(EncodeAll(prog), text, Cpu(c, text + Offset(prog, n)));
  }

  lemma RunOne(code: seq<Byte>, text: int, c: Cpu)
    requires MachineOk(c.m)
    ensures Run(code, text, c, 1) == Step(code, text, c)
  {
    hide Step;
    if Step(code, text, c).Some? { assert Run(code, text, Step(code, text, c).value, 0) == Step(code, text, c); }
  }

  lemma CallStep(sh: StubShape, dispatch: nat, m: Machine, c: Machine, next: int)
    requires CallerOk(sh, m) && AtCall(sh, dispatch, m, c)
    ensures var r := Exec(CallR12, c, next);
            r.Some? && r.value.ip == dispatch && InDispatch(sh, m, r.value.m, next)
  {
    var sp := m.regs[RSP];
    assert WordAddr(sp, -28) in m.mem && WordAddr(sp, -27) in m.mem && WordAddr(sp, -26) in m.mem && WordAddr(sp, -1) in m.mem;
    ClearedAbove(sh, sp + 8, sh.retWords);
    hide Cleared;
  }

  /** The machine after ADD, after POP and after RET, from `e` at the return: in the
      end RSP is past the return address, RBP as at entry, the rest as in `e`. */
  function Popped1(m: Machine, e: Machine): (r: Machine)
    requires MachineOk(m) && MachineOk(e)
    ensures MachineOk(r)
  {
    SetReg(e, RSP, m.regs[RSP] - 8)
  }

  function Popped2(m: Machine, e: Machine): (r: Machine)
    requires MachineOk(m) && MachineOk(e)
    ensures MachineOk(r)
  {
    SetReg(SetReg(Popped1(m, e), RSP, m.regs[RSP]), RBP, m.regs[RBP])
  }

  function Popped3(m: Machine, e: Machine): (r: Machine)
    requires MachineOk(m) && MachineOk(e)
    ensures MachineOk(r)
  {
    SetReg(SetReg(e, RSP, m.regs[RSP] + 8), RBP, m.regs[RBP])
  }

  /** What dispatch leaves to the trampoline: its stack pointer, the saved RBP and
      the caller's return address. */
  ghost predicate CalleeReturned(m: Machine, e: Machine)
    requires MachineOk(m) && MachineOk(e)
  {
    var sp := m.regs[RSP];
    && e.regs[RSP] == sp - JIT_SP_DELTA
    && sp - 8 in e.mem && e.mem[sp - 8] == m.regs[RBP]
    && sp in e.mem && sp in m.mem && e.mem[sp] == m.mem[sp]
  }

  /** A callee that keeps the stack pointer, the saved RBP and the caller's return
      address: the caller gets its RSP and RBP back, every other register and all
      memory as the callee left them, and control. */
  lemma ReturnsToCaller(sh: StubShape, dispatch: nat, text: int, m: Machine, e: Machine)
    requires StubOk(sh, dispatch) && CallerOk(sh, m) && MachineOk(e)
    requires CalleeReturned(m, e)
    ensures m.regs[RSP] in m.mem
    ensures Run(EncodeAll(Stub(sh, dispatch)), text,
                Cpu(e, text + Offset(Stub(sh, dispatch), CallAt(sh, dispatch) + 1)), 3)
            == Some(Cpu(Popped3(m, e), m.mem[m.regs[RSP]]))
  {
    hide *;
    CallerIsOk(sh, m);
    StubIs(sh, dispatch);
    StubOkAll(sh, dispatch);
    Epilogue(m, e);
    ReturnAddress(m, e);
    var n, prog := CallAt(sh, dispatch), Stub(sh, dispatch);
    ProgStep(prog, text, n + 1, e);
    ProgStep(prog, text, n + 2, Popped1(m, e));
    ProgStep(prog, text, n + 3, Popped2(m, e));
    ThreeSteps(EncodeAll(prog), text, Cpu(e, text + Offset(prog, n + 1)),
               Cpu(Popped1(m, e), text + Offset(prog, n + 2)), Cpu(Popped2(m, e), text + Offset(prog, n + 3)),
               Cpu(Popped3(m, e), m.mem[m.regs[RSP]]));
  }

  lemma ReturnAddress(m: Machine, e: Machine)
    requires MachineOk(m) && MachineOk(e) && CalleeReturned(m, e)
    ensures m.regs[RSP] in m.mem
  {
  }

  /** ADD, POP and RET one by one. */
  lemma Epilogue(m: Machine, e: Machine)
    requires MachineOk(m) && MachineOk(e) && JIT_SP_DELTA + 8 <= m.regs[RSP] < W64 - 8
    requires CalleeReturned(m, e)
    ensures Effect(AddSP(JIT_FRAME_SIZE), e) == Some(Popped1(m, e))
    ensures Effect(Pop(RBP), Popped1(m, e)) == Some(Popped2(m, e))
    ensures forall next :: Exec(AddSP(JIT_FRAME_SIZE), e, next) == Some(Cpu(Popped1(m, e), next))
    ensures forall next :: Exec(Pop(RBP), Popped1(m, e), next) == Some(Cpu(Popped2(m, e), next))
    ensures m.regs[RSP] in m.mem
    ensures forall next :: Exec(Ret, Popped2(m, e), next) == Some(Cpu(Popped3(m, e), m.mem[m.regs[RSP]]))
  {
    assert SetReg(Popped2(m, e), RSP, m.regs[RSP] + 8).regs == Popped3(m, e).regs;
  }

  /** One byte-level step at the start of instruction `k` is that instruction. */
  lemma ProgStep(prog: seq<Ins>, text: int, k: nat, m: Machine)
    requires MachineOk(m) && k < |prog| && forall j :: 0 <= j < |prog| ==> Encodable(prog[j])
    ensures Step(EncodeAll(prog), text, Cpu(m, text + Offset(prog, k)))
         == Exec(prog[k], m, text + Offset(prog, k + 1))
  {
    hide EncodeAll, Offset, Exec, Decode, Encode, Encodable;
    DecodeAt(prog, k);
  }

  lemma ThreeSteps(code: seq<Byte>, text: int, a: Cpu, b: Cpu, c: Cpu, d: Cpu)
    requires MachineOk(a.m) && MachineOk(b.m) && MachineOk(c.m) && MachineOk(d.m)
    requires Step(code, text, a) == Some(b) && Step(code, text, b) == Some(c) && Step(code, text, c) == Some(d)
    ensures Run(code, text, a, 3) == Some(d)
  {
    hide Step;
    assert Run(code, text, d, 0) == Some(d);
    assert Run(code, text, c, 1) == Some(d);
    assert Run(code, text, b, 2) == Some(d);
  }

  // ----- the unwind table -----

  /** How far the stack pointer is below its value at entry when instruction `k`
      of a stub of `n` instructions before its CALL begins. */
  function SpDelta(k: nat, n: nat): nat {
    if k == 0 then 0 else if k < 3 then 8
    else if k <= n + 1 then JIT_SP_DELTA
    else if k == n + 2 then 8 else 0
  }

  lemma OffsetGrows(prog: seq<Ins>, j: nat, k: nat)
    requires j <= k <= |prog|
    ensures Offset(prog, j) <= Offset(prog, k) <= |EncodeAll(prog)|
  {
    hide EncodeAll;
    EncodeAllAppend(prog[..j], prog[j..k]);
    EncodeAllAppend(prog[..k], prog[k..]);
    assert prog[..k] == prog[..j] + prog[j..k];
    assert prog == prog[..k] + prog[k..];
  }

  /** The instruction boundaries where the stack pointer moves. */
  lemma Boundaries(sh: StubShape, dispatch: nat)
    requires StubOk(sh, dispatch)
    ensures var p := Stub(sh, dispatch); var n := CallAt(sh, dispatch); var len := |EncodeAll(p)|;
            && |p| == n + 4 && n >= 16
            && Offset(p, 0) == 0 && Offset(p, 1) == 1 && Offset(p, 3) == 11
            && Offset(p, n + 1) == len - 9 && Offset(p, n + 2) == len - 2
            && Offset(p, n + 3) == len - 1 && Offset(p, n + 4) == len
  {
    hide Before, StubOk, EncodeAll, Encodable, IsStraight, KeepsSP;
    StubOkAll(sh, dispatch);
    FirstThree(sh, dispatch);
    PrologueLength();
    EpilogueLength();
    var p, n := Stub(sh, dispatch), CallAt(sh, dispatch);
    assert p[..1] == [Push(RBP)];
    assert p[..3] == [Push(RBP), MovReg(RBP, RSP), SubSP(JIT_FRAME_SIZE)];
    EndSlices(p, n + 1);
    FirstOffset(p);
    TailOffset(p, n + 1); TailOffset(p, n + 2); TailOffset(p, n + 3); TailOffset(p, n + 4);
  }

  lemma EndSlices(p: seq<Ins>, k: nat)
    requires |p| == k + 3 && p[k] == AddSP(JIT_FRAME_SIZE) && p[k + 1] == Pop(RBP) && p[k + 2] == Ret
    ensures p[k..] == [AddSP(JIT_FRAME_SIZE), Pop(RBP), Ret] && p[k + 1..] == [Pop(RBP), Ret]
    ensures p[k + 2..] == [Ret] && |EncodeAll(p[k + 3..])| == 0
  {
  }

  lemma TailOffset(prog: seq<Ins>, k: nat)
    requires k <= |prog|
    ensures Offset(prog, k) == |EncodeAll(prog)| - |EncodeAll(prog[k..])|
  {
    hide EncodeAll;
    EncodeAllAppend(prog[..k], prog[k..]);
    assert prog == prog[..k] + prog[k..];
  }

  /** At every byte of instruction `k` the decoder reads that instruction's delta. */
  lemma TableAt(sh: StubShape, dispatch: nat, k: nat, t: nat)
    requires StubOk(sh, dispatch) && k < |Stub(sh, dispatch)|
    requires Offset(Stub(sh, dispatch), k) <= t < Offset(Stub(sh, dispatch), k + 1)
    ensures var len := |EncodeAll(Stub(sh, dispatch))|;
            && len > 2
            && PcValue(EncodeFrom(Entries(len), -1, 0), 0, -1, t, 1) == Value(SpDelta(k, CallAt(sh, dispatch)))
  {
    hide Before, StubOk, EncodeAll, Offset, Stub, EncodeFrom, PcValue;
    var p, n := Stub(sh, dispatch), CallAt(sh, dispatch);
    var len := |EncodeAll(p)|;
    Boundaries(sh, dispatch);
    CodeBound(sh, dispatch);
    var i := if k == 0 then 0 else if k < 3 then 1 else if k <= n + 1 then 2 else if k == n + 2 then 3 else 4;
    if 1 <= k < 3 {
      OffsetGrows(p, 1, k); OffsetGrows(p, k + 1, 3);
    } else if 3 <= k <= n + 1 {
      OffsetGrows(p, 3, k); OffsetGrows(p, k + 1, n + 2);
    }
    OffsetGrows(p, 3, n + 1);
    EntriesOk(len);
    DeltaAtIs(Entries(len), i, t);
    TableRoundTrip(Entries(len), t);
  }

  lemma EntriesOk(len: nat)
    requires 20 <= len < 0x8000_0000
    ensures TableWf(Entries(len)) && Distinct(Entries(len))
  {
  }

  /** The code is short: no pc comes near the uint32 limit. */
  lemma CodeBound(sh: StubShape, dispatch: nat)
    requires StubOk(sh, dispatch)
    ensures |EncodeAll(Stub(sh, dispatch))| < 0x8000_0000
  {
    ProgBound(Stub(sh, dispatch));
    ClearsCount(sh, sh.retWords);
  }

  lemma {:induction false} ClearsCount(sh: StubShape, n: nat)
    ensures |Clears(sh, n)| <= n
  {
    if n != 0 { ClearsCount(sh, n - 1); }
  }

  /** No instruction is longer than fifteen bytes. */
  lemma {:induction false} ProgBound(prog: seq<Ins>)
    ensures |EncodeAll(prog)| <= 15 * |prog|
  {
    if prog != [] {
      InsBound(prog[0]);
      hide Encode;
      ProgBound(prog[1..]);
    }
  }

  lemma InsBound(i: Ins)
    ensures |Encode(i)| <= 15
  {
    match i
    case SubSP(v) => LowBytesLen(v, 4);
    case AddSP(v) => LowBytesLen(v, 4);
    case MovEax(v) => LowBytesLen(v, 4);
    case MovAbsR12(v) => LowBytesLen(v, 8);
    case MovMemReg(_, d, _) => LowBytesLen(ToInt32(d), 1); LowBytesLen(ToInt32(d), 4);
    case Lea(_, _, d) => LowBytesLen(ToInt32(d), 1); LowBytesLen(ToInt32(d), 4);
    case MovMemImm(_, d, v) => LowBytesLen(ToInt32(d), 1); LowBytesLen(ToInt32(d), 4); LowBytesLen(v, 4);
    case _ =>
  }

  /** The stack pointer as instruction `k` begins, on the way to the CALL. */
  lemma {:induction false} SpAt(sh: StubShape, dispatch: nat, m: Machine, k: nat)
    requires StubOk(sh, dispatch) && CallerOk(sh, m) && k <= CallAt(sh, dispatch)
    requires forall j :: 0 <= j < |Before(sh, dispatch)| ==> IsStraight(Before(sh, dispatch)[j])
    ensures var r := Effects(Before(sh, dispatch)[..k], m);
            r.Some? && r.value.regs[RSP] == m.regs[RSP] - SpDelta(k, CallAt(sh, dispatch))
    decreases k
  {
    hide Before, Effects, StubOk, CallerOk, Effect, KeepsSP, EncodeAll, Run, Offset, Encodable, IsStraight;
    CallerIsOk(sh, m);
    RunTo(sh, dispatch, 0, m, k);
    var before := Before(sh, dispatch);
    if k == 0 {
      NoEffects(m);
      assert before[..0] == [];
    } else {
      SpAt(sh, dispatch, m, k - 1);
      StubOkAll(sh, dispatch);
      FirstThree(sh, dispatch);
      var c := Effects(before[..k - 1], m).value;
      EffectsAppend(before[..k - 1], [before[k - 1]], m);
      OneEffect(before[k - 1], c);
      assert before[..k] == before[..k - 1] + [before[k - 1]];
      SpStep(before[k - 1], c);
    }
  }

  lemma FirstThree(sh: StubShape, dispatch: nat)
    ensures |Before(sh, dispatch)| >= 3
    ensures Before(sh, dispatch)[0] == Push(RBP) && Before(sh, dispatch)[1] == MovReg(RBP, RSP)
    ensures Before(sh, dispatch)[2] == SubSP(JIT_FRAME_SIZE) && KeepsSP(MovReg(RBP, RSP))
  {
  }

  lemma SpStep(i: Ins, m: Machine)
    requires MachineOk(m) && IsStraight(i) && Effect(i, m).Some?
    ensures KeepsSP(i) ==> Effect(i, m).value.regs[RSP] == m.regs[RSP]
    ensures i == Push(RBP) && 8 <= m.regs[RSP] < W64 ==> Effect(i, m).value.regs[RSP] == m.regs[RSP] - 8
    ensures i == SubSP(JIT_FRAME_SIZE) && JIT_FRAME_SIZE <= m.regs[RSP] < W64 ==>
              Effect(i, m).value.regs[RSP] == m.regs[RSP] - JIT_FRAME_SIZE
  {
  }

  /** For byte `t` of the code the table gives entry SP minus current SP. */
  ghost predicate UnwindRight(code: seq<Byte>, t: nat, entrySP: int, c: Machine)
    requires MachineOk(c)
  {
    |code| > 2 && PcValue(EncodeFrom(Entries(|code|), -1, 0), 0, -1, t, 1) == Value(entrySP - c.regs[RSP])
  }

  /** Unwinding is right wherever execution stands: `k` instructions after entry
      the table is right for every byte of the instruction about to run, the
      variable-length clears among them. */
  lemma UnwindExact(sh: StubShape, dispatch: nat, text: int, m: Machine, k: nat, t: nat)
    requires StubOk(sh, dispatch) && CallerOk(sh, m) && k <= CallAt(sh, dispatch)
    requires Offset(Stub(sh, dispatch), k) <= t < Offset(Stub(sh, dispatch), k + 1)
    ensures var code := EncodeAll(Stub(sh, dispatch));
            var c := Run(code, text, Cpu(m, text), k);
            && c.Some? && c.value.ip == text + Offset(Stub(sh, dispatch), k)
            && UnwindRight(code, t, m.regs[RSP], c.value.m)
  {
    RunTo(sh, dispatch, text, m, k);
    StubOkAll(sh, dispatch);
    SpAt(sh, dispatch, m, k);
    TableAt(sh, dispatch, k, t);
    hide Before, Effects, Run, EncodeAll, Offset, Stub, CallerOk, StubOk, PcValue, EncodeFrom, Entries;
  }

  /** Byte `t` belongs to instruction `k`. */
  predicate InInstruction(prog: seq<Ins>, k: nat, t: nat) {
    k < |prog| && Offset(prog, k) <= t < Offset(prog, k + 1)
  }

  /** Entered at instruction `k` with machine `e`, the code is `j` steps later at
      instruction `k + j`, and the table is right for its byte `t`. */
  ghost predicate UnwindsFrom(prog: seq<Ins>, text: int, e: Machine, k: nat, j: nat, t: nat, entrySP: int)
    requires MachineOk(e)
  {
    && k + j <= |prog|
    && var c := Run(EncodeAll(prog), text, Cpu(e, text + Offset(prog, k)), j);
       && c.Some? && c.value.ip == text + Offset(prog, k + j)
       && UnwindRight(EncodeAll(prog), t, entrySP, c.value.m)
  }

  /** And from the callee's return to the RET. */
  lemma UnwindExactReturning(sh: StubShape, dispatch: nat, text: int, m: Machine, e: Machine, k: nat, t: nat)
    requires StubOk(sh, dispatch) && CallerOk(sh, m) && MachineOk(e) && CalleeReturned(m, e) && k < 3
    requires InInstruction(Stub(sh, dispatch), CallAt(sh, dispatch) + 1 + k, t)
    ensures UnwindsFrom(Stub(sh, dispatch), text, e, CallAt(sh, dispatch) + 1, k, t, m.regs[RSP])
  {
    hide *;
    CallerIsOk(sh, m);
    StubIs(sh, dispatch);
    StubOkAll(sh, dispatch);
    Boundaries(sh, dispatch);
    var n, prog := CallAt(sh, dispatch), Stub(sh, dispatch);
    InInstructionIs(prog, n + 1 + k, t);
    TableAt(sh, dispatch, n + 1 + k, t);
    Epilogue(m, e);
    EpilogueDeltas(m, e, n);
    var two := [AddSP(JIT_FRAME_SIZE), Pop(RBP)];
    assert prog[n + 1..n + 1 + k] == two[..k];
    RunStraight(prog, text, n + 1, k, e);
    NoEffects(e);
    OneEffect(AddSP(JIT_FRAME_SIZE), e);
    TwoEffects(AddSP(JIT_FRAME_SIZE), Pop(RBP), e, Popped1(m, e), Popped2(m, e));
    assert two[..0] == [] && two[..1] == [AddSP(JIT_FRAME_SIZE)] && two[..2] == two;
    var c := if k == 0 then e else if k == 1 then Popped1(m, e) else Popped2(m, e);
    RightHere(EncodeAll(prog), t, m.regs[RSP], c);
    UnwindsFromIs(prog, text, e, n + 1, k, t, m.regs[RSP], c);
  }

  lemma InInstructionIs(prog: seq<Ins>, k: nat, t: nat)
    requires InInstruction(prog, k, t)
    ensures k < |prog| && Offset(prog, k) <= t < Offset(prog, k + 1)
  {
  }

  lemma UnwindsFromIs(prog: seq<Ins>, text: int, e: Machine, k: nat, j: nat, t: nat, entrySP: int, c: Machine)
    requires MachineOk(e) && MachineOk(c) && k + j <= |prog|
    requires Run(EncodeAll(prog), text, Cpu(e, text + Offset(prog, k)), j) == Some(Cpu(c, text + Offset(prog, k + j)))
    requires UnwindRight(EncodeAll(prog), t, entrySP, c)
    ensures UnwindsFrom(prog, text, e, k, j, t, entrySP)
  {
    hide EncodeAll, Offset, Run, UnwindRight;
  }

  lemma RightHere(code: seq<Byte>, t: nat, entrySP: int, c: Machine)
    requires MachineOk(c) && |code| > 2
    requires PcValue(EncodeFrom(Entries(|code|), -1, 0), 0, -1, t, 1) == Value(entrySP - c.regs[RSP])
    ensures UnwindRight(code, t, entrySP, c)
  {
  }

  lemma EpilogueDeltas(m: Machine, e: Machine, n: nat)
    requires 16 <= n && MachineOk(m) && MachineOk(e) && CalleeReturned(m, e)
    ensures e.regs[RSP] == m.regs[RSP] - SpDelta(n + 1, n)
    ensures Popped1(m, e).regs[RSP] == m.regs[RSP] - SpDelta(n + 2, n)
    ensures Popped2(m, e).regs[RSP] == m.regs[RSP] - SpDelta(n + 3, n)
    ensures IsStraight(AddSP(JIT_FRAME_SIZE)) && IsStraight(Pop(RBP))
  {
  }
}
