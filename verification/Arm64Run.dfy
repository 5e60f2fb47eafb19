/** Running the arm64 trampoline: the state dispatch is called in and the state the
    caller gets back. */
module Arm64Run {
  import opened Wrappers
  import opened Bits
  import opened Precise
  import opened StackArea
  import opened Arm64Asm
  import opened Arm64Stub
  import opened Arm64Cpu

  /** The words of memory do not overlap; the frame and the stack area of the
      shape are mapped and inside the address space. */
  ghost predicate CallerOk(sh: StubShape, m: Machine) {
    && MachineOk(m)
    && (forall a :: a in m.mem ==> (a - m.sp) % 8 == 0)
    && JIT_FRAME_SIZE + 8 <= m.sp && m.sp + 8 + 8 * (sh.argWords + sh.retWords) < W64
    && forall k :: -37 <= k <= sh.argWords + sh.retWords ==> WordAddr(m.sp, k) in m.mem
  }

  // ----- every instruction fits its fields -----

  lemma {:induction false} ClearsOk(sh: StubShape, n: nat)
    requires n <= sh.retWords <= STUB_MAX_WORDS && sh.argWords <= STUB_MAX_WORDS
    ensures forall k :: 0 <= k < |Clears(sh, n)| ==> Fits(Clears(sh, n)[k]) && IsStraight(Clears(sh, n)[k])
  {
    if n != 0 { ClearsOk(sh, n - 1); }
  }

  lemma {:induction false} ShiftOk(n: nat)
    requires n <= 15
    ensures |Shift(n)| == n && forall k :: 0 <= k < n ==> Fits(Shift(n)[k]) && IsStraight(Shift(n)[k])
  {
    if n != 0 { ShiftOk(n - 1); }
  }

  lemma StubOkAll(sh: StubShape, dispatch: nat)
    requires StubOk(sh, dispatch)
    ensures forall k :: 0 <= k < |Before(sh, dispatch)| ==> IsStraight(Before(sh, dispatch)[k])
    ensures forall k :: 0 <= k < |Stub(sh, dispatch)| ==> Fits(Stub(sh, dispatch)[k])
    ensures forall k :: 0 <= k < |LoadAddress(dispatch)| ==> IsStraight(LoadAddress(dispatch)[k])
  {
    ClearsOk(sh, sh.retWords);
    ShiftOk(15);
    var a, b, e := Opening(), Spills(), LoadAddress(dispatch);
    hide Clears, Shift, Piece;
    assert forall k :: 0 <= k < |a| ==> Fits(a[k]) && IsStraight(a[k]);
    assert forall k :: 0 <= k < |b| ==> Fits(b[k]) && IsStraight(b[k]);
    assert forall k :: 0 <= k < |e| ==> Fits(e[k]) && IsStraight(e[k]) by {
      assert 0 <= Piece(dispatch, 0) < 0x1_0000 && 0 <= Piece(dispatch, 1) < 0x1_0000;
      assert 0 <= Piece(dispatch, 2) < 0x1_0000 && 0 <= Piece(dispatch, 3) < 0x1_0000;
    }
    assert Fits(Movz(0, sh.index)) && IsStraight(Movz(0, sh.index));
    hide Fits, IsStraight;
  }

  // ----- the stages -----

  /** FP and LR saved at the new stack pointer, a15 and &s0 in the outgoing slots. */
  ghost predicate Opened(m: Machine, c: Machine)
    requires MachineOk(m)
  {
    var sp := m.sp - JIT_FRAME_SIZE;
    && MachineOk(c) && c.sp == sp && c.x == m.x[20 := sp][29 := sp - 8][16 := m.sp + 8]
    && c.mem == m.mem[sp - 8 := m.x[29]][sp := m.x[30]][sp + 8 := m.x[15]][sp + 16 := m.sp + 8]
  }

  lemma RunOpening(sh: StubShape, m: Machine)
    requires CallerOk(sh, m)
    ensures forall k :: 0 <= k < |Opening() + Spills()| ==> IsStraight((Opening() + Spills())[k])
    ensures Effects(Opening() + Spills(), m).Some? && Opened(m, Effects(Opening() + Spills(), m).value)
  {
    hide Effects, Opening, Spills;
    var sp := m.sp - JIT_FRAME_SIZE;
    var m1 := m.(x := m.x[20 := sp]);
    var m2 := m1.(mem := m1.mem[sp - 8 := m.x[29]][sp := m.x[30]]);
    var m3 := m2.(sp := sp);
    var m4 := m3.(x := m3.x[29 := sp - 8]);
    var m5 := m4.(mem := m4.mem[sp + 8 := m.x[15]]);
    var m6 := m5.(x := m5.x[16 := m.sp + 8]);
    var m7 := m6.(mem := m6.mem[sp + 16 := m.sp + 8]);
    assert WordAddr(m.sp, -37) in m.mem && WordAddr(m.sp, -36) in m.mem;
    assert WordAddr(m.sp, -35) in m.mem && WordAddr(m.sp, -34) in m.mem;
    assert MachineOk(m) && JIT_FRAME_SIZE + 8 <= m.sp < W64 - 8;
    hide CallerOk;
    assert Effect(SubImm(20, SP, JIT_FRAME_SIZE), m) == Some(m1);
    assert Effect(Stp(FP, LR, 20, -8), m1) == Some(m2);
    assert Effect(AddImm(SP, 20, 0), m2) == Some(m3);
    assert Effect(SubImm(FP, SP, 8), m3) == Some(m4);
    assert Effect(Str(15, SP, 8), m4) == Some(m5);
    assert Effect(AddImm(16, SP, JIT_FRAME_SIZE + 8), m5) == Some(m6);
    assert Effect(Str(16, SP, 16), m6) == Some(m7);
    hide Effect;
    SevenSteps(m, m1, m2, m3, m4, m5, m6, m7);
  }

  lemma SevenSteps(m: Machine, m1: Machine, m2: Machine, m3: Machine, m4: Machine, m5: Machine, m6: Machine, m7: Machine)
    requires MachineOk(m) && MachineOk(m1) && MachineOk(m2) && MachineOk(m3)
    requires MachineOk(m4) && MachineOk(m5) && MachineOk(m6) && MachineOk(m7)
    requires Effect(SubImm(20, SP, JIT_FRAME_SIZE), m) == Some(m1) && Effect(Stp(FP, LR, 20, -8), m1) == Some(m2)
    requires Effect(AddImm(SP, 20, 0), m2) == Some(m3) && Effect(SubImm(FP, SP, 8), m3) == Some(m4)
    requires Effect(Str(15, SP, 8), m4) == Some(m5) && Effect(AddImm(16, SP, JIT_FRAME_SIZE + 8), m5) == Some(m6)
    requires Effect(Str(16, SP, 16), m6) == Some(m7)
    ensures forall k :: 0 <= k < |Opening() + Spills()| ==> IsStraight((Opening() + Spills())[k])
    ensures Effects(Opening() + Spills(), m) == Some(m7)
  {
    hide Effect, Effects;
    ThreeEffects(Opening(), m, m1, m2, m3);
    FourEffects(Spills(), m3, m4, m5, m6, m7);
    EffectsAppend(Opening(), Spills(), m);
  }

  lemma ThreeEffects(p: seq<Ins>, m: Machine, m1: Machine, m2: Machine, m3: Machine)
    requires MachineOk(m) && MachineOk(m1) && MachineOk(m2) && MachineOk(m3)
    requires |p| == 3 && forall k :: 0 <= k < 3 ==> IsStraight(p[k])
    requires Effect(p[0], m) == Some(m1) && Effect(p[1], m1) == Some(m2) && Effect(p[2], m2) == Some(m3)
    ensures Effects(p, m) == Some(m3)
  {
    hide Effect, Effects, IsStraight;
    EffectsStep(p, 0, m); EffectsStep(p, 1, m1); EffectsStep(p, 2, m2);
    assert p[0..] == p && p[3..] == [];
    NoEffects(m3);
  }

  lemma FourEffects(p: seq<Ins>, m: Machine, m1: Machine, m2: Machine, m3: Machine, m4: Machine)
    requires MachineOk(m) && MachineOk(m1) && MachineOk(m2) && MachineOk(m3) && MachineOk(m4)
    requires |p| == 4 && forall k :: 0 <= k < 4 ==> IsStraight(p[k])
    requires Effect(p[0], m) == Some(m1) && Effect(p[1], m1) == Some(m2)
    requires Effect(p[2], m2) == Some(m3) && Effect(p[3], m3) == Some(m4)
    ensures Effects(p, m) == Some(m4)
  {
    hide Effect, Effects, IsStraight;
    ThreeEffects(p[..3], m, m1, m2, m3);
    OneEffect(p[3], m3);
    assert p == p[..3] + [p[3]];
    EffectsAppend(p[..3], [p[3]], m);
  }

  /** The words of the stack area are mapped, inside the address space. */
  ghost predicate AreaMapped(sh: StubShape, m: Machine)
    requires MachineOk(m)
  {
    && 0 <= m.x[16] && m.x[16] + 8 * (sh.argWords + sh.retWords) <= W64
    && forall i: nat :: i < sh.argWords + sh.retWords ==> WordAddr(m.x[16], i) in m.mem
  }

  /** `c` is `m` but for the first `n` result words. */
  ghost predicate AfterClears(sh: StubShape, n: nat, m: Machine, c: Machine)
    requires MachineOk(m)
  {
    MachineOk(c) && c.x == m.x && c.sp == m.sp && ClearedMem(sh, m.x[16], n, m.mem, c.mem)
  }

  lemma ClearStep(sh: StubShape, n: nat, m: Machine, c: Machine)
    requires n < sh.retWords && MachineOk(m) && AreaMapped(sh, m) && AfterClears(sh, n, m, c)
    ensures !Has(sh.retPtrs, n) ==> AfterClears(sh, n + 1, m, c)
    ensures Has(sh.retPtrs, n) ==>
              var r := Effect(Str(ZR, 16, (sh.argWords + n) * 8), c);
              r.Some? && AfterClears(sh, n + 1, m, r.value)
  {
    assert WordAddr(m.x[16], sh.argWords + n) in m.mem;
    ClearedNext(sh, m.x[16], n, m.mem, c.mem);
    assert WordAddr(m.x[16], sh.argWords + n) in c.mem;
    hide ClearedMem, Has;
  }

  lemma {:induction false} RunClears(sh: StubShape, n: nat, m: Machine)
    requires n <= sh.retWords <= STUB_MAX_WORDS && sh.argWords <= STUB_MAX_WORDS
    requires MachineOk(m) && AreaMapped(sh, m)
    ensures forall k :: 0 <= k < |Clears(sh, n)| ==> IsStraight(Clears(sh, n)[k])
    ensures Effects(Clears(sh, n), m).Some? && AfterClears(sh, n, m, Effects(Clears(sh, n), m).value)
  {
    ClearsOk(sh, n);
    hide Effect, Effects, AreaMapped, IsStraight, Fits;
    if n == 0 {
      NoEffects(m);
    } else {
      RunClears(sh, n - 1, m);
      hide AfterClears;
      var c := Effects(Clears(sh, n - 1), m).value;
      ClearStep(sh, n - 1, m, c);
      if Has(sh.retPtrs, n - 1) {
        var i := Str(ZR, 16, (sh.argWords + n - 1) * 8);
        assert [i][0] == Clears(sh, n)[|Clears(sh, n - 1)|];
        EffectsAppend(Clears(sh, n - 1), [i], m);
        OneEffect(i, c);
      } else {
        assert Clears(sh, n) == Clears(sh, n - 1);
      }
    }
  }

  /** Where the value of R`k` came from after `n` moves. */
  function Source(n: nat, k: nat): nat
    requires n <= 15
  {
    if 15 - n < k <= 15 then k - 1 else k
  }

  /** R`k - 1` has moved to R`k` for every `k` above `15 - n`, the rest is as it was:
      going down, no move reads what one before it wrote. */
  ghost predicate Moved(n: nat, m: Machine, c: Machine)
    requires MachineOk(m) && n <= 15
  {
    && MachineOk(c) && c.sp == m.sp && c.mem == m.mem
    && forall k :: 0 <= k < 31 ==> c.x[k] == m.x[Source(n, k)]
  }

  lemma {:induction false} RunShift(n: nat, m: Machine)
    requires n <= 15 && MachineOk(m)
    ensures forall k :: 0 <= k < |Shift(n)| ==> IsStraight(Shift(n)[k])
    ensures Effects(Shift(n), m).Some? && Moved(n, m, Effects(Shift(n), m).value)
  {
    ShiftOk(n);
    hide Effects, IsStraight, Fits;
    if n == 0 {
      NoEffects(m);
    } else {
      RunShift(n - 1, m);
      var c := Effects(Shift(n - 1), m).value;
      var i := MovReg(16 - n, 15 - n);
      MoveDown(n, m, c);
      hide Effect, Moved;
      assert [i][0] == Shift(n)[|Shift(n - 1)|];
      EffectsAppend(Shift(n - 1), [i], m);
      OneEffect(i, c);
    }
  }

  lemma MoveDown(n: nat, m: Machine, c: Machine)
    requires 0 < n <= 15 && MachineOk(m) && Moved(n - 1, m, c)
    ensures IsStraight(MovReg(16 - n, 15 - n))
    ensures var r := Effect(MovReg(16 - n, 15 - n), c); r.Some? && Moved(n, m, r.value)
  {
    var d := c.(x := c.x[16 - n := c.x[15 - n]]);
    assert Effect(MovReg(16 - n, 15 - n), c) == Some(d);
    assert c.x[15 - n] == m.x[15 - n];
  }

  /** MOVZ and three MOVKs rebuild any 64-bit address. */
  lemma RebuildAddress(d: nat)
    requires d < W64
    ensures Insert(Insert(Insert(Piece(d, 0), Piece(d, 1), 16), Piece(d, 2), 32), Piece(d, 3), 48) == d
  {
    var p0, p1, p2, p3 := Piece(d, 0), Piece(d, 1), Piece(d, 2), Piece(d, 3);
    PieceSum(d);
    PieceBound(d);
    hide Insert, Piece;
    InsertAbove(p0, p1, 16);
    InsertAbove(p0 + p1 * 0x1_0000, p2, 32);
    InsertAbove(p0 + p1 * 0x1_0000 + p2 * 0x1_0000_0000, p3, 48);
  }

  lemma PieceBound(d: nat)
    ensures Piece(d, 0) < 0x1_0000 && Piece(d, 1) < 0x1_0000 && Piece(d, 2) < 0x1_0000 && Piece(d, 3) < 0x1_0000
  {
  }

  lemma PieceSum(d: nat)
    requires d < W64
    ensures d == Piece(d, 0) + Piece(d, 1) * 0x1_0000 + Piece(d, 2) * 0x1_0000_0000 + Piece(d, 3) * 0x1_0000_0000_0000
  {
    var a := d / 0x1_0000;
    var b := a / 0x1_0000;
    var c := b / 0x1_0000;
    assert b == d / 0x1_0000_0000;
    assert c == d / 0x1_0000_0000_0000;
    assert d == d % 0x1_0000 + 0x1_0000 * a;
    assert a == a % 0x1_0000 + 0x1_0000 * b;
    assert b == b % 0x1_0000 + 0x1_0000 * c;
    assert c < 0x1_0000;
  }

  lemma InsertAbove(x: nat, imm: nat, shift: int)
    requires (shift == 16 || shift == 32 || shift == 48) && x < ScaleOf(shift)
    ensures Insert(x, imm, shift) == x + imm * ScaleOf(shift)
  {
  }

  lemma RunLoad(m: Machine, dispatch: nat)
    requires MachineOk(m) && dispatch < W64
    ensures forall k :: 0 <= k < |LoadAddress(dispatch)| ==> IsStraight(LoadAddress(dispatch)[k])
    ensures Effects(LoadAddress(dispatch), m) == Some(m.(x := m.x[16 := dispatch]))
  {
    RebuildAddress(dispatch);
    hide Effects, Piece, Insert;
    var p := LoadAddress(dispatch);
    var v0 := Piece(dispatch, 0);
    var v1 := Insert(v0, Piece(dispatch, 1), 16);
    var v2 := Insert(v1, Piece(dispatch, 2), 32);
    var m1 := m.(x := m.x[16 := v0]);
    var m2 := m.(x := m.x[16 := v1]);
    var m3 := m.(x := m.x[16 := v2]);
    var m4 := m.(x := m.x[16 := dispatch]);
    assert m1.x[16 := v1] == m2.x && m2.x[16 := v2] == m3.x && m3.x[16 := dispatch] == m4.x;
    assert Effect(p[0], m) == Some(m1) && Effect(p[1], m1) == Some(m2);
    assert Effect(p[2], m2) == Some(m3) && Effect(p[3], m3) == Some(m4);
    hide Effect;
    FourEffects(p, m, m1, m2, m3, m4);
  }

  // ----- from entry to dispatch -----

  /** What dispatch finds: every argument register one on, the last and &s0 as
      stack parameters, FP and LR saved, the marked result words zero, the rest of
      the caller's memory as it was. */
  ghost predicate InDispatch(sh: StubShape, m: Machine, d: Machine, ret: int)
    requires MachineOk(m)
  {
    && MachineOk(d)
    && var sp := m.sp - JIT_FRAME_SIZE;
       && d.sp == sp && d.x[29] == sp - 8 && d.x[30] == ret && d.x[0] == sh.index
       && (forall k :: 0 <= k < 15 ==> d.x[k + 1] == m.x[k])
       && d.mem.Keys == m.mem.Keys && {sp - 8, sp, sp + 8, sp + 16} <= d.mem.Keys
       && d.mem[sp - 8] == m.x[29] && d.mem[sp] == m.x[30] && d.mem[sp + 8] == m.x[15] && d.mem[sp + 16] == m.sp + 8
       && forall a :: a in m.mem && a !in {sp - 8, sp, sp + 8, sp + 16} ==>
            d.mem[a] == if Cleared(sh, m.sp + 8, sh.retWords, a) then 0 else m.mem[a]
  }

  lemma Composed(sh: StubShape, dispatch: nat, m: Machine, a: Machine, b: Machine, c: Machine, d: Machine, ret: int)
    requires CallerOk(sh, m) && Opened(m, a) && AfterClears(sh, sh.retWords, a, b) && Moved(15, b, c)
    requires MachineOk(d) && d == c.(x := c.x[0 := sh.index][16 := dispatch][30 := ret])
    ensures InDispatch(sh, m, d, ret)
  {
    ClearedAbove(sh, m.sp + 8, sh.retWords);
    assert WordAddr(m.sp, -37) in m.mem && WordAddr(m.sp, -36) in m.mem;
    assert WordAddr(m.sp, -35) in m.mem && WordAddr(m.sp, -34) in m.mem;
    hide Cleared;
    assert c.x[29] == a.x[29];
    forall k | 0 <= k < 15 ensures d.x[k + 1] == m.x[k] {
      assert d.x[k + 1] == c.x[k + 1] == a.x[k];
    }
  }

  /** The machine as the BLR begins, and that the BLR hands it to dispatch. */
  lemma RunBefore(sh: StubShape, dispatch: nat, m: Machine, ret: int)
    requires StubOk(sh, dispatch) && CallerOk(sh, m)
    ensures forall k :: 0 <= k < |Before(sh, dispatch)| ==> IsStraight(Before(sh, dispatch)[k])
    ensures var r := Effects(Before(sh, dispatch), m);
            && r.Some?
            && var e := Exec(Blr(16), r.value, ret);
               e.Some? && e.value.ip == dispatch && InDispatch(sh, m, e.value.m, ret)
  {
    hide Effects, Exec, IsStraight, Before, Opening, Spills, Clears, Shift, LoadAddress;
    hide Opened, AreaMapped, AfterClears, Moved, InDispatch, CallerOk, StubOk;
    var head := Opening() + Spills();
    var a := OpeningStage(sh, dispatch, m);
    var b := ClearsStage(sh, dispatch, m, a);
    RunShift(15, b);
    var c := Effects(Shift(15), b).value;
    var d := LoadStage(sh, dispatch, m, b, c);
    Composed(sh, dispatch, m, a, b, c, d.(x := d.x[30 := ret]), ret);
    CallBlr(dispatch, d, ret);
    BeforeStages(sh, dispatch);
    Chained(head, Clears(sh, sh.retWords), Shift(15), [Movz(0, sh.index)], LoadAddress(dispatch), m, a, b, c,
            c.(x := c.x[0 := sh.index]), d);
  }

  lemma OpeningStage(sh: StubShape, dispatch: nat, m: Machine) returns (a: Machine)
    requires StubOk(sh, dispatch) && CallerOk(sh, m)
    ensures MachineOk(m) && MachineOk(a) && Opened(m, a) && AreaMapped(sh, a)
    ensures forall k :: 0 <= k < |Opening() + Spills()| ==> IsStraight((Opening() + Spills())[k])
    ensures Effects(Opening() + Spills(), m) == Some(a)
  {
    hide Effects, IsStraight, CallerOk, Opening, Spills, Opened, AreaMapped;
    CallerIsOk(sh, m);
    RunOpening(sh, m);
    a := Effects(Opening() + Spills(), m).value;
    AreaIsMapped(sh, m, a);
  }

  lemma ClearsStage(sh: StubShape, dispatch: nat, m: Machine, a: Machine) returns (b: Machine)
    requires StubOk(sh, dispatch) && MachineOk(a) && AreaMapped(sh, a)
    ensures AfterClears(sh, sh.retWords, a, b) && MachineOk(b)
    ensures forall k :: 0 <= k < |Clears(sh, sh.retWords)| ==> IsStraight(Clears(sh, sh.retWords)[k])
    ensures Effects(Clears(sh, sh.retWords), a) == Some(b)
  {
    hide Effects, IsStraight, Clears, AreaMapped, ClearedMem;
    RunClears(sh, sh.retWords, a);
    b := Effects(Clears(sh, sh.retWords), a).value;
  }

  /** The index and dispatch's address in their registers. */
  lemma LoadStage(sh: StubShape, dispatch: nat, m: Machine, b: Machine, c: Machine) returns (d: Machine)
    requires StubOk(sh, dispatch) && MachineOk(b) && MachineOk(c)
    ensures MachineOk(d) && d == c.(x := c.x[0 := sh.index][16 := dispatch])
    ensures IsStraight([Movz(0, sh.index)][0])
    ensures Effects([Movz(0, sh.index)], c) == Some(c.(x := c.x[0 := sh.index]))
    ensures forall k :: 0 <= k < |LoadAddress(dispatch)| ==> IsStraight(LoadAddress(dispatch)[k])
    ensures Effects(LoadAddress(dispatch), c.(x := c.x[0 := sh.index])) == Some(d)
  {
    hide Effects, LoadAddress;
    var i, c1 := Movz(0, sh.index), c.(x := c.x[0 := sh.index]);
    assert Effect(i, c) == Some(c1);
    OneEffect(i, c);
    RunLoad(c1, dispatch);
    d := c1.(x := c1.x[16 := dispatch]);
  }

  lemma CallBlr(dispatch: nat, d: Machine, ret: int)
    requires MachineOk(d) && d.x[16] == dispatch
    ensures Exec(Blr(16), d, ret) == Some(Cpu(d.(x := d.x[30 := ret]), dispatch))
  {
  }

  lemma BeforeStages(sh: StubShape, dispatch: nat)
    ensures Before(sh, dispatch) == Opening() + Spills() + Clears(sh, sh.retWords) + Shift(15) + [Movz(0, sh.index)] + LoadAddress(dispatch)
  {
  }

  lemma Chained(p: seq<Ins>, q: seq<Ins>, r: seq<Ins>, s: seq<Ins>, t: seq<Ins>,
                m: Machine, a: Machine, b: Machine, c: Machine, c1: Machine, d: Machine)
    requires MachineOk(m) && MachineOk(a) && MachineOk(b) && MachineOk(c) && MachineOk(c1) && MachineOk(d)
    requires forall k :: 0 <= k < |p| ==> IsStraight(p[k])
    requires forall k :: 0 <= k < |q| ==> IsStraight(q[k])
    requires forall k :: 0 <= k < |r| ==> IsStraight(r[k])
    requires forall k :: 0 <= k < |s| ==> IsStraight(s[k])
    requires forall k :: 0 <= k < |t| ==> IsStraight(t[k])
    requires Effects(p, m) == Some(a) && Effects(q, a) == Some(b) && Effects(r, b) == Some(c)
    requires Effects(s, c) == Some(c1) && Effects(t, c1) == Some(d)
    ensures forall k :: 0 <= k < |p + q + r + s + t| ==> IsStraight((p + q + r + s + t)[k])
    ensures Effects(p + q + r + s + t, m) == Some(d)
  {
    hide *;
    EffectsAppend(p, q, m);
    EffectsAppend(p + q, r, m);
    EffectsAppend(p + q + r, s, m);
    EffectsAppend(p + q + r + s, t, m);
  }

  lemma AreaIsMapped(sh: StubShape, m: Machine, a: Machine)
    requires CallerOk(sh, m) && Opened(m, a)
    ensures AreaMapped(sh, a)
  {
    forall i: nat | i < sh.argWords + sh.retWords ensures WordAddr(a.x[16], i) in a.mem {
      assert WordAddr(a.x[16], i) == WordAddr(m.sp, i + 1);
    }
  }

  function CallAt(sh: StubShape, dispatch: nat): nat {
    |Before(sh, dispatch)|
  }

  lemma StubIs(sh: StubShape, dispatch: nat)
    ensures CallAt(sh, dispatch) == |Before(sh, dispatch)|
    ensures Stub(sh, dispatch) == Before(sh, dispatch) + [Blr(16), Ldp(FP, LR, SP, -8), AddImm(SP, SP, JIT_FRAME_SIZE), Ret]
  {
  }

  lemma CallerIsOk(sh: StubShape, m: Machine)
    requires CallerOk(sh, m)
    ensures MachineOk(m) && JIT_FRAME_SIZE + 8 <= m.sp < W64 - 8
  {
  }

  /** From entry the bytes reach dispatch, LR the address of the word after the BLR. */
  lemma ReachesDispatch(sh: StubShape, dispatch: nat, text: int, m: Machine)
    requires StubOk(sh, dispatch) && CallerOk(sh, m)
    ensures var n := CallAt(sh, dispatch);
            var r := Run(EncodeAll(Stub(sh, dispatch)), text, Cpu(m, text), n + 1);
            r.Some? && r.value.ip == dispatch && InDispatch(sh, m, r.value.m, text + 4 * (n + 1))
  {
    hide *;
    CallerIsOk(sh, m);
    StubIs(sh, dispatch);
    StubOkAll(sh, dispatch);
    var n, prog := CallAt(sh, dispatch), Stub(sh, dispatch);
    RunBefore(sh, dispatch, m, text + 4 * (n + 1));
    var d := Effects(Before(sh, dispatch), m).value;
    assert prog[0..n] == Before(sh, dispatch);
    RunStraight(prog, text, 0, n, m);
    RunSplit(EncodeAll(prog), text, Cpu(m, text), n, 1);
    ProgStep(prog, text, n, d);
    RunOne(EncodeAll(prog), text, Cpu(d, text + 4 * n));
  }

  lemma RunOne(code: seq<Byte>, text: int, c: Cpu)
    requires MachineOk(c.m)
    ensures Run(code, text, c, 1) == Step(code, text, c)
  {
    hide Step;
    if Step(code, text, c).Some? { assert Run(code, text, Step(code, text, c).value, 0) == Step(code, text, c); }
  }

  // ----- and back -----

  /** What dispatch leaves to the trampoline: SP and the two saved registers. */
  ghost predicate CalleeReturned(m: Machine, e: Machine)
    requires MachineOk(m) && MachineOk(e)
  {
    var sp := m.sp - JIT_FRAME_SIZE;
    e.sp == sp && sp - 8 in e.mem && e.mem[sp - 8] == m.x[29] && sp in e.mem && e.mem[sp] == m.x[30]
  }

  /** FP and LR reloaded. */
  function Reloaded(m: Machine, e: Machine): (r: Machine)
    requires MachineOk(m) && MachineOk(e)
    ensures MachineOk(r)
  {
    e.(x := e.x[29 := m.x[29]][30 := m.x[30]])
  }

  lemma Epilogue(m: Machine, e: Machine)
    requires MachineOk(m) && MachineOk(e) && CalleeReturned(m, e) && JIT_FRAME_SIZE + 8 <= m.sp < W64 - 8
    ensures forall next :: Exec(Ldp(FP, LR, SP, -8), e, next) == Some(Cpu(Reloaded(m, e), next))
    ensures forall next :: Exec(AddImm(SP, SP, JIT_FRAME_SIZE), Reloaded(m, e), next)
                        == Some(Cpu(Reloaded(m, e).(sp := m.sp), next))
    ensures forall next :: Exec(Ret, Reloaded(m, e).(sp := m.sp), next)
                        == Some(Cpu(Reloaded(m, e).(sp := m.sp), m.x[30]))
  {
    assert Effect(Ldp(FP, LR, SP, -8), e) == Some(Reloaded(m, e));
  }

  /** The caller gets SP, FP and LR back as they were, every other register and all
      memory as dispatch left them, and control at its return address. */
  lemma ReturnsToCaller(sh: StubShape, dispatch: nat, text: int, m: Machine, e: Machine)
    requires StubOk(sh, dispatch) && CallerOk(sh, m) && MachineOk(e) && CalleeReturned(m, e)
    ensures Run(EncodeAll(Stub(sh, dispatch)), text, Cpu(e, text + 4 * (CallAt(sh, dispatch) + 1)), 3)
         == Some(Cpu(Reloaded(m, e).(sp := m.sp), m.x[30]))
  {
    hide *;
    CallerIsOk(sh, m);
    StubIs(sh, dispatch);
    StubOkAll(sh, dispatch);
    Epilogue(m, e);
    var n, prog := CallAt(sh, dispatch), Stub(sh, dispatch);
    var e1, e2 := Reloaded(m, e), Reloaded(m, e).(sp := m.sp);
    SameRegs(e1, e2);
    ProgStep(prog, text, n + 1, e);
    ProgStep(prog, text, n + 2, e1);
    ProgStep(prog, text, n + 3, e2);
    ThreeSteps(EncodeAll(prog), text, Cpu(e, text + 4 * (n + 1)), Cpu(e1, text + 4 * (n + 2)),
               Cpu(e2, text + 4 * (n + 3)), Cpu(e2, m.x[30]));
  }

  lemma SameRegs(a: Machine, b: Machine)
    requires MachineOk(a) && a.x == b.x
    ensures MachineOk(b)
  {
  }

  lemma ThreeSteps(code: seq<Byte>, text: int, a: Cpu, b: Cpu, c: Cpu, d: Cpu)
    requires MachineOk(a.m) && MachineOk(b.m) && MachineOk(c.m) && MachineOk(d.m)
    requires Step(code, text, a) == Some(b) && Step(code, text, b) == Some(c) && Step(code, text, c) == Some(d)
    ensures Run(code, text, a, 3) == Some(d)
  {
    hide Step;
    assert Run(code, text, d, 0) == Some(d);
    assert Run(code, text, c, 1) == Some(d);
    assert Run(code, text, b, 2) == Some(d);
  }
}
