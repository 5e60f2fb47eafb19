/** The arm64 stack-delta table against the stack pointer of the running trampoline. */
module Arm64Unwind {
  import opened Wrappers
  import opened Bits
  import opened PcTable
  import opened Precise
  import opened Arm64Asm
  import opened Arm64Stub
  import opened Arm64Cpu
  import opened Arm64Run

  // ----- the stack pointer along a run -----

  /** How far SP is below its value at entry when instruction `k` begins, with `n`
      instructions before the BLR. */
  function SpDelta(n: nat, k: nat): int {
    if 3 <= k <= n + 2 then JIT_FRAME_SIZE else 0
  }

  predicate KeepsSP(i: Ins) {
    IsStraight(i) && (i.SubImm? || i.AddImm? ==> i.rd != SP)
  }

  lemma SpKept(i: Ins, m: Machine)
    requires MachineOk(m) && KeepsSP(i) && Effect(i, m).Some?
    ensures Effect(i, m).value.sp == m.sp
  {
  }

  lemma {:induction false} ClearsKeep(sh: StubShape, n: nat)
    ensures forall k :: 0 <= k < |Clears(sh, n)| ==> KeepsSP(Clears(sh, n)[k])
  {
    if n != 0 { ClearsKeep(sh, n - 1); }
  }

  lemma {:induction false} ShiftKeeps(n: nat)
    requires n <= 15
    ensures forall k :: 0 <= k < |Shift(n)| ==> KeepsSP(Shift(n)[k])
  {
    if n != 0 { ShiftKeeps(n - 1); }
  }

  ghost predicate AllKeep(p: seq<Ins>) {
    forall k :: 0 <= k < |p| ==> KeepsSP(p[k])
  }

  lemma AllKeepJoin(p: seq<Ins>, q: seq<Ins>)
    requires AllKeep(p) && AllKeep(q)
    ensures AllKeep(p + q)
  {
    hide KeepsSP;
  }

  /** After the third, no instruction before the BLR moves SP. */
  lemma BeforeKeeps(sh: StubShape, dispatch: nat)
    ensures |Before(sh, dispatch)| >= 3 && Before(sh, dispatch)[..3] == Opening()
    ensures forall k :: 3 <= k < |Before(sh, dispatch)| ==> KeepsSP(Before(sh, dispatch)[k])
  {
    hide Clears, Shift, Piece, Spills, LoadAddress, KeepsSP;
    PartsKeep(sh, dispatch);
    var a, b, c, d, e := Spills(), Clears(sh, sh.retWords), Shift(15), [Movz(0, sh.index)], LoadAddress(dispatch);
    AllKeepJoin(a, b);
    AllKeepJoin(a + b, c);
    AllKeepJoin(a + b + c, d);
    AllKeepJoin(a + b + c + d, e);
    var rest := a + b + c + d + e;
    assert Before(sh, dispatch) == Opening() + rest;
    assert |Opening()| == 3;
    hide Before, Opening;
    assert forall k :: 3 <= k < |Before(sh, dispatch)| ==> Before(sh, dispatch)[k] == rest[k - 3];
  }

  lemma PartsKeep(sh: StubShape, dispatch: nat)
    ensures AllKeep(Spills()) && AllKeep(Clears(sh, sh.retWords)) && AllKeep(Shift(15))
    ensures AllKeep([Movz(0, sh.index)]) && AllKeep(LoadAddress(dispatch))
  {
    ClearsKeep(sh, sh.retWords);
    ShiftKeeps(15);
    hide Clears, Shift, Piece;
  }

  /** SP and R20 after `k` instructions of the opening. */
  ghost predicate Opening20(m: Machine, c: Machine, k: nat)
    requires MachineOk(m) && MachineOk(c)
  {
    && c.sp == m.sp - (if k == 3 then JIT_FRAME_SIZE else 0)
    && (k >= 1 ==> c.x[20] == m.sp - JIT_FRAME_SIZE)
  }

  lemma OpeningStep(m: Machine, c: Machine, k: nat)
    requires MachineOk(m) && MachineOk(c) && JIT_FRAME_SIZE + 8 <= m.sp < W64 && k < 3 && Opening20(m, c, k)
    requires IsStraight(Opening()[k]) && Effect(Opening()[k], c).Some?
    ensures Opening20(m, Effect(Opening()[k], c).value, k + 1)
  {
  }

  /** The frame is opened by the third instruction. */
  lemma {:induction false} OpeningSp(m: Machine, k: nat)
    requires MachineOk(m) && JIT_FRAME_SIZE + 8 <= m.sp < W64 && k <= 3
    requires forall j :: 0 <= j < 3 ==> IsStraight(Opening()[j])
    requires Effects(Opening()[..k], m).Some?
    ensures Opening20(m, Effects(Opening()[..k], m).value, k)
    decreases k
  {
    hide Effect, IsStraight;
    var p := Opening();
    if k == 0 {
      NoEffects(m);
      assert p[..0] == [];
    } else {
      hide Effects, Opening20;
      assert p[..k] == p[..k - 1] + [p[k - 1]];
      EffectsAppend(p[..k - 1], [p[k - 1]], m);
      OpeningSp(m, k - 1);
      var c := Effects(p[..k - 1], m).value;
      OneEffect(p[k - 1], c);
      OpeningStep(m, c, k - 1);
    }
  }

  /** The machine `k` instructions after entry. */
  lemma RunTo(sh: StubShape, dispatch: nat, text: int, m: Machine, k: nat)
    requires StubOk(sh, dispatch) && CallerOk(sh, m) && k <= CallAt(sh, dispatch)
    ensures forall j :: 0 <= j < k ==> IsStraight(Before(sh, dispatch)[j])
    ensures var r := Effects(Before(sh, dispatch)[..k], m);
            r.Some? && Run(EncodeAll(Stub(sh, dispatch)), text, Cpu(m, text), k) == Some(Cpu(r.value, text + 4 * k))
  {
    hide *;
    CallerIsOk(sh, m);
    StubOkAll(sh, dispatch);
    RunBefore(sh, dispatch, m, 0);
    StubIs(sh, dispatch);
    var before, prog := Before(sh, dispatch), Stub(sh, dispatch);
    assert prog[0..k] == before[..k];
    assert before == before[..k] + before[k..];
    EffectsAppend(before[..k], before[k..], m);
    RunStraight(prog, text, 0, k, m);
  }

  /** Its stack pointer. */
  lemma {:induction false} SpAt(sh: StubShape, dispatch: nat, m: Machine, k: nat)
    requires StubOk(sh, dispatch) && CallerOk(sh, m) && k <= CallAt(sh, dispatch)
    requires forall j :: 0 <= j < k ==> IsStraight(Before(sh, dispatch)[j])
    ensures var r := Effects(Before(sh, dispatch)[..k], m);
            r.Some? && r.value.sp == m.sp - SpDelta(CallAt(sh, dispatch), k)
    decreases k
  {
    hide Before, Effects, StubOk, CallerOk, Effect, KeepsSP, EncodeAll, Run, IsStraight, Opening;
    CallerIsOk(sh, m);
    RunTo(sh, dispatch, 0, m, k);
    BeforeKeeps(sh, dispatch);
    var before := Before(sh, dispatch);
    if k <= 3 {
      assert before[..k] == Opening()[..k];
      StubOkAll(sh, dispatch);
      assert forall j :: 0 <= j < 3 ==> Opening()[j] == before[j];
      OpeningSp(m, k);
    } else {
      SpAt(sh, dispatch, m, k - 1);
      var c := Effects(before[..k - 1], m).value;
      assert before[..k] == before[..k - 1] + [before[k - 1]];
      assert IsStraight(before[k - 1]);
      EffectsAppend(before[..k - 1], [before[k - 1]], m);
      OneEffect(before[k - 1], c);
      SpKept(before[k - 1], c);
    }
  }

  // ----- the table -----

  /** For byte `t` of the code a decoder that counts pcs in units of `q` bytes gets
      entry SP minus current SP. */
  ghost predicate UnwindRight(code: seq<Byte>, q: nat, t: nat, entrySP: int, c: Machine)
    requires MachineOk(c)
  {
    |code| >= 4 && PcValue(EncodeFrom(Entries(|code|), -1, 0), 0, -1, t, q) == Value(entrySP - c.sp)
  }

  /** The delta the bytes of instruction `k` get from a decoder counting in bytes, and
      from one counting in words. */
  lemma TableAt(n: nat, k: nat, t: nat)
    requires 16 <= n < 0x100_0000 && k < n + 4 && 4 * k <= t < 4 * k + 4
    ensures var table := EncodeFrom(Entries(4 * (n + 4)), -1, 0);
            && PcValue(table, 0, -1, t, 1) == Value(SpDelta(n, k))
            && PcValue(table, 0, -1, t, PC_QUANTUM) == Value(if t < 48 then 0 else JIT_FRAME_SIZE)
  {
    var len := 4 * (n + 4);
    var es := Entries(len);
    var scaled := Scaled(es, PC_QUANTUM);
    assert TableWf(es) && Distinct(es);
    assert scaled == [Entry(48, 0), Entry(4 * len - 16, JIT_FRAME_SIZE), Entry(4 * len, 0)];
    assert TableWf(scaled);
    hide PcValue, EncodeFrom;
    DeltaAtIs(es, if k < 3 then 0 else if k <= n + 2 then 1 else 2, t);
    TableRoundTrip(es, t);
    DecodeFrom(es, -1, 0, t, PC_QUANTUM);
    DeltaAtIs(scaled, if t < 48 then 0 else 1, t);
  }

  /** The same against a machine. */
  lemma RightIff(code: seq<Byte>, n: nat, k: nat, t: nat, entrySP: int, c: Machine)
    requires 16 <= n < 0x100_0000 && |code| == 4 * (n + 4) && k < n + 4 && 4 * k <= t < 4 * k + 4
    requires MachineOk(c) && c.sp == entrySP - SpDelta(n, k)
    ensures UnwindRight(code, 1, t, entrySP, c)
    ensures UnwindRight(code, PC_QUANTUM, t, entrySP, c) <==> k < 3 || (12 <= k < n + 3)
  {
    hide PcValue, EncodeFrom, Entries;
    TableAt(n, k, t);
  }

  lemma CodeLength(sh: StubShape, dispatch: nat)
    requires StubOk(sh, dispatch)
    ensures |EncodeAll(Stub(sh, dispatch))| == 4 * (CallAt(sh, dispatch) + 4) && 27 <= CallAt(sh, dispatch) <= 91
  {
    WordAt(Stub(sh, dispatch), 0);
    StubIs(sh, dispatch);
    BeforeLength(sh, dispatch);
  }

  lemma BeforeLength(sh: StubShape, dispatch: nat)
    requires StubOk(sh, dispatch)
    ensures 27 <= |Before(sh, dispatch)| <= 91
  {
    ShiftOk(15);
    ClearsCount(sh, sh.retWords);
  }

  lemma {:induction false} ClearsCount(sh: StubShape, n: nat)
    ensures |Clears(sh, n)| <= n
  {
    if n != 0 { ClearsCount(sh, n - 1); }
  }

  // ----- where unwinding is right -----

  /** `k` instructions after entry, with the BLR not yet executed, the table read in
      bytes gives the machine's own delta, and read in words, as it is, does so iff the
      instruction about to run is one of the first three or the thirteenth or later. */
  lemma UnwindRightIff(sh: StubShape, dispatch: nat, text: int, m: Machine, k: nat, t: nat)
    requires StubOk(sh, dispatch) && CallerOk(sh, m) && k <= CallAt(sh, dispatch) && 4 * k <= t < 4 * k + 4
    ensures var code := EncodeAll(Stub(sh, dispatch));
            var c := Run(code, text, Cpu(m, text), k);
            && c.Some? && c.value.ip == text + 4 * k
            && UnwindRight(code, 1, t, m.sp, c.value.m)
            && (UnwindRight(code, PC_QUANTUM, t, m.sp, c.value.m) <==> k < 3 || 12 <= k)
  {
    hide *;
    CallerIsOk(sh, m);
    StubIs(sh, dispatch);
    RunTo(sh, dispatch, text, m, k);
    SpAt(sh, dispatch, m, k);
    CodeLength(sh, dispatch);
    RightIff(EncodeAll(Stub(sh, dispatch)), CallAt(sh, dispatch), k, t, m.sp, Effects(Before(sh, dispatch)[..k], m).value);
  }

  /** So whatever the shape, right after the frame is opened it is wrong. */
  lemma WrongOnceOpened(sh: StubShape, dispatch: nat, text: int, m: Machine)
    requires StubOk(sh, dispatch) && CallerOk(sh, m)
    ensures var code := EncodeAll(Stub(sh, dispatch));
            var c := Run(code, text, Cpu(m, text), 3);
            c.Some? && c.value.ip == text + 12 && !UnwindRight(code, PC_QUANTUM, 12, m.sp, c.value.m)
  {
    hide EncodeAll, Stub, Run, UnwindRight, CallerOk, StubOk;
    CodeLength(sh, dispatch);
    UnwindRightIff(sh, dispatch, text, m, 3, 12);
  }

  /** It is right while dispatch runs, for the BLR and the word it returns to. */
  lemma UnwindRightInDispatch(sh: StubShape, dispatch: nat, m: Machine, d: Machine, ret: int, t: nat)
    requires StubOk(sh, dispatch) && CallerOk(sh, m) && MachineOk(d) && InDispatch(sh, m, d, ret)
    requires 4 * CallAt(sh, dispatch) <= t < 4 * CallAt(sh, dispatch) + 8
    ensures UnwindRight(EncodeAll(Stub(sh, dispatch)), PC_QUANTUM, t, m.sp, d)
  {
    hide EncodeAll, Stub, UnwindRight, CallerOk, StubOk;
    CodeLength(sh, dispatch);
    var n := CallAt(sh, dispatch);
    RightIff(EncodeAll(Stub(sh, dispatch)), n, if t < 4 * n + 4 then n else n + 1, t, m.sp, d);
  }

  /** And after the callee has returned, up to the RET but not at it. */
  lemma UnwindRightReturning(sh: StubShape, dispatch: nat, text: int, m: Machine, e: Machine, k: nat, t: nat)
    requires StubOk(sh, dispatch) && CallerOk(sh, m) && MachineOk(e) && CalleeReturned(m, e) && k < 3
    requires 4 * (CallAt(sh, dispatch) + 1 + k) <= t < 4 * (CallAt(sh, dispatch) + 2 + k)
    ensures var code := EncodeAll(Stub(sh, dispatch));
            var c := Run(code, text, Cpu(e, text + 4 * (CallAt(sh, dispatch) + 1)), k);
            && c.Some? && c.value.ip == text + 4 * (CallAt(sh, dispatch) + 1 + k)
            && UnwindRight(code, 1, t, m.sp, c.value.m)
            && (UnwindRight(code, PC_QUANTUM, t, m.sp, c.value.m) <==> k < 2)
  {
    hide *;
    CallerIsOk(sh, m);
    CodeLength(sh, dispatch);
    StubIs(sh, dispatch);
    StubOkAll(sh, dispatch);
    var n, prog := CallAt(sh, dispatch), Stub(sh, dispatch);
    var two := [Ldp(FP, LR, SP, -8), AddImm(SP, SP, JIT_FRAME_SIZE)];
    assert prog[n + 1..n + 1 + k] == two[..k];
    ReturnSteps(m, e, k);
    assert forall j :: n + 1 <= j < n + 1 + k ==> prog[j] == two[j - n - 1];
    RunStraight(prog, text, n + 1, k, e);
    ReturnDeltas(n, k);
    RightIff(EncodeAll(prog), n, n + 1 + k, t, m.sp, Effects(two[..k], e).value);
  }

  lemma ReturnDeltas(n: nat, k: nat)
    requires k < 3 && 2 <= n
    ensures SpDelta(n, n + 1 + k) == if k < 2 then JIT_FRAME_SIZE else 0
  {
  }

  lemma ReturnEffects(m: Machine, e: Machine)
    requires MachineOk(m) && MachineOk(e) && CalleeReturned(m, e) && JIT_FRAME_SIZE + 8 <= m.sp < W64 - 8
    ensures var e1 := Reloaded(m, e);
            && e.sp == m.sp - JIT_FRAME_SIZE && e1.sp == e.sp
            && Effect(Ldp(FP, LR, SP, -8), e) == Some(e1)
            && Effect(AddImm(SP, SP, JIT_FRAME_SIZE), e1) == Some(e1.(sp := m.sp))
  {
  }

  lemma ReturnSteps(m: Machine, e: Machine, k: nat)
    requires MachineOk(m) && MachineOk(e) && CalleeReturned(m, e) && JIT_FRAME_SIZE + 8 <= m.sp < W64 - 8 && k < 3
    ensures var two := [Ldp(FP, LR, SP, -8), AddImm(SP, SP, JIT_FRAME_SIZE)];
            && (forall j :: 0 <= j < 2 ==> IsStraight(two[j]))
            && Effects(two[..k], e).Some? && Effects(two[..k], e).value.sp == m.sp - if k < 2 then JIT_FRAME_SIZE else 0
  {
    hide Effect, Effects, Reloaded, CalleeReturned;
    ReturnEffects(m, e);
    var two := [Ldp(FP, LR, SP, -8), AddImm(SP, SP, JIT_FRAME_SIZE)];
    assert two[..0] == [] && two[..1] == [two[0]] && two[..2] == [two[0]] + [two[1]];
    NoEffects(e);
    OneEffect(two[0], e);
    OneEffect(two[1], Reloaded(m, e));
    EffectsAppend([two[0]], [two[1]], e);
  }
}
