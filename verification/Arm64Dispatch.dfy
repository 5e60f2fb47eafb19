/** The arm64 trampoline leaves every argument where the compiled dispatch function
    looks for it. */
module Arm64Dispatch {
  import opened Precise
  import opened StackArea
  import opened AbiAssign
  import opened AbiLayout
  import opened DispatchLayout
  import Cpu = Arm64Cpu
  import Stub = Arm64Stub
  import Arm64Run

  predicate Readable(d: Cpu.Machine, st: Step) {
    && Cpu.MachineOk(d)
    && match st.kind
       case StepStack => d.sp + 8 + st.stkOff in d.mem
       case StepFloatReg => false
       case _ => st.ireg < 16
  }

  /** Integer registers are R0 to R15; stack arguments lie above the word at SP, which
      is the caller's for its saved LR. */
  function ReadAt(d: Cpu.Machine, st: Step): int
    requires Readable(d, st)
  {
    if st.kind.StepStack? then d.mem[d.sp + 8 + st.stkOff] else d.x[st.ireg]
  }

  /** At its entry dispatch reads each integer parameter in its place. */
  lemma ReadsParam(sh: StubShape, m: Cpu.Machine, d: Cpu.Machine, ret: int, i: nat)
    requires INT_ARG_REGS == 16 && Cpu.MachineOk(m) && Arm64Run.InDispatch(sh, m, d, ret) && i < PARAMS && !Param(i).Float?
    ensures Readable(d, ParamHome(i))
    ensures ReadAt(d, ParamHome(i)) == if i == 0 then sh.index else if i < 17 then m.x[i - 1] else m.sp + 8
  {
    hide Cleared;
  }

  /** As on amd64: the index, the caller's sixteen integer registers in order, the
      address of the caller's stack area. */
  lemma DispatchReads(sh: StubShape, dispatch: nat, text: int, m: Cpu.Machine, i: nat)
    requires INT_ARG_REGS == 16 && Stub.StubOk(sh, dispatch) && Arm64Run.CallerOk(sh, m)
    requires i < PARAMS && !Param(i).Float?
    ensures AllWf(Params()) && PlanOk(PlanOf(0, Params())) && i < |PlanOf(0, Params()).valueStart|
    ensures var r := Cpu.Run(Stub.EncodeAll(Stub.Stub(sh, dispatch)), text, Cpu.Cpu(m, text), Arm64Run.CallAt(sh, dispatch) + 1);
            var at := StepsForValue(PlanOf(0, Params()), i);
            && r.Some? && r.value.ip == dispatch && |at| == 1 && Readable(r.value.m, at[0])
            && ReadAt(r.value.m, at[0]) == if i == 0 then sh.index else if i < 17 then m.x[i - 1] else m.sp + 8
  {
    hide StepsForValue, PlanAt, PlanOf, Cpu.Run, Stub.EncodeAll, Stub.Stub, Params, AllWf, PlanOk, Stub.StubOk;
    hide Arm64Run.InDispatch, Arm64Run.CallerOk, Readable, ReadAt;
    ParamAt(i);
    Arm64Run.CallerIsOk(sh, m);
    Arm64Run.StubIs(sh, dispatch);
    Arm64Run.ReachesDispatch(sh, dispatch, text, m);
    var d := Cpu.Run(Stub.EncodeAll(Stub.Stub(sh, dispatch)), text, Cpu.Cpu(m, text), Arm64Run.CallAt(sh, dispatch) + 1).value.m;
    ReadsParam(sh, m, d, text + 4 * (Arm64Run.CallAt(sh, dispatch) + 1), i);
  }

  /** The frame is what calling dispatch takes and the saved LR, rounded up to 16. */
  lemma FrameFits()
    requires INT_ARG_REGS == 16 && FLOAT_ARG_REGS == 16
    ensures Stub.JIT_FRAME_SIZE % 16 == 0 && 8 + FrameNeeded() <= Stub.JIT_FRAME_SIZE < 8 + FrameNeeded() + 16
  {
    FrameNeededIs();
  }
}
