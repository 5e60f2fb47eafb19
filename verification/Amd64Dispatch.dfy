/** The amd64 trampoline leaves every argument where the compiled dispatch function
    looks for it. */
module Amd64Dispatch {
  import opened Precise
  import opened StackArea
  import opened AbiAssign
  import opened AbiLayout
  import opened DispatchLayout
  import Asm = Amd64Asm
  import Cpu = Amd64Cpu
  import Stub = Amd64Stub
  import Amd64Run

  /** The integer registers in the order of the layout rules. */
  const INT_REGS: seq<Asm.Reg> :=
    [Asm.RAX, Asm.RBX, Asm.RCX, Asm.RDI, Asm.RSI, Asm.R8, Asm.R9, Asm.R10, Asm.R11]

  predicate Readable(d: Cpu.Machine, st: Step) {
    && Cpu.MachineOk(d)
    && match st.kind
       case StepStack => d.regs[Asm.RSP] + 8 + st.stkOff in d.mem
       case StepFloatReg => false
       case _ => st.ireg < |INT_REGS|
  }

  /** A function entered with its return address on top of the stack finds a stack
      argument above it. */
  function ReadAt(d: Cpu.Machine, st: Step): int
    requires Readable(d, st)
  {
    if st.kind.StepStack? then d.mem[d.regs[Asm.RSP] + 8 + st.stkOff] else d.regs[INT_REGS[st.ireg]]
  }

  /** At its entry dispatch reads each integer parameter in its place. */
  lemma ReadsParam(sh: StubShape, m: Cpu.Machine, d: Cpu.Machine, ret: int, i: nat)
    requires INT_ARG_REGS == 9 && Cpu.MachineOk(m) && Amd64Run.InDispatch(sh, m, d, ret) && i < PARAMS && !Param(i).Float?
    ensures Readable(d, ParamHome(i))
    ensures ReadAt(d, ParamHome(i)) == if i == 0 then sh.index else if i < 10 then m.regs[INT_REGS[i - 1]] else m.regs[Asm.RSP] + 8
  {
    hide Cleared;
  }

  /** From any entry state, dispatch reads at the place of each parameter what the
      parameter stands for: the method's index, the caller's nine integer registers in
      order, the address of the caller's stack area. */
  lemma DispatchReads(sh: StubShape, dispatch: nat, text: int, m: Cpu.Machine, i: nat)
    requires INT_ARG_REGS == 9 && Stub.StubOk(sh, dispatch) && Amd64Run.CallerOk(sh, m)
    requires i < PARAMS && !Param(i).Float?
    ensures AllWf(Params()) && PlanOk(PlanOf(0, Params())) && i < |PlanOf(0, Params()).valueStart|
    ensures var r := Cpu.Run(Asm.EncodeAll(Stub.Stub(sh, dispatch)), text, Cpu.Cpu(m, text), Amd64Run.CallAt(sh, dispatch) + 1);
            var at := StepsForValue(PlanOf(0, Params()), i);
            && r.Some? && r.value.ip == dispatch && |at| == 1 && Readable(r.value.m, at[0])
            && ReadAt(r.value.m, at[0]) ==
               if i == 0 then sh.index else if i < 10 then m.regs[INT_REGS[i - 1]] else m.regs[Asm.RSP] + 8
  {
    hide StepsForValue, PlanAt, PlanOf, Cpu.Run, Asm.EncodeAll, Stub.Stub, Params, AllWf, PlanOk, Stub.StubOk;
    hide Amd64Run.InDispatch, Amd64Run.CallerOk, Readable, ReadAt;
    ParamAt(i);
    Amd64Run.CallerIsOk(sh, m);
    Amd64Run.StubIs(sh, dispatch);
    Amd64Run.ReachesDispatch(sh, dispatch, text, m);
    var d := Cpu.Run(Asm.EncodeAll(Stub.Stub(sh, dispatch)), text, Cpu.Cpu(m, text), Amd64Run.CallAt(sh, dispatch) + 1).value.m;
    ReadsParam(sh, m, d, text + Asm.Offset(Stub.Stub(sh, dispatch), Amd64Run.CallAt(sh, dispatch) + 1), i);
  }

  /** The frame is exactly what calling dispatch takes. */
  lemma FrameFits()
    requires INT_ARG_REGS == 9 && FLOAT_ARG_REGS == 15
    ensures Stub.JIT_FRAME_SIZE == FrameNeeded()
  {
    FrameNeededIs();
  }
}
