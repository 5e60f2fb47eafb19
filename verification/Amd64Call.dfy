/** The whole call on amd64: machine code in, machine code out, and dispatch between. */
module Amd64Call {
  import opened Wrappers
  import opened Bits
  import opened LittleEndian
  import opened StackArea
  import opened Precise
  import opened AbiAssign
  import opened AbiLayout
  import opened Frames
  import opened Values
  import opened Results
  import opened Dispatch
  import opened FastPath
  import opened Entry
  import opened ProxiedCall
  import opened DispatchLayout
  import opened Amd64Dispatch
  import Asm = Amd64Asm
  import Cpu = Amd64Cpu
  import Stub = Amd64Stub
  import Amd64Run

  // ----- the machine as a frame -----

  function IntRegs(m: Cpu.Machine): (r: seq<Word8>)
    requires Cpu.MachineOk(m)
    ensures |r| == 9
  {
    seq(9, k requires 0 <= k < 9 => WordBytes(m.regs[INT_REGS[k]]))
  }

  /** A caller's registers and stack area; the machine has no float registers, which no
      instruction of the trampoline names. */
  function MachineFrame(m: Cpu.Machine, floats: seq<Word8>, base: int): (f: Frame)
    requires Cpu.MachineOk(m) && INT_ARG_REGS == 9 && |floats| == FLOAT_ARG_REGS
    ensures FrameOk(f)
  {
    Frame(IntRegs(m), seq(INT_ARG_REGS, _ => ZERO_WORD), floats, seq(STACK_WORDS, _ => ZERO_WORD), Area(m.mem, base))
  }

  // ----- into dispatch -----

  /** Parameter `i` of dispatch, as its compiled code reads it. */
  function Param64(d: Cpu.Machine, i: nat): int
    requires i < PARAMS && Readable(d, ParamHome(i))
  {
    ReadAt(d, ParamHome(i))
  }

  ghost predicate Entered(sh: StubShape, dispatch: nat, text: int, m: Cpu.Machine, d: Cpu.Machine)
    requires Cpu.MachineOk(m)
  {
    Cpu.Run(Asm.EncodeAll(Stub.Stub(sh, dispatch)), text, Cpu.Cpu(m, text), Amd64Run.CallAt(sh, dispatch) + 1)
    == Some(Cpu.Cpu(d, dispatch))
  }

  ghost predicate ReadsWord(d: Cpu.Machine, k: nat, w: Word8)
    requires INT_ARG_REGS == 9 && k < 9
  {
    Readable(d, ParamHome(k + 1)) && w == WordBytes(Param64(d, k + 1))
  }

  /** The integer parameters after the index, and the area the last one points at. */
  ghost predicate Reads(d: Cpu.Machine, ints: seq<Word8>, base: int)
    requires INT_ARG_REGS == 9
  {
    && |ints| == 9
    && (forall k :: 0 <= k < 9 ==> ReadsWord(d, k, ints[k]))
    && Readable(d, ParamHome(PARAMS - 1)) && base == Param64(d, PARAMS - 1)
  }

  lemma ReadsRegisters(sh: StubShape, dispatch: nat, text: int, m: Cpu.Machine, d: Cpu.Machine)
    requires INT_ARG_REGS == 9 && Stub.StubOk(sh, dispatch) && Amd64Run.CallerOk(sh, m) && Entered(sh, dispatch, text, m, d)
    ensures Reads(d, IntRegs(m), m.regs[Asm.RSP] + 8)
  {
    hide Cpu.Run, Asm.EncodeAll, Stub.Stub, Stub.StubOk, Amd64Run.CallerOk, PlanOf, PlanAt, StepsForValue, Params, LowBytes;
    Amd64Run.CallerIsOk(sh, m);
    forall k | 0 <= k < 9 ensures ReadsWord(d, k, IntRegs(m)[k]) {
      ParamAt(k + 1);
      DispatchReads(sh, dispatch, text, m, k + 1);
    }
    ParamAt(PARAMS - 1);
    DispatchReads(sh, dispatch, text, m, PARAMS - 1);
    assert Readable(d, ParamHome(PARAMS - 1)) && Param64(d, PARAMS - 1) == m.regs[Asm.RSP] + 8;
  }

  /** The trampoline leaves the argument words of the caller's area alone. */
  lemma ArgsKept(sh: StubShape, m: Cpu.Machine, d: Cpu.Machine, ret: int, n: nat)
    requires Cpu.MachineOk(m) && Amd64Run.InDispatch(sh, m, d, ret) && n <= STACK_WINDOW && n <= 8 * sh.argWords
    ensures Area(m.mem, m.regs[Asm.RSP] + 8)[0..n] == Area(d.mem, m.regs[Asm.RSP] + 8)[0..n]
  {
    hide Area;
    var base := m.regs[Asm.RSP] + 8;
    forall w: nat | w < sh.argWords ensures SameWord(m.mem, d.mem, WordAddr(base, w)) {
      assert !Cleared(sh, base, sh.retWords, WordAddr(base, w));
    }
    AreaKept(m.mem, d.mem, base, sh.argWords, n);
  }

  // ----- and back -----

  /** Dispatch has returned to the trampoline: its frame kept, result k in the register of
      its number, the stack results in the caller's area. */
  ghost predicate DispatchLeft(l: Layout, m: Cpu.Machine, e: Cpu.Machine, g: Frame)
    requires Cpu.MachineOk(m)
  {
    && Cpu.MachineOk(e) && Amd64Run.CalleeReturned(m, e) && FrameOk(g) && IntRegs(e) == g.ints
    && l.retOffset <= l.stackBytes <= STACK_WINDOW
    && Area(e.mem, m.regs[Asm.RSP] + 8)[l.retOffset..l.stackBytes] == g.stack[l.retOffset..l.stackBytes]
  }

  /** What the caller has then. */
  function After(m: Cpu.Machine, e: Cpu.Machine, g: Frame): (f: Frame)
    requires Cpu.MachineOk(m) && Cpu.MachineOk(e) && FrameOk(g) && INT_ARG_REGS == 9
    ensures FrameOk(f)
  {
    MachineFrame(Amd64Run.Popped3(m, e), g.floats, m.regs[Asm.RSP] + 8)
  }

  lemma CallerSeesIt(c: Call, sh: StubShape, dispatch: nat, text: int, m: Cpu.Machine, floats: seq<Word8>,
                     d: Cpu.Machine, s: Inv, e: Cpu.Machine, g: Frame)
    requires CallOk(c) && INT_ARG_REGS == 9 && |floats| == FLOAT_ARG_REGS && Stub.StubOk(sh, dispatch) && Amd64Run.CallerOk(sh, m)
    requires c.layout.retOffset <= 8 * sh.argWords && Entered(sh, dispatch, text, m, d)
    requires Arrived(c.layout, IntRegs(m), floats, Area(d.mem, m.regs[Asm.RSP] + 8), s.regs) && DispatchLeft(c.layout, m, e, g)
    ensures var base := m.regs[Asm.RSP] + 8;
            CallerSees(c, MachineFrame(m, floats, base), Area(d.mem, base), s, g, Area(e.mem, base), After(m, e, g))
  {
    hide Cpu.Run, Asm.EncodeAll, Stub.Stub, Stub.StubOk, PlanOf, PlanAt, StepsForValue, Amd64Run.InDispatch, Area, GatherOk, MaskOk, SlotPtrs, LowBytes, Arrived;
    Amd64Run.StubIs(sh, dispatch);
    LayoutBounds(c.sig, c.layout);
    Amd64Run.ReachesDispatch(sh, dispatch, text, m);
    ArgsKept(sh, m, d, text + Asm.Offset(Stub.Stub(sh, dispatch), Amd64Run.CallAt(sh, dispatch) + 1), c.layout.stackCallArgsSize);
    SameAfter(m, e);
  }

  lemma SameAfter(m: Cpu.Machine, e: Cpu.Machine)
    requires Cpu.MachineOk(m) && Cpu.MachineOk(e)
    ensures var p := Amd64Run.Popped3(m, e); IntRegs(p) == IntRegs(e) && p.mem == e.mem
  {
    hide LowBytes;
  }

  /** Dispatch from its entry in `d` to its return in `e`: the invocation starts from what
      its parameters are, the target does what it is asked to, and `g` is what is left. */
  ghost predicate Served(c: Call, recv: Word8, runs: (Frame, Frame) -> bool, m: Cpu.Machine, floats: seq<Word8>,
                         d: Cpu.Machine, s: Inv, left: Op, rets: seq<seq<Byte>>, g: Frame, e: Cpu.Machine)
    requires CallOk(c) && Cpu.MachineOk(m) && INT_ARG_REGS == 9 && left.Proceed? && OpOk(left)
  {
    && InvOk(c, s) && Fresh(s)
    && (forall ints, base :: Reads(d, ints, base) ==> Arrived(c.layout, ints, floats, Area(d.mem, base), s.regs))
    && var n := Dispatch.Next(c, s, left);
       Answered(c, recv, runs, n.0.regs, n.1, rets) && LeftBy(c, n.0.regs, n.1, rets, g) && DispatchLeft(c.layout, m, e, g)
  }

  /** A method of a proxy without interceptors called on amd64. From the caller's `m` the
      trampoline's bytes enter dispatch, which reads the caller's registers and stack
      arguments; what dispatch leaves in `e` the bytes after the CALL return to the caller,
      with its stack and frame pointers. Result `i`, as the caller then finds it, is what
      the target's function gives for the arguments it passed iff the call went by
      registers or the result is one stored plain. */
  lemma ProxiedCallReturns(c: Call, recv: Word8, runs: (Frame, Frame) -> bool, fn: seq<seq<Byte>> -> seq<seq<Byte>>,
                           vs: seq<seq<Byte>>, sh: StubShape, dispatch: nat, text: int, m: Cpu.Machine, floats: seq<Word8>,
                           d: Cpu.Machine, s: Inv, left: Op, rets: seq<seq<Byte>>, g: Frame, e: Cpu.Machine, i: nat)
    requires CallOk(c) && c.links == 0 && !c.target.NoTarget? && (c.target.ByCode? ==> c.target.data == recv)
    requires INT_ARG_REGS == 9 && |floats| == FLOAT_ARG_REGS && Stub.StubOk(sh, dispatch) && Amd64Run.CallerOk(sh, m)
    requires c.layout.retOffset <= 8 * sh.argWords && i < |c.sig.outs| && left.Proceed? && OpOk(left)
    requires Implements(c, recv, runs, fn) && HoldsArgs(c, MachineFrame(m, floats, m.regs[Asm.RSP] + 8), vs)
    requires (c.target.ByCode? && c.layout.stackBytes == 0) || AllRebuild(c, vs)
    requires Entered(sh, dispatch, text, m, d) && Served(c, recv, runs, m, floats, d, s, left, rets, g, e)
    ensures m.regs[Asm.RSP] in m.mem
    ensures Cpu.Run(Asm.EncodeAll(Stub.Stub(sh, dispatch)), text,
                    Cpu.Cpu(e, text + Asm.Offset(Stub.Stub(sh, dispatch), Amd64Run.CallAt(sh, dispatch) + 1)), 3)
            == Some(Cpu.Cpu(Amd64Run.Popped3(m, e), m.mem[m.regs[Asm.RSP]]))
    ensures ValuesOf(c.sig.outs, fn(vs))
    ensures SameData(c.sig.outs[i], Found(c, After(m, e, g), i), fn(vs)[i]) <==>
            (c.target.ByCode? && c.layout.stackBytes == 0) || StoredPlain(c.env, c.sig.outs[i], fn(vs)[i], StepsForValue(c.layout.ret, i))
  {
    hide Cpu.Run, Asm.EncodeAll, Stub.Stub, Stub.StubOk, Amd64Run.CallerOk, Reads, Arrived, Implements, HoldsArgs, AllRebuild, Answered, LeftBy, Dispatch.Next;
    hide SameData, Found, StoredPlain, StepsForValue, MachineFrame, Area, CallerSees, FitsWindow, Amd64Run.CalleeReturned, Amd64Run.Popped3;
    Amd64Run.CallerIsOk(sh, m);
    var base := m.regs[Asm.RSP] + 8;
    ReadsRegisters(sh, dispatch, text, m, d);
    assert Arrived(c.layout, IntRegs(m), floats, Area(d.mem, base), s.regs);
    CallerSeesIt(c, sh, dispatch, text, m, floats, d, s, e, g);
    Amd64Run.ReturnsToCaller(sh, dispatch, text, m, e);
    ProxyIsTransparent(c, recv, runs, fn, vs, MachineFrame(m, floats, base), Area(d.mem, base), s, left, rets, g, Area(e.mem, base), After(m, e, g), i);
  }
}
