/** The register fast path against the reflective one. */
module FastPath {
  import opened Wrappers
  import opened Bits
  import opened GoTypes
  import opened AbiAssign
  import opened AbiLayout
  import opened Precise
  import opened Frames
  import opened Values
  import opened Scatter
  import opened Registers
  import opened Results
  import opened Materialize
  import opened Dispatch

  /** The frame passes exactly these arguments. */
  ghost predicate HoldsArgs(c: Call, f: Frame, vs: seq<seq<Byte>>)
    requires CallOk(c) && FrameOk(f)
  {
    ValuesOf(c.sig.ins, vs) && forall i :: 0 <= i < |vs| ==> HoldsArg(c, f, i, vs[i])
  }

  ghost predicate HoldsArg(c: Call, f: Frame, i: nat, v: seq<Byte>)
    requires CallOk(c) && FrameOk(f) && i < |c.sig.ins|
  {
    ArgSteps(c.sig, c.layout, i);
    Encodes(f, StepsForValue(c.layout.call, i + 1), v)
  }

  /** The frame returns exactly these results. */
  ghost predicate HoldsResults(c: Call, f: Frame, rs: seq<seq<Byte>>)
    requires CallOk(c) && FrameOk(f)
  {
    ValuesOf(c.sig.outs, rs) && forall i :: 0 <= i < |rs| ==> HoldsResult(c, f, i, rs[i])
  }

  ghost predicate HoldsResult(c: Call, f: Frame, i: nat, r: seq<Byte>)
    requires CallOk(c) && FrameOk(f) && i < |c.sig.outs|
  {
    RetSteps(c, i);
    Encodes(f, StepsForValue(c.layout.ret, i), r)
  }

  lemma RetSteps(c: Call, i: nat)
    requires CallOk(c) && i < |c.sig.outs|
    ensures PlanOf(c.layout.retOffset, c.sig.outs).cur.stackBytes <= STACK_WINDOW
    ensures StepsOf(PlanAt(c.layout.retOffset, c.sig.outs, i).cur, c.sig.outs[i], StepsForValue(c.layout.ret, i))
  {
    hide PlanAt, PlanOf, StepsForValue, Emit, StepsOk, GatherOk, MaskOk, SlotPtrs;
    LayoutBounds(c.sig, c.layout);
    ValueStepsOf(c.layout.retOffset, c.sig.outs, i);
  }

  /** `runs(b, a)`: the target's code, entered with registers `b`, may leave `a`. It
      implements `fn` if whatever it is passed it returns what `fn` gives. */
  ghost predicate Implements(c: Call, recv: Word8, runs: (Frame, Frame) -> bool, fn: seq<seq<Byte>> -> seq<seq<Byte>>)
    requires CallOk(c)
  {
    forall b, a, vs :: runs(b, a) && FrameOk(b) && FrameOk(a) && b.ints[0] == recv && HoldsArgs(c, b, vs) ==> HoldsResults(c, a, fn(vs))
  }

  // ----- what a call without a stack area moves -----

  lemma NoStackArg(c: Call, i: nat)
    requires CallOk(c) && c.layout.stackBytes == 0 && i < |c.sig.ins|
    ensures !OnStack(StepsForValue(c.layout.call, i + 1))
  {
    hide PlanAt, PlanOf, StepsForValue, Emit, StepsOk, GatherOk, MaskOk, SlotPtrs;
    ArgSteps(c.sig, c.layout, i);
    LayoutBounds(c.sig, c.layout);
    SlotPlace(0, CallTypes(c.sig), i + 1);
    EmitForms(PlanAt(0, CallTypes(c.sig), i + 1).cur, c.sig.ins[i]);
  }

  lemma NoStackResult(c: Call, i: nat)
    requires CallOk(c) && c.layout.stackBytes == 0 && i < |c.sig.outs|
    ensures !OnStack(StepsForValue(c.layout.ret, i))
  {
    hide PlanAt, PlanOf, StepsForValue, Emit, StepsOk, GatherOk, MaskOk, SlotPtrs;
    RetSteps(c, i);
    LayoutBounds(c.sig, c.layout);
    SlotPlace(c.layout.retOffset, c.sig.outs, i);
    EmitForms(PlanAt(c.layout.retOffset, c.sig.outs, i).cur, c.sig.outs[i]);
  }

  /** Of two values with the same data, registers hold both or neither. */
  lemma EncodesSame(c: Cursor, t: GoType, f: Frame, w: seq<Byte>, v: seq<Byte>)
    requires Wf(t) && FrameOk(f) && StepsOk(Emit(c, t)) && !OnStack(Emit(c, t))
    requires |w| == |v| == Size(t) && SameData(t, w, v) && Encodes(f, Emit(c, t), w)
    ensures Encodes(f, Emit(c, t), v)
  {
    hide Emit, StepsOk, IsData, Size, Wf, Frames.Read;
    var steps := Emit(c, t);
    StepsOkEach(steps);
    forall k | 0 <= k < |steps| ensures StepFits(steps[k], |v|) && Holds(f, steps[k], v) {
      var st := steps[k];
      assert StepFits(st, |w|) && Holds(f, st, w);
      forall rel | st.offset <= rel < st.offset + st.size ensures w[rel] == v[rel] { StepMovesData(c, t, k, rel); }
      assert w[st.offset..st.offset + st.size] == v[st.offset..st.offset + st.size];
    }
  }

  /** Values one frame holds along the same steps have the same data. */
  lemma HeldSame(c: Cursor, t: GoType, f: Frame, w: seq<Byte>, v: seq<Byte>)
    requires Wf(t) && FrameOk(f) && StepsOk(Emit(c, t)) && |w| == |v| == Size(t)
    requires Encodes(f, Emit(c, t), w) && Encodes(f, Emit(c, t), v)
    ensures SameData(t, w, v)
  {
    hide Emit, StepsOk, Bytes, SameData, Wf, Size;
    StepsOkEach(Emit(c, t));
    BytesOf(c, t, f, w);
    BytesOf(c, t, f, v);
    SameTrans(t, Bytes(f, Emit(c, t), Size(t)), w, v);
  }

  // ----- the fast path hands over the original arguments -----

  /** A replayed frame passes what the call arrived with, to the target. */
  lemma ReplayPasses(c: Call, f0: Frame, s: Inv, data: Word8, vs: seq<seq<Byte>>)
    requires CallOk(c) && FrameOk(f0) && InvOk(c, s) && ArgRegs(s) == f0 && s.regs.stack == f0.stack
    requires HoldsArgs(c, f0, vs)
    ensures HoldsArgs(c, Replayed(s, data), vs) && Replayed(s, data).ints[0] == data
  {
    hide GatherOk, MaskOk, SlotPtrs, StepsForValue, PlanAt, PlanOf, StepsOk, Emit;
    var g := Replayed(s, data);
    forall i | 0 <= i < |vs| ensures HoldsArg(c, g, i, vs[i]) {
      assert HoldsArg(c, f0, i, vs[i]);
      ArgSteps(c.sig, c.layout, i);
      var steps := StepsForValue(c.layout.call, i + 1);
      forall k | 0 <= k < |steps| ensures StepFits(steps[k], |vs[i]|) && Holds(g, steps[k], vs[i]) {
        assert Holds(f0, steps[k], vs[i]);
        ArgAvoidsReceiver(c.sig, c.layout, i, k);
      }
    }
  }

  /** Reading leaves every argument alone. */
  ghost predicate AllRebuild(c: Call, vs: seq<seq<Byte>>)
    requires CallOk(c) && ValuesOf(c.sig.ins, vs)
  {
    forall i :: 0 <= i < |vs| ==> Rebuilds(c.env, c.sig.ins[i], vs[i])
  }

  /** Argument `i` is read as it is passed. */
  ghost predicate ReadPlain(c: Call, f: Frame, i: nat)
    requires CallOk(c) && FrameOk(f) && i < |c.sig.ins|
  {
    ArgAt(c.env, f, c.sig, c.layout, i) == Some(Passed(c, f, i))
  }

  lemma PlainIff(c: Call, f: Frame, i: nat, v: seq<Byte>)
    requires CallOk(c) && FrameOk(f) && i < |c.sig.ins| && Legal(c.sig.ins[i], v) && HoldsArg(c, f, i, v)
    ensures ReadPlain(c, f, i) <==> Rebuilds(c.env, c.sig.ins[i], v)
  {
    hide GatherOk, MaskOk, SlotPtrs, StepsForValue, PlanAt, PlanOf, StepsOk, Emit, Encodes, Reboxed;
    ArgSteps(c.sig, c.layout, i);
    var t, cur, steps := c.sig.ins[i], PlanAt(0, CallTypes(c.sig), i + 1).cur, StepsForValue(c.layout.call, i + 1);
    if t.Iface? { IfaceDecodes(c.env, cur, t, v, f); }
  }

  /** For a call that holds values of its types: the invocation cannot be told from the
      plain machine iff every interface among them is nil or has methods and the
      runtime's own itab. */
  lemma PlainArgsIff(c: Call, f: Frame, vs: seq<seq<Byte>>)
    requires CallOk(c) && FrameOk(f) && HoldsArgs(c, f, vs)
    ensures ArgsPlain(c, f) <==> AllRebuild(c, vs)
  {
    hide FitsWindow, ArgAt, Passed, Rebuilds, HoldsArg;
    forall i | 0 <= i < |vs| ensures ReadPlain(c, f, i) <==> Rebuilds(c.env, c.sig.ins[i], vs[i]) {
      assert HoldsArg(c, f, i, vs[i]);
      PlainIff(c, f, i, vs[i]);
    }
    if ArgsPlain(c, f) {
      forall i | 0 <= i < |vs| ensures ReadPlain(c, f, i) { assert ReadArgs(c, f)[i] == AllArgs(c, f)[i]; }
    }
    if AllRebuild(c, vs) {
      forall i | 0 <= i < |vs| ensures ArgAt(c.env, f, c.sig, c.layout, i) == Some(Passed(c, f, i)) {
        assert ReadPlain(c, f, i);
      }
      assert ReadArgs(c, f) == AllArgs(c, f);
    }
  }

  /** Values read back through reflect and passed on again are the same call. */
  lemma RereadPasses(c: Call, f0: Frame, h: Frame, vs: seq<seq<Byte>>)
    requires CallOk(c) && FrameOk(f0) && FrameOk(h) && c.layout.stackBytes == 0
    requires HoldsArgs(c, f0, vs) && AllRebuild(c, vs)
    requires Readable(c.env, f0, c.sig, c.layout) && HoldsArgs(c, h, ReadArgs(c, f0))
    ensures HoldsArgs(c, h, vs)
  {
    hide GatherOk, MaskOk, SlotPtrs, StepsForValue, PlanAt, PlanOf, StepsOk, Emit, ArgAt, Encodes, SameData, Rebuilds, FitsWindow;
    var ws := ReadArgs(c, f0);
    forall i | 0 <= i < |vs| ensures HoldsArg(c, h, i, vs[i]) {
      assert HoldsArg(c, f0, i, vs[i]) && HoldsArg(c, h, i, ws[i]);
      ArgSteps(c.sig, c.layout, i);
      ArgDecodesIff(c.env, f0, c.sig, c.layout, i, vs[i]);
      NoStackArg(c, i);
      EncodesSame(PlanAt(0, CallTypes(c.sig), i + 1).cur, c.sig.ins[i], h, ws[i], vs[i]);
    }
  }

  ghost predicate SameResult(c: Call, f: Frame, g: Frame, i: nat)
    requires CallOk(c) && FrameOk(f) && FrameOk(g) && i < |c.sig.outs|
  {
    RetSteps(c, i);
    var steps := StepsForValue(c.layout.ret, i);
    forall k :: 0 <= k < |steps| ==> SameRead(f, g, steps[k])
  }

  predicate SameRead(f: Frame, g: Frame, st: Step)
    requires FrameOk(f) && FrameOk(g) && StepOk(st)
  {
    Frames.Read(f, st) == Frames.Read(g, st)
  }

  /** The two ways to reach the target of an invocation whose arguments the frame `f0`
      passes: `fast` is left by reissuing the registers of state `s`, `back` by a call
      through reflect with the arguments read, entered with `h`. What comes back is `rets`,
      and scattering it gives `slow`. */
  ghost predicate TwoWays(c: Call, f0: Frame, s: Inv, runs: (Frame, Frame) -> bool, fast: Frame,
                          h: Frame, back: Frame, rets: seq<seq<Byte>>, slow: Frame)
    requires CallOk(c) && c.target.ByCode? && FrameOk(f0) && InvOk(c, s)
  {
    && FrameOk(fast) && runs(Replayed(s, c.target.data), fast)
    && Readable(c.env, f0, c.sig, c.layout) && FrameOk(h) && HoldsArgs(c, h, ReadArgs(c, f0)) && h.ints[0] == c.target.data
    && FrameOk(back) && runs(h, back) && HoldsResults(c, back, rets)
    && PlanOf(c.layout.retOffset, c.sig.outs).cur.stackBytes <= STACK_WINDOW
    && FrameOk(slow) && Stored(c.env, slow, c.layout.retOffset, c.sig.outs, rets, |c.sig.outs|)
  }

  /** For a method without a stack area whose target implements `fn`, after any run of an
      invocation, earlier calls by registers included: both ways return what `fn` gives for
      the original arguments, and they leave the same result registers for exactly the
      results that are stored plain. */
  lemma FastRefinesSlow(c: Call, s0: Inv, ops: seq<Op>, runs: (Frame, Frame) -> bool, fn: seq<seq<Byte>> -> seq<seq<Byte>>,
                        vs: seq<seq<Byte>>, fast: Frame, h: Frame, back: Frame, rets: seq<seq<Byte>>, slow: Frame, i: nat)
    requires CallOk(c) && c.target.ByCode? && c.layout.stackBytes == 0 && InvOk(c, s0) && Fresh(s0) && OpsOk(ops)
    requires Implements(c, c.target.data, runs, fn) && HoldsArgs(c, s0.regs, vs) && AllRebuild(c, vs)
    requires TwoWays(c, s0.regs, Run(c, s0, ops).0, runs, fast, h, back, rets, slow) && i < |c.sig.outs|
    ensures HoldsResults(c, fast, fn(vs)) && HoldsResults(c, back, fn(vs))
    ensures SameResult(c, fast, slow, i) <==> StoredPlain(c.env, c.sig.outs[i], rets[i], StepsForValue(c.layout.ret, i))
  {
    hide Run, Implements, HoldsArgs, AllRebuild, TwoWays, SameResult, StoredPlain, HoldsResults, Stored, StepsForValue, FitsWindow;
    RunKeeps(c, s0, ops);
    BothReturn(c, s0.regs, Run(c, s0, ops).0, runs, fn, vs, fast, h, back, rets, slow, i);
  }

  /** The same for a state that keeps the arguments in `f0`. */
  lemma BothReturn(c: Call, f0: Frame, s: Inv, runs: (Frame, Frame) -> bool, fn: seq<seq<Byte>> -> seq<seq<Byte>>,
                   vs: seq<seq<Byte>>, fast: Frame, h: Frame, back: Frame, rets: seq<seq<Byte>>, slow: Frame, i: nat)
    requires CallOk(c) && c.target.ByCode? && c.layout.stackBytes == 0 && FrameOk(f0) && Keeps(c, f0, s)
    requires Implements(c, c.target.data, runs, fn) && HoldsArgs(c, f0, vs) && AllRebuild(c, vs)
    requires TwoWays(c, f0, s, runs, fast, h, back, rets, slow) && i < |c.sig.outs|
    ensures HoldsResults(c, fast, fn(vs)) && HoldsResults(c, back, fn(vs))
    ensures SameResult(c, fast, slow, i) <==> StoredPlain(c.env, c.sig.outs[i], rets[i], StepsForValue(c.layout.ret, i))
  {
    hide Implements, HoldsArgs, AllRebuild, SameResult, StoredPlain, HoldsResults, Stored, StepsForValue, FitsWindow, Replayed, Readable, ReadArgs, PlanOf;
    ReplayPasses(c, f0, s, c.target.data, vs);
    RereadPasses(c, f0, h, vs);
    var rs := fn(vs);
    Returns(c, c.target.data, runs, fn, Replayed(s, c.target.data), fast, vs);
    Returns(c, c.target.data, runs, fn, h, back, vs);
    SameStoredIff(c, c.env, fast, back, slow, rs, rets, i);
  }

  lemma Returns(c: Call, recv: Word8, runs: (Frame, Frame) -> bool, fn: seq<seq<Byte>> -> seq<seq<Byte>>,
                b: Frame, a: Frame, vs: seq<seq<Byte>>)
    requires CallOk(c) && FrameOk(b) && FrameOk(a) && Implements(c, recv, runs, fn)
    requires runs(b, a) && b.ints[0] == recv && HoldsArgs(c, b, vs)
    ensures HoldsResults(c, a, fn(vs))
  {
  }

  lemma SameStoredIff(c: Call, env: Env, fast: Frame, back: Frame, slow: Frame, rs: seq<seq<Byte>>, rets: seq<seq<Byte>>, i: nat)
    requires CallOk(c) && c.layout.stackBytes == 0 && FrameOk(fast) && FrameOk(back) && FrameOk(slow)
    requires HoldsResults(c, fast, rs) && HoldsResults(c, back, rs) && HoldsResults(c, back, rets)
    requires PlanOf(c.layout.retOffset, c.sig.outs).cur.stackBytes <= STACK_WINDOW
    requires Stored(env, slow, c.layout.retOffset, c.sig.outs, rets, |c.sig.outs|) && i < |c.sig.outs|
    ensures SameResult(c, fast, slow, i) <==> StoredPlain(env, c.sig.outs[i], rets[i], StepsForValue(c.layout.ret, i))
  {
    hide GatherOk, MaskOk, SlotPtrs, StepsForValue, PlanAt, PlanOf, StepsOk, Emit, Encodes, Mirrored, SameData, Image, SameRead, StoredPlain;
    assert HoldsResult(c, fast, i, rs[i]) && HoldsResult(c, back, i, rs[i]) && HoldsResult(c, back, i, rets[i]);
    assert StoredAt(env, slow, c.layout.retOffset, c.sig.outs, rets, i);
    RetSteps(c, i);
    NoStackResult(c, i);
    var t, cur := c.sig.outs[i], PlanAt(c.layout.retOffset, c.sig.outs, i).cur;
    var steps := StepsForValue(c.layout.ret, i);
    StepsOkEach(steps);
    HeldSame(cur, t, back, rs[i], rets[i]);
    EncodesSame(cur, t, fast, rs[i], rets[i]);
    var w := Image(env, t, rets[i], steps);
    assert Legal(t, rets[i]);
    assert (forall k :: 0 <= k < |steps| ==> SameRead(fast, slow, steps[k])) <==> SameData(t, w, rets[i]) by {
      SameReadsIff(cur, t, fast, slow, rets[i], w);
    }
    ImageSame(env, t, rets[i], steps);
  }

  /** Two frames read the same along a value's steps iff what they hold has the same
      data. */
  lemma SameReadsIff(c: Cursor, t: GoType, f: Frame, g: Frame, v: seq<Byte>, w: seq<Byte>)
    requires Wf(t) && FrameOk(f) && FrameOk(g) && StepsOk(Emit(c, t)) && !OnStack(Emit(c, t)) && |w| == |v| == Size(t)
    requires Encodes(f, Emit(c, t), v) && Encodes(g, Emit(c, t), w)
    ensures (forall k :: 0 <= k < |Emit(c, t)| ==> SameRead(f, g, Emit(c, t)[k])) <==> SameData(t, w, v)
  {
    hide Emit, StepsOk, SameData, Wf, Size, Frames.Read;
    var steps := Emit(c, t);
    StepsOkEach(steps);
    if SameData(t, w, v) {
      EncodesSame(c, t, g, w, v);
      forall k | 0 <= k < |steps| ensures SameRead(f, g, steps[k]) { assert Holds(f, steps[k], v) && Holds(g, steps[k], v); }
    }
    if forall k :: 0 <= k < |steps| ==> SameRead(f, g, steps[k]) {
      forall k | 0 <= k < |steps| ensures StepFits(steps[k], |v|) && Holds(g, steps[k], v) {
        assert Holds(f, steps[k], v) && SameRead(f, g, steps[k]);
      }
      HeldSame(c, t, g, w, v);
    }
  }
}
