/** The dispatch entry: registers and stack arguments in, stack results out. */
module Entry {
  import opened Bits
  import opened GoTypes
  import opened AbiAssign
  import opened AbiLayout
  import opened Precise
  import opened Frames
  import opened Values
  import opened Registers
  import opened Results
  import opened Materialize
  import opened Dispatch
  import opened FastPath
  import opened Invocation

  /** Integer registers the layout marks as pointers, and nothing else. */
  function PrePtrs(mask: nat, ints: seq<Word8>): (r: seq<Word8>)
    ensures |r| == |ints|
  {
    seq(|ints|, i requires 0 <= i < |ints| => if Has(mask, i) then ints[i] else ZERO_WORD)
  }

  /** The registers and stack area of the caller, as a frame. */
  ghost predicate CallerFrame(f: Frame, ints: seq<Word8>, floats: seq<Word8>, area: seq<Byte>, lo: nat, hi: nat) {
    FrameOk(f) && f.ints == ints && f.floats == floats && lo <= hi <= |area| && hi <= |f.stack| && f.stack[lo..hi] == area[lo..hi]
  }

  /** What dispatch keeps of a call before the interceptors run. */
  ghost predicate Arrived(l: Layout, ints: seq<Word8>, floats: seq<Word8>, area: seq<Byte>, f: Frame) {
    && FrameOk(f) && f.ints == ints && f.floats == floats && f.ptrs == PrePtrs(l.ptrMask, ints)
    && f.stackPtrs == seq(STACK_WORDS, _ => ZERO_WORD)
    && (l.stackBytes != 0 ==>
          && l.stackCallArgsSize <= |area| && l.stackCallArgsSize <= |f.stack|
          && f.stack[..l.stackCallArgsSize] == area[..l.stackCallArgsSize])
  }

  /** Fills the pooled state from the registers and the caller's stack area. */
  method Arrive(regs: RegBuf, sig: Signature, l: Layout, ints: seq<Word8>, floats: seq<Word8>, area: array<Byte>)
    requires regs.Valid() && FitsWindow(sig, l) && |ints| == INT_ARG_REGS && |floats| == FLOAT_ARG_REGS
    requires l.stackBytes <= area.Length && area != regs.stack
    modifies regs.ints, regs.ptrs, regs.floats, regs.stackPtrs, regs.stack
    ensures Arrived(l, ints, floats, area[..], regs.State())
  {
    hide GatherOk, MaskOk, SlotPtrs, StepsForValue, PlanAt, PlanOf, Has;
    LayoutBounds(sig, l);
    var prePtrs := new Word8[INT_ARG_REGS](_ => ZERO_WORD);
    for i := 0 to INT_ARG_REGS
      invariant forall j :: 0 <= j < i ==> prePtrs[j] == PrePtrs(l.ptrMask, ints)[j]
      invariant forall j :: i <= j < INT_ARG_REGS ==> prePtrs[j] == ZERO_WORD
    {
      if Has(l.ptrMask, i) { prePtrs[i] := ints[i]; }
    }
    SetWords(regs.ints, ints);
    SetWords(regs.floats, floats);
    CopyWords(regs.ptrs, prePtrs);
    SetWords(regs.stackPtrs, seq(STACK_WORDS, _ => ZERO_WORD));
    if l.stackBytes != 0 {
      CopyBytes(regs.stack, 0, area[..l.stackCallArgsSize]);
    }
  }

  /** Copies the stack results to the caller's area, and touches nothing else of it. */
  method CopyBack(regs: RegBuf, sig: Signature, l: Layout, area: array<Byte>)
    requires regs.Valid() && FitsWindow(sig, l) && l.stackBytes <= area.Length && area != regs.stack
    modifies area
    ensures l.retOffset <= l.stackBytes
    ensures l.stackBytes != 0 ==>
              area[..] == old(area[..l.retOffset]) + regs.stack[l.retOffset..l.stackBytes] + old(area[l.stackBytes..])
    ensures l.stackBytes == 0 ==> area[..] == old(area[..])
  {
    hide GatherOk, MaskOk, SlotPtrs, StepsForValue, PlanAt, PlanOf;
    LayoutBounds(sig, l);
    if l.stackBytes != 0 {
      CopyBytes(area, l.retOffset, regs.stack[l.retOffset..l.stackBytes]);
    }
  }

  /** A register is mirrored before anything may allocate iff it carries a pointer
      of the receiver or of an argument. */
  lemma PrePtrsExact(sig: Signature, l: Layout, ints: seq<Word8>, r: nat)
    requires IsLayout(sig, l) && r < |ints|
    ensures PrePtrs(l.ptrMask, ints)[r] ==
            if exists x :: 0 <= x < |l.call.steps| && l.call.steps[x].kind.StepPointer? && l.call.steps[x].ireg == r
            then ints[r] else ZERO_WORD
  {
    hide GatherOk, SlotPtrs, StepsForValue, PlanAt, PlanOf, Has;
  }

  // ----- arguments arrive, results leave -----

  lemma ArgSlotBelow(c: Call, i: nat)
    requires CallOk(c) && i < |c.sig.ins|
    ensures var steps := StepsForValue(c.layout.call, i + 1);
            OnStack(steps) ==> steps[0].stkOff + steps[0].size <= c.layout.stackCallArgsSize && c.layout.stackBytes != 0
  {
    hide PlanAt, PlanOf, StepsForValue, Emit, StepsOk, GatherOk, MaskOk, SlotPtrs;
    ArgSteps(c.sig, c.layout, i);
    LayoutBounds(c.sig, c.layout);
    SlotPlace(0, CallTypes(c.sig), i + 1);
    EmitForms(PlanAt(0, CallTypes(c.sig), i + 1).cur, c.sig.ins[i]);
  }

  lemma RetSlotInside(c: Call, i: nat)
    requires CallOk(c) && i < |c.sig.outs|
    ensures var steps := StepsForValue(c.layout.ret, i);
            OnStack(steps) ==> c.layout.retOffset <= steps[0].stkOff && steps[0].stkOff + steps[0].size <= c.layout.stackBytes
  {
    hide PlanAt, PlanOf, StepsForValue, Emit, StepsOk, GatherOk, MaskOk, SlotPtrs;
    RetSteps(c, i);
    LayoutBounds(c.sig, c.layout);
    SlotPlace(c.layout.retOffset, c.sig.outs, i);
  }

  /** Frames with the same registers, and the same bytes where the value's slot may
      be, hold the same value. */
  lemma HeldInBoth(cur: Cursor, t: GoType, steps: seq<Step>, f: Frame, g: Frame, lo: nat, hi: nat, v: seq<Byte>)
    requires StepsOf(cur, t, steps) && FrameOk(f) && FrameOk(g) && g.ints == f.ints && g.floats == f.floats
    requires OnStack(steps) ==> lo <= hi <= STACK_WINDOW && f.stack[lo..hi] == g.stack[lo..hi]
    requires OnStack(steps) ==> lo <= steps[0].stkOff && steps[0].stkOff + steps[0].size <= hi
    requires Encodes(f, steps, v)
    ensures Encodes(g, steps, v)
  {
    hide Emit, Clash, Untouched;
    StepsOkEach(steps);
    hide StepsOk;
    forall k | 0 <= k < |steps| ensures StepFits(steps[k], |v|) && Holds(g, steps[k], v) {
      assert Holds(f, steps[k], v);
      if steps[k].kind.StepStack? {
        StackAlone(cur, t, steps, k);
        SameSlice(f.stack, g.stack, lo, hi, steps[0].stkOff, steps[0].stkOff + steps[0].size);
      }
    }
  }

  lemma StackAlone(cur: Cursor, t: GoType, steps: seq<Step>, k: nat)
    requires Wf(t) && steps == Emit(cur, t) && k < |steps| && steps[k].kind.StepStack?
    ensures OnStack(steps) && k == 0
  {
    EmitSound(cur, t);
  }

  lemma SameSlice(a: seq<Byte>, b: seq<Byte>, lo: nat, hi: nat, i: nat, j: nat)
    requires |a| == |b| && lo <= i <= j <= hi <= |a| && a[lo..hi] == b[lo..hi]
    ensures a[i..j] == b[i..j]
  {
    forall x | i <= x < j ensures a[x] == b[x] { assert a[lo..hi][x - lo] == b[lo..hi][x - lo]; }
  }

  /** The arguments the caller passed are the ones the invocation starts with. */
  lemma ArgsArrive(c: Call, caller: Frame, area: seq<Byte>, f: Frame, vs: seq<seq<Byte>>)
    requires CallOk(c) && CallerFrame(caller, caller.ints, caller.floats, area, 0, c.layout.stackCallArgsSize)
    requires Arrived(c.layout, caller.ints, caller.floats, area, f)
    requires HoldsArgs(c, caller, vs)
    ensures HoldsArgs(c, f, vs)
  {
    hide GatherOk, MaskOk, SlotPtrs, StepsForValue, PlanAt, PlanOf, StepsOk, Emit, Encodes;
    forall i | 0 <= i < |vs| ensures HoldsArg(c, f, i, vs[i]) {
      assert HoldsArg(c, caller, i, vs[i]);
      ArgSteps(c.sig, c.layout, i);
      ArgSlotBelow(c, i);
      LayoutBounds(c.sig, c.layout);
      HeldInBoth(PlanAt(0, CallTypes(c.sig), i + 1).cur, c.sig.ins[i], StepsForValue(c.layout.call, i + 1),
                 caller, f, 0, c.layout.stackCallArgsSize, vs[i]);
    }
  }

  /** And the results the invocation ends with are the ones the caller finds. */
  lemma ResultsLeave(c: Call, f: Frame, area: seq<Byte>, caller: Frame, rs: seq<seq<Byte>>)
    requires CallOk(c) && FrameOk(f) && HoldsResults(c, f, rs) && c.layout.retOffset <= c.layout.stackBytes <= |area|
    requires area[c.layout.retOffset..c.layout.stackBytes] == f.stack[c.layout.retOffset..c.layout.stackBytes]
    requires CallerFrame(caller, f.ints, f.floats, area, c.layout.retOffset, c.layout.stackBytes)
    ensures HoldsResults(c, caller, rs)
  {
    hide GatherOk, MaskOk, SlotPtrs, StepsForValue, PlanAt, PlanOf, StepsOk, Emit, Encodes;
    forall i | 0 <= i < |rs| ensures HoldsResult(c, caller, i, rs[i]) {
      assert HoldsResult(c, f, i, rs[i]);
      RetSteps(c, i);
      RetSlotInside(c, i);
      HeldInBoth(PlanAt(c.layout.retOffset, c.sig.outs, i).cur, c.sig.outs[i], StepsForValue(c.layout.ret, i),
                 f, caller, c.layout.retOffset, c.layout.stackBytes, rs[i]);
    }
  }
}
