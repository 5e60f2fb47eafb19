/** Storing all results of a call. */
module Results {
  import opened Wrappers
  import opened Bits
  import opened LittleEndian
  import opened GoTypes
  import opened AbiAssign
  import opened AbiLayout
  import opened Coverage
  import opened Precise
  import opened Frames
  import opened Values
  import opened Scatter
  import opened Registers

  /** A layout whose stack area a trampoline can capture. */
  ghost predicate FitsWindow(sig: Signature, l: Layout) {
    IsLayout(sig, l) && l.stackBytes <= STACK_WINDOW
  }

  // ----- the steps of a plan, value by value -----

  /** Every step of a plan whose slots end inside the window is usable, and no two
      of one plan clash. */
  lemma PlanStepsOk(base: nat, ts: seq<GoType>)
    requires AllWf(ts) && PlanOf(base, ts).cur.stackBytes <= STACK_WINDOW
    ensures PlanOk(PlanOf(base, ts)) && |PlanOf(base, ts).valueStart| == |ts|
    ensures StepsOk(PlanOf(base, ts).steps)
  {
    hide Emit, Next, PlanAt;
    PlanAtOk(base, ts, |ts|);
    PlanSound(base, ts, |ts|);
    PlanSizes(base, ts, |ts|);
  }

  predicate SmallInReg(st: Step) { !st.kind.StepStack? ==> st.size <= 8 }

  lemma {:induction false} PlanSizes(base: nat, ts: seq<GoType>, k: nat)
    requires AllWf(ts) && k <= |ts|
    ensures forall x :: 0 <= x < |PlanAt(base, ts, k).steps| ==> SmallInReg(PlanAt(base, ts, k).steps[x])
  {
    hide Emit, Next;
    if k != 0 {
      PlanSizes(base, ts, k - 1);
      EmitSizes(PlanAt(base, ts, k - 1).cur, ts[k - 1]);
    }
  }

  lemma EmitSizes(c: Cursor, t: GoType)
    requires Wf(t)
    ensures forall x :: 0 <= x < |Emit(c, t)| ==> SmallInReg(Emit(c, t)[x])
  {
    var steps := Emit(c, t);
    hide Emit;
    forall x | 0 <= x < |steps| ensures SmallInReg(steps[x]) {
      if !OnStack(steps) { EmitInside(c, t, x); }
    }
  }

  /** What a value's steps are, and that the frame has room for them. */
  lemma ValueStepsOf(base: nat, ts: seq<GoType>, i: nat)
    requires AllWf(ts) && i < |ts| && PlanOf(base, ts).cur.stackBytes <= STACK_WINDOW
    ensures PlanOk(PlanOf(base, ts)) && |PlanOf(base, ts).valueStart| == |ts|
    ensures StepsOf(PlanAt(base, ts, i).cur, ts[i], StepsForValue(PlanOf(base, ts), i))
  {
    hide Emit, Next, PlanAt, StepsForValue, StepsOk;
    PlanStepsOk(base, ts);
    ValueSteps(base, ts, |ts|, i);
    PartOfPlan(PlanOf(base, ts), i);
  }

  lemma PartOfPlan(p: Plan, i: nat)
    requires PlanOk(p) && i < |p.valueStart| && StepsOk(p.steps)
    ensures StepsOk(StepsForValue(p, i))
    ensures forall k :: 0 <= k < |StepsForValue(p, i)| ==> StepsForValue(p, i)[k] in p.steps
  {
    hide Clash, StepOk;
    var a := p.valueStart[i];
    var s := StepsForValue(p, i);
    assert forall k :: 0 <= k < |s| ==> s[k] == p.steps[a + k];
  }

  lemma {:induction false} StartsGrow(p: Plan, i: nat, j: nat)
    requires PlanOk(p) && i <= j < |p.valueStart|
    ensures p.valueStart[i] <= p.valueStart[j]
    decreases j
  {
    if i < j { StartsGrow(p, i, j - 1); }
  }

  /** Steps of different values do not clash. */
  lemma ValuesApart(p: Plan, i: nat, j: nat, x: nat, y: nat)
    requires PlanOk(p) && StepsOk(p.steps) && i < |p.valueStart| && j < |p.valueStart| && i != j
    requires x < |StepsForValue(p, i)| && y < |StepsForValue(p, j)|
    ensures !Clash(StepsForValue(p, i)[x], StepsForValue(p, j)[y])
  {
    hide Clash, StepOk;
    assert StepsForValue(p, i)[x] == p.steps[p.valueStart[i] + x];
    assert StepsForValue(p, j)[y] == p.steps[p.valueStart[j] + y];
    if i < j { StartsGrow(p, i + 1, j); } else { StartsGrow(p, j + 1, i); }
    ClashBoth(StepsForValue(p, i)[x], StepsForValue(p, j)[y]);
  }

  lemma UntouchedWider(f: Frame, g: Frame, some: seq<Step>, all: seq<Step>)
    requires FrameOk(f) && FrameOk(g) && Untouched(f, g, some) && forall k :: 0 <= k < |some| ==> some[k] in all
    ensures Untouched(f, g, all)
  {
    hide IsInt, InSlot, HasWord;
    forall r | 0 <= r < INT_ARG_REGS && (forall k :: 0 <= k < |all| ==> !(IsInt(all[k]) && all[k].ireg == r))
      ensures g.ints[r] == f.ints[r] && g.ptrs[r] == f.ptrs[r]
    {
    }
    forall r | 0 <= r < FLOAT_ARG_REGS && (forall k :: 0 <= k < |all| ==> !(all[k].kind.StepFloatReg? && all[k].freg == r))
      ensures g.floats[r] == f.floats[r]
    {
    }
    forall b | 0 <= b < STACK_WINDOW && (forall k :: 0 <= k < |all| ==> !InSlot(all[k], b)) ensures g.stack[b] == f.stack[b] {
    }
    forall w | 0 <= w < STACK_WORDS && (forall k :: 0 <= k < |all| ==> !HasWord(all[k], w)) ensures g.stackPtrs[w] == f.stackPtrs[w] {
    }
  }

  // ----- one value scattered leaves the others alone -----

  ghost predicate StepsApart(a: seq<Step>, b: seq<Step>) {
    forall x, y :: 0 <= x < |a| && 0 <= y < |b| ==> !Clash(a[x], b[y])
  }

  lemma EncodesKept(f: Frame, g: Frame, other: seq<Step>, steps: seq<Step>, w: seq<Byte>)
    requires FrameOk(f) && FrameOk(g) && Untouched(f, g, other) && StepsOk(steps) && StepsApart(other, steps)
    requires Encodes(f, steps, w)
    ensures Encodes(g, steps, w)
  {
    hide Untouched, Clash, Read, StepOk;
    forall k | 0 <= k < |steps| ensures StepFits(steps[k], |w|) && Holds(g, steps[k], w) {
      assert Holds(f, steps[k], w);
      ReadUntouched(f, g, other, steps[k]);
    }
  }

  /** A pointer word of a value in its slot. */
  lemma SlotWord(c: Cursor, t: GoType, steps: seq<Step>, rel: nat)
    requires StepsOf(c, t, steps) && OnStack(steps) && SeenWord(t, rel)
    ensures var w := WordIdx(steps[0].stkOff + rel);
            8 * w == steps[0].stkOff + rel && w < STACK_WORDS && HasWord(steps[0], w) && InSlot(steps[0], 8 * w + 7)
    ensures rel + 8 <= Size(t)
  {
    hide Emit, IsPtrWord, SeenWord, Wf, Size, Align;
    EmitForms(c, t);
    SeenIsPtr(t, rel);
    PtrWordPlace(t, rel);
    assert StepOk(steps[0]);
  }

  lemma MirroredKept(f: Frame, g: Frame, other: seq<Step>, c: Cursor, t: GoType, steps: seq<Step>)
    requires FrameOk(f) && FrameOk(g) && Untouched(f, g, other) && StepsOf(c, t, steps) && StepsApart(other, steps)
    requires Mirrored(f, t, steps)
    ensures Mirrored(g, t, steps)
  {
    hide Untouched, Clash, Emit, SeenWord, WordIdx;
    if OnStack(steps) {
      forall rel: nat | SeenWord(t, rel) ensures WordMirrored(g, WordIdx(steps[0].stkOff + rel)) {
        SlotWord(c, t, steps, rel);
        var w := WordIdx(steps[0].stkOff + rel);
        assert WordMirrored(f, w);
        WordUntouched(f, g, other, steps[0], w);
      }
    } else {
      forall k | 0 <= k < |steps| ensures PtrMirrored(g, steps[k]) {
        assert PtrMirrored(f, steps[k]);
        MirrorUntouched(f, g, other, steps[k]);
      }
    }
  }

  lemma WordUntouched(f: Frame, g: Frame, other: seq<Step>, st: Step, w: nat)
    requires FrameOk(f) && FrameOk(g) && Untouched(f, g, other)
    requires w < STACK_WORDS && HasWord(st, w) && InSlot(st, 8 * w + 7) && WordMirrored(f, w)
    requires forall k :: 0 <= k < |other| ==> !Clash(other[k], st)
    ensures WordMirrored(g, w)
  {
    forall k | 0 <= k < |other| ensures !HasWord(other[k], w) && forall b :: 8 * w <= b < 8 * w + 8 ==> !InSlot(other[k], b) {
      assert !Clash(other[k], st);
    }
    assert g.stackPtrs[w] == f.stackPtrs[w];
    assert forall b :: 8 * w <= b < 8 * w + 8 ==> g.stack[b] == f.stack[b];
    assert StackWord(g, w) == StackWord(f, w);
  }

  // ----- storing the results -----

  /** The results of the first `n` types, in the frame. */
  ghost predicate Stored(env: Env, f: Frame, base: nat, ts: seq<GoType>, vs: seq<seq<Byte>>, n: nat)
    requires FrameOk(f) && AllWf(ts) && ValuesOf(ts, vs) && n <= |ts| && PlanOf(base, ts).cur.stackBytes <= STACK_WINDOW
  {
    forall i :: 0 <= i < n ==> StoredAt(env, f, base, ts, vs, i)
  }

  ghost predicate StoredAt(env: Env, f: Frame, base: nat, ts: seq<GoType>, vs: seq<seq<Byte>>, i: nat)
    requires FrameOk(f) && AllWf(ts) && ValuesOf(ts, vs) && i < |ts| && PlanOf(base, ts).cur.stackBytes <= STACK_WINDOW
  {
    ValueStepsOf(base, ts, i);
    var steps := StepsForValue(PlanOf(base, ts), i);
    Encodes(f, steps, Image(env, ts[i], vs[i], steps)) && Mirrored(f, ts[i], steps)
  }

  ghost predicate ValuesOf(ts: seq<GoType>, vs: seq<seq<Byte>>) {
    |vs| == |ts| && forall i :: 0 <= i < |ts| ==> Legal(ts[i], vs[i])
  }

  /** Scattering value `i` next keeps the ones before it. */
  lemma StoredNext(env: Env, f: Frame, g: Frame, base: nat, ts: seq<GoType>, vs: seq<seq<Byte>>, i: nat)
    requires FrameOk(f) && FrameOk(g) && AllWf(ts) && ValuesOf(ts, vs) && i < |ts|
    requires PlanOf(base, ts).cur.stackBytes <= STACK_WINDOW
    requires PlanOk(PlanOf(base, ts)) && |PlanOf(base, ts).valueStart| == |ts|
    requires StepsOk(StepsForValue(PlanOf(base, ts), i))
    requires Stored(env, f, base, ts, vs, i)
    requires Scattered(env, f, g, ts[i], vs[i], StepsForValue(PlanOf(base, ts), i))
    ensures Stored(env, g, base, ts, vs, i + 1)
  {
    hide PlanOf, StepsForValue, Encodes, Mirrored, Image, Untouched, StepsOk, Clash;
    PlanStepsOk(base, ts);
    var p := PlanOf(base, ts);
    forall j | 0 <= j < i ensures StoredAt(env, g, base, ts, vs, j) {
      assert StoredAt(env, f, base, ts, vs, j);
      ValueStepsOf(base, ts, j);
      StepsApartOf(p, i, j);
      var steps := StepsForValue(p, j);
      EncodesKept(f, g, StepsForValue(p, i), steps, Image(env, ts[j], vs[j], steps));
      MirroredKept(f, g, StepsForValue(p, i), PlanAt(base, ts, j).cur, ts[j], steps);
    }
  }

  lemma StepsApartOf(p: Plan, i: nat, j: nat)
    requires PlanOk(p) && StepsOk(p.steps) && i < |p.valueStart| && j < |p.valueStart| && i != j
    ensures StepsApart(StepsForValue(p, i), StepsForValue(p, j))
  {
    hide Clash, StepOk, StepsForValue;
    forall x, y | 0 <= x < |StepsForValue(p, i)| && 0 <= y < |StepsForValue(p, j)|
      ensures !Clash(StepsForValue(p, i)[x], StepsForValue(p, j)[y])
    {
      ValuesApart(p, i, j, x, y);
    }
  }

  /** Word `w` of the stack area is a mirrored word of a result in its slot. */
  ghost predicate ResultWord(base: nat, ts: seq<GoType>, w: nat)
    requires AllWf(ts) && PlanOk(PlanOf(base, ts)) && |PlanOf(base, ts).valueStart| == |ts|
  {
    exists i :: 0 <= i < |ts| && MirrorsWord(ts[i], StepsForValue(PlanOf(base, ts), i), w)
  }

  /** From `f` to `g`, the collector's mirrors changed at registers that carry a pointer
      of some result and at pointer words of results in slots, and nowhere else. */
  ghost predicate OnlyPointers(f: Frame, g: Frame, base: nat, ts: seq<GoType>)
    requires FrameOk(f) && FrameOk(g) && AllWf(ts) && PlanOk(PlanOf(base, ts)) && |PlanOf(base, ts).valueStart| == |ts|
  {
    && (forall r: nat :: r < INT_ARG_REGS && !Pointed(PlanOf(base, ts).steps, r) ==> g.ptrs[r] == f.ptrs[r])
    && (forall w: nat :: w < STACK_WORDS && !ResultWord(base, ts, w) ==> g.stackPtrs[w] == f.stackPtrs[w])
  }

  lemma OnlyPointersSelf(f: Frame, base: nat, ts: seq<GoType>)
    requires FrameOk(f) && AllWf(ts) && PlanOk(PlanOf(base, ts)) && |PlanOf(base, ts).valueStart| == |ts|
    ensures OnlyPointers(f, f, base, ts)
  {
  }

  lemma PointedPart(p: Plan, i: nat, r: nat)
    requires PlanOk(p) && i < |p.valueStart| && Pointed(StepsForValue(p, i), r)
    ensures Pointed(p.steps, r)
  {
    hide Clash;
    var steps := StepsForValue(p, i);
    var k :| 0 <= k < |steps| && steps[k].kind.StepPointer? && steps[k].ireg == r;
    assert p.steps[p.valueStart[i] + k] == steps[k];
  }

  lemma OnlyPointersNext(f: Frame, g: Frame, h: Frame, base: nat, ts: seq<GoType>, i: nat)
    requires FrameOk(f) && FrameOk(g) && FrameOk(h) && AllWf(ts) && i < |ts|
    requires PlanOk(PlanOf(base, ts)) && |PlanOf(base, ts).valueStart| == |ts|
    requires StepsOk(StepsForValue(PlanOf(base, ts), i))
    requires OnlyPointers(f, g, base, ts) && MirrorsKept(g, h, ts[i], StepsForValue(PlanOf(base, ts), i))
    ensures OnlyPointers(f, h, base, ts)
  {
    hide PlanOf, MirrorsWord, StepsOk, Beyond;
    var p := PlanOf(base, ts);
    var steps := StepsForValue(p, i);
    forall r: nat | r < INT_ARG_REGS && !Pointed(p.steps, r) ensures h.ptrs[r] == f.ptrs[r] {
      if Pointed(steps, r) { PointedPart(p, i, r); }
    }
    forall w: nat | w < STACK_WORDS && !ResultWord(base, ts, w) ensures h.stackPtrs[w] == f.stackPtrs[w] {
      assert !MirrorsWord(ts[i], steps, w);
    }
  }

  predicate RetOk(t: GoType, rets: seq<Option<seq<Byte>>>, i: nat) {
    i < |rets| && rets[i].Some? ==> Legal(t, rets[i].value)
  }

  /** Result `i` as stored: the value returned, or zero where the interceptor gave
      none that fits. */
  function ResultOf(t: GoType, rets: seq<Option<seq<Byte>>>, i: nat): (v: seq<Byte>)
    requires RetOk(t, rets, i)
    ensures |v| == Size(t)
  {
    if i < |rets| && rets[i].Some? then rets[i].value else Zeros(Size(t))
  }

  predicate RetsOf(ts: seq<GoType>, rets: seq<Option<seq<Byte>>>) {
    forall i :: 0 <= i < |ts| ==> RetOk(ts[i], rets, i)
  }

  function ResultsOf(ts: seq<GoType>, rets: seq<Option<seq<Byte>>>): (vs: seq<seq<Byte>>)
    requires RetsOf(ts, rets)
    ensures ValuesOf(ts, vs)
  {
    var vs := seq(|ts|, i requires 0 <= i < |ts| && RetOk(ts[i], rets, i) => ResultOf(ts[i], rets, i));
    assert forall i :: 0 <= i < |ts| ==> Legal(ts[i], vs[i]) by {
      forall i | 0 <= i < |ts| ensures Legal(ts[i], vs[i]) { ResultLegal(ts[i], rets, i); }
    }
    vs
  }

  lemma ResultLegal(t: GoType, rets: seq<Option<seq<Byte>>>, i: nat)
    requires RetOk(t, rets, i)
    ensures Legal(t, ResultOf(t, rets, i))
  {
    var z := Zeros(Size(t));
    if t.Iface? { assert z[8..] == ZERO_WORD; }
  }

  /** A result kind that cannot be scattered where the ABI puts it. */
  ghost predicate AnyRejected(base: nat, ts: seq<GoType>, n: nat)
    requires AllWf(ts) && n <= |ts| && PlanOk(PlanOf(base, ts)) && |PlanOf(base, ts).valueStart| == |ts|
  {
    exists i :: 0 <= i < n && Rejects(ts[i], StepsForValue(PlanOf(base, ts), i))
  }

  /** Writes every result where its steps say. Nil results after the register fast
      path leave the target's in place. */
  method StoreResults(regs: RegBuf, env: Env, sig: Signature, l: Layout, direct: bool, rets: Option<seq<Option<seq<Byte>>>>)
      returns (ok: bool)
    requires regs.Valid() && FitsWindow(sig, l) && (rets.Some? ==> RetsOf(sig.outs, rets.value))
    requires PlanOf(l.retOffset, sig.outs).cur.stackBytes <= STACK_WINDOW
    modifies regs.ints, regs.ptrs, regs.floats, regs.stackPtrs, regs.stack
    ensures direct && rets.None? ==> ok && regs.State() == old(regs.State())
    ensures !(direct && rets.None?) ==> (ok <==> !AnyRejected(l.retOffset, sig.outs, |sig.outs|))
    ensures !(direct && rets.None?) && ok ==>
              && Stored(env, regs.State(), l.retOffset, sig.outs, ResultsOf(sig.outs, rets.GetOr([])), |sig.outs|)
              && Untouched(old(regs.State()), regs.State(), l.ret.steps)
              && OnlyPointers(old(regs.State()), regs.State(), l.retOffset, sig.outs)
  {
    hide PlanOf, PlanAt, StepsForValue, Stored, Scattered, Emit, Untouched, GatherOk, MaskOk, SlotPtrs, Legal, MirrorsKept, OnlyPointers;
    if direct && rets.None? { return true; }
    var ts, given := sig.outs, rets.GetOr([]);
    ghost var vs := ResultsOf(ts, given);
    ghost var f := regs.State();
    UntouchedSelf(f, l.ret.steps);
    assert OnlyPointers(f, f, l.retOffset, ts) by { OnlyPointersSelf(f, l.retOffset, ts); }
    assert Stored(env, f, l.retOffset, ts, vs, 0) by { NoneStored(env, f, l.retOffset, ts, vs); }
    var i := 0;
    while i < |ts|
      invariant 0 <= i <= |ts| && !AnyRejected(l.retOffset, ts, i)
      invariant Stored(env, regs.State(), l.retOffset, ts, vs, i)
      invariant Untouched(f, regs.State(), l.ret.steps) && OnlyPointers(f, regs.State(), l.retOffset, ts)
    {
      ghost var g := regs.State();
      ValueStepsOf(l.retOffset, ts, i);
      var v := ResultOf(ts[i], given, i);
      ResultLegal(ts[i], given, i);
      var done := regs.ScatterValue(env, ts[i], v, StepsForValue(l.ret, i), PlanAt(l.retOffset, ts, i).cur);
      if !done { return false; }
      ScatteredUntouched(env, g, regs.State(), l.ret, i, ts[i], v);
      StoredNext(env, g, regs.State(), l.retOffset, ts, vs, i);
      PlanStepsOk(l.retOffset, ts);
      UntouchedTrans(f, g, regs.State(), l.ret.steps);
      OnlyPointersNext(f, g, regs.State(), l.retOffset, ts, i);
      i := i + 1;
    }
    return true;
  }

  lemma NoneStored(env: Env, f: Frame, base: nat, ts: seq<GoType>, vs: seq<seq<Byte>>)
    requires FrameOk(f) && AllWf(ts) && ValuesOf(ts, vs) && PlanOf(base, ts).cur.stackBytes <= STACK_WINDOW
    ensures Stored(env, f, base, ts, vs, 0)
  {
  }

  lemma ScatteredUntouched(env: Env, f: Frame, g: Frame, p: Plan, i: nat, t: GoType, v: seq<Byte>)
    requires FrameOk(f) && FrameOk(g) && PlanOk(p) && i < |p.valueStart| && StepsOk(StepsForValue(p, i)) && |v| == Size(t)
    requires Scattered(env, f, g, t, v, StepsForValue(p, i))
    ensures Untouched(f, g, p.steps) && MirrorsKept(f, g, t, StepsForValue(p, i))
  {
    hide MirrorsKept, Untouched, Encodes, Mirrored, StepsOk;
    UntouchedWider(f, g, StepsForValue(p, i), p.steps);
  }

  // ----- what the stored results mean -----

  /** What the caller finds along the steps of result `i` is the value returned exactly
      when it is stored as it is: no func, signalling float32 or nonzero complex64 in
      registers. */
  lemma ResultArrivesIff(env: Env, f: Frame, sig: Signature, l: Layout, vs: seq<seq<Byte>>, i: nat)
    requires FrameOk(f) && FitsWindow(sig, l) && ValuesOf(sig.outs, vs) && i < |sig.outs|
    requires PlanOf(l.retOffset, sig.outs).cur.stackBytes <= STACK_WINDOW
    requires Stored(env, f, l.retOffset, sig.outs, vs, |sig.outs|)
    ensures var steps := StepsForValue(l.ret, i);
            (forall k :: 0 <= k < |steps| ==> StepOk(steps[k]))
            && (SameData(sig.outs[i], Bytes(f, steps, Size(sig.outs[i])), vs[i]) <==> StoredPlain(env, sig.outs[i], vs[i], steps))
  {
    hide Emit, Encodes, Mirrored, Image, StepsOk, PlanAt, StepsForValue, Bytes, SameData, StoredPlain, GatherOk, MaskOk, SlotPtrs;
    var t, steps := sig.outs[i], StepsForValue(l.ret, i);
    assert StoredAt(env, f, l.retOffset, sig.outs, vs, i);
    ValueStepsOf(l.retOffset, sig.outs, i);
    StepsOkEach(steps);
    var w := Image(env, t, vs[i], steps);
    BytesOf(PlanAt(l.retOffset, sig.outs, i).cur, t, f, w);
    ImageSame(env, t, vs[i], steps);
    SameTrans(t, Bytes(f, steps, Size(t)), w, vs[i]);
  }

  /** Along the steps of result `i` the caller finds what the interceptor gave, exactly when
      that is stored as it is; where it gave none, or one that does not fit, zeros (a nil
      func has no code). */
  lemma CallerFinds(env: Env, f: Frame, sig: Signature, l: Layout, rets: seq<Option<seq<Byte>>>, i: nat)
    requires FrameOk(f) && FitsWindow(sig, l) && RetsOf(sig.outs, rets) && i < |sig.outs|
    requires PlanOf(l.retOffset, sig.outs).cur.stackBytes <= STACK_WINDOW
    requires Stored(env, f, l.retOffset, sig.outs, ResultsOf(sig.outs, rets), |sig.outs|)
    ensures forall k :: 0 <= k < |StepsForValue(l.ret, i)| ==> StepOk(StepsForValue(l.ret, i)[k])
    ensures i < |rets| && rets[i].Some? ==>
              var t, steps, v := sig.outs[i], StepsForValue(l.ret, i), rets[i].value;
              SameData(t, Bytes(f, steps, Size(t)), v) <==>
              OnStack(steps) || (
                && (t.Func? ==> env.codeOf(v) == v)
                && (t == Float(4) ==> var x := Unsigned(v); !(x / 0x80_0000 % 256 == 255 && 0 < x % 0x80_0000 < 0x40_0000))
                && (t == Complex(8) ==> v == [0, 0, 0, 0, 0, 0, 0, 0]))
    ensures (i >= |rets| || rets[i].None?) && env.codeOf(ZERO_WORD) == ZERO_WORD ==>
              var t := sig.outs[i]; SameData(t, Bytes(f, StepsForValue(l.ret, i), Size(t)), Zeros(Size(t)))
  {
    if i < |rets| && rets[i].Some? { PlainIff(env, sig.outs[i], rets[i].value, StepsForValue(l.ret, i)); }
    hide PlanAt, PlanOf, StepsForValue, Bytes, SameData, StoredPlain, Stored, GatherOk, MaskOk, SlotPtrs;
    ResultArrivesIff(env, f, sig, l, ResultsOf(sig.outs, rets), i);
    if (i >= |rets| || rets[i].None?) && env.codeOf(ZERO_WORD) == ZERO_WORD { ZerosPlain(env, sig.outs[i], StepsForValue(l.ret, i)); }
  }

  /** In a slot a value is stored as it is; in registers unless it is a func whose code is
      elsewhere, a float32 NaN with its quiet bit clear, or a complex64 other than zero. */
  lemma PlainIff(env: Env, t: GoType, v: seq<Byte>, steps: seq<Step>)
    requires |v| == Size(t)
    ensures StoredPlain(env, t, v, steps) <==>
            OnStack(steps) || (
              && (t.Func? ==> env.codeOf(v) == v)
              && (t == Float(4) ==> var x := Unsigned(v); !(x / 0x80_0000 % 256 == 255 && 0 < x % 0x80_0000 < 0x40_0000))
              && (t == Complex(8) ==> v == [0, 0, 0, 0, 0, 0, 0, 0]))
  {
    hide Unsigned;
    assert Zeros(8) == [0, 0, 0, 0, 0, 0, 0, 0];
  }

  lemma ZerosPlain(env: Env, t: GoType, steps: seq<Step>)
    requires env.codeOf(ZERO_WORD) == ZERO_WORD
    ensures StoredPlain(env, t, Zeros(Size(t)), steps)
  {
    assert Zeros(8) == ZERO_WORD;
    if t == Float(4) { FourBytes(0, 0, 0, 0); assert Zeros(4) == [0, 0, 0, 0]; }
  }

  /** A method that returns one uint64 cannot have its result stored. */
  lemma UnsignedRejected(base: nat)
    ensures var ts := [UInt(8)];
            AllWf(ts) && PlanOk(PlanOf(base, ts)) && |PlanOf(base, ts).valueStart| == 1 && AnyRejected(base, ts, 1)
  {
    var ts := [UInt(8)];
    ValueSteps(base, ts, 1, 0);
    PlanAtOk(base, ts, 1);
    ScalarPlace(Cursor(0, 0, base), UInt(8));
    assert Rejects(ts[0], StepsForValue(PlanOf(base, ts), 0));
  }

  /** A pointer of the value at byte `rel` can be seen by the collector. */
  ghost predicate Visible(f: Frame, steps: seq<Step>, w: seq<Byte>, rel: nat)
    requires FrameOk(f)
  {
    && rel + 8 <= |w|
    && if OnStack(steps) then
         var i := WordIdx(steps[0].stkOff + rel);
         i < STACK_WORDS && 8 * i == steps[0].stkOff + rel && f.stackPtrs[i] == w[rel..rel + 8]
       else exists r :: 0 <= r < INT_ARG_REGS && f.ptrs[r] == w[rel..rel + 8]
  }

  /** Every pointer word of every stored result, an interface's first word apart,
      has an equal entry in the mirrors. */
  lemma ResultPointersVisible(env: Env, f: Frame, sig: Signature, l: Layout, vs: seq<seq<Byte>>, i: nat, rel: nat)
    requires FrameOk(f) && FitsWindow(sig, l) && ValuesOf(sig.outs, vs) && i < |sig.outs|
    requires PlanOf(l.retOffset, sig.outs).cur.stackBytes <= STACK_WINDOW
    requires Stored(env, f, l.retOffset, sig.outs, vs, |sig.outs|) && IsHeapWord(sig.outs[i], rel)
    ensures var steps := StepsForValue(l.ret, i);
            Visible(f, steps, Image(env, sig.outs[i], vs[i], steps), rel)
  {
    hide Emit, Encodes, Mirrored, Image, StepsOk, PlanAt, StepsForValue, GatherOk, MaskOk, SlotPtrs, Visible, IsHeapWord;
    assert StoredAt(env, f, l.retOffset, sig.outs, vs, i);
    ValueStepsOf(l.retOffset, sig.outs, i);
    var steps := StepsForValue(l.ret, i);
    WordVisible(f, PlanAt(l.retOffset, sig.outs, i).cur, sig.outs[i], steps, Image(env, sig.outs[i], vs[i], steps), rel);
  }

  lemma WordVisible(f: Frame, c: Cursor, t: GoType, steps: seq<Step>, w: seq<Byte>, rel: nat)
    requires FrameOk(f) && StepsOf(c, t, steps) && |w| == Size(t) && IsHeapWord(t, rel)
    requires Encodes(f, steps, w) && Mirrored(f, t, steps)
    ensures Visible(f, steps, w, rel)
  {
    hide *;
    if OnStack(steps) { SlotVisible(f, c, t, steps, w, rel); } else { RegVisible(f, c, t, steps, w, rel); }
  }

  lemma SlotVisible(f: Frame, c: Cursor, t: GoType, steps: seq<Step>, w: seq<Byte>, rel: nat)
    requires FrameOk(f) && StepsOf(c, t, steps) && |w| == Size(t) && IsHeapWord(t, rel) && OnStack(steps)
    requires Encodes(f, steps, w) && Mirrored(f, t, steps)
    ensures Visible(f, steps, w, rel)
  {
    hide Emit, IsHeapWord, SeenWord, Parts, IsPtrWord, Wf, Size, Untouched, Clash;
    HeapSeen(t, rel);
    SlotWord(c, t, steps, rel);
    EmitForms(c, t);
    var st, i := steps[0], WordIdx(steps[0].stkOff + rel);
    assert WordMirrored(f, i) && Holds(f, st, w);
    SlotSlice(f, st, w, i, rel);
  }

  lemma SlotSlice(f: Frame, st: Step, w: seq<Byte>, i: nat, rel: nat)
    requires FrameOk(f) && StepOk(st) && st.kind.StepStack? && st.offset == 0 && st.size == |w| && Holds(f, st, w)
    requires i < STACK_WORDS && 8 * i == st.stkOff + rel && rel + 8 <= |w|
    ensures StackWord(f, i) == w[rel..rel + 8]
  {
    assert w == w[..|w|] == f.stack[st.stkOff..st.stkOff + |w|];
    forall b | 0 <= b < 8 ensures StackWord(f, i)[b] == w[rel..rel + 8][b] { assert w[rel + b] == f.stack[8 * i + b]; }
  }

  lemma RegVisible(f: Frame, c: Cursor, t: GoType, steps: seq<Step>, w: seq<Byte>, rel: nat)
    requires FrameOk(f) && StepsOf(c, t, steps) && |w| == Size(t) && IsHeapWord(t, rel) && !OnStack(steps)
    requires Encodes(f, steps, w) && Mirrored(f, t, steps)
    ensures Visible(f, steps, w, rel)
  {
    hide Emit, IsHeapWord, WordIdx, Wf, Size, Clash, Untouched;
    var k := PtrStep(c, t, steps, rel);
    var st := steps[k];
    assert PtrMirrored(f, st) && Holds(f, st, w) && StepOk(st);
    RegSlice(f, st, w, rel);
    HeapIsPtr(t, rel);
    PtrWordPlace(t, rel);
  }

  /** The step that carries a pointer word of a value in registers. */
  lemma PtrStep(c: Cursor, t: GoType, steps: seq<Step>, rel: nat) returns (k: nat)
    requires Wf(t) && steps == Emit(c, t) && IsHeapWord(t, rel) && !OnStack(steps)
    ensures k < |steps| && steps[k].kind.StepPointer? && steps[k].offset == rel && steps[k].size == 8
  {
    hide Emit, IsHeapWord, Parts, IsPtrWord, Wf, Size, Assignable;
    HeapIsPtr(t, rel);
    PtrWordPlace(t, rel);
    EmitShaped(c, t);
    EmitRegs(c, t);
    HeapWordPart(t, 0, rel);
    var ps := Parts(t, 0);
    k :| 0 <= k < |ps| && ps[k].cls.CPtr? && ps[k].offset == rel && ps[k].size == 8;
    assert ShapedAt(steps[k], ps[k]);
  }

  lemma RegSlice(f: Frame, st: Step, w: seq<Byte>, rel: nat)
    requires FrameOk(f) && StepOk(st) && st.kind.StepPointer? && st.offset == rel && st.size == 8 && rel + 8 <= |w|
    requires Holds(f, st, w) && PtrMirrored(f, st)
    ensures f.ptrs[st.ireg] == w[rel..rel + 8]
  {
  }

  lemma EmitRegs(c: Cursor, t: GoType)
    requires Wf(t) && 0 < Size(t) && !OnStack(Emit(c, t))
    ensures Assignable(t)
  {
  }
}
