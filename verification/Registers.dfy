/** The spill area of one call and the code that scatters results into it. */
module Registers {
  import opened Wrappers
  import opened Bits
  import opened LittleEndian
  import opened Float32
  import opened GoTypes
  import opened AbiAssign
  import opened AbiLayout
  import opened PointerWalk
  import opened Precise
  import opened Frames
  import opened Values
  import opened Scatter

  /** `steps` are those the ABI gives a value of type `t`, and the frame has room. */
  ghost predicate StepsOf(c: Cursor, t: GoType, steps: seq<Step>) {
    Wf(t) && steps == Emit(c, t) && StepsOk(steps)
  }

  /** From `f` to `g`, the value was written where its steps say, its pointers were
      mirrored, and nothing else changed: no other mirror, and nothing beyond a step's
      bytes in an integer register. */
  ghost predicate Scattered(env: Env, f: Frame, g: Frame, t: GoType, v: seq<Byte>, steps: seq<Step>)
    requires FrameOk(f) && FrameOk(g) && StepsOk(steps) && |v| == Size(t)
  {
    && Untouched(f, g, steps) && MirrorsKept(f, g, t, steps)
    && Encodes(g, steps, Image(env, t, v, steps)) && Mirrored(g, t, steps)
  }

  lemma ScatteredNow(env: Env, f: Frame, g: Frame, t: GoType, v: seq<Byte>, steps: seq<Step>, w: seq<Byte>)
    requires FrameOk(f) && FrameOk(g) && StepsOk(steps) && |v| == Size(t) && !OnStack(steps)
    requires Untouched(f, g, steps) && EncodesTo(g, steps, w, |steps|) && RegsMirrored(g, steps, |steps|)
    requires w == Image(env, t, v, steps) && RegsKept(f, g, steps) && g.stackPtrs == f.stackPtrs
    ensures Scattered(env, f, g, t, v, steps)
  {
    hide Untouched, RegsKept, MirrorsWord, EncodesTo, RegsMirrored, Image, StepsOk;
    AllOf(g, steps, w);
  }

  /** The steps of a value in registers are its parts, one each. */
  ghost predicate Shaped(steps: seq<Step>, ps: seq<Part>) {
    |steps| == |ps| && forall k :: 0 <= k < |steps| ==> ShapedAt(steps[k], ps[k])
  }

  predicate ShapedAt(st: Step, p: Part) {
    && st.offset == p.offset && st.size == p.size <= 8 && !st.kind.StepStack?
    && (st.kind.StepPointer? <==> p.cls.CPtr?) && (st.kind.StepFloatReg? <==> p.cls.CFloat?)
  }

  lemma EmitShaped(c: Cursor, t: GoType)
    requires Wf(t) && 0 < Size(t) && !OnStack(Emit(c, t))
    ensures Shaped(Emit(c, t), Parts(t, 0))
    ensures forall k :: 0 <= k < |Emit(c, t)| ==> StepFits(Emit(c, t)[k], Size(t))
  {
    hide Place, Parts, Wf, Ints, Floats;
    var steps := Emit(c, t);
    assert FitsRegs(c, t) && steps == Place(Parts(t, 0), c.iregs, c.fregs);
    PlaceLen(Parts(t, 0), c.iregs, c.fregs);
    hide Emit;
    forall k | 0 <= k < |steps| ensures ShapedAt(steps[k], Parts(t, 0)[k]) && StepFits(steps[k], Size(t)) {
      EmitInside(c, t, k);
    }
  }

  /** A value of no size has no steps; a sized one on the stack has one slot. */
  lemma EmitForms(c: Cursor, t: GoType)
    requires Wf(t)
    ensures Size(t) == 0 ==> Emit(c, t) == []
    ensures OnStack(Emit(c, t)) ==>
              0 < Size(t) && Emit(c, t)[0].offset == 0 && Emit(c, t)[0].size == Size(t)
              && Aligned(Emit(c, t)[0].stkOff, Align(t))
  {
    hide Parts, Place, Ints, Floats;
    if Size(t) != 0 && FitsRegs(c, t) { PlaceKinds(Parts(t, 0), c.iregs, c.fregs); }
    AlignIsAlign(t);
  }

  /** What writeScalar takes from the value: false and 0 when it panics. */
  function ScalarWord(env: Env, t: GoType, v: seq<Byte>): (r: Option<nat>)
    requires |v| == Size(t)
  {
    match t
    case Bool => Some(if v[0] == 1 then 1 else 0)
    case SInt(_) => Some(ToWord(Signed(v)))
    case Ptr => Some(Unsigned(v))
    case Func => Some(Unsigned(env.codeOf(v)))
    case _ => None
  }

  /** One integer register holds a scalar, or something writeScalar refuses. */
  lemma ScalarShape(env: Env, c: Cursor, t: GoType, v: seq<Byte>, steps: seq<Step>)
    requires StepsOf(c, t, steps) && |steps| == 1 && IsInt(steps[0]) && Legal(t, v) && !t.Iface?
    ensures ScalarWord(env, t, v).None? <==> Rejects(t, steps)
    ensures ScalarWord(env, t, v).Some? ==>
              var x := ScalarWord(env, t, v).value; var w := Image(env, t, v, steps); var st := steps[0];
              && IsAlign(st.size) && st.offset == 0 && st.size == |w| && LowBytes(x, st.size) == w
  {
    hide LowBytes, Unsigned, Signed, ToWord, StepsOk, Place;
    EmitForms(c, t);
    EmitShaped(c, t);
    hide Emit;
    assert ShapedAt(steps[0], Parts(t, 0)[0]);
    match t {
      case Bool => BoolBytes(v);
      case SInt(_) => SignedBytes(v);
      case Ptr => WordBytes(v);
      case Func => WordBytes(env.codeOf(v));
      case _ =>
    }
  }

  lemma FloatShape(env: Env, c: Cursor, t: GoType, v: seq<Byte>, steps: seq<Step>)
    requires StepsOf(c, t, steps) && |steps| == 1 && steps[0].kind.StepFloatReg? && Legal(t, v)
    ensures t.Float? <==> !Rejects(t, steps)
    ensures t.Float? ==>
              && steps[0].offset == 0 && steps[0].size == t.width == |v| && (t.width == 4 || t.width == 8)
              && Image(env, t, v, steps) == if t.width == 8 then v else NarrowWord(v)
  {
    hide StepsOk, Place, NarrowWord;
    EmitForms(c, t);
    EmitShaped(c, t);
    hide Emit;
    assert ShapedAt(steps[0], Parts(t, 0)[0]);
  }

  /** The float64's bytes narrowed are the image of a float32. */
  lemma Narrowed(t: GoType, v: seq<Byte>, x: seq<Byte>)
    requires t.Float? && Legal(t, v) && Wf(t) && x == if t.width == 8 then v else WideWord(v)
    ensures t.width == 4 ==> LowBytes(Narrow(Unsigned(x)), 4) == NarrowWord(v)
  {
    hide Narrow, Widen, LowBytes, Unsigned;
    if t.width == 4 {
      UnsignedBound(v);
      Pow2Of64();
      WidenRange(Unsigned(v));
      UnsignedLow(Widen(Unsigned(v)), 8);
    }
  }

  function WordOf(v: seq<Byte>, i: nat): (r: seq<Byte>)
    requires 8 * i + 8 <= |v|
    ensures |r| == 8
  {
    v[8 * i..8 * i + 8]
  }

  lemma WordsShape(env: Env, c: Cursor, t: GoType, v: seq<Byte>, steps: seq<Step>)
    requires StepsOf(c, t, steps) && (t.Str? || t.Slice?) && Legal(t, v) && !OnStack(steps)
    ensures |v| == 8 * |steps| && |steps| >= 2 && Image(env, t, v, steps) == v
    ensures forall k :: 0 <= k < |steps| ==>
              !steps[k].kind.StepStack? && steps[k].size == 8 && steps[k].offset == 8 * k && (k > 0 ==> !steps[k].kind.StepPointer?)
  {
    hide StepsOk, Place;
    EmitShaped(c, t);
    hide Emit;
    forall k | 0 <= k < |steps|
      ensures !steps[k].kind.StepStack? && steps[k].size == 8 && steps[k].offset == 8 * k && (k > 0 ==> !steps[k].kind.StepPointer?)
    {
      assert ShapedAt(steps[k], Parts(t, 0)[k]);
    }
  }

  lemma ComplexShape(env: Env, c: Cursor, t: GoType, v: seq<Byte>, steps: seq<Step>)
    requires StepsOf(c, t, steps) && t.Complex? && Legal(t, v) && !OnStack(steps)
    ensures t.width == 8 || t.width == 16
    ensures |v| == t.width && |steps| == 2 && steps[0].kind.StepFloatReg? && steps[1].kind.StepFloatReg?
    ensures var h := t.width / 2; steps[0].offset == 0 && steps[0].size == h && steps[1].offset == h && steps[1].size == h
    ensures Image(env, t, v, steps) == if t.width == 16 then v else WideWord(v[..4])[..4] + WideWord(v[4..])[..4]
  {
    hide StepsOk, Place, WideWord;
    EmitShaped(c, t);
    hide Emit;
    assert ShapedAt(steps[0], Parts(t, 0)[0]) && ShapedAt(steps[1], Parts(t, 0)[1]);
  }

  lemma PartsShape(env: Env, c: Cursor, t: GoType, v: seq<Byte>, steps: seq<Step>)
    requires StepsOf(c, t, steps) && Legal(t, v) && !OnStack(steps) && !t.Func? && t != Complex(8) && t != Float(4)
    ensures steps != [] ==> Shaped(steps, Parts(t, 0))
    ensures forall k :: 0 <= k < |steps| ==> StepFits(steps[k], |v|)
    ensures Image(env, t, v, steps) == v
  {
    hide StepsOk, Place, Parts;
    EmitForms(c, t);
    if steps != [] { EmitShaped(c, t); }
  }

  lemma IfaceShape(env: Env, c: Cursor, t: GoType, v: seq<Byte>, steps: seq<Step>)
    requires StepsOf(c, t, steps) && Legal(t, v) && t.Iface?
    ensures |v| == 16 && Image(env, t, v, steps) == v
    ensures OnStack(steps) <==> |steps| == 1
    ensures OnStack(steps) ==>
              && steps[0].offset == 0 && steps[0].size == 16
              && steps[0].stkOff % 8 == 0 && steps[0].stkOff + 16 <= STACK_WINDOW
    ensures !OnStack(steps) ==>
              |steps| == 2 && !steps[0].kind.StepStack? && !steps[1].kind.StepStack?
              && steps[0].offset == 0 && steps[0].size == 8 && steps[1].offset == 8 && steps[1].size == 8
  {
    hide Place;
    EmitForms(c, t);
    if !OnStack(steps) {
      EmitShaped(c, t);
      hide Emit, StepsOk;
      assert ShapedAt(steps[0], Parts(t, 0)[0]) && ShapedAt(steps[1], Parts(t, 0)[1]);
    } else {
      assert StepOk(steps[0]);
    }
  }

  /** Two words stored in a slot, the second of them mirrored. */
  lemma SlotIface(env: Env, f: Frame, g: Frame, h: Frame, t: GoType, v: seq<Byte>, steps: seq<Step>)
    requires FrameOk(f) && FrameOk(g) && FrameOk(h) && OnStack(steps) && StepsOk(steps) && |v| == 16 && t.Iface?
    requires steps[0].offset == 0 && steps[0].size == 16 && steps[0].stkOff % 8 == 0
    requires g == f.(stack := g.stack) && g.stack == f.stack[..steps[0].stkOff] + v + f.stack[steps[0].stkOff + 16..]
    requires h == g.(stackPtrs := g.stackPtrs[WordIdx(steps[0].stkOff) + 1 := v[8..]])
    ensures Scattered(env, f, h, t, v, steps)
  {
    hide Untouched, SlotMirrored, StepsOk;
    assert StepsOk(steps) ==> StepOk(steps[0]) by { StepsOkEach(steps); }
    SlotIfaceUntouched(f, g, h, v, steps);
    SlotIfaceMirrored(f, g, h, t, v, steps[0]);
    SlotIfaceKept(f, h, t, steps, v[8..]);
    assert v == v[0..16];
    assert h.stack[steps[0].stkOff..steps[0].stkOff + 16] == v;
  }

  lemma SlotIfaceUntouched(f: Frame, g: Frame, h: Frame, v: seq<Byte>, steps: seq<Step>)
    requires FrameOk(f) && FrameOk(g) && FrameOk(h) && OnStack(steps) && StepOk(steps[0]) && |v| == 16
    requires steps[0].size == 16 && steps[0].stkOff % 8 == 0
    requires g == f.(stack := g.stack) && g.stack == f.stack[..steps[0].stkOff] + v + f.stack[steps[0].stkOff + 16..]
    requires h == g.(stackPtrs := g.stackPtrs[WordIdx(steps[0].stkOff) + 1 := v[8..]])
    ensures Untouched(f, h, steps)
  {
    forall w | 0 <= w < STACK_WORDS && (forall k :: 0 <= k < |steps| ==> !HasWord(steps[k], w)) ensures h.stackPtrs[w] == f.stackPtrs[w] {
      assert !HasWord(steps[0], w);
    }
    forall b | 0 <= b < STACK_WINDOW && (forall k :: 0 <= k < |steps| ==> !InSlot(steps[k], b)) ensures h.stack[b] == f.stack[b] {
      assert !InSlot(steps[0], b);
    }
  }

  lemma SlotIfaceKept(f: Frame, h: Frame, t: GoType, steps: seq<Step>, p: Word8)
    requires FrameOk(f) && FrameOk(h) && OnStack(steps) && StepsOk(steps) && t.Iface? && steps[0].stkOff % 8 == 0
    requires steps[0].stkOff + 16 <= STACK_WINDOW && h.ptrs == f.ptrs && h.ints == f.ints
    requires h.stackPtrs == f.stackPtrs[WordIdx(steps[0].stkOff) + 1 := p]
    ensures MirrorsKept(f, h, t, steps)
  {
    forall w: nat | w < STACK_WORDS && !MirrorsWord(t, steps, w) ensures h.stackPtrs[w] == f.stackPtrs[w] {
      assert w != WordIdx(steps[0].stkOff) + 1;
    }
  }

  /** Of an interface the collector sees the second word alone. */
  lemma SlotIfaceMirrored(f: Frame, g: Frame, h: Frame, t: GoType, v: seq<Byte>, st: Step)
    requires FrameOk(f) && FrameOk(g) && FrameOk(h) && st.kind.StepStack? && StepOk(st) && |v| == 16 && t.Iface?
    requires st.size == 16 && st.stkOff % 8 == 0
    requires g.stack == f.stack[..st.stkOff] + v + f.stack[st.stkOff + 16..]
    requires h == g.(stackPtrs := g.stackPtrs[WordIdx(st.stkOff) + 1 := v[8..]])
    ensures SlotMirrored(h, t, st.stkOff)
  {
    var w := WordIdx(st.stkOff) + 1;
    assert 8 * w == st.stkOff + 8;
    assert StackWord(h, w) == v[8..];
    hide StackWord;
    forall rel: nat | SeenWord(t, rel) ensures WordMirrored(h, WordIdx(st.stkOff + rel)) {
      assert rel == 8 && WordIdx(st.stkOff + rel) == w;
    }
  }

  lemma TwoWords(was: seq<Byte>, now: seq<Byte>, off: nat, a: Word8, b: Word8)
    requires off + 16 <= |was| && now == was[..off] + a + was[off + 8..]
    ensures now[..off + 8] + b + now[off + 16..] == was[..off] + (a + b) + was[off + 16..]
  {
  }

  lemma ImageOnStack(env: Env, t: GoType, v: seq<Byte>, steps: seq<Step>)
    requires OnStack(steps) && |v| == Size(t)
    ensures Image(env, t, v, steps) == v
  {
  }

  /** Funcs, floats and complexes never take no register at all. */
  lemma SingleWords(c: Cursor, t: GoType, steps: seq<Step>)
    requires StepsOf(c, t, steps) && |steps| != 1
    ensures !t.Func? && !t.Float? && !OnStack(steps) && (t.Complex? ==> |steps| >= 2)
    ensures |steps| >= 2 ==> !steps[0].kind.StepStack?
  {
    hide StepsOk, Place;
    EmitForms(c, t);
    if 0 < Size(t) { EmitShaped(c, t); }
    hide Emit;
    if steps != [] { assert ShapedAt(steps[0], Parts(t, 0)[0]); }
  }

  /** A pointer of a value on the stack is a whole word of the slot. */
  lemma PtrOffPlace(t: GoType, stkOff: nat, off: nat)
    requires Wf(t) && off in PtrList(t, 0) && Aligned(stkOff, Align(t))
    ensures off + 8 <= Size(t) && 8 * WordIdx(stkOff + off) == stkOff + off && IsPtrWord(t, off)
  {
    hide PtrList, IsPtrWord, Wf, Size, Align;
    PtrListExact(t, 0, off);
    PtrWordPlace(t, off);
  }

  lemma AllMirrored(f: Frame, t: GoType, stkOff: nat, offs: seq<nat>)
    requires FrameOk(f) && Wf(t) && offs == PtrList(t, 0)
    requires forall j :: 0 <= j < |offs| ==> WordMirrored(f, WordIdx(stkOff + offs[j]))
    ensures SlotMirrored(f, t, stkOff)
  {
    hide IsPtrWord, PtrList, Wf, WordIdx, WordMirrored, SeenWord;
    forall rel: nat | SeenWord(t, rel) ensures WordMirrored(f, WordIdx(stkOff + rel)) {
      SeenIsPtr(t, rel);
      PtrListExact(t, 0, rel);
      var j :| 0 <= j < |offs| && offs[j] == rel;
    }
  }

  /** The first `i` pointers of the value at `stkOff` are mirrored, and no word that is
      none of its pointers has a new mirror. */
  ghost predicate Mirroring(f: Frame, g: Frame, t: GoType, stkOff: nat, offs: seq<nat>, i: nat)
    requires FrameOk(f) && FrameOk(g) && i <= |offs|
  {
    && (forall w: nat :: w < STACK_WORDS && !IsPtrWord(t, 8 * w - stkOff) ==> g.stackPtrs[w] == f.stackPtrs[w])
    && (forall j :: 0 <= j < i ==> WordMirrored(g, WordIdx(stkOff + offs[j])))
  }

  lemma NoneMirrored(f: Frame, t: GoType, stkOff: nat, offs: seq<nat>)
    requires FrameOk(f)
    ensures Mirroring(f, f, t, stkOff, offs, 0)
  {
  }

  lemma MirrorNext(f: Frame, g: Frame, t: GoType, stkOff: nat, offs: seq<nat>, i: nat)
    requires FrameOk(f) && FrameOk(g) && i < |offs| && Mirroring(f, g, t, stkOff, offs, i)
    requires var w := WordIdx(stkOff + offs[i]); w < STACK_WORDS && 8 * w == stkOff + offs[i] && IsPtrWord(t, offs[i])
    ensures var w := WordIdx(stkOff + offs[i]);
            Mirroring(f, g.(stackPtrs := g.stackPtrs[w := StackWord(g, w)]), t, stkOff, offs, i + 1)
  {
    hide IsPtrWord, WordIdx;
    var w := WordIdx(stkOff + offs[i]);
    var h := g.(stackPtrs := g.stackPtrs[w := StackWord(g, w)]);
    forall j | 0 <= j < i + 1 ensures WordMirrored(h, WordIdx(stkOff + offs[j])) {
      if j < i { assert WordMirrored(g, WordIdx(stkOff + offs[j])); }
    }
  }

  lemma MirroringDone(f: Frame, g: Frame, t: GoType, stkOff: nat, offs: seq<nat>)
    requires FrameOk(f) && FrameOk(g) && Wf(t) && offs == PtrList(t, 0) && Mirroring(f, g, t, stkOff, offs, |offs|)
    ensures SlotMirrored(g, t, stkOff)
    ensures forall w: nat :: w < STACK_WORDS && !IsPtrWord(t, 8 * w - stkOff) ==> g.stackPtrs[w] == f.stackPtrs[w]
  {
    hide IsPtrWord, PtrList, Wf, WordMirrored, WordIdx;
    AllMirrored(g, t, stkOff, offs);
  }

  lemma MirroredInSlot(t: GoType, steps: seq<Step>, w: nat)
    requires Wf(t) && OnStack(steps) && steps[0].size == Size(t) && MirrorsWord(t, steps, w)
    ensures HasWord(steps[0], w)
  {
    hide IsPtrWord, Wf, Size, Align;
    SeenIsPtr(t, 8 * w - steps[0].stkOff);
    PtrWordPlace(t, 8 * w - steps[0].stkOff);
  }

  /** A value stored in its slot, its pointers mirrored. */
  lemma SlotWritten(env: Env, f: Frame, g: Frame, h: Frame, t: GoType, v: seq<Byte>, steps: seq<Step>)
    requires FrameOk(f) && FrameOk(g) && FrameOk(h) && OnStack(steps) && StepsOk(steps) && |v| == Size(t) == steps[0].size
    requires Wf(t) && steps[0].offset == 0 && StepOk(steps[0]) && g == WriteAt(f, steps[0], v) && Image(env, t, v, steps) == v
    requires h == g.(stackPtrs := h.stackPtrs) && SlotMirrored(h, t, steps[0].stkOff)
    requires forall w: nat :: w < STACK_WORDS && !MirrorsWord(t, steps, w) ==> h.stackPtrs[w] == f.stackPtrs[w]
    ensures Scattered(env, f, h, t, v, steps)
  {
    hide SlotMirrored, Image, Size, Wf, MirrorsWord;
    var off := steps[0].stkOff;
    WriteTouches(f, steps[0], v, steps);
    ReadWritten(f, steps[0], v);
    forall w | 0 <= w < STACK_WORDS && (forall k :: 0 <= k < |steps| ==> !HasWord(steps[k], w)) ensures h.stackPtrs[w] == f.stackPtrs[w] {
      assert !HasWord(steps[0], w);
      if MirrorsWord(t, steps, w) { MirroredInSlot(t, steps, w); }
    }
    assert Holds(h, steps[0], v);
  }

  class RegBuf {
    const ints: array<Word8>
    const ptrs: array<Word8>
    const floats: array<Word8>
    const stackPtrs: array<Word8>
    const stack: array<Byte>

    constructor ()
      ensures Valid() && fresh(ints) && fresh(ptrs) && fresh(floats) && fresh(stackPtrs) && fresh(stack)
    {
      ints := new Word8[INT_ARG_REGS](_ => ZERO_WORD);
      ptrs := new Word8[INT_ARG_REGS](_ => ZERO_WORD);
      floats := new Word8[FLOAT_ARG_REGS](_ => ZERO_WORD);
      stackPtrs := new Word8[STACK_WORDS](_ => ZERO_WORD);
      stack := new Byte[STACK_WINDOW](_ => 0);
    }

    predicate Valid() {
      && ints.Length == INT_ARG_REGS && ptrs.Length == INT_ARG_REGS && floats.Length == FLOAT_ARG_REGS
      && stackPtrs.Length == STACK_WORDS && stack.Length == STACK_WINDOW
      && ints != ptrs && ints != floats && ints != stackPtrs && ptrs != floats && ptrs != stackPtrs && floats != stackPtrs
    }

    ghost function Repr(): set<object> { {ints, ptrs, floats, stackPtrs, stack} }

    ghost function State(): (f: Frame)
      requires Valid()
      reads ints, ptrs, floats, stackPtrs, stack
      ensures FrameOk(f)
    {
      Frame(ints[..], ptrs[..], floats[..], stackPtrs[..], stack[..])
    }

    // ----- single writes -----

    method StoreStack(off: nat, bs: seq<Byte>)
      requires Valid() && off + |bs| <= STACK_WINDOW
      modifies stack
      ensures stack[..] == old(stack[..off]) + bs + old(stack[off + |bs|..])
    {
      for i := 0 to |bs|
        invariant stack[..] == old(stack[..off]) + bs[..i] + old(stack[off + i..])
      {
        stack[off + i] := bs[i];
      }
    }

    /** Stores bytes at a step's address. */
    method Store(st: Step, bs: seq<Byte>)
      requires Valid() && StepOk(st) && |bs| <= if st.kind.StepStack? then st.size else 8
      modifies ints, floats, stack
      ensures State() == WriteAt(old(State()), st, bs)
    {
      match st.kind
      case StepStack => StoreStack(st.stkOff, bs);
      case StepFloatReg => floats[st.freg] := Merge(floats[st.freg], bs);
      case _ => ints[st.ireg] := Merge(ints[st.ireg], bs);
    }

    method SetPtr(r: nat, p: Word8)
      requires Valid() && r < INT_ARG_REGS
      modifies ptrs
      ensures State() == old(State()).(ptrs := old(State()).ptrs[r := p])
    {
      ptrs[r] := p;
    }

    /** The low `size` bytes of `x`; a size no word has panics. */
    method WriteWord(st: Step, x: nat, size: nat) returns (ok: bool)
      requires Valid() && StepOk(st) && (st.kind.StepStack? ==> size <= st.size)
      modifies ints, floats, stack
      ensures ok <==> IsAlign(size)
      ensures !ok ==> State() == old(State())
      ensures ok ==> |LowBytes(x, size)| == size && State() == WriteAt(old(State()), st, LowBytes(x, size))
    {
      if size != 8 && size != 4 && size != 2 && size != 1 { return false; }
      LowBytesLen(x, size);
      Store(st, LowBytes(x, size));
      return true;
    }

    /** Where a value is being taken apart: `n` steps written, `m` of them mirrored. */
    ghost predicate At(f: Frame, steps: seq<Step>, w: seq<Byte>, n: nat, m: nat)
      requires Valid() && FrameOk(f) && StepsOk(steps) && m <= n <= |steps|
      reads ints, ptrs, floats, stackPtrs, stack
    {
      && Untouched(f, State(), steps) && RegsKept(f, State(), steps) && State().stackPtrs == f.stackPtrs
      && EncodesTo(State(), steps, w, n) && RegsMirrored(State(), steps, m)
    }

    /** Memory copied to step `n`'s address. */
    method WriteBytes(ghost f: Frame, steps: seq<Step>, n: nat, ghost m: nat, bs: seq<Byte>, ghost w: seq<Byte>)
      requires Valid() && StepsOk(steps) && FrameOk(f) && m <= n < |steps| && At(f, steps, w, n, m)
      requires !steps[n].kind.StepStack? && StepFits(steps[n], |w|) && steps[n].size <= |bs| <= 8
      requires bs[..steps[n].size] == w[steps[n].offset..steps[n].offset + steps[n].size]
      requires IsInt(steps[n]) ==> |bs| == steps[n].size
      modifies ints, floats, stack
      ensures At(f, steps, w, n + 1, m)
    {
      hide RegsKept, WriteAt, EncodesTo, RegsMirrored, Untouched, Read;
      ghost var was := State();
      Store(steps[n], bs);
      WroteStep(was, steps, w, n, bs, m);
      WriteKeeps(was, steps, n, bs);
      UntouchedTrans(f, was, State(), steps);
      KeptTrans(f, was, State(), steps);
    }

    /** A word written to step `n` with the step's size. */
    method WritePart(ghost f: Frame, steps: seq<Step>, n: nat, ghost m: nat, x: nat, ghost w: seq<Byte>) returns (ok: bool)
      requires Valid() && StepsOk(steps) && FrameOk(f) && m <= n < |steps| && At(f, steps, w, n, m)
      requires !steps[n].kind.StepStack? && StepFits(steps[n], |w|) && IsAlign(steps[n].size)
      requires LowBytes(x, steps[n].size) == w[steps[n].offset..steps[n].offset + steps[n].size]
      modifies ints, floats, stack
      ensures ok && At(f, steps, w, n + 1, m)
    {
      hide RegsKept, WriteAt, EncodesTo, RegsMirrored, Untouched, Read, LowBytes;
      ghost var was := State();
      ok := WriteWord(steps[n], x, steps[n].size);
      ghost var bs := LowBytes(x, steps[n].size);
      assert bs[..steps[n].size] == bs;
      WroteStep(was, steps, w, n, bs, m);
      WriteKeeps(was, steps, n, bs);
      UntouchedTrans(f, was, State(), steps);
      KeptTrans(f, was, State(), steps);
    }

    /** Copies register step `m` into its mirror if it holds a pointer. */
    method MirrorStep(ghost f: Frame, steps: seq<Step>, ghost n: nat, m: nat, ghost w: seq<Byte>)
      requires Valid() && StepsOk(steps) && FrameOk(f) && m < n <= |steps| && At(f, steps, w, n, m)
      requires !steps[m].kind.StepStack?
      modifies ptrs
      ensures At(f, steps, w, n, m + 1)
    {
      hide RegsKept, EncodesTo, RegsMirrored, Untouched, Read;
      ghost var was := State();
      if steps[m].kind.StepPointer? {
        MirroredStep(was, steps, w, n, m, ints[steps[m].ireg]);
        SetPtr(steps[m].ireg, ints[steps[m].ireg]);
        UntouchedTrans(f, was, State(), steps);
        KeptTrans(f, was, State(), steps);
      } else {
        NoMirror(was, steps, m);
      }
    }

    ghost method Start(steps: seq<Step>, w: seq<Byte>)
      requires Valid() && StepsOk(steps)
      ensures At(State(), steps, w, 0, 0)
    {
      Nothing(State(), steps, w);
    }

    // ----- values -----

    /** A single word into an integer register. */
    method ScatterScalar(env: Env, t: GoType, v: seq<Byte>, steps: seq<Step>, ghost c: Cursor) returns (ok: bool)
      requires Valid() && StepsOf(c, t, steps) && Legal(t, v) && !t.Iface? && |steps| == 1 && IsInt(steps[0])
      modifies ints, floats, stack, ptrs
      ensures ok <==> !Rejects(t, steps)
      ensures !ok ==> State() == old(State())
      ensures ok ==> Scattered(env, old(State()), State(), t, v, steps)
    {
      hide At, StepsOk, LowBytes, Image, ScalarWord, Emit, Scattered;
      ScalarShape(env, c, t, v, steps);
      var x := ScalarWord(env, t, v);
      if x.None? { return false; }
      ghost var f := State();
      ghost var w := Image(env, t, v, steps);
      Start(steps, w);
      var wrote := WritePart(f, steps, 0, 0, x.value, w);
      MirrorStep(f, steps, 1, 0, w);
      Finish(env, f, t, v, steps, w);
      return true;
    }

    ghost method Finish(env: Env, f: Frame, t: GoType, v: seq<Byte>, steps: seq<Step>, w: seq<Byte>)
      requires Valid() && FrameOk(f) && StepsOk(steps) && !OnStack(steps) && |v| == Size(t)
      requires w == Image(env, t, v, steps) && At(f, steps, w, |steps|, |steps|)
      ensures Scattered(env, f, State(), t, v, steps)
    {
      hide RegsKept, EncodesTo, RegsMirrored, Untouched, Image, StepsOk, Scattered;
      ScatteredNow(env, f, State(), t, v, steps, w);
    }

    /** A float register takes Value.Float, a float64, narrowed to the step's size; it
        panics on a struct or array. */
    method ScatterFloat(env: Env, t: GoType, v: seq<Byte>, steps: seq<Step>, ghost c: Cursor) returns (ok: bool)
      requires Valid() && StepsOf(c, t, steps) && Legal(t, v) && |steps| == 1 && steps[0].kind.StepFloatReg?
      modifies ints, floats, stack, ptrs
      ensures ok <==> !Rejects(t, steps)
      ensures !ok ==> State() == old(State())
      ensures ok ==> Scattered(env, old(State()), State(), t, v, steps)
    {
      hide At, StepsOk, Image, Emit, Scattered, Narrow, Widen, LowBytes;
      FloatShape(env, c, t, v, steps);
      if !t.Float? { return false; }
      ghost var f := State();
      var x := if t.width == 8 then v else WideWord(v);    // Value.Float
      var bs := if steps[0].size == 8 then x else LowBytes(Narrow(Unsigned(x)), 4);
      assert bs == Image(env, t, v, steps) by { Narrowed(t, v, x); }
      Start(steps, bs);
      WriteBytes(f, steps, 0, 0, bs, bs);
      MirrorStep(f, steps, 1, 0, bs);
      Finish(env, f, t, v, steps, bs);
      return true;
    }

    /** Strings and slices word by word; the pointer comes first. */
    method ScatterWords(env: Env, t: GoType, v: seq<Byte>, steps: seq<Step>, ghost c: Cursor)
      requires Valid() && StepsOf(c, t, steps) && Legal(t, v) && (t.Str? || t.Slice?) && !OnStack(steps)
      modifies ints, floats, stack, ptrs
      ensures Scattered(env, old(State()), State(), t, v, steps)
    {
      hide At, StepsOk, Image, Emit, Scattered, LowBytes, Unsigned;
      WordsShape(env, c, t, v, steps);
      ghost var f := State();
      Start(steps, v);
      var i := 0;
      while i < |steps|
        invariant 0 <= i <= |steps| && At(f, steps, v, i, 0)
      {
        WordBytes(WordOf(v, i));
        var wrote := WritePart(f, steps, i, 0, Unsigned(WordOf(v, i)), v);
        i := i + 1;
      }
      MirrorStep(f, steps, |steps|, 0, v);
      ghost var m := 1;
      while m < |steps|
        invariant 1 <= m <= |steps| && At(f, steps, v, |steps|, m)
      {
        SkipMirror(f, steps, m, v);
        m := m + 1;
      }
      Finish(env, f, t, v, steps, v);
    }

    ghost method SkipMirror(f: Frame, steps: seq<Step>, m: nat, w: seq<Byte>)
      requires Valid() && StepsOk(steps) && FrameOk(f) && m < |steps| && At(f, steps, w, |steps|, m)
      requires !steps[m].kind.StepPointer?
      ensures At(f, steps, w, |steps|, m + 1)
    {
      hide RegsKept, EncodesTo, Untouched, StepsOk;
    }

    /** Both parts as float64s, whatever the width of the complex. */
    method ScatterComplex(env: Env, t: GoType, v: seq<Byte>, steps: seq<Step>, ghost c: Cursor)
      requires Valid() && StepsOf(c, t, steps) && Legal(t, v) && t.Complex? && !OnStack(steps)
      modifies ints, floats, stack, ptrs
      ensures Scattered(env, old(State()), State(), t, v, steps)
    {
      hide At, StepsOk, Image, Emit, Scattered, WideWord;
      ComplexShape(env, c, t, v, steps);
      var w := Image(env, t, v, steps);
      var h := t.width / 2;
      var re := if h == 8 then v[..8] else WideWord(v[..4]);
      var im := if h == 8 then v[8..] else WideWord(v[4..]);
      ghost var f := State();
      Start(steps, w);
      WriteBytes(f, steps, 0, 0, re, w);
      WriteBytes(f, steps, 1, 0, im, w);
      SkipMirror(f, steps, 0, w);
      SkipMirror(f, steps, 1, w);
      Finish(env, f, t, v, steps, w);
    }

    /** Everything else in registers: slices of the value's memory. */
    method ScatterParts(env: Env, t: GoType, v: seq<Byte>, steps: seq<Step>, ghost c: Cursor)
      requires Valid() && StepsOf(c, t, steps) && Legal(t, v) && !OnStack(steps)
      requires !t.Func? && t != Complex(8) && t != Float(4)
      modifies ints, floats, stack, ptrs
      ensures Scattered(env, old(State()), State(), t, v, steps)
    {
      hide At, StepsOk, Image, Emit, Scattered;
      PartsShape(env, c, t, v, steps);
      ghost var f := State();
      Start(steps, v);
      var k := 0;
      while k < |steps|
        invariant 0 <= k <= |steps| && At(f, steps, v, k, k)
      {
        assert ShapedAt(steps[k], Parts(t, 0)[k]);
        WriteBytes(f, steps, k, k, v[steps[k].offset..steps[k].offset + steps[k].size], v);
        MirrorStep(f, steps, k + 1, k, v);
        k := k + 1;
      }
      Finish(env, f, t, v, steps, v);
    }

    /** Two words in a row, the second of them mirrored. */
    method SlotWords(off: nat, tab: Word8, data: Word8, ghost v: seq<Byte>)
      requires Valid() && off % 8 == 0 && off + 16 <= STACK_WINDOW && v == tab + data
      modifies stack, stackPtrs
      ensures stack[..] == old(stack[..off]) + v + old(stack[off + 16..])
      ensures stackPtrs[..] == old(stackPtrs[..])[WordIdx(off) + 1 := data]
    {
      ghost var was := stack[..];
      StoreStack(off, tab);
      ghost var now := stack[..];
      StoreStack(off + 8, data);
      TwoWords(was, now, off, tab, data);
      stackPtrs[WordIdx(off) + 1] := data;
    }

    /** An interface: the itab word, then the data word, which alone is mirrored. */
    method ScatterIface(env: Env, t: GoType, v: seq<Byte>, steps: seq<Step>, ghost c: Cursor)
      requires Valid() && StepsOf(c, t, steps) && Legal(t, v) && t.Iface?
      modifies ints, floats, stack, ptrs, stackPtrs
      ensures Scattered(env, old(State()), State(), t, v, steps)
    {
      hide At, StepsOk, Image, Emit, Scattered, Untouched, Encodes, Legal, EncodesTo, RegsMirrored;
      IfaceShape(env, c, t, v, steps);
      var tab, data := v[..8], v[8..];
      ghost var f := State();
      if |steps| == 1 {
        SlotWords(steps[0].stkOff, tab, data, v);
        SlotIface(env, f, f.(stack := State().stack), State(), t, v, steps);
        return;
      }
      Start(steps, v);
      WriteBytes(f, steps, 0, 0, tab, v);
      WriteBytes(f, steps, 1, 0, data, v);
      MirrorStep(f, steps, 2, 0, v);
      MirrorStep(f, steps, 2, 1, v);
      Finish(env, f, t, v, steps, v);
    }

    /** Mirrors every pointer of the stack-assigned value at `stkOff`. */
    method MirrorStackPtrs(stkOff: nat, t: GoType)
      requires Valid() && Wf(t) && Aligned(stkOff, Align(t)) && stkOff + Size(t) <= STACK_WINDOW
      modifies stackPtrs
      ensures forall w: nat :: w < STACK_WORDS && !IsPtrWord(t, 8 * w - stkOff) ==> stackPtrs[w] == old(stackPtrs[w])
      ensures SlotMirrored(State(), t, stkOff)
    {
      hide IsPtrWord, PtrList, Wf, Size, Align, Mirroring, WordMirrored;
      ghost var f := State();
      var offs := PtrOffsets(t, 0, []);
      assert offs == PtrList(t, 0);
      assert Mirroring(f, f, t, stkOff, offs, 0) by { NoneMirrored(f, t, stkOff, offs); }
      var i := 0;
      while i < |offs|
        invariant 0 <= i <= |offs| && Mirroring(f, State(), t, stkOff, offs, i)
      {
        PtrOffPlace(t, stkOff, offs[i]);
        MirrorNext(f, State(), t, stkOff, offs, i);
        ghost var g := State();
        var w := WordIdx(stkOff + offs[i]);
        stackPtrs[w] := stack[8 * w..8 * w + 8];
        assert State() == g.(stackPtrs := g.stackPtrs[w := StackWord(g, w)]);
        i := i + 1;
      }
      MirroringDone(f, State(), t, stkOff, offs);
    }

    /** A stack-assigned value is copied whole. */
    method ScatterSlot(env: Env, t: GoType, v: seq<Byte>, steps: seq<Step>, ghost c: Cursor)
      requires Valid() && StepsOf(c, t, steps) && Legal(t, v) && OnStack(steps) && !t.Iface?
      modifies ints, floats, stack, stackPtrs
      ensures Scattered(env, old(State()), State(), t, v, steps)
    {
      hide Emit, Scattered, SlotMirrored, Image;
      EmitForms(c, t);
      ghost var f := State();
      assert StepOk(steps[0]);
      Store(steps[0], v);
      ghost var g := State();
      MirrorStackPtrs(steps[0].stkOff, t);
      assert Image(env, t, v, steps) == v by { ImageOnStack(env, t, v, steps); }
      SlotWritten(env, f, g, State(), t, v, steps);
    }

    /** One result into the registers or the slot the ABI assigned to it. */
    method ScatterValue(env: Env, t: GoType, v: seq<Byte>, steps: seq<Step>, ghost c: Cursor) returns (ok: bool)
      requires Valid() && StepsOf(c, t, steps) && Legal(t, v)
      modifies ints, floats, stack, ptrs, stackPtrs
      ensures ok <==> !Rejects(t, steps)
      ensures !ok <==> |steps| == 1 && !steps[0].kind.StepStack? && (t.UInt? || t.Array? || t.Struct?)
      ensures !ok ==> State() == old(State())
      ensures ok ==> Scattered(env, old(State()), State(), t, v, steps)
    {
      hide Emit, Scattered, Image, StepsOk;
      if t.Iface? {
        ScatterIface(env, t, v, steps, c);
        return true;
      }
      if |steps| == 1 {
        match steps[0].kind {
          case StepFloatReg => ok := ScatterFloat(env, t, v, steps, c);
          case StepIntReg => ok := ScatterScalar(env, t, v, steps, c);
          case StepPointer => ok := ScatterScalar(env, t, v, steps, c);
          case StepStack => ScatterSlot(env, t, v, steps, c); ok := true;
        }
        return;
      }
      SingleWords(c, t, steps);
      if |steps| >= 2 && !steps[0].kind.StepStack? {
        if t.Str? || t.Slice? { ScatterWords(env, t, v, steps, c); return true; }
        if t.Complex? { ScatterComplex(env, t, v, steps, c); return true; }
      }
      ScatterParts(env, t, v, steps, c);
      return true;
    }
  }
}
