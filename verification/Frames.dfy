/** The register spill area and stack buffer of one call, as bytes, and what values
    they encode under the ABI. */
module Frames {
  import opened Bits
  import opened AbiAssign
  import opened AbiLayout
  import opened Precise

  const STACK_WORDS := STACK_WINDOW / 8

  /** Registers hold eight bytes each, low byte first; `ptrs` and `stackPtrs` are
      the mirrors the collector scans. */
  datatype Frame = Frame(ints: seq<Word8>, ptrs: seq<Word8>, floats: seq<Word8>, stackPtrs: seq<Word8>, stack: seq<Byte>)

  predicate FrameOk(f: Frame) {
    && |f.ints| == INT_ARG_REGS && |f.ptrs| == INT_ARG_REGS && |f.floats| == FLOAT_ARG_REGS
    && |f.stackPtrs| == STACK_WORDS && |f.stack| == STACK_WINDOW
  }

  /** A step that names a register that exists, or a slot inside the window. */
  predicate StepOk(st: Step) {
    match st.kind
    case StepStack => st.stkOff + st.size <= STACK_WINDOW
    case StepFloatReg => st.freg < FLOAT_ARG_REGS && st.size <= 8
    case _ => st.ireg < INT_ARG_REGS && st.size <= 8
  }

  /** The bytes a step moves out of the frame. */
  function Read(f: Frame, st: Step): (r: seq<Byte>)
    requires FrameOk(f) && StepOk(st)
    ensures |r| == st.size
  {
    match st.kind
    case StepStack => f.stack[st.stkOff..st.stkOff + st.size]
    case StepFloatReg => f.floats[st.freg][..st.size]
    case _ => f.ints[st.ireg][..st.size]
  }

  /** The frame after `bs` is stored at a step's address. */
  function WriteAt(f: Frame, st: Step, bs: seq<Byte>): (g: Frame)
    requires FrameOk(f) && StepOk(st) && |bs| <= if st.kind.StepStack? then st.size else 8
    ensures FrameOk(g) && g.ptrs == f.ptrs && g.stackPtrs == f.stackPtrs
  {
    match st.kind
    case StepStack => f.(stack := f.stack[..st.stkOff] + bs + f.stack[st.stkOff + |bs|..])
    case StepFloatReg => f.(floats := f.floats[st.freg := Merge(f.floats[st.freg], bs)])
    case _ => f.(ints := f.ints[st.ireg := Merge(f.ints[st.ireg], bs)])
  }

  /** The low bytes of a register replaced. */
  function Merge(was: Word8, bs: seq<Byte>): Word8
    requires |bs| <= 8
  {
    bs + was[|bs|..]
  }

  ghost predicate StepsOk(steps: seq<Step>) {
    && (forall k :: 0 <= k < |steps| ==> StepOk(steps[k]))
    && (forall j, k :: 0 <= j < k < |steps| ==> !Clash(steps[j], steps[k]))
  }

  /** `f` and `g` agree on everything the steps do not name. */
  ghost predicate Untouched(f: Frame, g: Frame, steps: seq<Step>)
    requires FrameOk(f) && FrameOk(g)
  {
    && (forall r :: 0 <= r < INT_ARG_REGS && (forall k :: 0 <= k < |steps| ==> !(IsInt(steps[k]) && steps[k].ireg == r)) ==>
          g.ints[r] == f.ints[r] && g.ptrs[r] == f.ptrs[r])
    && (forall r :: 0 <= r < FLOAT_ARG_REGS && (forall k :: 0 <= k < |steps| ==> !(steps[k].kind.StepFloatReg? && steps[k].freg == r)) ==>
          g.floats[r] == f.floats[r])
    && (forall b :: 0 <= b < STACK_WINDOW && (forall k :: 0 <= k < |steps| ==> !InSlot(steps[k], b)) ==> g.stack[b] == f.stack[b])
    && (forall w :: 0 <= w < STACK_WORDS && (forall k :: 0 <= k < |steps| ==> !HasWord(steps[k], w)) ==>
          g.stackPtrs[w] == f.stackPtrs[w])
  }

  predicate InSlot(st: Step, b: int) {
    st.kind.StepStack? && st.stkOff <= b < st.stkOff + st.size
  }

  /** Word `w` of the stack area starts inside the slot. */
  predicate HasWord(st: Step, w: int) {
    InSlot(st, 8 * w)
  }

  /** Register `r` carries a pointer of the value. */
  predicate Pointed(steps: seq<Step>, r: nat) {
    exists k :: 0 <= k < |steps| && steps[k].kind.StepPointer? && steps[k].ireg == r
  }

  /** What is in an integer register beyond the bytes of its step. */
  function Beyond(f: Frame, st: Step): seq<Byte>
    requires FrameOk(f) && StepOk(st) && IsInt(st)
  {
    f.ints[st.ireg][st.size..]
  }

  /** Only pointer registers have new mirrors, and integer registers hold what they
      held beyond the bytes of their steps. */
  ghost predicate RegsKept(f: Frame, g: Frame, steps: seq<Step>)
    requires FrameOk(f) && FrameOk(g) && StepsOk(steps)
  {
    && (forall r: nat :: r < INT_ARG_REGS && !Pointed(steps, r) ==> g.ptrs[r] == f.ptrs[r])
    && (forall k :: 0 <= k < |steps| && IsInt(steps[k]) ==> Beyond(g, steps[k]) == Beyond(f, steps[k]))
  }

  lemma UntouchedSelf(f: Frame, steps: seq<Step>)
    requires FrameOk(f)
    ensures Untouched(f, f, steps)
  {
  }

  lemma UntouchedTrans(f: Frame, g: Frame, h: Frame, steps: seq<Step>)
    requires FrameOk(f) && FrameOk(g) && FrameOk(h) && Untouched(f, g, steps) && Untouched(g, h, steps)
    ensures Untouched(f, h, steps)
  {
  }

  /** Writing at one of the steps touches nothing else. */
  lemma WriteTouches(f: Frame, st: Step, bs: seq<Byte>, steps: seq<Step>)
    requires FrameOk(f) && StepOk(st) && |bs| <= if st.kind.StepStack? then st.size else 8
    requires st in steps
    ensures Untouched(f, WriteAt(f, st, bs), steps)
  {
    var k :| 0 <= k < |steps| && steps[k] == st;
  }

  /** What is written at a step is read back from it ... */
  lemma ReadWritten(f: Frame, st: Step, bs: seq<Byte>)
    requires FrameOk(f) && StepOk(st) && st.size <= |bs| <= if st.kind.StepStack? then st.size else 8
    ensures Read(WriteAt(f, st, bs), st) == bs[..st.size]
  {
  }

  /** ... and changes no step it does not clash with. */
  lemma ReadUntouched(f: Frame, g: Frame, steps: seq<Step>, st: Step)
    requires FrameOk(f) && FrameOk(g) && Untouched(f, g, steps) && StepOk(st)
    requires forall k :: 0 <= k < |steps| ==> !Clash(steps[k], st)
    ensures Read(g, st) == Read(f, st)
  {
    match st.kind
    case StepStack =>
      forall b | st.stkOff <= b < st.stkOff + st.size ensures g.stack[b] == f.stack[b] {
        forall k | 0 <= k < |steps| ensures !InSlot(steps[k], b) {
          assert !Clash(steps[k], st);
        }
      }
    case StepFloatReg =>
    case _ =>
  }
}
