/** Copying results into the registers and stack slots their steps name. */
module Scatter {
  import opened Bits
  import opened LittleEndian
  import opened GoTypes
  import opened AbiAssign
  import opened AbiLayout
  import opened Coverage
  import opened Frames
  import opened Values

  // ----- what scattering has to achieve -----

  /** The first `n` steps hold their parts of `w`. */
  ghost predicate EncodesTo(f: Frame, steps: seq<Step>, w: seq<Byte>, n: nat)
    requires FrameOk(f) && StepsOk(steps) && n <= |steps|
  {
    forall k :: 0 <= k < n ==> StepFits(steps[k], |w|) && Holds(f, steps[k], w)
  }

  /** Every pointer register among the first `n` steps is mirrored. */
  ghost predicate RegsMirrored(f: Frame, steps: seq<Step>, n: nat)
    requires FrameOk(f) && StepsOk(steps) && n <= |steps|
  {
    forall k :: 0 <= k < n ==> PtrMirrored(f, steps[k])
  }

  predicate PtrMirrored(f: Frame, st: Step)
    requires FrameOk(f) && StepOk(st)
  {
    st.kind.StepPointer? ==> f.ptrs[st.ireg] == f.ints[st.ireg]
  }

  function WordIdx(off: nat): nat { off / 8 }

  function StackWord(f: Frame, w: nat): (r: seq<Byte>)
    requires FrameOk(f) && w < STACK_WORDS
    ensures |r| == 8
  {
    f.stack[8 * w..8 * w + 8]
  }

  predicate WordMirrored(f: Frame, w: nat)
    requires FrameOk(f)
  {
    w < STACK_WORDS && f.stackPtrs[w] == StackWord(f, w)
  }

  /** Every pointer of the value the collector has to see is mirrored: its register
      or its stack word has an equal entry. */
  ghost predicate Mirrored(f: Frame, t: GoType, steps: seq<Step>)
    requires FrameOk(f) && StepsOk(steps)
  {
    if OnStack(steps) then SlotMirrored(f, t, steps[0].stkOff) else RegsMirrored(f, steps, |steps|)
  }

  /** Byte `rel` of a value in a slot starts a word that is mirrored: any pointer word,
      but of a value that is an interface the data word alone. */
  predicate SeenWord(t: GoType, rel: int) {
    if t.Iface? then rel == 8 else IsPtrWord(t, rel)
  }

  lemma SeenIsPtr(t: GoType, rel: int)
    requires SeenWord(t, rel)
    ensures IsPtrWord(t, rel)
  {
  }

  lemma HeapSeen(t: GoType, rel: int)
    requires IsHeapWord(t, rel)
    ensures SeenWord(t, rel)
  {
    HeapIsPtr(t, rel);
  }

  /** Word `w` of the stack area is a mirrored word of the value in its slot. */
  predicate MirrorsWord(t: GoType, steps: seq<Step>, w: nat) {
    OnStack(steps) && SeenWord(t, 8 * w - steps[0].stkOff)
  }

  /** No mirror changes but those of the value's own pointers. */
  ghost predicate MirrorsKept(f: Frame, g: Frame, t: GoType, steps: seq<Step>)
    requires FrameOk(f) && FrameOk(g) && StepsOk(steps)
  {
    RegsKept(f, g, steps) && forall w: nat :: w < STACK_WORDS && !MirrorsWord(t, steps, w) ==> g.stackPtrs[w] == f.stackPtrs[w]
  }

  ghost predicate SlotMirrored(f: Frame, t: GoType, off: nat)
    requires FrameOk(f)
  {
    forall rel: nat :: SeenWord(t, rel) ==> WordMirrored(f, WordIdx(off + rel))
  }

  // ----- one write -----

  /** Storing step `k`'s part keeps what is there already. */
  lemma WroteStep(f: Frame, steps: seq<Step>, w: seq<Byte>, k: nat, bs: seq<Byte>, m: nat)
    requires FrameOk(f) && StepsOk(steps) && m <= k < |steps| && EncodesTo(f, steps, w, k) && RegsMirrored(f, steps, m)
    requires StepFits(steps[k], |w|)
    requires steps[k].size <= |bs| <= if steps[k].kind.StepStack? then steps[k].size else 8
    requires bs[..steps[k].size] == w[steps[k].offset..steps[k].offset + steps[k].size]
    ensures EncodesTo(WriteAt(f, steps[k], bs), steps, w, k + 1)
    ensures Untouched(f, WriteAt(f, steps[k], bs), steps)
    ensures RegsMirrored(WriteAt(f, steps[k], bs), steps, m)
  {
    hide Untouched, WriteAt, Read, Clash, StepOk;
    var g := WriteAt(f, steps[k], bs);
    WriteTouches(f, steps[k], bs, steps);
    WriteTouches(f, steps[k], bs, [steps[k]]);
    ReadWritten(f, steps[k], bs);
    forall j | 0 <= j < k ensures StepFits(steps[j], |w|) && Holds(g, steps[j], w) {
      assert Holds(f, steps[j], w);
      assert !Clash(steps[k], steps[j]) by { ClashBoth(steps[j], steps[k]); }
      ReadUntouched(f, g, [steps[k]], steps[j]);
    }
    forall j | 0 <= j < m ensures PtrMirrored(g, steps[j]) {
      assert PtrMirrored(f, steps[j]);
      assert !Clash(steps[k], steps[j]) by { ClashBoth(steps[j], steps[k]); }
      MirrorUntouched(f, g, [steps[k]], steps[j]);
    }
  }

  /** An integer register keeps what is beyond the step's bytes. */
  lemma WriteKeeps(f: Frame, steps: seq<Step>, k: nat, bs: seq<Byte>)
    requires FrameOk(f) && StepsOk(steps) && k < |steps|
    requires |bs| <= if steps[k].kind.StepStack? then steps[k].size else 8
    requires IsInt(steps[k]) ==> |bs| == steps[k].size
    ensures RegsKept(f, WriteAt(f, steps[k], bs), steps)
  {
    var g := WriteAt(f, steps[k], bs);
    forall j | 0 <= j < |steps| && IsInt(steps[j]) ensures Beyond(g, steps[j]) == Beyond(f, steps[j]) {
      assert StepOk(steps[j]);
      if j != k { assert !Clash(steps[k], steps[j]) by { ClashBoth(steps[j], steps[k]); } }
    }
  }

  lemma KeptTrans(f: Frame, g: Frame, h: Frame, steps: seq<Step>)
    requires FrameOk(f) && FrameOk(g) && FrameOk(h) && StepsOk(steps) && RegsKept(f, g, steps) && RegsKept(g, h, steps)
    ensures RegsKept(f, h, steps)
  {
    hide Pointed, Beyond, StepOk, Clash;
  }

  lemma ClashBoth(a: Step, b: Step)
    ensures Clash(a, b) <==> Clash(b, a)
  {
  }

  lemma MirrorUntouched(f: Frame, g: Frame, steps: seq<Step>, st: Step)
    requires FrameOk(f) && FrameOk(g) && Untouched(f, g, steps) && StepOk(st) && PtrMirrored(f, st)
    requires forall k :: 0 <= k < |steps| ==> !Clash(steps[k], st)
    ensures PtrMirrored(g, st)
  {
  }

  /** Filling the mirror of step `k`'s register completes that step. */
  lemma MirroredStep(f: Frame, steps: seq<Step>, w: seq<Byte>, n: nat, k: nat, p: Word8)
    requires FrameOk(f) && StepsOk(steps) && k < n <= |steps| && steps[k].kind.StepPointer?
    requires EncodesTo(f, steps, w, n) && RegsMirrored(f, steps, k) && p == f.ints[steps[k].ireg]
    ensures var g := f.(ptrs := f.ptrs[steps[k].ireg := p]);
            FrameOk(g) && EncodesTo(g, steps, w, n) && RegsMirrored(g, steps, k + 1) && Untouched(f, g, steps) && RegsKept(f, g, steps)
  {
    var g := f.(ptrs := f.ptrs[steps[k].ireg := p]);
    assert Pointed(steps, steps[k].ireg);
    forall j | 0 <= j < n ensures StepFits(steps[j], |w|) && Holds(g, steps[j], w) { assert Holds(f, steps[j], w); }
    forall j | 0 <= j < k + 1 ensures PtrMirrored(g, steps[j]) { assert j < k ==> PtrMirrored(f, steps[j]); }
  }

  /** A register that is no pointer needs no mirror. */
  lemma NoMirror(f: Frame, steps: seq<Step>, k: nat)
    requires FrameOk(f) && StepsOk(steps) && k < |steps| && RegsMirrored(f, steps, k) && !steps[k].kind.StepPointer?
    ensures RegsMirrored(f, steps, k + 1)
  {
  }

  lemma Nothing(f: Frame, steps: seq<Step>, w: seq<Byte>)
    requires FrameOk(f) && StepsOk(steps)
    ensures EncodesTo(f, steps, w, 0) && RegsMirrored(f, steps, 0) && Untouched(f, f, steps) && RegsKept(f, f, steps)
  {
  }

  lemma AllOf(f: Frame, steps: seq<Step>, w: seq<Byte>)
    requires FrameOk(f) && StepsOk(steps) && EncodesTo(f, steps, w, |steps|)
    ensures Encodes(f, steps, w)
  {
  }

  // ----- scalars -----

  /** Value.Int: the signed number in `v`. */
  function Signed(v: seq<Byte>): int {
    var u := Unsigned(v);
    if 2 * u < Pow2(8 * |v|) then u else u - Pow2(8 * |v|)
  }

  /** Conversion to uintptr. */
  function ToWord(x: int): nat { x % W64 }

  lemma Widths()
    ensures Pow2(8 * 1) == 0x100 && Pow2(8 * 2) == 0x1_0000 && Pow2(8 * 4) == W32 && Pow2(8 * 8) == W64
  {
    Pow2Of64();
    Pow2Step(0); Pow2Step(8);
  }

  /** A number in which the low bytes of `v` are those of `x`. */
  lemma LowBytesAre(x: int, v: seq<Byte>)
    requires 0 < Pow2(8 * |v|) && x % Pow2(8 * |v|) == Unsigned(v)
    ensures LowBytes(x, |v|) == v
  {
    hide LowBytes, Unsigned, Pow2;
    LowBytesLen(x, |v|);
    UnsignedLow(x, |v|);
    UnsignedUnique(LowBytes(x, |v|), v);
  }

  /** The low bytes of the sign-extended word are the value's own. */
  lemma SignedBytes(v: seq<Byte>)
    requires IsAlign(|v|)
    ensures LowBytes(ToWord(Signed(v)), |v|) == v
  {
    hide LowBytes, Unsigned, Pow2;
    Widths();
    UnsignedBound(v);
    LowBytesAre(ToWord(Signed(v)), v);
  }

  lemma WordBytes(v: seq<Byte>)
    requires |v| == 8
    ensures LowBytes(Unsigned(v), 8) == v
  {
    hide LowBytes, Unsigned, Pow2;
    Widths();
    UnsignedBound(v);
    LowBytesAre(Unsigned(v), v);
  }

  lemma BoolBytes(v: seq<Byte>)
    requires |v| == 1 && (v[0] == 0 || v[0] == 1)
    ensures LowBytes(if v[0] == 1 then 1 else 0, 1) == v
  {
    var x := if v[0] == 1 then 1 else 0;
    assert LowBytes(x, 1) == [x % 0x100] + LowBytes(x / 0x100, 0);
  }
}
