/** Arguments described in place, read while results are stored over their registers. */
module Aliases {
  import opened Wrappers
  import opened Bits
  import opened LittleEndian
  import opened Float32
  import opened GoTypes
  import opened AbiAssign
  import opened AbiLayout
  import opened Coverage
  import opened Precise
  import opened Frames
  import opened Values
  import opened Scatter
  import opened Registers
  import opened Results
  import opened Materialize

  /** Frames while results are stored: frame k + 1 is frame k with result k scattered,
      whatever value it had when its turn came. */
  ghost predicate Storing(env: Env, fs: seq<Frame>, base: nat, ts: seq<GoType>, vs: seq<seq<Byte>>)
    requires AllWf(ts) && ValuesOf(ts, vs) && PlanOf(base, ts).cur.stackBytes <= STACK_WINDOW
  {
    && 0 < |fs| <= |ts| + 1
    && (forall k :: 0 <= k < |fs| ==> FrameOk(fs[k]))
    && (forall k :: 0 <= k < |fs| - 1 ==> ScatteredAt(env, fs[k], fs[k + 1], base, ts, vs, k))
  }

  ghost predicate ScatteredAt(env: Env, f: Frame, g: Frame, base: nat, ts: seq<GoType>, vs: seq<seq<Byte>>, k: nat)
    requires FrameOk(f) && FrameOk(g) && AllWf(ts) && ValuesOf(ts, vs) && k < |ts| && PlanOf(base, ts).cur.stackBytes <= STACK_WINDOW
  {
    ValueStepsOf(base, ts, k);
    Scattered(env, f, g, ts[k], vs[k], StepsForValue(PlanOf(base, ts), k))
  }

  /** The steps of result `k` clash with `st`. */
  predicate Uses(p: Plan, k: nat, st: Step)
    requires PlanOk(p) && k < |p.valueStart|
  {
    exists x :: 0 <= x < |StepsForValue(p, k)| && Clash(StepsForValue(p, k)[x], st)
  }

  lemma {:induction false} AllStored(env: Env, fs: seq<Frame>, base: nat, ts: seq<GoType>, vs: seq<seq<Byte>>)
    requires AllWf(ts) && ValuesOf(ts, vs) && PlanOf(base, ts).cur.stackBytes <= STACK_WINDOW
    requires Storing(env, fs, base, ts, vs)
    ensures Stored(env, fs[|fs| - 1], base, ts, vs, |fs| - 1)
  {
    hide PlanOf, StepsForValue, Scattered, StoredAt, StepsOk;
    var n := |fs| - 1;
    if n != 0 {
      forall k | 0 <= k < n - 1 ensures ScatteredAt(env, fs[..n][k], fs[..n][k + 1], base, ts, vs, k) {
        assert ScatteredAt(env, fs[k], fs[k + 1], base, ts, vs, k);
      }
      AllStored(env, fs[..n], base, ts, vs);
      assert ScatteredAt(env, fs[n - 1], fs[n], base, ts, vs, n - 1);
      ValueStepsOf(base, ts, n - 1);
      StoredNext(env, fs[n - 1], fs[n], base, ts, vs, n - 1);
    }
  }

  /** A place no result stored so far uses reads as at the start ... */
  lemma {:induction false} PlaceKept(env: Env, fs: seq<Frame>, base: nat, ts: seq<GoType>, vs: seq<seq<Byte>>, st: Step)
    requires AllWf(ts) && ValuesOf(ts, vs) && PlanOf(base, ts).cur.stackBytes <= STACK_WINDOW
    requires Storing(env, fs, base, ts, vs) && StepOk(st)
    requires PlanOk(PlanOf(base, ts)) && |PlanOf(base, ts).valueStart| == |ts|
    requires forall k :: 0 <= k < |fs| - 1 ==> !Uses(PlanOf(base, ts), k, st)
    ensures Read(fs[|fs| - 1], st) == Read(fs[0], st)
  {
    hide PlanOf, StepsForValue, Untouched, Encodes, Mirrored, StepsOk, Clash, Read;
    var n := |fs| - 1;
    if n != 0 {
      forall k | 0 <= k < n - 1 ensures ScatteredAt(env, fs[..n][k], fs[..n][k + 1], base, ts, vs, k) {
        assert ScatteredAt(env, fs[k], fs[k + 1], base, ts, vs, k);
      }
      PlaceKept(env, fs[..n], base, ts, vs, st);
      assert ScatteredAt(env, fs[n - 1], fs[n], base, ts, vs, n - 1);
      ValueStepsOf(base, ts, n - 1);
      assert !Uses(PlanOf(base, ts), n - 1, st);
      ReadUntouched(fs[n - 1], fs[n], StepsForValue(PlanOf(base, ts), n - 1), st);
    }
  }

  predicate SameRegister(a: Step, b: Step) {
    (IsInt(a) && IsInt(b) && a.ireg == b.ireg) || (a.kind.StepFloatReg? && b.kind.StepFloatReg? && a.freg == b.freg)
  }

  lemma SameRegisterReads(f: Frame, a: Step, b: Step, w: seq<Byte>)
    requires FrameOk(f) && StepOk(a) && StepOk(b) && SameRegister(a, b) && StepFits(b, |w|) && Holds(f, b, w)
    ensures var n := if a.size <= b.size then a.size else b.size;
            Read(f, a)[..n] == w[b.offset..b.offset + n]
  {
    var n := if a.size <= b.size then a.size else b.size;
    assert Read(f, a)[..n] == Read(f, b)[..n];
    assert Read(f, b)[..n] == w[b.offset..b.offset + n];
  }

  /** ... and a register a result stored so far uses reads as that result's part. */
  lemma PlaceOverwritten(env: Env, fs: seq<Frame>, base: nat, ts: seq<GoType>, vs: seq<seq<Byte>>, st: Step, k: nat, x: nat)
    requires AllWf(ts) && ValuesOf(ts, vs) && PlanOf(base, ts).cur.stackBytes <= STACK_WINDOW
    requires Storing(env, fs, base, ts, vs) && StepOk(st) && k < |fs| - 1
    requires PlanOk(PlanOf(base, ts)) && |PlanOf(base, ts).valueStart| == |ts|
    requires x < |StepsForValue(PlanOf(base, ts), k)| && SameRegister(StepsForValue(PlanOf(base, ts), k)[x], st)
    ensures var steps := StepsForValue(PlanOf(base, ts), k);
            var n := if st.size <= steps[x].size then st.size else steps[x].size;
            var from := steps[x].offset;
            && from + steps[x].size <= Size(ts[k])
            && Read(fs[|fs| - 1], st)[..n] == Image(env, ts[k], vs[k], steps)[from..from + n]
  {
    hide PlanOf, StepsForValue, Mirrored, StepsOk, Storing, Image, Size;
    AllStored(env, fs, base, ts, vs);
    LastOk(env, fs, base, ts, vs);
    var f, steps := fs[|fs| - 1], StepsForValue(PlanOf(base, ts), k);
    assert StoredAt(env, f, base, ts, vs, k);
    ValueStepsOf(base, ts, k);
    StepsOkEach(steps);
    var w := Image(env, ts[k], vs[k], steps);
    assert StepFits(steps[x], |w|) && Holds(f, steps[x], w);
    SameRegisterReads(f, st, steps[x], w);
  }

  lemma LastOk(env: Env, fs: seq<Frame>, base: nat, ts: seq<GoType>, vs: seq<seq<Byte>>)
    requires AllWf(ts) && ValuesOf(ts, vs) && PlanOf(base, ts).cur.stackBytes <= STACK_WINDOW
    requires Storing(env, fs, base, ts, vs)
    ensures 0 < |fs| <= |ts| + 1 && FrameOk(fs[|fs| - 1])
  {
  }

  /** No result uses the stack slot of an argument, so an argument described there
      can be returned at any time. */
  lemma SlotNeverOverwritten(sig: Signature, l: Layout, i: nat, k: nat)
    requires IsLayout(sig, l) && i < |sig.ins| && k < |sig.outs| && OnStack(StepsForValue(l.call, i + 1))
    ensures !Uses(l.ret, k, StepsForValue(l.call, i + 1)[0])
  {
    hide GatherOk, MaskOk, SlotPtrs, PlanAt;
    LayoutSound(sig, l);
    var st := StepsForValue(l.call, i + 1)[0];
    assert st == l.call.steps[l.call.valueStart[i + 1]];
    forall x | 0 <= x < |StepsForValue(l.ret, k)| ensures !Clash(StepsForValue(l.ret, k)[x], st) {
      assert StepsForValue(l.ret, k)[x] == l.ret.steps[l.ret.valueStart[k] + x];
    }
  }

  // ----- an argument returned as a result -----

  /** The argument is described where it lies. */
  ghost predicate InPlaceArg(sig: Signature, l: Layout, i: nat)
    requires FitsWindow(sig, l) && i < |sig.ins|
  {
    0 < Size(sig.ins[i]) && !sig.ins[i].Iface? && |StepsForValue(l.call, i + 1)| == 1
  }

  /** What its description reads in frame `f`. */
  ghost function ArgIn(f: Frame, sig: Signature, l: Layout, i: nat): (r: seq<Byte>)
    requires FrameOk(f) && FitsWindow(sig, l) && i < |sig.ins| && InPlaceArg(sig, l, i)
    ensures |r| == Size(sig.ins[i])
  {
    ArgSteps(sig, l, i);
    MemAt(f, StepsForValue(l.call, i + 1)[0], Size(sig.ins[i]))
  }

  /** All results are stored, none of them refused, and the value of result `k` is what
      the description of argument `i` reads when its turn comes. */
  ghost predicate AliasRun(env: Env, fs: seq<Frame>, sig: Signature, l: Layout, vs: seq<seq<Byte>>, i: nat, k: nat)
    requires FitsWindow(sig, l) && i < |sig.ins| && InPlaceArg(sig, l, i) && k < |sig.outs|
  {
    LayoutBounds(sig, l);
    && !AnyRejected(l.retOffset, sig.outs, |sig.outs|)
    && ValuesOf(sig.outs, vs) && |fs| == |sig.outs| + 1 && Storing(env, fs, l.retOffset, sig.outs, vs)
    && Legal(sig.ins[i], ArgIn(fs[0], sig, l, i))
    && vs[k] == ArgIn(fs[k], sig, l, i)
  }

  /** The caller finds what storing the argument as it was passed would give. */
  ghost predicate Arrives(env: Env, fs: seq<Frame>, sig: Signature, l: Layout, vs: seq<seq<Byte>>, i: nat, k: nat)
    requires FitsWindow(sig, l) && i < |sig.ins| && InPlaceArg(sig, l, i) && k < |sig.outs| && sig.outs[k] == sig.ins[i]
    requires AliasRun(env, fs, sig, l, vs, i, k)
  {
    ResultSteps(sig, l, k);
    var t, steps := sig.outs[k], StepsForValue(l.ret, k);
    SameData(t, Bytes(fs[|sig.outs|], steps, Size(t)), Image(env, t, ArgIn(fs[0], sig, l, i), steps))
  }

  lemma ResultSteps(sig: Signature, l: Layout, k: nat)
    requires FitsWindow(sig, l) && k < |sig.outs|
    ensures PlanOf(l.retOffset, sig.outs).cur.stackBytes <= STACK_WINDOW
    ensures StepsOf(PlanAt(l.retOffset, sig.outs, k).cur, sig.outs[k], StepsForValue(l.ret, k))
    ensures forall x :: 0 <= x < |StepsForValue(l.ret, k)| ==> StepOk(StepsForValue(l.ret, k)[x])
  {
    hide PlanAt, PlanOf, StepsForValue, Emit, StepsOk, GatherOk, MaskOk, SlotPtrs;
    LayoutBounds(sig, l);
    ValueStepsOf(l.retOffset, sig.outs, k);
    StepsOkEach(StepsForValue(l.ret, k));
  }

  /** Result `j` uses the argument's place. */
  ghost predicate Takes(sig: Signature, l: Layout, i: nat, j: nat)
    requires FitsWindow(sig, l) && i < |sig.ins| && InPlaceArg(sig, l, i) && j < |sig.outs|
  {
    Uses(l.ret, j, StepsForValue(l.call, i + 1)[0])
  }

  ghost predicate FreeBefore(sig: Signature, l: Layout, i: nat, k: nat)
    requires FitsWindow(sig, l) && i < |sig.ins| && InPlaceArg(sig, l, i) && k < |sig.outs|
  {
    forall j :: 0 <= j < k ==> !Takes(sig, l, i, j)
  }

  /** Places that read the same describe the same data. */
  lemma SamePlace(c: Cursor, t: GoType, steps: seq<Step>, f: Frame, g: Frame)
    requires StepsOf(c, t, steps) && |steps| == 1 && 0 < Size(t) && FrameOk(f) && FrameOk(g) && StepOk(steps[0])
    requires steps[0].kind.StepStack? ==> Size(t) <= steps[0].size
    requires Read(f, steps[0]) == Read(g, steps[0])
    ensures SameData(t, MemAt(f, steps[0], Size(t)), MemAt(g, steps[0], Size(t)))
  {
    hide Emit, StepsOk, IsData, Size, Wf, Read, MemAt, Bytes;
    InPlace(c, t, steps, f);
    InPlace(c, t, steps, g);
    assert steps[..0] == [];
    assert Bytes(f, steps, Size(t)) == Bytes(g, steps, Size(t)) by { SameStepBytes(f, g, steps, Size(t)); }
  }

  lemma SameStepBytes(f: Frame, g: Frame, steps: seq<Step>, n: nat)
    requires FrameOk(f) && FrameOk(g) && |steps| == 1 && StepOk(steps[0]) && Read(f, steps[0]) == Read(g, steps[0])
    ensures Bytes(f, steps, n) == Bytes(g, steps, n)
  {
    hide Read;
    assert steps[..0] == [];
    forall rel | 0 <= rel < n ensures ByteAt(f, steps, rel) == ByteAt(g, steps, rel) {
      assert ByteAt(f, steps[..0], rel) == 0 == ByteAt(g, steps[..0], rel);
    }
  }

  lemma StoringPrefix(env: Env, fs: seq<Frame>, base: nat, ts: seq<GoType>, vs: seq<seq<Byte>>, n: nat)
    requires AllWf(ts) && ValuesOf(ts, vs) && PlanOf(base, ts).cur.stackBytes <= STACK_WINDOW
    requires Storing(env, fs, base, ts, vs) && n < |fs|
    ensures Storing(env, fs[..n + 1], base, ts, vs)
  {
    hide ScatteredAt, PlanOf;
    var gs := fs[..n + 1];
    forall k | 0 <= k < |gs| - 1 ensures ScatteredAt(env, gs[k], gs[k + 1], base, ts, vs, k) {
      assert ScatteredAt(env, fs[k], fs[k + 1], base, ts, vs, k);
    }
  }

  /** The description still reads the argument when its turn comes. */
  lemma ReadKept(env: Env, fs: seq<Frame>, sig: Signature, l: Layout, vs: seq<seq<Byte>>, i: nat, k: nat)
    requires FitsWindow(sig, l) && i < |sig.ins| && InPlaceArg(sig, l, i) && k < |sig.outs|
    requires AliasRun(env, fs, sig, l, vs, i, k) && FreeBefore(sig, l, i, k)
    ensures FrameOk(fs[0]) && FrameOk(fs[k]) && SameData(sig.ins[i], ArgIn(fs[k], sig, l, i), ArgIn(fs[0], sig, l, i))
  {
    hide PlanAt, PlanOf, StepsForValue, Emit, StepsOk, GatherOk, MaskOk, SlotPtrs, SameData, MemAt, Legal, Storing, Uses, AnyRejected;
    LayoutBounds(sig, l);
    var ts, at := sig.outs, StepsForValue(l.call, i + 1);
    ArgSteps(sig, l, i);
    StoringPrefix(env, fs, l.retOffset, ts, vs, k);
    LastOk(env, fs[..k + 1], l.retOffset, ts, vs);
    FirstOk(env, fs, l.retOffset, ts, vs);
    forall j | 0 <= j < k ensures !Uses(l.ret, j, at[0]) { assert !Takes(sig, l, i, j); }
    PlaceKept(env, fs[..k + 1], l.retOffset, ts, vs, at[0]);
    SamePlace(PlanAt(0, CallTypes(sig), i + 1).cur, sig.ins[i], at, fs[k], fs[0]);
  }

  /** What the caller finds is what storing the value read gives. */
  lemma FindsStored(env: Env, f: Frame, sig: Signature, l: Layout, vs: seq<seq<Byte>>, k: nat)
    requires FrameOk(f) && FitsWindow(sig, l) && ValuesOf(sig.outs, vs) && k < |sig.outs|
    requires PlanOf(l.retOffset, sig.outs).cur.stackBytes <= STACK_WINDOW
    requires Stored(env, f, l.retOffset, sig.outs, vs, |sig.outs|)
    ensures forall x :: 0 <= x < |StepsForValue(l.ret, k)| ==> StepOk(StepsForValue(l.ret, k)[x])
    ensures var t, steps := sig.outs[k], StepsForValue(l.ret, k);
            SameData(t, Bytes(f, steps, Size(t)), Image(env, t, vs[k], steps))
  {
    hide PlanAt, PlanOf, StepsForValue, Emit, StepsOk, GatherOk, MaskOk, SlotPtrs, Encodes, Mirrored, Image, SameData, Bytes;
    ResultSteps(sig, l, k);
    assert StoredAt(env, f, l.retOffset, sig.outs, vs, k);
    BytesOf(PlanAt(l.retOffset, sig.outs, k).cur, sig.outs[k], f, Image(env, sig.outs[k], vs[k], StepsForValue(l.ret, k)));
  }

  lemma AliasKept(env: Env, fs: seq<Frame>, sig: Signature, l: Layout, vs: seq<seq<Byte>>, i: nat, k: nat)
    requires FitsWindow(sig, l) && i < |sig.ins| && InPlaceArg(sig, l, i) && k < |sig.outs| && sig.outs[k] == sig.ins[i]
    requires AliasRun(env, fs, sig, l, vs, i, k) && FreeBefore(sig, l, i, k)
    ensures Arrives(env, fs, sig, l, vs, i, k)
  {
    hide PlanAt, PlanOf, StepsForValue, GatherOk, MaskOk, SlotPtrs, Image, SameData, Bytes, ArgIn, Legal, Storing, Stored, InPlaceArg, FreeBefore, AnyRejected;
    LayoutBounds(sig, l);
    var ts, t, steps := sig.outs, sig.outs[k], StepsForValue(l.ret, k);
    ReadKept(env, fs, sig, l, vs, i, k);
    AllStored(env, fs, l.retOffset, ts, vs);
    LastOk(env, fs, l.retOffset, ts, vs);
    FindsStored(env, fs[|ts|], sig, l, vs, k);
    var v0 := ArgIn(fs[0], sig, l, i);
    ImageRespects(env, t, vs[k], v0, steps);
    SameChain(t, Bytes(fs[|ts|], steps, Size(t)), Image(env, t, vs[k], steps), Image(env, t, v0, steps));
  }

  lemma FirstOk(env: Env, fs: seq<Frame>, base: nat, ts: seq<GoType>, vs: seq<seq<Byte>>)
    requires AllWf(ts) && ValuesOf(ts, vs) && PlanOf(base, ts).cur.stackBytes <= STACK_WINDOW
    requires Storing(env, fs, base, ts, vs)
    ensures 0 < |fs| && FrameOk(fs[0])
  {
  }

  lemma SameChain(t: GoType, a: seq<Byte>, b: seq<Byte>, c: seq<Byte>)
    requires |a| == |b| == |c| == Size(t) && SameData(t, a, b) && SameData(t, b, c)
    ensures SameData(t, a, c)
  {
  }

  // ----- the run in which it does not arrive: every result is zero -----

  /** Everything the steps name is zero, and so are the mirrors of its pointers. */
  function Zeroed(f: Frame, t: GoType, steps: seq<Step>): (g: Frame)
    requires FrameOk(f)
    ensures FrameOk(g)
  {
    Frame(seq(INT_ARG_REGS, r requires 0 <= r < INT_ARG_REGS => ZeroedInt(f.ints[r], steps, r)),
          seq(INT_ARG_REGS, r requires 0 <= r < INT_ARG_REGS => if Pointed(steps, r) then ZERO_WORD else f.ptrs[r]),
          seq(FLOAT_ARG_REGS, r requires 0 <= r < FLOAT_ARG_REGS => if NamesFloat(steps, r) then ZERO_WORD else f.floats[r]),
          seq(STACK_WORDS, w requires 0 <= w < STACK_WORDS => if MirrorsWord(t, steps, w) then ZERO_WORD else f.stackPtrs[w]),
          seq(STACK_WINDOW, b requires 0 <= b < STACK_WINDOW => if NamesByte(steps, b) then 0 else f.stack[b]))
  }

  function ZeroedInt(was: Word8, steps: seq<Step>, r: nat): Word8 {
    seq(8, b requires 0 <= b < 8 => if NamesIntByte(steps, r, b) then 0 else was[b])
  }

  predicate NamesIntByte(steps: seq<Step>, r: nat, b: nat) {
    exists x :: 0 <= x < |steps| && IsInt(steps[x]) && steps[x].ireg == r && b < steps[x].size
  }

  predicate NamesFloat(steps: seq<Step>, r: nat) { exists x :: 0 <= x < |steps| && steps[x].kind.StepFloatReg? && steps[x].freg == r }

  predicate NamesByte(steps: seq<Step>, b: nat) { exists x :: 0 <= x < |steps| && InSlot(steps[x], b) }

  /** No closure moves. */
  function PlainEnv(): Env { Env(w => w, _ => Itab(0, 0), _ => None) }

  lemma ZerosStay(t: GoType, steps: seq<Step>)
    ensures Image(PlainEnv(), t, Zeros(Size(t)), steps) == Zeros(Size(t))
  {
    hide WideWord, NarrowWord, Widen, Unsigned, LowBytes;
    FourBytes(0, 0, 0, 0);
    if t == Complex(8) {
      WideWordKeeps(Zeros(8)[..4]);
      assert Zeros(8)[..4] == Zeros(4) && Zeros(8)[4..] == Zeros(4) && Zeros(8) == Zeros(4) + Zeros(4);
    }
    if t == Float(4) { NarrowWordKeeps(Zeros(4)); assert Zeros(4) == [0, 0, 0, 0]; }
  }

  lemma ZeroedScattered(f: Frame, c: Cursor, t: GoType, steps: seq<Step>)
    requires FrameOk(f) && StepsOf(c, t, steps)
    ensures Scattered(PlainEnv(), f, Zeroed(f, t, steps), t, Zeros(Size(t)), steps)
  {
    hide Emit, Image, Wf, Zeroed, Untouched, Mirrored, StepsOk, StepOk, Clash;
    ZerosStay(t, steps);
    var g, z := Zeroed(f, t, steps), Zeros(Size(t));
    StepsOkEach(steps);
    assert Encodes(g, steps, z) by {
      forall k | 0 <= k < |steps| ensures StepFits(steps[k], |z|) && Holds(g, steps[k], z) {
        EmitInside(c, t, k);
        ZeroedRead(f, t, steps, k);
        assert z[steps[k].offset..steps[k].offset + steps[k].size] == Zeros(steps[k].size);
      }
    }
    assert OnStack(steps) ==> steps[0].size == Size(t) by { EmitForms(c, t); }
    ZeroedUntouched(f, t, steps);
    ZeroedKept(f, t, steps);
    assert Mirrored(g, t, steps) by { ZeroedMirrored(f, c, t, steps); }
  }

  lemma ZeroedRead(f: Frame, t: GoType, steps: seq<Step>, k: nat)
    requires FrameOk(f) && k < |steps| && StepOk(steps[k])
    ensures Read(Zeroed(f, t, steps), steps[k]) == Zeros(steps[k].size)
  {
    var g, st := Zeroed(f, t, steps), steps[k];
    match st.kind
    case StepStack =>
      forall b | st.stkOff <= b < st.stkOff + st.size ensures g.stack[b] == 0 { assert InSlot(steps[k], b); assert NamesByte(steps, b); }
    case StepFloatReg => assert NamesFloat(steps, st.freg);
    case _ =>
      forall b | 0 <= b < st.size ensures g.ints[st.ireg][b] == 0 { assert IsInt(steps[k]); assert NamesIntByte(steps, st.ireg, b); }
  }

  lemma ZeroedUntouched(f: Frame, t: GoType, steps: seq<Step>)
    requires FrameOk(f) && Wf(t) && (OnStack(steps) ==> steps[0].size == Size(t))
    ensures Untouched(f, Zeroed(f, t, steps), steps)
  {
    hide SeenWord, Wf, Size, NamesByte;
    var g := Zeroed(f, t, steps);
    forall r | 0 <= r < INT_ARG_REGS && (forall k :: 0 <= k < |steps| ==> !(IsInt(steps[k]) && steps[k].ireg == r))
      ensures g.ints[r] == f.ints[r] && g.ptrs[r] == f.ptrs[r]
    {
      NoRegister(f.ints[r], steps, r);
    }
    forall w | 0 <= w < STACK_WORDS && (forall k :: 0 <= k < |steps| ==> !HasWord(steps[k], w)) ensures g.stackPtrs[w] == f.stackPtrs[w] {
      if MirrorsWord(t, steps, w) { MirroredInSlot(t, steps, w); }
    }
    forall b | 0 <= b < STACK_WINDOW && (forall k :: 0 <= k < |steps| ==> !InSlot(steps[k], b)) ensures g.stack[b] == f.stack[b] {
      NoByte(steps, b);
    }
  }

  lemma NoRegister(was: Word8, steps: seq<Step>, r: nat)
    requires forall k :: 0 <= k < |steps| ==> !(IsInt(steps[k]) && steps[k].ireg == r)
    ensures ZeroedInt(was, steps, r) == was && !Pointed(steps, r)
  {
    assert forall b :: 0 <= b < 8 ==> !NamesIntByte(steps, r, b);
  }

  lemma NoByte(steps: seq<Step>, b: nat)
    requires forall k :: 0 <= k < |steps| ==> !InSlot(steps[k], b)
    ensures !NamesByte(steps, b)
  {
  }

  lemma ZeroedKept(f: Frame, t: GoType, steps: seq<Step>)
    requires FrameOk(f) && StepsOk(steps)
    ensures MirrorsKept(f, Zeroed(f, t, steps), t, steps)
  {
    hide SeenWord;
    var g := Zeroed(f, t, steps);
    forall k | 0 <= k < |steps| && IsInt(steps[k]) ensures Beyond(g, steps[k]) == Beyond(f, steps[k]) {
      var st := steps[k];
      assert StepOk(st);
      forall b | st.size <= b < 8 ensures g.ints[st.ireg][b] == f.ints[st.ireg][b] { OnlyItself(steps, k, b); }
    }
  }

  lemma OnlyItself(steps: seq<Step>, k: nat, b: nat)
    requires StepsOk(steps) && k < |steps| && IsInt(steps[k]) && steps[k].size <= b
    ensures !NamesIntByte(steps, steps[k].ireg, b)
  {
    if NamesIntByte(steps, steps[k].ireg, b) {
      var x :| 0 <= x < |steps| && IsInt(steps[x]) && steps[x].ireg == steps[k].ireg && b < steps[x].size;
      assert Clash(steps[x], steps[k]) && Clash(steps[k], steps[x]);
      assert false;
    }
  }

  lemma ZeroedMirrored(f: Frame, c: Cursor, t: GoType, steps: seq<Step>)
    requires FrameOk(f) && StepsOf(c, t, steps)
    ensures Mirrored(Zeroed(f, t, steps), t, steps)
  {
    hide Emit, Wf, SeenWord, Untouched, Clash, Zeroed, WordMirrored, WordIdx, Parts;
    var g := Zeroed(f, t, steps);
    StepsOkEach(steps);
    hide StepOk;
    if OnStack(steps) {
      forall rel: nat | SeenWord(t, rel) ensures WordMirrored(g, WordIdx(steps[0].stkOff + rel)) {
        SlotWord(c, t, steps, rel);
        ZeroedWord(f, t, steps, WordIdx(steps[0].stkOff + rel));
      }
    } else {
      forall k | 0 <= k < |steps| ensures PtrMirrored(g, steps[k]) {
        EmitInside(c, t, k);
        PartsSized(t, 0);
        ZeroedRegister(f, t, steps, k);
      }
    }
  }

  lemma ZeroedRegister(f: Frame, t: GoType, steps: seq<Step>, k: nat)
    requires FrameOk(f) && k < |steps| && StepOk(steps[k]) && (steps[k].kind.StepPointer? ==> steps[k].size == 8)
    ensures PtrMirrored(Zeroed(f, t, steps), steps[k])
  {
    if steps[k].kind.StepPointer? {
      var r := steps[k].ireg;
      assert Pointed(steps, r);
      assert forall b :: 0 <= b < 8 ==> NamesIntByte(steps, r, b) by { assert IsInt(steps[k]); }
    }
  }

  lemma ZeroedWord(f: Frame, t: GoType, steps: seq<Step>, w: nat)
    requires FrameOk(f) && |steps| == 1 && w < STACK_WORDS && HasWord(steps[0], w) && InSlot(steps[0], 8 * w + 7)
    requires MirrorsWord(t, steps, w)
    ensures WordMirrored(Zeroed(f, t, steps), w)
  {
    var g := Zeroed(f, t, steps);
    forall b | 8 * w <= b < 8 * w + 8 ensures g.stack[b] == 0 { assert InSlot(steps[0], b); assert NamesByte(steps, b); }
    assert StackWord(g, w) == ZERO_WORD;
  }

  /** The frame after the first `n` results, all zero, are stored. */
  function ZeroedAll(f: Frame, p: Plan, ts: seq<GoType>, n: nat): (g: Frame)
    requires FrameOk(f) && PlanOk(p) && n <= |p.valueStart| == |ts|
    ensures FrameOk(g)
  {
    if n == 0 then f else Zeroed(ZeroedAll(f, p, ts, n - 1), ts[n - 1], StepsForValue(p, n - 1))
  }

  function ZeroFrames(f: Frame, p: Plan, ts: seq<GoType>): (fs: seq<Frame>)
    requires FrameOk(f) && PlanOk(p) && |p.valueStart| == |ts|
    ensures |fs| == |p.valueStart| + 1 && forall n :: 0 <= n < |fs| ==> fs[n] == ZeroedAll(f, p, ts, n)
  {
    seq(|p.valueStart| + 1, n requires 0 <= n <= |p.valueStart| => ZeroedAll(f, p, ts, n))
  }

  /** Every byte of register `r` but the first is zero, and stays so. */
  predicate OneByte(f: Frame, r: nat)
    requires FrameOk(f) && r < INT_ARG_REGS
  {
    forall b :: 1 <= b < 8 ==> f.ints[r][b] == 0
  }

  lemma {:induction false} OneByteStays(f: Frame, p: Plan, ts: seq<GoType>, n: nat, r: nat)
    requires FrameOk(f) && PlanOk(p) && n <= |p.valueStart| == |ts| && r < INT_ARG_REGS && OneByte(f, r)
    ensures OneByte(ZeroedAll(f, p, ts, n), r)
  {
    hide StepsForValue, NamesIntByte;
    if n != 0 { OneByteStays(f, p, ts, n - 1, r); }
  }

  predicate AllSized(p: Plan) { forall k :: 0 <= k < |p.steps| ==> 0 < p.steps[k].size }

  lemma {:induction false} ZeroOnceUsed(f: Frame, p: Plan, ts: seq<GoType>, n: nat, j: nat, st: Step)
    requires FrameOk(f) && PlanOk(p) && j < n <= |p.valueStart| == |ts| && StepOk(st) && !st.kind.StepStack? && Uses(p, j, st)
    requires AllSized(p) && (IsInt(st) ==> OneByte(f, st.ireg))
    ensures var g := ZeroedAll(f, p, ts, n); if st.kind.StepFloatReg? then g.floats[st.freg] == ZERO_WORD else g.ints[st.ireg] == ZERO_WORD
  {
    hide StepsForValue;
    if j < n - 1 {
      ZeroOnceUsed(f, p, ts, n - 1, j, st);
    } else {
      var steps := StepsForValue(p, j);
      var x :| 0 <= x < |steps| && Clash(steps[x], st);
      if st.kind.StepFloatReg? {
        assert NamesFloat(steps, st.freg);
      } else {
        OneByteStays(f, p, ts, j, st.ireg);
        assert 0 < steps[x].size by { SizedPart(p, j, x); }
        assert NamesIntByte(steps, st.ireg, 0);
      }
    }
  }

  lemma SizedPart(p: Plan, j: nat, x: nat)
    requires PlanOk(p) && AllSized(p) && j < |p.valueStart| && x < |StepsForValue(p, j)|
    ensures 0 < StepsForValue(p, j)[x].size
  {
    assert StepsForValue(p, j)[x] == p.steps[p.valueStart[j] + x];
  }

  lemma {:induction false} PlanSized(base: nat, ts: seq<GoType>, n: nat)
    requires AllWf(ts) && n <= |ts|
    ensures AllSized(PlanAt(base, ts, n))
  {
    hide Emit, Next;
    if n != 0 {
      PlanSized(base, ts, n - 1);
      EmitSized(PlanAt(base, ts, n - 1).cur, ts[n - 1]);
    }
  }

  lemma ResultsSized(sig: Signature, l: Layout)
    requires FitsWindow(sig, l)
    ensures AllSized(l.ret)
  {
    hide PlanAt, GatherOk, MaskOk, SlotPtrs;
    PlanSized(l.retOffset, sig.outs, |sig.outs|);
  }

  lemma EmitSized(c: Cursor, t: GoType)
    requires Wf(t)
    ensures forall x :: 0 <= x < |Emit(c, t)| ==> 0 < Emit(c, t)[x].size
  {
    var steps := Emit(c, t);
    EmitForms(c, t);
    PartsSized(t, 0);
    hide Emit, Parts, Place, Wf;
    forall x | 0 <= x < |steps| ensures 0 < steps[x].size { EmitInside(c, t, x); }
  }

  const ONE_WORD: Word8 := [1, 0, 0, 0, 0, 0, 0, 0]

  /** One register holds 1, nothing else anything. */
  function OneIn(st: Step): (f: Frame)
    ensures FrameOk(f)
  {
    Frame(seq(INT_ARG_REGS, r => if IsInt(st) && r == st.ireg then ONE_WORD else ZERO_WORD), seq(INT_ARG_REGS, _ => ZERO_WORD),
          seq(FLOAT_ARG_REGS, r => if st.kind.StepFloatReg? && r == st.freg then ONE_WORD else ZERO_WORD),
          seq(STACK_WORDS, _ => ZERO_WORD), seq(STACK_WINDOW, _ => 0))
  }

  function ZeroResults(ts: seq<GoType>): (vs: seq<seq<Byte>>)
    ensures ValuesOf(ts, vs)
  {
    var vs := seq(|ts|, i requires 0 <= i < |ts| => Zeros(Size(ts[i])));
    assert ValuesOf(ts, vs) by {
      forall i | 0 <= i < |ts| ensures Legal(ts[i], vs[i]) { ZerosLegal(ts[i]); }
    }
    vs
  }

  lemma ZerosLegal(t: GoType)
    ensures Legal(t, Zeros(Size(t)))
  {
    if t.Iface? { assert Zeros(16)[8..] == ZERO_WORD; }
  }

  lemma ZeroStoring(f: Frame, sig: Signature, l: Layout)
    requires FrameOk(f) && FitsWindow(sig, l) && PlanOf(l.retOffset, sig.outs).cur.stackBytes <= STACK_WINDOW
    ensures Storing(PlainEnv(), ZeroFrames(f, l.ret, sig.outs), l.retOffset, sig.outs, ZeroResults(sig.outs))
  {
    hide PlanAt, PlanOf, StepsForValue, Emit, StepsOk, GatherOk, MaskOk, SlotPtrs, Scattered, Zeroed;
    var fs := ZeroFrames(f, l.ret, sig.outs);
    forall k | 0 <= k < |fs| - 1
      ensures ScatteredAt(PlainEnv(), fs[k], fs[k + 1], l.retOffset, sig.outs, ZeroResults(sig.outs), k)
    {
      ResultSteps(sig, l, k);
      ZeroedScattered(fs[k], PlanAt(l.retOffset, sig.outs, k).cur, sig.outs[k], StepsForValue(l.ret, k));
      assert fs[k + 1] == Zeroed(fs[k], sig.outs[k], StepsForValue(l.ret, k));
    }
  }

  /** A value in one register has its first byte there. */
  lemma FirstByte(c: Cursor, t: GoType, steps: seq<Step>)
    requires StepsOf(c, t, steps) && |steps| == 1 && 0 < Size(t) && !OnStack(steps)
    ensures IsData(t, 0) && t != Complex(8) && !t.Iface?
  {
    hide IsData, Wf, StepsOk, Place;
    OffsetZero(c, t, steps);
    PartsSized(t, 0);
    EmitInside(c, t, 0);
    StepMovesData(c, t, 0, 0);
  }

  /** The value 1, of any type, stays apart from zero when stored. */
  lemma OneStays(t: GoType, steps: seq<Step>, v: seq<Byte>)
    requires |v| == Size(t) && 0 < |v| && v[0] == 1 && (forall b :: 1 <= b < |v| ==> v[b] == 0) && t != Complex(8)
    ensures Image(PlainEnv(), t, v, steps) == v
  {
    hide NarrowWord, Unsigned;
    if t == Float(4) {
      assert v == [1, 0, 0, 0];
      FourBytes(1, 0, 0, 0);
      NarrowWordKeeps(v);
    }
  }

  /** With 1 in the argument's register and every result zero, the argument is 1 at first
      and 0 once a result that uses its register is stored. */
  lemma LostReads(sig: Signature, l: Layout, i: nat, k: nat, j: nat)
    requires FitsWindow(sig, l) && i < |sig.ins| && InPlaceArg(sig, l, i) && j < k < |sig.outs| && Takes(sig, l, i, j)
    ensures IsData(sig.ins[i], 0) && sig.ins[i] != Complex(8)
    ensures var fs := ZeroFrames(OneIn(StepsForValue(l.call, i + 1)[0]), l.ret, sig.outs); var v0 := ArgIn(fs[0], sig, l, i);
            && ArgIn(fs[k], sig, l, i) == Zeros(Size(sig.ins[i]))
            && v0[0] == 1 && (forall b :: 1 <= b < |v0| ==> v0[b] == 0) && Legal(sig.ins[i], v0)
  {
    hide PlanAt, PlanOf, StepsForValue, Emit, StepsOk, GatherOk, MaskOk, SlotPtrs, Uses, Zeroed, IsData;
    ArgSteps(sig, l, i);
    var t, at, cur := sig.ins[i], StepsForValue(l.call, i + 1), PlanAt(0, CallTypes(sig), i + 1).cur;
    if OnStack(at) { SlotNeverOverwritten(sig, l, i, j); }
    FirstByte(cur, t, at);
    ResultsSized(sig, l);
    assert IsInt(at[0]) ==> OneByte(OneIn(at[0]), at[0].ireg);
    ZeroOnceUsed(OneIn(at[0]), l.ret, sig.outs, k, j, at[0]);
  }

  lemma AliasLost(sig: Signature, l: Layout, i: nat, k: nat, j: nat) returns (fs: seq<Frame>, vs: seq<seq<Byte>>)
    requires FitsWindow(sig, l) && i < |sig.ins| && InPlaceArg(sig, l, i) && k < |sig.outs| && sig.outs[k] == sig.ins[i]
    requires !AnyRejected(l.retOffset, sig.outs, |sig.outs|) && j < k && Takes(sig, l, i, j)
    ensures AliasRun(PlainEnv(), fs, sig, l, vs, i, k) && !Arrives(PlainEnv(), fs, sig, l, vs, i, k)
  {
    hide PlanAt, PlanOf, StepsForValue, GatherOk, MaskOk, SlotPtrs, Storing, Uses, Zeroed, Takes, ArgIn, AnyRejected, Legal, Arrives, OneIn, IsData;
    LayoutBounds(sig, l);
    fs := ZeroFrames(OneIn(StepsForValue(l.call, i + 1)[0]), l.ret, sig.outs);
    vs := ZeroResults(sig.outs);
    ZeroStoring(fs[0], sig, l);
    LostReads(sig, l, i, k, j);
    assert vs[k] == Zeros(Size(sig.outs[k]));
    LostShows(PlainEnv(), fs, sig, l, vs, i, k);
  }

  lemma LostShows(env: Env, fs: seq<Frame>, sig: Signature, l: Layout, vs: seq<seq<Byte>>, i: nat, k: nat)
    requires FitsWindow(sig, l) && i < |sig.ins| && InPlaceArg(sig, l, i) && k < |sig.outs| && sig.outs[k] == sig.ins[i]
    requires env == PlainEnv() && AliasRun(env, fs, sig, l, vs, i, k) && vs[k] == Zeros(Size(sig.outs[k]))
    requires var v0 := ArgIn(fs[0], sig, l, i); v0[0] == 1 && forall b :: 1 <= b < |v0| ==> v0[b] == 0
    requires IsData(sig.outs[k], 0) && sig.outs[k] != Complex(8)
    ensures !Arrives(env, fs, sig, l, vs, i, k)
  {
    hide PlanAt, PlanOf, StepsForValue, Emit, StepsOk, GatherOk, MaskOk, SlotPtrs, Encodes, Mirrored, Image, Bytes, Storing, ArgIn, PlainEnv, IsData;
    LayoutBounds(sig, l);
    ResultSteps(sig, l, k);
    var ts, steps := sig.outs, StepsForValue(l.ret, k);
    AllStored(env, fs, l.retOffset, ts, vs);
    FirstOk(env, fs, l.retOffset, ts, vs);
    LastOk(env, fs, l.retOffset, ts, vs);
    FindsStored(env, fs[|ts|], sig, l, vs, k);
    ZerosStay(ts[k], steps);
    OneStays(ts[k], steps, ArgIn(fs[0], sig, l, i));
  }

  /** An argument described in place and returned as result `k` arrives as it was passed,
      whatever the argument, the other results and the closures, iff no result before `k`
      uses its register; unless storing panics on some result in any case. */
  lemma AliasArrivesIff(sig: Signature, l: Layout, i: nat, k: nat)
    requires FitsWindow(sig, l) && i < |sig.ins| && InPlaceArg(sig, l, i) && k < |sig.outs| && sig.outs[k] == sig.ins[i]
    ensures (forall env, fs, vs :: AliasRun(env, fs, sig, l, vs, i, k) ==> Arrives(env, fs, sig, l, vs, i, k))
            <==> AnyRejected(l.retOffset, sig.outs, |sig.outs|) || FreeBefore(sig, l, i, k)
  {
    hide AliasRun, Arrives, PlanAt, PlanOf, StepsForValue, Uses, GatherOk, MaskOk, SlotPtrs;
    if FreeBefore(sig, l, i, k) {
      forall env, fs, vs | AliasRun(env, fs, sig, l, vs, i, k) ensures Arrives(env, fs, sig, l, vs, i, k) {
        AliasKept(env, fs, sig, l, vs, i, k);
      }
    } else if AnyRejected(l.retOffset, sig.outs, |sig.outs|) {
      forall env, fs, vs ensures !AliasRun(env, fs, sig, l, vs, i, k) { RejectedRun(env, fs, sig, l, vs, i, k); }
    } else {
      var j :| 0 <= j < k && Takes(sig, l, i, j);
      var fs, vs := AliasLost(sig, l, i, k, j);
    }
  }

  lemma RejectedRun(env: Env, fs: seq<Frame>, sig: Signature, l: Layout, vs: seq<seq<Byte>>, i: nat, k: nat)
    requires FitsWindow(sig, l) && i < |sig.ins| && InPlaceArg(sig, l, i) && k < |sig.outs|
    requires AnyRejected(l.retOffset, sig.outs, |sig.outs|)
    ensures !AliasRun(env, fs, sig, l, vs, i, k)
  {
  }

  lemma {:induction false} IntsPlan(ts: seq<GoType>, k: nat)
    requires k <= |ts| <= INT_ARG_REGS && forall i :: 0 <= i < |ts| ==> ts[i] in {SInt(8), Ptr}
    ensures AllWf(ts) && PlanAt(0, ts, k).cur == Cursor(k, 0, 0)
  {
    hide Emit, Next;
    assert AllWf(ts) by { forall i | 0 <= i < |ts| ensures Wf(ts[i]) { ScalarPlace(Cursor(0, 0, 0), ts[i]); } }
    if k != 0 {
      IntsPlan(ts, k - 1);
      ScalarPlace(Cursor(k - 1, 0, 0), ts[k - 1]);
    }
  }

  lemma IntsAt(ts: seq<GoType>, i: nat)
    requires i < |ts| <= INT_ARG_REGS && forall i :: 0 <= i < |ts| ==> ts[i] in {SInt(8), Ptr}
    ensures AllWf(ts) && PlanOf(0, ts).cur.stackBytes == 0 && PlanOk(PlanOf(0, ts)) && |PlanOf(0, ts).valueStart| == |ts|
    ensures StepsForValue(PlanOf(0, ts), i) == [Step(if ts[i].Ptr? then StepPointer else StepIntReg, 0, 8, 0, i, 0)]
  {
    hide Emit, Next, PlanAt, StepsForValue;
    IntsPlan(ts, i);
    IntsPlan(ts, |ts|);
    ScalarPlace(Cursor(i, 0, 0), ts[i]);
    ValueSteps(0, ts, |ts|, i);
  }

  /** An interceptor of a method from int to three ints returns its argument as the
      third: it is read when two results are stored, and arrives as the second of them. */
  lemma ArgumentLost(env: Env, fs: seq<Frame>, vs: seq<seq<Byte>>)
    requires AllWf([SInt(8), SInt(8), SInt(8)]) && ValuesOf([SInt(8), SInt(8), SInt(8)], vs)
    requires PlanOf(0, [SInt(8), SInt(8), SInt(8)]).cur.stackBytes <= STACK_WINDOW
    requires |fs| == 4 && Storing(env, fs, 0, [SInt(8), SInt(8), SInt(8)], vs)
    ensures AllWf([Ptr, SInt(8)]) && PlanOk(PlanOf(0, [Ptr, SInt(8)])) && |PlanOf(0, [Ptr, SInt(8)]).valueStart| == 2
    ensures var at := StepsForValue(PlanOf(0, [Ptr, SInt(8)]), 1);
            && |at| == 1 && StepOk(at[0]) && FrameOk(fs[2]) && FrameOk(fs[3])
            && (vs[2] == Read(fs[2], at[0]) ==> fs[3].ints[2] == vs[1])
  {
    hide PlanAt, PlanOf, StepsForValue, Storing, Stored;
    var ts := [SInt(8), SInt(8), SInt(8)];
    IntsAt([Ptr, SInt(8)], 1);
    IntsAt(ts, 1);
    IntsAt(ts, 2);
    StoringPrefix(env, fs, 0, ts, vs, 2);
    LastOk(env, fs, 0, ts, vs);
    LastOk(env, fs[..3], 0, ts, vs);
    var at := StepsForValue(PlanOf(0, [Ptr, SInt(8)]), 1);
    assert Image(env, ts[1], vs[1], StepsForValue(PlanOf(0, ts), 1)) == vs[1] == vs[1][0..8];
    PlaceOverwritten(env, fs[..3], 0, ts, vs, at[0], 1, 0);
    assert Image(env, ts[2], vs[2], StepsForValue(PlanOf(0, ts), 2)) == vs[2] == vs[2][0..8];
    PlaceOverwritten(env, fs, 0, ts, vs, StepsForValue(PlanOf(0, ts), 2)[0], 2, 0);
  }
}
