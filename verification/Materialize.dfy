/** Turning the spill area of a call into argument values. */
module Materialize {
  import opened Wrappers
  import opened Bits
  import opened LittleEndian
  import opened GoTypes
  import opened AbiAssign
  import opened AbiLayout
  import opened Coverage
  import opened Frames
  import opened Values
  import opened Registers
  import opened Results

  /** `n` bytes at a step's address; past the register there is padding at most. */
  function MemAt(f: Frame, st: Step, n: nat): (r: seq<Byte>)
    requires FrameOk(f) && StepOk(st) && (st.kind.StepStack? ==> n <= st.size)
    ensures |r| == n
  {
    match st.kind
    case StepStack => f.stack[st.stkOff..st.stkOff + n]
    case StepFloatReg => if n <= 8 then f.floats[st.freg][..n] else f.floats[st.freg] + Zeros(n - 8)
    case _ => if n <= 8 then f.ints[st.ireg][..n] else f.ints[st.ireg] + Zeros(n - 8)
  }

  /** The value an argument materialises to; None where that panics. One in a single
      place is described there, others are assembled. */
  function Materialized(env: Env, f: Frame, t: GoType, steps: seq<Step>): (r: Option<seq<Byte>>)
    requires FrameOk(f) && (forall k :: 0 <= k < |steps| ==> StepOk(steps[k]))
    requires |steps| == 1 && steps[0].kind.StepStack? ==> Size(t) <= steps[0].size
    ensures r.Some? ==> |r.value| == Size(t)
  {
    if Size(t) != 0 && !t.Iface? && |steps| == 1 then Some(MemAt(f, steps[0], Size(t)))
    else Decode(env, f, t, steps)
  }

  /** That is the value the steps hold, padding aside. */
  lemma MaterializedIs(env: Env, c: Cursor, t: GoType, steps: seq<Step>, f: Frame)
    requires StepsOf(c, t, steps) && FrameOk(f)
    ensures forall k :: 0 <= k < |steps| ==> StepOk(steps[k])
    ensures |steps| == 1 && steps[0].kind.StepStack? ==> Size(t) <= steps[0].size
    ensures var a := Materialized(env, f, t, steps); var b := Decode(env, f, t, steps);
            (a.Some? <==> b.Some?) && (a.Some? ==> SameData(t, a.value, b.value))
  {
    hide Emit, StepsOk, Bytes, SameData, Wf, Size, StepOk;
    StepsOkEach(steps);
    EmitForms(c, t);
    if Size(t) != 0 && !t.Iface? && |steps| == 1 {
      InPlace(c, t, steps, f);
    } else if Decode(env, f, t, steps).Some? {
      SameSelf(t, Decode(env, f, t, steps).value);
    }
  }

  lemma SameSelf(t: GoType, a: seq<Byte>)
    requires |a| == Size(t)
    ensures SameData(t, a, a)
  {
  }

  /** A value in one register or slot can be read where it lies. */
  lemma InPlace(c: Cursor, t: GoType, steps: seq<Step>, f: Frame)
    requires StepsOf(c, t, steps) && |steps| == 1 && 0 < Size(t) && FrameOk(f)
    ensures steps[0].kind.StepStack? ==> Size(t) <= steps[0].size
    ensures SameData(t, MemAt(f, steps[0], Size(t)), Bytes(f, steps, Size(t)))
  {
    hide Emit, StepsOk, Parts, IsData, Size, Wf;
    var st := steps[0];
    StepsOkEach(steps);
    assert steps[..0] == [];
    assert st.offset == 0 by { OffsetZero(c, t, steps); }
    EmitForms(c, t);
    forall rel | 0 <= rel < Size(t) && IsData(t, rel) ensures MemAt(f, st, Size(t))[rel] == Bytes(f, steps, Size(t))[rel] {
      EmitCovers(c, t, rel);
    }
  }

  lemma OffsetZero(c: Cursor, t: GoType, steps: seq<Step>)
    requires Wf(t) && steps == Emit(c, t) && |steps| >= 1 && 0 < Size(t)
    ensures steps[0].offset == 0
  {
    hide Parts, Place, Ints, Floats, Wf, Size;
    EmitForms(c, t);
    if !OnStack(steps) {
      FirstPart(t, 0);
      EmitInside(c, t, 0);
    }
  }

  /** A sized value has steps. */
  lemma SizedSteps(c: Cursor, t: GoType)
    requires Wf(t) && 0 < Size(t)
    ensures Emit(c, t) != []
  {
    hide Parts, Place, Ints, Floats, Wf, Size;
    if FitsRegs(c, t) {
      FirstPart(t, 0);
      PlaceLen(Parts(t, 0), c.iregs, c.fregs);
    }
  }

  /** The two words of an interface as its steps read them. */
  lemma IfaceWords(env: Env, c: Cursor, t: GoType, steps: seq<Step>, f: Frame)
    requires StepsOf(c, t, steps) && t.Iface? && FrameOk(f)
    ensures |steps| == 1 ==> OnStack(steps) && StepOk(steps[0]) && steps[0].size == 16 && Bytes(f, steps, 16) == Read(f, steps[0])
    ensures |steps| != 1 ==>
              && |steps| == 2 && StepOk(steps[0]) && StepOk(steps[1]) && steps[0].size == 8 && steps[1].size == 8
              && Bytes(f, steps, 16) == Read(f, steps[0]) + Read(f, steps[1])
  {
    hide Emit, Read, StepOk;
    StepsOkEach(steps);
    IfaceShape(env, c, t, Zeros(16), steps) by { assert Zeros(16)[8..] == ZERO_WORD; }
    if |steps| == 1 {
      assert steps[..0] == [];
    } else {
      var mem := Bytes(f, steps, 16);
      forall rel | 0 <= rel < 16 ensures mem[rel] == (Read(f, steps[0]) + Read(f, steps[1]))[rel] {
        if rel < 8 {
          assert steps[..1][..0] == [];
          assert ByteAt(f, steps[..1], rel) == Read(f, steps[0])[rel];
        }
      }
    }
  }

  // ----- the gather buffer -----

  method Load(regs: RegBuf, st: Step) returns (bs: seq<Byte>)
    requires regs.Valid() && StepOk(st)
    ensures bs == Read(regs.State(), st)
  {
    match st.kind
    case StepStack => bs := regs.stack[st.stkOff..st.stkOff + st.size];
    case StepFloatReg => bs := regs.floats[st.freg][..st.size];
    case _ => bs := regs.ints[st.ireg][..st.size];
  }

  lemma NextStep(f: Frame, steps: seq<Step>, k: nat, n: nat)
    requires FrameOk(f) && k < |steps| && (forall j :: 0 <= j < |steps| ==> StepOk(steps[j])) && StepFits(steps[k], n)
    ensures var st := steps[k]; var was := Bytes(f, steps[..k], n);
            Bytes(f, steps[..k + 1], n) == was[..st.offset] + Read(f, st) + was[st.offset + st.size..]
  {
    hide Read, StepOk;
    var st := steps[k];
    var was, now := Bytes(f, steps[..k], n), Bytes(f, steps[..k + 1], n);
    assert steps[..k + 1][..k] == steps[..k];
    forall rel | 0 <= rel < n
      ensures now[rel] == (if st.offset <= rel < st.offset + st.size then Read(f, st)[rel - st.offset] else was[rel])
    {
    }
  }

  /** Copies the parts of one argument to its region at `dst`, which is zero. */
  method GatherInto(regs: RegBuf, buf: array<Byte>, dst: nat, n: nat, steps: seq<Step>)
    requires regs.Valid() && buf !in regs.Repr() && dst + n <= buf.Length
    requires forall k :: 0 <= k < |steps| ==> StepOk(steps[k]) && StepFits(steps[k], n)
    requires buf[dst..dst + n] == Zeros(n)
    modifies buf
    ensures buf[..] == old(buf[..dst]) + Bytes(regs.State(), steps, n) + old(buf[dst + n..])
  {
    hide Bytes, Read, StepOk;
    ghost var f := regs.State();
    ghost var head, tail := buf[..dst], buf[dst + n..];
    var k := 0;
    assert Bytes(f, steps[..0], n) == Zeros(n) by { NoBytes(f, n); assert steps[..0] == []; }
    while k < |steps|
      invariant 0 <= k <= |steps| && regs.State() == f
      invariant buf[..] == head + Bytes(f, steps[..k], n) + tail
    {
      GatherStep(regs, buf, dst, n, steps, k, head, tail);
      k := k + 1;
    }
    assert steps[..|steps|] == steps;
  }

  method GatherStep(regs: RegBuf, buf: array<Byte>, dst: nat, ghost n: nat, steps: seq<Step>, k: nat,
                    ghost head: seq<Byte>, ghost tail: seq<Byte>)
    requires regs.Valid() && buf !in regs.Repr() && |head| == dst && k < |steps|
    requires forall j :: 0 <= j < |steps| ==> StepOk(steps[j]) && StepFits(steps[j], n)
    requires buf[..] == head + Bytes(regs.State(), steps[..k], n) + tail
    modifies buf
    ensures buf[..] == head + Bytes(regs.State(), steps[..k + 1], n) + tail
  {
    hide Bytes, Read, StepOk;
    ghost var f, before := regs.State(), buf[..];
    assert StepFits(steps[k], n);
    assert |before| == dst + n + |tail|;
    var bs := Load(regs, steps[k]);
    CopyBytes(buf, dst + steps[k].offset, bs);
    PartGathered(f, steps, k, n, head, tail, before, buf[..]);
  }

  lemma PartGathered(f: Frame, steps: seq<Step>, k: nat, n: nat, head: seq<Byte>, tail: seq<Byte>, before: seq<Byte>, after: seq<Byte>)
    requires FrameOk(f) && k < |steps| && (forall j :: 0 <= j < |steps| ==> StepOk(steps[j])) && StepFits(steps[k], n)
    requires before == head + Bytes(f, steps[..k], n) + tail
    requires var at := |head| + steps[k].offset; after == before[..at] + Read(f, steps[k]) + before[at + steps[k].size..]
    ensures after == head + Bytes(f, steps[..k + 1], n) + tail
  {
    hide Bytes, Read, StepOk;
    NextStep(f, steps, k, n);
    Spliced(head, Bytes(f, steps[..k], n), tail, steps[k].offset, Read(f, steps[k]));
  }

  lemma NoBytes(f: Frame, n: nat)
    requires FrameOk(f)
    ensures Bytes(f, [], n) == Zeros(n)
  {
  }

  method CopyBytes(buf: array<Byte>, at: nat, bs: seq<Byte>)
    requires at + |bs| <= buf.Length
    modifies buf
    ensures buf[..] == old(buf[..])[..at] + bs + old(buf[..])[at + |bs|..]
  {
    for i := 0 to |bs|
      invariant buf[..] == old(buf[..])[..at] + bs[..i] + old(buf[..])[at + i..]
    {
      buf[at + i] := bs[i];
    }
  }

  lemma Spliced(head: seq<Byte>, was: seq<Byte>, tail: seq<Byte>, off: nat, bs: seq<Byte>)
    requires off + |bs| <= |was|
    ensures var all := head + was + tail; var at := |head| + off;
            all[..at] + bs + all[at + |bs|..] == head + (was[..off] + bs + was[off + |bs|..]) + tail
  {
  }

  // ----- all arguments -----

  lemma ArgSteps(sig: Signature, l: Layout, i: nat)
    requires FitsWindow(sig, l) && i < |sig.ins|
    ensures CallTypes(sig)[i + 1] == sig.ins[i] && AllWf(CallTypes(sig))
    ensures var steps := StepsForValue(l.call, i + 1);
            && StepsOf(PlanAt(0, CallTypes(sig), i + 1).cur, sig.ins[i], steps)
            && (forall k :: 0 <= k < |steps| ==> StepOk(steps[k]))
            && (|steps| == 1 && steps[0].kind.StepStack? ==> Size(sig.ins[i]) <= steps[0].size)
  {
    hide PlanAt, PlanOf, StepsForValue, Emit, StepsOk, GatherOk, MaskOk, SlotPtrs;
    LayoutBounds(sig, l);
    ValueStepsOf(0, CallTypes(sig), i + 1);
    StepsOkEach(StepsForValue(l.call, i + 1));
    EmitForms(PlanAt(0, CallTypes(sig), i + 1).cur, sig.ins[i]);
  }

  /** Argument `i` as read out of the frame. */
  ghost function ArgAt(env: Env, f: Frame, sig: Signature, l: Layout, i: nat): (r: Option<seq<Byte>>)
    requires FrameOk(f) && FitsWindow(sig, l) && i < |sig.ins|
    ensures r.Some? ==> |r.value| == Size(sig.ins[i])
  {
    ArgSteps(sig, l, i);
    Materialized(env, f, sig.ins[i], StepsForValue(l.call, i + 1))
  }

  method LoadAt(regs: RegBuf, st: Step, n: nat) returns (bs: seq<Byte>)
    requires regs.Valid() && StepOk(st) && (st.kind.StepStack? ==> n <= st.size)
    ensures bs == MemAt(regs.State(), st, n)
  {
    match st.kind
    case StepStack => bs := regs.stack[st.stkOff..st.stkOff + n];
    case StepFloatReg => bs := if n <= 8 then regs.floats[st.freg][..n] else regs.floats[st.freg] + Zeros(n - 8);
    case _ => bs := if n <= 8 then regs.ints[st.ireg][..n] else regs.ints[st.ireg] + Zeros(n - 8);
  }

  /** An interface argument. A nil first word is the zero value; any other is taken for
      an itab, which it is not if the interface has no methods. The concrete type it
      records is assigned to the interface again, which panics unless it implements it. */
  method MaterializeIface(regs: RegBuf, env: Env, t: GoType, steps: seq<Step>, ghost c: Cursor) returns (r: Option<seq<Byte>>)
    requires regs.Valid() && StepsOf(c, t, steps) && t.Iface? && forall k :: 0 <= k < |steps| ==> StepOk(steps[k])
    ensures r == Decode(env, regs.State(), t, steps)
  {
    hide Emit, Bytes, StepsOk;
    IfaceWords(env, c, t, steps, regs.State());
    var first := Load(regs, steps[0]);
    var tab := first[..8];
    assert tab == Bytes(regs.State(), steps, 16)[..8];
    if tab == ZERO_WORD { return Some(Zeros(16)); }
    var data;
    if |steps| == 1 { data := first[8..]; } else { data := Load(regs, steps[1]); }
    if t == Iface(true) { return None; }
    assert tab + data == Bytes(regs.State(), steps, 16);
    var own := Reboxed(env, tab);
    if own.None? { return None; }
    return Some(own.value + data);
  }

  /** An argument that is not gathered: of no size, an interface, or in one place. */
  method MaterializeSimple(regs: RegBuf, env: Env, t: GoType, steps: seq<Step>, ghost c: Cursor) returns (r: Option<seq<Byte>>)
    requires regs.Valid() && StepsOf(c, t, steps) && (|steps| > 1 && 0 < Size(t) ==> t.Iface?)
    requires forall k :: 0 <= k < |steps| ==> StepOk(steps[k])
    requires |steps| == 1 && steps[0].kind.StepStack? ==> Size(t) <= steps[0].size
    ensures r == Materialized(env, regs.State(), t, steps)
  {
    hide Emit, Bytes, StepsOk, Wf;
    if Size(t) == 0 { return Some([]); }
    if t.Iface? {
      r := MaterializeIface(regs, env, t, steps, c);
      return;
    }
    SizedSteps(c, t);
    var bs := LoadAt(regs, steps[0], Size(t));
    return Some(bs);
  }

  /** The region of an argument in the buffer holds `bs`. */
  predicate RegionIs(buf: seq<Byte>, at: nat, bs: seq<Byte>) {
    at + |bs| <= |buf| && buf[at..at + |bs|] == bs
  }

  lemma RegionKept(was: seq<Byte>, now: seq<Byte>, dst: nat, x: seq<Byte>, at: nat, bs: seq<Byte>)
    requires dst + |x| <= |was| && now == was[..dst] + x + was[dst + |x|..]
    requires RegionIs(was, at, bs) && (at + |bs| <= dst || dst + |x| <= at)
    ensures RegionIs(now, at, bs)
  {
    assert forall k :: at <= k < at + |bs| ==> now[k] == was[k];
  }

  predicate ByGather(sig: Signature, l: Layout, i: nat)
    requires i < |sig.ins| && i < |l.argGather|
  {
    l.argGather[i].Some? && !sig.ins[i].Iface?
  }

  ghost predicate GatheredAt(f: Frame, sig: Signature, l: Layout, buf: seq<Byte>, i: nat)
    requires FrameOk(f) && FitsWindow(sig, l) && i < |sig.ins|
  {
    ArgSteps(sig, l, i);
    l.argGather[i].Some? ==> RegionIs(buf, l.argGather[i].value, Bytes(f, StepsForValue(l.call, i + 1), Size(sig.ins[i])))
  }

  ghost predicate ZeroAt(sig: Signature, l: Layout, buf: seq<Byte>, i: nat)
    requires i < |sig.ins| && i < |l.argGather|
  {
    l.argGather[i].Some? ==> RegionIs(buf, l.argGather[i].value, Zeros(Size(sig.ins[i])))
  }

  /** Every argument can be read. */
  ghost predicate Readable(env: Env, f: Frame, sig: Signature, l: Layout)
    requires FrameOk(f) && FitsWindow(sig, l)
  {
    forall i :: 0 <= i < |sig.ins| ==> ArgAt(env, f, sig, l, i).Some?
  }

  /** Every argument, as the frame holds it; one that cannot be read panics. Those
      gathered are views of one shared buffer, read when all of them have been copied
      there. */
  method MaterializeArgs(regs: RegBuf, env: Env, sig: Signature, l: Layout) returns (r: Outcome<seq<seq<Byte>>>)
    requires regs.Valid() && FitsWindow(sig, l)
    ensures r.Done? <==> Readable(env, regs.State(), sig, l)
    ensures r.Done? ==> |r.value| == |sig.ins| && forall i :: 0 <= i < |sig.ins| ==> ArgAt(env, regs.State(), sig, l, i) == Some(r.value[i])
  {
    hide ArgAt, GatheredAt, ZeroAt, StepsForValue, PlanOf, PlanAt, Bytes, Emit, StepsOk, MaskOk, SlotPtrs;
    var buf := new Byte[l.gatherBytes](_ => 0);
    ghost var f := regs.State();
    AllZero(sig, l, buf[..]);
    var out: seq<seq<Byte>> := [];
    var i := 0;
    while i < |sig.ins|
      invariant 0 <= i <= |sig.ins| && |out| == i && regs.State() == f && buf !in regs.Repr() && fresh(buf)
      invariant forall j :: 0 <= j < i && !ByGather(sig, l, j) ==> ArgAt(env, f, sig, l, j) == Some(out[j])
      invariant forall j :: 0 <= j < i && ByGather(sig, l, j) ==> GatheredAt(f, sig, l, buf[..], j)
      invariant forall j :: i <= j < |sig.ins| ==> ZeroAt(sig, l, buf[..], j)
    {
      if ByGather(sig, l, i) {
        GatherArg(regs, sig, l, buf, i);
        out := out + [[]];
      } else {
        var one := MaterializeOne(regs, env, sig, l, i);
        if one.None? { return Panics; }
        out := out + [one.value];
      }
      i := i + 1;
    }
    i := 0;
    while i < |sig.ins|
      invariant 0 <= i <= |sig.ins| && |out| == |sig.ins| && regs.State() == f
      invariant forall j :: 0 <= j < |sig.ins| && (j < i || !ByGather(sig, l, j)) ==> ArgAt(env, f, sig, l, j) == Some(out[j])
      invariant forall j :: 0 <= j < |sig.ins| && ByGather(sig, l, j) ==> GatheredAt(f, sig, l, buf[..], j)
    {
      if ByGather(sig, l, i) {
        ViewIs(env, f, sig, l, buf[..], i);
        var g := l.argGather[i].value;
        out := out[i := buf[g..g + Size(sig.ins[i])]];
      }
      i := i + 1;
    }
    return Done(out);
  }

  method MaterializeOne(regs: RegBuf, env: Env, sig: Signature, l: Layout, i: nat) returns (r: Option<seq<Byte>>)
    requires regs.Valid() && FitsWindow(sig, l) && i < |sig.ins| && !ByGather(sig, l, i)
    ensures r == ArgAt(env, regs.State(), sig, l, i)
  {
    hide StepsForValue, PlanOf, PlanAt, Bytes, Emit, StepsOk, MaskOk, SlotPtrs, Materialized;
    ArgSteps(sig, l, i);
    assert l.argGather[i].Some? <==> Gathered(l.call, sig.ins, i);
    r := MaterializeSimple(regs, env, sig.ins[i], StepsForValue(l.call, i + 1), PlanAt(0, CallTypes(sig), i + 1).cur);
  }

  method GatherArg(regs: RegBuf, sig: Signature, l: Layout, buf: array<Byte>, i: nat)
    requires regs.Valid() && FitsWindow(sig, l) && i < |sig.ins| && ByGather(sig, l, i) && buf !in regs.Repr()
    requires forall j :: 0 <= j < i && ByGather(sig, l, j) ==> GatheredAt(regs.State(), sig, l, buf[..], j)
    requires forall j :: i <= j < |sig.ins| ==> ZeroAt(sig, l, buf[..], j)
    modifies buf
    ensures forall j :: 0 <= j <= i && ByGather(sig, l, j) ==> GatheredAt(regs.State(), sig, l, buf[..], j)
    ensures forall j :: i < j < |sig.ins| ==> ZeroAt(sig, l, buf[..], j)
  {
    hide StepsForValue, PlanOf, PlanAt, Bytes, Emit, StepsOk, MaskOk, SlotPtrs, StepOk;
    ArgSteps(sig, l, i);
    var steps := StepsForValue(l.call, i + 1);
    var t := sig.ins[i];
    forall k | 0 <= k < |steps| ensures StepFits(steps[k], Size(t)) { EmitInside(PlanAt(0, CallTypes(sig), i + 1).cur, t, k); }
    ghost var f, was := regs.State(), buf[..];
    var dst := l.argGather[i].value;
    assert ZeroAt(sig, l, was, i);
    GatherInto(regs, buf, dst, Size(t), steps);
    ghost var x := Bytes(f, steps, Size(t));
    forall j | 0 <= j <= i && ByGather(sig, l, j) ensures GatheredAt(f, sig, l, buf[..], j) {
      if j < i {
        assert GatheredAt(f, sig, l, was, j);
        ArgSteps(sig, l, j);
        RegionKept(was, buf[..], dst, x, l.argGather[j].value, Bytes(f, StepsForValue(l.call, j + 1), Size(sig.ins[j])));
      }
    }
    forall j | i < j < |sig.ins| ensures ZeroAt(sig, l, buf[..], j) {
      assert ZeroAt(sig, l, was, j);
      if l.argGather[j].Some? { RegionKept(was, buf[..], dst, x, l.argGather[j].value, Zeros(Size(sig.ins[j]))); }
    }
  }

  lemma AllZero(sig: Signature, l: Layout, buf: seq<Byte>)
    requires FitsWindow(sig, l) && |buf| == l.gatherBytes && forall k :: 0 <= k < |buf| ==> buf[k] == 0
    ensures forall j :: 0 <= j < |sig.ins| ==> ZeroAt(sig, l, buf, j)
  {
    hide PlanOf, PlanAt, MaskOk, SlotPtrs;
  }

  /** A gathered argument read from the buffer. */
  lemma ViewIs(env: Env, f: Frame, sig: Signature, l: Layout, buf: seq<Byte>, i: nat)
    requires FrameOk(f) && FitsWindow(sig, l) && i < |sig.ins| && ByGather(sig, l, i) && GatheredAt(f, sig, l, buf, i)
    ensures var g := l.argGather[i].value;
            g + Size(sig.ins[i]) <= |buf| && ArgAt(env, f, sig, l, i) == Some(buf[g..g + Size(sig.ins[i])])
  {
    hide PlanOf, PlanAt, StepsForValue, Bytes, MaskOk, SlotPtrs, StepsOk, Emit;
    ArgSteps(sig, l, i);
    assert l.argGather[i].Some? <==> Gathered(l.call, sig.ins, i);
  }

  lemma RebuildsIff(env: Env, t: GoType, v: seq<Byte>)
    requires |v| == Size(t)
    ensures Rebuilds(env, t, v) <==>
            (t.Iface? && v[..8] != [0, 0, 0, 0, 0, 0, 0, 0] ==> !t.empty && env.getitab(env.itabAt(v[..8])) == Some(v[..8]))
  {
  }

  /** An argument the caller encoded comes out as it went in iff, being an interface, it
      is nil or has methods and the runtime's own itab. */
  lemma ArgDecodesIff(env: Env, f: Frame, sig: Signature, l: Layout, i: nat, v: seq<Byte>)
    requires FrameOk(f) && FitsWindow(sig, l) && i < |sig.ins| && Legal(sig.ins[i], v)
    requires StepsOk(StepsForValue(l.call, i + 1)) && Encodes(f, StepsForValue(l.call, i + 1), v)
    ensures Returned(sig.ins[i], v, ArgAt(env, f, sig, l, i)) <==> Rebuilds(env, sig.ins[i], v)
    ensures Returned(sig.ins[i], v, ArgAt(env, f, sig, l, i)) <==>
            (sig.ins[i].Iface? && v[..8] != [0, 0, 0, 0, 0, 0, 0, 0] ==>
              !sig.ins[i].empty && env.getitab(env.itabAt(v[..8])) == Some(v[..8]))
  {
    RebuildsIff(env, sig.ins[i], v);
    hide Emit, Encodes, StepsOk, PlanAt, PlanOf, StepsForValue, Decode, SameData, GatherOk, MaskOk, SlotPtrs, Materialized, Rebuilds;
    var t, c, steps := sig.ins[i], PlanAt(0, CallTypes(sig), i + 1).cur, StepsForValue(l.call, i + 1);
    ArgSteps(sig, l, i);
    DecodesIff(env, c, t, v, f);
    MaterializedIs(env, c, t, steps, f);
    var a, b := Materialized(env, f, t, steps), Decode(env, f, t, steps);
    if a.Some? { SameTrans(t, a.value, b.value, v); }
  }
}
