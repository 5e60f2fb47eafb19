/** A whole call of a proxy without interceptors, from the caller's frame to the
    caller's frame. */
module ProxiedCall {
  import opened Wrappers
  import opened Bits
  import opened GoTypes
  import opened AbiAssign
  import opened AbiLayout
  import opened Precise
  import opened Frames
  import opened Values
  import opened Registers
  import opened Results
  import opened Materialize
  import opened Dispatch
  import opened FastPath
  import opened Invocation
  import opened Entry

  // ----- the dispatch function -----

  /** The results to scatter: none after a call by registers, zeros without a target. */
  function ToStore(c: Call, e: Event, rets: seq<seq<Byte>>): Option<seq<Option<seq<Byte>>>> {
    match e
    case CalledReflect(_) => Some(seq(|rets|, i requires 0 <= i < |rets| => Some(rets[i])))
    case GaveZeros => Some([])
    case _ => None
  }

  /** The frame dispatch ends with when the target's code leaves `regs`, or what came back
      through reflect is `rets`. */
  ghost predicate LeftBy(c: Call, regs: Frame, e: Event, rets: seq<seq<Byte>>, g: Frame)
    requires CallOk(c)
  {
    && FrameOk(g) && FrameOk(regs)
    && match e
       case CalledCode(_) => g == regs
       case CalledReflect(_) => HeldResults(c, g, rets) && OnlyResults(c, regs, g)
       case GaveZeros => HeldResults(c, g, ResultsOf(c.sig.outs, [])) && OnlyResults(c, regs, g)
       case _ => false
  }

  /** Storing results changed their registers, slots and pointer mirrors alone. */
  ghost predicate OnlyResults(c: Call, f: Frame, g: Frame)
    requires CallOk(c) && FrameOk(f) && FrameOk(g)
  {
    LayoutBounds(c.sig, c.layout);
    Untouched(f, g, c.layout.ret.steps) && OnlyPointers(f, g, c.layout.retOffset, c.sig.outs)
  }

  ghost predicate HeldResults(c: Call, g: Frame, rs: seq<seq<Byte>>)
    requires CallOk(c) && FrameOk(g)
  {
    LayoutBounds(c.sig, c.layout);
    ValuesOf(c.sig.outs, rs) && Stored(c.env, g, c.layout.retOffset, c.sig.outs, rs, |c.sig.outs|)
  }

  /** The result part of the caller's area comes from the frame, the rest stays. */
  ghost predicate CopiedBack(l: Layout, was: seq<Byte>, g: Frame, now: seq<Byte>) {
    && FrameOk(g) && l.retOffset <= l.stackBytes <= STACK_WINDOW && l.stackBytes <= |was|
    && now == if l.stackBytes == 0 then was else was[..l.retOffset] + g.stack[l.retOffset..l.stackBytes] + was[l.stackBytes..]
  }

  /** The first Proceed of an invocation without interceptors. */
  lemma NextWithout(c: Call, s: Inv, left: Op)
    requires CallOk(c) && InvOk(c, s) && Fresh(s) && c.links == 0 && left.Proceed? && OpOk(left)
    ensures var n := Dispatch.Next(c, s, left);
            && (n.1.GaveZeros? <==> c.target.NoTarget?)
            && (n.1.CalledCode? <==> c.target.ByCode? && c.layout.stackBytes == 0)
            && (n.1.CalledCode? ==> n.1.regs == Replayed(s, c.target.data) && FrameOk(n.0.regs) && n.0.direct)
            && (!n.1.CalledCode? ==> !n.0.direct && n.0.regs == s.regs)
            && (n.1.CalledReflect? ==> Readable(c.env, s.regs, c.sig, c.layout) && n.1.args == ReadArgs(c, s.regs))
            && (n.1.ReadPanic? ==> !Readable(c.env, s.regs, c.sig, c.layout))
            && (n.1.GaveZeros? || n.1.CalledCode? || n.1.CalledReflect? || n.1.ReadPanic?)
  {
    hide FitsWindow, AllArgs, ReadArgs, Readable;
  }

  lemma RetsAre(ts: seq<GoType>, rets: seq<seq<Byte>>)
    requires ValuesOf(ts, rets)
    ensures var given := seq(|rets|, i requires 0 <= i < |rets| => Some(rets[i])); RetsOf(ts, given) && ResultsOf(ts, given) == rets
  {
    hide Legal;
    var given := seq(|rets|, i requires 0 <= i < |rets| => Some(rets[i]));
    forall i | 0 <= i < |ts| ensures RetOk(ts[i], given, i) && ResultOf(ts[i], given, i) == rets[i] { assert Legal(ts[i], rets[i]); }
    assert ResultsOf(ts, given) == rets;
  }

  /** Registers and stack arguments in, the call without interceptors, results out. The
      target's code leaves the registers of `left`; what reflect brings back is `rets`. */
  method Serve(x: Ctx, ints: seq<Word8>, floats: seq<Word8>, area: array<Byte>, left: Op, rets: seq<seq<Byte>>)
      returns (ok: bool, e: Event, ghost s: Inv)
    requires x.Valid() && x.call.links == 0 && Fresh(x.State()) && left.Proceed? && OpOk(left)
    requires |ints| == INT_ARG_REGS && |floats| == FLOAT_ARG_REGS && ValuesOf(x.call.sig.outs, rets)
    requires x.call.layout.stackBytes <= area.Length && area != x.regs.stack
    modifies x, x.regs.ints, x.regs.ptrs, x.regs.floats, x.regs.stackPtrs, x.regs.stack
    modifies x.snap.ints, x.snap.ptrs, x.snap.floats, x.snap.stackPtrs, area
    ensures InvOk(x.call, s) && Fresh(s) && Arrived(x.call.layout, ints, floats, old(area[..]), s.regs)
    ensures e == Dispatch.Next(x.call, s, left).1
    ensures ok <==> !e.ReadPanic? && (e.CalledCode? || !AnyRejected(x.call.layout.retOffset, x.call.sig.outs, |x.call.sig.outs|))
    ensures ok ==> x.regs.Valid() && LeftBy(x.call, Dispatch.Next(x.call, s, left).0.regs, e, rets, x.regs.State())
    ensures ok ==> CopiedBack(x.call.layout, old(area[..]), x.regs.State(), area[..])
  {
    hide AllArgs, ReadArgs, Readable, Arrived, AnyRejected, Stored, Dispatch.Next, PlanOf, PlanAt, GatherOk, MaskOk, SlotPtrs, Legal;
    LayoutBounds(x.call.sig, x.call.layout);
    Arrive(x.regs, x.call.sig, x.call.layout, ints, floats, area);
    s := x.State();
    e := x.Proceed(left.ints, left.floats);
    NextWithout(x.call, s, left);
    if e.ReadPanic? { return false, e, s; }
    RetsAre(x.call.sig.outs, rets);
    ok := StoreResults(x.regs, x.call.env, x.call.sig, x.call.layout, x.direct, ToStore(x.call, e, rets));
    if !ok { return; }
    CopyBack(x.regs, x.call.sig, x.call.layout, area);
  }

  // ----- what the caller gets -----

  /** Values read back through reflect and passed on again are the same call, whether in
      registers or on the stack. */
  lemma RereadAnywhere(c: Call, f0: Frame, h: Frame, vs: seq<seq<Byte>>)
    requires CallOk(c) && FrameOk(f0) && FrameOk(h) && HoldsArgs(c, f0, vs) && AllRebuild(c, vs)
    requires Readable(c.env, f0, c.sig, c.layout) && HoldsArgs(c, h, ReadArgs(c, f0))
    ensures HoldsArgs(c, h, vs)
  {
    hide GatherOk, MaskOk, SlotPtrs, StepsForValue, PlanAt, PlanOf, StepsOk, Emit, ArgAt, Encodes, SameData, Rebuilds;
    var ws := ReadArgs(c, f0);
    forall i | 0 <= i < |vs| ensures HoldsArg(c, h, i, vs[i]) {
      assert HoldsArg(c, f0, i, vs[i]) && HoldsArg(c, h, i, ws[i]);
      assert ArgAt(c.env, f0, c.sig, c.layout, i) == Some(ws[i]);
      ArgSteps(c.sig, c.layout, i);
      ArgDecodesIff(c.env, f0, c.sig, c.layout, i, vs[i]);
      if OnStack(StepsForValue(c.layout.call, i + 1)) {
        SlotExact(c, f0, i, vs[i]);
      } else {
        EncodesSame(PlanAt(0, CallTypes(c.sig), i + 1).cur, c.sig.ins[i], h, ws[i], vs[i]);
      }
    }
  }

  /** An argument on the stack is read byte for byte. */
  lemma SlotExact(c: Call, f: Frame, i: nat, v: seq<Byte>)
    requires CallOk(c) && FrameOk(f) && i < |c.sig.ins| && Legal(c.sig.ins[i], v) && Rebuilds(c.env, c.sig.ins[i], v)
    requires OnStack(StepsForValue(c.layout.call, i + 1)) && HoldsArg(c, f, i, v)
    ensures ArgAt(c.env, f, c.sig, c.layout, i) == Some(v)
  {
    hide GatherOk, MaskOk, SlotPtrs, StepsForValue, PlanAt, PlanOf, StepsOk, Emit, Reboxed;
    var t, cur, steps := c.sig.ins[i], PlanAt(0, CallTypes(c.sig), i + 1).cur, StepsForValue(c.layout.call, i + 1);
    ArgSteps(c.sig, c.layout, i);
    EmitForms(cur, t);
    if t.Iface? {
      IfaceDecodes(c.env, cur, t, v, f);
    } else {
      assert Holds(f, steps[0], v);
      assert v[0..|v|] == v;
    }
  }

  /** The target was reached through reflect with these arguments, and what it left was
      read as `rets`. */
  ghost predicate ByReflection(c: Call, recv: Word8, runs: (Frame, Frame) -> bool, args: seq<Arg>, rets: seq<seq<Byte>>)
    requires CallOk(c)
  {
    exists h, back :: runs(h, back) && FrameOk(h) && FrameOk(back) && h.ints[0] == recv && HoldsArgs(c, h, args) && HoldsResults(c, back, rets)
  }

  ghost predicate Answered(c: Call, recv: Word8, runs: (Frame, Frame) -> bool, regs: Frame, e: Event, rets: seq<seq<Byte>>)
    requires CallOk(c)
  {
    match e
    case CalledCode(h) => runs(h, regs)
    case CalledReflect(args) => ByReflection(c, recv, runs, args, rets)
    case _ => true
  }

  /** Result `i` as a frame gives it to the caller. */
  ghost function Found(c: Call, g: Frame, i: nat): (r: seq<Byte>)
    requires CallOk(c) && FrameOk(g) && i < |c.sig.outs|
    ensures |r| == Size(c.sig.outs[i])
  {
    RetSteps(c, i);
    StepsOkEach(StepsForValue(c.layout.ret, i));
    Bytes(g, StepsForValue(c.layout.ret, i), Size(c.sig.outs[i]))
  }

  lemma FoundHeld(c: Call, g: Frame, i: nat, r: seq<Byte>)
    requires CallOk(c) && FrameOk(g) && i < |c.sig.outs| && Legal(c.sig.outs[i], r) && HoldsResult(c, g, i, r)
    ensures SameData(c.sig.outs[i], Found(c, g, i), r)
  {
    hide GatherOk, MaskOk, SlotPtrs, StepsForValue, PlanAt, PlanOf, StepsOk, Emit, Encodes, SameData, Bytes;
    RetSteps(c, i);
    BytesOf(PlanAt(c.layout.retOffset, c.sig.outs, i).cur, c.sig.outs[i], g, r);
  }

  lemma CodeGives(c: Call, recv: Word8, runs: (Frame, Frame) -> bool, fn: seq<seq<Byte>> -> seq<seq<Byte>>,
                  s: Inv, left: Op, vs: seq<seq<Byte>>, i: nat)
    requires CallOk(c) && InvOk(c, s) && Fresh(s) && c.links == 0 && left.Proceed? && OpOk(left)
    requires c.target.ByCode? && c.target.data == recv && c.layout.stackBytes == 0
    requires Implements(c, recv, runs, fn) && HoldsArgs(c, s.regs, vs) && i < |c.sig.outs|
    requires var n := Dispatch.Next(c, s, left); runs(Replayed(s, recv), n.0.regs) && FrameOk(n.0.regs)
    ensures ValuesOf(c.sig.outs, fn(vs)) && SameData(c.sig.outs[i], Found(c, Dispatch.Next(c, s, left).0.regs, i), fn(vs)[i])
  {
    hide Dispatch.Next, Implements, HoldsArgs, SameData, Found, FitsWindow, Replayed, HoldsResult;
    var g := Dispatch.Next(c, s, left).0.regs;
    ReplayPasses(c, s.regs, s, recv, vs);
    Returns(c, recv, runs, fn, Replayed(s, recv), g, vs);
    assert HoldsResult(c, g, i, fn(vs)[i]);
    FoundHeld(c, g, i, fn(vs)[i]);
  }

  lemma ReflectGives(c: Call, recv: Word8, runs: (Frame, Frame) -> bool, fn: seq<seq<Byte>> -> seq<seq<Byte>>,
                     f: Frame, vs: seq<seq<Byte>>, rets: seq<seq<Byte>>, g: Frame, i: nat)
    requires CallOk(c) && FrameOk(f) && FrameOk(g) && Implements(c, recv, runs, fn) && HoldsArgs(c, f, vs) && AllRebuild(c, vs)
    requires Readable(c.env, f, c.sig, c.layout) && ByReflection(c, recv, runs, ReadArgs(c, f), rets)
    requires HeldResults(c, g, rets) && i < |c.sig.outs|
    ensures ValuesOf(c.sig.outs, fn(vs))
    ensures SameData(c.sig.outs[i], Found(c, g, i), fn(vs)[i]) <==>
            StoredPlain(c.env, c.sig.outs[i], fn(vs)[i], StepsForValue(c.layout.ret, i))
  {
    hide Implements, HoldsArgs, AllRebuild, SameData, StoredPlain, Readable, ReadArgs, Stored, Bytes, HoldsResult;
    hide StepsForValue, PlanOf, PlanAt, GatherOk, MaskOk, SlotPtrs;
    var h, back :| runs(h, back) && FrameOk(h) && FrameOk(back) && h.ints[0] == recv && HoldsArgs(c, h, ReadArgs(c, f)) && HoldsResults(c, back, rets);
    RereadAnywhere(c, f, h, vs);
    Returns(c, recv, runs, fn, h, back, vs);
    var t, r, v := c.sig.outs[i], rets[i], fn(vs)[i];
    assert HoldsResult(c, back, i, r) && HoldsResult(c, back, i, v);
    assert SameData(t, r, v) by { HeldSameResult(c, back, i, r, v); }
    LayoutBounds(c.sig, c.layout);
    ResultArrivesIff(c.env, g, c.sig, c.layout, rets, i);
    PlainRespects(c.env, t, r, v, StepsForValue(c.layout.ret, i));
    SameEither(t, Found(c, g, i), r, v);
  }

  lemma HeldSameResult(c: Call, f: Frame, i: nat, r: seq<Byte>, v: seq<Byte>)
    requires CallOk(c) && FrameOk(f) && i < |c.sig.outs| && Legal(c.sig.outs[i], r) && Legal(c.sig.outs[i], v)
    requires HoldsResult(c, f, i, r) && HoldsResult(c, f, i, v)
    ensures SameData(c.sig.outs[i], r, v)
  {
    hide GatherOk, MaskOk, SlotPtrs, StepsForValue, PlanAt, PlanOf, StepsOk, Emit, Encodes, SameData;
    RetSteps(c, i);
    HeldSame(PlanAt(c.layout.retOffset, c.sig.outs, i).cur, c.sig.outs[i], f, r, v);
  }

  lemma SameEither(t: GoType, x: seq<Byte>, r: seq<Byte>, v: seq<Byte>)
    requires |x| == |r| == |v| == Size(t) && SameData(t, r, v)
    ensures SameData(t, x, r) <==> SameData(t, x, v)
  {
  }

  /** The caller's frames before and after a call that is served: its arguments arrive, and
      what dispatch leaves gets back. */
  ghost predicate CallerSees(c: Call, caller: Frame, was: seq<Byte>, s: Inv, g: Frame, now: seq<Byte>, after: Frame)
    requires CallOk(c)
  {
    var l := c.layout;
    && l.stackCallArgsSize <= l.retOffset <= l.stackBytes <= |was|
    && CallerFrame(caller, caller.ints, caller.floats, was, 0, l.stackCallArgsSize)
    && Arrived(l, caller.ints, caller.floats, was, s.regs)
    && FrameOk(g) && l.stackBytes <= STACK_WINDOW && l.stackBytes <= |now|
    && now[l.retOffset..l.stackBytes] == g.stack[l.retOffset..l.stackBytes]
    && CallerFrame(after, g.ints, g.floats, now, l.retOffset, l.stackBytes)
  }

  /** What the dispatch function promises is enough for that. */
  lemma ServedIsSeen(c: Call, caller: Frame, was: seq<Byte>, s: Inv, g: Frame, now: seq<Byte>, after: Frame)
    requires CallOk(c) && CallerFrame(caller, caller.ints, caller.floats, was, 0, c.layout.stackCallArgsSize)
    requires Arrived(c.layout, caller.ints, caller.floats, was, s.regs) && CopiedBack(c.layout, was, g, now)
    requires CallerFrame(after, g.ints, g.floats, now, c.layout.retOffset, c.layout.stackBytes)
    ensures CallerSees(c, caller, was, s, g, now, after)
  {
    hide GatherOk, MaskOk, SlotPtrs, StepsForValue, PlanAt, PlanOf, Arrived;
    LayoutBounds(c.sig, c.layout);
  }

  lemma FoundAfter(c: Call, caller: Frame, was: seq<Byte>, s: Inv, g: Frame, now: seq<Byte>, after: Frame, i: nat)
    requires CallOk(c) && FrameOk(g) && CallerSees(c, caller, was, s, g, now, after) && i < |c.sig.outs|
    ensures FrameOk(after) && Found(c, after, i) == Found(c, g, i)
  {
    hide GatherOk, MaskOk, SlotPtrs, StepsForValue, PlanAt, PlanOf, StepsOk, Emit, SameRead, Bytes;
    var l, steps, cur := c.layout, StepsForValue(c.layout.ret, i), PlanAt(c.layout.retOffset, c.sig.outs, i).cur;
    RetSteps(c, i);
    RetSlotInside(c, i);
    StepsOkEach(steps);
    forall k | 0 <= k < |steps| ensures SameRead(after, g, steps[k]) {
      if steps[k].kind.StepStack? {
        StackAlone(cur, c.sig.outs[i], steps, k);
      }
      SameReadOf(g, after, steps[k], l.retOffset, l.stackBytes);
    }
    ReadsSame(after, g, steps, Size(c.sig.outs[i]));
  }

  lemma SameReadOf(f: Frame, g: Frame, st: Step, lo: nat, hi: nat)
    requires FrameOk(f) && FrameOk(g) && StepOk(st) && g.ints == f.ints && g.floats == f.floats
    requires st.kind.StepStack? ==> lo <= st.stkOff && st.stkOff + st.size <= hi <= STACK_WINDOW && f.stack[lo..hi] == g.stack[lo..hi]
    ensures SameRead(g, f, st)
  {
    if st.kind.StepStack? { SameSlice(f.stack, g.stack, lo, hi, st.stkOff, st.stkOff + st.size); }
  }

  lemma ReadsSame(f: Frame, g: Frame, steps: seq<Step>, n: nat)
    requires FrameOk(f) && FrameOk(g) && forall k :: 0 <= k < |steps| ==> StepOk(steps[k]) && SameRead(f, g, steps[k])
    ensures Bytes(f, steps, n) == Bytes(g, steps, n)
  {
    hide SameRead;
    forall rel: nat | rel < n ensures ByteAt(f, steps, rel) == ByteAt(g, steps, rel) { ByteSame(f, g, steps, rel); }
  }

  lemma {:induction false} ByteSame(f: Frame, g: Frame, steps: seq<Step>, rel: nat)
    requires FrameOk(f) && FrameOk(g) && forall k :: 0 <= k < |steps| ==> StepOk(steps[k]) && SameRead(f, g, steps[k])
    ensures ByteAt(f, steps, rel) == ByteAt(g, steps, rel)
  {
    hide Frames.Read;
    if steps != [] { ByteSame(f, g, steps[..|steps| - 1], rel); }
  }

  /** A proxied call without interceptors: result `i`, as the caller finds it, is what the
      target's function gives for the caller's arguments iff the call went by registers or
      the result is one stored plain. Through reflect this is claimed of arguments reading
      does not change; by registers of all. */
  lemma ProxyIsTransparent(c: Call, recv: Word8, runs: (Frame, Frame) -> bool, fn: seq<seq<Byte>> -> seq<seq<Byte>>,
                           vs: seq<seq<Byte>>, caller: Frame, was: seq<Byte>, s: Inv, left: Op, rets: seq<seq<Byte>>,
                           g: Frame, now: seq<Byte>, after: Frame, i: nat)
    requires CallOk(c) && InvOk(c, s) && Fresh(s) && c.links == 0 && left.Proceed? && OpOk(left)
    requires !c.target.NoTarget? && (c.target.ByCode? ==> c.target.data == recv) && Implements(c, recv, runs, fn)
    requires FrameOk(caller) && HoldsArgs(c, caller, vs) && ((c.target.ByCode? && c.layout.stackBytes == 0) || AllRebuild(c, vs))
    requires var n := Dispatch.Next(c, s, left); Answered(c, recv, runs, n.0.regs, n.1, rets) && LeftBy(c, n.0.regs, n.1, rets, g)
    requires CallerSees(c, caller, was, s, g, now, after) && i < |c.sig.outs|
    ensures FrameOk(after) && ValuesOf(c.sig.outs, fn(vs))
    ensures SameData(c.sig.outs[i], Found(c, after, i), fn(vs)[i]) <==>
            (c.target.ByCode? && c.layout.stackBytes == 0) || StoredPlain(c.env, c.sig.outs[i], fn(vs)[i], StepsForValue(c.layout.ret, i))
  {
    hide Implements, HoldsArgs, AllRebuild, SameData, FitsWindow, StoredPlain, Readable, ReadArgs, Found, HeldResults, Dispatch.Next, StepsForValue, CallerFrame, Arrived, ByReflection, Replayed;
    ArgsArrive(c, caller, was, s.regs, vs);
    NextWithout(c, s, left);
    FoundAfter(c, caller, was, s, g, now, after, i);
    var n := Dispatch.Next(c, s, left);
    if n.1.CalledCode? {
      CodeGives(c, recv, runs, fn, s, left, vs, i);
    } else {
      ReflectGives(c, recv, runs, fn, s.regs, vs, rets, g, i);
    }
  }
}
