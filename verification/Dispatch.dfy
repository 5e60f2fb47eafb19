/** One intercepted call: the chain, lazily read arguments, the register fast path
    and its snapshot. */
module Dispatch {
  import opened Wrappers
  import opened Bits
  import opened GoTypes
  import opened AbiAssign
  import opened AbiLayout
  import opened Frames
  import opened Values
  import opened Results
  import opened Materialize

  type Arg = seq<Byte>

  /** What the proxy delegates to: nothing, a method value through reflect, or the
      target's own code with its receiver word. */
  datatype Target = NoTarget | ByReflect | ByCode(data: Word8)

  datatype Call = Call(sig: Signature, layout: Layout, links: nat, target: Target, env: Env)

  /** An invocation at some moment; `regs` and `snap` share one stack area. */
  datatype Inv = Inv(next: nat, args: Option<seq<Arg>>, regs: Frame, snap: Frame, hasSnap: bool, direct: bool)

  /** What interceptors do with an invocation. Registers a target leaves behind come
      with the Proceed that may reach it. */
  datatype Op = Proceed(ints: seq<Word8>, floats: seq<Word8>) | Args | SetArg(i: int, v: Arg)

  /** What an operation comes down to. */
  datatype Event =
    | RanInterceptor(i: nat)
    | GaveZeros
    | CalledCode(regs: Frame)
    | CalledReflect(args: seq<Arg>)
    | Read(args: seq<Arg>)
    | Wrote
    | IndexPanic
    | ReadPanic

  ghost predicate CallOk(c: Call) { FitsWindow(c.sig, c.layout) }

  ghost predicate InvOk(c: Call, s: Inv) {
    FrameOk(s.regs) && FrameOk(s.snap) && (s.args.Some? ==> |s.args.value| == |c.sig.ins|)
  }

  predicate OpOk(op: Op) {
    op.Proceed? ==> |op.ints| == INT_ARG_REGS && |op.floats| == FLOAT_ARG_REGS
  }

  /** The registers that still hold the arguments. */
  function ArgRegs(s: Inv): Frame { if s.hasSnap then s.snap else s.regs }

  /** Argument `i` as the frame passes it: an interface as its two words. */
  ghost function Passed(c: Call, f: Frame, i: nat): (r: Arg)
    requires CallOk(c) && FrameOk(f) && i < |c.sig.ins|
  {
    ArgSteps(c.sig, c.layout, i);
    if c.sig.ins[i].Iface? then Bytes(f, StepsForValue(c.layout.call, i + 1), 16)
    else Materialized(c.env, f, c.sig.ins[i], StepsForValue(c.layout.call, i + 1)).GetOr([])
  }

  ghost function AllArgs(c: Call, f: Frame): (r: seq<Arg>)
    requires CallOk(c) && FrameOk(f)
    ensures |r| == |c.sig.ins|
  {
    seq(|c.sig.ins|, i requires 0 <= i < |c.sig.ins| => Passed(c, f, i))
  }

  /** The arguments as reading them gives them. */
  ghost function ReadArgs(c: Call, f: Frame): (r: seq<Arg>)
    requires CallOk(c) && FrameOk(f) && Readable(c.env, f, c.sig, c.layout)
    ensures |r| == |c.sig.ins|
  {
    seq(|c.sig.ins|, i requires 0 <= i < |c.sig.ins| => ArgAt(c.env, f, c.sig, c.layout, i).value)
  }

  /** The arguments, read on first use; none if that panics. */
  ghost function Reading(c: Call, s: Inv): (r: Option<Inv>)
    requires CallOk(c) && InvOk(c, s)
    ensures r.Some? ==> InvOk(c, r.value) && r.value.args.Some?
  {
    if s.args.Some? then Some(s)
    else if Readable(c.env, ArgRegs(s), c.sig, c.layout) then Some(s.(args := Some(ReadArgs(c, ArgRegs(s)))))
    else None
  }

  /** The call reissued at the target's code: what is handed over. */
  function Replayed(s: Inv, data: Word8): (f: Frame)
    requires FrameOk(s.regs) && FrameOk(s.snap)
    ensures FrameOk(f)
  {
    var base := if s.hasSnap then s.regs.(ints := s.snap.ints, floats := s.snap.floats) else s.regs;
    base.(ints := base.ints[0 := data], ptrs := base.ptrs[0 := data])
  }

  /** The register fast path. */
  function ByRegisters(s: Inv, data: Word8, op: Op): (r: (Inv, Event))
    requires FrameOk(s.regs) && FrameOk(s.snap) && op.Proceed? && OpOk(op)
  {
    var handed := Replayed(s, data);
    (s.(snap := if s.hasSnap then s.snap else s.regs, hasSnap := true, direct := true,
        regs := handed.(ints := op.ints, floats := op.floats)), CalledCode(handed))
  }

  ghost function CallTarget(c: Call, s: Inv, op: Op): (r: (Inv, Event))
    requires CallOk(c) && InvOk(c, s) && op.Proceed? && OpOk(op)
    ensures InvOk(c, r.0)
  {
    if c.target.NoTarget? then (s, GaveZeros)
    else if c.target.ByCode? && s.args.None? && c.layout.stackBytes == 0 then ByRegisters(s, c.target.data, op)
    else
      var r := Reading(c, s);
      if r.Some? then (r.value, CalledReflect(r.value.args.value)) else (s, ReadPanic)
  }

  ghost function Next(c: Call, s: Inv, op: Op): (r: (Inv, Event))
    requires CallOk(c) && InvOk(c, s) && OpOk(op)
    ensures InvOk(c, r.0)
  {
    match op
    case Proceed(_, _) =>
      if s.next < c.links then (s.(next := s.next + 1), RanInterceptor(s.next)) else CallTarget(c, s, op)
    case Args =>
      var r := Reading(c, s);
      if r.Some? then (r.value, Read(r.value.args.value)) else (s, ReadPanic)
    case SetArg(i, v) =>
      var r := Reading(c, s);
      if r.None? then (s, ReadPanic)
      else if 0 <= i < |r.value.args.value| then (r.value.(args := Some(r.value.args.value[i := v])), Wrote)
      else (r.value, IndexPanic)
  }

  ghost predicate OpsOk(ops: seq<Op>) { forall i :: 0 <= i < |ops| ==> OpOk(ops[i]) }

  ghost function Run(c: Call, s: Inv, ops: seq<Op>): (r: (Inv, seq<Event>))
    requires CallOk(c) && InvOk(c, s) && OpsOk(ops)
    ensures InvOk(c, r.0) && |r.1| == |ops|
  {
    if ops == [] then (s, [])
    else
      var n := |ops| - 1;
      var before := Run(c, s, ops[..n]);
      var last := Next(c, before.0, ops[n]);
      (last.0, before.1 + [last.1])
  }

  /** The invocation as a call arrives. */
  predicate Fresh(s: Inv) {
    s.next == 0 && s.args.None? && !s.hasSnap && !s.direct
  }

  // ----- what a caller should see -----

  /** The plain machine: the arguments are a list from the start, and every target
      call gets it. */
  datatype Plain = Plain(next: nat, args: seq<Arg>)

  datatype PlainEvent = PlainRan(i: nat) | PlainZeros | PlainCall(args: seq<Arg>) | PlainRead(args: seq<Arg>) | PlainWrote | PlainPanic | PlainReadPanic

  function PlainNext(c: Call, p: Plain, op: Op): (r: (Plain, PlainEvent)) {
    match op
    case Proceed(_, _) =>
      if p.next < c.links then (p.(next := p.next + 1), PlainRan(p.next))
      else (p, if c.target.NoTarget? then PlainZeros else PlainCall(p.args))
    case Args => (p, PlainRead(p.args))
    case SetArg(i, v) =>
      if 0 <= i < |p.args| then (p.(args := p.args[i := v]), PlainWrote) else (p, PlainPanic)
  }

  function PlainRun(c: Call, p: Plain, ops: seq<Op>): (r: (Plain, seq<PlainEvent>))
    ensures |r.1| == |ops|
  {
    if ops == [] then (p, [])
    else
      var n := |ops| - 1;
      var before := PlainRun(c, p, ops[..n]);
      var last := PlainNext(c, before.0, ops[n]);
      (last.0, before.1 + [last.1])
  }

  /** An event as the plain machine has it: a call by registers delivers the
      arguments those registers pass. Reading never panics there. */
  ghost function Seen(c: Call, e: Event): PlainEvent
    requires CallOk(c) && (e.CalledCode? ==> FrameOk(e.regs))
  {
    match e
    case RanInterceptor(i) => PlainRan(i)
    case GaveZeros => PlainZeros
    case CalledCode(f) => PlainCall(AllArgs(c, f))
    case CalledReflect(a) => PlainCall(a)
    case Read(a) => PlainRead(a)
    case Wrote => PlainWrote
    case IndexPanic => PlainPanic
    case ReadPanic => PlainReadPanic
  }

  // ----- the receiver's register is no argument's -----

  predicate SameAt(f: Frame, g: Frame, st: Step)
    requires FrameOk(f) && FrameOk(g) && StepOk(st)
  {
    match st.kind
    case StepStack => f.stack == g.stack
    case StepFloatReg => f.floats[st.freg] == g.floats[st.freg]
    case _ => f.ints[st.ireg] == g.ints[st.ireg]
  }

  lemma {:induction false} SameBytes(f: Frame, g: Frame, steps: seq<Step>, rel: nat)
    requires FrameOk(f) && FrameOk(g) && (forall k :: 0 <= k < |steps| ==> StepOk(steps[k]) && SameAt(f, g, steps[k]))
    ensures ByteAt(f, steps, rel) == ByteAt(g, steps, rel)
  {
    if steps != [] { SameBytes(f, g, steps[..|steps| - 1], rel); }
  }

  lemma SamePassed(env: Env, f: Frame, g: Frame, t: GoType, steps: seq<Step>)
    requires FrameOk(f) && FrameOk(g) && (forall k :: 0 <= k < |steps| ==> StepOk(steps[k]) && SameAt(f, g, steps[k]))
    requires |steps| == 1 && steps[0].kind.StepStack? ==> Size(t) <= steps[0].size
    ensures Bytes(f, steps, Size(t)) == Bytes(g, steps, Size(t))
    ensures Materialized(env, f, t, steps) == Materialized(env, g, t, steps)
  {
    hide ByteAt, Size;
    forall rel | 0 <= rel < Size(t) ensures Bytes(f, steps, Size(t))[rel] == Bytes(g, steps, Size(t))[rel] {
      SameBytes(f, g, steps, rel);
    }
    assert Bytes(f, steps, Size(t)) == Bytes(g, steps, Size(t));
  }

  /** The receiver is the first value and takes the first register. */
  lemma ReceiverFirst(sig: Signature, l: Layout)
    requires FitsWindow(sig, l)
    ensures |StepsForValue(l.call, 0)| == 1 && IsInt(StepsForValue(l.call, 0)[0]) && StepsForValue(l.call, 0)[0].ireg == 0
  {
    hide GatherOk, MaskOk, SlotPtrs, StepsForValue, AlignUp;
    var ts := CallTypes(sig);
    LayoutBounds(sig, l);
    ValueStepsOf(0, ts, 0);
    ValueSteps(0, ts, |ts|, 0);
    assert PlanAt(0, ts, 0) == Plan([], [], Cursor(0, 0, 0));
  }

  lemma ArgAvoidsReceiver(sig: Signature, l: Layout, i: nat, k: nat)
    requires FitsWindow(sig, l) && i < |sig.ins| && k < |StepsForValue(l.call, i + 1)|
    ensures var st := StepsForValue(l.call, i + 1)[k]; IsInt(st) ==> st.ireg != 0
  {
    hide GatherOk, MaskOk, SlotPtrs, StepsForValue, PlanAt, PlanOf;
    LayoutBounds(sig, l);
    ReceiverFirst(sig, l);
    PlanStepsOk(0, CallTypes(sig));
    ValuesApart(l.call, 0, i + 1, 0, k);
  }

  /** Frames that agree on all but the receiver's register pass the same arguments. */
  lemma SameArgs(c: Call, f: Frame, g: Frame)
    requires CallOk(c) && FrameOk(f) && FrameOk(g) && g.floats == f.floats && g.stack == f.stack
    requires forall r :: 1 <= r < INT_ARG_REGS ==> g.ints[r] == f.ints[r]
    ensures AllArgs(c, f) == AllArgs(c, g)
  {
    hide GatherOk, MaskOk, SlotPtrs, StepsForValue, PlanAt, PlanOf, Materialized, StepsOk, Emit;
    forall i | 0 <= i < |c.sig.ins| ensures Passed(c, f, i) == Passed(c, g, i) {
      ArgSteps(c.sig, c.layout, i);
      var steps := StepsForValue(c.layout.call, i + 1);
      forall k | 0 <= k < |steps| ensures SameAt(f, g, steps[k]) { ArgAvoidsReceiver(c.sig, c.layout, i, k); }
      SamePassed(c.env, f, g, c.sig.ins[i], steps);
    }
  }

  // ----- every run -----

  /** What every step keeps: until they are read, the registers still holding the
      arguments are the ones the call arrived with. */
  ghost predicate Keeps(c: Call, f0: Frame, s: Inv)
    requires CallOk(c) && FrameOk(f0)
  {
    && InvOk(c, s) && s.next <= c.links
    && ArgRegs(s) == f0
    && s.regs.stack == f0.stack
    && (s.hasSnap ==> c.layout.stackBytes == 0)
    && (s.direct ==> s.hasSnap)
  }

  lemma StepKeeps(c: Call, f0: Frame, s: Inv, op: Op)
    requires CallOk(c) && FrameOk(f0) && OpOk(op) && Keeps(c, f0, s)
    ensures Keeps(c, f0, Next(c, s, op).0)
    ensures Next(c, s, op).1.CalledCode? ==> FrameOk(Next(c, s, op).1.regs)
  {
    hide AllArgs, FitsWindow, ReadArgs, Readable;
  }

  lemma {:induction false} RunKeeps(c: Call, s: Inv, ops: seq<Op>)
    requires CallOk(c) && InvOk(c, s) && Fresh(s) && OpsOk(ops)
    ensures Keeps(c, s.regs, Run(c, s, ops).0)
  {
    hide Next, FitsWindow;
    if ops != [] {
      var n := |ops| - 1;
      RunKeeps(c, s, ops[..n]);
      StepKeeps(c, s.regs, Run(c, s, ops[..n]).0, ops[n]);
    }
  }

  /** The fast path is taken only with nothing on the stack. */
  lemma DirectMeansNoStack(c: Call, s: Inv, ops: seq<Op>)
    requires CallOk(c) && InvOk(c, s) && Fresh(s) && OpsOk(ops)
    ensures Run(c, s, ops).0.direct ==> c.layout.stackBytes == 0
  {
    RunKeeps(c, s, ops);
  }

  /** Reading changes no argument. */
  ghost predicate ArgsPlain(c: Call, f: Frame)
    requires CallOk(c) && FrameOk(f)
  {
    Readable(c.env, f, c.sig, c.layout) && ReadArgs(c, f) == AllArgs(c, f)
  }

  ghost predicate Matches(c: Call, f0: Frame, s: Inv, p: Plain)
    requires CallOk(c) && FrameOk(f0)
  {
    s.next == p.next && p.args == (if s.args.Some? then s.args.value else AllArgs(c, f0))
  }

  /** One step of the invocation is one step of the plain machine. */
  lemma StepRefines(c: Call, f0: Frame, s: Inv, p: Plain, op: Op)
    requires CallOk(c) && FrameOk(f0) && OpOk(op) && Keeps(c, f0, s) && Matches(c, f0, s, p) && ArgsPlain(c, f0)
    ensures Matches(c, f0, Next(c, s, op).0, PlainNext(c, p, op).0)
    ensures Next(c, s, op).1.CalledCode? ==> FrameOk(Next(c, s, op).1.regs)
    ensures Seen(c, Next(c, s, op).1) == PlainNext(c, p, op).1
  {
    hide AllArgs, FitsWindow, ReadArgs, Readable;
    if op.Proceed? && s.next == c.links && c.target.ByCode? && s.args.None? && c.layout.stackBytes == 0 {
      SameArgs(c, f0, Replayed(s, c.target.data));
    }
  }

  /** Over this run the invocation cannot be told from the plain machine. */
  ghost predicate LooksPlain(c: Call, s: Inv, ops: seq<Op>)
    requires CallOk(c) && InvOk(c, s) && OpsOk(ops)
  {
    var run := Run(c, s, ops);
    var plain := PlainRun(c, Plain(0, AllArgs(c, s.regs)), ops);
    forall k :: 0 <= k < |ops| ==> (run.1[k].CalledCode? ==> FrameOk(run.1[k].regs)) && Seen(c, run.1[k]) == plain.1[k]
  }

  /** Lazy reading, the snapshot and the register fast path do not show: calls before
      anything is written get the original arguments, a first read at any time gives the
      originals, and later calls get what was written. */
  lemma {:induction false} RunRefines(c: Call, s: Inv, ops: seq<Op>)
    requires CallOk(c) && InvOk(c, s) && Fresh(s) && OpsOk(ops) && ArgsPlain(c, s.regs)
    ensures LooksPlain(c, s, ops)
    ensures Matches(c, s.regs, Run(c, s, ops).0, PlainRun(c, Plain(0, AllArgs(c, s.regs)), ops).0)
  {
    hide Next, PlainNext, Seen, AllArgs, FitsWindow, ArgsPlain, Keeps;
    if ops != [] {
      var n := |ops| - 1;
      RunRefines(c, s, ops[..n]);
      RunKeeps(c, s, ops[..n]);
      StepRefines(c, s.regs, Run(c, s, ops[..n]).0, PlainRun(c, Plain(0, AllArgs(c, s.regs)), ops[..n]).0, ops[n]);
    }
  }

  /** That holds of every run iff reading changes no argument. */
  lemma RunRefinesIff(c: Call, s: Inv)
    requires CallOk(c) && InvOk(c, s) && Fresh(s)
    ensures (forall ops :: OpsOk(ops) ==> LooksPlain(c, s, ops)) <==> ArgsPlain(c, s.regs)
  {
    hide FitsWindow, AllArgs, ReadArgs, Readable, LooksPlain, ArgsPlain;
    if ArgsPlain(c, s.regs) {
      forall ops | OpsOk(ops) ensures LooksPlain(c, s, ops) { RunRefines(c, s, ops); }
    } else {
      ReadingShows(c, s);
    }
  }

  lemma ReadingShows(c: Call, s: Inv)
    requires CallOk(c) && InvOk(c, s) && Fresh(s) && !ArgsPlain(c, s.regs)
    ensures OpsOk([Op.Args]) && !LooksPlain(c, s, [Op.Args])
  {
    hide FitsWindow, AllArgs, ReadArgs, Readable;
    var ops := [Op.Args];
    assert ops[..0] == [];
    assert Run(c, s, ops).1[0] == Next(c, s, Op.Args).1;
    assert PlainRun(c, Plain(0, AllArgs(c, s.regs)), ops).1[0] == PlainRead(AllArgs(c, s.regs));
  }

  /** When an argument cannot be read, none ever is: calls by registers go through, and
      whatever needs the arguments panics. */
  lemma {:induction false} UnreadableStaysUnread(c: Call, s: Inv, ops: seq<Op>)
    requires CallOk(c) && InvOk(c, s) && Fresh(s) && OpsOk(ops) && !Readable(c.env, s.regs, c.sig, c.layout)
    ensures var run := Run(c, s, ops);
            && run.0.args.None?
            && forall k :: 0 <= k < |ops| ==>
                 run.1[k].RanInterceptor? || run.1[k].GaveZeros? || run.1[k].CalledCode? || run.1[k].ReadPanic?
  {
    hide Readable, FitsWindow, AllArgs, ReadArgs;
    if ops != [] {
      var n := |ops| - 1;
      UnreadableStaysUnread(c, s, ops[..n]);
      RunKeeps(c, s, ops[..n]);
    }
  }

  /** Once read, argument values described in place stay valid: no later operation
      writes the registers they lie in. */
  lemma ReadArgsStay(c: Call, s: Inv, op: Op)
    requires CallOk(c) && InvOk(c, s) && OpOk(op) && s.args.Some?
    ensures var r := Next(c, s, op).0; r.args.Some? && r.regs == s.regs && r.snap == s.snap && ArgRegs(r) == ArgRegs(s)
  {
  }

  /** How many interceptors have run. */
  function Ran(es: seq<Event>): nat {
    if es == [] then 0 else Ran(es[..|es| - 1]) + if es[|es| - 1].RanInterceptor? then 1 else 0
  }

  lemma {:induction false} RunPrefix(c: Call, s: Inv, ops: seq<Op>, k: nat)
    requires CallOk(c) && InvOk(c, s) && OpsOk(ops) && k < |ops|
    ensures Run(c, s, ops).1[..k] == Run(c, s, ops[..k]).1
    ensures Run(c, s, ops).1[k] == Next(c, Run(c, s, ops[..k]).0, ops[k]).1
  {
    hide Next, FitsWindow;
    var n := |ops| - 1;
    if k < n {
      RunPrefix(c, s, ops[..n], k);
      assert ops[..n][..k] == ops[..k];
    }
  }

  lemma NextCounts(c: Call, s: Inv, op: Op)
    requires CallOk(c) && InvOk(c, s) && OpOk(op) && s.next <= c.links
    ensures Next(c, s, op).0.next == s.next + (if Next(c, s, op).1.RanInterceptor? then 1 else 0) <= c.links
  {
    hide FitsWindow, AllArgs, Replayed;
  }

  lemma {:induction false} RanCounts(c: Call, s: Inv, ops: seq<Op>)
    requires CallOk(c) && InvOk(c, s) && Fresh(s) && OpsOk(ops)
    ensures Ran(Run(c, s, ops).1) == Run(c, s, ops).0.next <= c.links
  {
    hide FitsWindow, AllArgs, InvOk, Next;
    var n := |ops| - 1;
    if ops != [] {
      RanCounts(c, s, ops[..n]);
      RunPrefix(c, s, ops, n);
      NextCounts(c, Run(c, s, ops[..n]).0, ops[n]);
    }
  }

  /** Interceptors run in chain order, each at most once, and a call without
      interceptors left to run is the only one that reaches the target. */
  lemma InterceptorsInOrder(c: Call, s: Inv, ops: seq<Op>, k: nat)
    requires CallOk(c) && InvOk(c, s) && Fresh(s) && OpsOk(ops) && k < |ops|
    ensures var es := Run(c, s, ops).1;
            && (es[k].RanInterceptor? ==> es[k].i == Ran(es[..k]) < c.links)
            && (es[k].CalledCode? || es[k].CalledReflect? || es[k].GaveZeros? ==> Ran(es[..k]) == c.links)
            && (ops[k].Proceed? && Ran(es[..k]) < c.links ==> es[k].RanInterceptor?)
  {
    hide Run, Ran, FitsWindow, AllArgs;
    RunPrefix(c, s, ops, k);
    RanCounts(c, s, ops[..k]);
  }

  // ----- what the target's code is called with, and when -----

  /** The frame of the arrived call with the receiver rebound, pointer mirror included. */
  ghost predicate Rebound(f0: Frame, data: Word8, f: Frame)
    requires FrameOk(f0)
  {
    && FrameOk(f) && f.ints[0] == data && f.ptrs[0] == data
    && f.floats == f0.floats && f.stack == f0.stack && f.stackPtrs == f0.stackPtrs
    && forall r :: 1 <= r < INT_ARG_REGS ==> f.ints[r] == f0.ints[r] && f.ptrs[r] == f0.ptrs[r]
  }

  /** Mirrors are never lost: of the registers, the receiver's alone changes. */
  ghost predicate MirrorsStay(c: Call, f0: Frame, s: Inv)
    requires CallOk(c) && FrameOk(f0)
  {
    && InvOk(c, s) && s.regs.stackPtrs == f0.stackPtrs
    && forall r :: 1 <= r < INT_ARG_REGS ==> s.regs.ptrs[r] == f0.ptrs[r]
  }

  lemma StepMirrors(c: Call, f0: Frame, s: Inv, op: Op)
    requires CallOk(c) && FrameOk(f0) && OpOk(op) && Keeps(c, f0, s) && MirrorsStay(c, f0, s)
    ensures MirrorsStay(c, f0, Next(c, s, op).0)
    ensures Next(c, s, op).1.CalledCode? ==> c.target.ByCode? && Rebound(f0, c.target.data, Next(c, s, op).1.regs)
  {
    hide AllArgs, FitsWindow, ReadArgs, Readable;
  }

  lemma {:induction false} RunMirrors(c: Call, s: Inv, ops: seq<Op>)
    requires CallOk(c) && InvOk(c, s) && Fresh(s) && OpsOk(ops)
    ensures MirrorsStay(c, s.regs, Run(c, s, ops).0)
  {
    hide Next, FitsWindow, Keeps, MirrorsStay;
    if ops == [] {
      assert MirrorsStay(c, s.regs, s) by { MirrorsSelf(c, s); }
    } else {
      var n := |ops| - 1;
      RunMirrors(c, s, ops[..n]);
      RunKeeps(c, s, ops[..n]);
      StepMirrors(c, s.regs, Run(c, s, ops[..n]).0, ops[n]);
    }
  }

  lemma MirrorsSelf(c: Call, s: Inv)
    requires CallOk(c) && InvOk(c, s)
    ensures MirrorsStay(c, s.regs, s)
  {
  }

  /** Every call of the target's code, the first or a later one, is the call that arrived
      with the target for its receiver; so a pointer register mirrored on arrival is
      mirrored at the target, and so is the receiver. */
  lemma CodeGetsTheCall(c: Call, s: Inv, ops: seq<Op>, k: nat)
    requires CallOk(c) && InvOk(c, s) && Fresh(s) && OpsOk(ops) && k < |ops|
    ensures var e := Run(c, s, ops).1[k]; e.CalledCode? ==> c.target.ByCode? && Rebound(s.regs, c.target.data, e.regs)
  {
    hide Next, FitsWindow, Keeps, MirrorsStay, Rebound;
    RunPrefix(c, s, ops, k);
    RunKeeps(c, s, ops[..k]);
    RunMirrors(c, s, ops[..k]);
    StepMirrors(c, s.regs, Run(c, s, ops[..k]).0, ops[k]);
  }

  /** The arguments were read out: given to an interceptor or to reflection. */
  predicate TookArgs(e: Event) { e.Read? || e.Wrote? || e.IndexPanic? || e.CalledReflect? }

  predicate AnyTook(es: seq<Event>) { exists j :: 0 <= j < |es| && TookArgs(es[j]) }

  predicate AnyCode(es: seq<Event>) { exists j :: 0 <= j < |es| && es[j].CalledCode? }

  lemma StepTook(c: Call, s: Inv, op: Op)
    requires CallOk(c) && InvOk(c, s) && OpOk(op)
    ensures Next(c, s, op).0.args.Some? <==> s.args.Some? || TookArgs(Next(c, s, op).1)
    ensures Next(c, s, op).0.direct <==> s.direct || Next(c, s, op).1.CalledCode?
  {
    hide AllArgs, FitsWindow, ReadArgs, Readable;
  }

  lemma AnyLast(es: seq<Event>, e: Event)
    ensures AnyTook(es + [e]) <==> AnyTook(es) || TookArgs(e)
    ensures AnyCode(es + [e]) <==> AnyCode(es) || e.CalledCode?
  {
    var all := es + [e];
    forall j | 0 <= j < |es| ensures all[j] == es[j] {}
    assert all[|es|] == e;
    if AnyTook(es) { var j :| 0 <= j < |es| && TookArgs(es[j]); assert TookArgs(all[j]); }
    if AnyCode(es) { var j :| 0 <= j < |es| && es[j].CalledCode?; assert all[j].CalledCode?; }
  }

  /** The arguments have been taken iff some event took them, and results are in the
      registers iff the target's code was called. */
  lemma {:induction false} RunTook(c: Call, s: Inv, ops: seq<Op>)
    requires CallOk(c) && InvOk(c, s) && Fresh(s) && OpsOk(ops)
    ensures Run(c, s, ops).0.args.Some? <==> AnyTook(Run(c, s, ops).1)
    ensures Run(c, s, ops).0.direct <==> AnyCode(Run(c, s, ops).1)
  {
    hide Next, FitsWindow, AnyTook, AnyCode, TookArgs;
    if ops == [] {
      NoEvents();
    } else {
      var n := |ops| - 1;
      RunTook(c, s, ops[..n]);
      var before := Run(c, s, ops[..n]);
      StepTook(c, before.0, ops[n]);
      AnyLast(before.1, Next(c, before.0, ops[n]).1);
    }
  }

  lemma NoEvents()
    ensures !AnyTook([]) && !AnyCode([])
  {
  }

  /** In any run, a Proceed past the last interceptor reissues the call at the target's
      code iff there is such code, nothing travels on the stack and no event before took
      the arguments; without a target it gives zeros; else it goes through reflection, or
      panics when an argument cannot be read. */
  lemma TargetReachedIff(c: Call, s: Inv, ops: seq<Op>, k: nat)
    requires CallOk(c) && InvOk(c, s) && Fresh(s) && OpsOk(ops) && k < |ops|
    ensures var es := Run(c, s, ops).1;
            var last := ops[k].Proceed? && Ran(es[..k]) == c.links;
            var plain := c.target.ByCode? && c.layout.stackBytes == 0 && !AnyTook(es[..k]);
            && (es[k].CalledCode? <==> last && plain)
            && (es[k].GaveZeros? <==> last && c.target.NoTarget?)
            && (last && !plain && !c.target.NoTarget? ==> es[k].CalledReflect? || es[k].ReadPanic?)
            && (es[k].ReadPanic? ==> !Readable(c.env, s.regs, c.sig, c.layout))
  {
    hide Run, Ran, FitsWindow, AllArgs, AnyTook, ReadArgs, Readable;
    RunPrefix(c, s, ops, k);
    RanCounts(c, s, ops[..k]);
    RunTook(c, s, ops[..k]);
    RunKeeps(c, s, ops[..k]);
  }
}
