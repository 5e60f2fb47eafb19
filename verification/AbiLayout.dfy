/** The call frame of one method: which register or stack slot every argument and
    result travels in, and what the dispatcher derives from that. */
module AbiLayout {
  import opened Wrappers
  import opened Bits
  import opened GoTypes
  import opened AbiAssign
  import opened PointerWalk

  datatype Signature = Signature(ins: seq<GoType>, outs: seq<GoType>)

  ghost predicate AllWf(ts: seq<GoType>) {
    forall i :: 0 <= i < |ts| ==> Wf(ts[i])
  }

  ghost predicate SigWf(sig: Signature) {
    AllWf(sig.ins) && AllWf(sig.outs)
  }

  /** The plan after the first `k` of `ts`, whose stack slots start at `base`. */
  function PlanAt(base: nat, ts: seq<GoType>, k: nat): Plan
    requires AllWf(ts) && k <= |ts|
  {
    if k == 0 then Plan([], [], Cursor(0, 0, base))
    else AddValue(PlanAt(base, ts, k - 1), ts[k - 1])
  }

  function PlanOf(base: nat, ts: seq<GoType>): Plan
    requires AllWf(ts)
  {
    PlanAt(base, ts, |ts|)
  }

  // ----- each value's steps -----

  lemma {:induction false} PlanAtOk(base: nat, ts: seq<GoType>, k: nat)
    requires AllWf(ts) && k <= |ts|
    ensures PlanOk(PlanAt(base, ts, k)) && |PlanAt(base, ts, k).valueStart| == k
  {
    hide Emit, Next;
    if k != 0 { PlanAtOk(base, ts, k - 1); }
  }

  /** The value added last has the steps it emitted; earlier ones keep theirs. */
  lemma AddedSteps(p: Plan, t: GoType, i: nat)
    requires Wf(t) && PlanOk(p) && i <= |p.valueStart|
    ensures PlanOk(AddValue(p, t))
    ensures StepsForValue(AddValue(p, t), i) ==
            if i == |p.valueStart| then Emit(p.cur, t) else StepsForValue(p, i)
  {
    hide Emit, Next;
    var q := AddValue(p, t);
    if i == |p.valueStart| {
      assert q.steps[|p.steps|..] == Emit(p.cur, t);
    } else {
      var end := if i + 1 < |p.valueStart| then p.valueStart[i + 1] else |p.steps|;
      assert q.valueStart[i] == p.valueStart[i] && q.valueStart[i + 1] == end;
      assert q.steps[p.valueStart[i]..end] == p.steps[p.valueStart[i]..end];
    }
  }

  /** What stepsForValue returns for value `i` is what adding it emitted. */
  lemma {:induction false} ValueSteps(base: nat, ts: seq<GoType>, n: nat, i: nat)
    requires AllWf(ts) && i < n <= |ts|
    ensures PlanOk(PlanAt(base, ts, n)) && |PlanAt(base, ts, n).valueStart| == n
    ensures StepsForValue(PlanAt(base, ts, n), i) == Emit(PlanAt(base, ts, i).cur, ts[i])
    decreases n
  {
    hide Emit, Next, StepsForValue;
    PlanAtOk(base, ts, n);
    PlanAtOk(base, ts, n - 1);
    AddedSteps(PlanAt(base, ts, n - 1), ts[n - 1], i);
    if i < n - 1 { ValueSteps(base, ts, n - 1, i); }
  }

  // ----- soundness: nothing is used twice -----

  predicate IsInt(st: Step) { st.kind.StepIntReg? || st.kind.StepPointer? }

  /** Two steps that would use the same register or overlap on the stack. */
  predicate Clash(a: Step, b: Step) {
    || (IsInt(a) && IsInt(b) && a.ireg == b.ireg)
    || (a.kind.StepFloatReg? && b.kind.StepFloatReg? && a.freg == b.freg)
    || (a.kind.StepStack? && b.kind.StepStack? && a.stkOff < b.stkOff + b.size && b.stkOff < a.stkOff + a.size)
  }

  /** A step that uses only what lies between cursors `c` and `d`. */
  predicate Within(st: Step, c: Cursor, d: Cursor) {
    match st.kind
    case StepStack => c.stackBytes <= st.stkOff && st.stkOff + st.size <= d.stackBytes
    case StepFloatReg => c.fregs <= st.freg < d.fregs
    case _ => c.iregs <= st.ireg < d.iregs
  }

  /** Steps within limits, no two of which clash. */
  ghost predicate Sound(steps: seq<Step>, c: Cursor, d: Cursor) {
    && (forall x :: 0 <= x < |steps| ==> Within(steps[x], c, d))
    && (forall x, y :: 0 <= x < y < |steps| ==> !Clash(steps[x], steps[y]))
  }

  predicate Leq(c: Cursor, d: Cursor) {
    c.iregs <= d.iregs && c.fregs <= d.fregs && c.stackBytes <= d.stackBytes
  }

  lemma {:induction false} PlaceSound(ps: seq<Part>, i: nat, f: nat, sb: nat)
    ensures Sound(Place(ps, i, f), Cursor(i, f, sb), Cursor(i + Ints(ps), f + Floats(ps), sb))
  {
    if ps != [] {
      var float := ps[0].cls.CFloat?;
      PlaceSound(ps[1..], if float then i else i + 1, if float then f + 1 else f, sb);
      var rest := Place(ps[1..], if float then i else i + 1, if float then f + 1 else f);
      forall x, y | 0 <= x < y < |Place(ps, i, f)| ensures !Clash(Place(ps, i, f)[x], Place(ps, i, f)[y]) {
        assert Place(ps, i, f)[y] == rest[y - 1];
        if x != 0 { assert Place(ps, i, f)[x] == rest[x - 1]; }
      }
      forall x | 0 <= x < |Place(ps, i, f)|
        ensures Within(Place(ps, i, f)[x], Cursor(i, f, sb), Cursor(i + Ints(ps), f + Floats(ps), sb))
      {
        if x != 0 { assert Place(ps, i, f)[x] == rest[x - 1]; }
      }
    }
  }

  /** One value uses fresh registers, below the register counts, or one fresh
      aligned slot. */
  lemma EmitSound(c: Cursor, t: GoType)
    requires Wf(t)
    ensures Leq(c, Next(c, t)) && Sound(Emit(c, t), c, Next(c, t))
    ensures c.iregs <= INT_ARG_REGS && c.fregs <= FLOAT_ARG_REGS ==>
              Next(c, t).iregs <= INT_ARG_REGS && Next(c, t).fregs <= FLOAT_ARG_REGS
    ensures forall x :: 0 <= x < |Emit(c, t)| && Emit(c, t)[x].kind.StepStack? ==>
              |Emit(c, t)| == 1 && Aligned(Emit(c, t)[0].stkOff, Align(t)) && Emit(c, t)[0].size == Size(t)
  {
    hide Parts, Place, Ints, Floats;
    AlignIsAlign(t);
    PlaceSound(Parts(t, 0), c.iregs, c.fregs, c.stackBytes);
    PlaceKinds(Parts(t, 0), c.iregs, c.fregs);
  }

  lemma {:induction false} PlaceKinds(ps: seq<Part>, i: nat, f: nat)
    ensures forall x :: 0 <= x < |Place(ps, i, f)| ==> !Place(ps, i, f)[x].kind.StepStack?
  {
    if ps != [] { PlaceKinds(ps[1..], i, f + 1); PlaceKinds(ps[1..], i + 1, f); }
  }

  /** Whatever the values, no two steps of one direction share a register or
      overlap on the stack, registers stay below the counts, and slots lie
      between `base` and the bytes reserved. */
  lemma {:induction false} PlanSound(base: nat, ts: seq<GoType>, k: nat)
    requires AllWf(ts) && k <= |ts|
    ensures Sound(PlanAt(base, ts, k).steps, Cursor(0, 0, base), PlanAt(base, ts, k).cur)
    ensures PlanAt(base, ts, k).cur.iregs <= INT_ARG_REGS && PlanAt(base, ts, k).cur.fregs <= FLOAT_ARG_REGS
    ensures base <= PlanAt(base, ts, k).cur.stackBytes
  {
    hide Emit, Next;
    if k != 0 {
      PlanSound(base, ts, k - 1);
      var p := PlanAt(base, ts, k - 1);
      EmitSound(p.cur, ts[k - 1]);
      Joined(p.steps, Emit(p.cur, ts[k - 1]), Cursor(0, 0, base), p.cur, Next(p.cur, ts[k - 1]));
    }
  }

  lemma Joined(a: seq<Step>, b: seq<Step>, c: Cursor, d: Cursor, e: Cursor)
    requires Sound(a, c, d) && Sound(b, d, e) && Leq(c, d) && Leq(d, e)
    ensures Sound(a + b, c, e)
  {
    forall x, y | 0 <= x < y < |a + b| ensures !Clash((a + b)[x], (a + b)[y]) {
      if x < |a| <= y {
        assert Within(a[x], c, d) && Within(b[y - |a|], d, e);
      }
    }
  }

  lemma {:induction false} CursorGrows(base: nat, ts: seq<GoType>, j: nat, k: nat)
    requires AllWf(ts) && j <= k <= |ts|
    ensures Leq(PlanAt(base, ts, j).cur, PlanAt(base, ts, k).cur)
    decreases k
  {
    hide Emit, Next;
    if j < k {
      CursorGrows(base, ts, j, k - 1);
      EmitSound(PlanAt(base, ts, k - 1).cur, ts[k - 1]);
    }
  }

  // ----- which values take registers -----

  function CountInts(steps: seq<Step>): nat {
    if steps == [] then 0 else (if IsInt(steps[0]) then 1 else 0) + CountInts(steps[1..])
  }

  function CountFloats(steps: seq<Step>): nat {
    if steps == [] then 0 else (if steps[0].kind.StepFloatReg? then 1 else 0) + CountFloats(steps[1..])
  }

  lemma {:induction false} CountJoined(a: seq<Step>, b: seq<Step>)
    ensures CountInts(a + b) == CountInts(a) + CountInts(b)
    ensures CountFloats(a + b) == CountFloats(a) + CountFloats(b)
  {
    if a == [] {
      assert a + b == b;
    } else {
      assert (a + b)[1..] == a[1..] + b;
      CountJoined(a[1..], b);
    }
  }

  lemma {:induction false} CountPlaced(ps: seq<Part>, i: nat, f: nat)
    ensures CountInts(Place(ps, i, f)) == Ints(ps) && CountFloats(Place(ps, i, f)) == Floats(ps)
  {
    if ps != [] {
      var float := ps[0].cls.CFloat?;
      CountPlaced(ps[1..], if float then i else i + 1, if float then f + 1 else f);
      assert Place(ps, i, f)[1..] == Place(ps[1..], if float then i else i + 1, if float then f + 1 else f);
    }
  }

  lemma EmitCounts(c: Cursor, t: GoType)
    requires Wf(t)
    ensures Next(c, t).iregs == c.iregs + CountInts(Emit(c, t))
    ensures Next(c, t).fregs == c.fregs + CountFloats(Emit(c, t))
  {
    hide Parts, Place, Ints, Floats;
    CountPlaced(Parts(t, 0), c.iregs, c.fregs);
  }

  /** The registers the cursor says are taken are those the steps so far take. */
  lemma {:induction false} CursorCounts(base: nat, ts: seq<GoType>, k: nat)
    requires AllWf(ts) && k <= |ts|
    ensures PlanAt(base, ts, k).cur.iregs == CountInts(PlanAt(base, ts, k).steps)
    ensures PlanAt(base, ts, k).cur.fregs == CountFloats(PlanAt(base, ts, k).steps)
  {
    hide Emit, Next;
    if k != 0 {
      CursorCounts(base, ts, k - 1);
      var p := PlanAt(base, ts, k - 1);
      EmitCounts(p.cur, ts[k - 1]);
      CountJoined(p.steps, Emit(p.cur, ts[k - 1]));
    }
  }

  /** A value of some size is on the stack, as one whole slot. */
  predicate OnStack(steps: seq<Step>) {
    |steps| == 1 && steps[0].kind.StepStack?
  }

  /** A value takes registers iff its type may and everything it needs is left
      after the values before it, whether or not one of those went to the stack. */
  lemma TakesRegistersIff(base: nat, ts: seq<GoType>, i: nat)
    requires AllWf(ts) && i < |ts| && Size(ts[i]) != 0
    ensures PlanOk(PlanOf(base, ts)) && i < |PlanOf(base, ts).valueStart|
    ensures var before := PlanAt(base, ts, i).steps; var need := Parts(ts[i], 0);
            !OnStack(StepsForValue(PlanOf(base, ts), i)) <==>
              Assignable(ts[i])
              && CountInts(before) + Ints(need) <= INT_ARG_REGS
              && CountFloats(before) + Floats(need) <= FLOAT_ARG_REGS
  {
    hide Parts, Place, Ints, Floats, CountInts, CountFloats, PlanAt;
    ValueSteps(base, ts, |ts|, i);
    CursorCounts(base, ts, i);
    PlaceKinds(Parts(ts[i], 0), PlanAt(base, ts, i).cur.iregs, PlanAt(base, ts, i).cur.fregs);
  }

  /** A word-sized scalar takes one register of its class, or the next word of stack. */
  lemma ScalarPlace(c: Cursor, t: GoType)
    requires t in {SInt(8), UInt(8), Float(8), Ptr} && c.iregs <= INT_ARG_REGS && c.fregs <= FLOAT_ARG_REGS
    ensures Wf(t)
    ensures t.Float? && c.fregs < FLOAT_ARG_REGS ==>
              Emit(c, t) == [Step(StepFloatReg, 0, 8, 0, 0, c.fregs)] && Next(c, t) == c.(fregs := c.fregs + 1)
    ensures !t.Float? && c.iregs < INT_ARG_REGS ==>
              Emit(c, t) == [Step(if t.Ptr? then StepPointer else StepIntReg, 0, 8, 0, c.iregs, 0)]
              && Next(c, t) == c.(iregs := c.iregs + 1)
    ensures !t.Float? && c.iregs == INT_ARG_REGS && Aligned(c.stackBytes, 8) ==>
              Emit(c, t) == [Step(StepStack, 0, 8, c.stackBytes, 0, 0)]
              && Next(c, t) == c.(stackBytes := c.stackBytes + 8)
  {
    var ps := Parts(t, 0);
    assert |ps| == 1 && ps[1..] == [];
    assert Ints(ps[1..]) == 0 && Floats(ps[1..]) == 0;
    assert Place(ps[1..], c.iregs + 1, c.fregs) == [] && Place(ps[1..], c.iregs, c.fregs + 1) == [];
    assert Aligned(c.stackBytes, 8) ==> AlignUp(c.stackBytes, 8) == c.stackBytes;
  }

  /** So an argument on the stack does not keep the next one out of registers. */
  lemma SpillDoesNotStick(c: Cursor, t: GoType)
    requires Wf(t) && 0 < Size(t) && OnStack(Emit(c, t)) && c.iregs < INT_ARG_REGS && c.fregs <= FLOAT_ARG_REGS
    ensures !OnStack(Emit(Next(c, t), Ptr)) && |Emit(Next(c, t), Ptr)| == 1 && Emit(Next(c, t), Ptr)[0].ireg == c.iregs
  {
    assert !FitsRegs(c, t) by { PlaceKinds(Parts(t, 0), c.iregs, c.fregs); }
    hide Emit;
    assert Next(c, t).iregs == c.iregs && Next(c, t).fregs == c.fregs;
    ScalarPlace(Next(c, t), Ptr);
  }

  // ----- the layout -----

  datatype Layout = Layout(
    call: Plan,                  // receiver, then the arguments
    ret: Plan,                   // results
    stackCallArgsSize: nat,
    retOffset: nat,
    stackBytes: nat,
    argGather: seq<Option<nat>>, // None: in place, no assembly needed
    gatherBytes: nat,
    stackPtrOffs: seq<nat>,
    retStackPtrOffs: seq<nat>,
    ptrMask: nat)

  /** The values of the call direction: the receiver word comes first. */
  function CallTypes(sig: Signature): seq<GoType> {
    [Ptr] + sig.ins
  }

  /** The pointer offsets of the stack-assigned values among `ts[..n]`, whose
      steps start at value `first` of the plan. */
  function SlotPtrs(p: Plan, first: nat, ts: seq<GoType>, n: nat): seq<nat>
    requires PlanOk(p) && n <= |ts| && first + n <= |p.valueStart|
  {
    if n == 0 then []
    else
      var steps := StepsForValue(p, first + n - 1);
      SlotPtrs(p, first, ts, n - 1) + if OnStack(steps) then PtrList(ts[n - 1], steps[0].stkOff) else []
  }

  /** Argument `i` has to be assembled from several registers. */
  predicate Gathered(p: Plan, ts: seq<GoType>, i: nat)
    requires PlanOk(p) && i < |ts| && i + 1 < |p.valueStart|
  {
    |StepsForValue(p, i + 1)| > 1 && Size(ts[i]) > 0
  }

  /** Each gathered argument has a word-aligned region of its own in the buffer. */
  ghost predicate GatherOk(p: Plan, ts: seq<GoType>, gather: seq<Option<nat>>, bytes: nat)
    requires PlanOk(p) && |gather| <= |ts| < |p.valueStart|
  {
    && (forall i :: 0 <= i < |gather| ==> (gather[i].Some? <==> Gathered(p, ts, i)))
    && (forall i :: 0 <= i < |gather| && gather[i].Some? ==>
          Aligned(gather[i].value, 8) && gather[i].value + Size(ts[i]) <= bytes)
    && (forall i, j :: 0 <= i < j < |gather| && gather[i].Some? && gather[j].Some? ==>
          gather[i].value + Size(ts[i]) <= gather[j].value)
  }

  /** Bit r of the mask is set iff integer register r carries a pointer. */
  ghost predicate MaskOk(mask: nat, steps: seq<Step>) {
    && mask < Pow2(32)
    && forall r: nat :: Has(mask, r) <==> exists x :: 0 <= x < |steps| && steps[x].kind.StepPointer? && steps[x].ireg == r
  }

  ghost predicate IsLayout(sig: Signature, l: Layout) {
    && SigWf(sig)
    && l.call == PlanOf(0, CallTypes(sig))
    && l.stackCallArgsSize == l.call.cur.stackBytes
    && l.retOffset == AlignUp(l.stackCallArgsSize, 8)
    && l.ret == PlanOf(l.retOffset, sig.outs)
    && l.stackBytes == AlignUp(l.ret.cur.stackBytes, 8)
    && PlanOk(l.call) && |l.call.valueStart| == |sig.ins| + 1
    && PlanOk(l.ret) && |l.ret.valueStart| == |sig.outs|
    && l.stackPtrOffs == SlotPtrs(l.call, 1, sig.ins, |sig.ins|)
    && l.retStackPtrOffs == SlotPtrs(l.ret, 0, sig.outs, |sig.outs|)
    && |l.argGather| == |sig.ins| && GatherOk(l.call, sig.ins, l.argGather, l.gatherBytes)
    && MaskOk(l.ptrMask, l.call.steps)
  }

  // ----- where stack-assigned values lie -----

  /** A stack slot is aligned for its value, holds it whole, and lies between what
      the values before and the values after reserve. */
  lemma SlotPlace(base: nat, ts: seq<GoType>, i: nat)
    requires AllWf(ts) && i < |ts|
    ensures PlanOk(PlanOf(base, ts)) && |PlanOf(base, ts).valueStart| == |ts|
    ensures var steps := StepsForValue(PlanOf(base, ts), i);
            OnStack(steps) ==>
              && Aligned(steps[0].stkOff, Align(ts[i])) && steps[0].size == Size(ts[i])
              && PlanAt(base, ts, i).cur.stackBytes <= steps[0].stkOff
              && steps[0].stkOff + Size(ts[i]) <= PlanAt(base, ts, i + 1).cur.stackBytes
              && base <= steps[0].stkOff && steps[0].stkOff + Size(ts[i]) <= PlanOf(base, ts).cur.stackBytes
  {
    hide Emit, Next;
    ValueSteps(base, ts, |ts|, i);
    EmitSound(PlanAt(base, ts, i).cur, ts[i]);
    CursorGrows(base, ts, i + 1, |ts|);
    PlanSound(base, ts, i);
  }

  /** Slots of one direction are disjoint. */
  lemma SlotsApart(base: nat, ts: seq<GoType>, i: nat, j: nat)
    requires AllWf(ts) && i < j < |ts|
    ensures PlanOk(PlanOf(base, ts)) && |PlanOf(base, ts).valueStart| == |ts|
    ensures var a := StepsForValue(PlanOf(base, ts), i); var b := StepsForValue(PlanOf(base, ts), j);
            OnStack(a) && OnStack(b) ==> a[0].stkOff + a[0].size <= b[0].stkOff
  {
    hide Emit, Next, PlanAt, StepsForValue;
    SlotPlace(base, ts, i);
    SlotPlace(base, ts, j);
    CursorGrows(base, ts, i + 1, j);
  }

  lemma LayoutBounds(sig: Signature, l: Layout)
    requires IsLayout(sig, l)
    ensures l.stackCallArgsSize <= l.retOffset <= l.stackBytes
    ensures l.retOffset % 8 == 0 && l.stackBytes % 8 == 0
    ensures l.stackCallArgsSize == PlanOf(0, CallTypes(sig)).cur.stackBytes
    ensures PlanOf(l.retOffset, sig.outs).cur.stackBytes <= l.stackBytes
  {
    hide PlanAt, StepsForValue, GatherOk, MaskOk, SlotPtrs;
    PlanSound(l.retOffset, sig.outs, |sig.outs|);
  }

  /** Arguments lie below stackCallArgsSize and results between retOffset and
      stackBytes; registers and slots are never shared within a direction. */
  lemma LayoutSound(sig: Signature, l: Layout)
    requires IsLayout(sig, l)
    ensures Sound(l.call.steps, Cursor(0, 0, 0), Cursor(INT_ARG_REGS, FLOAT_ARG_REGS, l.stackCallArgsSize))
    ensures Sound(l.ret.steps, Cursor(0, 0, l.retOffset), Cursor(INT_ARG_REGS, FLOAT_ARG_REGS, l.stackBytes))
    ensures l.stackCallArgsSize <= l.retOffset <= l.stackBytes
    ensures l.retOffset % 8 == 0 && l.stackBytes % 8 == 0
    ensures forall i :: 0 <= i < |sig.ins| && OnStack(StepsForValue(l.call, i + 1)) ==>
              Aligned(StepsForValue(l.call, i + 1)[0].stkOff, Align(sig.ins[i]))
    ensures forall i :: 0 <= i < |sig.outs| && OnStack(StepsForValue(l.ret, i)) ==>
              Aligned(StepsForValue(l.ret, i)[0].stkOff, Align(sig.outs[i]))
  {
    hide Emit, Next, PlanAt, StepsForValue;
    PlanSound(0, CallTypes(sig), |sig.ins| + 1);
    PlanSound(l.retOffset, sig.outs, |sig.outs|);
    forall i | 0 <= i < |sig.ins| && OnStack(StepsForValue(l.call, i + 1))
      ensures Aligned(StepsForValue(l.call, i + 1)[0].stkOff, Align(sig.ins[i]))
    {
      SlotPlace(0, CallTypes(sig), i + 1);
    }
    forall i | 0 <= i < |sig.outs| && OnStack(StepsForValue(l.ret, i))
      ensures Aligned(StepsForValue(l.ret, i)[0].stkOff, Align(sig.outs[i]))
    {
      SlotPlace(l.retOffset, sig.outs, i);
    }
  }

  // ----- building it -----

  method NewABILayout(sig: Signature) returns (l: Layout)
    requires SigWf(sig)
    ensures IsLayout(sig, l)
  {
    var call := AssignCall(sig);
    var stackCallArgsSize := call.cur.stackBytes;
    var retOffset := AlignUp(stackCallArgsSize, 8);
    var ret := AssignResults(sig, retOffset);
    var stackBytes := AlignUp(ret.cur.stackBytes, 8);
    PlanAtOk(0, CallTypes(sig), |sig.ins| + 1);
    PlanAtOk(retOffset, sig.outs, |sig.outs|);
    PlanSound(0, CallTypes(sig), |sig.ins| + 1);
    var mask := PtrMask(call.steps);
    var argPtrs := StackPtrs(call, 1, sig.ins);
    var retPtrs := StackPtrs(ret, 0, sig.outs);
    var gather, bytes := Gather(call, sig.ins);
    l := Layout(call, ret, stackCallArgsSize, retOffset, stackBytes, gather, bytes, argPtrs, retPtrs, mask);
  }

  method AssignCall(sig: Signature) returns (p: Plan)
    requires SigWf(sig)
    ensures p == PlanOf(0, CallTypes(sig))
  {
    hide Emit, Next;
    var ts := CallTypes(sig);
    var s := new Seq();
    s.AddRcvr();
    PlanSound(0, ts, 1);
    assert PlanAt(0, ts, 1) == AddValue(PlanAt(0, ts, 0), Ptr);
    var i := 0;
    while i < |sig.ins|
      invariant 0 <= i <= |sig.ins| && s.State() == PlanAt(0, ts, i + 1)
      invariant s.iregs <= INT_ARG_REGS && s.fregs <= FLOAT_ARG_REGS
    {
      assert ts[i + 1] == sig.ins[i];
      var _ := s.AddArg(sig.ins[i]);
      i := i + 1;
    }
    p := Plan(s.steps, s.valueStart, Cursor(s.iregs, s.fregs, s.stackBytes));
  }

  /** Results never share stack space with arguments: theirs starts at `base`. */
  method AssignResults(sig: Signature, base: nat) returns (p: Plan)
    requires SigWf(sig)
    ensures p == PlanOf(base, sig.outs)
  {
    hide Emit, Next;
    var s := new Seq();
    s.stackBytes := base;
    var i := 0;
    while i < |sig.outs|
      invariant 0 <= i <= |sig.outs| && s.State() == PlanAt(base, sig.outs, i)
      invariant s.iregs <= INT_ARG_REGS && s.fregs <= FLOAT_ARG_REGS
    {
      var _ := s.AddArg(sig.outs[i]);
      i := i + 1;
    }
    p := Plan(s.steps, s.valueStart, Cursor(s.iregs, s.fregs, s.stackBytes));
  }

  method PtrMask(steps: seq<Step>) returns (mask: nat)
    requires forall x :: 0 <= x < |steps| && IsInt(steps[x]) ==> steps[x].ireg < INT_ARG_REGS
    ensures MaskOk(mask, steps)
  {
    mask := 0;
    forall r: nat ensures !Has(0, r) { NoBits(r); }
    Pow2Positive(32);
    var i := 0;
    while i < |steps|
      invariant 0 <= i <= |steps| && MaskOk(mask, steps[..i])
    {
      assert steps[..i + 1] == steps[..i] + [steps[i]];
      if steps[i].kind.StepPointer? {
        MaskStep(mask, steps[..i], steps[i]);
        mask := OrBit(mask, steps[i].ireg);
      } else {
        MaskSkip(mask, steps[..i], steps[i]);
      }
      i := i + 1;
    }
    assert steps[..i] == steps;
  }

  lemma MaskStep(mask: nat, steps: seq<Step>, st: Step)
    requires MaskOk(mask, steps) && st.kind.StepPointer? && st.ireg < 32
    ensures MaskOk(OrBit(mask, st.ireg), steps + [st])
  {
    OrBitWidth(mask, st.ireg, 32);
    var all := steps + [st];
    forall r: nat
      ensures Has(OrBit(mask, st.ireg), r) <==>
              exists x :: 0 <= x < |all| && all[x].kind.StepPointer? && all[x].ireg == r
    {
      OrBitHas(mask, st.ireg, r);
      assert all[|steps|] == st;
      if Has(mask, r) {
        var x :| 0 <= x < |steps| && steps[x].kind.StepPointer? && steps[x].ireg == r;
        assert all[x] == steps[x];
      }
    }
  }

  lemma MaskSkip(mask: nat, steps: seq<Step>, st: Step)
    requires MaskOk(mask, steps) && !st.kind.StepPointer?
    ensures MaskOk(mask, steps + [st])
  {
    var all := steps + [st];
    forall r: nat
      ensures Has(mask, r) <==> exists x :: 0 <= x < |all| && all[x].kind.StepPointer? && all[x].ireg == r
    {
      if Has(mask, r) {
        var x :| 0 <= x < |steps| && steps[x].kind.StepPointer? && steps[x].ireg == r;
        assert all[x] == steps[x];
      }
    }
  }

  method StackPtrs(p: Plan, first: nat, ts: seq<GoType>) returns (offs: seq<nat>)
    requires PlanOk(p) && first + |ts| == |p.valueStart|
    ensures offs == SlotPtrs(p, first, ts, |ts|)
  {
    offs := [];
    var i := 0;
    while i < |ts|
      invariant 0 <= i <= |ts| && offs == SlotPtrs(p, first, ts, i)
    {
      var steps := StepsForValue(p, first + i);
      if |steps| == 1 && steps[0].kind.StepStack? {
        offs := PtrOffsets(ts[i], steps[0].stkOff, offs);
      }
      i := i + 1;
    }
  }

  method Gather(p: Plan, ts: seq<GoType>) returns (gather: seq<Option<nat>>, bytes: nat)
    requires PlanOk(p) && |ts| + 1 == |p.valueStart|
    ensures |gather| == |ts| && GatherOk(p, ts, gather, bytes)
  {
    hide StepsForValue, Size;
    gather, bytes := [], 0;
    var i := 0;
    while i < |ts|
      invariant 0 <= i <= |ts| && |gather| == i && GatherOk(p, ts, gather, bytes)
    {
      if |StepsForValue(p, i + 1)| > 1 && Size(ts[i]) > 0 {
        bytes := AlignUp(bytes, 8);
        gather := gather + [Some(bytes)];
        bytes := bytes + Size(ts[i]);
      } else {
        gather := gather + [None];
      }
      i := i + 1;
    }
  }
}
