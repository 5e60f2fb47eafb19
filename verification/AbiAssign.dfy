/** Register assignment of Go's internal ABI ("Function call argument and result
    passing"): each value takes registers whole or one stack slot. The register counts
    are left open, so what follows from them holds on both architectures. */
module AbiAssign {
  import opened Wrappers
  import opened Bits
  import opened GoTypes

  type RegCount = n: nat | 9 <= n <= 16 witness 9

  const INT_ARG_REGS: RegCount     // 9 on amd64, 16 on arm64
  const FLOAT_ARG_REGS: RegCount   // 15 on amd64, 16 on arm64
  const PTR_SIZE := 8

  datatype StepKind = StepStack | StepIntReg | StepPointer | StepFloatReg

  /** One move of `size` bytes between offset `offset` of a value and a register
      or stack slot. */
  datatype Step = Step(kind: StepKind, offset: nat, size: nat, stkOff: nat, ireg: nat, freg: nat)

  // ----- what a type needs, independently of any register file -----

  /** The register-sized parts of a value: what each holds and where it lies. */
  datatype PartClass = CInt | CPtr | CFloat
  datatype Part = Part(cls: PartClass, offset: nat, size: nat)

  /** Only arrays of two or more elements keep a type out of registers. */
  predicate Assignable(t: GoType)
    decreases t
  {
    match t
    case Array(n, e) => n == 0 || (n == 1 && Assignable(e))
    case Struct(fs, _, _) => FieldsAssignable(fs)
    case _ => true
  }

  predicate FieldsAssignable(fs: Fields)
    decreases fs
  {
    fs.Field? ==> Assignable(fs.typ) && FieldsAssignable(fs.rest)
  }

  /** The parts of a value at offset `off`; meaningful for assignable types. */
  function Parts(t: GoType, off: nat): seq<Part>
    decreases t
  {
    match t
    case Ptr | Func => [Part(CPtr, off, 8)]
    case Bool => [Part(CInt, off, 1)]
    case SInt(w) => [Part(CInt, off, w)]
    case UInt(w) => [Part(CInt, off, w)]
    case Float(w) => [Part(CFloat, off, w)]
    case Complex(w) => [Part(CFloat, off, w / 2), Part(CFloat, off + w / 2, w / 2)]
    case Str => [Part(CPtr, off, 8), Part(CInt, off + 8, 8)]
    case Iface(_) => [Part(CInt, off, 8), Part(CPtr, off + 8, 8)]
    case Slice => [Part(CPtr, off, 8), Part(CInt, off + 8, 8), Part(CInt, off + 16, 8)]
    case Array(n, e) => if n == 0 then [] else Parts(e, off)
    case Struct(fs, _, _) => FieldParts(fs, off)
  }

  function FieldParts(fs: Fields, off: nat): seq<Part>
    decreases fs
  {
    match fs
    case NoFields => []
    case Field(o, t, rest) => Parts(t, off + o) + FieldParts(rest, off)
  }

  function Ints(ps: seq<Part>): nat {
    if ps == [] then 0 else (if ps[0].cls.CFloat? then 0 else 1) + Ints(ps[1..])
  }

  function Floats(ps: seq<Part>): nat {
    if ps == [] then 0 else (if ps[0].cls.CFloat? then 1 else 0) + Floats(ps[1..])
  }

  /** The parts in consecutive registers, integer ones from `i`, float ones from `f`. */
  function Place(ps: seq<Part>, i: nat, f: nat): seq<Step> {
    if ps == [] then []
    else if ps[0].cls.CFloat? then
      [Step(StepFloatReg, ps[0].offset, ps[0].size, 0, 0, f)] + Place(ps[1..], i, f + 1)
    else
      [Step(if ps[0].cls.CPtr? then StepPointer else StepIntReg, ps[0].offset, ps[0].size, 0, i, 0)]
      + Place(ps[1..], i + 1, f)
  }

  lemma {:induction false} CountAppend(a: seq<Part>, b: seq<Part>)
    ensures Ints(a + b) == Ints(a) + Ints(b) && Floats(a + b) == Floats(a) + Floats(b)
  {
    if a == [] {
      assert a + b == b;
    } else {
      assert (a + b)[1..] == a[1..] + b;
      CountAppend(a[1..], b);
    }
  }

  lemma {:induction false} PlaceAppend(a: seq<Part>, b: seq<Part>, i: nat, f: nat)
    ensures Place(a + b, i, f) == Place(a, i, f) + Place(b, i + Ints(a), f + Floats(a))
  {
    if a == [] {
      assert a + b == b;
    } else {
      assert (a + b)[1..] == a[1..] + b;
      if a[0].cls.CFloat? { PlaceAppend(a[1..], b, i, f + 1); } else { PlaceAppend(a[1..], b, i + 1, f); }
    }
  }

  /** Part `k` goes to the next register of its class: `Place` by index. */
  lemma {:induction false} PlaceAt(ps: seq<Part>, i: nat, f: nat, k: nat)
    requires k < |ps|
    ensures |Place(ps, i, f)| == |ps|
    ensures var st := Place(ps, i, f)[k]; var p := ps[k];
            st == if p.cls.CFloat? then Step(StepFloatReg, p.offset, p.size, 0, 0, f + Floats(ps[..k]))
                  else Step(if p.cls.CPtr? then StepPointer else StepIntReg, p.offset, p.size, 0, i + Ints(ps[..k]), 0)
  {
    if ps[1..] == [] {
      assert ps[..0] == [];
    } else if k == 0 {
      assert ps[..0] == [];
      PlaceAt(ps[1..], if ps[0].cls.CFloat? then i else i + 1, if ps[0].cls.CFloat? then f + 1 else f, 0);
    } else {
      assert ps[..k][1..] == ps[1..][..k - 1];
      PlaceAt(ps[1..], if ps[0].cls.CFloat? then i else i + 1, if ps[0].cls.CFloat? then f + 1 else f, k - 1);
    }
  }

  /** A value of one class only takes consecutive registers of that class. */
  lemma {:induction false} OneClass(ps: seq<Part>, k: nat, float: bool)
    requires k <= |ps| && forall j :: 0 <= j < |ps| ==> ps[j].cls.CFloat? == float
    ensures Ints(ps[..k]) == (if float then 0 else k) && Floats(ps[..k]) == (if float then k else 0)
  {
    if k != 0 {
      assert ps[..k][1..] == ps[1..][..k - 1];
      OneClass(ps[1..], k - 1, float);
    }
  }

  // ----- the state of an assignment -----

  /** How much of the register files and of the stack area is taken. */
  datatype Cursor = Cursor(iregs: nat, fregs: nat, stackBytes: nat)

  datatype Plan = Plan(steps: seq<Step>, valueStart: seq<nat>, cur: Cursor)

  predicate FitsRegs(c: Cursor, t: GoType) {
    && Assignable(t)
    && c.iregs + Ints(Parts(t, 0)) <= INT_ARG_REGS
    && c.fregs + Floats(Parts(t, 0)) <= FLOAT_ARG_REGS
  }

  /** The steps value `t` gets when the assignment stands at `c`. */
  function Emit(c: Cursor, t: GoType): seq<Step>
    requires Wf(t)
  {
    AlignIsAlign(t);
    if Size(t) == 0 then []
    else if FitsRegs(c, t) then Place(Parts(t, 0), c.iregs, c.fregs)
    else [Step(StepStack, 0, Size(t), AlignUp(c.stackBytes, Align(t)), 0, 0)]
  }

  function Next(c: Cursor, t: GoType): Cursor
    requires Wf(t)
  {
    AlignIsAlign(t);
    if Size(t) == 0 then c.(stackBytes := AlignUp(c.stackBytes, Align(t)))
    else if FitsRegs(c, t) then
      c.(iregs := c.iregs + Ints(Parts(t, 0)), fregs := c.fregs + Floats(Parts(t, 0)))
    else c.(stackBytes := AlignUp(c.stackBytes, Align(t)) + Size(t))
  }

  function AddValue(p: Plan, t: GoType): Plan
    requires Wf(t)
  {
    Plan(p.steps + Emit(p.cur, t), p.valueStart + [|p.steps|], Next(p.cur, t))
  }

  /** The steps of the i'th value. */
  function StepsForValue(p: Plan, i: nat): (r: seq<Step>)
    requires PlanOk(p) && i < |p.valueStart|
  {
    p.steps[p.valueStart[i]..if i + 1 < |p.valueStart| then p.valueStart[i + 1] else |p.steps|]
  }

  predicate PlanOk(p: Plan) {
    && (forall i :: 0 <= i < |p.valueStart| ==> p.valueStart[i] <= |p.steps|)
    && (forall i :: 0 <= i < |p.valueStart| - 1 ==> p.valueStart[i] <= p.valueStart[i + 1])
  }

  /** `n` consecutive integer registers from `reg`. */
  function IntSteps(offset: nat, size: nat, n: nat, ptrMap: nat, reg: nat): seq<Step> {
    seq(n, i requires 0 <= i < n =>
      Step(if Has(ptrMap, i) then StepPointer else StepIntReg, offset + i * size, size, 0, reg + i, 0))
  }

  /** `n` consecutive float registers from `reg`. */
  function FloatSteps(offset: nat, size: nat, n: nat, reg: nat): seq<Step> {
    seq(n, i requires 0 <= i < n => Step(StepFloatReg, offset + i * size, size, 0, 0, reg + i))
  }

  // ----- the assignment as it runs -----

  class Seq {
    var steps: seq<Step>
    var valueStart: seq<nat>
    var stackBytes: nat
    var iregs: nat
    var fregs: nat

    constructor ()
      ensures State() == Plan([], [], Cursor(0, 0, 0))
    {
      steps, valueStart, stackBytes, iregs, fregs := [], [], 0, 0, 0;
    }

    ghost function State(): Plan
      reads this
    {
      Plan(steps, valueStart, Cursor(iregs, fregs, stackBytes))
    }

    /** Reserves `n` integer registers, each `size` bytes wide; bit i of `ptrMap`
        marks the i'th as a pointer. All or nothing. More than eight at a time, or
        pointers that are no words, panic. */
    method AssignIntN(offset: nat, size: nat, n: nat, ptrMap: nat) returns (r: Outcome<bool>)
      modifies `steps, `iregs
      ensures r.Panics? <==> n > 8 || (ptrMap != 0 && size != PTR_SIZE)
      ensures r.Done? ==> (r.value <==> old(iregs) + n <= INT_ARG_REGS)
      ensures r != Done(true) ==> State() == old(State())
      ensures r == Done(true) ==> iregs == old(iregs) + n
      ensures r == Done(true) ==> steps == old(steps) + IntSteps(offset, size, n, ptrMap, old(iregs))
    {
      if n > 8 { return Panics; }
      if ptrMap != 0 && size != PTR_SIZE { return Panics; }
      if iregs + n > INT_ARG_REGS { return Done(false); }
      var i := 0;
      while i < n
        invariant 0 <= i <= n && iregs == old(iregs) + i
        invariant steps == old(steps) + IntSteps(offset, size, i, ptrMap, old(iregs))
      {
        var kind := if Has(ptrMap, i) then StepPointer else StepIntReg;
        steps := steps + [Step(kind, offset + i * size, size, 0, iregs, 0)];
        iregs := iregs + 1;
        i := i + 1;
      }
      return Done(true);
    }

    /** Reserves `n` float registers. */
    method AssignFloatN(offset: nat, size: nat, n: nat) returns (ok: bool)
      modifies `steps, `fregs
      ensures ok <==> old(fregs) + n <= FLOAT_ARG_REGS && size <= 8
      ensures !ok ==> State() == old(State())
      ensures ok ==> fregs == old(fregs) + n
      ensures ok ==> steps == old(steps) + FloatSteps(offset, size, n, old(fregs))
    {
      if fregs + n > FLOAT_ARG_REGS || 8 < size { return false; }
      var i := 0;
      while i < n
        invariant 0 <= i <= n && fregs == old(fregs) + i
        invariant steps == old(steps) + FloatSteps(offset, size, i, old(fregs))
      {
        steps := steps + [Step(StepFloatReg, offset + i * size, size, 0, 0, fregs)];
        fregs := fregs + 1;
        i := i + 1;
      }
      return true;
    }

    /** The state after the parts `ps` took their registers in state `p`. */
    static ghost predicate Took(p: Plan, q: Plan, ps: seq<Part>) {
      && q.steps == p.steps + Place(ps, p.cur.iregs, p.cur.fregs)
      && q.cur.iregs == p.cur.iregs + Ints(ps)
      && q.cur.fregs == p.cur.fregs + Floats(ps)
    }

    static ghost predicate Room(c: Cursor, ps: seq<Part>) {
      c.iregs + Ints(ps) <= INT_ARG_REGS && c.fregs + Floats(ps) <= FLOAT_ARG_REGS
    }

    static lemma TookTwice(p: Plan, q: Plan, r: Plan, a: seq<Part>, b: seq<Part>)
      requires Took(p, q, a) && Took(q, r, b)
      ensures Took(p, r, a + b)
    {
      PlaceAppend(a, b, p.cur.iregs, p.cur.fregs);
      CountAppend(a, b);
    }

    static lemma TookNothing(p: Plan)
      ensures Took(p, p, [])
    {
    }

    static lemma NextField(p: Plan, q: Plan, done: seq<Part>, here: seq<Part>, later: seq<Part>)
      requires Took(p, q, done)
      ensures done + (here + later) == (done + here) + later
      ensures Room(p.cur, done + (here + later)) ==> Room(q.cur, here)
    {
      CountAppend(done, here + later);
      CountAppend(here, later);
    }

    static lemma TookRoom(p: Plan, q: Plan, ps: seq<Part>)
      requires Took(p, q, ps) && q.cur.iregs <= INT_ARG_REGS && q.cur.fregs <= FLOAT_ARG_REGS
      ensures Room(p.cur, ps)
    {
    }

    /** What the two loops above leave is what `Place` says of parts of one class. */
    static lemma TookOneClass(p: Plan, q: Plan, ps: seq<Part>, added: seq<Step>, float: bool)
      requires forall j :: 0 <= j < |ps| ==> ps[j].cls.CFloat? == float
      requires q.steps == p.steps + added && |added| == |ps|
      requires forall j :: 0 <= j < |ps| ==>
        added[j] == if float then Step(StepFloatReg, ps[j].offset, ps[j].size, 0, 0, p.cur.fregs + j)
                    else Step(if ps[j].cls.CPtr? then StepPointer else StepIntReg,
                              ps[j].offset, ps[j].size, 0, p.cur.iregs + j, 0)
      requires q.cur.iregs == p.cur.iregs + if float then 0 else |ps|
      requires q.cur.fregs == p.cur.fregs + if float then |ps| else 0
      ensures Took(p, q, ps)
    {
      var placed := Place(ps, p.cur.iregs, p.cur.fregs);
      if ps != [] { PlaceAt(ps, p.cur.iregs, p.cur.fregs, 0); }
      forall j | 0 <= j < |ps| ensures added[j] == placed[j] {
        PlaceAt(ps, p.cur.iregs, p.cur.fregs, j);
        OneClass(ps, j, float);
      }
      assert added == placed;
      RoomOneClass(p.cur, ps, float);
    }

    static lemma RoomOneClass(c: Cursor, ps: seq<Part>, float: bool)
      requires forall j :: 0 <= j < |ps| ==> ps[j].cls.CFloat? == float
      ensures Ints(ps) == (if float then 0 else |ps|) && Floats(ps) == (if float then |ps| else 0)
    {
      assert ps[..|ps|] == ps;
      OneClass(ps, |ps|, float);
    }

    /** Walks the type, taking registers as it goes; on failure whatever the walk
        took so far stays, for the caller to roll back. */
    method RegAssign(t: GoType, offset: nat) returns (ok: bool)
      requires Wf(t)
      requires iregs <= INT_ARG_REGS && fregs <= FLOAT_ARG_REGS
      modifies `steps, `iregs, `fregs
      ensures iregs <= INT_ARG_REGS && fregs <= FLOAT_ARG_REGS
      ensures ok <==> Assignable(t) && Room(old(State()).cur, Parts(t, offset))
      ensures ok ==> Took(old(State()), State(), Parts(t, offset))
      decreases t
    {
      match t
      case Array(n, e) =>
        if n == 0 {
          ok := true;
        } else if n == 1 {
          ok := RegAssign(e, offset);
        } else {
          ok := false;
        }
      case Struct(fs, s, a) =>
        ok := AssignFields(fs, offset, 0, s, a);
      case _ =>
        ok := AssignBasic(t, offset);
    }

    /** The pointer maps 0b1, 0b01, 0b10 and 0b001 mark these words. */
    static lemma PtrMaps()
      ensures Has(1, 0) && !Has(1, 1) && !Has(1, 2) && !Has(2, 0) && Has(2, 1) && !Has(0, 0) && !Has(0, 1)
    {
    }

    /** `n` integer parts of one size in a row, those in `ptrMap` pointers. */
    static ghost predicate IntParts(ps: seq<Part>, offset: nat, size: nat, n: nat, ptrMap: nat) {
      |ps| == n && forall j :: 0 <= j < n ==> ps[j] == Part(if Has(ptrMap, j) then CPtr else CInt, offset + j * size, size)
    }

    static lemma WordParts(t: GoType, offset: nat)
      ensures t.Ptr? || t.Func? ==> IntParts(Parts(t, offset), offset, PTR_SIZE, 1, 1)
      ensures t.Str? ==> IntParts(Parts(t, offset), offset, PTR_SIZE, 2, 1)
      ensures t.Iface? ==> IntParts(Parts(t, offset), offset, PTR_SIZE, 2, 2)
      ensures t.Slice? ==> IntParts(Parts(t, offset), offset, PTR_SIZE, 3, 1)
    {
      PtrMaps();
      hide Has;
    }

    static lemma ScalarParts(t: GoType, offset: nat)
      ensures t.Bool? ==> IntParts(Parts(t, offset), offset, 1, 1, 0)
      ensures t.SInt? ==> IntParts(Parts(t, offset), offset, t.width, 1, 0)
      ensures t.UInt? ==> IntParts(Parts(t, offset), offset, t.width, 1, 0)
    {
      PtrMaps();
      hide Has;
    }

    /** `n` registers for such parts. */
    method TakeInts(offset: nat, size: nat, n: nat, ptrMap: nat, ghost ps: seq<Part>) returns (ok: bool)
      requires IntParts(ps, offset, size, n, ptrMap) && n <= 8 && (ptrMap != 0 ==> size == PTR_SIZE)
      requires iregs <= INT_ARG_REGS && fregs <= FLOAT_ARG_REGS
      modifies `steps, `iregs
      ensures iregs <= INT_ARG_REGS
      ensures ok <==> Room(old(State()).cur, ps)
      ensures ok ==> Took(old(State()), State(), ps)
    {
      hide Has;
      RoomOneClass(State().cur, ps, false);
      var r := AssignIntN(offset, size, n, ptrMap);
      ok := r.value;
      if ok { TookOneClass(old(State()), State(), ps, steps[|old(steps)|..], false); }
    }

    /** The kinds that take float registers. */
    method AssignFloats(t: GoType, offset: nat) returns (ok: bool)
      requires Wf(t) && (t.Float? || t.Complex?)
      requires iregs <= INT_ARG_REGS && fregs <= FLOAT_ARG_REGS
      modifies `steps, `fregs
      ensures fregs <= FLOAT_ARG_REGS
      ensures ok <==> Room(old(State()).cur, Parts(t, offset))
      ensures ok ==> Took(old(State()), State(), Parts(t, offset))
    {
      ghost var ps := Parts(t, offset);
      RoomOneClass(State().cur, ps, true);
      if t.Float? {
        ok := AssignFloatN(offset, t.width, 1);
      } else {
        ok := AssignFloatN(offset, t.width / 2, 2);
      }
      if ok { TookOneClass(old(State()), State(), ps, steps[|old(steps)|..], true); }
    }

    /** The kinds that take registers of one class. */
    method AssignBasic(t: GoType, offset: nat) returns (ok: bool)
      requires Wf(t) && !t.Array? && !t.Struct?
      requires iregs <= INT_ARG_REGS && fregs <= FLOAT_ARG_REGS
      modifies `steps, `iregs, `fregs
      ensures iregs <= INT_ARG_REGS && fregs <= FLOAT_ARG_REGS
      ensures ok <==> Room(old(State()).cur, Parts(t, offset))
      ensures ok ==> Took(old(State()), State(), Parts(t, offset))
    {
      ghost var ps := Parts(t, offset);
      WordParts(t, offset);
      ScalarParts(t, offset);
      hide IntParts, Parts, Room, Took, Has;
      match t {
        case Ptr | Func => ok := TakeInts(offset, PTR_SIZE, 1, 1, ps);
        case Bool => ok := TakeInts(offset, 1, 1, 0, ps);
        case SInt(w) => ok := TakeInts(offset, w, 1, 0, ps);
        case UInt(w) => ok := TakeInts(offset, w, 1, 0, ps);
        case Float(_) | Complex(_) => ok := AssignFloats(t, offset);
        case Str => ok := TakeInts(offset, PTR_SIZE, 2, 1, ps);
        case Iface(_) => ok := TakeInts(offset, PTR_SIZE, 2, 2, ps);
        case Slice => ok := TakeInts(offset, PTR_SIZE, 3, 1, ps);
      }
    }

    method AssignFields(fs: Fields, offset: nat, ghost lo: nat, ghost s: nat, ghost a: nat) returns (ok: bool)
      requires FieldsWf(fs, lo, s, a)
      requires iregs <= INT_ARG_REGS && fregs <= FLOAT_ARG_REGS
      modifies `steps, `iregs, `fregs
      ensures iregs <= INT_ARG_REGS && fregs <= FLOAT_ARG_REGS
      ensures ok <==> FieldsAssignable(fs) && Room(old(State()).cur, FieldParts(fs, offset))
      ensures ok ==> Took(old(State()), State(), FieldParts(fs, offset))
      decreases fs
    {
      hide Parts, Place, Ints, Floats, Took, Room, Size, Align, Assignable;
      ghost var done: seq<Part> := [];
      TookNothing(State());
      ghost var low: nat := lo;
      var rest := fs;
      while rest.Field?
        invariant FieldsWf(rest, low, s, a)
        invariant iregs <= INT_ARG_REGS && fregs <= FLOAT_ARG_REGS
        invariant Took(old(State()), State(), done)
        invariant done + FieldParts(rest, offset) == FieldParts(fs, offset)
        invariant FieldsAssignable(fs) <==> FieldsAssignable(rest)
        invariant rest == fs || rest < fs
        decreases rest
      {
        ghost var here := Parts(rest.typ, offset + rest.offset);
        ghost var before := State();
        NextField(old(State()), before, done, here, FieldParts(rest.rest, offset));
        var one := RegAssign(rest.typ, offset + rest.offset);
        if !one { return false; }
        TookTwice(old(State()), before, State(), done, here);
        done := done + here;
        low := rest.offset + Size(rest.typ);
        rest := rest.rest;
      }
      assert done == FieldParts(fs, offset);
      TookRoom(old(State()), State(), done);
      return true;
    }

    /** Places one value in the stack argument area. */
    method StackAssign(size: nat, alignment: nat)
      requires IsAlign(alignment)
      modifies `steps, `stackBytes
      ensures steps == old(steps) + [Step(StepStack, 0, size, AlignUp(old(stackBytes), alignment), 0, 0)]
      ensures stackBytes == AlignUp(old(stackBytes), alignment) + size
    {
      stackBytes := AlignUp(stackBytes, alignment);
      steps := steps + [Step(StepStack, 0, size, stackBytes, 0, 0)];
      stackBytes := stackBytes + size;
    }

    /** The receiver is one pointer word, in the first integer register. */
    method AddRcvr()
      requires iregs <= INT_ARG_REGS && fregs <= FLOAT_ARG_REGS
      modifies this
      ensures State() == AddValue(old(State()), Ptr)
    {
      valueStart := valueStart + [|steps|];
      var r := AssignIntN(0, PTR_SIZE, 1, 1);
      assert Place([Part(CPtr, 0, 8)], old(iregs), old(fregs))
          == [Step(StepPointer, 0, 8, 0, old(iregs), 0)];
      if !r.value { StackAssign(PTR_SIZE, PTR_SIZE); }
    }

    /** A register assignment that rolls back when it fails. */
    method TryRegs(t: GoType) returns (ok: bool)
      requires Wf(t)
      requires iregs <= INT_ARG_REGS && fregs <= FLOAT_ARG_REGS
      modifies `steps, `iregs, `fregs
      ensures ok <==> FitsRegs(old(State()).cur, t)
      ensures !ok ==> State() == old(State())
      ensures ok ==> Took(old(State()), State(), Parts(t, 0))
    {
      var s, i, f := steps, iregs, fregs;
      ok := RegAssign(t, 0);
      if !ok { steps, iregs, fregs := s, i, f; }
    }

    /** Adds one value: in registers if its type may go there and all it needs is
        left, else whole on the stack, the failed attempt leaving no trace. The
        step returned is the value's stack slot, if it has one. */
    method AddArg(t: GoType) returns (slot: Option<Step>)
      requires Wf(t)
      requires iregs <= INT_ARG_REGS && fregs <= FLOAT_ARG_REGS
      modifies this
      ensures State() == AddValue(old(State()), t)
      ensures iregs <= INT_ARG_REGS && fregs <= FLOAT_ARG_REGS
      ensures slot == if Size(t) == 0 || FitsRegs(old(State()).cur, t) then None else Some(steps[|steps| - 1])
    {
      AlignIsAlign(t);
      ghost var before := State();
      valueStart := valueStart + [|steps|];
      if Size(t) == 0 {
        stackBytes := AlignUp(stackBytes, Align(t));
        return None;
      }
      var ok := TryRegs(t);
      if !ok {
        StackAssign(Size(t), Align(t));
        ValueOnStack(before, State(), t);
        return Some(steps[|steps| - 1]);
      }
      ValueInRegs(before, State(), t);
      return None;
    }

    static lemma ValueOnStack(p: Plan, q: Plan, t: GoType)
      requires Wf(t) && Size(t) != 0 && !FitsRegs(p.cur, t) && IsAlign(Align(t))
      requires q == Plan(p.steps + [Step(StepStack, 0, Size(t), AlignUp(p.cur.stackBytes, Align(t)), 0, 0)],
                         p.valueStart + [|p.steps|],
                         p.cur.(stackBytes := AlignUp(p.cur.stackBytes, Align(t)) + Size(t)))
      ensures q == AddValue(p, t)
    {
    }

    static lemma ValueInRegs(p: Plan, q: Plan, t: GoType)
      requires Wf(t) && Size(t) != 0 && FitsRegs(p.cur, t)
      requires Took(p, q, Parts(t, 0))
      requires q.valueStart == p.valueStart + [|p.steps|] && q.cur.stackBytes == p.cur.stackBytes
      ensures q == AddValue(p, t)
    {
    }
  }
}
