/** The calling convention in the terms of its specification: which values go to the
    stack, and where. */
module AbiRules {
  import opened Bits
  import opened GoTypes
  import opened AbiAssign
  import opened AbiLayout
  import Coverage
  import opened TypePaths

  /** A value of some size is on the stack iff a path inside its type leads to an array of
      two or more elements, or its words do not fit the registers left. */
  lemma StackedIff(base: nat, ts: seq<GoType>, i: nat)
    requires AllWf(ts) && i < |ts| && Size(ts[i]) != 0
    ensures PlanOk(PlanOf(base, ts)) && i < |PlanOf(base, ts).valueStart|
    ensures var before := PlanAt(base, ts, i).steps; var need := Parts(ts[i], 0);
            OnStack(StepsForValue(PlanOf(base, ts), i)) <==>
              || (exists n: nat, e, off :: n >= 2 && Inside(ts[i], Array(n, e), off))
              || |IntAt(before)| + |WordAt(need, false)| > INT_ARG_REGS
              || |FloatAt(before)| + |WordAt(need, true)| > FLOAT_ARG_REGS
  {
    hide Inside, Assignable, PlanAt, PlanOf, StepsForValue, Parts, IntAt, FloatAt, WordAt;
    TakesRegistersIff(base, ts, i);
    AssignableIff(ts[i]);
    Counted(PlanAt(base, ts, i).steps);
    WordsCounted(Parts(ts[i], 0));
  }

  // ----- counting by position -----

  function IntAt(steps: seq<Step>): set<int> { set k | 0 <= k < |steps| && IsInt(steps[k]) }

  function FloatAt(steps: seq<Step>): set<int> { set k | 0 <= k < |steps| && steps[k].kind.StepFloatReg? }

  function WordAt(ps: seq<Part>, float: bool): set<int> { set k | 0 <= k < |ps| && ps[k].cls.CFloat? == float }

  /** Elements of a list that satisfy a condition, one more at the end. */
  lemma OneMore(a: set<int>, b: set<int>, n: nat, more: bool)
    requires a == (if more then b + {n} else b) && n !in b
    ensures |a| == |b| + if more then 1 else 0
  {
  }

  lemma IntAtSnoc(init: seq<Step>, last: Step)
    ensures IntAt(init + [last]) == if IsInt(last) then IntAt(init) + {|init|} else IntAt(init)
    ensures FloatAt(init + [last]) == if last.kind.StepFloatReg? then FloatAt(init) + {|init|} else FloatAt(init)
  {
    hide IsInt;
  }

  lemma {:induction false} Counted(steps: seq<Step>)
    ensures CountInts(steps) == |IntAt(steps)| && CountFloats(steps) == |FloatAt(steps)|
  {
    if steps != [] {
      var n := |steps| - 1;
      var init, last := steps[..n], steps[n];
      Counted(init);
      assert steps == init + [last];
      CountJoined(init, [last]);
      assert [last][1..] == [];
      IntAtSnoc(init, last);
      OneMore(IntAt(steps), IntAt(init), n, IsInt(last));
      OneMore(FloatAt(steps), FloatAt(init), n, last.kind.StepFloatReg?);
    }
  }

  lemma WordAtSnoc(init: seq<Part>, last: Part, float: bool)
    ensures WordAt(init + [last], float) == if last.cls.CFloat? == float then WordAt(init, float) + {|init|} else WordAt(init, float)
  {
  }

  lemma {:induction false} WordsCounted(ps: seq<Part>)
    ensures Ints(ps) == |WordAt(ps, false)| && Floats(ps) == |WordAt(ps, true)|
  {
    if ps != [] {
      var n := |ps| - 1;
      var init, last := ps[..n], ps[n];
      WordsCounted(init);
      assert ps == init + [last];
      CountAppend(init, [last]);
      assert [last][1..] == [];
      WordAtSnoc(init, last, false);
      WordAtSnoc(init, last, true);
      OneMore(WordAt(ps, false), WordAt(init, false), n, !last.cls.CFloat?);
      OneMore(WordAt(ps, true), WordAt(init, true), n, last.cls.CFloat?);
    }
  }

  // ----- the stack area has no needless gaps -----

  /** `x` is the least multiple of `a` that is at least `lo`. */
  ghost predicate LeastAligned(x: nat, lo: nat, a: nat) {
    Aligned(x, a) && lo <= x && forall y: nat :: lo <= y < x ==> !Aligned(y, a)
  }

  lemma AlignUpLeast(lo: nat, a: nat)
    requires IsAlign(a)
    ensures LeastAligned(AlignUp(lo, a), lo, a)
  {
  }

  /** A value in registers leaves the stack area alone, one of no size aligns it, and any
      other takes the least aligned address and as many bytes as it has. */
  lemma StackTaken(base: nat, ts: seq<GoType>, i: nat)
    requires AllWf(ts) && i < |ts|
    ensures PlanOk(PlanOf(base, ts)) && i < |PlanOf(base, ts).valueStart|
    ensures var steps := StepsForValue(PlanOf(base, ts), i);
            var was, now := PlanAt(base, ts, i).cur.stackBytes, PlanAt(base, ts, i + 1).cur.stackBytes;
            && (steps == [] <==> Size(ts[i]) == 0)
            && (Size(ts[i]) == 0 ==> LeastAligned(now, was, Align(ts[i])))
            && (Size(ts[i]) != 0 && !OnStack(steps) ==> now == was)
            && (OnStack(steps) ==> LeastAligned(steps[0].stkOff, was, Align(ts[i])) && steps[0].size == Size(ts[i])
                                   && now == steps[0].stkOff + Size(ts[i]))
  {
    hide Parts, Place, Ints, Floats, LeastAligned, StepsForValue;
    ValueSteps(base, ts, |ts|, i);
    var c := PlanAt(base, ts, i).cur;
    AlignIsAlign(ts[i]);
    AlignUpLeast(c.stackBytes, Align(ts[i]));
    if FitsRegs(c, ts[i]) {
      PlaceKinds(Parts(ts[i], 0), c.iregs, c.fregs);
      if Size(ts[i]) != 0 { PlacedSome(ts[i], c.iregs, c.fregs); }
    }
  }

  lemma PlacedSome(t: GoType, i: nat, f: nat)
    requires Wf(t) && Assignable(t) && 0 < Size(t)
    ensures Place(Parts(t, 0), i, f) != []
  {
    Coverage.FirstPart(t, 0);
  }

  /** The results start, and the area ends, at the next whole word. */
  lemma AreaTight(sig: Signature, l: Layout)
    requires IsLayout(sig, l)
    ensures LeastAligned(l.retOffset, PlanAt(0, CallTypes(sig), |sig.ins| + 1).cur.stackBytes, 8)
    ensures LeastAligned(l.stackBytes, PlanAt(l.retOffset, sig.outs, |sig.outs|).cur.stackBytes, 8)
  {
    hide PlanAt, GatherOk, MaskOk, SlotPtrs, LeastAligned;
    AlignUpLeast(l.call.cur.stackBytes, 8);
    AlignUpLeast(l.ret.cur.stackBytes, 8);
  }
}
