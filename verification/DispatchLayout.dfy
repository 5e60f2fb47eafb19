/** Dispatch's own signature under the layout rules: the index, one word more than there
    are integer registers, the floats and the address of the stack area. */
module DispatchLayout {
  import opened GoTypes
  import opened AbiAssign
  import opened AbiLayout

  const PARAMS: nat := INT_ARG_REGS + FLOAT_ARG_REGS + 2
  const RESULTS: nat := INT_ARG_REGS + FLOAT_ARG_REGS

  /** idx, a0 and on, f0 and on, stack. */
  function Param(i: nat): GoType {
    if i == 0 then SInt(8)
    else if i <= INT_ARG_REGS then UInt(8)
    else if i <= INT_ARG_REGS + FLOAT_ARG_REGS then Float(8)
    else Ptr
  }

  /** r0 and on, g0 and on. */
  function Result(i: nat): GoType { if i < INT_ARG_REGS then Ptr else Float(8) }

  function Params(): seq<GoType> { seq(PARAMS, i requires 0 <= i < PARAMS => Param(i)) }

  function Results(): seq<GoType> { seq(RESULTS, i requires 0 <= i < RESULTS => Result(i)) }

  lemma SignatureWf()
    ensures AllWf(Params()) && AllWf(Results())
  {
  }

  // ----- where its values travel -----

  function ParamHome(i: nat): Step {
    if i < INT_ARG_REGS then Step(StepIntReg, 0, 8, 0, i, 0)
    else if i == INT_ARG_REGS then Step(StepStack, 0, 8, 0, 0, 0)
    else if i <= INT_ARG_REGS + FLOAT_ARG_REGS then Step(StepFloatReg, 0, 8, 0, 0, i - INT_ARG_REGS - 1)
    else Step(StepStack, 0, 8, 8, 0, 0)
  }

  function ResultHome(i: nat): Step {
    if i < INT_ARG_REGS then Step(StepPointer, 0, 8, 0, i, 0) else Step(StepFloatReg, 0, 8, 0, 0, i - INT_ARG_REGS)
  }

  function AtMost(n: int, most: nat): nat { if n < 0 then 0 else if n < most then n else most }

  /** What the first `k` parameters take, and the first `k` results. */
  function ParamsTake(k: nat): Cursor {
    Cursor(AtMost(k, INT_ARG_REGS), AtMost(k - INT_ARG_REGS - 1, FLOAT_ARG_REGS),
           if k <= INT_ARG_REGS then 0 else if k < PARAMS then 8 else 16)
  }

  function ResultsTake(base: nat, k: nat): Cursor {
    Cursor(AtMost(k, INT_ARG_REGS), AtMost(k - INT_ARG_REGS, FLOAT_ARG_REGS), base)
  }

  lemma {:induction false} ParamsTaken(k: nat)
    requires k <= PARAMS
    ensures AllWf(Params()) && PlanAt(0, Params(), k).cur == ParamsTake(k)
  {
    hide Emit, Next;
    SignatureWf();
    if k != 0 {
      ParamsTaken(k - 1);
      ScalarPlace(ParamsTake(k - 1), Param(k - 1));
    }
  }

  lemma {:induction false} ResultsTaken(base: nat, k: nat)
    requires k <= RESULTS
    ensures AllWf(Results()) && PlanAt(base, Results(), k).cur == ResultsTake(base, k)
  {
    hide Emit, Next;
    SignatureWf();
    if k != 0 {
      ResultsTaken(base, k - 1);
      ScalarPlace(ResultsTake(base, k - 1), Result(k - 1));
    }
  }

  /** The layout rules give idx and all but the last of the words the integer registers,
      the floats the float registers, and the last word and the stack area's address the
      two words of stack. */
  lemma ParamAt(i: nat)
    requires i < PARAMS
    ensures AllWf(Params()) && PlanOk(PlanOf(0, Params())) && |PlanOf(0, Params()).valueStart| == PARAMS
    ensures StepsForValue(PlanOf(0, Params()), i) == [ParamHome(i)]
  {
    hide Emit, Next, StepsForValue, PlanAt;
    ParamsTaken(i);
    ScalarPlace(ParamsTake(i), Param(i));
    ValueSteps(0, Params(), PARAMS, i);
  }

  /** Every result is in the register of its number. */
  lemma ResultAt(base: nat, i: nat)
    requires i < RESULTS
    ensures AllWf(Results()) && PlanOk(PlanOf(base, Results())) && |PlanOf(base, Results()).valueStart| == RESULTS
    ensures StepsForValue(PlanOf(base, Results()), i) == [ResultHome(i)]
  {
    hide Emit, Next, StepsForValue, PlanAt;
    ResultsTaken(base, i);
    ScalarPlace(ResultsTake(base, i), Result(i));
    ValueSteps(base, Results(), RESULTS, i);
  }

  /** What a call of dispatch takes of its caller's frame: the words of its stack
      arguments and results, and a word to spill each register it is passed in. */
  function FrameNeeded(): nat {
    SignatureWf();
    var c := PlanOf(0, Params()).cur;
    PlanOf(c.stackBytes, Results()).cur.stackBytes + 8 * (c.iregs + c.fregs)
  }

  lemma FrameNeededIs()
    ensures FrameNeeded() == 16 + 8 * (INT_ARG_REGS + FLOAT_ARG_REGS)
  {
    hide Emit, Next, PlanAt;
    ParamsTaken(PARAMS);
    ResultsTaken(16, RESULTS);
  }
}
