/** One intercepted call of a faulted interface, from the lookup to the effect. */
module ChaosIntercept {
  import opened Wrappers
  import opened ChaosSampler
  import ChaosBudget
  import opened ChaosActions
  import opened ChaosPlan

  /** The counters of a compiled rule and of one method of one binding. */
  class Counters {
    var budget: nat
    var seqNo: nat

    constructor ()
      ensures budget == 0 && seqNo == 0
    {
      budget, seqNo := 0, 0;
    }

    /** The call when no other thread is inside one, at the clock's `now`; `left` is the
        time the call's context has. */
    method Intercept(rule: Option<Compiled>, now: int, left: Option<nat>, errResult: bool) returns (effect: Effect, faulted: bool)
      requires rule.Some? ==> rule.value.rate.Finite? && rule.value.maxCount >= 0
      modifies this
      ensures faulted <==> Admits(rule, now, old(budget)) && Faulted(ChaosBudget.Ordinal(old(seqNo)), rule.value.rate.r)
      ensures seqNo == old(seqNo) + if Admits(rule, now, old(budget)) then 1 else 0
      ensures budget == old(budget) + if faulted && rule.value.maxCount > 0 then 1 else 0
      ensures effect == if faulted then Apply(rule.value.flat, left, errResult) else Effect(0, Proceeds)
    {
      hide Faulted, SampleOf;
      if rule.None? { return Effect(0, Proceeds), false; }
      var r := rule.value;
      if r.hasWindow && !Active(r, now) { return Effect(0, Proceeds), false; }
      if r.maxCount > 0 && budget >= r.maxCount { return Effect(0, Proceeds), false; }
      var k := ChaosBudget.Ordinal(seqNo);
      seqNo := seqNo + 1;
      var x := Sample(k);
      assert Faulted(k, r.rate.r) <==> x < r.rate.r by { FaultedIs(k, r.rate.r); }
      if x >= r.rate.r { return Effect(0, Proceeds), false; }
      if r.maxCount > 0 { budget := budget + 1; }
      faulted := true;
      var waited := 0;
      if r.flat.latency > 0 { waited := Wait(r.flat.latency, left); }
      if r.flat.panic.Some? { return Effect(waited, PanicsWith(r.flat.panic.value)), true; }
      if r.flat.err.Some? && errResult { return Effect(waited, Fails(r.flat.err.value)), true; }
      effect := Effect(waited, Proceeds);
    }
  }

  lemma FaultedIs(k: nat, rate: real)
    ensures Faulted(k, rate) <==> SampleOf(k) < rate
  {
  }

  /** The clock is in the rule's window. */
  predicate Active(r: Compiled, now: int) {
    if r.from.Some? && now < r.from.value then false
    else if r.until.Some? && now > r.until.value then false
    else true
  }

  /** The call gets as far as the sampling. */
  predicate Admits(rule: Option<Compiled>, now: int, budget: nat)
    ensures Admits(rule, now, budget) ==> rule.Some?
  {
    rule.Some? && (rule.value.hasWindow ==> Active(rule.value, now)) && (rule.value.maxCount > 0 ==> budget < rule.value.maxCount)
  }

  /** Run alone, the interceptor makes the steps of the shared machine at the counter
      of its method: an unfaulted call stops after the check or the draw, a faulted one
      is counted. */
  lemma AloneIsRun(c: Compiled, now: int, s: ChaosBudget.State, at: ChaosBudget.Counter) returns (moves: seq<ChaosBudget.Move>)
    requires c.rate.Finite? && c.maxCount >= 0 && s.pcs == [ChaosBudget.Idle]
    ensures ChaosBudget.MovesOk(moves, 1)
    ensures var r := ChaosBudget.Rule(c.maxCount, c.rate.r); var n := ChaosBudget.Run(r, s, moves);
            var was := ChaosBudget.SeqOf(s, at);
            var admitted := Admits(Some(c), now, s.budget);
            var faulted := admitted && Faulted(ChaosBudget.Ordinal(was), c.rate.r);
            && n.pcs == s.pcs
            && ChaosBudget.SeqOf(n, at) == was + (if admitted then 1 else 0)
            && n.faults == s.faults + (if faulted then 1 else 0)
            && n.budget == s.budget + (if faulted && c.maxCount > 0 then 1 else 0)
  {
    hide Faulted, ChaosBudget.Ordinal;
    var r := ChaosBudget.Rule(c.maxCount, c.rate.r);
    var m := ChaosBudget.Move(0, c.hasWindow ==> Active(c, now), at);
    var one := ChaosBudget.Step(r, s, m);
    assert ChaosBudget.Run(r, s, [m]) == one by { assert [m][..0] == []; }
    moves := [m];
    if Admits(Some(c), now, s.budget) {
      var two := ChaosBudget.Step(r, one, m);
      assert ChaosBudget.Run(r, s, [m, m]) == two by { assert [m, m][..1] == [m]; }
      moves := [m, m];
      if Faulted(ChaosBudget.Ordinal(ChaosBudget.SeqOf(s, at)), c.rate.r) {
        assert ChaosBudget.Run(r, s, [m, m, m]) == ChaosBudget.Step(r, two, m) by { assert [m, m, m][..2] == [m, m]; }
        moves := [m, m, m];
      }
    }
  }
}
