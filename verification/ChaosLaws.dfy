/** What accepting a rule set means for the calls it faults. */
module ChaosLaws {
  import opened Wrappers
  import opened ChaosRules
  import opened ChaosActions
  import opened ChaosPlan
  import opened ChaosIntercept
  import opened ChaosInjector
  import opened ChaosSampler
  import ChaosBudget

  // ----- one action -----

  predicate Unset(p: PanicValue) { p == NoPanic || p == Text("") }

  /** An action is fine iff it is a delay, an error or a panic and nothing besides. */
  lemma ActionOkIff(a: Action)
    ensures ActionOk(a) <==> || (a.latency > 0 && a.err.None? && Unset(a.panic))
                             || (a.latency == 0 && a.err.Some? && Unset(a.panic))
                             || (a.latency == 0 && a.err.None? && !Unset(a.panic))
  {
  }

  // ----- the order of the actions -----

  /** Some other action in place `k` would show, on a method with an error result. */
  ghost predicate Matters(actions: seq<Action>, k: nat)
    requires k < |actions|
  {
    exists b: Action, left: Option<nat> :: ActionOk(b) && Shows(actions, k, b, left, true)
  }

  predicate Shows(actions: seq<Action>, k: nat, b: Action, left: Option<nat>, errResult: bool)
    requires k < |actions|
  {
    OneByOne(actions[k := b], left, errResult) != OneByOne(actions, left, errResult)
  }

  /** What comes after the action that decides the call never runs, whatever it is. */
  lemma {:induction false} NeverRuns(actions: seq<Action>, i: nat, k: nat, b: Action, left: Option<nat>, errResult: bool)
    requires i < k < |actions| && (forall j :: 0 <= j <= i ==> ActionOk(actions[j])) && actions[i].latency == 0
    requires forall j :: 0 <= j <= i ==> errResult || actions[j].err.None?
    ensures !Shows(actions, k, b, left, errResult)
    decreases i
  {
    var other := actions[k := b];
    var a := actions[0];
    assert ActionOk(a) && other[0] == a;
    if i != 0 && a.latency > 0 {
      assert other[1..] == actions[1..][k - 1 := b];
      NeverRuns(actions[1..], i - 1, k - 1, b, Left(left, Wait(a.latency, left)), errResult);
    } else if i == 0 {
      assert a.latency == 0;
    }
  }

  /** A longer delay in place `k`, after delays alone, is waited for. */
  lemma LongerDelay(actions: seq<Action>, k: nat)
    requires k < |actions| && forall j :: 0 <= j <= k ==> actions[j].latency > 0
    ensures Shows(actions, k, Action(actions[k].latency + 1, None, NoPanic), None, true)
  {
    hide OneByOne, Total;
    var b := Action(actions[k].latency + 1, None, NoPanic);
    var other := actions[k := b];
    Delays(actions, k + 1, None, true);
    Delays(other, k + 1, None, true);
    assert other[k + 1..] == actions[k + 1..];
    assert actions[..k + 1][..k] == actions[..k] == other[..k + 1][..k];
    LastIs(actions[..k + 1]);
    LastIs(other[..k + 1]);
  }

  /** A different ending in the last place shows. */
  lemma OtherEnding(actions: seq<Action>)
    requires actions != [] && (forall j :: 0 <= j < |actions| - 1 ==> actions[j].latency > 0)
    requires ActionOk(actions[|actions| - 1]) && actions[|actions| - 1].latency == 0
    ensures Matters(actions, |actions| - 1)
  {
    hide Total;
    var k := |actions| - 1;
    var a := actions[k];
    var b := Action(0, None, if a.panic.Other? then Other(a.panic.v + 1) else Other(0));
    var other := actions[k := b];
    Delays(actions, k, None, true);
    Delays(other, k, None, true);
    assert actions[..k] == other[..k] && actions[k..] == [a] && other[k..] == [b];
    var w := Wait(Total(actions[..k]), None);
    Endings(a, b, Left(None, w));
    assert Shows(actions, k, b, None, true);
  }

  lemma Endings(a: Action, b: Action, left: Option<nat>)
    requires ActionOk(a) && a.latency == 0 && b.latency == 0 && AsksPanic(b) && b.panic != a.panic
    ensures OneByOne([a], left, true).ending != OneByOne([b], left, true).ending
  {
    assert [a][1..] == [] && [b][1..] == [];
  }

  /** The order the validation asks for, delays and then what decides the call, is the
      one in which every action counts. */
  lemma OrderOkIff(actions: seq<Action>)
    requires forall i :: 0 <= i < |actions| ==> ActionOk(actions[i])
    ensures (forall i :: 0 <= i < |actions| - 1 ==> actions[i].latency > 0) <==> forall k :: 0 <= k < |actions| ==> Matters(actions, k)
  {
    hide OneByOne, ActionOk, Shows;
    if i :| 0 <= i < |actions| - 1 && !(actions[i].latency > 0) {
      var k := |actions| - 1;
      assert ActionOk(actions[i]);
      NotNegative(actions[i]);
      forall b: Action, left: Option<nat> | ActionOk(b) ensures !Shows(actions, k, b, left, true) { NeverRuns(actions, i, k, b, left, true); }
      assert !Matters(actions, k);
    } else {
      forall k | 0 <= k < |actions| ensures Matters(actions, k) {
        NotNegative(actions[k]);
        if actions[k].latency > 0 {
          LongerDelay(actions, k);
          DelayOk(actions[k].latency + 1);
        } else {
          OtherEnding(actions);
        }
      }
    }
  }

  lemma NotNegative(a: Action)
    requires ActionOk(a)
    ensures a.latency >= 0
  {
  }

  lemma DelayOk(d: int)
    requires d > 0
    ensures ActionOk(Action(d, None, NoPanic))
  {
  }

  /** A rule rejected at action `i` for its order: nothing from `i` on could ever run, on
      a method with an error result, nor after a panic on any. */
  lemma RejectedNeverRuns(actions: seq<Action>, i: nat)
    requires FineUpTo(actions, i) && 0 < i && actions[i - 1].latency == 0
    ensures forall k, b: Action, left: Option<nat>, errResult: bool ::
              i <= k < |actions| && (errResult || AsksPanic(actions[i - 1])) ==> !Shows(actions, k, b, left, errResult)
  {
    hide OneByOne, Shows;
    forall k, b: Action, left: Option<nat>, errResult: bool | i <= k < |actions| && (errResult || AsksPanic(actions[i - 1]))
      ensures !Shows(actions, k, b, left, errResult)
    {
      forall j | 0 <= j <= i - 1 ensures ActionOk(actions[j]) && (errResult || actions[j].err.None?) { assert ActionOk(actions[j]); }
      NeverRuns(actions, i - 1, k, b, left, errResult);
    }
  }

  // ----- who owns a call -----

  /** Rule `r` is for a type and a method of these names. */
  predicate Names(r: Rule, iface: string, meth: string) {
    (r.iface == "" || r.iface == iface) && (r.meth == "" || r.meth == meth)
  }

  lemma WithinIff(a: Rule, b: Rule)
    ensures Within(a, b) <==> Names(b, a.iface, a.meth) && (a.iface != b.iface || a.meth != b.meth)
  {
    if Within(a, b) {
      var c := CallOf(a, b.iface + "'", b.meth + "'");
      assert IsCall(c) && Covers(a, c);
    } else if Names(b, a.iface, a.meth) && !SameCondition(a, b) {
      Wider(a, b);
    }
  }

  /** The owner of a call names it, and whatever else names it is the same name or a
      wildcard in each of the two places, and a wildcard where the owner is none. */
  lemma OwnsIff(rules: seq<Rule>, k: nat, iface: string, meth: string)
    ensures Owns(rules, k, Target(iface, meth)) <==>
            && k < |rules| && Names(rules[k], iface, meth)
            && forall j :: 0 <= j < |rules| && j != k && Names(rules[j], iface, meth) ==>
                 && Names(rules[j], rules[k].iface, rules[k].meth)
                 && (rules[j].iface != rules[k].iface || rules[j].meth != rules[k].meth)
  {
    hide Within;
    var c := Target(iface, meth);
    if k < |rules| {
      forall j | 0 <= j < |rules|
        ensures Covers(rules[j], c) <==> Names(rules[j], iface, meth)
        ensures Within(rules[k], rules[j]) <==>
                Names(rules[j], rules[k].iface, rules[k].meth) && (rules[k].iface != rules[j].iface || rules[k].meth != rules[j].meth)
      {
        WithinIff(rules[k], rules[j]);
      }
    }
  }

  // ----- accepted rules -----

  /** What is published for a rule of an accepted set does what its actions do one by
      one, whatever the call's deadline and its method, iff its delays fit an int64. */
  lemma AcceptedMeaning(rules: seq<Rule>, i: nat)
    requires SetOk(rules) && i < |rules| && Durations(rules[i].actions)
    ensures (forall left: Option<nat>, e: bool :: Apply(CompiledOf(rules[i]).flat, left, e) == OneByOne(rules[i].actions, left, e))
            <==> Total(rules[i].actions) < W63
  {
    hide Comparable, OneByOne, Apply, Flattened, Total;
    var actions := rules[i].actions;
    assert RuleOk(rules[i]);
    assert ListOk(actions);
    MeaningKeptIff(actions);
    forall left: Option<nat>, e: bool ensures SameEffect(actions, left, e) <==> Apply(CompiledOf(rules[i]).flat, left, e) == OneByOne(actions, left, e) {}
  }

  /** The clock is in the window the rule names, and the rule has faults left. */
  predicate Open(r: Rule, now: int, budget: nat) {
    && (r.from.Some? ==> r.from.value <= now) && (r.until.Some? ==> now <= r.until.value)
    && (r.maxCount == 0 || budget < r.maxCount)
  }

  lemma AdmitsIff(r: Rule, now: int, budget: nat)
    requires r.maxCount >= 0
    ensures Admits(Some(CompiledOf(r)), now, budget) <==> Open(r, now, budget)
    ensures CompiledOf(r).rate == r.rate && CompiledOf(r).maxCount == r.maxCount
  {
    hide Flattened;
  }

  /** The row of a call that a rule owns is that rule's: the owner is unique. */
  lemma RowOfOwnerIs(rules: seq<Rule>, c: Target, row: Option<Compiled>, k: nat)
    requires RowOfOwner(rules, true, c, row) && Owns(rules, k, c)
    ensures row == Some(CompiledOf(rules[k]))
  {
    hide Covers, Within, CompiledOf;
    var o: nat :| Owns(rules, o, c) && row.value == CompiledOf(rules[o]);
    OwnerUnique(rules, o, k, c);
  }

  lemma RateOf(rules: seq<Rule>, k: nat)
    requires SetOk(rules) && k < |rules|
    ensures rules[k].rate.Finite? && rules[k].maxCount >= 0
  {
    assert RuleOk(rules[k]);
  }

  lemma RowRate(rules: seq<Rule>, enabled: bool, c: Target, row: Option<Compiled>)
    requires SetOk(rules) && RowOfOwner(rules, enabled, c, row)
    ensures row.Some? ==> row.value.rate.Finite? && row.value.maxCount >= 0
  {
    hide SetOk, Covers, Within, Flattened;
    if row.Some? {
      var k: nat :| Owns(rules, k, c) && row.value == CompiledOf(rules[k]);
      RateOf(rules, k);
    }
  }

  lemma NoOwner(rules: seq<Rule>, enabled: bool, c: Target)
    requires RowOfOwner(rules, enabled, c, None)
    ensures !enabled || forall k: nat :: !Owns(rules, k, c)
  {
    hide Covers, Within;
  }

  lemma OwnsOne(rules: seq<Rule>, k: nat, c: Target)
    requires Owns(rules, k, c)
    ensures k < |rules|
  {
  }

  lemma Covered(rules: seq<Rule>, enabled: bool, c: Target, row: Option<Compiled>)
    requires RowOfOwner(rules, enabled, c, row) && row.Some?
    ensures enabled && exists k :: 0 <= k < |rules| && Covers(rules[k], c)
  {
    hide Covers, Within, CompiledOf;
  }

  /** What a call comes to is what its owner says. */
  lemma OwnerDecides(rules: seq<Rule>, c: Target, row: Option<Compiled>, k: nat, now: int, budget: nat, left: Option<nat>, errResult: bool)
    requires SetOk(rules) && RowOfOwner(rules, true, c, row) && Owns(rules, k, c) && Durations(rules[k].actions)
    ensures k < |rules| && row == Some(CompiledOf(rules[k])) && rules[k].rate.Finite?
    ensures Admits(row, now, budget) <==> Open(rules[k], now, budget)
    ensures row.value.rate == rules[k].rate && row.value.maxCount == rules[k].maxCount
    ensures Total(rules[k].actions) < W63 ==> Apply(row.value.flat, left, errResult) == OneByOne(rules[k].actions, left, errResult)
  {
    hide SetOk, Covers, RowOfOwner, Within, CompiledOf, Admits, Open, OneByOne, Apply, Total, Durations;
    RowOfOwnerIs(rules, c, row, k);
    RateOf(rules, k);
    AdmitsIff(rules[k], now, budget);
    AcceptedMeaning(rules, k);
  }

  /** A call of method `i`, from the rules to its effect. With injection off, or covered by
      no rule, it is left alone; one that a rule owns is faulted iff that rule is open and
      the sample falls below its rate, and then suffers that rule's actions one by one. */
  method Intercept(b: Binder, in_: Injector, i: nat, counters: Counters, now: int, left: Option<nat>, errResult: bool)
      returns (effect: Effect, faulted: bool)
    requires in_.Valid() && i < |b.methods| && b.methods[i] != ""
    requires b.cur.Some? && b.cur.value.version == in_.version ==> b.cur.value.rows == Rows(in_.plan, b.iface, b.methods)
    requires forall k :: 0 <= k < |in_.rules| ==> Durations(in_.rules[k].actions)
    modifies b, counters
    ensures !faulted ==> effect == Effect(0, Proceeds)
    ensures faulted ==> in_.enabled && exists k :: 0 <= k < |in_.rules| && Covers(in_.rules[k], Target(b.iface, b.methods[i]))
    ensures forall k: nat :: in_.enabled && Owns(in_.rules, k, Target(b.iface, b.methods[i])) ==>
              var r := in_.rules[k]; var was := old(counters.budget);
              && r.rate.Finite?
              && (faulted <==> Open(r, now, was) && SampleOf((old(counters.seqNo) + 1) % W64) < r.rate.r)
              && (faulted && Total(r.actions) < W63 ==> effect == OneByOne(r.actions, left, errResult))
              && counters.budget == was + (if faulted && r.maxCount > 0 then 1 else 0)
  {
    hide SetOk, RowOfOwner, Published, Rows, Covers, Owns, CompiledOf, Admits, Open, SampleOf, OneByOne, Apply, Total, Durations;
    var c := Target(b.iface, b.methods[i]);
    var table := b.Resolve(in_);
    var row := table.rows[i];
    RowRate(in_.rules, in_.enabled, c, row);
    ghost var was, seqNo := counters.budget, counters.seqNo;
    effect, faulted := counters.Intercept(row, now, left, errResult);
    if row.None? {
      NoOwner(in_.rules, in_.enabled, c);
    } else {
      Covered(in_.rules, in_.enabled, c, row);
      forall k: nat | Owns(in_.rules, k, c)
        ensures k < |in_.rules| && row == Some(CompiledOf(in_.rules[k])) && in_.rules[k].rate.Finite?
        ensures Admits(row, now, was) <==> Open(in_.rules[k], now, was)
        ensures row.value.rate == in_.rules[k].rate && row.value.maxCount == in_.rules[k].maxCount
        ensures Total(in_.rules[k].actions) < W63 ==> Apply(row.value.flat, left, errResult) == OneByOne(in_.rules[k].actions, left, errResult)
      {
        OwnsOne(in_.rules, k, c);
        OwnerDecides(in_.rules, c, row, k, now, was, left, errResult);
      }
      assert faulted <==> Admits(row, now, was) && Faulted(ChaosBudget.Ordinal(seqNo), row.value.rate.r);
      FaultedIs(ChaosBudget.Ordinal(seqNo), row.value.rate.r);
    }
  }
}
