/** Fault rules: what a usable rule is, when a set of them gives every call at most
    one owner, and the lookup plan compiled from it. */
module ChaosRules {
  import opened Wrappers

  datatype Rate = NaN | NegInf | PosInf | Finite(r: real)

  /** `Panic any`: an empty string counts as not set. */
  datatype PanicValue = NoPanic | Text(s: string) | Other(v: int)

  /** Durations are nanoseconds in an int64. */
  datatype Action = Action(latency: int, err: Option<int>, panic: PanicValue)

  /** None for a zero time. */
  datatype Rule = Rule(iface: string, meth: string, rate: Rate, actions: seq<Action>, maxCount: int,
                       from: Option<int>, until: Option<int>)

  predicate AsksPanic(a: Action) {
    match a.panic
    case NoPanic => false
    case Text(s) => s != ""
    case Other(_) => true
  }

  function Faults(a: Action): nat {
    (if a.latency > 0 then 1 else 0) + (if a.err.Some? then 1 else 0) + (if AsksPanic(a) then 1 else 0)
  }

  /** It decides the call. */
  predicate Terminal(a: Action) { a.err.Some? || AsksPanic(a) }

  // ----- one rule -----

  predicate ActionOk(a: Action) { a.latency >= 0 && Faults(a) == 1 }

  predicate HeaderOk(r: Rule) {
    && r.rate.Finite? && 0.0 < r.rate.r <= 1.0
    && r.maxCount >= 0
    && (r.from.Some? && r.until.Some? ==> r.from.value <= r.until.value)
    && r.actions != []
  }

  /** Delays, then at most one action that decides the call, at the end. */
  ghost predicate RuleOk(r: Rule) {
    && HeaderOk(r)
    && (forall i :: 0 <= i < |r.actions| ==> ActionOk(r.actions[i]))
    && (forall i :: 0 <= i < |r.actions| - 1 ==> !Terminal(r.actions[i]))
  }

  /** Up to action `i` nothing is wrong: one fault each, delays before the last. */
  ghost predicate FineUpTo(actions: seq<Action>, i: nat) {
    && i < |actions|
    && (forall j :: 0 <= j < i ==> ActionOk(actions[j]))
    && (forall j :: 0 <= j < i - 1 ==> actions[j].latency > 0)
  }

  datatype RuleError =
    | BadRate | NegativeMaxCount | FromAfterUntil | NoActions
    | NegativeLatency(i: nat) | NotOneFault(i: nat, n: nat) | AfterTerminal(i: nat)

  /** The reason a single rule could never do anything, or two contradictory things. */
  method Check(r: Rule) returns (e: Option<RuleError>)
    ensures e.None? <==> RuleOk(r)
    ensures e.None? ==> forall i :: 0 <= i < |r.actions| - 1 ==> r.actions[i].latency > 0
    ensures e == Some(BadRate) <==> !(r.rate.Finite? && 0.0 < r.rate.r <= 1.0)
    ensures e == Some(NegativeMaxCount) ==> r.maxCount < 0
    ensures e == Some(FromAfterUntil) ==> r.from.Some? && r.until.Some? && r.until.value < r.from.value
    ensures e == Some(NoActions) ==> r.actions == []
    ensures e.Some? && e.value.NegativeLatency? ==> FineUpTo(r.actions, e.value.i) && r.actions[e.value.i].latency < 0
    ensures e.Some? && e.value.NotOneFault? ==> FineUpTo(r.actions, e.value.i) && Faults(r.actions[e.value.i]) == e.value.n != 1
    ensures e.Some? && e.value.AfterTerminal? ==>
              && FineUpTo(r.actions, e.value.i) && 0 < e.value.i && ActionOk(r.actions[e.value.i])
              && r.actions[e.value.i - 1].latency == 0
  {
    if r.rate.NaN? || r.rate.NegInf? || r.rate.PosInf? { return Some(BadRate); }
    if r.rate.r <= 0.0 || r.rate.r > 1.0 { return Some(BadRate); }
    if r.maxCount < 0 { return Some(NegativeMaxCount); }
    if r.from.Some? && r.until.Some? && r.from.value > r.until.value { return Some(FromAfterUntil); }
    if |r.actions| == 0 { return Some(NoActions); }
    var terminal := false;
    var i := 0;
    while i < |r.actions|
      invariant 0 <= i <= |r.actions|
      invariant forall j :: 0 <= j < i ==> ActionOk(r.actions[j])
      invariant forall j :: 0 <= j < i - 1 ==> !Terminal(r.actions[j])
      invariant terminal <==> i > 0 && Terminal(r.actions[i - 1])
    {
      var a := r.actions[i];
      if a.latency < 0 { return Some(NegativeLatency(i)); }
      var n := 0;
      if a.latency > 0 { n := n + 1; }
      if a.err.Some? { n := n + 1; }
      if AsksPanic(a) { n := n + 1; }
      if n != 1 { return Some(NotOneFault(i, n)); }
      if terminal { return Some(AfterTerminal(i)); }
      if a.err.Some? || AsksPanic(a) { terminal := true; }
      i := i + 1;
    }
    return None;
  }

  // ----- the calls a rule covers -----

  /** A call: interface type names may be empty (a type without a name), method
      names are not. */
  datatype Target = Target(iface: string, meth: string)

  predicate IsCall(c: Target) { c.meth != "" }

  predicate Covers(r: Rule, c: Target) {
    && (r.iface == "" || r.iface == c.iface)
    && (r.meth == "" || r.meth == c.meth)
  }

  ghost predicate Disjoint(a: Rule, b: Rule) {
    forall c: Target :: IsCall(c) ==> !(Covers(a, c) && Covers(b, c))
  }

  /** Every call of `a` is one of `b`, and `b` has others. */
  ghost predicate Within(a: Rule, b: Rule) {
    && (forall c: Target :: IsCall(c) && Covers(a, c) ==> Covers(b, c))
    && (exists c: Target :: IsCall(c) && Covers(b, c) && !Covers(a, c))
  }

  ghost predicate Comparable(a: Rule, b: Rule) {
    Disjoint(a, b) || Within(a, b) || Within(b, a)
  }

  predicate IfaceWild(r: Rule) { r.iface != "" && r.meth == "" }
  predicate MethodWild(r: Rule) { r.iface == "" && r.meth != "" }

  predicate SameCondition(a: Rule, b: Rule) { a.iface == b.iface && a.meth == b.meth }

  predicate Conflict(a: Rule, b: Rule) {
    SameCondition(a, b) || (IfaceWild(a) && MethodWild(b)) || (MethodWild(a) && IfaceWild(b))
  }

  /** The two patterns the validation looks for are exactly the incomparable pairs. */
  lemma ConflictIff(a: Rule, b: Rule)
    ensures Conflict(a, b) <==> !Comparable(a, b)
  {
    if Conflict(a, b) {
      ConflictOverlaps(a, b);
    } else if a.iface != "" && b.iface != "" && a.iface != b.iface {
      assert Disjoint(a, b);
    } else if a.meth != "" && b.meth != "" && a.meth != b.meth {
      assert Disjoint(a, b);
    } else if (a.iface == "" && b.iface != "") || (a.meth == "" && b.meth != "") {
      Wider(b, a);
    } else {
      Wider(a, b);
    }
  }

  /** The call of a rule that takes any name where the rule leaves it open. */
  function CallOf(r: Rule, iface: string, m: string): Target {
    Target(if r.iface == "" then iface else r.iface, if r.meth == "" then m else r.meth)
  }

  lemma ConflictOverlaps(a: Rule, b: Rule)
    requires Conflict(a, b)
    ensures !Comparable(a, b)
  {
    var i := if a.iface == "" then b.iface else a.iface;
    var m := if a.meth == "" then (if b.meth == "" then "m" else b.meth) else a.meth;
    var both := Target(i, m);
    assert IsCall(both) && Covers(a, both) && Covers(b, both);
    if !SameCondition(a, b) {
      var fromA := CallOf(a, i + "'", m + "'");
      var fromB := CallOf(b, i + "'", m + "'");
      assert IsCall(fromA) && Covers(a, fromA) && !Covers(b, fromA);
      assert IsCall(fromB) && Covers(b, fromB) && !Covers(a, fromB);
    }
  }

  lemma Wider(a: Rule, b: Rule)
    requires b.iface == "" || b.iface == a.iface
    requires b.meth == "" || b.meth == a.meth
    requires !SameCondition(a, b)
    ensures Within(a, b)
  {
    var c := CallOf(b, a.iface + "'", a.meth + "'");
    assert IsCall(c) && Covers(b, c) && !Covers(a, c);
  }

  // ----- a set of rules -----

  ghost predicate SetOk(rules: seq<Rule>) {
    && (forall i :: 0 <= i < |rules| ==> RuleOk(rules[i]))
    && (forall i, j :: 0 <= i < j < |rules| ==> Comparable(rules[i], rules[j]))
  }

  /** What the validation checks, before it is known to be the same. */
  ghost predicate NoConflict(rules: seq<Rule>) {
    forall i, j :: 0 <= i < j < |rules| ==> !Conflict(rules[i], rules[j])
  }

  lemma NoConflictIff(rules: seq<Rule>)
    ensures NoConflict(rules) <==> forall i, j :: 0 <= i < j < |rules| ==> Comparable(rules[i], rules[j])
  {
    hide Conflict, Comparable;
    forall i, j | 0 <= i < j < |rules| ensures Conflict(rules[i], rules[j]) <==> !Comparable(rules[i], rules[j]) {
      ConflictIff(rules[i], rules[j]);
    }
  }

  datatype SetError = InRule(i: nat, e: RuleError) | BothClaim(j: nat, i: nat) | Overlap(iface: string, m: string)

  type Condition = (string, string)

  function ConditionOf(r: Rule): Condition { (r.iface, r.meth) }

  /** What the scan knows after the first `i` rules. */
  ghost predicate Scanned(rules: seq<Rule>, i: nat, seen: map<Condition, nat>, ifaceWild: string, methodWild: string)
    requires i <= |rules|
  {
    && (forall c :: c in seen ==> seen[c] < i && ConditionOf(rules[seen[c]]) == c)
    && (forall j :: 0 <= j < i ==> ConditionOf(rules[j]) in seen && seen[ConditionOf(rules[j])] == j)
    && (ifaceWild != "" <==> exists j :: 0 <= j < i && IfaceWild(rules[j]))
    && (methodWild != "" <==> exists j :: 0 <= j < i && MethodWild(rules[j]))
    && (ifaceWild != "" ==> exists j :: 0 <= j < i && rules[j].iface == ifaceWild && rules[j].meth == "")
    && (methodWild != "" ==> exists j :: 0 <= j < i && rules[j].iface == "" && rules[j].meth == methodWild)
  }

  lemma ScanNext(rules: seq<Rule>, i: nat, seen: map<Condition, nat>, iw: string, mw: string)
    requires i < |rules| && Scanned(rules, i, seen, iw, mw) && ConditionOf(rules[i]) !in seen
    ensures var r := rules[i];
            Scanned(rules, i + 1, seen[ConditionOf(r) := i], if iw == "" && IfaceWild(r) then r.iface else iw,
                    if mw == "" && MethodWild(r) then r.meth else mw)
  {
    assert IfaceWild(rules[i]) ==> rules[i].meth == "";
  }

  lemma ScanEnd(rules: seq<Rule>, seen: map<Condition, nat>, iw: string, mw: string)
    requires Scanned(rules, |rules|, seen, iw, mw)
    ensures NoConflict(rules) <==> iw == "" || mw == ""
    ensures iw != "" ==> exists i :: 0 <= i < |rules| && rules[i].iface == iw && rules[i].meth == ""
    ensures mw != "" ==> exists j :: 0 <= j < |rules| && rules[j].iface == "" && rules[j].meth == mw
  {
    if iw != "" && mw != "" {
      var a :| 0 <= a < |rules| && IfaceWild(rules[a]);
      var b :| 0 <= b < |rules| && MethodWild(rules[b]);
      assert Conflict(rules[a], rules[b]) && Conflict(rules[b], rules[a]);
    } else {
      forall j, k | 0 <= j < k < |rules| ensures !Conflict(rules[j], rules[k]) {
        assert ConditionOf(rules[j]) in seen && ConditionOf(rules[k]) in seen;
      }
    }
  }

  /** Accepts a rule set iff every rule is usable and of any two, their calls are
      disjoint or those of one are strictly among those of the other. */
  method ValidateSet(rules: seq<Rule>) returns (e: Option<SetError>)
    ensures e.None? <==> SetOk(rules)
    ensures e.Some? && e.value.BothClaim? ==>
              e.value.j < e.value.i < |rules| && SameCondition(rules[e.value.j], rules[e.value.i])
    ensures e.Some? && e.value.InRule? ==> e.value.i < |rules| && !RuleOk(rules[e.value.i])
    ensures e.Some? && e.value.Overlap? ==>
              && e.value.iface != "" && e.value.m != ""
              && (exists i :: 0 <= i < |rules| && rules[i].iface == e.value.iface && rules[i].meth == "")
              && (exists j :: 0 <= j < |rules| && rules[j].iface == "" && rules[j].meth == e.value.m)
  {
    hide Comparable, RuleOk, Scanned, Conflict;
    var seen: map<Condition, nat> := map[];
    var ifaceWild, methodWild := "", "";
    var i := 0;
    assert Scanned(rules, 0, seen, "", "") by { ScanStart(rules); }
    NoConflictIff(rules);
    while i < |rules|
      invariant 0 <= i <= |rules|
      invariant forall j :: 0 <= j < i ==> RuleOk(rules[j])
      invariant Scanned(rules, i, seen, ifaceWild, methodWild)
    {
      var r := rules[i];
      var bad := Check(r);
      if bad.Some? { return Some(InRule(i, bad.value)); }
      var c := ConditionOf(r);
      if c in seen {
        ScanDup(rules, i, seen, ifaceWild, methodWild);
        return Some(BothClaim(seen[c], i));
      }
      ScanNext(rules, i, seen, ifaceWild, methodWild);
      seen := seen[c := i];
      if ifaceWild == "" && r.iface != "" && r.meth == "" { ifaceWild := r.iface; }
      if methodWild == "" && r.iface == "" && r.meth != "" { methodWild := r.meth; }
      i := i + 1;
    }
    ScanEnd(rules, seen, ifaceWild, methodWild);
    if ifaceWild != "" && methodWild != "" { return Some(Overlap(ifaceWild, methodWild)); }
    return None;
  }

  lemma ScanStart(rules: seq<Rule>)
    ensures Scanned(rules, 0, map[], "", "")
  {
  }

  lemma ScanDup(rules: seq<Rule>, i: nat, seen: map<Condition, nat>, iw: string, mw: string)
    requires i < |rules| && Scanned(rules, i, seen, iw, mw) && ConditionOf(rules[i]) in seen
    ensures var j := seen[ConditionOf(rules[i])];
            j < i && SameCondition(rules[j], rules[i]) && !NoConflict(rules)
  {
    var j := seen[ConditionOf(rules[i])];
    assert Conflict(rules[j], rules[i]);
  }
}
