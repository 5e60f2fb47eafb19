/** The lookup plan published for a rule set, and the rule it finds for a call. */
module ChaosPlan {
  import opened Wrappers
  import opened ChaosRules
  import opened ChaosActions

  /** One rule ready to apply. */
  datatype Compiled = Compiled(rate: Rate, maxCount: int, from: Option<int>, until: Option<int>, hasWindow: bool, flat: Flat)

  function CompiledOf(r: Rule): Compiled {
    Compiled(r.rate, r.maxCount, r.from, r.until, r.from.Some? || r.until.Some?, Flattened(r.actions))
  }

  /** Rules scoped to one interface by its name and then by method; the others by
      method. The empty method name is the wildcard. */
  datatype Plan = Plan(byIface: map<string, map<string, Compiled>>, anyIface: map<string, Compiled>)

  const NO_RULES := Plan(map[], map[])

  function Find(m: map<string, Compiled>, key: string): Option<Compiled> {
    if key in m then Some(m[key]) else None
  }

  /** The rule that owns a call: from the most specific condition down. */
  function Match(p: Plan, iface: string, meth: string): Option<Compiled> {
    var scoped := if iface in p.byIface then p.byIface[iface] else map[];
    if meth in scoped then Some(scoped[meth])
    else if "" in scoped then Some(scoped[""])
    else if meth in p.anyIface then Some(p.anyIface[meth])
    else Find(p.anyIface, "")
  }

  // ----- what a plan holds -----

  function Entry(p: Plan, iface: string, meth: string): Option<Compiled> {
    if iface == "" then Find(p.anyIface, meth)
    else if iface in p.byIface then Find(p.byIface[iface], meth)
    else None
  }

  /** The last of the first `n` rules with a condition. */
  function LastRule(rules: seq<Rule>, n: nat, iface: string, meth: string): Option<Compiled>
    requires n <= |rules|
  {
    if n == 0 then None
    else if rules[n - 1].iface == iface && rules[n - 1].meth == meth then Some(CompiledOf(rules[n - 1]))
    else LastRule(rules, n - 1, iface, meth)
  }

  ghost predicate PlanFor(rules: seq<Rule>, n: nat, p: Plan)
    requires n <= |rules|
  {
    "" !in p.byIface && forall i, m :: Entry(p, i, m) == LastRule(rules, n, i, m)
  }

  /** The plan after one more rule. */
  function Put(p: Plan, r: Rule, c: Compiled): Plan {
    if r.iface == "" then p.(anyIface := p.anyIface[r.meth := c])
    else
      var m := if r.iface in p.byIface then p.byIface[r.iface] else map[];
      p.(byIface := p.byIface[r.iface := m[r.meth := c]])
  }

  lemma PutEntry(p: Plan, r: Rule, c: Compiled, i: string, m: string)
    ensures Entry(Put(p, r, c), i, m) == if r.iface == i && r.meth == m then Some(c) else Entry(p, i, m)
  {
  }

  lemma PutFor(rules: seq<Rule>, n: nat, p: Plan)
    requires n < |rules| && PlanFor(rules, n, p)
    ensures PlanFor(rules, n + 1, Put(p, rules[n], CompiledOf(rules[n])))
  {
    hide Entry, Put, CompiledOf;
    var q := Put(p, rules[n], CompiledOf(rules[n]));
    forall i, m ensures Entry(q, i, m) == LastRule(rules, n + 1, i, m) { PutEntry(p, rules[n], CompiledOf(rules[n]), i, m); }
    assert "" !in q.byIface by { PutScope(p, rules[n], CompiledOf(rules[n])); }
  }

  lemma PutScope(p: Plan, r: Rule, c: Compiled)
    requires "" !in p.byIface
    ensures "" !in Put(p, r, c).byIface
  {
  }

  /** The plan compiled from the first `n` rules. */
  function Compile(rules: seq<Rule>, n: nat): Plan
    requires n <= |rules|
  {
    if n == 0 then NO_RULES else Put(Compile(rules, n - 1), rules[n - 1], CompiledOf(rules[n - 1]))
  }

  lemma {:induction false} CompileFor(rules: seq<Rule>, n: nat)
    requires n <= |rules|
    ensures PlanFor(rules, n, Compile(rules, n))
  {
    hide PlanFor, CompiledOf, Put;
    if n == 0 {
      EmptyFor(rules);
    } else {
      CompileFor(rules, n - 1);
      PutFor(rules, n - 1, Compile(rules, n - 1));
    }
  }

  lemma EmptyFor(rules: seq<Rule>)
    ensures PlanFor(rules, 0, NO_RULES)
  {
  }

  /** What is published; a disabled injector gets a plan with no rules. */
  function Published(rules: seq<Rule>, enabled: bool): Plan {
    if enabled then Compile(rules, |rules|) else NO_RULES
  }

  method Rebuild(rules: seq<Rule>, enabled: bool) returns (p: Plan)
    ensures p == Published(rules, enabled)
  {
    hide CompiledOf, Put;
    p := NO_RULES;
    if enabled {
      var i := 0;
      while i < |rules|
        invariant 0 <= i <= |rules| && p == Compile(rules, i)
      {
        var r := rules[i];
        var flat := Flatten(r.actions);
        var c := Compiled(r.rate, r.maxCount, r.from, r.until, r.from.Some? || r.until.Some?, flat);
        assert c == CompiledOf(r) by { CompiledIs(r); }
        PutIs(p, r, c);
        if r.iface == "" {
          p := p.(anyIface := p.anyIface[r.meth := c]);
        } else {
          var m := if r.iface in p.byIface then p.byIface[r.iface] else map[];
          p := p.(byIface := p.byIface[r.iface := m[r.meth := c]]);
        }
        i := i + 1;
      }
    }
  }

  lemma PutIs(p: Plan, r: Rule, c: Compiled)
    ensures r.iface == "" ==> Put(p, r, c) == p.(anyIface := p.anyIface[r.meth := c])
    ensures r.iface != "" ==>
              Put(p, r, c) == p.(byIface := p.byIface[r.iface := (if r.iface in p.byIface then p.byIface[r.iface] else map[])[r.meth := c]])
  {
  }

  lemma CompiledIs(r: Rule)
    ensures CompiledOf(r) == Compiled(r.rate, r.maxCount, r.from, r.until, r.from.Some? || r.until.Some?, Flattened(r.actions))
  {
  }

  // ----- ownership -----

  /** Rule `i` covers the call and is more specific than every other that does. */
  ghost predicate Owns(rules: seq<Rule>, i: nat, c: Target) {
    && i < |rules| && Covers(rules[i], c)
    && forall j :: 0 <= j < |rules| && j != i && Covers(rules[j], c) ==> Within(rules[i], rules[j])
  }

  /** Under distinct conditions the last rule with one is the only rule with it. */
  lemma {:induction false} OnlyRule(rules: seq<Rule>, n: nat, i: string, m: string)
    requires n <= |rules| && NoConflict(rules)
    ensures var r := LastRule(rules, n, i, m);
            && (r.None? ==> forall k :: 0 <= k < n ==> !(rules[k].iface == i && rules[k].meth == m))
            && (r.Some? ==> exists k :: 0 <= k < n && rules[k].iface == i && rules[k].meth == m && r.value == CompiledOf(rules[k]))
  {
    hide CompiledOf;
    if n != 0 && !(rules[n - 1].iface == i && rules[n - 1].meth == m) { OnlyRule(rules, n - 1, i, m); }
  }

  /** A rule that has the most specific condition present owns the call. */
  lemma MostSpecific(rules: seq<Rule>, k: nat, c: Target)
    requires NoConflict(rules) && k < |rules| && Covers(rules[k], c) && IsCall(c)
    requires forall j :: 0 <= j < |rules| && Covers(rules[j], c) ==>
               (rules[j].iface == "" || rules[j].iface == rules[k].iface) && (rules[j].meth == "" || rules[j].meth == rules[k].meth)
    ensures Owns(rules, k, c)
  {
    hide Within, Covers;
    forall j | 0 <= j < |rules| && j != k && Covers(rules[j], c) ensures Within(rules[k], rules[j]) {
      assert !SameCondition(rules[k], rules[j]) by {
        if j < k { assert !Conflict(rules[j], rules[k]); } else { assert !Conflict(rules[k], rules[j]); }
      }
      Wider(rules[k], rules[j]);
    }
  }

  /** The lookup finds the compiled form of the one most specific rule covering the
      call, and nothing iff no rule covers it. */
  lemma MatchIsOwner(rules: seq<Rule>, p: Plan, c: Target)
    requires SetOk(rules) && PlanFor(rules, |rules|, p) && IsCall(c)
    ensures Match(p, c.iface, c.meth).None? <==> forall j :: 0 <= j < |rules| ==> !Covers(rules[j], c)
    ensures Match(p, c.iface, c.meth).Some? ==>
              exists k: nat :: Owns(rules, k, c) && Match(p, c.iface, c.meth).value == CompiledOf(rules[k])
  {
    hide Entry, LastRule, CompiledOf, SetOk, Owns, Within, Conflict, NoConflict;
    assert NoConflict(rules) by { SetNoConflict(rules); }
    assert Match(p, c.iface, c.meth) == Chosen(p, c) by { MatchChosen(p, c); }
    OnlyRule(rules, |rules|, c.iface, c.meth);
    OnlyRule(rules, |rules|, c.iface, "");
    OnlyRule(rules, |rules|, "", c.meth);
    OnlyRule(rules, |rules|, "", "");
    if Match(p, c.iface, c.meth).Some? {
      var k := ChosenRule(rules, p, c);
      MostSpecific(rules, k, c);
    }
  }

  /** The lookup, condition by condition. */
  function Chosen(p: Plan, c: Target): Option<Compiled> {
    if Entry(p, c.iface, c.meth).Some? then Entry(p, c.iface, c.meth)
    else if Entry(p, c.iface, "").Some? then Entry(p, c.iface, "")
    else if Entry(p, "", c.meth).Some? then Entry(p, "", c.meth)
    else Entry(p, "", "")
  }

  lemma MatchChosen(p: Plan, c: Target)
    requires "" !in p.byIface
    ensures Match(p, c.iface, c.meth) == Chosen(p, c)
  {
  }

  lemma SetNoConflict(rules: seq<Rule>)
    requires SetOk(rules)
    ensures NoConflict(rules)
  {
    NoConflictIff(rules);
  }

  /** The rule whose condition the lookup stops at. */
  lemma ChosenRule(rules: seq<Rule>, p: Plan, c: Target) returns (k: nat)
    requires NoConflict(rules) && PlanFor(rules, |rules|, p) && IsCall(c) && Chosen(p, c).Some?
    ensures k < |rules| && Covers(rules[k], c) && Chosen(p, c).value == CompiledOf(rules[k])
    ensures forall j :: 0 <= j < |rules| && Covers(rules[j], c) ==>
              (rules[j].iface == "" || rules[j].iface == rules[k].iface) && (rules[j].meth == "" || rules[j].meth == rules[k].meth)
  {
    hide Entry, LastRule, CompiledOf, NoConflict;
    var n := |rules|;
    OnlyRule(rules, n, c.iface, c.meth);
    OnlyRule(rules, n, c.iface, "");
    OnlyRule(rules, n, "", c.meth);
    OnlyRule(rules, n, "", "");
    if Entry(p, c.iface, c.meth).Some? {
      k :| 0 <= k < n && rules[k].iface == c.iface && rules[k].meth == c.meth && Chosen(p, c).value == CompiledOf(rules[k]);
    } else if Entry(p, c.iface, "").Some? {
      k :| 0 <= k < n && rules[k].iface == c.iface && rules[k].meth == "" && Chosen(p, c).value == CompiledOf(rules[k]);
      forall j | 0 <= j < n && Covers(rules[j], c) ensures rules[j].meth == "" {
        if j != k { ConflictsNot(rules, j, k); }
      }
    } else if Entry(p, "", c.meth).Some? {
      k :| 0 <= k < n && rules[k].iface == "" && rules[k].meth == c.meth && Chosen(p, c).value == CompiledOf(rules[k]);
    } else {
      k :| 0 <= k < n && rules[k].iface == "" && rules[k].meth == "" && Chosen(p, c).value == CompiledOf(rules[k]);
    }
  }

  lemma ConflictsNot(rules: seq<Rule>, j: nat, k: nat)
    requires NoConflict(rules) && j < |rules| && k < |rules| && j != k
    ensures !Conflict(rules[j], rules[k]) && !Conflict(rules[k], rules[j])
  {
  }

  /** At most one rule owns a call. */
  lemma OwnerUnique(rules: seq<Rule>, i: nat, j: nat, c: Target)
    requires Owns(rules, i, c) && Owns(rules, j, c)
    ensures i == j
  {
    hide Within;
    NotBoth(rules[i], rules[j]);
  }

  /** The order in which the rules were given does not matter. */
  lemma OrderIrrelevant(rules: seq<Rule>, rules': seq<Rule>, p: Plan, p': Plan, c: Target)
    requires SetOk(rules) && SetOk(rules') && (forall r :: r in rules <==> r in rules')
    requires PlanFor(rules, |rules|, p) && PlanFor(rules', |rules'|, p') && IsCall(c)
    ensures Match(p, c.iface, c.meth) == Match(p', c.iface, c.meth)
  {
    hide SetOk, PlanFor, Match, Covers, Within;
    MatchIsOwner(rules, p, c);
    MatchIsOwner(rules', p', c);
    if Match(p, c.iface, c.meth).None? {
      forall j | 0 <= j < |rules'| ensures !Covers(rules'[j], c) {
        assert rules'[j] in rules;
      }
    } else {
      var k: nat :| Owns(rules, k, c) && Match(p, c.iface, c.meth).value == CompiledOf(rules[k]);
      assert rules[k] in rules';
      var k1 :| 0 <= k1 < |rules'| && rules'[k1] == rules[k];
      assert Covers(rules'[k1], c);
      var k': nat :| Owns(rules', k', c) && Match(p', c.iface, c.meth).value == CompiledOf(rules'[k']);
      assert rules'[k'] in rules;
      var k2 :| 0 <= k2 < |rules| && rules[k2] == rules'[k'];
      if rules[k] != rules'[k'] {
        assert Within(rules[k], rules[k2]) && Within(rules'[k'], rules'[k1]);
        NotBoth(rules[k], rules[k2]);
      }
    }
  }

  lemma NotBoth(a: Rule, b: Rule)
    ensures !(Within(a, b) && Within(b, a))
  {
  }
}
