/** Publishing rule sets and resolving them per interface, one caller at a time. */
module ChaosInjector {
  import opened Wrappers
  import opened ChaosRules
  import opened ChaosPlan

  /** The rules that own each method of an interface. */
  function Rows(p: Plan, iface: string, methods: seq<string>): (r: seq<Option<Compiled>>)
    ensures |r| == |methods|
  {
    seq(|methods|, i requires 0 <= i < |methods| => Match(p, iface, methods[i]))
  }

  /** The row of a call's table: empty iff injection is off or no rule covers the call,
      else the compiled form of the rule that owns it. */
  ghost predicate RowOfOwner(rules: seq<Rule>, enabled: bool, c: Target, row: Option<Compiled>) {
    && (row.None? <==> !enabled || forall j :: 0 <= j < |rules| ==> !Covers(rules[j], c))
    && (row.Some? ==> exists k: nat :: Owns(rules, k, c) && row.value == CompiledOf(rules[k]))
  }

  /** The tables of a plan hold, method by method, the rule that owns it. */
  lemma RowsAreOwners(rules: seq<Rule>, enabled: bool, iface: string, methods: seq<string>, i: nat)
    requires SetOk(rules) && i < |methods| && methods[i] != ""
    ensures RowOfOwner(rules, enabled, Target(iface, methods[i]), Rows(Published(rules, enabled), iface, methods)[i])
  {
    hide SetOk, Covers, Owns, CompiledOf, Match, PlanFor;
    if enabled {
      CompileFor(rules, |rules|);
      MatchIsOwner(rules, Published(rules, enabled), Target(iface, methods[i]));
    } else {
      NothingMatches(iface, methods[i]);
    }
  }

  lemma NothingMatches(iface: string, meth: string)
    ensures Match(NO_RULES, iface, meth).None?
  {
  }

  /** A rule set, the switch, and the plan published from them. `version` tells one
      plan from another, as its address does. */
  class Injector {
    var rules: seq<Rule>
    var enabled: bool
    var plan: Plan
    var version: nat

    ghost predicate Valid()
      reads this
    {
      plan == Published(rules, enabled) && SetOk(rules)
    }

    /** An unusable rule set panics instead. */
    constructor (rules: seq<Rule>)
      requires SetOk(rules)
      ensures Valid() && this.rules == rules && enabled
    {
      var p := Rebuild(rules, true);
      this.rules, enabled, plan, version := rules, true, p, 0;
    }

    /** Replaces the rules and enables; false stands for the panic, after which the
        previous rules still run. */
    method Set(rules: seq<Rule>) returns (ok: bool)
      requires Valid()
      modifies this
      ensures Valid() && (ok <==> SetOk(rules))
      ensures ok ==> this.rules == rules && enabled && version == old(version) + 1
      ensures !ok ==> this.rules == old(this.rules) && enabled == old(enabled) && plan == old(plan) && version == old(version)
    {
      hide SetOk;
      var e := ValidateSet(rules);
      if e.Some? { return false; }
      this.rules := rules;
      enabled := true;
      plan := Rebuild(this.rules, enabled);
      version := version + 1;
      return true;
    }

    method Disable()
      requires Valid()
      modifies this
      ensures Valid() && !enabled && rules == old(rules) && plan == NO_RULES && version == old(version) + 1
    {
      enabled := false;
      plan := Rebuild(rules, enabled);
      version := version + 1;
    }

    method Enable()
      requires Valid()
      modifies this
      ensures Valid() && enabled && rules == old(rules) && version == old(version) + 1
    {
      enabled := true;
      plan := Rebuild(rules, enabled);
      version := version + 1;
    }
  }

  /** A plan resolved against one interface. */
  datatype Binding = Binding(version: nat, rows: seq<Option<Compiled>>)

  class Binder {
    const iface: string
    const methods: seq<string>
    var cur: Option<Binding>

    constructor (iface: string, methods: seq<string>)
      ensures this.iface == iface && this.methods == methods && cur.None?
    {
      this.iface, this.methods, cur := iface, methods, None;
    }

    /** The table for the current plan, rebuilt when the plan has been replaced. */
    method Resolve(in_: Injector) returns (b: Binding)
      requires in_.Valid()
      requires cur.Some? && cur.value.version == in_.version ==> cur.value.rows == Rows(in_.plan, iface, methods)
      modifies this
      ensures b == Binding(in_.version, Rows(in_.plan, iface, methods)) && cur == Some(b)
      ensures forall i :: 0 <= i < |methods| && methods[i] != "" ==>
                RowOfOwner(in_.rules, in_.enabled, Target(iface, methods[i]), b.rows[i])
    {
      hide RowOfOwner, SetOk, Published;
      forall i | 0 <= i < |methods| && methods[i] != ""
        ensures RowOfOwner(in_.rules, in_.enabled, Target(iface, methods[i]), Rows(in_.plan, iface, methods)[i])
      {
        RowsAreOwners(in_.rules, in_.enabled, iface, methods, i);
      }
      if cur.Some? && cur.value.version == in_.version { return cur.value; }
      var rows: seq<Option<Compiled>> := [];
      var i := 0;
      while i < |methods|
        invariant 0 <= i <= |methods| && rows == Rows(in_.plan, iface, methods[..i])
      {
        assert methods[..i + 1][..i] == methods[..i];
        rows := rows + [Match(in_.plan, iface, methods[i])];
        i := i + 1;
      }
      assert methods[..i] == methods;
      b := Binding(in_.version, rows);
      cur := Some(b);
    }
  }
}
