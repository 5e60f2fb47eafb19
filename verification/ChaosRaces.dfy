/** Writers and calls racing over one injector: any number of threads calling through
    one interface while rule sets are replaced, disabled and enabled. */
module ChaosRaces {
  import opened Wrappers
  import opened ChaosRules
  import opened ChaosPlan
  import opened ChaosInjector

  /** A table as allocated: the plan it was resolved from and a counter per method. */
  datatype Table = Table(plan: nat, rows: seq<Option<Compiled>>, seqs: seq<nat>)

  /** Where a call stands. */
  datatype Pc =
    | Out
    | HasPlan(plan: nat)
    | Built(plan: nat, table: nat)
    | Using(plan: nat, table: nat, drawn: bool)

  /** One draw: the call's plan, table and method, and how many draws that counter had
      seen; the ordinal drawn is `Ordinal(before)`. */
  datatype Draw = Draw(plan: nat, table: nat, meth: nat, before: nat)

  /** Plans and tables are never changed or reused: their index is their address. A
      writer holds the lock from its first assignment until it has published. */
  datatype World = World(rules: seq<Rule>, enabled: bool, writing: bool, plans: seq<Plan>, tables: seq<Table>,
                         cur: Option<nat>, calls: seq<Pc>, draws: seq<Draw>)

  datatype Move =
    | BeginSet(rules: seq<Rule>) | BeginDisable | BeginEnable | Publish
    | Load(t: nat) | Check(t: nat) | Store(t: nat) | Sample(t: nat, m: nat) | End(t: nat)

  datatype Iface = Iface(name: string, methods: seq<string>)

  predicate IsCallMove(m: Move) { m.Load? || m.Check? || m.Store? || m.Sample? || m.End? }

  /** A rule owns method `k` in table `tab`. */
  predicate Owned(w: World, tab: nat, k: nat) {
    tab < |w.tables| && k < |w.tables[tab].rows| && w.tables[tab].rows[k].Some?
  }

  /** The move can be made: the lock is free or held, the thread is where it begins;
      only a method that a rule owns is sampled. */
  ghost predicate MoveOk(f: Iface, w: World, m: Move) {
    && (IsCallMove(m) ==> m.t < |w.calls|)
    && match m
       case BeginSet(rs) => !w.writing && SetOk(rs)
       case BeginDisable => !w.writing
       case BeginEnable => !w.writing
       case Publish => w.writing
       case Load(t) => w.calls[t].Out?
       case Check(t) => w.calls[t].HasPlan?
       case Store(t) => w.calls[t].Built?
       case Sample(t, k) => w.calls[t].Using? && !w.calls[t].drawn && k < |f.methods| && Owned(w, w.calls[t].table, k)
       case End(t) => w.calls[t].Using?
  }

  /** What the addresses in a move refer to exists. */
  predicate Refers(w: World, m: Move)
    requires IsCallMove(m) ==> m.t < |w.calls|
  {
    && w.plans != []
    && (m.Check? ==> w.calls[m.t].HasPlan? && w.calls[m.t].plan < |w.plans| && (w.cur.Some? ==> w.cur.value < |w.tables|))
    && (m.Store? ==> w.calls[m.t].Built?)
    && (m.Sample? ==> w.calls[m.t].Using? && w.calls[m.t].table < |w.tables| && m.m < |w.tables[w.calls[m.t].table].seqs|)
  }

  function Step(f: Iface, w: World, m: Move): (n: World)
    requires (IsCallMove(m) ==> m.t < |w.calls|) && Refers(w, m)
    ensures |n.calls| == |w.calls| && w.plans <= n.plans
  {
    match m
    case BeginSet(rs) => w.(rules := rs, enabled := true, writing := true)
    case BeginDisable => w.(enabled := false, writing := true)
    case BeginEnable => w.(enabled := true, writing := true)
    case Publish => w.(plans := w.plans + [Published(w.rules, w.enabled)], writing := false)
    case Load(t) => w.(calls := w.calls[t := HasPlan(|w.plans| - 1)])
    case Check(t) =>
      var p := w.calls[t].plan;
      if w.cur.Some? && w.tables[w.cur.value].plan == p then w.(calls := w.calls[t := Using(p, w.cur.value, false)])
      else
        w.(tables := w.tables + [Table(p, Rows(w.plans[p], f.name, f.methods), seq(|f.methods|, _ => 0))],
           calls := w.calls[t := Built(p, |w.tables|)])
    case Store(t) =>
      var c := w.calls[t];
      w.(cur := Some(c.table), calls := w.calls[t := Using(c.plan, c.table, false)])
    case Sample(t, k) =>
      var c := w.calls[t];
      var tab := w.tables[c.table];
      w.(tables := w.tables[c.table := tab.(seqs := tab.seqs[k := tab.seqs[k] + 1])],
         calls := w.calls[t := c.(drawn := true)], draws := w.draws + [Draw(c.plan, c.table, k, tab.seqs[k])])
    case End(t) => w.(calls := w.calls[t := Out])
  }

  /** The world after any list of moves; one that cannot be made changes nothing. */
  ghost function Run(f: Iface, w: World, moves: seq<Move>): (n: World)
    ensures |n.calls| == |w.calls| && w.plans <= n.plans
  {
    if moves == [] then w
    else
      var before, m := Run(f, w, moves[..|moves| - 1]), moves[|moves| - 1];
      if MoveOk(f, before, m) && Refers(before, m) then Step(f, before, m) else before
  }

  // ----- what every run keeps -----

  ghost predicate TableOk(f: Iface, plans: seq<Plan>, tab: Table) {
    tab.plan < |plans| && tab.rows == Rows(plans[tab.plan], f.name, f.methods) && |tab.seqs| == |f.methods|
  }

  predicate CallOk(w: World, c: Pc) {
    && (!c.Out? ==> c.plan < |w.plans|)
    && (c.Built? || c.Using? ==> c.table < |w.tables| && w.tables[c.table].plan == c.plan)
    && (c.Using? && c.drawn ==> AnyOwned(w.tables[c.table].rows))
  }

  predicate AnyOwned(rows: seq<Option<Compiled>>) {
    exists k :: 0 <= k < |rows| && rows[k].Some?
  }

  /** Every table, cached or in use, agrees with its own plan; a call uses a table of
      the plan it loaded; and with no writer about, the last plan is that of the
      rules and the switch. */
  ghost predicate Inv(f: Iface, w: World) {
    && w.plans != [] && SetOk(w.rules)
    && (!w.writing ==> w.plans[|w.plans| - 1] == Published(w.rules, w.enabled))
    && (forall i :: 0 <= i < |w.tables| ==> TableOk(f, w.plans, w.tables[i]))
    && (w.cur.Some? ==> w.cur.value < |w.tables|)
    && (forall t :: 0 <= t < |w.calls| ==> CallOk(w, w.calls[t]))
  }

  ghost predicate Init(w: World) {
    && SetOk(w.rules) && w.plans == [Published(w.rules, true)] && w.enabled && !w.writing && w.tables == [] && w.cur.None? && w.draws == []
    && forall t :: 0 <= t < |w.calls| ==> w.calls[t] == Out
  }

  lemma MoveRefers(f: Iface, w: World, m: Move)
    requires Inv(f, w) && MoveOk(f, w, m)
    ensures Refers(w, m)
  {
    hide Published, Rows, SetOk;
    if IsCallMove(m) { assert CallOk(w, w.calls[m.t]); }
    if m.Sample? { assert TableOk(f, w.plans, w.tables[w.calls[m.t].table]); }
  }

  lemma StepTables(f: Iface, w: World, m: Move)
    requires Inv(f, w) && MoveOk(f, w, m) && Refers(w, m)
    ensures var n := Step(f, w, m);
            && |w.tables| <= |n.tables| && (forall i :: 0 <= i < |n.tables| ==> TableOk(f, n.plans, n.tables[i]))
            && (forall i :: 0 <= i < |w.tables| ==> n.tables[i].plan == w.tables[i].plan && n.tables[i].rows == w.tables[i].rows)
  {
    hide Published, Rows, SetOk, CallOk;
    var n := Step(f, w, m);
    forall i | 0 <= i < |n.tables| ensures TableOk(f, n.plans, n.tables[i]) {
      if i < |w.tables| { assert TableOk(f, w.plans, w.tables[i]); }
    }
  }

  /** The call a move is about, and the others. */
  lemma MovedCall(f: Iface, w: World, m: Move)
    requires Inv(f, w) && MoveOk(f, w, m) && Refers(w, m) && IsCallMove(m)
    requires var n := Step(f, w, m);
             |w.tables| <= |n.tables| && forall i :: 0 <= i < |w.tables| ==>
               n.tables[i].plan == w.tables[i].plan && n.tables[i].rows == w.tables[i].rows
    ensures var n := Step(f, w, m); CallOk(n, n.calls[m.t])
  {
    hide Published, Rows, SetOk, TableOk;
    assert CallOk(w, w.calls[m.t]);
  }

  lemma OtherCall(f: Iface, w: World, m: Move, t: nat)
    requires Inv(f, w) && MoveOk(f, w, m) && Refers(w, m) && t < |w.calls| && (IsCallMove(m) ==> m.t != t)
    requires var n := Step(f, w, m);
             |w.tables| <= |n.tables| && forall i :: 0 <= i < |w.tables| ==>
               n.tables[i].plan == w.tables[i].plan && n.tables[i].rows == w.tables[i].rows
    ensures var n := Step(f, w, m); CallOk(n, n.calls[t])
  {
    hide Published, Rows, SetOk, TableOk, MoveOk;
    assert CallOk(w, w.calls[t]);
  }

  lemma StepCalls(f: Iface, w: World, m: Move)
    requires Inv(f, w) && MoveOk(f, w, m) && Refers(w, m)
    requires var n := Step(f, w, m);
             |w.tables| <= |n.tables| && forall i :: 0 <= i < |w.tables| ==>
               n.tables[i].plan == w.tables[i].plan && n.tables[i].rows == w.tables[i].rows
    ensures var n := Step(f, w, m); forall t :: 0 <= t < |n.calls| ==> CallOk(n, n.calls[t])
  {
    hide Published, Rows, SetOk, TableOk, CallOk;
    var n := Step(f, w, m);
    forall t | 0 <= t < |n.calls| ensures CallOk(n, n.calls[t]) {
      if IsCallMove(m) && m.t == t { MovedCall(f, w, m); } else { OtherCall(f, w, m, t); }
    }
  }

  lemma StepInv(f: Iface, w: World, m: Move)
    requires Inv(f, w) && MoveOk(f, w, m)
    ensures Refers(w, m) && Inv(f, Step(f, w, m))
  {
    hide Published, Rows, SetOk, TableOk;
    MoveRefers(f, w, m);
    StepTables(f, w, m);
    StepCalls(f, w, m);
    if m.Store? { assert CallOk(w, w.calls[m.t]); }
    hide CallOk;
  }

  lemma {:induction false} RunInv(f: Iface, w: World, moves: seq<Move>)
    requires Inv(f, w)
    ensures Inv(f, Run(f, w, moves))
  {
    hide Inv, Step, MoveOk, Refers;
    if moves != [] {
      var before, m := Run(f, w, moves[..|moves| - 1]), moves[|moves| - 1];
      RunInv(f, w, moves[..|moves| - 1]);
      if MoveOk(f, before, m) { StepInv(f, before, m); }
    }
  }

  lemma InitInv(f: Iface, w: World)
    requires Init(w)
    ensures Inv(f, w)
  {
  }

  /** A started call keeps the plan it loaded until it ends. */
  ghost predicate Loaded(w: World, t: nat, p: nat) {
    t < |w.calls| && !w.calls[t].Out? && w.calls[t].plan == p
  }

  lemma {:induction false} KeepsPlan(f: Iface, w: World, moves: seq<Move>, t: nat, p: nat)
    requires Loaded(w, t, p) && End(t) !in moves
    ensures Loaded(Run(f, w, moves), t, p)
  {
    hide Published, Rows, SetOk;
    if moves != [] {
      var last := moves[|moves| - 1];
      assert last in moves && last != End(t);
      KeepsPlan(f, w, moves[..|moves| - 1], t, p);
    }
  }

  /** A call that starts when no writer is about is decided by the rules and the
      switch of that moment, whatever other calls and writers do meanwhile: each of its
      methods is faulted by the rule that owned it then, and by none if injection was
      off or no rule covered it. `before` leads to the start of the call, `during` up to any moment in it. */
  lemma CallUsesPlanAtStart(f: Iface, w0: World, before: seq<Move>, t: nat, during: seq<Move>)
    requires Init(w0) && t < |w0.calls| && End(t) !in during
    requires var w := Run(f, w0, before); w.calls[t].Out? && !w.writing
    ensures var w := Run(f, w0, before); var n := Run(f, Run(f, w, [Load(t)]), during);
            n.calls[t].Using? ==>
              n.calls[t].table < |n.tables| && n.tables[n.calls[t].table].rows == Rows(Published(w.rules, w.enabled), f.name, f.methods)
    ensures var w := Run(f, w0, before); var n := Run(f, Run(f, w, [Load(t)]), during);
            n.calls[t].Using? ==>
              forall k :: 0 <= k < |f.methods| && f.methods[k] != "" ==>
                RowOfOwner(w.rules, w.enabled, Target(f.name, f.methods[k]), n.tables[n.calls[t].table].rows[k])
  {
    hide *;
    InitInv(f, w0);
    RunInv(f, w0, before);
    var w := Run(f, w0, before);
    var l := Run(f, w, [Load(t)]);
    Starts(f, w, t);
    RunInv(f, w, [Load(t)]);
    RunInv(f, l, during);
    KeepsPlan(f, l, during, t, |w.plans| - 1);
    RowsOfPlan(f, Run(f, l, during), t, |w.plans| - 1);
    LastPlan(f, w);
    forall k | 0 <= k < |f.methods| && f.methods[k] != ""
      ensures RowOfOwner(w.rules, w.enabled, Target(f.name, f.methods[k]), Rows(Published(w.rules, w.enabled), f.name, f.methods)[k])
    {
      RowsAreOwners(w.rules, w.enabled, f.name, f.methods, k);
    }
  }

  lemma Starts(f: Iface, w: World, t: nat)
    requires Inv(f, w) && t < |w.calls| && w.calls[t].Out?
    ensures w.plans != []
    ensures var l := Run(f, w, [Load(t)]); l.plans == w.plans && Loaded(l, t, |w.plans| - 1)
  {
    hide Published, Rows, SetOk, CallOk, TableOk;
    assert [Load(t)][..0] == [];
    assert Run(f, w, []) == w;
  }

  lemma RowsOfPlan(f: Iface, n: World, t: nat, p: nat)
    requires Inv(f, n) && Loaded(n, t, p)
    ensures p < |n.plans|
    ensures n.calls[t].Using? ==>
              n.calls[t].table < |n.tables| && n.tables[n.calls[t].table].rows == Rows(n.plans[p], f.name, f.methods)
  {
    hide Published, Rows, SetOk;
    assert CallOk(n, n.calls[t]);
    if n.calls[t].Using? { assert TableOk(f, n.plans, n.tables[n.calls[t].table]); }
  }

  lemma LastPlan(f: Iface, w: World)
    requires Inv(f, w) && !w.writing
    ensures w.plans != [] && w.plans[|w.plans| - 1] == Published(w.rules, w.enabled) && SetOk(w.rules)
  {
  }

  /** So a call that starts after Disable has returned, with no Set or Enable begun,
      is never even sampled. */
  lemma OffNeverSamples(f: Iface, w0: World, before: seq<Move>, t: nat, during: seq<Move>)
    requires Init(w0) && t < |w0.calls| && End(t) !in during
    requires var w := Run(f, w0, before); w.calls[t].Out? && !w.writing && !w.enabled
    ensures var n := Run(f, Run(f, Run(f, w0, before), [Load(t)]), during);
            n.calls[t].Using? ==> !n.calls[t].drawn
  {
    hide Run, Init;
    var w := Run(f, w0, before);
    var n := Run(f, Run(f, w, [Load(t)]), during);
    CallUsesPlanAtStart(f, w0, before, t, during);
    InitInv(f, w0);
    RunInv(f, w0, before);
    RunInv(f, w, [Load(t)]);
    RunInv(f, Run(f, w, [Load(t)]), during);
    hide Inv, MoveOk, Step;
    if n.calls[t].Using? {
      OffOwnsNothing(w.rules, f);
      assert CallOk(n, n.calls[t]) by { CallsOk(f, n, t); }
    }
  }

  lemma CallsOk(f: Iface, w: World, t: nat)
    requires Inv(f, w) && t < |w.calls|
    ensures CallOk(w, w.calls[t])
  {
  }

  // ----- what a writer leaves -----

  predicate Begins(m: Move) { m.BeginSet? || m.BeginDisable? || m.BeginEnable? }

  predicate NoneBegins(moves: seq<Move>) { forall i :: 0 <= i < |moves| ==> !Begins(moves[i]) }

  lemma {:induction false} RunAppend(f: Iface, w: World, a: seq<Move>, b: seq<Move>)
    ensures Run(f, w, a + b) == Run(f, Run(f, w, a), b)
    decreases |b|
  {
    hide Step, MoveOk, Refers;
    if b == [] {
      assert a + b == a;
    } else {
      var init, m := b[..|b| - 1], b[|b| - 1];
      RunAppend(f, w, a, init);
      assert (a + b)[..|a + b| - 1] == a + init && (a + b)[|a + b| - 1] == m;
    }
  }

  /** The rules and the switch, once nobody writes. */
  ghost predicate Settled(w: World, rules: seq<Rule>, enabled: bool) {
    !w.writing && w.rules == rules && w.enabled == enabled
  }

  lemma {:induction false} StaysSettled(f: Iface, w: World, moves: seq<Move>, rules: seq<Rule>, enabled: bool)
    requires Settled(w, rules, enabled) && NoneBegins(moves)
    ensures Settled(Run(f, w, moves), rules, enabled)
  {
    hide SetOk, Published, Rows;
    if moves != [] {
      assert !Begins(moves[|moves| - 1]);
      StaysSettled(f, w, moves[..|moves| - 1], rules, enabled);
    }
  }

  /** What Set, Disable or Enable began, once published: Set brings its rules and
      switches on, the other two keep the rules and switch off and on; calls change
      neither, until the next writer. */
  lemma WriterLeaves(f: Iface, w: World, m: Move, after: seq<Move>)
    requires Inv(f, w) && !w.writing && Begins(m) && (m.BeginSet? ==> SetOk(m.rules)) && NoneBegins(after)
    ensures Settled(Run(f, w, [m, Publish] + after), if m.BeginSet? then m.rules else w.rules, !m.BeginDisable?)
  {
    hide SetOk, Published, Rows, Inv;
    assert w.plans != [] by { LastPlan(f, w); }
    var began, done := Step(f, w, m), Step(f, Step(f, w, m), Publish);
    assert [m][..0] == [] && [m, Publish][..1] == [m];
    assert Run(f, w, []) == w;
    assert Run(f, w, [m]) == began;
    assert Run(f, w, [m, Publish]) == done;
    RunAppend(f, w, [m, Publish], after);
    StaysSettled(f, done, after, if m.BeginSet? then m.rules else w.rules, !m.BeginDisable?);
  }

  /** The kill switch: a call that starts once Disable has returned, whatever calls went
      on before, is not sampled, whatever writers do while it runs; no Set or Enable lies
      between Disable and the start. */
  lemma KillSwitch(f: Iface, w0: World, before: seq<Move>, after: seq<Move>, t: nat, during: seq<Move>)
    requires Init(w0) && t < |w0.calls| && NoneBegins(after) && End(t) !in during
    requires !Run(f, w0, before).writing && Run(f, w0, before + ([BeginDisable, Publish] + after)).calls[t].Out?
    ensures var n := Run(f, Run(f, Run(f, w0, before + ([BeginDisable, Publish] + after)), [Load(t)]), during);
            n.calls[t].Using? ==> !n.calls[t].drawn
  {
    hide Run, Init, Inv;
    InitInv(f, w0);
    RunInv(f, w0, before);
    RunAppend(f, w0, before, [BeginDisable, Publish] + after);
    WriterLeaves(f, Run(f, w0, before), BeginDisable, after);
    OffNeverSamples(f, w0, before + ([BeginDisable, Publish] + after), t, during);
  }

  /** With injection off no rule owns any method. */
  lemma OffOwnsNothing(rules: seq<Rule>, f: Iface)
    ensures !AnyOwned(Rows(Published(rules, false), f.name, f.methods))
  {
  }

  // ----- ordinals -----

  /** The counts drawn for method `k` on plan `p`, in order, whatever the table. */
  function OnPlan(draws: seq<Draw>, p: nat, k: nat): seq<nat> {
    if draws == [] then []
    else
      var d := draws[|draws| - 1];
      OnPlan(draws[..|draws| - 1], p, k) + if d.plan == p && d.meth == k then [d.before] else []
  }

  /** The counts drawn for method `k` at table `tab`, in order. */
  function AtTable(draws: seq<Draw>, tab: nat, k: nat): seq<nat> {
    if draws == [] then []
    else
      var d := draws[|draws| - 1];
      AtTable(draws[..|draws| - 1], tab, k) + if d.table == tab && d.meth == k then [d.before] else []
  }

  function UpTo(n: nat): seq<nat> { seq(n, i requires 0 <= i < n => i) }

  function SeqAt(w: World, tab: nat, k: nat): nat {
    if tab < |w.tables| && k < |w.tables[tab].seqs| then w.tables[tab].seqs[k] else 0
  }

  /** Each table hands its counts out in turn, and a draw names its table's plan. */
  ghost predicate DrawsOk(w: World) {
    && (forall tab, k :: AtTable(w.draws, tab, k) == UpTo(SeqAt(w, tab, k)))
    && (forall i :: 0 <= i < |w.draws| ==> w.draws[i].table < |w.tables| && w.draws[i].plan == w.tables[w.draws[i].table].plan)
  }

  lemma StepDraws(f: Iface, w: World, m: Move)
    requires Inv(f, w) && MoveOk(f, w, m) && Refers(w, m) && DrawsOk(w)
    ensures DrawsOk(Step(f, w, m))
  {
    hide Published, Rows, SetOk, DrawsOk, TableOk;
    if m.Sample? {
      assert CallOk(w, w.calls[m.t]);
      hide Inv, MoveOk, CallOk;
      var c := w.calls[m.t];
      DrawAdded(w, Step(f, w, m), c.table, m.m);
    } else {
      hide Inv, CallOk;
      SameSeqs(w, Step(f, w, m));
    }
  }

  /** One draw counted at a table. */
  lemma DrawAdded(w: World, n: World, tab: nat, k: nat)
    requires DrawsOk(w) && tab < |w.tables| && k < |w.tables[tab].seqs|
    requires n.tables == w.tables[tab := w.tables[tab].(seqs := w.tables[tab].seqs[k := w.tables[tab].seqs[k] + 1])]
    requires n.draws == w.draws + [Draw(w.tables[tab].plan, tab, k, w.tables[tab].seqs[k])]
    ensures DrawsOk(n)
  {
    hide AtTable;
    forall x, y ensures AtTable(n.draws, x, y) == UpTo(SeqAt(n, x, y)) {
      assert AtTable(w.draws, x, y) == UpTo(SeqAt(w, x, y));
      AtTableSnoc(w.draws, n.draws[|w.draws|], x, y);
      UpToSnoc(SeqAt(w, x, y));
      assert SeqAt(n, x, y) == SeqAt(w, x, y) + if x == tab && y == k then 1 else 0;
    }
    forall i | 0 <= i < |n.draws| ensures n.draws[i].table < |n.tables| && n.draws[i].plan == n.tables[n.draws[i].table].plan {
      if i < |w.draws| { assert n.draws[i] == w.draws[i]; }
    }
  }

  lemma AtTableSnoc(draws: seq<Draw>, d: Draw, tab: nat, k: nat)
    ensures AtTable(draws + [d], tab, k) == AtTable(draws, tab, k) + if d.table == tab && d.meth == k then [d.before] else []
  {
    assert (draws + [d])[..|draws|] == draws;
  }

  lemma UpToSnoc(n: nat)
    ensures UpTo(n + 1) == UpTo(n) + [n]
  {
  }

  /** New tables start at zero. */
  lemma SameSeqs(w: World, n: World)
    requires DrawsOk(w) && n.draws == w.draws && w.tables <= n.tables
    requires forall i, k :: |w.tables| <= i < |n.tables| && 0 <= k < |n.tables[i].seqs| ==> n.tables[i].seqs[k] == 0
    ensures DrawsOk(n)
  {
    hide AtTable;
    forall x, y ensures AtTable(n.draws, x, y) == UpTo(SeqAt(n, x, y)) {
      assert AtTable(w.draws, x, y) == UpTo(SeqAt(w, x, y));
      assert SeqAt(n, x, y) == SeqAt(w, x, y);
    }
  }

  /** In every run. */
  lemma {:induction false} RunDraws(f: Iface, w: World, moves: seq<Move>)
    requires Inv(f, w) && DrawsOk(w)
    ensures DrawsOk(Run(f, w, moves))
  {
    hide Inv, Step, MoveOk, Refers, DrawsOk;
    if moves != [] {
      var before, m := Run(f, w, moves[..|moves| - 1]), moves[|moves| - 1];
      RunDraws(f, w, moves[..|moves| - 1]);
      RunInv(f, w, moves[..|moves| - 1]);
      if MoveOk(f, before, m) {
        MoveRefers(f, before, m);
        StepDraws(f, before, m);
      }
    }
  }

  lemma InitDraws(w: World)
    requires Init(w)
    ensures DrawsOk(w)
  {
  }

  /** All draws for the method on the plan were made at one table. */
  ghost predicate OneTable(draws: seq<Draw>, p: nat, k: nat) {
    forall i, j :: 0 <= i < j < |draws| && Drew(draws[i], p, k) && Drew(draws[j], p, k) ==> draws[i].table == draws[j].table
  }

  predicate Drew(d: Draw, p: nat, k: nat) { d.plan == p && d.meth == k }

  /** In every run the calls of a method on a plan draw 0, 1, 2, ... in turn, hence the
      ordinals 1, 2, 3, ..., iff they all drew at one table. */
  lemma DrawsInTurnIff(f: Iface, w0: World, moves: seq<Move>, p: nat, k: nat)
    requires Init(w0)
    ensures var draws := Run(f, w0, moves).draws;
            OnPlan(draws, p, k) == UpTo(|OnPlan(draws, p, k)|) <==> OneTable(draws, p, k)
  {
    hide Run, Inv, AtTable, OnPlan;
    InitInv(f, w0);
    InitDraws(w0);
    RunDraws(f, w0, moves);
    var w := Run(f, w0, moves);
    if OneTable(w.draws, p, k) {
      if i :| 0 <= i < |w.draws| && Drew(w.draws[i], p, k) {
        OneTableIs(w.draws, p, k, w.draws[i].table);
        assert AtTable(w.draws, w.draws[i].table, k) == UpTo(SeqAt(w, w.draws[i].table, k));
      } else {
        NoneDrew(w.draws, p, k);
      }
    } else {
      var i, j :| 0 <= i < j < |w.draws| && Drew(w.draws[i], p, k) && Drew(w.draws[j], p, k) && w.draws[i].table != w.draws[j].table;
      var a := FirstAt(w, w.draws[i].table, k, i);
      var b := FirstAt(w, w.draws[j].table, k, j);
      TwoFirsts(w.draws, p, k, if a < b then a else b, if a < b then b else a);
      OneFirst(|OnPlan(w.draws, p, k)|);
    }
  }

  /** In particular when the plan was resolved only once. */
  lemma ResolvedOnce(f: Iface, w0: World, moves: seq<Move>, p: nat, k: nat)
    requires Init(w0)
    requires var w := Run(f, w0, moves);
             forall a, b :: 0 <= a < b < |w.tables| ==> !(w.tables[a].plan == p && w.tables[b].plan == p)
    ensures var draws := Run(f, w0, moves).draws; OnPlan(draws, p, k) == UpTo(|OnPlan(draws, p, k)|)
  {
    hide Run, Inv, OnPlan, AtTable;
    InitInv(f, w0);
    InitDraws(w0);
    RunDraws(f, w0, moves);
    DrawsInTurnIff(f, w0, moves, p, k);
    var w := Run(f, w0, moves);
    forall i, j | 0 <= i < j < |w.draws| && Drew(w.draws[i], p, k) && Drew(w.draws[j], p, k) ensures w.draws[i].table == w.draws[j].table {
      assert w.tables[w.draws[i].table].plan == p && w.tables[w.draws[j].table].plan == p;
    }
  }

  /** Draws on the plan and draws at its one table are the same. */
  lemma {:induction false} OneTableIs(draws: seq<Draw>, p: nat, k: nat, tab: nat)
    requires forall i :: 0 <= i < |draws| && Drew(draws[i], p, k) ==> draws[i].table == tab
    requires forall i :: 0 <= i < |draws| && draws[i].table == tab ==> draws[i].plan == p
    ensures OnPlan(draws, p, k) == AtTable(draws, tab, k)
  {
    if draws != [] { OneTableIs(draws[..|draws| - 1], p, k, tab); }
  }

  lemma {:induction false} NoneDrew(draws: seq<Draw>, p: nat, k: nat)
    requires forall i :: 0 <= i < |draws| ==> !Drew(draws[i], p, k)
    ensures OnPlan(draws, p, k) == []
  {
    if draws != [] { NoneDrew(draws[..|draws| - 1], p, k); }
  }

  /** A table that was drawn at has a draw that came first. */
  lemma FirstAt(w: World, tab: nat, k: nat, i: nat) returns (a: nat)
    requires DrawsOk(w) && i < |w.draws| && w.draws[i].table == tab && w.draws[i].meth == k
    ensures a < |w.draws| && w.draws[a].table == tab && w.draws[a].meth == k && w.draws[a].before == 0
    ensures w.draws[a].plan == w.draws[i].plan
  {
    DrawnSome(w.draws, tab, k, i);
    assert AtTable(w.draws, tab, k) == UpTo(SeqAt(w, tab, k));
    a := HeadOf(w.draws, tab, k);
  }

  lemma {:induction false} DrawnSome(draws: seq<Draw>, tab: nat, k: nat, i: nat)
    requires i < |draws| && draws[i].table == tab && draws[i].meth == k
    ensures AtTable(draws, tab, k) != []
  {
    if i < |draws| - 1 { DrawnSome(draws[..|draws| - 1], tab, k, i); }
  }

  lemma {:induction false} HeadOf(draws: seq<Draw>, tab: nat, k: nat) returns (a: nat)
    requires AtTable(draws, tab, k) != []
    ensures a < |draws| && draws[a].table == tab && draws[a].meth == k && draws[a].before == AtTable(draws, tab, k)[0]
  {
    var n := |draws| - 1;
    if AtTable(draws[..n], tab, k) != [] { a := HeadOf(draws[..n], tab, k); } else { a := n; }
  }

  /** How often a list has a zero. */
  function Firsts(s: seq<nat>): nat {
    if s == [] then 0 else Firsts(s[..|s| - 1]) + if s[|s| - 1] == 0 then 1 else 0
  }

  lemma FirstsSnoc(s: seq<nat>, x: nat)
    ensures Firsts(s + [x]) == Firsts(s) + if x == 0 then 1 else 0
  {
    assert (s + [x])[..|s|] == s;
  }

  lemma {:induction false} OneFirst(n: nat)
    ensures Firsts(UpTo(n)) <= 1 && (n == 0 ==> Firsts(UpTo(n)) == 0)
  {
    if n != 0 {
      OneFirst(n - 1);
      assert UpTo(n) == UpTo(n - 1) + [n - 1];
      FirstsSnoc(UpTo(n - 1), n - 1);
    }
  }

  lemma {:induction false} TwoFirsts(draws: seq<Draw>, p: nat, k: nat, a: nat, b: nat)
    requires a < b < |draws| && Drew(draws[a], p, k) && Drew(draws[b], p, k) && draws[a].before == 0 && draws[b].before == 0
    ensures Firsts(OnPlan(draws, p, k)) >= 2
  {
    hide Firsts;
    var n := |draws| - 1;
    if b < n { TwoFirsts(draws[..n], p, k, a, b); } else { AFirst(draws[..n], p, k, a); }
    FirstsSnoc(OnPlan(draws[..n], p, k), draws[n].before);
    assert OnPlan(draws[..n], p, k) + [] == OnPlan(draws[..n], p, k);
  }

  lemma {:induction false} AFirst(draws: seq<Draw>, p: nat, k: nat, a: nat)
    requires a < |draws| && Drew(draws[a], p, k) && draws[a].before == 0
    ensures Firsts(OnPlan(draws, p, k)) >= 1
  {
    hide Firsts;
    var n := |draws| - 1;
    if a < n { AFirst(draws[..n], p, k, a); }
    FirstsSnoc(OnPlan(draws[..n], p, k), draws[n].before);
    assert OnPlan(draws[..n], p, k) + [] == OnPlan(draws[..n], p, k);
  }

  /** Two racing first calls of a method that a rule owns can draw at tables of their
      own, and so both get ordinal 1. */
  lemma RacingCallsDrawAlike(f: Iface, w0: World) returns (moves: seq<Move>)
    requires Init(w0) && |w0.calls| == 2 && |f.methods| == 1 && Rows(w0.plans[0], f.name, f.methods)[0].Some?
    ensures OnPlan(Run(f, w0, moves).draws, 0, 0) == [0, 0]
  {
    hide Run, Published, Rows, SetOk;
    var first, w := BothBuild(f, w0);
    moves := first;
    moves, w := AndThen(f, w0, moves, w, Store(0));
    moves, w := AndThen(f, w0, moves, w, Store(1));
    moves, w := AndThen(f, w0, moves, w, Sample(0, 0));
    moves, w := AndThen(f, w0, moves, w, Sample(1, 0));
    assert w.draws == [Draw(0, 0, 0, 0), Draw(0, 1, 0, 0)];
    TwoDraws(w.draws);
  }

  lemma TwoDraws(draws: seq<Draw>)
    requires draws == [Draw(0, 0, 0, 0), Draw(0, 1, 0, 0)]
    ensures OnPlan(draws, 0, 0) == [0, 0]
  {
    var one := draws[..1];
    assert one == [Draw(0, 0, 0, 0)] && one[..0] == [];
    assert OnPlan(one, 0, 0) == [0];
  }

  lemma BothBuild(f: Iface, w0: World) returns (moves: seq<Move>, w: World)
    requires Init(w0) && |w0.calls| == 2 && |f.methods| == 1
    ensures w == Run(f, w0, moves) && w.plans == w0.plans && w.draws == []
    ensures w.calls == [Built(0, 0), Built(0, 1)] && |w.tables| == 2 && w.tables[0].seqs == [0] && w.tables[1].seqs == [0]
    ensures w.tables[0].rows == w.tables[1].rows == Rows(w.plans[0], f.name, f.methods)
  {
    hide Run, Published, Rows, SetOk;
    moves, w := [], w0;
    assert w == Run(f, w0, moves) by { NoMoves(f, w0); }
    assert w.calls == [Out, Out];
    moves, w := AndThen(f, w0, moves, w, Load(0));
    moves, w := AndThen(f, w0, moves, w, Load(1));
    moves, w := AndThen(f, w0, moves, w, Check(0));
    moves, w := AndThen(f, w0, moves, w, Check(1));
  }

  lemma NoMoves(f: Iface, w: World)
    ensures Run(f, w, []) == w
  {
  }

  lemma AndThen(f: Iface, w0: World, moves: seq<Move>, w: World, m: Move) returns (longer: seq<Move>, n: World)
    requires w == Run(f, w0, moves) && MoveOk(f, w, m) && Refers(w, m)
    ensures n == Step(f, w, m) == Run(f, w0, longer)
  {
    hide Step, Refers, Published, Rows, SetOk;
    longer, n := moves + [m], Step(f, w, m);
    assert longer[..|longer| - 1] == moves;
  }
}
