/** What a rule's actions do to a call, one by one and flattened. */
module ChaosActions {
  import opened Wrappers
  import opened ChaosRules

  const W63 := 0x8000_0000_0000_0000
  const W64 := 0x1_0000_0000_0000_0000

  /** int64 addition wraps around. */
  function ToInt64(x: int): (r: int)
    ensures IsInt64(r) && (r - x) % W64 == 0
  {
    (x + W63) % W64 - W63
  }

  predicate IsInt64(x: int) { -W63 <= x < W63 }

  /** A duration is an int64. */
  ghost predicate Durations(actions: seq<Action>) {
    forall i :: 0 <= i < |actions| ==> IsInt64(actions[i].latency)
  }

  /** The action list in one record: delays summed up, and the deciding action. */
  datatype Flat = Flat(latency: int, err: Option<int>, panic: Option<PanicValue>)

  /** The record after one more action. */
  function Add(f: Flat, a: Action): Flat {
    if a.latency > 0 then f.(latency := ToInt64(f.latency + a.latency))
    else if a.err.Some? then f.(err := a.err)
    else if AsksPanic(a) then f.(panic := Some(a.panic))
    else f
  }

  function Flattened(actions: seq<Action>): Flat {
    if actions == [] then Flat(0, None, None) else Add(Flattened(actions[..|actions| - 1]), actions[|actions| - 1])
  }

  method Flatten(actions: seq<Action>) returns (f: Flat)
    ensures f == Flattened(actions)
  {
    f := Flat(0, None, None);
    var i := 0;
    while i < |actions|
      invariant 0 <= i <= |actions| && f == Flattened(actions[..i])
    {
      var a := actions[i];
      assert actions[..i + 1][..i] == actions[..i];
      if a.latency > 0 {
        f := f.(latency := ToInt64(f.latency + a.latency));
      } else if a.err.Some? {
        f := f.(err := a.err);
      } else if AsksPanic(a) {
        f := f.(panic := Some(a.panic));
      }
      i := i + 1;
    }
    assert actions[..i] == actions;
  }

  // ----- meanings -----

  datatype Ending = Proceeds | Fails(err: int) | PanicsWith(v: PanicValue)

  /** How long the call was held, and how it went on. */
  datatype Effect = Effect(waited: nat, ending: Ending)

  /** A wait of `d` when the call's context ends in `left`, if it has one. */
  function Wait(d: int, left: Option<nat>): (w: nat)
    ensures d <= 0 ==> w == 0
    ensures d > 0 ==> w <= d && (left.Some? ==> w <= left.value) && (w == d || left == Some(w))
  {
    if d <= 0 then 0 else if left.Some? && left.value < d then left.value else d
  }

  function Left(left: Option<nat>, waited: nat): Option<nat>
    requires left.Some? ==> waited <= left.value
  {
    if left.Some? then Some(left.value - waited) else None
  }

  /** The actions one after the other, each as documented: a delay holds the call or
      until its context ends, an error needs an error result to be set. */
  function OneByOne(actions: seq<Action>, left: Option<nat>, errResult: bool): Effect {
    if actions == [] then Effect(0, Proceeds)
    else
      var a := actions[0];
      if a.latency > 0 then
        var w := Wait(a.latency, left);
        var rest := OneByOne(actions[1..], Left(left, w), errResult);
        Effect(w + rest.waited, rest.ending)
      else if AsksPanic(a) then Effect(0, PanicsWith(a.panic))
      else if a.err.Some? && errResult then Effect(0, Fails(a.err.value))
      else OneByOne(actions[1..], left, errResult)
  }

  /** What the interceptor does with the record. */
  function Apply(f: Flat, left: Option<nat>, errResult: bool): Effect {
    Effect(Wait(f.latency, left),
           if f.panic.Some? then PanicsWith(f.panic.value)
           else if f.err.Some? && errResult then Fails(f.err.value)
           else Proceeds)
  }

  function Total(actions: seq<Action>): int {
    if actions == [] then 0 else Total(actions[..|actions| - 1]) + actions[|actions| - 1].latency
  }

  ghost predicate ListOk(actions: seq<Action>) {
    && (forall i :: 0 <= i < |actions| ==> ActionOk(actions[i]))
    && (forall i :: 0 <= i < |actions| - 1 ==> !Terminal(actions[i]))
  }

  /** The record does what the actions do. */
  predicate SameEffect(actions: seq<Action>, left: Option<nat>, errResult: bool) {
    Apply(Flattened(actions), left, errResult) == OneByOne(actions, left, errResult)
  }

  /** Compilation keeps the meaning of a rule's actions, whatever the context and
      the method, iff its delays fit an int64 together. */
  lemma MeaningKeptIff(actions: seq<Action>)
    requires ListOk(actions) && Durations(actions)
    ensures (forall left: Option<nat>, e: bool :: SameEffect(actions, left, e)) <==> Total(actions) < W63
  {
    hide OneByOne, Flattened, Total, ToInt64, Wait, ListOk;
    TotalPositive(actions);
    assert Flattened(actions).latency == ToInt64(Total(actions)) by { FlatLatency(actions); }
    forall left: Option<nat>, e: bool
      ensures OneByOne(actions, left, e) == Effect(Wait(Total(actions), left), Apply(Flattened(actions), left, e).ending)
    {
      OneByOneIs(actions, left, e);
    }
    Wrapped(Total(actions));
    if Total(actions) < W63 {
      forall left: Option<nat>, e: bool ensures SameEffect(actions, left, e) {}
    } else {
      assert !SameEffect(actions, None, false);
    }
  }

  /** A sum past the int64 range comes out smaller. */
  lemma Wrapped(x: int)
    requires x >= 0
    ensures x < W63 ==> ToInt64(x) == x
    ensures x >= W63 ==> Wait(ToInt64(x), None) != Wait(x, None)
  {
  }

  lemma {:induction false} TotalPositive(actions: seq<Action>)
    requires ListOk(actions)
    ensures Total(actions) >= 0
  {
    if actions != [] {
      ListOkPrefix(actions);
      TotalPositive(actions[..|actions| - 1]);
      assert ActionOk(actions[|actions| - 1]);
    }
  }

  lemma ListOkPrefix(actions: seq<Action>)
    requires ListOk(actions) && actions != []
    ensures ListOk(actions[..|actions| - 1]) && forall i :: 0 <= i < |actions| - 1 ==> actions[i].latency > 0
  {
    var p := actions[..|actions| - 1];
    forall i | 0 <= i < |p| ensures ActionOk(p[i]) && !Terminal(p[i]) && actions[i].latency > 0 {
      assert p[i] == actions[i] && ActionOk(actions[i]);
    }
  }

  lemma ToInt64Adds(x: int, y: int)
    ensures ToInt64(ToInt64(x) + y) == ToInt64(x + y)
  {
  }

  lemma {:induction false} FlatLatency(actions: seq<Action>)
    requires ListOk(actions)
    ensures Flattened(actions).latency == ToInt64(Total(actions))
  {
    hide ToInt64;
    if actions == [] {
      assert ToInt64(0) == 0 by { Wrapped(0); }
    } else {
      var p, a := actions[..|actions| - 1], actions[|actions| - 1];
      ListOkPrefix(actions);
      FlatLatency(p);
      assert ActionOk(a);
      ToInt64Adds(Total(p), a.latency);
      if a.latency == 0 { assert Add(Flattened(p), a).latency == Flattened(p).latency; }
    }
  }

  /** All delays but the last action, then that action. */
  lemma {:induction false} Delays(actions: seq<Action>, n: nat, left: Option<nat>, e: bool)
    requires n <= |actions| && forall i :: 0 <= i < n ==> actions[i].latency > 0
    ensures Total(actions[..n]) >= 0
    ensures var w := Wait(Total(actions[..n]), left);
            (left.Some? ==> w <= left.value)
            && OneByOne(actions, left, e) ==
               Effect(w + OneByOne(actions[n..], Left(left, w), e).waited, OneByOne(actions[n..], Left(left, w), e).ending)
    decreases n
  {
    if n == 0 {
      assert actions[..0] == [] && actions[0..] == actions;
    } else {
      var m := n - 1;
      Delays(actions, m, left, e);
      assert actions[..n][..m] == actions[..m];
      assert actions[m..][0] == actions[m] && actions[m..][1..] == actions[n..];
    }
  }

  lemma OneByOneIs(actions: seq<Action>, left: Option<nat>, e: bool)
    requires ListOk(actions)
    ensures OneByOne(actions, left, e) == Effect(Wait(Total(actions), left), Apply(Flattened(actions), left, e).ending)
  {
    hide Flattened, Total, OneByOne, ToInt64, Add;
    if actions == [] {
      Nothing(left, e);
    } else {
      var n := |actions| - 1;
      var a := actions[n];
      ListOkPrefix(actions);
      Delays(actions, n, left, e);
      NoEnding(actions[..n]);
      assert actions[n..] == [a];
      var w := Wait(Total(actions[..n]), left);
      LastAction(Flattened(actions[..n]), a, Left(left, w), e);
      LastIs(actions);
    }
  }

  lemma LastIs(actions: seq<Action>)
    requires actions != []
    ensures var n := |actions| - 1;
            Total(actions) == Total(actions[..n]) + actions[n].latency && Flattened(actions) == Add(Flattened(actions[..n]), actions[n])
  {
  }

  lemma Nothing(left: Option<nat>, e: bool)
    ensures Total([]) == 0 && Flattened([]) == Flat(0, None, None) && OneByOne([], left, e) == Effect(0, Proceeds)
  {
  }

  lemma LastAction(f: Flat, a: Action, left: Option<nat>, e: bool)
    requires ActionOk(a) && f.err.None? && f.panic.None?
    ensures OneByOne([a], left, e) == Effect(Wait(a.latency, left), Apply(Add(f, a), left, e).ending)
  {
    assert [a][1..] == [];
  }

  /** Delays decide nothing. */
  lemma {:induction false} NoEnding(actions: seq<Action>)
    requires forall i :: 0 <= i < |actions| ==> actions[i].latency > 0
    ensures Flattened(actions).err.None? && Flattened(actions).panic.None?
  {
    if actions != [] { NoEnding(actions[..|actions| - 1]); }
  }

  /** A list that goes wrong: two delays of 2^62 nanoseconds make no delay at all. */
  lemma TwoHugeDelays()
    ensures var d := Action(0x4000_0000_0000_0000, None, NoPanic);
            ListOk([d, d]) && Durations([d, d]) && Apply(Flattened([d, d]), None, true).waited == 0
            && OneByOne([d, d], None, true).waited == W63
  {
    var d := Action(0x4000_0000_0000_0000, None, NoPanic);
    assert [d, d][..1] == [d] && [d][..0] == [];
    assert Total([d]) == d.latency && Total([d, d]) == W63;
    hide Flattened, OneByOne;
    FlatLatency([d, d]);
    OneByOneIs([d, d], None, true);
  }
}
