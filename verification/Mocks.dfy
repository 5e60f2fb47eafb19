/** A mock's call log and stubs. */
module Mocks {
  import opened Wrappers

  datatype Call = Call(code: nat, args: seq<int>)

  /** What a stub or a verification expects: a method, and which arguments match. */
  datatype Expect = Expect(code: nat, matches: seq<int> -> bool)

  predicate Meets(e: Expect, c: Call) { e.code == c.code && e.matches(c.args) }

  /** A computed answer runs caller code, which may panic. */
  datatype Does = Panics | Computes(panics: seq<int> -> bool) | Returns(groups: nat)

  datatype Stub = Stub(want: Expect, does: Does, consumed: nat)

  /** What a call that meets no stub comes down to: a spy runs its target. */
  datatype Kind = Mock | Spy(panics: Call -> bool)

  /** What a call comes down to. */
  datatype Answer = Panicked | Computed | Group(i: nat) | NoResults | Zeros | RanTarget

  /** Index of the last stub a call meets; later stubs win. */
  function LastStub(stubs: seq<Stub>, c: Call): (r: Option<nat>)
    ensures r.Some? ==> r.value < |stubs| && Meets(stubs[r.value].want, c)
    ensures r.Some? ==> forall j :: r.value < j < |stubs| ==> !Meets(stubs[j].want, c)
    ensures r.None? ==> forall j :: 0 <= j < |stubs| ==> !Meets(stubs[j].want, c)
  {
    if stubs == [] then None
    else if Meets(stubs[|stubs| - 1].want, c) then Some(|stubs| - 1)
    else LastStub(stubs[..|stubs| - 1], c)
  }

  /** What a stub does for a call: groups in order, the last one again and again. */
  function GivenBy(s: Stub, c: Call): Answer {
    match s.does
    case Panics => Panicked
    case Computes(panics) => if panics(c.args) then Panicked else Computed
    case Returns(n) => if n == 0 then NoResults else Group(if s.consumed < n then s.consumed else n - 1)
  }

  function Used(s: Stub): Stub {
    if s.does.Returns? && s.does.groups > 0 then s.(consumed := s.consumed + 1) else s
  }

  /** Stub `i` answered: by its panic, its function's result, no results, or the next of
      its groups while there is one and the last again after that, counting the groups
      handed out. */
  ghost predicate Answered(was: seq<Stub>, now: seq<Stub>, i: nat, c: Call, a: Answer)
    requires i < |was|
  {
    var s := was[i];
    && (s.does.Panics? ==> a == Panicked && now == was)
    && (s.does.Computes? ==> a == (if s.does.panics(c.args) then Panicked else Computed) && now == was)
    && (s.does.Returns? && s.does.groups == 0 ==> a == NoResults && now == was)
    && (s.does.Returns? && s.does.groups > 0 ==>
          && a.Group? && a.i < s.does.groups && (a.i == s.consumed || (a.i < s.consumed && a.i == s.does.groups - 1))
          && now == was[i := s.(consumed := s.consumed + 1)])
  }

  function AnswerOf(kind: Kind, stubs: seq<Stub>, c: Call): Answer {
    var i := LastStub(stubs, c);
    if i.Some? then GivenBy(stubs[i.value], c)
    else if kind.Mock? then Zeros
    else if kind.panics(c) then Panicked
    else RanTarget
  }

  /** No stub from `lo` on is for the method of the call with arguments that match. */
  ghost predicate Unstubbed(stubs: seq<Stub>, lo: nat, c: Call) {
    forall j :: lo <= j < |stubs| ==> !(stubs[j].want.code == c.code && stubs[j].want.matches(c.args))
  }

  /** Stub `i` is for the method of the call with arguments that match, and is the last. */
  ghost predicate LastFor(stubs: seq<Stub>, i: nat, c: Call) {
    i < |stubs| && stubs[i].want.code == c.code && stubs[i].want.matches(c.args) && Unstubbed(stubs, i + 1, c)
  }

  lemma AnswersAre(kind: Kind, stubs: seq<Stub>, c: Call)
    ensures Unstubbed(stubs, 0, c) ==>
              && StubsAfter(stubs, c) == stubs
              && AnswerOf(kind, stubs, c) == if kind.Mock? then Zeros else if kind.panics(c) then Panicked else RanTarget
    ensures forall i: nat :: LastFor(stubs, i, c) ==> Answered(stubs, StubsAfter(stubs, c), i, c, AnswerOf(kind, stubs, c))
  {
    var r := LastStub(stubs, c);
    forall i: nat | LastFor(stubs, i, c) ensures r == Some(i) {
      assert Meets(stubs[i].want, c);
      assert r.Some? && i <= r.value;
      assert Meets(stubs[r.value].want, c);
    }
  }

  function StubsAfter(stubs: seq<Stub>, c: Call): (r: seq<Stub>)
    ensures |r| == |stubs|
  {
    var i := LastStub(stubs, c);
    if i.Some? then stubs[i.value := Used(stubs[i.value])] else stubs
  }

  class State {
    var calls: seq<Call>
    var verified: seq<bool>
    var stubs: seq<Stub>
    const kind: Kind

    constructor (kind: Kind)
      ensures Valid() && calls == [] && stubs == [] && this.kind == kind
    {
      calls, verified, stubs := [], [], [];
      this.kind := kind;
    }

    predicate Valid()
      reads this
    {
      |verified| == |calls|
    }

    method AddStub(s: Stub)
      requires Valid()
      modifies this
      ensures Valid() && stubs == old(stubs) + [s] && calls == old(calls) && verified == old(verified)
    {
      stubs := stubs + [s];
    }

    /** The last stub for the method of the call whose arguments match. */
    method FindStub(c: Call) returns (r: Option<nat>)
      requires Valid()
      ensures r == LastStub(stubs, c)
      ensures r.Some? ==> r.value < |stubs| && stubs[r.value].want.code == c.code && stubs[r.value].want.matches(c.args)
      ensures forall j :: 0 <= j < |stubs| && (r.Some? ==> r.value < j) ==> !(stubs[j].want.code == c.code && stubs[j].want.matches(c.args))
    {
      var i := |stubs|;
      while i > 0
        invariant 0 <= i <= |stubs|
        invariant LastStub(stubs, c) == LastStub(stubs[..i], c)
      {
        i := i - 1;
        assert stubs[..i + 1][..i] == stubs[..i];
        if Meets(stubs[i].want, c) { return Some(i); }
      }
      assert stubs[..0] == [];
      return None;
    }

    /** Records the call, then answers from the last stub it meets; a mock without one
        gives zeros, a spy runs the target. */
    method Intercept(c: Call) returns (a: Answer)
      requires Valid()
      modifies this
      ensures Valid() && calls == old(calls) + [c] && verified == old(verified) + [false]
      ensures a == AnswerOf(kind, old(stubs), c) && stubs == StubsAfter(old(stubs), c)
      ensures Unstubbed(old(stubs), 0, c) ==>
                stubs == old(stubs) && a == if kind.Mock? then Zeros else if kind.panics(c) then Panicked else RanTarget
      ensures forall i: nat :: LastFor(old(stubs), i, c) ==> Answered(old(stubs), stubs, i, c, a)
    {
      hide LastStub, Unstubbed, Answered, Meets;
      AnswersAre(kind, stubs, c);
      calls := calls + [c];
      verified := verified + [false];
      var i := FindStub(c);
      if i.Some? {
        var s := stubs[i.value];
        match s.does {
          case Panics => return Panicked;
          case Computes(panics) => return if panics(c.args) then Panicked else Computed;
          case Returns(n) =>
            if n == 0 { return NoResults; }
            var g := s.consumed;
            if g >= n { g := n - 1; }
            stubs := stubs[i.value := s.(consumed := s.consumed + 1)];
            return Group(g);
        }
      }
      match kind
      case Mock => a := Zeros;
      case Spy(panics) => a := if panics(c) then Panicked else RanTarget;
    }

    /** Takes back the last recorded call. */
    method Rollback()
      requires Valid()
      modifies this
      ensures Valid() && stubs == old(stubs)
      ensures calls == if old(calls) == [] then [] else old(calls[..|calls| - 1])
      ensures verified == if old(calls) == [] then old(verified) else old(verified[..|verified| - 1])
    {
      var n := |calls|;
      if n > 0 {
        calls := calls[..n - 1];
        verified := verified[..n - 1];
      }
    }

    /** The call written inside Verify is made, then taken back. One that panics never
        gets to Verify, and stays in the log. */
    method Trigger(c: Call) returns (a: Answer)
      requires Valid()
      modifies this
      ensures Valid() && a == AnswerOf(kind, old(stubs), c) && stubs == StubsAfter(old(stubs), c)
      ensures calls == if a.Panicked? then old(calls) + [c] else old(calls)
      ensures verified == if a.Panicked? then old(verified) + [false] else old(verified)
    {
      a := Intercept(c);
      if a.Panicked? { return; }
      assert calls[..|calls| - 1] == old(calls) && verified[..|verified| - 1] == old(verified);
      Rollback();
    }
  }

  /** For instance a call that meets a ThenPanic stub: verifying it adds to the log. */
  method PanickingTriggerStays(e: Expect, c: Call) returns (log: seq<Call>)
    requires Meets(e, c)
    ensures log == [c]
  {
    var s := new State(Mock);
    s.AddStub(Stub(e, Does.Panics, 0));
    var a := s.Trigger(c);
    log := s.calls;
  }

  // ----- return groups -----

  /** The answers a mock or spy gives to calls one after the other. */
  function Answers(kind: Kind, stubs: seq<Stub>, calls: seq<Call>): (r: seq<Answer>)
    ensures |r| == |calls|
    decreases |calls|
  {
    if calls == [] then []
    else [AnswerOf(kind, stubs, calls[0])] + Answers(kind, StubsAfter(stubs, calls[0]), calls[1..])
  }

  function Repeated(c: Call, n: nat): seq<Call> { seq(n, _ => c) }

  /** Groups are handed out in order and the last one repeats. */
  lemma {:induction false} GroupsInOrder(kind: Kind, stubs: seq<Stub>, i: nat, c: Call, n: nat, k: nat)
    requires LastStub(stubs, c) == Some(i) && stubs[i].does.Returns? && stubs[i].does.groups > 0 && k < n
    ensures var last := stubs[i].does.groups - 1;
            Answers(kind, stubs, Repeated(c, n))[k] == Group(if stubs[i].consumed + k < last then stubs[i].consumed + k else last)
    decreases n
  {
    hide LastStub;
    assert Repeated(c, n)[1..] == Repeated(c, n - 1);
    if k > 0 {
      SameStubMet(stubs, StubsAfter(stubs, c), c);
      GroupsInOrder(kind, StubsAfter(stubs, c), i, c, n - 1, k - 1);
    }
  }

  /** Which stub a call meets depends on what the stubs want alone. */
  lemma {:induction false} SameStubMet(stubs: seq<Stub>, stubs': seq<Stub>, c: Call)
    requires |stubs| == |stubs'| && forall j :: 0 <= j < |stubs| ==> stubs[j].want == stubs'[j].want
    ensures LastStub(stubs, c) == LastStub(stubs', c)
  {
    if stubs != [] { SameStubMet(stubs[..|stubs| - 1], stubs'[..|stubs| - 1], c); }
  }

  // ----- methods apart -----

  /** The stubs for a method, in order. */
  function StubsOf(stubs: seq<Stub>, code: nat): seq<Stub> {
    if stubs == [] then []
    else
      var n := |stubs| - 1;
      StubsOf(stubs[..n], code) + if stubs[n].want.code == code then [stubs[n]] else []
  }

  function CallsOf(calls: seq<Call>, code: nat): seq<Call> {
    if calls == [] then [] else (if calls[0].code == code then [calls[0]] else []) + CallsOf(calls[1..], code)
  }

  /** What the calls of a method are answered, in order. */
  function AnswersOf(calls: seq<Call>, answers: seq<Answer>, code: nat): seq<Answer>
    requires |answers| == |calls|
  {
    if calls == [] then []
    else (if calls[0].code == code then [answers[0]] else []) + AnswersOf(calls[1..], answers[1..], code)
  }

  lemma StubsSnoc(stubs: seq<Stub>, s: Stub, code: nat)
    ensures StubsOf(stubs + [s], code) == StubsOf(stubs, code) + if s.want.code == code then [s] else []
  {
    assert (stubs + [s])[..|stubs|] == stubs;
  }

  /** The last stub answers if the call meets it. */
  lemma MetLast(kind: Kind, stubs: seq<Stub>, s: Stub, c: Call)
    requires Meets(s.want, c)
    ensures AnswerOf(kind, stubs + [s], c) == GivenBy(s, c) && StubsAfter(stubs + [s], c) == stubs + [Used(s)]
    ensures Used(s).want == s.want
  {
    hide GivenBy;
  }

  lemma SkippedLast(kind: Kind, stubs: seq<Stub>, s: Stub, c: Call)
    requires !Meets(s.want, c)
    ensures AnswerOf(kind, stubs + [s], c) == AnswerOf(kind, stubs, c) && StubsAfter(stubs + [s], c) == StubsAfter(stubs, c) + [s]
  {
    hide GivenBy;
    assert (stubs + [s])[..|stubs|] == stubs;
  }

  /** A call is answered by the stubs for its method as if there were no others. */
  lemma {:induction false} OwnStub(kind: Kind, stubs: seq<Stub>, c: Call)
    ensures AnswerOf(kind, stubs, c) == AnswerOf(kind, StubsOf(stubs, c.code), c)
    ensures StubsOf(StubsAfter(stubs, c), c.code) == StubsAfter(StubsOf(stubs, c.code), c)
  {
    if stubs != [] {
      var init, s := stubs[..|stubs| - 1], stubs[|stubs| - 1];
      assert stubs == init + [s];
      var own := StubsOf(init, c.code);
      OwnStub(kind, init, c);
      StubsSnoc(init, s, c.code);
      if Meets(s.want, c) {
        MetLast(kind, init, s, c);
        MetLast(kind, own, s, c);
        StubsSnoc(init, Used(s), c.code);
      } else {
        SkippedLast(kind, init, s, c);
        SkippedLast(kind, own, s, c);
        StubsSnoc(StubsAfter(init, c), s, c.code);
        hide AnswerOf, StubsAfter, StubsOf;
        if s.want.code != c.code { assert own + [] == own; }
      }
    }
  }

  /** The stubs for the other methods stay as they are. */
  lemma {:induction false} OtherStubs(kind: Kind, stubs: seq<Stub>, c: Call, code: nat)
    requires code != c.code
    ensures StubsOf(StubsAfter(stubs, c), code) == StubsOf(stubs, code)
  {
    if stubs != [] {
      var init, s := stubs[..|stubs| - 1], stubs[|stubs| - 1];
      assert stubs == init + [s];
      OtherStubs(kind, init, c, code);
      StubsSnoc(init, s, code);
      if Meets(s.want, c) {
        MetLast(kind, init, s, c);
        StubsSnoc(init, Used(s), code);
      } else {
        SkippedLast(kind, init, s, c);
        StubsSnoc(StubsAfter(init, c), s, code);
      }
    }
  }

  /** However the calls of several methods are mixed, those of one get the answers they
      would get alone, from the stubs for that method alone. */
  lemma {:induction false} MethodsApart(kind: Kind, stubs: seq<Stub>, calls: seq<Call>, code: nat)
    ensures AnswersOf(calls, Answers(kind, stubs, calls), code) == Answers(kind, StubsOf(stubs, code), CallsOf(calls, code))
    decreases |calls|
  {
    hide AnswerOf, StubsAfter, StubsOf;
    if calls != [] {
      var c := calls[0];
      var after := StubsAfter(stubs, c);
      MethodsApart(kind, after, calls[1..], code);
      var answers := Answers(kind, stubs, calls);
      assert answers[1..] == Answers(kind, after, calls[1..]) && answers[0] == AnswerOf(kind, stubs, c);
      assert [] + AnswersOf(calls[1..], answers[1..], code) == AnswersOf(calls[1..], answers[1..], code);
      if c.code == code {
        OwnStub(kind, stubs, c);
        assert CallsOf(calls, code)[1..] == CallsOf(calls[1..], code);
      } else {
        OtherStubs(kind, stubs, c, code);
        assert CallsOf(calls, code) == CallsOf(calls[1..], code);
      }
    }
  }

  /** Stubs that behave alike: equal, or both at their last group for good. */
  ghost predicate Alike(s: Stub, s': Stub) {
    && s.want == s'.want && s.does == s'.does
    && (s.consumed == s'.consumed || (AtLast(s) && AtLast(s')))
  }

  /** The stub has no other group left to hand out. */
  predicate AtLast(s: Stub) { s.does.Returns? ==> s.consumed + 1 >= s.does.groups }

  ghost predicate AllAlike(stubs: seq<Stub>, stubs': seq<Stub>) {
    |stubs| == |stubs'| && forall j :: 0 <= j < |stubs| ==> Alike(stubs[j], stubs'[j])
  }

  lemma AlikeStep(kind: Kind, stubs: seq<Stub>, stubs': seq<Stub>, c: Call)
    requires AllAlike(stubs, stubs')
    ensures AnswerOf(kind, stubs, c) == AnswerOf(kind, stubs', c) && AllAlike(StubsAfter(stubs, c), StubsAfter(stubs', c))
  {
    hide LastStub;
    SameStubMet(stubs, stubs', c);
    var i := LastStub(stubs, c);
    if i.Some? { assert Alike(stubs[i.value], stubs'[i.value]); }
  }

  /** The same answers to a list of calls. */
  predicate SameAnswers(kind: Kind, stubs: seq<Stub>, stubs': seq<Stub>, calls: seq<Call>) {
    Answers(kind, stubs, calls) == Answers(kind, stubs', calls)
  }

  lemma {:induction false} AlikeAnswers(kind: Kind, stubs: seq<Stub>, stubs': seq<Stub>, calls: seq<Call>)
    requires AllAlike(stubs, stubs')
    ensures SameAnswers(kind, stubs, stubs', calls)
    decreases |calls|
  {
    hide AnswerOf, StubsAfter, AllAlike;
    if calls != [] {
      AlikeStep(kind, stubs, stubs', calls[0]);
      AlikeAnswers(kind, StubsAfter(stubs, calls[0]), StubsAfter(stubs', calls[0]), calls[1..]);
    }
  }

  /** The call's stub, if it meets one, has no other group left to hand out. */
  predicate UsesNothing(stubs: seq<Stub>, c: Call) {
    LastStub(stubs, c).Some? ==> AtLast(stubs[LastStub(stubs, c).value])
  }

  /** A call inside Verify leaves all later answers as they were, whatever calls
      follow, iff the stub it meets has no other group left to hand out. */
  lemma TriggerUnnoticedIff(kind: Kind, stubs: seq<Stub>, c: Call)
    ensures (forall calls :: SameAnswers(kind, StubsAfter(stubs, c), stubs, calls)) <==> UsesNothing(stubs, c)
  {
    hide LastStub;
    var after := StubsAfter(stubs, c);
    if UsesNothing(stubs, c) {
      forall calls ensures SameAnswers(kind, after, stubs, calls) { AlikeAnswers(kind, after, stubs, calls); }
    } else {
      SameStubMet(stubs, after, c);
      var once := [c];
      assert Answers(kind, after, once)[0] == AnswerOf(kind, after, c) != AnswerOf(kind, stubs, c) == Answers(kind, stubs, once)[0];
      assert !SameAnswers(kind, after, stubs, once);
    }
  }
}
