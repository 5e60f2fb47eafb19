/** Checking the order of calls: a cursor over the log and a greedy scan. */
module InOrder {
  import opened Wrappers
  import opened Mocks

  /** The calls of the method expected, with arguments that match, in `log[from..hi]`. */
  ghost function Matching(log: seq<Call>, e: Expect, from: nat, hi: nat): set<nat>
    requires from <= hi <= |log|
  {
    set i: nat | from <= i < hi && log[i].code == e.code && e.matches(log[i].args)
  }

  /** How many calls in `log[from..hi]` meet the expectation. */
  function Count(log: seq<Call>, e: Expect, from: nat, hi: nat): nat
    requires from <= hi <= |log|
  {
    if from == hi then 0 else Count(log, e, from, hi - 1) + if Meets(e, log[hi - 1]) then 1 else 0
  }

  lemma {:induction false} CountIs(log: seq<Call>, e: Expect, from: nat, hi: nat)
    requires from <= hi <= |log|
    ensures Count(log, e, from, hi) == |Matching(log, e, from, hi)|
    decreases hi
  {
    if from < hi {
      CountIs(log, e, from, hi - 1);
      var last := if Meets(e, log[hi - 1]) then {hi - 1} else {};
      assert Matching(log, e, from, hi) == Matching(log, e, from, hi - 1) + last;
    }
  }

  /** `end` is where the n'th match from `pos` ends. */
  predicate EndsAt(log: seq<Call>, e: Expect, pos: nat, n: nat, end: nat) {
    pos < end <= |log| && Meets(e, log[end - 1]) && Count(log, e, pos, end) == n
  }

  class Cursor {
    var pos: nat

    constructor ()
      ensures pos == 0
    {
      pos := 0;
    }

    /** Looks for `n` matching calls from the cursor and moves past the n'th. False
        stands for the panic. */
    method Times(log: seq<Call>, e: Expect, n: int) returns (ok: bool)
      requires pos <= |log|
      modifies this
      ensures pos <= |log|
      ensures ok <==> n >= 0 && Enough(log, e, old(pos), n)
      ensures ok <==> n >= 0 && if n == 0 then Matching(log, e, old(pos), |log|) == {} else |Matching(log, e, old(pos), |log|)| >= n
      ensures ok && n > 0 ==> EndsAt(log, e, old(pos), n, pos)
      ensures ok && n > 0 ==>
                old(pos) < pos && pos - 1 in Matching(log, e, old(pos), pos) && |Matching(log, e, old(pos), pos)| == n
      ensures !ok || n == 0 ==> pos == old(pos)
    {
      hide Matching;
      var count, last := 0, -1;
      var i := pos;
      while i < |log|
        invariant pos <= i <= |log| && count == Count(log, e, pos, i) && (n >= 1 ==> count < n)
        invariant count == 0 <==> last == -1
        invariant last == -1 || (pos <= last < i && Meets(e, log[last]) && Count(log, e, pos, last + 1) == count)
      {
        var c := log[i];
        i := i + 1;
        if Meets(e, c) {
          count := count + 1;
          last := i - 1;
          if count == n { break; }
        }
      }
      CountGrows(log, e, pos, i, |log|);
      CountIs(log, e, pos, |log|);
      if count != n { return false; }
      if last >= 0 {
        CountIs(log, e, pos, last + 1);
        IsMatch(log, e, pos, last);
        pos := last + 1;
      }
      return true;
    }
  }

  /** What success asks for: none to be left when none are wanted, else at least so
      many, although the message speaks of exactly. */
  predicate Enough(log: seq<Call>, e: Expect, pos: nat, n: nat)
    requires pos <= |log|
  {
    if n == 0 then Count(log, e, pos, |log|) == 0 else Count(log, e, pos, |log|) >= n
  }

  lemma IsMatch(log: seq<Call>, e: Expect, from: nat, i: nat)
    requires from <= i < |log| && Meets(e, log[i])
    ensures i in Matching(log, e, from, i + 1)
  {
  }

  lemma {:induction false} CountGrows(log: seq<Call>, e: Expect, from: nat, mid: nat, hi: nat)
    requires from <= mid <= hi <= |log|
    ensures Count(log, e, from, mid) <= Count(log, e, from, hi)
    ensures Count(log, e, from, hi) == Count(log, e, from, mid) + Count(log, e, mid, hi)
    decreases hi
  {
    if mid < hi { CountGrows(log, e, from, mid, hi - 1); }
  }

  // ----- one match at a time -----

  /** The position after the first match from `pos`. */
  function FirstEnd(log: seq<Call>, e: Expect, pos: nat): (r: Option<nat>)
    requires pos <= |log|
    ensures r.Some? ==> pos < r.value <= |log| && Meets(e, log[r.value - 1])
    ensures r.Some? ==> forall i :: pos <= i < r.value - 1 ==> !Meets(e, log[i])
    ensures r.None? ==> forall i :: pos <= i < |log| ==> !Meets(e, log[i])
    decreases |log| - pos
  {
    if pos == |log| then None
    else if Meets(e, log[pos]) then Some(pos + 1)
    else FirstEnd(log, e, pos + 1)
  }

  /** The cursor after a list of single expectations, each taken at its first match. */
  function Greedy(log: seq<Call>, es: seq<Expect>, pos: nat): (r: Option<nat>)
    requires pos <= |log|
    ensures r.Some? ==> pos <= r.value <= |log|
  {
    if es == [] then Some(pos)
    else
      var p := FirstEnd(log, es[0], pos);
      if p.None? then None else Greedy(log, es[1..], p.value)
  }

  // ----- greedy matching is complete -----

  /** Calls in the log, in order from `pos`, one for each expectation: of its method and
      with arguments that match. */
  ghost predicate Embeds(log: seq<Call>, es: seq<Expect>, pos: nat, at: seq<nat>) {
    && |at| == |es|
    && (forall k :: 0 <= k < |at| ==>
          pos <= at[k] < |log| && log[at[k]].code == es[k].code && es[k].matches(log[at[k]].args))
    && (forall j, k :: 0 <= j < k < |at| ==> at[j] < at[k])
  }

  /** Where an embedding ends. */
  function EndOf(at: seq<nat>, pos: nat): nat { if at == [] then pos else at[|at| - 1] + 1 }

  /** Whenever some embedding exists, the greedy one exists and ends no later. */
  lemma {:induction false} GreedyLeast(log: seq<Call>, es: seq<Expect>, pos: nat, at: seq<nat>)
    requires pos <= |log| && Embeds(log, es, pos, at)
    ensures Greedy(log, es, pos).Some? && Greedy(log, es, pos).value <= EndOf(at, pos)
    decreases |es|
  {
    if es != [] {
      assert Meets(es[0], log[at[0]]);
      var p := FirstEnd(log, es[0], pos).value;
      assert p <= at[0] + 1;
      var later, es' := at[1..], es[1..];
      forall k | 0 <= k < |later|
        ensures p <= later[k] < |log| && log[later[k]].code == es'[k].code && es'[k].matches(log[later[k]].args)
      {
        assert later[k] == at[k + 1] && es'[k] == es[k + 1] && at[0] < at[k + 1];
      }
      GreedyLeast(log, es[1..], p, at[1..]);
    }
  }

  /** And greedy success is an embedding that ends at the cursor. */
  lemma {:induction false} GreedyEmbeds(log: seq<Call>, es: seq<Expect>, pos: nat) returns (at: seq<nat>)
    requires pos <= |log| && Greedy(log, es, pos).Some?
    ensures Embeds(log, es, pos, at) && EndOf(at, pos) == Greedy(log, es, pos).value
    decreases |es|
  {
    at := [];
    if es != [] {
      var p := FirstEnd(log, es[0], pos).value;
      var rest := GreedyEmbeds(log, es[1..], p);
      at := [p - 1] + rest;
      assert at[1..] == rest;
      forall k | 0 <= k < |at| ensures pos <= at[k] < |log| && log[at[k]].code == es[k].code && es[k].matches(log[at[k]].args) {
        if k > 0 { assert at[k] == rest[k - 1] && es[k] == es[1..][k - 1]; }
      }
      forall j, k | 0 <= j < k < |at| ensures at[j] < at[k] {
        assert at[k] == rest[k - 1];
        if j > 0 { assert at[j] == rest[j - 1]; }
      }
    }
  }

  // ----- a sequence of Times -----

  datatype Want = Want(e: Expect, n: int)

  function Repeat(e: Expect, n: nat): seq<Expect> {
    if n == 0 then [] else [e] + Repeat(e, n - 1)
  }

  /** Every requirement as that many single ones. */
  function Singles(ws: seq<Want>): seq<Expect> {
    if ws == [] then [] else Repeat(ws[0].e, if ws[0].n < 0 then 0 else ws[0].n) + Singles(ws[1..])
  }

  lemma {:induction false} GreedySplit(log: seq<Call>, a: seq<Expect>, b: seq<Expect>, pos: nat)
    requires pos <= |log|
    ensures Greedy(log, a + b, pos) ==
            if Greedy(log, a, pos).None? then None else Greedy(log, b, Greedy(log, a, pos).value)
    decreases |a|
  {
    if a == [] {
      assert a + b == b;
    } else {
      assert (a + b)[1..] == a[1..] + b;
      var p := FirstEnd(log, a[0], pos);
      if p.Some? { GreedySplit(log, a[1..], b, p.value); }
    }
  }

  /** Nothing counts where nothing matches. */
  lemma {:induction false} CountNone(log: seq<Call>, e: Expect, from: nat, hi: nat)
    requires from <= hi <= |log| && forall i :: from <= i < hi ==> !Meets(e, log[i])
    ensures Count(log, e, from, hi) == 0
    decreases hi
  {
    if from < hi { CountNone(log, e, from, hi - 1); }
  }

  /** `n` first matches in a row reach the n'th match, if there is one. */
  lemma {:induction false} GreedyRepeat(log: seq<Call>, e: Expect, pos: nat, n: nat)
    requires pos <= |log| && n >= 1
    ensures Greedy(log, Repeat(e, n), pos).Some? <==> Count(log, e, pos, |log|) >= n
    ensures Greedy(log, Repeat(e, n), pos).Some? ==> EndsAt(log, e, pos, n, Greedy(log, Repeat(e, n), pos).value)
    decreases n
  {
    hide Meets;
    var p := FirstEnd(log, e, pos);
    assert Repeat(e, n)[1..] == Repeat(e, n - 1);
    if p.None? {
      CountNone(log, e, pos, |log|);
    } else {
      CountNone(log, e, pos, p.value - 1);
      CountGrows(log, e, pos, p.value, |log|);
      if n > 1 {
        GreedyRepeat(log, e, p.value, n - 1);
        var r := Greedy(log, Repeat(e, n - 1), p.value);
        if r.Some? { CountGrows(log, e, pos, p.value, r.value); }
      }
    }
  }

  /** The n'th match ends in one place only. */
  lemma EndUnique(log: seq<Call>, e: Expect, pos: nat, n: nat, a: nat, b: nat)
    requires EndsAt(log, e, pos, n, a) && EndsAt(log, e, pos, n, b)
    ensures a == b
  {
    hide Meets;
    if a < b { CountGrows(log, e, pos, a, b - 1); }
    if b < a { CountGrows(log, e, pos, b, a - 1); }
  }

  /** One Times is that many greedy steps. */
  lemma TimesStep(log: seq<Call>, e: Expect, was: nat, n: nat, rest: seq<Expect>, done: bool, pos: nat)
    requires was <= |log| && n >= 1 && (done <==> Enough(log, e, was, n)) && (done ==> EndsAt(log, e, was, n, pos))
    ensures Greedy(log, Repeat(e, n) + rest, was) == if done then Greedy(log, rest, pos) else None
  {
    hide Meets, Greedy, Repeat;
    GreedyRepeat(log, e, was, n);
    GreedySplit(log, Repeat(e, n), rest, was);
    if done { EndUnique(log, e, was, n, pos, Greedy(log, Repeat(e, n), was).value); }
  }

  /** The requirements one after the other, each on the cursor the last one left. */
  method Verify(log: seq<Call>, ws: seq<Want>) returns (ok: bool, pos: nat)
    requires forall k :: 0 <= k < |ws| ==> ws[k].n >= 1
    ensures ok <==> exists at :: Embeds(log, Singles(ws), 0, at)
    ensures ok <==> InTurn(log, ws, 0)
    ensures ok ==> pos <= |log| && Greedy(log, Singles(ws), 0) == Some(pos)
    ensures ok ==> forall at :: Embeds(log, Singles(ws), 0, at) ==> pos <= EndOf(at, 0)
  {
    hide Embeds, Meets, InTurn;
    InTurnIff(log, ws, 0);
    var cursor := new Cursor();
    var i := 0;
    assert ws[0..] == ws;
    while i < |ws|
      invariant 0 <= i <= |ws| && cursor.pos <= |log| && fresh(cursor)
      invariant Greedy(log, Singles(ws), 0) == Greedy(log, Singles(ws[i..]), cursor.pos)
    {
      ghost var was := cursor.pos;
      assert ws[i..][1..] == ws[i + 1..];
      var done := cursor.Times(log, ws[i].e, ws[i].n);
      TimesStep(log, ws[i].e, was, ws[i].n, Singles(ws[i + 1..]), done, cursor.pos);
      if !done {
        Complete(log, Singles(ws));
        return false, 0;
      }
      i := i + 1;
    }
    Complete(log, Singles(ws));
    return true, cursor.pos;
  }

  lemma Complete(log: seq<Call>, es: seq<Expect>)
    ensures Greedy(log, es, 0).Some? <==> exists at :: Embeds(log, es, 0, at)
    ensures Greedy(log, es, 0).Some? ==> forall at :: Embeds(log, es, 0, at) ==> Greedy(log, es, 0).value <= EndOf(at, 0)
  {
    hide Embeds;
    if Greedy(log, es, 0).Some? { var at := GreedyEmbeds(log, es, 0); }
    forall at | Embeds(log, es, 0, at) ensures Greedy(log, es, 0).Some? && Greedy(log, es, 0).value <= EndOf(at, 0) {
      GreedyLeast(log, es, 0, at);
    }
  }

  // ----- what success means, requirement by requirement -----

  /** The log splits into stretches, one for each requirement in turn, each with at least
      as many matching calls as are wanted. */
  ghost predicate InTurn(log: seq<Call>, ws: seq<Want>, pos: nat)
    requires pos <= |log|
    decreases |ws|
  {
    ws != [] ==> exists mid: nat :: pos <= mid <= |log| && |Matching(log, ws[0].e, pos, mid)| >= ws[0].n && InTurn(log, ws[1..], mid)
  }

  /** Starting earlier loses nothing. */
  lemma GreedyEarlier(log: seq<Call>, es: seq<Expect>, p: nat, q: nat)
    requires p <= q <= |log| && Greedy(log, es, q).Some?
    ensures Greedy(log, es, p).Some?
  {
    var at := GreedyEmbeds(log, es, q);
    assert Embeds(log, es, p, at);
    GreedyLeast(log, es, p, at);
  }

  lemma {:induction false} InTurnIff(log: seq<Call>, ws: seq<Want>, pos: nat)
    requires pos <= |log| && forall k :: 0 <= k < |ws| ==> ws[k].n >= 1
    ensures Greedy(log, Singles(ws), pos).Some? <==> InTurn(log, ws, pos)
    decreases |ws|
  {
    hide Matching, Embeds, Meets, Greedy;
    if ws == [] {
      NoSingles(log, pos);
    } else {
      var e, n, rest := ws[0].e, ws[0].n, Singles(ws[1..]);
      GreedyRepeat(log, e, pos, n);
      GreedySplit(log, Repeat(e, n), rest, pos);
      if Greedy(log, Singles(ws), pos).Some? {
        var mid := Greedy(log, Repeat(e, n), pos).value;
        CountIs(log, e, pos, mid);
        InTurnIff(log, ws[1..], mid);
        assert |Matching(log, ws[0].e, pos, mid)| >= ws[0].n;
      }
      if InTurn(log, ws, pos) {
        var mid: nat :| pos <= mid <= |log| && |Matching(log, e, pos, mid)| >= n && InTurn(log, ws[1..], mid);
        InTurnIff(log, ws[1..], mid);
        CountIs(log, e, pos, mid);
        CountGrows(log, e, pos, mid, |log|);
        var end := Greedy(log, Repeat(e, n), pos).value;
        if mid < end { CountGrows(log, e, pos, mid, end - 1); }
        GreedyEarlier(log, rest, end, mid);
      }
    }
  }

  lemma NoSingles(log: seq<Call>, pos: nat)
    requires pos <= |log|
    ensures Greedy(log, Singles([]), pos) == Some(pos)
  {
  }

  // ----- calls that do not matter -----

  /** The requirements name the method. */
  predicate NamesCode(ws: seq<Want>, code: nat) {
    exists k :: 0 <= k < |ws| && ws[k].e.code == code
  }

  /** The calls of methods the requirements name. */
  function Named(log: seq<Call>, ws: seq<Want>): seq<Call> {
    if log == [] then [] else (if NamesCode(ws, log[0].code) then [log[0]] else []) + Named(log[1..], ws)
  }

  /** Greedy success, call by call. */
  predicate Finds(log: seq<Call>, es: seq<Expect>)
    decreases |log|
  {
    es == [] || (log != [] && Finds(log[1..], if Meets(es[0], log[0]) then es[1..] else es))
  }

  lemma {:induction false} FindsIff(log: seq<Call>, es: seq<Expect>, pos: nat)
    requires pos <= |log|
    ensures Finds(log[pos..], es) <==> Greedy(log, es, pos).Some?
    decreases |log| - pos
  {
    hide Meets;
    if es != [] && pos < |log| {
      var rest := log[pos..];
      assert rest[0] == log[pos] && rest[1..] == log[pos + 1..];
      FindsIff(log, if Meets(es[0], log[pos]) then es[1..] else es, pos + 1);
    }
  }

  lemma {:induction false} NamedFinds(log: seq<Call>, es: seq<Expect>, ws: seq<Want>)
    requires forall k :: 0 <= k < |es| ==> NamesCode(ws, es[k].code)
    ensures Finds(Named(log, ws), es) <==> Finds(log, es)
    decreases |log|
  {
    hide NamesCode;
    if es != [] && log != [] {
      var named := Named(log, ws);
      if NamesCode(ws, log[0].code) {
        assert named[0] == log[0] && named[1..] == Named(log[1..], ws);
        NamedFinds(log[1..], if Meets(es[0], log[0]) then es[1..] else es, ws);
      } else {
        assert named == Named(log[1..], ws) && !Meets(es[0], log[0]);
        NamedFinds(log[1..], es, ws);
      }
    }
  }

  lemma {:induction false} SinglesNamed(ws: seq<Want>, all: seq<Want>)
    requires forall k :: 0 <= k < |ws| ==> NamesCode(all, ws[k].e.code)
    ensures forall k :: 0 <= k < |Singles(ws)| ==> NamesCode(all, Singles(ws)[k].code)
    decreases |ws|
  {
    hide NamesCode;
    if ws != [] {
      SinglesNamed(ws[1..], all);
      RepeatAll(ws[0].e, if ws[0].n < 0 then 0 else ws[0].n);
    }
  }

  lemma {:induction false} RepeatAll(e: Expect, n: nat)
    ensures forall k :: 0 <= k < |Repeat(e, n)| ==> Repeat(e, n)[k] == e
  {
    if n != 0 { RepeatAll(e, n - 1); }
  }

  /** Whether the calls came in the order required does not depend on calls of methods that
      no requirement names: logs that agree on the others succeed alike. */
  lemma OtherCallsIgnored(log: seq<Call>, log': seq<Call>, ws: seq<Want>)
    requires Named(log, ws) == Named(log', ws)
    ensures (exists at :: Embeds(log, Singles(ws), 0, at)) <==> (exists at :: Embeds(log', Singles(ws), 0, at))
  {
    hide Embeds, Greedy, Meets;
    var es := Singles(ws);
    forall k | 0 <= k < |ws| ensures NamesCode(ws, ws[k].e.code) {}
    SinglesNamed(ws, ws);
    NamedFinds(log, es, ws);
    NamedFinds(log', es, ws);
    assert log[0..] == log && log'[0..] == log';
    FindsIff(log, es, 0);
    FindsIff(log', es, 0);
    Complete(log, es);
    Complete(log', es);
  }
}
