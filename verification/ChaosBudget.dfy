/** The counters calls share: threads call any methods of any interfaces one rule
    covers, in any interleaving of the interceptor's atomic steps. The fault count is
    the rule's; every method of every table resolved has an ordinal counter of its own. */
module ChaosBudget {
  import opened Bits
  import opened ChaosSampler

  /** A method of a resolved table. */
  datatype Counter = Counter(table: nat, meth: nat)

  /** Where a thread is: between calls, past the budget check, or sampled and about
      to be counted. */
  datatype Pc = Idle | Admitted(at: Counter) | Picked

  datatype Draw = Draw(at: Counter, ordinal: nat)

  /** `drawn` lists the ordinals handed out, `faults` counts the calls faulted. */
  datatype State = State(budget: nat, seqs: map<Counter, nat>, pcs: seq<Pc>, drawn: seq<Draw>, faults: nat)

  datatype Rule = Rule(maxCount: nat, rate: real)

  /** One atomic step of a thread. A call starts at the counter of its method; `active`
      is what the clock says of the window. */
  datatype Move = Move(thread: nat, active: bool, at: Counter)

  function Start(threads: nat): State { State(0, map[], seq(threads, _ => Idle), [], 0) }

  /** Counters start at zero. */
  function SeqOf(s: State, c: Counter): nat { if c in s.seqs then s.seqs[c] else 0 }

  /** atomic.AddUint64 gives the counter after the addition, modulo 2^64. */
  function Ordinal(seqNo: nat): nat { (seqNo + 1) % W64 }

  function Step(r: Rule, s: State, m: Move): (n: State)
    requires m.thread < |s.pcs|
    ensures |n.pcs| == |s.pcs|
  {
    var t := m.thread;
    match s.pcs[t]
    case Idle =>
      if !m.active || (r.maxCount > 0 && s.budget >= r.maxCount) then s else s.(pcs := s.pcs[t := Admitted(m.at)])
    case Admitted(c) =>
      var k := Ordinal(SeqOf(s, c));
      s.(seqs := s.seqs[c := SeqOf(s, c) + 1], drawn := s.drawn + [Draw(c, k)],
         pcs := s.pcs[t := if Faulted(k, r.rate) then Picked else Idle])
    case Picked =>
      s.(budget := if r.maxCount > 0 then s.budget + 1 else s.budget, faults := s.faults + 1, pcs := s.pcs[t := Idle])
  }

  predicate MovesOk(moves: seq<Move>, threads: nat) {
    forall i :: 0 <= i < |moves| ==> moves[i].thread < threads
  }

  function Run(r: Rule, s: State, moves: seq<Move>): (n: State)
    requires MovesOk(moves, |s.pcs|)
    ensures |n.pcs| == |s.pcs|
  {
    if moves == [] then s else Step(r, Run(r, s, moves[..|moves| - 1]), moves[|moves| - 1])
  }

  function Busy(pcs: seq<Pc>): nat {
    if pcs == [] then 0 else Busy(pcs[1..]) + if pcs[0].Idle? then 0 else 1
  }

  function PickedOf(pcs: seq<Pc>): nat {
    if pcs == [] then 0 else PickedOf(pcs[1..]) + if pcs[0].Picked? then 1 else 0
  }

  lemma {:induction false} BusyUpdate(pcs: seq<Pc>, t: nat, pc: Pc)
    requires t < |pcs|
    ensures Busy(pcs[t := pc]) + (if pcs[t].Idle? then 0 else 1) == Busy(pcs) + if pc.Idle? then 0 else 1
    ensures PickedOf(pcs[t := pc]) + (if pcs[t].Picked? then 1 else 0) == PickedOf(pcs) + if pc.Picked? then 1 else 0
  {
    if t == 0 {
      assert pcs[0 := pc][1..] == pcs[1..];
    } else {
      BusyUpdate(pcs[1..], t - 1, pc);
      assert pcs[t := pc][1..] == pcs[1..][t - 1 := pc];
    }
  }

  lemma {:induction false} BusyBound(pcs: seq<Pc>)
    ensures Busy(pcs) <= |pcs| && ((forall i :: 0 <= i < |pcs| ==> pcs[i].Idle?) ==> Busy(pcs) == 0 && PickedOf(pcs) == 0)
  {
    if pcs != [] { BusyBound(pcs[1..]); }
  }

  // ----- the budget -----

  /** Faults counted and calls on their way to being counted, against the limit. */
  ghost predicate Bounded(r: Rule, s: State, limit: nat) {
    s.budget == s.faults && s.budget + Busy(s.pcs) <= limit
  }

  lemma StepBounded(r: Rule, s: State, m: Move, limit: nat)
    requires m.thread < |s.pcs| && r.maxCount > 0 && Bounded(r, s, limit)
    requires s.pcs[m.thread].Idle? && m.active && s.budget < r.maxCount ==> s.budget + Busy(s.pcs) < limit
    ensures Bounded(r, Step(r, s, m), limit)
  {
    hide Busy, PickedOf, Faulted;
    BusyUpdate(s.pcs, m.thread, Step(r, s, m).pcs[m.thread]);
    assert s.pcs[m.thread := s.pcs[m.thread]] == s.pcs;
  }

  /** A thread that is idle is not among the busy. */
  lemma {:induction false} IdleLeavesRoom(pcs: seq<Pc>, t: nat)
    requires t < |pcs| && pcs[t].Idle?
    ensures Busy(pcs) <= |pcs| - 1
  {
    BusyBound(pcs[1..]);
    if t != 0 { IdleLeavesRoom(pcs[1..], t - 1); }
  }

  /** With T threads, in every interleaving, at most M + T - 1 calls are faulted. */
  lemma {:induction false} BudgetBound(r: Rule, threads: nat, moves: seq<Move>)
    requires r.maxCount > 0 && threads > 0 && MovesOk(moves, threads)
    ensures var s := Run(r, Start(threads), moves); Bounded(r, s, r.maxCount + threads - 1) && s.faults <= r.maxCount + threads - 1
  {
    hide Busy, Step;
    if moves == [] {
      BusyBound(Start(threads).pcs);
    } else {
      var n := |moves| - 1;
      BudgetBound(r, threads, moves[..n]);
      var s := Run(r, Start(threads), moves[..n]);
      if s.pcs[moves[n].thread].Idle? { IdleLeavesRoom(s.pcs, moves[n].thread); }
      StepBounded(r, s, moves[n], r.maxCount + threads - 1);
    }
  }

  /** No two calls overlap: at every moment at most one thread is inside one. */
  ghost predicate Sequential(r: Rule, s: State, moves: seq<Move>)
    requires MovesOk(moves, |s.pcs|)
  {
    forall k :: 0 <= k <= |moves| ==> Busy(Run(r, s, moves[..k]).pcs) <= 1
  }

  /** When calls do not overlap, on however many threads, at most M are faulted. */
  lemma {:induction false} SequentialBound(r: Rule, threads: nat, moves: seq<Move>)
    requires r.maxCount > 0 && MovesOk(moves, threads) && Sequential(r, Start(threads), moves)
    ensures var s := Run(r, Start(threads), moves); Bounded(r, s, r.maxCount) && s.faults <= r.maxCount
  {
    hide Busy, Step;
    if moves == [] {
      BusyBound(Start(threads).pcs);
    } else {
      var n := |moves| - 1;
      var s := Run(r, Start(threads), moves[..n]);
      forall k | 0 <= k <= n ensures Busy(Run(r, Start(threads), moves[..n][..k]).pcs) <= 1 {
        assert moves[..n][..k] == moves[..k];
      }
      SequentialBound(r, threads, moves[..n]);
      assert moves[..|moves|] == moves;
      StepAlone(r, s, moves[n]);
    }
  }

  lemma StepAlone(r: Rule, s: State, m: Move)
    requires m.thread < |s.pcs| && r.maxCount > 0 && Bounded(r, s, r.maxCount) && Busy(Step(r, s, m).pcs) <= 1
    ensures Bounded(r, Step(r, s, m), r.maxCount)
  {
    hide Busy, PickedOf, Faulted;
    BusyUpdate(s.pcs, m.thread, Step(r, s, m).pcs[m.thread]);
    assert s.pcs[m.thread := s.pcs[m.thread]] == s.pcs;
  }

  // ----- the bound is reached -----

  lemma {:induction false} RunAppend(r: Rule, s: State, a: seq<Move>, b: seq<Move>)
    requires MovesOk(a, |s.pcs|) && MovesOk(b, |s.pcs|)
    ensures MovesOk(a + b, |s.pcs|) && Run(r, s, a + b) == Run(r, Run(r, s, a), b)
  {
    hide Step;
    if b == [] {
      assert a + b == a;
    } else {
      var n := |b| - 1;
      RunAppend(r, s, a, b[..n]);
      assert (a + b)[..|a + b| - 1] == a + b[..n];
    }
  }

  /** Every thread calls the method `which` gives it. */
  ghost predicate OwnMethods(moves: seq<Move>, which: nat -> Counter) {
    forall i :: 0 <= i < |moves| ==> moves[i].at == which(moves[i].thread)
  }

  /** One thread makes a whole call, is faulted and counted. */
  lemma OneCall(r: Rule, s: State, which: nat -> Counter) returns (moves: seq<Move>)
    requires r.rate == 1.0 && |s.pcs| > 0 && s.pcs[0].Idle? && s.budget < r.maxCount
    ensures MovesOk(moves, |s.pcs|) && OwnMethods(moves, which)
    ensures var n := Run(r, s, moves); n.pcs == s.pcs && n.budget == s.budget + 1 && n.faults == s.faults + 1
  {
    var m := Move(0, true, which(0));
    moves := [m, m, m];
    RateOneFaultsAll(Ordinal(SeqOf(s, m.at)));
    hide Faulted, Ordinal, SeqOf;
    var one := Step(r, s, m);
    var two := Step(r, one, m);
    assert SeqOf(one, m.at) == SeqOf(s, m.at) by { SameSeqs(one, s, m.at); }
    assert Run(r, s, [m]) == one && [m, m][..1] == [m] && [m, m, m][..2] == [m, m];
    assert Run(r, s, [m, m]) == two;
  }

  lemma SameSeqs(a: State, b: State, c: Counter)
    requires a.seqs == b.seqs
    ensures SeqOf(a, c) == SeqOf(b, c)
  {
  }

  /** Calls one after the other, up to `b` faults. */
  lemma {:induction false} CallsInTurn(r: Rule, threads: nat, b: nat, which: nat -> Counter) returns (moves: seq<Move>)
    requires r.rate == 1.0 && threads > 0 && b <= r.maxCount
    ensures MovesOk(moves, threads) && OwnMethods(moves, which)
    ensures var n := Run(r, Start(threads), moves); n.pcs == Start(threads).pcs && n.budget == b && n.faults == b
  {
    moves := [];
    if b != 0 {
      var before := CallsInTurn(r, threads, b - 1, which);
      var s := Run(r, Start(threads), before);
      var last := OneCall(r, s, which);
      RunAppend(r, Start(threads), before, last);
      moves := before + last;
    }
  }

  /** A thread at phase `p` of a call at counter `c`. */
  function Phase(c: Counter, p: nat): Pc {
    if p == 1 then Admitted(c) else if p == 2 then Picked else Idle
  }

  /** The first `k` threads one phase on, the others at phase `p`. */
  ghost predicate Wavefront(pcs: seq<Pc>, which: nat -> Counter, p: nat, k: nat) {
    forall t :: 0 <= t < |pcs| ==> pcs[t] == Phase(which(t), if t < k then p + 1 else p)
  }

  /** A thread at phase `p` moves to the next. */
  lemma NextPhase(r: Rule, s: State, m: Move, p: nat)
    requires m.thread < |s.pcs| && m.active && s.pcs[m.thread] == Phase(m.at, p) && p < 3
    requires r.rate == 1.0 && r.maxCount > 0 && (p == 0 ==> s.budget < r.maxCount)
    ensures var n := Step(r, s, m);
            && n.pcs == s.pcs[m.thread := Phase(m.at, p + 1)]
            && n.budget == s.budget + (if p == 2 then 1 else 0) && n.faults == s.faults + if p == 2 then 1 else 0
  {
    RateOneFaultsAll(Ordinal(SeqOf(s, m.at)));
    hide Faulted, Ordinal, SeqOf;
  }

  /** Each of the first `k` threads makes its next step. */
  lemma {:induction false} Wave(r: Rule, s: State, which: nat -> Counter, p: nat, k: nat) returns (moves: seq<Move>)
    requires r.rate == 1.0 && r.maxCount > 0 && p < 3 && k <= |s.pcs| && s.budget == s.faults
    requires Wavefront(s.pcs, which, p, 0) && (p == 0 ==> s.budget < r.maxCount)
    ensures MovesOk(moves, |s.pcs|) && OwnMethods(moves, which)
    ensures var n := Run(r, s, moves);
            Wavefront(n.pcs, which, p, k) && n.budget == n.faults == s.budget + if p == 2 then k else 0
  {
    hide Step, Phase, Run, Wavefront, Faulted;
    moves := [];
    assert Run(r, s, []) == s by { NoMoves(r, s); }
    if k != 0 {
      var before := Wave(r, s, which, p, k - 1);
      var m := Move(k - 1, true, which(k - 1));
      moves := before + [m];
      WavefrontNext(Run(r, s, before).pcs, which, p, k - 1);
      NextPhase(r, Run(r, s, before), m, p);
      OneMore(r, s, before, m);
    }
  }

  lemma NoMoves(r: Rule, s: State)
    ensures Run(r, s, []) == s
  {
  }

  lemma OneMore(r: Rule, s: State, moves: seq<Move>, m: Move)
    requires MovesOk(moves, |s.pcs|) && m.thread < |s.pcs|
    ensures Run(r, s, moves + [m]) == Step(r, Run(r, s, moves), m)
  {
    hide Step;
    assert (moves + [m])[..|moves|] == moves;
  }

  lemma WavefrontNext(pcs: seq<Pc>, which: nat -> Counter, p: nat, k: nat)
    requires k < |pcs| && Wavefront(pcs, which, p, k)
    ensures pcs[k] == Phase(which(k), p) && Wavefront(pcs[k := Phase(which(k), p + 1)], which, p, k + 1)
  {
    hide Phase;
  }

  /** For every limit, number of threads and choice of methods they call, some
      interleaving faults M + T - 1 calls. */
  lemma BudgetTight(maxCount: nat, threads: nat, which: nat -> Counter) returns (moves: seq<Move>)
    requires maxCount > 0 && threads > 0
    ensures MovesOk(moves, threads) && OwnMethods(moves, which)
    ensures Run(Rule(maxCount, 1.0), Start(threads), moves).faults == maxCount + threads - 1
  {
    hide Step;
    var r, s := Rule(maxCount, 1.0), Start(threads);
    var m0 := CallsInTurn(r, threads, maxCount - 1, which);
    var s0 := Run(r, s, m0);
    var m1 := Wave(r, s0, which, 0, threads);
    var s1 := Run(r, s0, m1);
    var m2 := Wave(r, s1, which, 1, threads);
    var s2 := Run(r, s1, m2);
    var m3 := Wave(r, s2, which, 2, threads);
    RunAppend(r, s, m0, m1);
    RunAppend(r, s, m0 + m1, m2);
    RunAppend(r, s, m0 + m1 + m2, m3);
    moves := m0 + m1 + m2 + m3;
  }

  // ----- ordinals -----

  /** Faults among the calls that drew these ordinals. */
  function Hits(r: Rule, drawn: seq<Draw>): nat {
    if drawn == [] then 0
    else Hits(r, drawn[..|drawn| - 1]) + if Faulted(drawn[|drawn| - 1].ordinal, r.rate) then 1 else 0
  }

  /** The ordinals drawn at one counter, in order. */
  function DrawnAt(drawn: seq<Draw>, c: Counter): seq<nat> {
    if drawn == [] then []
    else
      var last := drawn[|drawn| - 1];
      DrawnAt(drawn[..|drawn| - 1], c) + if last.at == c then [last.ordinal] else []
  }

  /** The first `n` ordinals of a counter. */
  function InTurn(n: nat): seq<nat> { seq(n, i requires 0 <= i < n => Ordinal(i)) }

  /** Every counter has handed out its ordinals in turn, and every draw has decided
      one call. */
  ghost predicate Drawn(r: Rule, s: State) {
    && (forall c :: DrawnAt(s.drawn, c) == InTurn(SeqOf(s, c)))
    && s.faults + PickedOf(s.pcs) == Hits(r, s.drawn)
  }

  /** Whatever the interleaving, the n'th draw at a counter is ordinal n, so draws at
      one counter differ until it wraps; and a call is faulted, or about to be, for
      exactly the draws that say so. */
  lemma {:induction false} OrdinalsInTurn(r: Rule, threads: nat, moves: seq<Move>)
    requires MovesOk(moves, threads)
    ensures Drawn(r, Run(r, Start(threads), moves))
    ensures forall c, i, j :: 0 <= i < j < |DrawnAt(Run(r, Start(threads), moves).drawn, c)| && j < i + W64 ==>
              DrawnAt(Run(r, Start(threads), moves).drawn, c)[i] != DrawnAt(Run(r, Start(threads), moves).drawn, c)[j]
  {
    hide Busy, Faulted, PickedOf, Step, Ordinal, W64;
    if moves == [] {
      BusyBound(Start(threads).pcs);
    } else {
      var n := |moves| - 1;
      OrdinalsInTurn(r, threads, moves[..n]);
      StepDraws(r, Run(r, Start(threads), moves[..n]), moves[n]);
    }
    var s := Run(r, Start(threads), moves);
    forall c, i, j | 0 <= i < j < |DrawnAt(s.drawn, c)| && j < i + W64 ensures DrawnAt(s.drawn, c)[i] != DrawnAt(s.drawn, c)[j] {
      assert DrawnAt(s.drawn, c) == InTurn(SeqOf(s, c));
      OrdinalsDiffer(i, j);
    }
  }

  lemma StepDraws(r: Rule, s: State, m: Move)
    requires m.thread < |s.pcs| && Drawn(r, s)
    ensures Drawn(r, Step(r, s, m))
  {
    hide Busy, Faulted, PickedOf, Ordinal;
    var n := Step(r, s, m);
    BusyUpdate(s.pcs, m.thread, n.pcs[m.thread]);
    assert s.pcs[m.thread := s.pcs[m.thread]] == s.pcs;
    if s.pcs[m.thread].Admitted? {
      assert n.drawn[..|n.drawn| - 1] == s.drawn;
      forall c ensures DrawnAt(n.drawn, c) == InTurn(SeqOf(n, c)) {
        assert DrawnAt(s.drawn, c) == InTurn(SeqOf(s, c));
        assert InTurn(SeqOf(s, c) + 1) == InTurn(SeqOf(s, c)) + [Ordinal(SeqOf(s, c))];
      }
    } else {
      forall c ensures DrawnAt(n.drawn, c) == InTurn(SeqOf(n, c)) {
        assert DrawnAt(s.drawn, c) == InTurn(SeqOf(s, c));
      }
    }
  }

  lemma OrdinalsDiffer(i: nat, j: nat)
    requires i < j < i + W64
    ensures Ordinal(i) != Ordinal(j)
  {
  }
}
