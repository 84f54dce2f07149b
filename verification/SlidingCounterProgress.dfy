/** Progress of the sliding window counter's retry loop under contention, and who is told what. */
module SlidingCounterProgress {
  import opened Windows
  import opened SlidingCounter

  /** Every retry is paid for by a charge of somebody to the same window. */
  predicate EvalProgress(p: Policy, s: State, v: Phase) {
    var h := s.history;
    match v
    case Begun(_, start, _, begun) => begun <= WindowCount(h, start)
    case Reading(_, start, _, begun, _, attempt) => attempt < p.maxRetries && begun + attempt <= WindowCount(h, start)
    case Swapping(_, start, _, begun, _, attempt, cur, seen) =>
      && attempt < p.maxRetries && seen <= |h| && begun + attempt <= WindowCount(h[..seen], start)
      && (s.clock <= start + 2 * Duration(p.window) ==> cur == WindowCost(h[..seen], start))
    case Finished(_, start, _, begun, ended, result) =>
      && begun <= ended <= WindowCount(h, start)
      && (result == Contended ==> begun + p.maxRetries <= ended)
  }

  /** The evaluation was told "charged" for exactly this charge. */
  predicate Paid(v: Phase, c: Charge) {
    v.Finished? && v.result == Charged && v.now == c.now && v.start == c.start && v.cost == c.cost
  }

  /** The charges are those of the evaluations told "charged", each once. */
  ghost predicate Told(s: State) {
    && (forall i :: 0 <= i < |s.history| ==> s.history[i].id in s.evals && Paid(s.evals[s.history[i].id], s.history[i]))
    && (forall i, j :: 0 <= i < j < |s.history| ==> s.history[i].id != s.history[j].id)
    && (forall id :: id in s.evals && s.evals[id].Finished? && s.evals[id].result == Charged ==> Has(s.history, id))
  }

  predicate Has(h: seq<Charge>, id: nat) {
    exists i :: 0 <= i < |h| && h[i].id == id
  }

  ghost predicate Progress(p: Policy, s: State) {
    Inv(p, s) && Told(s) && forall id :: id in s.evals ==> EvalProgress(p, s, s.evals[id])
  }

  lemma {:induction false} CountGrows(h: seq<Charge>, n: nat, start: int)
    requires n <= |h| && forall i :: 0 <= i < |h| ==> h[i].cost >= 1
    ensures WindowCount(h[..n], start) <= WindowCount(h, start)
    ensures WindowCost(h, start) - WindowCost(h[..n], start) >= WindowCount(h, start) - WindowCount(h[..n], start)
    ensures WindowCount(h[..n], start) == WindowCount(h, start) ==> WindowCost(h[..n], start) == WindowCost(h, start)
  {
    if n == |h| {
      assert h[..n] == h;
    } else {
      CountGrows(h[..|h| - 1], n, start);
      assert h[..|h| - 1][..n] == h[..n];
    }
  }

  lemma CostsPositive(p: Policy, s: State)
    requires Inv(p, s)
    ensures forall i :: 0 <= i < |s.history| ==> s.history[i].cost >= 1
  {
    assert forall i :: 0 <= i < |s.history| ==> ChargeOk(p, s.history[i], s.clock);
  }

  /** A swap in time finds the count it read exactly when nobody has charged the window since. */
  lemma SwapIffQuiet(p: Policy, s: State, e: Event)
    requires Progress(p, s) && Possible(s, e) && e.Swap? && InWindow(p, s, e)
    ensures var v := s.evals[e.id];
            && v.seen <= |s.history|
            && (Counter(s, v.start, e.at).value == v.cur <==>
                  WindowCount(s.history, v.start) == WindowCount(s.history[..v.seen], v.start))
            && WindowCount(s.history[..v.seen], v.start) <= WindowCount(s.history, v.start)
  {
    var v := s.evals[e.id];
    assert EvalProgress(p, s, v) && CounterOk(p, s, v.start);
    Grid(p, e.at, e.at);
    CounterExact(p, s, v.start, e.at);
    CostsPositive(p, s);
    CountGrows(s.history, v.seen, v.start);
  }

  /** The step charges nothing. */
  predicate Quiet(s: State, e: Event)
    requires Possible(s, e)
  {
    e.Swap? ==> Counter(s, s.evals[e.id].start, e.at).value != s.evals[e.id].cur
  }

  lemma QuietProgress(p: Policy, s: State, e: Event)
    requires Progress(p, s) && Possible(s, e) && InWindow(p, s, e) && Quiet(s, e)
    ensures EvalProgress(p, Apply(p, s, e), Apply(p, s, e).evals[e.id])
  {
    var h := s.history;
    assert h[..|h|] == h;
    if !e.Begin? {
      var v := s.evals[e.id];
      assert EvalProgress(p, s, v);
      if e.Get? {
        assert CounterOk(p, s, v.start);
        if e.at <= v.start + 2 * Duration(p.window) { CounterExact(p, s, v.start, e.at); }
      }
      if e.Swap? { SwapIffQuiet(p, s, e); }
    }
  }

  lemma QuietTold(p: Policy, s: State, e: Event)
    requires Progress(p, s) && Possible(s, e) && Quiet(s, e)
    ensures Told(Apply(p, s, e))
  {
    var s' := Apply(p, s, e);
    forall i | 0 <= i < |s'.history|
      ensures s'.history[i].id in s'.evals && Paid(s'.evals[s'.history[i].id], s'.history[i])
    {
      assert Paid(s.evals[s.history[i].id], s.history[i]);
    }
  }

  lemma ChargeTold(p: Policy, s: State, e: Event)
    requires Progress(p, s) && Commits(p, s, e)
    ensures Told(Apply(p, s, e))
  {
    var s', n := Apply(p, s, e), |s.history|;
    forall i | 0 <= i < n ensures s'.history[i] == s.history[i] && s.history[i].id != e.id {
      assert Paid(s.evals[s.history[i].id], s.history[i]);
    }
    assert s'.history[n].id == e.id;
    forall id | id in s'.evals && s'.evals[id].Finished? && s'.evals[id].result == Charged ensures Has(s'.history, id) {
      if id != e.id {
        assert Has(s.history, id);
        var i :| 0 <= i < n && s.history[i].id == id;
        assert s'.history[i].id == id;
      }
    }
  }

  /** A charge leaves the other evaluations where they were, with no fewer charges to point to. */
  lemma ChargeProgress(p: Policy, s: State, e: Event, id: nat)
    requires Progress(p, s) && Commits(p, s, e) && id in s.evals
    ensures EvalProgress(p, Apply(p, s, e), Apply(p, s, e).evals[id])
  {
    var s', v := Apply(p, s, e), s.evals[id];
    var h, h', n := s.history, s'.history, |s.history|;
    assert EvalProgress(p, s, v);
    assert h'[..n] == h;
    assert v.Swapping? ==> h'[..v.seen] == h[..v.seen];
    CostsPositive(p, s);
    if v.Swapping? { CountGrows(h, v.seen, v.start); }
  }

  lemma StepProgress(p: Policy, s: State, e: Event)
    requires Progress(p, s) && Possible(s, e) && InWindow(p, s, e)
    ensures Progress(p, Apply(p, s, e))
  {
    var s' := Apply(p, s, e);
    StepKeeps(p, s, e);
    if Commits(p, s, e) {
      ChargeTold(p, s, e);
      forall id | id in s'.evals ensures EvalProgress(p, s', s'.evals[id]) { ChargeProgress(p, s, e, id); }
    } else {
      QuietTold(p, s, e);
      forall id | id in s'.evals ensures EvalProgress(p, s', s'.evals[id]) {
        if id == e.id { QuietProgress(p, s, e); } else { assert EvalProgress(p, s, s.evals[id]); }
      }
    }
  }

  lemma {:induction false} RunProgress(p: Policy, s: State, es: seq<Event>)
    requires Progress(p, s) && Runnable(p, s, es) && OnTime(p, s, es)
    ensures Progress(p, Run(p, s, es))
    decreases |es|
  {
    if es != [] {
      StepProgress(p, s, es[0]);
      RunProgress(p, Apply(p, s, es[0]), es[1..]);
    }
  }

  predicate Started(p: Policy, clock: int, es: seq<Event>) {
    && WellFormed(p) && Duration(p.window) > 0
    && Runnable(p, Init(clock), es) && OnTime(p, Init(clock), es)
  }

  lemma Reached(p: Policy, clock: int, es: seq<Event>)
    requires Started(p, clock, es)
    ensures Progress(p, Run(p, Init(clock), es))
  {
    InitKeeps(p, clock);
    RunProgress(p, Init(clock), es);
  }

  /** Under every interleaving, an evaluation is told "charged" if and only if there is a charge of it, exactly
      one, with its cost, window and clock reading. */
  lemma ChargedOnce(p: Policy, clock: int, es: seq<Event>, id: nat)
    requires Started(p, clock, es) && id in Run(p, Init(clock), es).evals
    ensures var s := Run(p, Init(clock), es);
            && (s.evals[id].Finished? && s.evals[id].result == Charged <==> Has(s.history, id))
            && (forall i, j :: 0 <= i < j < |s.history| ==> s.history[i].id != s.history[j].id)
            && (forall i :: 0 <= i < |s.history| && s.history[i].id == id ==> Paid(s.evals[id], s.history[i]))
  {
    Reached(p, clock, es);
  }

  /** "Contention" is reported only if, between the evaluation's start and its return, at least `maxRetries`
      other evaluations charged the same window. */
  lemma ContentionNeedsCharges(p: Policy, clock: int, es: seq<Event>, id: nat)
    requires Started(p, clock, es) && id in Run(p, Init(clock), es).evals
    ensures var s := Run(p, Init(clock), es);
            var v := s.evals[id];
            v.Finished? && v.result == Contended ==>
              v.begun + p.maxRetries <= v.ended <= WindowCount(s.history, v.start) && !Has(s.history, id)
  {
    Reached(p, clock, es);
    var s := Run(p, Init(clock), es);
    assert EvalProgress(p, s, s.evals[id]);
    if Has(s.history, id) { ChargedOnce(p, clock, es, id); }
  }

  lemma {:induction false} CountAtMostCost(h: seq<Charge>, start: int)
    requires forall i :: 0 <= i < |h| ==> h[i].cost >= 1
    ensures WindowCount(h, start) <= WindowCost(h, start)
  {
    if h != [] { CountAtMostCost(h[..|h| - 1], start); }
  }

  /** So with more retries than the limit, contention is never reported. */
  lemma ContentionUnreachable(p: Policy, clock: int, es: seq<Event>, id: nat)
    requires Started(p, clock, es) && p.maxRetries > p.limit && id in Run(p, Init(clock), es).evals
    ensures var v := Run(p, Init(clock), es).evals[id]; v.Finished? ==> v.result != Contended
  {
    Reached(p, clock, es);
    var s := Run(p, Init(clock), es);
    assert EvalProgress(p, s, s.evals[id]) && CounterOk(p, s, s.evals[id].start);
    CostsPositive(p, s);
    CountAtMostCost(s.history, s.evals[id].start);
  }
}
