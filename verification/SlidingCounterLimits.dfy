/** Where the sliding window counter's bound ends: late swaps, nonpositive windows, and months. */
module SlidingCounterLimits {
  import Store = StoreModel
  import opened Windows
  import opened Calendar
  import opened SlidingCounter

  datatype Request = Request(id: nat, now: int, cost: int)

  /** One evaluation with all its store calls at one instant, in the window that starts at `start`. */
  function StepAt(p: Policy, s: State, start: int, q: Request): (State, bool) {
    var length := Length(p.window);
    var it, before := Counter(s, start, q.now), Counter(s, start - length, q.now).value;
    if Over(p, q.now - start, before, it.value, q.cost) then (s.(clock := q.now), false)
    else
      (s.(clock := q.now,
          counters := s.counters[start := Store.Item(it.value + q.cost, Store.Renew(it.expiry, 2 * length, q.now))],
          history := s.history + [Charge(q.id, q.now, start, q.now, q.cost)]), true)
  }

  function Step(p: Policy, s: State, q: Request): (State, bool) {
    StepAt(p, s, Start(p.window, q.now), q)
  }

  // ---------------------------------------------------------------- as runs of the machine

  lemma RunCons(p: Policy, s: State, e: Event, es: seq<Event>)
    requires WellFormed(p) && Possible(s, e) && Runnable(p, Apply(p, s, e), es)
    ensures Runnable(p, s, [e] + es) && Run(p, s, [e] + es) == Run(p, Apply(p, s, e), es)
    ensures OnTime(p, s, [e] + es) <==> InWindow(p, s, e) && OnTime(p, Apply(p, s, e), es)
  {
    assert ([e] + es)[1..] == es;
  }

  lemma {:induction false} RunConcat(p: Policy, s: State, a: seq<Event>, b: seq<Event>)
    requires WellFormed(p) && Runnable(p, s, a) && Runnable(p, Run(p, s, a), b)
    ensures Runnable(p, s, a + b) && Run(p, s, a + b) == Run(p, Run(p, s, a), b)
    ensures OnTime(p, s, a + b) <==> OnTime(p, s, a) && OnTime(p, Run(p, s, a), b)
    decreases |a|
  {
    if a == [] {
      assert a + b == b;
    } else {
      var s' := Apply(p, s, a[0]);
      RunConcat(p, s', a[1..], b);
      RunCons(p, s, a[0], a[1..] + b);
      assert a + b == [a[0]] + (a[1..] + b);
    }
  }

  /** The calls before the swap. */
  function Approach(q: Request): seq<Event> {
    [Begin(q.id, q.now, q.cost), ReadPrevious(q.id, q.now), Get(q.id, q.now)]
  }

  function Approached(p: Policy, s: State, q: Request): State {
    var start := Start(p.window, q.now);
    var cur, before := Counter(s, start, q.now).value, Counter(s, start - Length(p.window), q.now).value;
    var count := WindowCount(s.history, start);
    s.(clock := q.now,
       evals := s.evals[q.id :=
         if Over(p, q.now - start, before, cur, q.cost) then Finished(q.now, start, q.cost, count, count, OverLimit)
         else Swapping(q.now, start, q.cost, count, before, 0, cur, |s.history|)])
  }

  lemma ApproachRuns(p: Policy, s: State, q: Request)
    requires WellFormed(p) && s.clock <= q.now && q.id !in s.evals && q.cost >= 1
    ensures var es := Approach(q);
            Runnable(p, s, es) && OnTime(p, s, es) && Run(p, s, es) == Approached(p, s, q)
  {
    var a, b, c := Begin(q.id, q.now, q.cost), ReadPrevious(q.id, q.now), Event.Get(q.id, q.now);
    var s1 := Apply(p, s, a);
    var s2 := Apply(p, s1, b);
    var s3 := Apply(p, s2, c);
    assert s3 == Approached(p, s, q);
    RunCons(p, s2, c, []);
    RunCons(p, s1, b, [c]);
    RunCons(p, s, a, [b, c]);
    assert [a, b, c] == [a] + [b, c] && [b, c] == [b] + [c] && [c] == [c] + [];
  }

  function Evaluation(p: Policy, s: State, q: Request): seq<Event> {
    Approach(q) + if Step(p, s, q).1 then [Swap(q.id, q.now)] else []
  }

  /** A step together with what it tells its caller. */
  function Told(p: Policy, s: State, q: Request): State {
    var (s', ok) := Step(p, s, q);
    var start := Start(p.window, q.now);
    var counts := (WindowCount(s.history, start), WindowCount(s'.history, start));
    s'.(evals := s.evals[q.id := Finished(q.now, start, q.cost, counts.0, counts.1, if ok then Charged else OverLimit)])
  }

  lemma SwapTold(p: Policy, s: State, q: Request)
    requires WellFormed(p) && q.cost >= 1 && Step(p, s, q).1
    ensures var s1, swap := Approached(p, s, q), Swap(q.id, q.now);
            Possible(s1, swap) && Apply(p, s1, swap) == Told(p, s, q)
  {
  }

  /** A step is a run of the machine: it leaves the step's counters and charges, and reports its answer. */
  lemma StepIsRun(p: Policy, s: State, q: Request)
    requires WellFormed(p) && s.clock <= q.now && q.id !in s.evals && q.cost >= 1
    ensures var es := Evaluation(p, s, q); Runnable(p, s, es) && OnTime(p, s, es) && Run(p, s, es) == Told(p, s, q)
  {
    ApproachRuns(p, s, q);
    var a, s1 := Approach(q), Approached(p, s, q);
    if Step(p, s, q).1 {
      var swap := Swap(q.id, q.now);
      SwapTold(p, s, q);
      RunCons(p, s1, swap, []);
      assert [swap] == [swap] + [];
      RunConcat(p, s, a, [swap]);
    } else {
      assert a + [] == a;
    }
  }

  // ---------------------------------------------------------------- windows not counted

  lemma NothingCarried(p: Policy, elapsed: int, cur: int, cost: int)
    ensures Over(p, elapsed, 0, cur, cost) <==> cur + cost > p.limit
  {
  }

  /** A window whose own counter and whose previous counter are both missing takes the full limit. */
  lemma FreshWindowAdmits(p: Policy, s: State, q: Request)
    requires WellFormed(p) && 1 <= q.cost <= p.limit
    requires Start(p.window, q.now) !in s.counters && Start(p.window, q.now) - Length(p.window) !in s.counters
    ensures var (s', ok) := Step(p, s, q);
            && ok && s'.counters.Keys == s.counters.Keys + {Start(p.window, q.now)}
            && s'.history == s.history + [Charge(q.id, q.now, Start(p.window, q.now), q.now, q.cost)]
            && s'.clock == q.now && s'.evals == s.evals
  {
    NothingCarried(p, q.now - Start(p.window, q.now), 0, q.cost);
  }

  lemma TwoCharges(a: Charge, b: Charge, lo: int, hi: int, byCommit: bool)
    requires lo <= Stamp(a, byCommit) <= hi && lo <= Stamp(b, byCommit) <= hi
    ensures CostIn([a, b], lo, hi, byCommit) == a.cost + b.cost
  {
    CostSnoc([], a, lo, hi, byCommit);
    CostSnoc([] + [a], b, lo, hi, byCommit);
    assert [] + [a] + [b] == [a, b];
  }

  /** The full limit, charged at one instant. */
  function FullCharge(p: Policy, id: nat, t: int): Charge {
    Charge(id, t, Start(p.window, t), t, p.limit)
  }

  /** Whatever the window kind, a charge in a window that is neither the current one nor the one a length
      back is not counted at all: the full limit follows the full limit. */
  lemma UnreadForgotten(p: Policy, before: int, now: int)
    requires WellFormed(p) && before < now
    requires Start(p.window, before) != Start(p.window, now)
    requires Start(p.window, before) != Start(p.window, now) - Length(p.window)
    ensures var (s1, ok1) := Step(p, Init(before), Request(1, before, p.limit));
            var (s2, ok2) := Step(p, s1, Request(2, now, p.limit));
            ok1 && ok2 && s2.history == [FullCharge(p, 1, before), FullCharge(p, 2, now)]
  {
    var q := Request(1, before, p.limit);
    FreshWindowAdmits(p, Init(before), q);
    FreshWindowAdmits(p, Step(p, Init(before), q).0, Request(2, now, p.limit));
  }

  // ---------------------------------------------------------------- late swaps

  lemma ApproachFresh(p: Policy, s: State, q: Request)
    requires WellFormed(p) && 1 <= q.cost <= p.limit
    requires Start(p.window, q.now) !in s.counters && Start(p.window, q.now) - Length(p.window) !in s.counters
    ensures var start := Start(p.window, q.now);
            var v := Swapping(q.now, start, q.cost, WindowCount(s.history, start), 0, 0, 0, |s.history|);
            Approached(p, s, q) == s.(clock := q.now, evals := s.evals[q.id := v])
  {
    NothingCarried(p, q.now - Start(p.window, q.now), 0, q.cost);
  }

  /** Two evaluations on either side of the boundary at `t`, the first of which swaps after it. */
  function LateRun(p: Policy, t: int): seq<Event> {
    Approach(Request(1, t - 1, p.limit)) + Approach(Request(2, t, p.limit)) + [Swap(1, t), Swap(2, t)]
  }

  /** The state before the two swaps. */
  function BothReady(p: Policy, t: int): State {
    State(t, map[], [], map[
      1 := Swapping(t - 1, Start(p.window, t - 1), p.limit, 0, 0, 0, 0, 0),
      2 := Swapping(t, Start(p.window, t), p.limit, 0, 0, 0, 0, 0)])
  }

  lemma LateReady(p: Policy, t: int)
    requires WellFormed(p)
    ensures var es := Approach(Request(1, t - 1, p.limit)) + Approach(Request(2, t, p.limit));
            Runnable(p, Init(t - 1), es) && Run(p, Init(t - 1), es) == BothReady(p, t)
  {
    var q, q' := Request(1, t - 1, p.limit), Request(2, t, p.limit);
    var s := Init(t - 1);
    ApproachRuns(p, s, q);
    ApproachFresh(p, s, q);
    var s1 := Approached(p, s, q);
    ApproachRuns(p, s1, q');
    ApproachFresh(p, s1, q');
    RunConcat(p, s, Approach(q), Approach(q'));
    assert Approached(p, s1, q') == BothReady(p, t);
  }

  lemma LateSwaps(p: Policy, t: int)
    requires WellFormed(p) && Start(p.window, t - 1) != Start(p.window, t)
    ensures var s, es := BothReady(p, t), [Swap(1, t), Swap(2, t)];
            && Runnable(p, s, es)
            && Run(p, s, es).history ==
                 [Charge(1, t - 1, Start(p.window, t - 1), t, p.limit), Charge(2, t, Start(p.window, t), t, p.limit)]
  {
    var s, a, b := BothReady(p, t), Swap(1, t), Swap(2, t);
    var s1 := Apply(p, s, a);
    var s2 := Apply(p, s1, b);
    RunCons(p, s1, b, []);
    RunCons(p, s, a, [b]);
    assert [a, b] == [a] + [b] && [b] == [b] + [];
  }

  /** Swapping in time is needed, whatever the policy: at every window boundary, an evaluation that read just
      before it and swaps just after it is missed by one that has already read the previous count, and the
      trailing window holds twice the limit. */
  lemma LateSwapBreaksBound(p: Policy, t: int, byCommit: bool)
    requires WellFormed(p) && Duration(p.window) > 0 && Start(p.window, t) == t
    ensures Runnable(p, Init(t - 1), LateRun(p, t))
    ensures !Bounded(p, Run(p, Init(t - 1), LateRun(p, t)), t, byCommit)
  {
    var es, swaps := Approach(Request(1, t - 1, p.limit)) + Approach(Request(2, t, p.limit)), [Swap(1, t), Swap(2, t)];
    WindowsPartition(p.window, t - 1, t - 1);
    LateReady(p, t);
    LateSwaps(p, t);
    RunConcat(p, Init(t - 1), es, swaps);
    var a := Charge(1, t - 1, Start(p.window, t - 1), t, p.limit);
    TwoCharges(a, Charge(2, t, Start(p.window, t), t, p.limit), t - Duration(p.window), t, byCommit);
  }

  // ---------------------------------------------------------------- nonpositive windows

  function Steps(p: Policy, s: State, qs: seq<Request>): State
    requires WellFormed(p)
    decreases |qs|
  {
    if qs == [] then s else Steps(p, Step(p, s, qs[0]).0, qs[1..])
  }

  lemma StepsCons(p: Policy, s: State, q: Request, qs: seq<Request>)
    requires WellFormed(p)
    ensures Steps(p, s, [q] + qs) == Steps(p, Step(p, s, q).0, qs)
  {
    assert ([q] + qs)[1..] == qs;
  }

  /** One request of the full limit at each instant from `lo` up to `hi`. */
  function Burst(p: Policy, lo: nat, hi: nat): seq<Request>
    requires lo <= hi
    decreases hi - lo
  {
    if lo == hi then [] else [Request(lo, lo, p.limit)] + Burst(p, lo + 1, hi)
  }

  function BurstCost(p: Policy, lo: int, hi: int): int
    requires lo <= hi
    decreases hi - lo
  {
    if lo == hi then 0 else p.limit + BurstCost(p, lo + 1, hi)
  }

  lemma {:induction false} BurstCosts(p: Policy, lo: int, hi: int)
    requires lo <= hi
    ensures BurstCost(p, lo, hi) == (hi - lo) * p.limit
    decreases hi - lo
  {
    if lo < hi {
      BurstCosts(p, lo + 1, hi);
      assert (hi - lo) * p.limit == p.limit + (hi - (lo + 1)) * p.limit;
    }
  }

  /** With a nonpositive window every instant is its own window, and the previous one a minute back. */
  lemma InstantWindow(p: Policy, t: int)
    requires Duration(p.window) <= 0
    ensures Start(p.window, t) == t && Length(p.window) == MINUTE
  {
  }

  lemma BurstStep(p: Policy, s: State, t: nat)
    requires WellFormed(p) && Duration(p.window) <= 0 && t !in s.counters && t - MINUTE !in s.counters
    ensures var s' := Step(p, s, Request(t, t, p.limit)).0;
            s'.counters.Keys == s.counters.Keys + {t} && s'.history == s.history + [Charge(t, t, t, t, p.limit)]
  {
    InstantWindow(p, t);
    FreshWindowAdmits(p, s, Request(t, t, p.limit));
  }

  lemma {:induction false} BurstAdmitted(p: Policy, s: State, lo: nat, hi: nat, byCommit: bool)
    requires WellFormed(p) && Duration(p.window) <= 0 && 0 <= lo <= hi <= MINUTE
    requires forall start :: start in s.counters.Keys ==> 0 <= start < lo
    ensures CostIn(Steps(p, s, Burst(p, lo, hi)).history, 0, MINUTE, byCommit)
         == CostIn(s.history, 0, MINUTE, byCommit) + BurstCost(p, lo, hi)
    decreases hi - lo
  {
    if lo < hi {
      var q := Request(lo, lo, p.limit);
      BurstStep(p, s, lo);
      CostSnoc(s.history, Charge(lo, lo, lo, lo, p.limit), 0, MINUTE, byCommit);
      BurstAdmitted(p, Step(p, s, q).0, lo + 1, hi, byCommit);
      StepsCons(p, s, q, Burst(p, lo + 1, hi));
    }
  }

  /** A positive window is needed for any bound: a nonpositive one makes every instant its own window,
      and the evaluator admits the full limit at each of the instants of one minute. */
  lemma NonpositiveWindowUnbounded(p: Policy, n: nat, byCommit: bool)
    requires WellFormed(p) && Duration(p.window) <= 0 && 0 <= n <= MINUTE
    ensures CostIn(Steps(p, Init(0), Burst(p, 0, n)).history, 0, MINUTE, byCommit) == n * p.limit
  {
    BurstAdmitted(p, Init(0), 0, n, byCommit);
    BurstCosts(p, 0, n);
  }

  // ---------------------------------------------------------------- months

  /** `t` lies in the month of `month`, and the run has no late swaps. */
  predicate Reaches(p: Policy, clock: int, es: seq<Event>, t: int, month: int)
    requires WellFormed(p)
  {
    && Runnable(p, Init(clock), es) && OnTime(p, Init(clock), es)
    && Start(p.window, t) == Start(p.window, month)
  }

  /** The run is over by `t`. */
  predicate Done(p: Policy, clock: int, es: seq<Event>, t: int)
    requires WellFormed(p) && Runnable(p, Init(clock), es)
  {
    Run(p, Init(clock), es).clock <= t
  }

  lemma MonthPrompt(p: Policy, s: State, t: int, month: int, byCommit: bool)
    requires Inv(p, s) && p.window.Monthly? && Start(p.window, t) == Start(p.window, month)
    requires byCommit || s.clock <= t || MonthDays(MonthOf(DayOf(month))) != 31
    requires t - Duration(p.window) < Start(p.window, t)
    ensures Prompt(p, s, t, byCommit)
  {
    forall i | 0 <= i < |s.history| && s.history[i].start == Start(p.window, t) && Stamp(s.history[i], byCommit) <= t
      ensures s.history[i].at <= s.history[i].start + Duration(p.window)
    {
      assert ChargeOk(p, s.history[i], s.clock);
      WindowsPartition(p.window, month, s.history[i].at);
      WindowLength(p.window, month);
    }
  }

  lemma ShortMonthBounded(p: Policy, clock: int, es: seq<Event>, t: int, month: int, byCommit: bool)
    requires WellFormed(p) && p.window.Monthly? && MonthDays(MonthOf(DayOf(month)) - 1) == 30
    requires Reaches(p, clock, es, t, month)
    requires byCommit || Done(p, clock, es, t) || MonthDays(MonthOf(DayOf(month))) != 31
    ensures Bounded(p, Run(p, Init(clock), es), t, byCommit)
  {
    var s := Run(p, Init(clock), es);
    InitKeeps(p, clock);
    RunKeeps(p, Init(clock), es);
    assert Aligned(p, t) by { PreviousMonthIff(month); }
    if t - Duration(p.window) < Start(p.window, t) { MonthPrompt(p, s, t, month, byCommit); }
    InvBound(p, s, t, byCommit);
  }

  /** The last instant of one window and the first of the next. */
  function Across(p: Policy, first: int): seq<Event> {
    var q := Request(1, first - 1, p.limit);
    Evaluation(p, Init(first - 1), q) + Evaluation(p, Told(p, Init(first - 1), q), Request(2, first, p.limit))
  }

  lemma StepIgnoresEvals(p: Policy, s: State, q: Request, evals: map<nat, Phase>)
    ensures var (s', ok) := Step(p, s, q); Step(p, s.(evals := evals), q) == (s'.(evals := evals), ok)
  {
  }

  lemma AcrossRuns(p: Policy, first: int)
    requires WellFormed(p) && first == Start(p.window, first) != Start(p.window, first - 1)
    requires Start(p.window, first - 1) != first - Length(p.window)
    ensures var es := Across(p, first);
            && Runnable(p, Init(first - 1), es) && OnTime(p, Init(first - 1), es)
            && Run(p, Init(first - 1), es).clock == first
            && Run(p, Init(first - 1), es).history == [FullCharge(p, 1, first - 1), FullCharge(p, 2, first)]
  {
    var q, q', s := Request(1, first - 1, p.limit), Request(2, first, p.limit), Init(first - 1);
    var s1 := Told(p, s, q);
    UnreadForgotten(p, first - 1, first);
    StepIsRun(p, s, q);
    StepIgnoresEvals(p, Step(p, s, q).0, q', s1.evals);
    StepIsRun(p, s1, q');
    RunConcat(p, s, Evaluation(p, s, q), Evaluation(p, s1, q'));
  }

  /** So a policy whose previous window does not begin one length earlier has no bound there. */
  lemma MisalignedUnbounded(p: Policy, first: int, byCommit: bool)
    requires WellFormed(p) && Duration(p.window) > 0 && first == Start(p.window, first) != Start(p.window, first - 1)
    requires Start(p.window, first - 1) != first - Duration(p.window)
    ensures Reaches(p, first - 1, Across(p, first), first, first) && Done(p, first - 1, Across(p, first), first)
    ensures !Bounded(p, Run(p, Init(first - 1), Across(p, first)), first, byCommit)
  {
    AcrossRuns(p, first);
    TwoCharges(FullCharge(p, 1, first - 1), FullCharge(p, 2, first), first - Duration(p.window), first, byCommit);
  }

  // ---------------------------------------------------------------- evaluations longer than the window

  /** A charge at the start of one window; then an evaluation that begins with the next one, and reads and
      swaps at `late`, when the first counter has expired. */
  function SlowRun(p: Policy, first: int, late: int): seq<Event> {
    Evaluation(p, Init(first - Length(p.window)), Request(1, first - Length(p.window), p.limit))
      + [Begin(2, first, p.limit), ReadPrevious(2, late), Get(2, late), Swap(2, late)]
  }

  /** The state after the first charge, and after the second. */
  function SlowCharged(p: Policy, start: int): State {
    var it := Store.Item(p.limit, Store.At(start + 2 * Length(p.window)));
    State(start, map[start := it], [FullCharge(p, 1, start)], map[1 := Finished(start, start, p.limit, 0, 1, Charged)])
  }

  lemma SlowFirst(p: Policy, start: int)
    requires WellFormed(p) && Start(p.window, start) == start
    ensures var q := Request(1, start, p.limit);
            Step(p, Init(start), q).1 && Told(p, Init(start), q) == SlowCharged(p, start)
  {
    NothingCarried(p, 0, 0, p.limit);
    var c := FullCharge(p, 1, start);
    assert [] + [c] == [c] && [c][..0] == [];
    assert WindowCount([c], start) == 1;
  }

  lemma SlowSecond(p: Policy, first: int, late: int)
    requires WellFormed(p) && late > first + Length(p.window)
    requires Start(p.window, first) == first == Start(p.window, late)
    ensures var s := SlowCharged(p, first - Length(p.window));
            var es := [Begin(2, first, p.limit), ReadPrevious(2, late), Get(2, late), Swap(2, late)];
            && Runnable(p, s, es) && OnTime(p, s, es)
            && Run(p, s, es).history == s.history + [Charge(2, first, first, late, p.limit)]
  {
    var s := SlowCharged(p, first - Length(p.window));
    var a, b, c, d := Begin(2, first, p.limit), ReadPrevious(2, late), Event.Get(2, late), Swap(2, late);
    var s1 := Apply(p, s, a);
    var s2 := Apply(p, s1, b);
    assert s2.evals[2].before == 0;
    NothingCarried(p, 0, 0, p.limit);
    var s3 := Apply(p, s2, c);
    assert s3.evals[2].Swapping? && s3.evals[2].cur == 0;
    RunCons(p, s3, d, []);
    RunCons(p, s2, c, [d]);
    RunCons(p, s1, b, [c, d]);
    RunCons(p, s, a, [b, c, d]);
    assert [a, b, c, d] == [a] + [b, c, d] && [b, c, d] == [b] + [c, d] && [c, d] == [c] + [d] && [d] == [d] + [];
  }

  /** Waiting for the run's end is needed when charges count at their clock readings, if windows can outlast
      their length: in a month of 31 days after one of 30, an evaluation that begins with the month and reads
      on its last day no longer finds the previous count, and is charged as of the month's first instant. */
  lemma SlowEvaluationUnbounded(p: Policy, first: int, late: int)
    requires WellFormed(p) && Duration(p.window) > 0 && late > first + Duration(p.window)
    requires Start(p.window, first) == first == Start(p.window, late)
    requires Start(p.window, first - Duration(p.window)) == first - Duration(p.window)
    ensures var s0 := Init(first - Duration(p.window));
            && Runnable(p, s0, SlowRun(p, first, late)) && OnTime(p, s0, SlowRun(p, first, late))
            && !Bounded(p, Run(p, s0, SlowRun(p, first, late)), first, false)
  {
    var start := first - Duration(p.window);
    var q := Request(1, start, p.limit);
    SlowFirst(p, start);
    StepIsRun(p, Init(start), q);
    SlowSecond(p, first, late);
    RunConcat(p, Init(start), Evaluation(p, Init(start), q),
              [Begin(2, first, p.limit), ReadPrevious(2, late), Get(2, late), Swap(2, late)]);
    var a, b := FullCharge(p, 1, start), Charge(2, first, first, late, p.limit);
    assert [a] + [b] == [a, b];
    TwoCharges(a, b, first - Duration(p.window), first, false);
  }

  lemma SlowMonthUnbounded(p: Policy, month: int)
    requires WellFormed(p) && p.window.Monthly?
    requires MonthDays(MonthOf(DayOf(month)) - 1) == 30 && MonthDays(MonthOf(DayOf(month))) == 31
    ensures var first := Start(p.window, month);
            var s0, es := Init(first - Duration(p.window)), SlowRun(p, first, first + Duration(p.window) + 1);
            Reaches(p, s0.clock, es, first, month) && !Bounded(p, Run(p, s0, es), first, false)
  {
    var first := Start(p.window, month);
    PreviousMonthIff(month);
    LongMonthTail(p.window, month);
    WindowsPartition(p.window, first - 1, Start(p.window, first - 1));
    SlowEvaluationUnbounded(p, first, first + Duration(p.window) + 1);
  }

  /** A monthly policy looks for the previous month 30 days back.  Over all runs without late swaps, its bound
      holds at every instant of a month if and only if the month before had 30 days and, when charges count at
      their clock readings, the month itself does not have 31; and at every instant by which the run is over
      if and only if the month before had 30 days. */
  lemma MonthBoundIff(p: Policy, month: int, byCommit: bool)
    requires WellFormed(p) && p.window.Monthly?
    ensures (forall clock, es, t :: Reaches(p, clock, es, t, month) ==>
               Bounded(p, Run(p, Init(clock), es), t, byCommit))
       <==> (MonthDays(MonthOf(DayOf(month)) - 1) == 30 && (byCommit || MonthDays(MonthOf(DayOf(month))) != 31))
    ensures (forall clock, es, t :: Reaches(p, clock, es, t, month) && Done(p, clock, es, t) ==>
               Bounded(p, Run(p, Init(clock), es), t, byCommit))
       <==> MonthDays(MonthOf(DayOf(month)) - 1) == 30
  {
    if MonthDays(MonthOf(DayOf(month)) - 1) != 30 {
      PreviousMonthIff(month);
      MisalignedUnbounded(p, Start(p.window, month), byCommit);
    } else {
      if !byCommit && MonthDays(MonthOf(DayOf(month))) == 31 { SlowMonthUnbounded(p, month); }
      forall clock, es, t | Reaches(p, clock, es, t, month) &&
                            (byCommit || Done(p, clock, es, t) || MonthDays(MonthOf(DayOf(month))) != 31)
        ensures Bounded(p, Run(p, Init(clock), es), t, byCommit)
      {
        ShortMonthBounded(p, clock, es, t, month, byCommit);
      }
    }
  }
}
