/** The circuit breaker around the Redis store.  Each method is one atomic step; calls overlap freely,
    so a report may arrive in any state, long after the Allow it belongs to. */
module CircuitBreaker {
  import opened Common

  datatype Mode = Closed | Open | HalfOpen
  datatype Config = Config(threshold: int, halfOpenAfter: int, maxProbe: int)
  datatype Breaker = Breaker(mode: Mode, failures: int, probeCount: int, openedAt: int)

  const NEW: Breaker := Breaker(Closed, 0, 0, 0)

  predicate Positive(c: Config) {
    c.threshold >= 1 && c.halfOpenAfter >= 0 && c.maxProbe >= 1
  }

  function Allow(c: Config, b: Breaker, now: int): (Breaker, bool) {
    match b.mode
    case Closed => (b, true)
    case Open =>
      if now - b.openedAt > c.halfOpenAfter then (b.(mode := HalfOpen, probeCount := 0), true) else (b, false)
    case HalfOpen => (b, b.probeCount < c.maxProbe)
  }

  function RecordSuccess(c: Config, b: Breaker): Breaker {
    match b.mode
    case HalfOpen =>
      if b.probeCount + 1 >= c.maxProbe then b.(mode := Closed, failures := 0, probeCount := 0)
      else b.(probeCount := b.probeCount + 1)
    case Closed => b.(failures := 0)
    case Open => b
  }

  function RecordFailure(c: Config, b: Breaker, now: int): Breaker {
    match b.mode
    case Closed =>
      if b.failures + 1 >= c.threshold then b.(mode := Open, failures := b.failures + 1, openedAt := now)
      else b.(failures := b.failures + 1)
    case HalfOpen => b.(mode := Open, openedAt := now, probeCount := 0)
    case Open => b
  }

  // ---------------------------------------------------------------- runs

  datatype Event = Ask(now: int) | Succeed(now: int) | Fail(now: int)

  /** A call let through: when, and how often the breaker had opened by then. */
  datatype Pass = Pass(at: int, openingsBefore: nat)

  datatype State = State(
    b: Breaker,
    clock: int,
    inFlight: nat,          // calls let through and not yet reported
    openings: seq<int>,     // bookkeeping: when it opened
    passes: seq<Pass>)      // bookkeeping: what it let through

  predicate Enabled(s: State, e: Event) {
    s.clock <= e.now && (!e.Ask? ==> s.inFlight > 0)
  }

  function Apply(c: Config, s: State, e: Event): State
    requires Enabled(s, e)
  {
    match e
    case Ask(now) =>
      var (b, ok) := Allow(c, s.b, now);
      if ok then s.(b := b, clock := now, inFlight := s.inFlight + 1, passes := s.passes + [Pass(now, |s.openings|)])
      else s.(b := b, clock := now)
    case Succeed(now) => s.(b := RecordSuccess(c, s.b), clock := now, inFlight := s.inFlight - 1)
    case Fail(now) =>
      var b := RecordFailure(c, s.b, now);
      s.(b := b, clock := now, inFlight := s.inFlight - 1,
         openings := if b.mode == Open && s.b.mode != Open then s.openings + [now] else s.openings)
  }

  /** Consecutive openings, hence any two, lie more than the delay apart. */
  predicate Spaced(c: Config, openings: seq<int>) {
    forall i, j :: 0 <= i < j < |openings| ==> openings[j] - openings[i] > c.halfOpenAfter
  }

  /** The call waited out the delay after every opening before it. */
  predicate Waited(c: Config, openings: seq<int>, p: Pass) {
    && p.openingsBefore <= |openings|
    && forall i :: 0 <= i < p.openingsBefore ==> p.at - openings[i] > c.halfOpenAfter
  }

  predicate ModeOk(c: Config, s: State) {
    && (s.b.mode == Closed ==> 0 <= s.b.failures < c.threshold)
    && (s.b.mode == HalfOpen ==> 0 <= s.b.probeCount < c.maxProbe)
    && (s.b.mode == Open ==> s.openings != [])
    && (s.openings != [] ==>
          && s.b.openedAt == s.openings[|s.openings| - 1] <= s.clock
          && (s.b.mode != Open ==> s.clock > s.b.openedAt + c.halfOpenAfter))
  }

  ghost predicate Inv(c: Config, s: State) {
    && Positive(c) && ModeOk(c, s) && Spaced(c, s.openings)
    && forall k :: 0 <= k < |s.passes| ==> Waited(c, s.openings, s.passes[k])
  }

  lemma StepKeeps(c: Config, s: State, e: Event)
    requires Inv(c, s) && Enabled(s, e)
    ensures Inv(c, Apply(c, s, e))
  {
    var s' := Apply(c, s, e);
    assert ModeOk(c, s');
    assert s'.openings != s.openings ==> s'.openings == s.openings + [e.now];
    assert forall i :: 0 <= i < |s.openings| ==> s.openings[i] <= s.b.openedAt;
    forall k | 0 <= k < |s'.passes| ensures Waited(c, s'.openings, s'.passes[k]) {
      if k < |s.passes| { assert Waited(c, s.openings, s.passes[k]); }
    }
  }

  predicate Runnable(c: Config, s: State, es: seq<Event>)
    decreases |es|
  {
    es == [] || (Enabled(s, es[0]) && Runnable(c, Apply(c, s, es[0]), es[1..]))
  }

  function Run(c: Config, s: State, es: seq<Event>): State
    requires Runnable(c, s, es)
    decreases |es|
  {
    if es == [] then s else Run(c, Apply(c, s, es[0]), es[1..])
  }

  lemma {:induction false} RunKeeps(c: Config, s: State, es: seq<Event>)
    requires Inv(c, s) && Runnable(c, s, es)
    ensures Inv(c, Run(c, s, es))
    decreases |es|
  {
    if es != [] {
      StepKeeps(c, s, es[0]);
      RunKeeps(c, Apply(c, s, es[0]), es[1..]);
    }
  }

  function Start(clock: int): State {
    State(NEW, clock, 0, [], [])
  }

  /** Over every run: closed means fewer failures than the threshold, half-open means fewer probes than
      the maximum, openings are more than `halfOpenAfter` apart, and nothing is let through within
      `halfOpenAfter` after any opening that came before it. */
  lemma BreakerSafety(c: Config, clock: int, es: seq<Event>)
    requires Positive(c) && Runnable(c, Start(clock), es)
    ensures var s := Run(c, Start(clock), es);
            && (s.b.mode == Closed ==> s.b.failures < c.threshold)
            && (s.b.mode == HalfOpen ==> s.b.probeCount < c.maxProbe)
            && Spaced(c, s.openings)
            && (forall k :: 0 <= k < |s.passes| ==> Waited(c, s.openings, s.passes[k]))
  {
    RunKeeps(c, Start(clock), es);
  }

  /** So a call is refused exactly when the breaker is open and the wait is not over; in particular a
      half-open breaker refuses nobody, however many probes are in flight. */
  lemma RefusedIffWaiting(c: Config, clock: int, es: seq<Event>, now: int)
    requires Positive(c) && Runnable(c, Start(clock), es)
    ensures var b := Run(c, Start(clock), es).b;
            !Allow(c, b, now).1 <==> b.mode == Open && now - b.openedAt <= c.halfOpenAfter
  {
    RunKeeps(c, Start(clock), es);
  }

  /** Every call let through is in flight until it is reported. */
  lemma {:induction false} PassesAccounted(c: Config, s: State, es: seq<Event>)
    requires Runnable(c, s, es)
    ensures var s' := Run(c, s, es);
            |s'.passes| - |s.passes| == s'.inFlight - s.inFlight + Successes(es) + Failures(es)
    decreases |es|
  {
    if es != [] { PassesAccounted(c, Apply(c, s, es[0]), es[1..]); }
  }

  // ---------------------------------------------------------------- opening

  predicate NoSuccess(es: seq<Event>) {
    forall i :: 0 <= i < |es| ==> !es[i].Succeed?
  }

  predicate NoFailure(es: seq<Event>) {
    forall i :: 0 <= i < |es| ==> !es[i].Fail?
  }

  function Failures(es: seq<Event>): nat {
    if es == [] then 0 else (if es[0].Fail? then 1 else 0) + Failures(es[1..])
  }

  function Successes(es: seq<Event>): nat {
    if es == [] then 0 else (if es[0].Succeed? then 1 else 0) + Successes(es[1..])
  }

  /** Open since `at`, so that nobody passes until the delay after it is over. */
  ghost predicate ShutSince(c: Config, b: Breaker, at: int) {
    b.mode == Open && b.openedAt == at && forall t :: t - at <= c.halfOpenAfter ==> !Allow(c, b, t).1
  }

  /** Fewer failures than are missing to the threshold leave a closed breaker closed, however many calls ask
      meanwhile; the one that reaches it opens the breaker as of its own report. */
  lemma {:induction false} FailuresOpen(c: Config, s: State, es: seq<Event>)
    requires Inv(c, s) && s.b.mode == Closed && Runnable(c, s, es) && NoSuccess(es)
    ensures var b, n := Run(c, s, es).b, s.b.failures + Failures(es);
            && (n < c.threshold ==> b.mode == Closed && b.failures == n)
            && (n == c.threshold && es != [] && es[|es| - 1].Fail? ==> ShutSince(c, b, es[|es| - 1].now))
    decreases |es|
  {
    if es != [] {
      var s' := Apply(c, s, es[0]);
      StepKeeps(c, s, es[0]);
      if s'.b.mode == Closed {
        FailuresOpen(c, s', es[1..]);
      } else if |es| > 1 && es[|es| - 1].Fail? {
        FailuresCounted(es[1..]);
      }
    }
  }

  lemma {:induction false} FailuresCounted(es: seq<Event>)
    requires es != [] && es[|es| - 1].Fail?
    ensures Failures(es) > 0
  {
    if |es| > 1 { FailuresCounted(es[1..]); }
  }

  /** From every reachable closed state: the failures still missing to the threshold, and no fewer, open it. */
  lemma ThresholdOpens(c: Config, clock: int, es: seq<Event>, more: seq<Event>)
    requires Positive(c) && Runnable(c, Start(clock), es)
    requires var s := Run(c, Start(clock), es); s.b.mode == Closed && Runnable(c, s, more) && NoSuccess(more)
    ensures var s := Run(c, Start(clock), es);
            var b, missing := Run(c, s, more).b, c.threshold - s.b.failures;
            && (Failures(more) < missing ==> b.mode == Closed)
            && (Failures(more) == missing && more != [] && more[|more| - 1].Fail? ==>
                  ShutSince(c, b, more[|more| - 1].now))
  {
    RunKeeps(c, Start(clock), es);
    FailuresOpen(c, Run(c, Start(clock), es), more);
  }

  /** A success reported while closed makes it take the whole threshold again. */
  lemma SuccessResets(c: Config, clock: int, es: seq<Event>, now: int, more: seq<Event>)
    requires Positive(c) && Runnable(c, Start(clock), es)
    requires var s := Run(c, Start(clock), es);
             && s.b.mode == Closed && Enabled(s, Succeed(now))
             && Runnable(c, Apply(c, s, Succeed(now)), more) && NoSuccess(more)
    ensures var b := Run(c, Apply(c, Run(c, Start(clock), es), Succeed(now)), more).b;
            && (Failures(more) < c.threshold ==> b.mode == Closed)
            && (Failures(more) == c.threshold && more != [] && more[|more| - 1].Fail? ==>
                  ShutSince(c, b, more[|more| - 1].now))
  {
    RunKeeps(c, Start(clock), es);
    var s := Run(c, Start(clock), es);
    StepKeeps(c, s, Succeed(now));
    FailuresOpen(c, Apply(c, s, Succeed(now)), more);
  }

  /** One failure while half-open opens it at once. */
  lemma ProbeFailureOpens(c: Config, clock: int, es: seq<Event>, now: int)
    requires Positive(c) && Runnable(c, Start(clock), es)
    requires var s := Run(c, Start(clock), es); s.b.mode == HalfOpen && Enabled(s, Fail(now))
    ensures ShutSince(c, Apply(c, Run(c, Start(clock), es), Fail(now)).b, now)
  {
    RunKeeps(c, Start(clock), es);
  }

  /** Until the delay is over, nothing that is reported or asked changes an open breaker or passes it. */
  lemma {:induction false} StaysShut(c: Config, s: State, es: seq<Event>)
    requires Inv(c, s) && s.b.mode == Open && Runnable(c, s, es)
    requires forall i :: 0 <= i < |es| ==> es[i].now - s.b.openedAt <= c.halfOpenAfter
    ensures Run(c, s, es).b == s.b && Run(c, s, es).passes == s.passes
    decreases |es|
  {
    if es != [] {
      StepKeeps(c, s, es[0]);
      StaysShut(c, Apply(c, s, es[0]), es[1..]);
    }
  }

  /** One call after another, each let through and failed. */
  function FailedCalls(times: seq<int>): seq<Event> {
    if times == [] then [] else [Ask(times[0]), Fail(times[0])] + FailedCalls(times[1..])
  }

  /** The state after one call that is let through and fails. */
  function Failed(c: Config, s: State, t: int): State
    requires s.b.mode == Closed && s.clock <= t
  {
    Apply(c, Apply(c, s, Ask(t)), Fail(t))
  }

  lemma FailedCall(c: Config, s: State, t: int)
    requires Inv(c, s) && s.b.mode == Closed && s.clock <= t
    ensures var s' := Failed(c, s, t);
            && Inv(c, s') && s'.clock == t && |s'.passes| == |s.passes| + 1
            && if s.b.failures + 1 < c.threshold then s'.b.mode == Closed && s'.b.failures == s.b.failures + 1
               else ShutSince(c, s'.b, t)
  {
    StepKeeps(c, s, Ask(t));
    StepKeeps(c, Apply(c, s, Ask(t)), Fail(t));
  }

  lemma FailedThen(c: Config, s: State, t: int, es: seq<Event>)
    requires s.b.mode == Closed && s.clock <= t && Runnable(c, Failed(c, s, t), es)
    ensures Runnable(c, s, [Ask(t), Fail(t)] + es) && Run(c, s, [Ask(t), Fail(t)] + es) == Run(c, Failed(c, s, t), es)
  {
    RunCons(c, Apply(c, s, Ask(t)), Fail(t), es);
    RunCons(c, s, Ask(t), [Fail(t)] + es);
    assert [Ask(t), Fail(t)] + es == [Ask(t)] + ([Fail(t)] + es);
  }

  /** Calls that fail one after another do open it: as many as are missing, all of them let through. */
  lemma {:induction false} FailedCallsOpen(c: Config, s: State, times: seq<int>)
    requires Inv(c, s) && Nondecreasing(times, s.clock) && s.b.mode == Closed
    requires s.b.failures + |times| == c.threshold
    ensures Runnable(c, s, FailedCalls(times))
    ensures ShutSince(c, Run(c, s, FailedCalls(times)).b, times[|times| - 1])
    ensures |Run(c, s, FailedCalls(times)).passes| == |s.passes| + |times|
    decreases |times|
  {
    FailedCall(c, s, times[0]);
    if |times| > 1 { FailedCallsOpen(c, Failed(c, s, times[0]), times[1..]); }
    FailedThen(c, s, times[0], FailedCalls(times[1..]));
  }

  // ---------------------------------------------------------------- recovery

  /** While half-open, the probes still missing, and no fewer, close it, whatever asks meanwhile. */
  lemma {:induction false} ProbesCounted(c: Config, s: State, es: seq<Event>)
    requires Inv(c, s) && s.b.mode == HalfOpen && Runnable(c, s, es) && NoFailure(es)
    ensures var b, n := Run(c, s, es).b, s.b.probeCount + Successes(es);
            && (n < c.maxProbe ==> b.mode == HalfOpen && b.probeCount == n)
            && (n >= c.maxProbe ==> b.mode == Closed && b.failures == 0)
    decreases |es|
  {
    if es != [] {
      var s' := Apply(c, s, es[0]);
      StepKeeps(c, s, es[0]);
      if s'.b.mode == HalfOpen { ProbesCounted(c, s', es[1..]); } else { StaysClosed(c, s', es[1..]); }
    }
  }

  lemma {:induction false} StaysClosed(c: Config, s: State, es: seq<Event>)
    requires s.b.mode == Closed && s.b.failures == 0 && Runnable(c, s, es) && NoFailure(es)
    ensures Run(c, s, es).b.mode == Closed && Run(c, s, es).b.failures == 0
    decreases |es|
  {
    if es != [] { StaysClosed(c, Apply(c, s, es[0]), es[1..]); }
  }

  /** One call after another, each let through and successful. */
  function SuccessfulCalls(times: seq<int>): seq<Event> {
    if times == [] then [] else [Ask(times[0]), Succeed(times[0])] + SuccessfulCalls(times[1..])
  }

  predicate Nondecreasing(times: seq<int>, clock: int) {
    times == [] || (clock <= times[0] && Nondecreasing(times[1..], times[0]))
  }

  lemma {:induction false} ProbesClose(c: Config, s: State, times: seq<int>)
    requires Inv(c, s) && Nondecreasing(times, s.clock) && s.b.mode == HalfOpen
    requires s.b.probeCount + |times| == c.maxProbe
    ensures Runnable(c, s, SuccessfulCalls(times))
    ensures var s' := Run(c, s, SuccessfulCalls(times)); s'.b.mode == Closed && s'.b.failures == 0
    decreases |times|
  {
    var ask, succeed, rest := Ask(times[0]), Succeed(times[0]), SuccessfulCalls(times[1..]);
    var s1 := Apply(c, s, ask);
    var s2 := Apply(c, s1, succeed);
    StepKeeps(c, s, ask);
    StepKeeps(c, s1, succeed);
    if |times| > 1 { ProbesClose(c, s2, times[1..]); }
    RunCons(c, s1, succeed, rest);
    RunCons(c, s, ask, [succeed] + rest);
    assert SuccessfulCalls(times) == [ask] + ([succeed] + rest);
  }

  lemma RunCons(c: Config, s: State, e: Event, es: seq<Event>)
    requires Enabled(s, e) && Runnable(c, Apply(c, s, e), es)
    ensures Runnable(c, s, [e] + es) && Run(c, s, [e] + es) == Run(c, Apply(c, s, e), es)
  {
    assert ([e] + es)[1..] == es;
  }

  /** From any reachable open state: wait out the delay, make `maxProbe` successful calls one after
      another, and the breaker is closed with a clean count. */
  lemma Recovers(c: Config, clock: int, es: seq<Event>, times: seq<int>)
    requires Positive(c) && Runnable(c, Start(clock), es) && |times| == c.maxProbe
    requires var s := Run(c, Start(clock), es);
             s.b.mode == Open && Nondecreasing(times, s.clock) && times[0] - s.b.openedAt > c.halfOpenAfter
    ensures var s := Run(c, Start(clock), es);
            && Runnable(c, s, SuccessfulCalls(times))
            && var b := Run(c, s, SuccessfulCalls(times)).b;
               b.mode == Closed && b.failures == 0
  {
    RunKeeps(c, Start(clock), es);
    var s := Run(c, Start(clock), es);
    var probing := s.(b := s.b.(mode := HalfOpen, probeCount := 0), clock := times[0]);
    // the first Ask takes the open breaker where it takes the half-open one
    assert Apply(c, s, Ask(times[0])) == Apply(c, probing, Ask(times[0]));
    ProbesClose(c, probing, times);
    var calls := SuccessfulCalls(times);
    assert calls[0] == Ask(times[0]);
    assert Runnable(c, s, calls) && Run(c, s, calls) == Run(c, probing, calls);
  }

  // ---------------------------------------------------------------- the code

  class CircuitBreaker {
    const config: Config
    var mode: Mode
    var failures: int
    var probeCount: int
    var openedAt: int

    ghost function View(): Breaker
      reads this
    {
      Breaker(mode, failures, probeCount, openedAt)
    }

    /** Thresholds as NewWithOptions defaults them. */
    constructor (threshold: int, halfOpenAfter: int, maxProbe: int)
      ensures View() == NEW && Positive(config)
      ensures config.threshold == if threshold > 0 then threshold else 5
      ensures config.halfOpenAfter == if halfOpenAfter > 0 then halfOpenAfter else 10 * SECOND
      ensures config.maxProbe == if maxProbe > 0 then maxProbe else 2
    {
      config := Config(if threshold <= 0 then 5 else threshold,
                       if halfOpenAfter <= 0 then 10_000_000_000 else halfOpenAfter,
                       if maxProbe <= 0 then 2 else maxProbe);
      mode, failures, probeCount, openedAt := Closed, 0, 0, 0;
    }

    method AllowCall(now: int) returns (ok: bool)
      modifies this
      ensures (View(), ok) == Allow(config, old(View()), now)
    {
      match mode {
        case Closed => ok := true;
        case Open =>
          if now - openedAt > config.halfOpenAfter {
            mode := HalfOpen;
            probeCount := 0;
            ok := true;
          } else {
            ok := false;
          }
        case HalfOpen => ok := probeCount < config.maxProbe;
      }
    }

    method Success()
      modifies this
      ensures View() == RecordSuccess(config, old(View()))
    {
      if mode == HalfOpen {
        probeCount := probeCount + 1;
        if probeCount >= config.maxProbe {
          mode, failures, probeCount := Closed, 0, 0;
        }
      } else if mode == Closed {
        failures := 0;
      }
    }

    method Failure(now: int)
      modifies this
      ensures View() == RecordFailure(config, old(View()), now)
    {
      if mode == Closed {
        failures := failures + 1;
        if failures >= config.threshold {
          mode, openedAt := Open, now;
        }
      } else if mode == HalfOpen {
        mode, openedAt, probeCount := Open, now, 0;
      }
    }

    /** One protected call: refused, or run and reported.  `outcome` is what the operation returns,
        `asked` and `reported` the clock before and after it. */
    method Do(outcome: bool, asked: int, reported: int) returns (ran: bool)
      modifies this
      ensures ran == Allow(config, old(View()), asked).1
      ensures var b := Allow(config, old(View()), asked).0;
              View() == if !ran then b else if outcome then RecordSuccess(config, b)
                        else RecordFailure(config, b, reported)
    {
      ran := AllowCall(asked);
      if !ran { return; }
      if outcome { Success(); } else { Failure(reported); }
    }
  }
}
