/** The sliding window counter: an estimate from two windows, and how far off it can be, with any number of
    evaluations taking interleaved store calls.  float64 is `real`. */
module SlidingCounter {
  import opened StoreModel
  import opened Windows

  datatype Policy = Policy(limit: int, window: Window, maxRetries: nat)

  predicate WellFormed(p: Policy) {
    p.limit >= 1 && p.maxRetries >= 1
  }

  function Length(w: Window): (n: int)
    ensures n > 0
  {
    if Duration(w) <= 0 then MINUTE else Duration(w)
  }

  /** The fraction of the previous window still inside the rolling view. */
  function Weight(length: int, elapsed: int): real
    requires length > 0
  {
    var weight := (length - elapsed) as real / length as real;
    if weight < 0.0 then 0.0 else weight
  }

  /** The previous count as the estimate weighs it. */
  function Carried(length: int, elapsed: int, before: int): real
    requires length > 0
  {
    before as real * Weight(length, elapsed)
  }

  /** The estimate is over the limit with `cur` counted in the current window and `cost` to come. */
  predicate Over(p: Policy, elapsed: int, before: int, cur: int, cost: int) {
    (cur + cost) as real + Carried(Length(p.window), elapsed, before) > p.limit as real
  }

  // ---------------------------------------------------------------- the machine

  datatype Result = Charged | OverLimit | Contended

  /** Where one evaluation stands.  `now` is its clock reading and `start` the window it falls in; `begun` and
      `ended` count the charges to that window when it started and when it returned, and `seen` is how much
      of the history there was when it last read the counter. */
  datatype Phase =
    | Begun(now: int, start: int, cost: int, begun: nat)
    | Reading(now: int, start: int, cost: int, begun: nat, before: int, attempt: nat)
    | Swapping(now: int, start: int, cost: int, begun: nat, before: int, attempt: nat, cur: int, seen: nat)
    | Finished(now: int, start: int, cost: int, begun: nat, ended: nat, result: Result)

  /** A charge: whose, its evaluation's clock reading and window, and the instant of the swap. */
  datatype Charge = Charge(id: nat, now: int, start: int, at: int, cost: int)

  datatype State = State(
    clock: int,
    counters: map<int, Item>,
    history: seq<Charge>,        // bookkeeping: every charge, in order
    evals: map<nat, Phase>)

  function Init(clock: int): State {
    State(clock, map[], [], map[])
  }

  function Counter(s: State, start: int, now: int): Item {
    if start in s.counters then Visible(s.counters[start], now) else ZERO
  }

  datatype Event =
    | Begin(id: nat, at: int, cost: int)
    | ReadPrevious(id: nat, at: int)
    | Get(id: nat, at: int)
    | Swap(id: nat, at: int)

  predicate Possible(s: State, e: Event) {
    && s.clock <= e.at
    && match e
       case Begin(id, _, cost) => id !in s.evals && cost >= 1
       case ReadPrevious(id, _) => id in s.evals && s.evals[id].Begun?
       case Get(id, _) => id in s.evals && s.evals[id].Reading?
       case Swap(id, _) => id in s.evals && s.evals[id].Swapping?
  }

  /** A swap falls in the window that it charges. */
  predicate InWindow(p: Policy, s: State, e: Event)
    requires Possible(s, e)
  {
    e.Swap? ==> Start(p.window, e.at) == s.evals[e.id].start
  }

  /** The evaluation returns. */
  function Return(s: State, v: Phase, result: Result): Phase {
    Finished(v.now, v.start, v.cost, v.begun, WindowCount(s.history, v.start), result)
  }

  function Apply(p: Policy, s: State, e: Event): State
    requires WellFormed(p) && Possible(s, e)
  {
    match e
    case Begin(id, at, cost) =>
      var start := Start(p.window, at);
      s.(clock := at, evals := s.evals[id := Begun(at, start, cost, WindowCount(s.history, start))])
    case ReadPrevious(id, at) =>
      var v := s.evals[id];
      var before := Counter(s, v.start - Length(p.window), at).value;
      s.(clock := at, evals := s.evals[id := Reading(v.now, v.start, v.cost, v.begun, before, 0)])
    case Get(id, at) =>
      var v := s.evals[id];
      var cur := Counter(s, v.start, at).value;
      s.(clock := at,
         evals := s.evals[id :=
           if Over(p, v.now - v.start, v.before, cur, v.cost) then Return(s, v, OverLimit)
           else Swapping(v.now, v.start, v.cost, v.begun, v.before, v.attempt, cur, |s.history|)])
    case Swap(id, at) =>
      var v := s.evals[id];
      var it := Counter(s, v.start, at);
      if it.value == v.cur then
        var charged := s.(history := s.history + [Charge(id, v.now, v.start, at, v.cost)]);
        State(at,
              s.counters[v.start := Item(v.cur + v.cost, Renew(it.expiry, 2 * Length(p.window), at))],
              charged.history,
              s.evals[id := Return(charged, v, Charged)])
      else
        s.(clock := at,
           evals := s.evals[id :=
             if v.attempt + 1 < p.maxRetries then Reading(v.now, v.start, v.cost, v.begun, v.before, v.attempt + 1)
             else Return(s, v, Contended)])
  }

  predicate Runnable(p: Policy, s: State, es: seq<Event>)
    requires WellFormed(p)
    decreases |es|
  {
    es == [] || (Possible(s, es[0]) && Runnable(p, Apply(p, s, es[0]), es[1..]))
  }

  function Run(p: Policy, s: State, es: seq<Event>): State
    requires WellFormed(p) && Runnable(p, s, es)
    decreases |es|
  {
    if es == [] then s else Run(p, Apply(p, s, es[0]), es[1..])
  }

  /** Every evaluation that swaps does so before its window ends. */
  predicate OnTime(p: Policy, s: State, es: seq<Event>)
    requires WellFormed(p) && Runnable(p, s, es)
    decreases |es|
  {
    es == [] || (InWindow(p, s, es[0]) && OnTime(p, Apply(p, s, es[0]), es[1..]))
  }

  // ---------------------------------------------------------------- true counts

  /** What has been charged to the window that starts at `start`. */
  function WindowCost(h: seq<Charge>, start: int): int {
    if h == [] then 0
    else WindowCost(h[..|h| - 1], start) + if h[|h| - 1].start == start then h[|h| - 1].cost else 0
  }

  /** How many charges there have been to it. */
  function WindowCount(h: seq<Charge>, start: int): nat {
    if h == [] then 0 else WindowCount(h[..|h| - 1], start) + if h[|h| - 1].start == start then 1 else 0
  }

  /** The time a charge counts at: its evaluation's clock reading, or the swap. */
  function Stamp(c: Charge, byCommit: bool): int {
    if byCommit then c.at else c.now
  }

  /** The cost charged in [lo, hi]. */
  function CostIn(h: seq<Charge>, lo: int, hi: int, byCommit: bool): int {
    if h == [] then 0
    else
      CostIn(h[..|h| - 1], lo, hi, byCommit)
        + if lo <= Stamp(h[|h| - 1], byCommit) <= hi then h[|h| - 1].cost else 0
  }

  predicate ChargeOk(p: Policy, c: Charge, clock: int) {
    && c.cost >= 1 && c.now <= c.at <= clock
    && c.start == Start(p.window, c.now) == Start(p.window, c.at)
  }

  predicate Charges(p: Policy, h: seq<Charge>, clock: int) {
    forall i :: 0 <= i < |h| ==> ChargeOk(p, h[i], clock)
  }

  lemma CostSnoc(h: seq<Charge>, c: Charge, lo: int, hi: int, byCommit: bool)
    ensures CostIn(h + [c], lo, hi, byCommit) ==
            CostIn(h, lo, hi, byCommit) + if lo <= Stamp(c, byCommit) <= hi then c.cost else 0
  {
    assert (h + [c])[..|h|] == h;
  }

  lemma WindowSnoc(h: seq<Charge>, c: Charge, start: int)
    ensures WindowCost(h + [c], start) == WindowCost(h, start) + if c.start == start then c.cost else 0
  {
    assert (h + [c])[..|h|] == h;
  }

  /** What has been charged to a window up to `t`. */
  function Until(h: seq<Charge>, start: int, t: int, byCommit: bool): int {
    if h == [] then 0
    else
      var c := h[|h| - 1];
      Until(h[..|h| - 1], start, t, byCommit) + if c.start == start && Stamp(c, byCommit) <= t then c.cost else 0
  }

  lemma {:induction false} UntilGrows(h: seq<Charge>, start: int, t: int, byCommit: bool)
    requires forall i :: 0 <= i < |h| ==> h[i].cost >= 1
    ensures 0 <= Until(h, start, t, byCommit) <= WindowCost(h, start)
  {
    if h != [] { UntilGrows(h[..|h| - 1], start, t, byCommit); }
  }

  /** The charge lies in the current window `a`, or in the previous one `b`. */
  predicate Within(c: Charge, lo: int, t: int, byCommit: bool, a: int, b: int) {
    c.cost >= 1 && (lo <= Stamp(c, byCommit) <= t ==> c.start == a || c.start == b)
  }

  /** Charges that all lie in two windows add up to no more than one, and of the other what came by `t`. */
  lemma {:induction false} Covered(h: seq<Charge>, lo: int, t: int, byCommit: bool, a: int, b: int)
    requires a != b && forall i :: 0 <= i < |h| ==> Within(h[i], lo, t, byCommit, a, b)
    ensures 0 <= CostIn(h, lo, t, byCommit) <= Until(h, a, t, byCommit) + WindowCost(h, b)
  {
    if h != [] {
      assert Within(h[|h| - 1], lo, t, byCommit, a, b);
      Covered(h[..|h| - 1], lo, t, byCommit, a, b);
    }
  }

  lemma {:induction false} CoveredByOne(h: seq<Charge>, lo: int, t: int, byCommit: bool, a: int)
    requires forall i :: 0 <= i < |h| ==> Within(h[i], lo, t, byCommit, a, a)
    ensures 0 <= CostIn(h, lo, t, byCommit) <= WindowCost(h, a)
  {
    if h != [] {
      assert Within(h[|h| - 1], lo, t, byCommit, a, a);
      CoveredByOne(h[..|h| - 1], lo, t, byCommit, a);
    }
  }

  // ---------------------------------------------------------------- weights

  /** n * (part / whole), the way the source weighs a count. */
  function Share(n: int, part: int, whole: int): real
    requires whole > 0
  {
    n as real * (part as real / whole as real)
  }

  lemma SharesAdd(n: int, part: int, whole: int)
    requires whole > 0
    ensures Share(n, part, whole) + Share(n, whole - part, whole) == n as real
  {
    var x, w := part as real, whole as real;
    Fractions(x, w, w);
    assert (whole - part) as real == w - x;
    assert n as real * (x / w) + n as real * (1.0 - x / w) == n as real;
  }

  lemma Fractions(x: real, y: real, w: real)
    requires w > 0.0
    ensures (y - x) / w == y / w - x / w && w / w == 1.0 && 0.0 / w == 0.0
    ensures x <= y ==> x / w <= y / w
    ensures x < y ==> x / w < y / w
  {
  }

  lemma ShareMonotone(n: int, part: int, more: int, whole: int)
    requires whole > 0 && n >= 0 && part <= more
    ensures Share(n, part, whole) <= Share(n, more, whole)
    ensures part < more && n > 0 ==> Share(n, part, whole) < Share(n, more, whole)
  {
    var w, x, y := whole as real, part as real, more as real;
    Fractions(x, y, w);
    Times(n as real, x / w, y / w);
  }

  lemma ShareEnds(n: int, whole: int)
    requires whole > 0
    ensures Share(n, 0, whole) == 0.0 && Share(n, whole, whole) == n as real
  {
    Fractions(0.0, 0.0, whole as real);
  }

  lemma ShareOrder(n: int, part: int, more: int, whole: int)
    requires whole > 0 && n >= 0 && 0 <= part <= more <= whole
    ensures 0.0 <= Share(n, part, whole) <= Share(n, more, whole) <= n as real
    ensures part < whole && n > 0 ==> Share(n, part, whole) < n as real
  {
    ShareEnds(n, whole);
    ShareMonotone(n, 0, part, whole);
    ShareMonotone(n, part, more, whole);
    ShareMonotone(n, more, whole, whole);
    ShareMonotone(n, part, whole, whole);
  }

  lemma Times(k: real, x: real, y: real)
    requires k >= 0.0 && x <= y
    ensures k * x <= k * y
    ensures k > 0.0 && x < y ==> k * x < k * y
  {
  }

  lemma CarriedIsShare(length: int, elapsed: int, n: int)
    requires length > 0 && 0 <= elapsed <= length && n >= 0
    ensures Carried(length, elapsed, n) == Share(n, length - elapsed, length) >= 0.0
  {
    Fractions(0.0, (length - elapsed) as real, length as real);
    ShareOrder(n, length - elapsed, length, length);
  }

  /** The weight never grows with time, is never negative, and is zero from one length on. */
  lemma CarriedFades(length: int, elapsed: int, later: int, n: int)
    requires length > 0 && 0 <= elapsed <= later && n >= 0
    ensures 0.0 <= Carried(length, later, n) <= Carried(length, elapsed, n)
    ensures later >= length ==> Carried(length, later, n) == 0.0
  {
    var w, x, y := length as real, (length - later) as real, (length - elapsed) as real;
    Fractions(x, y, w);
    Fractions(x, 0.0, w);
    Times(n as real, Weight(length, later), Weight(length, elapsed));
    Times(n as real, 0.0, Weight(length, later));
  }

  // ---------------------------------------------------------------- invariant

  /** How the windows of a policy lie: an instant is in its own window, at most two lengths into it, and
      before every later window. */
  lemma Grid(p: Policy, a: int, b: int)
    requires Duration(p.window) > 0
    ensures Start(p.window, a) <= a <= Start(p.window, a) + 2 * Duration(p.window)
    ensures Start(p.window, Start(p.window, a)) == Start(p.window, a)
    ensures a <= b && Start(p.window, a) != Start(p.window, b) ==> a < Start(p.window, b)
  {
    WindowsPartition(p.window, a, Start(p.window, a));
    WindowsPartition(p.window, b, a);
    WindowLength(p.window, a);
  }

  predicate CounterOk(p: Policy, s: State, start: int) {
    && 0 <= WindowCost(s.history, start) <= p.limit
    && if start in s.counters then
         && s.counters[start].value == WindowCost(s.history, start)
         && s.counters[start].expiry.At? && s.counters[start].expiry.ns >= start + 2 * Duration(p.window)
       else WindowCost(s.history, start) == 0
  }

  /** When it was made, the charge and those before it in its window fitted with what the previous window
      carries, by its own clock and by that window's final count; unless it was made so late in a long month
      that nothing is carried any more. */
  predicate ChargeFits(p: Policy, h: seq<Charge>, i: nat)
    requires i < |h|
  {
    var c, w := h[i], Length(p.window);
    c.at <= c.start + w ==>
      WindowCost(h[..i + 1], c.start) as real + Carried(w, c.now - c.start, WindowCost(h, c.start - w)) <=
      p.limit as real
  }

  /** Up to one length into the window, what was read for the previous window is its final count. */
  predicate BeforeOk(p: Policy, s: State, start: int, before: int) {
    before >= 0 && (s.clock <= start + Length(p.window) ==> before == WindowCost(s.history, start - Length(p.window)))
  }

  predicate EvalOk(p: Policy, s: State, v: Phase) {
    && v.cost >= 1 && v.now <= s.clock && v.start == Start(p.window, v.now)
    && match v
       case Reading(_, start, _, _, before, _) => BeforeOk(p, s, start, before)
       case Swapping(now, start, cost, _, before, _, cur, _) =>
         BeforeOk(p, s, start, before) && !Over(p, now - start, before, cur, cost)
       case _ => true
  }

  ghost predicate Inv(p: Policy, s: State) {
    && WellFormed(p) && Duration(p.window) > 0
    && Charges(p, s.history, s.clock)
    && (forall start :: CounterOk(p, s, start))
    && (forall i :: 0 <= i < |s.history| ==> ChargeFits(p, s.history, i))
    && (forall id :: id in s.evals ==> EvalOk(p, s, s.evals[id]))
  }

  /** The doubled ttl outlasts the next window: a counter reads as the true count for two lengths. */
  lemma CounterExact(p: Policy, s: State, start: int, at: int)
    requires CounterOk(p, s, start) && at <= start + 2 * Duration(p.window)
    ensures Counter(s, start, at).value == WindowCost(s.history, start)
  {
  }

  /** A step that charges nothing only moves the clock and one evaluation. */
  lemma QuietKeeps(p: Policy, s: State, s': State, id: nat)
    requires Inv(p, s) && s'.counters == s.counters && s'.history == s.history && s.clock <= s'.clock
    requires id in s'.evals && s'.evals == s.evals[id := s'.evals[id]] && EvalOk(p, s', s'.evals[id])
    ensures Inv(p, s')
  {
    forall i | 0 <= i < |s'.history| ensures ChargeOk(p, s'.history[i], s'.clock) {
      assert ChargeOk(p, s.history[i], s.clock);
    }
    forall start ensures CounterOk(p, s', start) { assert CounterOk(p, s, start); }
    forall i | 0 <= i < |s'.history| ensures ChargeFits(p, s'.history, i) { assert ChargeFits(p, s.history, i); }
    forall u | u in s'.evals ensures EvalOk(p, s', s'.evals[u]) {
      if u != id { assert EvalOk(p, s, s.evals[u]); }
    }
  }

  lemma ReadKeeps(p: Policy, s: State, e: Event)
    requires Inv(p, s) && Possible(s, e) && e.ReadPrevious?
    ensures Inv(p, Apply(p, s, e))
  {
    var s', v := Apply(p, s, e), s.evals[e.id];
    assert EvalOk(p, s, v);
    var start := v.start - Length(p.window);
    assert CounterOk(p, s, start);
    if e.at <= start + 2 * Duration(p.window) { CounterExact(p, s, start, e.at); }
    QuietKeeps(p, s, s', e.id);
  }

  lemma OtherQuiet(p: Policy, s: State, e: Event)
    requires Inv(p, s) && Possible(s, e)
    requires e.Begin? || e.Get? || (e.Swap? && Counter(s, s.evals[e.id].start, e.at).value != s.evals[e.id].cur)
    ensures Inv(p, Apply(p, s, e))
  {
    if !e.Begin? { assert EvalOk(p, s, s.evals[e.id]); }
    QuietKeeps(p, s, Apply(p, s, e), e.id);
  }

  // ---------------------------------------------------------------- a charge

  /** A swap that succeeds on time. */
  predicate Commits(p: Policy, s: State, e: Event) {
    && Possible(s, e) && e.Swap? && Start(p.window, e.at) == s.evals[e.id].start
    && Counter(s, s.evals[e.id].start, e.at).value == s.evals[e.id].cur
  }

  /** What it does to the true counts. */
  lemma CommitCounts(p: Policy, s: State, e: Event, start: int)
    requires Inv(p, s) && Commits(p, s, e)
    ensures var v := s.evals[e.id];
            && v.cur == WindowCost(s.history, v.start)
            && WindowCost(Apply(p, s, e).history, start) ==
               WindowCost(s.history, start) + if start == v.start then v.cost else 0
  {
    var v := s.evals[e.id];
    assert EvalOk(p, s, v) && CounterOk(p, s, v.start);
    Grid(p, e.at, e.at);
    CounterExact(p, s, v.start, e.at);
    WindowSnoc(s.history, Charge(e.id, v.now, v.start, e.at, v.cost), start);
  }

  lemma CommitCounter(p: Policy, s: State, e: Event, start: int)
    requires Inv(p, s) && Commits(p, s, e)
    ensures CounterOk(p, Apply(p, s, e), start)
  {
    var v := s.evals[e.id];
    CommitCounts(p, s, e, start);
    assert CounterOk(p, s, start) && EvalOk(p, s, v);
    Grid(p, e.at, e.at);
    Grid(p, v.now, v.now);
    if start == v.start { CarriedFades(Length(p.window), v.now - v.start, v.now - v.start, v.before); }
  }

  /** No later window can have been charged, or read, before this one: a window that starts one length later
      begins after the swap. */
  lemma NotYetNext(p: Policy, s: State, e: Event, now: int)
    requires Inv(p, s) && Commits(p, s, e) && now <= s.clock
    ensures Start(p.window, now) - Length(p.window) != s.evals[e.id].start
  {
    Grid(p, now, now);
    Grid(p, e.at, e.at);
    Grid(p, now, e.at);
  }

  lemma OldChargeFits(p: Policy, s: State, e: Event, i: nat)
    requires Inv(p, s) && Commits(p, s, e) && i < |s.history|
    ensures ChargeFits(p, Apply(p, s, e).history, i)
  {
    var h, h' := s.history, Apply(p, s, e).history;
    assert ChargeFits(p, h, i) && ChargeOk(p, h[i], s.clock);
    assert h'[i] == h[i] && h'[..i + 1] == h[..i + 1];
    NotYetNext(p, s, e, h[i].now);
    CommitCounts(p, s, e, h[i].start - Length(p.window));
  }

  /** The swap's own check, seen through the true counts. */
  lemma NewChargeFits(p: Policy, s: State, e: Event)
    requires Inv(p, s) && Commits(p, s, e)
    ensures ChargeFits(p, Apply(p, s, e).history, |s.history|)
  {
    var v, w, h' := s.evals[e.id], Length(p.window), Apply(p, s, e).history;
    assert EvalOk(p, s, v);
    assert h'[..|s.history| + 1] == h';
    CommitCounts(p, s, e, v.start);
    CommitCounts(p, s, e, v.start - w);
    assert e.at <= v.start + w ==> v.before == WindowCost(h', v.start - w);
  }

  /** No evaluation of a later window can have read the charged one yet. */
  lemma CommitEval(p: Policy, s: State, e: Event, v: Phase)
    requires Inv(p, s) && Commits(p, s, e) && EvalOk(p, s, v)
    ensures EvalOk(p, Apply(p, s, e), v)
  {
    CommitCounts(p, s, e, v.start - Length(p.window));
    NotYetNext(p, s, e, v.now);
  }

  lemma CommitKeeps(p: Policy, s: State, e: Event)
    requires Inv(p, s) && Commits(p, s, e)
    ensures Inv(p, Apply(p, s, e))
  {
    var s', v := Apply(p, s, e), s.evals[e.id];
    assert EvalOk(p, s, v);
    forall i | 0 <= i < |s'.history| ensures ChargeOk(p, s'.history[i], s'.clock) {
      if i < |s.history| { assert ChargeOk(p, s.history[i], s.clock); }
    }
    forall start ensures CounterOk(p, s', start) { CommitCounter(p, s, e, start); }
    forall i | 0 <= i < |s'.history| ensures ChargeFits(p, s'.history, i) {
      if i < |s.history| { OldChargeFits(p, s, e, i); } else { NewChargeFits(p, s, e); }
    }
    forall id | id in s'.evals ensures EvalOk(p, s', s'.evals[id]) {
      if id != e.id { CommitEval(p, s, e, s.evals[id]); }
    }
  }

  // ---------------------------------------------------------------- runs

  lemma StepKeeps(p: Policy, s: State, e: Event)
    requires Inv(p, s) && Possible(s, e) && InWindow(p, s, e)
    ensures Inv(p, Apply(p, s, e))
  {
    if e.ReadPrevious? { ReadKeeps(p, s, e); }
    else if e.Swap? && Counter(s, s.evals[e.id].start, e.at).value == s.evals[e.id].cur { CommitKeeps(p, s, e); }
    else { OtherQuiet(p, s, e); }
  }

  lemma {:induction false} RunKeeps(p: Policy, s: State, es: seq<Event>)
    requires Inv(p, s) && Runnable(p, s, es) && OnTime(p, s, es)
    ensures Inv(p, Run(p, s, es))
    decreases |es|
  {
    if es != [] {
      StepKeeps(p, s, es[0]);
      RunKeeps(p, Apply(p, s, es[0]), es[1..]);
    }
  }

  lemma InitKeeps(p: Policy, clock: int)
    requires WellFormed(p) && Duration(p.window) > 0
    ensures Inv(p, Init(clock))
  {
  }

  // ---------------------------------------------------------------- the bound

  /** The trailing window [t - W, t] reaches no further back than the window that starts W earlier. */
  predicate Aligned(p: Policy, t: int) {
    var w, start := Duration(p.window), Start(p.window, t);
    t - w >= start || Start(p.window, start - 1) == start - w
  }

  /** At `t`, with P the count of the previous window and e the time elapsed in the current one: the cost
      charged in [t - W, t] is at most limit + P * e / W, and less than twice the limit. */
  predicate Bounded(p: Policy, s: State, t: int, byCommit: bool)
    requires Duration(p.window) > 0
  {
    var w, start := Duration(p.window), Start(p.window, t);
    var charged := CostIn(s.history, t - w, t, byCommit);
    && charged as real <= p.limit as real + Share(WindowCost(s.history, start - w), t - start, w)
    && charged < 2 * p.limit
  }

  lemma TwoWindows(limit: int, c: int, before: int, elapsed: int, w: int)
    requires limit >= 1 && 0 <= c <= limit && 0 <= before <= limit && 0 <= elapsed < w
    requires c == 0 || c as real + Share(before, w - elapsed, w) <= limit as real
    ensures (before + c) as real <= limit as real + Share(before, elapsed, w)
    ensures before + c < 2 * limit
  {
    SharesAdd(before, elapsed, w);
    ShareOrder(before, elapsed, elapsed, w);
  }

  lemma TrailingStarts(p: Policy, h: seq<Charge>, clock: int, t: int, byCommit: bool, i: nat)
    requires Duration(p.window) > 0 && Charges(p, h, clock) && i < |h| && Aligned(p, t)
    requires t - Duration(p.window) <= Stamp(h[i], byCommit) <= t
    ensures var w, start := Duration(p.window), Start(p.window, t);
            h[i].cost >= 1 && (h[i].start == start || (h[i].start == start - w && t - w < start))
  {
    var start, stamp := Start(p.window, t), Stamp(h[i], byCommit);
    assert ChargeOk(p, h[i], clock);
    assert h[i].start == Start(p.window, stamp);
    WindowsPartition(p.window, t, stamp);
    WindowsPartition(p.window, start - 1, stamp);
  }

  lemma TrailingCost(p: Policy, s: State, t: int, byCommit: bool)
    requires Inv(p, s) && Aligned(p, t)
    ensures var w, start := Duration(p.window), Start(p.window, t);
            CostIn(s.history, t - w, t, byCommit) <=
              if t - w >= start then WindowCost(s.history, start)
              else WindowCost(s.history, start - w) + Until(s.history, start, t, byCommit)
  {
    var w, start, h := Duration(p.window), Start(p.window, t), s.history;
    forall i | 0 <= i < |h|
      ensures Within(h[i], t - w, t, byCommit, start, if t - w >= start then start else start - w)
    {
      assert ChargeOk(p, h[i], s.clock);
      if t - w <= Stamp(h[i], byCommit) <= t { TrailingStarts(p, h, s.clock, t, byCommit, i); }
    }
    if t - w >= start {
      CoveredByOne(h, t - w, t, byCommit, start);
    } else {
      Covered(h, t - w, t, byCommit, start, start - w);
    }
  }

  /** What counts by `t`, in the window of `t`, was charged at most one length into the window. */
  predicate Prompt(p: Policy, s: State, t: int, byCommit: bool) {
    forall i :: 0 <= i < |s.history| && s.history[i].start == Start(p.window, t) &&
                Stamp(s.history[i], byCommit) <= t ==>
      s.history[i].at <= s.history[i].start + Duration(p.window)
  }

  /** With `c` charged to the window of `t`, what is left of the previous window still fits. */
  predicate FitsAt(p: Policy, s: State, t: int, c: int) {
    var w, start := Length(p.window), Start(p.window, t);
    c as real + Carried(w, t - start, WindowCost(s.history, start - w)) <= p.limit as real
  }

  lemma ChargeFitsAt(p: Policy, s: State, i: nat, t: int)
    requires Inv(p, s) && i < |s.history|
    requires var c := s.history[i];
             c.start == Start(p.window, t) && c.now <= t && c.at <= c.start + Length(p.window)
    ensures FitsAt(p, s, t, WindowCost(s.history[..i + 1], Start(p.window, t)))
  {
    var c, w := s.history[i], Length(p.window);
    assert ChargeOk(p, c, s.clock) && ChargeFits(p, s.history, i) && CounterOk(p, s, c.start - w);
    Grid(p, c.now, c.now);
    CarriedFades(w, c.now - c.start, t - c.start, WindowCost(s.history, c.start - w));
  }

  lemma FitsLess(p: Policy, s: State, t: int, c: int, d: int)
    requires FitsAt(p, s, t, c) && d <= c
    ensures FitsAt(p, s, t, d)
  {
  }

  /** At any instant, what the window of `t` has been charged by `t` fits with what the previous one carries
      then: the last charge by `t` weighed the previous window at least as much. */
  lemma {:induction false} UntilFits(p: Policy, s: State, n: nat, t: int, byCommit: bool)
    requires Inv(p, s) && n <= |s.history| && Prompt(p, s, t, byCommit)
    ensures var c := Until(s.history[..n], Start(p.window, t), t, byCommit); c == 0 || FitsAt(p, s, t, c)
    decreases n
  {
    if n > 0 {
      var start, h := Start(p.window, t), s.history;
      var c := h[n - 1];
      assert h[..n][..n - 1] == h[..n - 1];
      if c.start == start && Stamp(c, byCommit) <= t {
        assert ChargeOk(p, c, s.clock);
        ChargeFitsAt(p, s, n - 1, t);
        assert forall i :: 0 <= i < n ==> ChargeOk(p, h[i], s.clock);
        UntilGrows(h[..n], start, t, byCommit);
        FitsLess(p, s, t, WindowCost(h[..n], start), Until(h[..n], start, t, byCommit));
      } else {
        UntilFits(p, s, n - 1, t, byCommit);
      }
    }
  }

  lemma InvBound(p: Policy, s: State, t: int, byCommit: bool)
    requires Inv(p, s) && Aligned(p, t)
    requires t - Duration(p.window) >= Start(p.window, t) || Prompt(p, s, t, byCommit)
    ensures Bounded(p, s, t, byCommit)
  {
    var w, start, h := Duration(p.window), Start(p.window, t), s.history;
    var before := WindowCost(h, start - w);
    assert CounterOk(p, s, start) && CounterOk(p, s, start - w);
    Grid(p, t, t);
    TrailingCost(p, s, t, byCommit);
    if t - w >= start {
      ShareMonotone(before, 0, t - start, w);
      ShareEnds(before, w);
    } else {
      assert h[..|h|] == h;
      UntilFits(p, s, |h|, t, byCommit);
      assert forall i :: 0 <= i < |h| ==> ChargeOk(p, h[i], s.clock);
      UntilGrows(h, start, t, byCommit);
      CarriedIsShare(w, t - start, before);
      TwoWindows(p.limit, Until(h, start, t, byCommit), before, t - start, w);
    }
  }

  /** Under every interleaving of evaluations that do not swap after their window has ended, for every instant
      t: the cost charged in the trailing window [t - W, t] is at most limit + P * e / W and less than twice
      the limit, whether a charge counts at its evaluation's clock reading or at its swap; and P, the true
      previous count, is what an evaluator would read from the end of the run on. */
  lemma ErrorBound(p: Policy, clock: int, es: seq<Event>, t: int, byCommit: bool)
    requires WellFormed(p) && Duration(p.window) > 0 && !p.window.Monthly?
    requires Runnable(p, Init(clock), es) && OnTime(p, Init(clock), es)
    ensures var s, w, start := Run(p, Init(clock), es), Duration(p.window), Start(p.window, t);
            && Bounded(p, s, t, byCommit)
            && (s.clock <= t ==> Counter(s, start - w, t).value == WindowCost(s.history, start - w))
  {
    InitKeeps(p, clock);
    RunKeeps(p, Init(clock), es);
    var s, w, start := Run(p, Init(clock), es), Duration(p.window), Start(p.window, t);
    WindowsTile(p.window, t, start - 1);
    assert CounterOk(p, s, start - w);
    CounterExact(p, s, start - w, t);
    assert Aligned(p, t) by { PreviousWindow(p, t); }
    RegularPrompt(p, s, t, byCommit);
    InvBound(p, s, t, byCommit);
  }

  /** Apart from months, a window is over after one length. */
  lemma RegularPrompt(p: Policy, s: State, t: int, byCommit: bool)
    requires Inv(p, s) && !p.window.Monthly?
    ensures Prompt(p, s, t, byCommit)
  {
    forall i | 0 <= i < |s.history| ensures s.history[i].at <= s.history[i].start + Duration(p.window) {
      assert ChargeOk(p, s.history[i], s.clock);
      WindowsTile(p.window, s.history[i].at, s.history[i].at);
    }
  }

  lemma PreviousWindow(p: Policy, t: int)
    requires Duration(p.window) > 0 && !p.window.Monthly?
    ensures Start(p.window, Start(p.window, t) - 1) == Start(p.window, t) - Duration(p.window)
  {
    var w, start := Duration(p.window), Start(p.window, t);
    WindowsTile(p.window, t, start - 1);
    WindowsTile(p.window, start - w, start - 1);
  }
}
