/** Which interleavings of bucket evaluations are clean, and what the others charge. */
module BucketCasLimits {
  import opened Buckets
  import opened BucketCas

  // ---------------------------------------------------------------- pieces of runs

  lemma RunCons(kind: Kind, c: Config, s: State, e: Event, es: seq<Event>)
    requires Positive(c) && Possible(s, e) && Runnable(kind, c, Apply(kind, c, s, e), es)
    ensures Runnable(kind, c, s, [e] + es)
    ensures RunFrom(kind, c, s, [e] + es) == RunFrom(kind, c, Apply(kind, c, s, e), es)
    ensures CleanRun(kind, c, s, [e] + es) <==> Clean(kind, c, s, e) && CleanRun(kind, c, Apply(kind, c, s, e), es)
  {
    assert ([e] + es)[1..] == es;
  }

  lemma {:induction false} RunConcat(kind: Kind, c: Config, s: State, a: seq<Event>, b: seq<Event>)
    requires Positive(c) && Runnable(kind, c, s, a) && Runnable(kind, c, RunFrom(kind, c, s, a), b)
    ensures Runnable(kind, c, s, a + b) && RunFrom(kind, c, s, a + b) == RunFrom(kind, c, RunFrom(kind, c, s, a), b)
    ensures CleanRun(kind, c, s, a + b) <==> CleanRun(kind, c, s, a) && CleanRun(kind, c, RunFrom(kind, c, s, a), b)
    decreases |a|
  {
    if a == [] {
      assert a + b == b;
    } else {
      RunConcat(kind, c, Apply(kind, c, s, a[0]), a[1..], b);
      RunCons(kind, c, s, a[0], a[1..] + b);
      assert a + b == [a[0]] + (a[1..] + b);
    }
  }

  /** The two reads. */
  function Reading(id: nat, q: Request): seq<Event> {
    [Begin(id, q.now, q.cost), ReadLevel(id), ReadTime(id)]
  }

  lemma ReadingRuns(kind: Kind, c: Config, s: State, id: nat, q: Request)
    requires Positive(c) && id !in s.evals && q.now > 0 && q.cost >= 1
    ensures var es := Reading(id, q);
            && Runnable(kind, c, s, es) && CleanRun(kind, c, s, es)
            && RunFrom(kind, c, s, es) == s.(evals := s.evals[id := Ready(q.now, q.cost, s.pair)])
  {
    var a, b, d := Begin(id, q.now, q.cost), ReadLevel(id), ReadTime(id);
    var s1 := Apply(kind, c, s, a);
    var s2 := Apply(kind, c, s1, b);
    var s3 := Apply(kind, c, s2, d);
    assert s3 == s.(evals := s.evals[id := Ready(q.now, q.cost, s.pair)]);
    RunCons(kind, c, s2, d, []);
    RunCons(kind, c, s1, b, [d]);
    RunCons(kind, c, s, a, [b, d]);
    assert [a, b, d] == [a] + [b, d] && [b, d] == [b] + [d] && [d] == [d] + [];
  }

  /** Reads and swap, and the timestamp left for later. */
  function Unstamped(id: nat, q: Request): seq<Event> {
    Reading(id, q) + [Swap(id)]
  }

  /** The state after it charged and left `milli`. */
  function Charged(s: State, id: nat, q: Request, milli: int): State {
    State(s.pair.(milli := milli), s.evals[id := Swapped(q.now)], s.charges + [q])
  }

  lemma UnstampedRuns(kind: Kind, c: Config, s: State, id: nat, q: Request)
    requires Positive(c) && id !in s.evals && q.now > 0 && q.cost >= 1
    requires Decide(kind, c, s.pair, q.now, q.cost).Admitted?
    ensures var es := Unstamped(id, q);
            && Runnable(kind, c, s, es)
            && RunFrom(kind, c, s, es) == Charged(s, id, q, Decide(kind, c, s.pair, q.now, q.cost).milli)
            && (CleanRun(kind, c, s, es) <==> s.pair.last == LastStamp(s.charges) <= q.now)
  {
    ReadingRuns(kind, c, s, id, q);
    var s1, swap := s.(evals := s.evals[id := Ready(q.now, q.cost, s.pair)]), Swap(id);
    assert Apply(kind, c, s1, swap) == Charged(s, id, q, Decide(kind, c, s.pair, q.now, q.cost).milli);
    RunCons(kind, c, s1, swap, []);
    assert [swap] == [swap] + [];
    RunConcat(kind, c, s, Reading(id, q), [swap]);
  }

  /** A whole evaluation, its calls one after another. */
  function Whole(kind: Kind, c: Config, s: State, id: nat, q: Request): seq<Event>
    requires Positive(c)
  {
    Unstamped(id, q) + if Decide(kind, c, s.pair, q.now, q.cost).Admitted? then [Stamp(id)] else []
  }

  function Stamped(s: State, id: nat, q: Request, milli: int): State {
    State(Reads(milli, q.now), s.evals[id := Finished], s.charges + [q])
  }

  /** Alone, an evaluation is one of the sequential model's, and it is clean if its clock has not gone back
      and the timestamp is that of the last charge. */
  lemma WholeRuns(kind: Kind, c: Config, s: State, id: nat, q: Request)
    requires Positive(c) && id !in s.evals && q.now > 0 && q.cost >= 1
    ensures var es, o := Whole(kind, c, s, id, q), Decide(kind, c, s.pair, q.now, q.cost);
            && Runnable(kind, c, s, es)
            && RunFrom(kind, c, s, es) ==
                 (if o.Admitted? then Stamped(s, id, q, o.milli) else s.(evals := s.evals[id := Finished]))
            && (s.pair.last == LastStamp(s.charges) <= q.now ==> CleanRun(kind, c, s, es))
  {
    var o := Decide(kind, c, s.pair, q.now, q.cost);
    if o.Admitted? {
      UnstampedRuns(kind, c, s, id, q);
      var s1, stamp := Charged(s, id, q, o.milli), Stamp(id);
      assert Apply(kind, c, s1, stamp) == Stamped(s, id, q, o.milli);
      RunCons(kind, c, s1, stamp, []);
      assert [stamp] == [stamp] + [];
      RunConcat(kind, c, s, Unstamped(id, q), [stamp]);
    } else {
      ReadingRuns(kind, c, s, id, q);
      var s1, swap := s.(evals := s.evals[id := Ready(q.now, q.cost, s.pair)]), Swap(id);
      assert Apply(kind, c, s1, swap) == s.(evals := s.evals[id := Finished]);
      RunCons(kind, c, s1, swap, []);
      assert [swap] == [swap] + [];
      RunConcat(kind, c, s, Reading(id, q), [swap]);
      assert Unstamped(id, q) + [] == Unstamped(id, q);
    }
  }

  // ---------------------------------------------------------------- evaluations that do not overlap

  predicate FreshFrom(s: State, id: nat) {
    forall i :: i in s.evals ==> i < id
  }

  /** One evaluation after another, on a clock that does not go back. */
  function OneByOne(kind: Kind, c: Config, s: State, id: nat, qs: seq<Request>): seq<Event>
    requires Positive(c) && FreshFrom(s, id) && InOrder(qs)
    decreases |qs|
  {
    if qs == [] then []
    else
      WholeRuns(kind, c, s, id, qs[0]);
      var es := Whole(kind, c, s, id, qs[0]);
      es + OneByOne(kind, c, RunFrom(kind, c, s, es), id + 1, qs[1..])
  }

  /** Evaluations that do not overlap are clean. */
  lemma {:induction false} OneByOneClean(kind: Kind, c: Config, s: State, id: nat, qs: seq<Request>)
    requires Positive(c) && FreshFrom(s, id) && InOrder(qs)
    requires s.pair.last == LastStamp(s.charges) && (qs != [] ==> s.pair.last <= qs[0].now)
    ensures var es := OneByOne(kind, c, s, id, qs); Runnable(kind, c, s, es) && CleanRun(kind, c, s, es)
    decreases |qs|
  {
    if qs != [] {
      WholeRuns(kind, c, s, id, qs[0]);
      var es := Whole(kind, c, s, id, qs[0]);
      var s' := RunFrom(kind, c, s, es);
      OneByOneClean(kind, c, s', id + 1, qs[1..]);
      RunConcat(kind, c, s, es, OneByOne(kind, c, s', id + 1, qs[1..]));
    }
  }

  // ---------------------------------------------------------------- timestamps outstanding

  function Crowd(id: nat, n: nat, q: Request): seq<Event>
    decreases n
  {
    if n == 0 then [] else Unstamped(id, q) + Crowd(id + 1, n - 1, q)
  }

  function Times(n: nat, q: Request): seq<Request> {
    if n == 0 then [] else [q] + Times(n - 1, q)
  }

  /** While no timestamp has been written since it looked full, everybody is admitted. */
  lemma {:induction false} CrowdCharges(kind: Kind, c: Config, s: State, id: nat, n: nat, q: Request)
    requires Positive(c) && FreshFrom(s, id) && q.now > 0 && 1 <= q.cost <= c.capacity
    requires Refilled(kind, c, s.pair, q.now) && (s.pair.last != 0 || kind.Token?)
    ensures var es := Crowd(id, n, q);
            Runnable(kind, c, s, es) && RunFrom(kind, c, s, es).charges == s.charges + Times(n, q)
    decreases n
  {
    if n > 0 {
      LateTimestampRefills(kind, c, s.pair, q.now, q.cost);
      UnstampedRuns(kind, c, s, id, q);
      var s' := RunFrom(kind, c, s, Unstamped(id, q));
      CrowdCharges(kind, c, s', id + 1, n - 1, q);
      RunConcat(kind, c, s, Unstamped(id, q), Crowd(id + 1, n - 1, q));
      assert s'.charges + Times(n - 1, q) == s.charges + Times(n, q);
    }
  }

  lemma {:induction false} TimesCost(n: nat, q: Request)
    ensures CostOf(Times(n, q), q.now, q.now) == n * q.cost && CountOf(Times(n, q), q.now, q.now) == n
  {
    if n > 0 {
      TimesCost(n - 1, q);
      assert n * q.cost == q.cost + (n - 1) * q.cost;
      assert Times(n, q)[1..] == Times(n - 1, q);
    }
  }

  lemma {:induction false} CostConcat(a: seq<Request>, b: seq<Request>, s: int, t: int)
    ensures CostOf(a + b, s, t) == CostOf(a, s, t) + CostOf(b, s, t)
    ensures CountOf(a + b, s, t) == CountOf(a, s, t) + CountOf(b, s, t)
  {
    if a == [] {
      assert a + b == b;
    } else {
      CostConcat(a[1..], b, s, t);
      assert (a + b)[1..] == a[1..] + b;
    }
  }

  /** On a new key, no token bucket has a bound: until the first timestamp lands, any number of evaluations
      is admitted at one instant, whatever the level says. */
  lemma NewKeyUnbounded(c: Config, n: nat, q: Request)
    requires Positive(c) && q.now > 0 && 1 <= q.cost <= c.capacity
    ensures Runnable(Token, c, INIT, Crowd(0, n, q))
    ensures CostOf(RunFrom(Token, c, INIT, Crowd(0, n, q)).charges, q.now, q.now) == n * q.cost
  {
    CrowdCharges(Token, c, INIT, 0, n, q);
    TimesCost(n, q);
    assert [] + Times(n, q) == Times(n, q);
  }

  /** Nor has either bucket after an idle time that fills it. */
  lemma IdleKeyUnbounded(kind: Kind, c: Config, n: nat, first: Request, q: Request)
    requires Positive(c) && 0 < first.now < q.now && 1 <= first.cost <= c.capacity && 1 <= q.cost <= c.capacity
    requires Flow(c, q.now - first.now) >= c.capacity as real
    ensures var es := Whole(kind, c, INIT, 0, first) + Crowd(1, n, q);
            && Runnable(kind, c, INIT, es)
            && CostOf(RunFrom(kind, c, INIT, es).charges, q.now, q.now) == n * q.cost
  {
    LateTimestampRefills(kind, c, Reads(0, 0), first.now, first.cost);
    WholeRuns(kind, c, INIT, 0, first);
    var es := Whole(kind, c, INIT, 0, first);
    var s := RunFrom(kind, c, INIT, es);
    assert FreshFrom(s, 1);
    CrowdCharges(kind, c, s, 1, n, q);
    RunConcat(kind, c, INIT, es, Crowd(1, n, q));
    TimesCost(n, q);
    CostConcat(s.charges, Times(n, q), q.now, q.now);
    assert s.charges == [first];
  }

  // ---------------------------------------------------------------- equal levels

  /** Two evaluations read together; the first takes exactly what flowed in and writes its timestamp, and the
      other still finds the level it read. */
  function SameLevel(kind: Kind, c: Config, s: State, id: nat, q: Request): seq<Event>
    requires Positive(c)
  {
    Reading(id, q) + Whole(kind, c, s.(evals := s.evals[id := Ready(q.now, q.cost, s.pair)]), id + 1, q) + [Swap(id)]
  }

  lemma SameLevelCharges(kind: Kind, c: Config, s: State, id: nat, q: Request)
    requires Positive(c) && FreshFrom(s, id) && q.now > 0 && q.cost >= 1
    requires var o := Decide(kind, c, s.pair, q.now, q.cost); o.Admitted? && o.milli == s.pair.milli
    ensures var es := SameLevel(kind, c, s, id, q);
            Runnable(kind, c, s, es) && RunFrom(kind, c, s, es).charges == s.charges + [q] + [q]
  {
    ReadingRuns(kind, c, s, id, q);
    var s1 := s.(evals := s.evals[id := Ready(q.now, q.cost, s.pair)]);
    var whole := Whole(kind, c, s1, id + 1, q);
    WholeRuns(kind, c, s1, id + 1, q);
    RunConcat(kind, c, s, Reading(id, q), whole);
    var s2, swap := Stamped(s1, id + 1, q, s.pair.milli), Swap(id);
    assert s2.evals[id] == Ready(q.now, q.cost, s.pair);
    RunCons(kind, c, s2, swap, []);
    assert [swap] == [swap] + [];
    RunConcat(kind, c, s, Reading(id, q) + whole, [swap]);
  }

  /** Comparing levels is not enough, with every timestamp written in time: a bucket that is emptied, gains `k`
      and has them taken by two evaluations that read together, goes past the bound. */
  lemma EqualLevelBreaksBound(kind: Kind, c: Config, t: int, later: int, k: int)
    requires Positive(c) && 0 < t < later && 1 <= k <= c.capacity && Flow(c, later - t) == k as real
    ensures var first, q := Request(t, c.capacity), Request(later, k);
            var es := Whole(kind, c, INIT, 0, first);
            && Runnable(kind, c, INIT, es)
            && var more := SameLevel(kind, c, RunFrom(kind, c, INIT, es), 1, q);
               && Runnable(kind, c, INIT, es + more)
               && RunFrom(kind, c, INIT, es + more).charges == [first, q, q]
               && !Bounded(c, [first, q, q], t, later)
  {
    var first, q := Request(t, c.capacity), Request(later, k);
    LateTimestampRefills(kind, c, Reads(0, 0), t, c.capacity);
    WholeRuns(kind, c, INIT, 0, first);
    var es := Whole(kind, c, INIT, 0, first);
    var s := RunFrom(kind, c, INIT, es);
    assert s.pair == Holding(kind, c, 0, t) && FreshFrom(s, 1);
    DecideWhole(kind, c, 0, t, later, k, k);
    SameLevelCharges(kind, c, s, 1, q);
    RunConcat(kind, c, INIT, es, SameLevel(kind, c, s, 1, q));
    assert s.charges + [q] + [q] == [first, q, q];
    ThreeCharges(first, q, q, t, later);
  }

  lemma OneCharge(q: Request, s: int, t: int)
    requires s <= q.now <= t
    ensures CostOf([q], s, t) == q.cost && CountOf([q], s, t) == 1
  {
    assert [q][1..] == [];
  }

  lemma ThreeCharges(a: Request, b: Request, d: Request, s: int, t: int)
    requires s <= a.now <= t && s <= b.now <= t && s <= d.now <= t
    ensures CostOf([a, b, d], s, t) == a.cost + b.cost + d.cost && CountOf([a, b, d], s, t) == 3
  {
    OneCharge(a, s, t);
    OneCharge(b, s, t);
    OneCharge(d, s, t);
    CostConcat([a], [b], s, t);
    CostConcat([a] + [b], [d], s, t);
    assert [a] + [b] + [d] == [a, b, d];
  }

  // ---------------------------------------------------------------- clocks that go back

  lemma ThenWhole(kind: Kind, c: Config, es: seq<Event>, s: State, id: nat, q: Request, r: Reads)
    requires Positive(c) && Runnable(kind, c, INIT, es) && RunFrom(kind, c, INIT, es) == s && id !in s.evals
    requires q.now > 0 && q.cost >= 1 && r.last == q.now
    requires var o := Decide(kind, c, s.pair, q.now, q.cost); o.Admitted? && o.milli == r.milli
    ensures var more := es + Whole(kind, c, s, id, q);
            Runnable(kind, c, INIT, more) && RunFrom(kind, c, INIT, more) == Stamped(s, id, q, r.milli)
  {
    WholeRuns(kind, c, s, id, q);
    RunConcat(kind, c, INIT, es, Whole(kind, c, s, id, q));
  }

  /** The four states of the run below, by the headroom they leave. */
  function BackStates(kind: Kind, c: Config, t: int, later: int, k: int): (State, State, State) {
    var s1 := Stamped(INIT, 0, Request(t, c.capacity - 1), Holding(kind, c, 1, t).milli);
    var s2 := Stamped(s1, 1, Request(later, 1), Holding(kind, c, k, later).milli);
    (s1, s2, Stamped(s2, 2, Request(t, k), Holding(kind, c, 0, t).milli))
  }

  function BackRun(kind: Kind, c: Config, t: int, later: int, k: int): seq<Event>
    requires Positive(c)
  {
    var (s1, s2, s3) := BackStates(kind, c, t, later, k);
    [] + Whole(kind, c, INIT, 0, Request(t, c.capacity - 1)) + Whole(kind, c, s1, 1, Request(later, 1))
      + Whole(kind, c, s2, 2, Request(t, k)) + Whole(kind, c, s3, 3, Request(later, k))
  }

  lemma BackRuns(kind: Kind, c: Config, t: int, later: int, k: int)
    requires Positive(c) && 0 < t < later && 1 <= k < c.capacity && Flow(c, later - t) == k as real
    ensures var es := BackRun(kind, c, t, later, k);
            && Runnable(kind, c, INIT, es)
            && RunFrom(kind, c, INIT, es).charges
                 == [Request(t, c.capacity - 1)] + [Request(later, 1), Request(t, k), Request(later, k)]
  {
    var a, b, d, e := Request(t, c.capacity - 1), Request(later, 1), Request(t, k), Request(later, k);
    var (s1, s2, s3) := BackStates(kind, c, t, later, k);
    var w1 := [] + Whole(kind, c, INIT, 0, a);
    LateTimestampRefills(kind, c, Reads(0, 0), t, c.capacity - 1);
    ThenWhole(kind, c, [], INIT, 0, a, Holding(kind, c, 1, t));
    var w2 := w1 + Whole(kind, c, s1, 1, b);
    DecideWhole(kind, c, 1, t, later, k, 1);
    ThenWhole(kind, c, w1, s1, 1, b, Holding(kind, c, k, later));
    var w3 := w2 + Whole(kind, c, s2, 2, d);
    DecideWhole(kind, c, k, later, t, 0, k);
    ThenWhole(kind, c, w2, s2, 2, d, Holding(kind, c, 0, t));
    DecideWhole(kind, c, 0, t, later, k, k);
    ThenWhole(kind, c, w3, s3, 3, e, Holding(kind, c, 0, later));
  }

  /** Nor is it enough not to overlap: an evaluation whose clock is behind writes an older timestamp, and the
      next one counts the flow since then again. */
  lemma ClockBackBreaksBound(kind: Kind, c: Config, t: int, later: int, k: int)
    requires Positive(c) && 0 < t < later && 1 <= k < c.capacity && Flow(c, later - t) == k as real
    ensures Runnable(kind, c, INIT, BackRun(kind, c, t, later, k))
    ensures !Bounded(c, RunFrom(kind, c, INIT, BackRun(kind, c, t, later, k)).charges, t, later)
  {
    var a, b, d, e := Request(t, c.capacity - 1), Request(later, 1), Request(t, k), Request(later, k);
    BackRuns(kind, c, t, later, k);
    CostConcat([a], [b, d, e], t, later);
    OneCharge(a, t, later);
    ThreeCharges(b, d, e, t, later);
  }
}
