/** The sliding log against the complete history of charged timestamps.

    One charged request of cost n leaves n equal stamps.  Evaluations may overlap: what counts is the order
    in which they take the lock, each with the clock reading it brought along.  The sweep may run anywhere
    between them, with a clock reading that may be out of date. */
module SlidingLog {
  import opened Common
  import opened StoreModel
  import opened MemoryStore
  import opened Windows

  datatype Event =
    | Request(now: int, commit: int, cost: int)   // evaluator clock, store clock, cost
    | Sweep(at: int)

  /** `limit` after defaulting, and the window length, which may be any integer. */
  datatype Policy = Policy(key: string, limit: int, window: int)

  datatype Answer = Answer(count: int, allowed: bool)

  function StoreStep(p: Policy, s: Shard, e: Event): (Shard, Answer) {
    match e
    case Request(now, commit, cost) =>
      var (s', count, ok) := CheckAndAdd(s, p.key, now - p.window, p.limit, cost, now, p.window, commit);
      (s', Answer(count, ok))
    case Sweep(at) => (SweepShard(s, at), Answer(0, false))
  }

  /** The reference: decide from every stamp ever charged, and forget nothing. */
  function HistoryStep(p: Policy, h: seq<int>, e: Event): (seq<int>, Answer) {
    match e
    case Request(now, _, cost) =>
      var count := |Trimmed(h, now - p.window)|;
      if count + cost > p.limit then (h, Answer(count, false)) else (h + Copies(now, cost), Answer(count, true))
    case Sweep(_) => (h, Answer(0, false))
  }

  function RunStore(p: Policy, s: Shard, es: seq<Event>): (answers: seq<Answer>)
    ensures |answers| == |es|
    decreases |es|
  {
    if es == [] then []
    else
      var (s', a) := StoreStep(p, s, es[0]);
      [a] + RunStore(p, s', es[1..])
  }

  function RunHistory(p: Policy, h: seq<int>, es: seq<Event>): (answers: seq<Answer>)
    ensures |answers| == |es|
    decreases |es|
  {
    if es == [] then []
    else
      var (h', a) := HistoryStep(p, h, es[0]);
      [a] + RunHistory(p, h', es[1..])
  }

  function History(p: Policy, h: seq<int>, es: seq<Event>): seq<int>
    decreases |es|
  {
    if es == [] then h else History(p, HistoryStep(p, h, es[0]).0, es[1..])
  }

  /** Stamps do not go back in lock order, and no stamp is older than a sweep's reading before it.  `clock`
      is the latest stamp or reading so far; the store's own clock may be any later. */
  predicate Timed(es: seq<Event>, clock: int) {
    es == [] ||
    match es[0]
    case Request(now, commit, cost) => clock <= now <= commit && cost >= 1 && Timed(es[1..], now)
    case Sweep(at) => Timed(es[1..], if at > clock then at else clock)
  }

  function StampsIn(h: seq<int>, lo: int, hi: int): nat {
    if h == [] then 0 else StampsIn(h[..|h| - 1], lo, hi) + if lo <= h[|h| - 1] <= hi then 1 else 0
  }

  // ---------------------------------------------------------------- trimming

  lemma {:induction false} TrimmedConcat(a: seq<int>, b: seq<int>, c: int)
    ensures Trimmed(a + b, c) == Trimmed(a, c) + Trimmed(b, c)
  {
    if b == [] {
      assert a + b == a;
    } else {
      assert (a + b)[..|a + b| - 1] == a + b[..|b| - 1];
      TrimmedConcat(a, b[..|b| - 1], c);
    }
  }

  lemma {:induction false} TrimmedTwice(a: seq<int>, c: int, d: int)
    requires c <= d
    ensures Trimmed(Trimmed(a, c), d) == Trimmed(a, d)
  {
    if a != [] {
      var init, last := a[..|a| - 1], a[|a| - 1];
      TrimmedTwice(init, c, d);
      if last >= c {
        TrimmedConcat(Trimmed(init, c), [last], d);
        assert [last][..0] == [];
      }
    }
  }

  predicate AtMost(h: seq<int>, b: int) {
    forall i :: 0 <= i < |h| ==> h[i] <= b
  }

  lemma {:induction false} TrimmedAtMost(a: seq<int>, c: int, b: int)
    requires AtMost(a, b)
    ensures AtMost(Trimmed(a, c), b)
    ensures b < c ==> Trimmed(a, c) == []
  {
    if a != [] { TrimmedAtMost(a[..|a| - 1], c, b); }
  }

  lemma {:induction false} TrimmedAscends(a: seq<int>, c: int)
    requires Ascending(a)
    ensures Ascending(Trimmed(a, c))
  {
    if a != [] {
      TrimmedAscends(a[..|a| - 1], c);
      TrimmedAtMost(a[..|a| - 1], c, a[|a| - 1]);
    }
  }

  /** Every stamp of [lo, hi] survives a trim at or before lo. */
  lemma {:induction false} StampsSurvive(h: seq<int>, lo: int, hi: int, c: int)
    requires c <= lo
    ensures StampsIn(h, lo, hi) <= |Trimmed(h, c)|
  {
    if h != [] { StampsSurvive(h[..|h| - 1], lo, hi, c); }
  }

  lemma {:induction false} StampsConcat(a: seq<int>, b: seq<int>, lo: int, hi: int)
    ensures StampsIn(a + b, lo, hi) == StampsIn(a, lo, hi) + StampsIn(b, lo, hi)
  {
    if b == [] {
      assert a + b == a;
    } else {
      assert (a + b)[..|a + b| - 1] == a + b[..|b| - 1];
      StampsConcat(a, b[..|b| - 1], lo, hi);
    }
  }

  lemma {:induction false} StampsNone(h: seq<int>, lo: int, hi: int)
    requires forall i :: 0 <= i < |h| ==> h[i] > hi
    ensures StampsIn(h, lo, hi) == 0
  {
    if h != [] { StampsNone(h[..|h| - 1], lo, hi); }
  }

  // ---------------------------------------------------------------- refinement

  /** The stored log has everything of the history that a cutoff from now on can still see. */
  ghost predicate Tracks(p: Policy, s: Shard, h: seq<int>, clock: int) {
    && (forall c :: c >= clock - p.window ==> Trimmed(Log(s, p.key), c) == Trimmed(h, c))
    && Ascending(h)
    && AtMost(h, clock)
    && (p.key in s.tsExpiry ==> p.window > 0 && AtMost(h, s.tsExpiry[p.key] - p.window))
  }

  lemma SweepTracks(p: Policy, s: Shard, h: seq<int>, clock: int, at: int)
    requires Tracks(p, s, h, clock)
    ensures Tracks(p, SweepShard(s, at), h, if at > clock then at else clock)
  {
    var clock' := if at > clock then at else clock;
    var s' := SweepShard(s, at);
    forall c | c >= clock' - p.window
      ensures Trimmed(Log(s', p.key), c) == Trimmed(h, c)
    {
      assert Trimmed(Log(s, p.key), c) == Trimmed(h, c);
      if p.key in s.tsExpiry && at > s.tsExpiry[p.key] { TrimmedAtMost(h, c, s.tsExpiry[p.key] - p.window); }
    }
  }

  lemma CopiesAscend(a: seq<int>, ts: int, cost: int)
    requires Ascending(a) && AtMost(a, ts)
    ensures Ascending(a + Copies(ts, cost)) && AtMost(a + Copies(ts, cost), ts)
  {
  }

  lemma SortChangesNothing(h: seq<int>, cutoff: int, now: int, cost: int)
    requires Ascending(h) && AtMost(h, now)
    ensures var kept := Trimmed(h, cutoff); Sorted(kept + Copies(now, cost)) == kept + Copies(now, cost)
  {
    var kept := Trimmed(h, cutoff);
    TrimmedAtMost(h, cutoff, now);
    TrimmedAscends(h, cutoff);
    CopiesAscend(kept, now, cost);
    SortedKeeps(kept + Copies(now, cost));
  }

  /** What one locked check leaves and answers when `kept` survives the cutoff and a charge makes it `charged`. */
  predicate Recorded(p: Policy, s: Shard, s': Shard, a: Answer, kept: seq<int>, charged: seq<int>, e: Event)
    requires e.Request?
  {
    && a == Answer(|kept|, |kept| + e.cost <= p.limit)
    && Log(s', p.key) == (if a.allowed then charged else kept)
    && s'.tsExpiry == (if a.allowed && p.window > 0 then s.tsExpiry[p.key := e.commit + p.window] else s.tsExpiry)
  }

  lemma RequestOn(p: Policy, s: Shard, kept: seq<int>, charged: seq<int>, e: Event)
    requires e.Request? && Trimmed(Log(s, p.key), e.now - p.window) == kept
    requires Sorted(kept + Copies(e.now, e.cost)) == charged
    ensures Recorded(p, s, StoreStep(p, s, e).0, StoreStep(p, s, e).1, kept, charged, e)
  {
  }

  lemma RequestStored(p: Policy, s: Shard, h: seq<int>, e: Event)
    requires e.Request? && Ascending(h) && AtMost(h, e.now)
    requires Trimmed(Log(s, p.key), e.now - p.window) == Trimmed(h, e.now - p.window)
    ensures var kept := Trimmed(h, e.now - p.window);
            Recorded(p, s, StoreStep(p, s, e).0, StoreStep(p, s, e).1, kept, kept + Copies(e.now, e.cost), e)
  {
    SortChangesNothing(h, e.now - p.window, e.now, e.cost);
    var kept := Trimmed(h, e.now - p.window);
    RequestOn(p, s, kept, kept + Copies(e.now, e.cost), e);
  }

  /** A cutoff no earlier than the trim cannot tell that it happened. */
  lemma TrimUnseen(h: seq<int>, cutoff: int, added: seq<int>, c: int)
    requires c >= cutoff
    ensures Trimmed(Trimmed(h, cutoff) + added, c) == Trimmed(h + added, c)
  {
    TrimmedTwice(h, cutoff, c);
    TrimmedConcat(Trimmed(h, cutoff), added, c);
    TrimmedConcat(h, added, c);
  }

  lemma TracksAfter(p: Policy, s: Shard, h: seq<int>, added: seq<int>, now: int)
    requires Log(s, p.key) == Trimmed(h, now - p.window) + added
    requires Ascending(h + added) && AtMost(h + added, now)
    requires p.key in s.tsExpiry ==> p.window > 0 && AtMost(h + added, s.tsExpiry[p.key] - p.window)
    ensures Tracks(p, s, h + added, now)
  {
    forall c | c >= now - p.window
      ensures Trimmed(Log(s, p.key), c) == Trimmed(h + added, c)
    {
      TrimUnseen(h, now - p.window, added, c);
    }
  }

  lemma AtMostLater(h: seq<int>, b: int, later: int)
    requires AtMost(h, b) && b <= later
    ensures AtMost(h, later)
  {
  }

  lemma DeniedTracks(p: Policy, s: Shard, h: seq<int>, now: int)
    requires Log(s, p.key) == Trimmed(h, now - p.window) && Ascending(h) && AtMost(h, now)
    requires p.key in s.tsExpiry ==> p.window > 0 && AtMost(h, s.tsExpiry[p.key] - p.window)
    ensures Tracks(p, s, h, now)
  {
    assert Trimmed(h, now - p.window) + [] == Trimmed(h, now - p.window) && h + [] == h;
    TracksAfter(p, s, h, [], now);
  }

  lemma ChargedTracks(p: Policy, s: Shard, h: seq<int>, now: int, cost: int)
    requires Log(s, p.key) == Trimmed(h, now - p.window) + Copies(now, cost) && Ascending(h) && AtMost(h, now)
    requires p.key in s.tsExpiry ==> p.window > 0 && now <= s.tsExpiry[p.key] - p.window
    ensures Tracks(p, s, h + Copies(now, cost), now)
  {
    var added := Copies(now, cost);
    CopiesAscend(h, now, cost);
    if p.key in s.tsExpiry { AtMostLater(h + added, now, s.tsExpiry[p.key] - p.window); }
    TracksAfter(p, s, h, added, now);
  }

  lemma RecordedTracks(p: Policy, s: Shard, s': Shard, a: Answer, h: seq<int>, e: Event)
    requires e.Request? && e.now <= e.commit
    requires var kept := Trimmed(h, e.now - p.window);
             Recorded(p, s, s', a, kept, kept + Copies(e.now, e.cost), e)
    requires Ascending(h) && AtMost(h, e.now)
    requires p.key in s.tsExpiry ==> p.window > 0 && AtMost(h, s.tsExpiry[p.key] - p.window)
    ensures a == HistoryStep(p, h, e).1 && Tracks(p, s', HistoryStep(p, h, e).0, e.now)
  {
    assert a == HistoryStep(p, h, e).1;
    if a.allowed {
      ChargedTracks(p, s', h, e.now, e.cost);
    } else {
      DeniedTracks(p, s', h, e.now);
    }
  }

  lemma RequestTracks(p: Policy, s: Shard, h: seq<int>, clock: int, e: Event)
    requires Tracks(p, s, h, clock) && e.Request? && clock <= e.now <= e.commit
    ensures StoreStep(p, s, e).1 == HistoryStep(p, h, e).1
    ensures Tracks(p, StoreStep(p, s, e).0, HistoryStep(p, h, e).0, e.now)
  {
    assert Trimmed(Log(s, p.key), e.now - p.window) == Trimmed(h, e.now - p.window);
    RequestStored(p, s, h, e);
    RecordedTracks(p, s, StoreStep(p, s, e).0, StoreStep(p, s, e).1, h, e);
  }

  lemma {:induction false} RunTracks(p: Policy, s: Shard, h: seq<int>, es: seq<Event>, clock: int)
    requires Tracks(p, s, h, clock) && Timed(es, clock)
    ensures RunStore(p, s, es) == RunHistory(p, h, es)
    decreases |es|
  {
    if es != [] {
      match es[0] {
        case Request(now, _, _) =>
          RequestTracks(p, s, h, clock, es[0]);
          RunTracks(p, StoreStep(p, s, es[0]).0, HistoryStep(p, h, es[0]).0, es[1..], now);
        case Sweep(at) =>
          SweepTracks(p, s, h, clock, at);
          RunTracks(p, SweepShard(s, at), h, es[1..], if at > clock then at else clock);
      }
    }
  }

  /** Trimming and sweeping lose nothing: every count and every decision is the one taken from the
      complete history, with evaluations overlapping and sweeps anywhere, as long as stamps keep lock
      order. */
  lemma LogRefinesHistory(p: Policy, es: seq<Event>, clock: int)
    requires Timed(es, clock)
    ensures RunStore(p, EMPTY_SHARD, es) == RunHistory(p, [], es)
  {
    RunTracks(p, EMPTY_SHARD, [], es, clock);
  }

  // ---------------------------------------------------------------- the bound

  /** Charged cost stamped in the window that ends at `t`. */
  function Rolling(p: Policy, h: seq<int>, t: int): nat {
    StampsIn(h, t - p.window, t)
  }

  ghost predicate Bounded(p: Policy, h: seq<int>) {
    forall t :: Rolling(p, h, t) <= p.limit
  }

  lemma ChargeKeepsBound(p: Policy, h: seq<int>, clock: int, e: Event)
    requires e.Request? && e.now >= clock && e.cost >= 1 && Bounded(p, h) && AtMost(h, clock)
    ensures Bounded(p, HistoryStep(p, h, e).0)
  {
    var added := Copies(e.now, e.cost);
    if HistoryStep(p, h, e).1.allowed {
      forall t ensures Rolling(p, h + added, t) <= p.limit {
        StampsConcat(h, added, t - p.window, t);
        if t < e.now {
          StampsNone(added, t - p.window, t);
          assert Rolling(p, h, t) <= p.limit;
        } else {
          StampsSurvive(h, t - p.window, t, e.now - p.window);
          StampsAtMost(added, t - p.window, t);
        }
      }
    }
  }

  lemma {:induction false} StampsAtMost(h: seq<int>, lo: int, hi: int)
    ensures StampsIn(h, lo, hi) <= |h|
  {
    if h != [] { StampsAtMost(h[..|h| - 1], lo, hi); }
  }

  lemma {:induction false} HistoryBounded(p: Policy, h: seq<int>, es: seq<Event>, clock: int)
    requires Bounded(p, h) && Timed(es, clock) && AtMost(h, clock)
    ensures Bounded(p, History(p, h, es))
    decreases |es|
  {
    if es != [] {
      match es[0] {
        case Request(now, _, _) =>
          ChargeKeepsBound(p, h, clock, es[0]);
          HistoryBounded(p, HistoryStep(p, h, es[0]).0, es[1..], now);
        case Sweep(at) => HistoryBounded(p, h, es[1..], if at > clock then at else clock);
      }
    }
  }

  /** The stamps of the requests that were told "allowed". */
  function Charged(es: seq<Event>, answers: seq<Answer>): seq<int>
    requires |es| == |answers|
  {
    if es == [] then []
    else
      (if es[0].Request? && answers[0].allowed then Copies(es[0].now, es[0].cost) else [])
      + Charged(es[1..], answers[1..])
  }

  lemma {:induction false} HistoryIsCharged(p: Policy, h: seq<int>, es: seq<Event>)
    ensures History(p, h, es) == h + Charged(es, RunHistory(p, h, es))
    decreases |es|
  {
    if es != [] {
      var (h', a) := HistoryStep(p, h, es[0]);
      assert RunHistory(p, h, es)[1..] == RunHistory(p, h', es[1..]);
      HistoryIsCharged(p, h', es[1..]);
    }
  }

  /** For every instant T, the cost charged with stamps in [T - window, T] is within the limit. */
  lemma RollingWindowBound(p: Policy, es: seq<Event>, clock: int, t: int)
    requires p.limit >= 1 && Timed(es, clock)
    ensures Rolling(p, Charged(es, RunStore(p, EMPTY_SHARD, es)), t) <= p.limit
  {
    LogRefinesHistory(p, es, clock);
    HistoryIsCharged(p, [], es);
    var charged := Charged(es, RunStore(p, EMPTY_SHARD, es));
    assert [] + charged == charged;
    HistoryBounded(p, [], es, clock);
    assert Bounded(p, History(p, [], es));
  }

  // ---------------------------------------------------------------- stamps out of order

  lemma {:induction false} StampsAll(h: seq<int>, lo: int, hi: int)
    requires forall i :: 0 <= i < |h| ==> lo <= h[i] <= hi
    ensures StampsIn(h, lo, hi) == |h|
  {
    if h != [] { StampsAll(h[..|h| - 1], lo, hi); }
  }

  lemma RunCons(p: Policy, s: Shard, e: Event, es: seq<Event>)
    ensures RunStore(p, s, [e] + es) == [StoreStep(p, s, e).1] + RunStore(p, StoreStep(p, s, e).0, es)
  {
    assert ([e] + es)[1..] == es;
  }

  /** A request on a log of which nothing survives the cutoff. */
  lemma RequestOnNothing(p: Policy, s: Shard, e: Event)
    requires e.Request? && Trimmed(Log(s, p.key), e.now - p.window) == []
    ensures var (s', a) := StoreStep(p, s, e);
            && a == Answer(0, e.cost <= p.limit)
            && Log(s', p.key) == (if a.allowed then Copies(e.now, e.cost) else [])
            && (a.allowed && p.window > 0 ==> p.key in s'.tsExpiry && s'.tsExpiry[p.key] == e.commit + p.window)
  {
    SortChangesNothing([], 0, e.now, e.cost);
    assert [] + Copies(e.now, e.cost) == Copies(e.now, e.cost);
    RequestOn(p, s, [], Copies(e.now, e.cost), e);
  }

  /** The limit charged at `t` and one more a window later, both inside that window. */
  lemma OneTooMany(p: Policy, t: int)
    requires p.limit >= 1 && p.window >= 0
    ensures Rolling(p, Copies(t, p.limit) + Copies(t + p.window, 1), t + p.window) == p.limit + 1
  {
    StampsAll(Copies(t, p.limit) + Copies(t + p.window, 1), t, t + p.window);
  }

  lemma StaleAnswers(p: Policy, a: Event, b: Event, c: Event)
    requires a.Request? && b.Request? && c.Request? && a.cost == p.limit >= 1 && b.cost > p.limit && c.cost <= p.limit
    requires b.now - p.window > a.now
    ensures RunStore(p, EMPTY_SHARD, [a, b, c]) == [Answer(0, true), Answer(0, false), Answer(0, true)]
  {
    RequestOnNothing(p, EMPTY_SHARD, a);
    var s1 := StoreStep(p, EMPTY_SHARD, a).0;
    TrimmedAtMost(Copies(a.now, p.limit), b.now - p.window, a.now);
    RequestOnNothing(p, s1, b);
    RequestOnNothing(p, StoreStep(p, s1, b).0, c);
    ThreeAnswers(p, a, b, c);
  }

  lemma SweptAnswers(p: Policy, a: Event, b: Event, c: Event)
    requires a.Request? && b.Sweep? && c.Request? && a.cost == p.limit >= 1 && c.cost <= p.limit
    requires p.window >= 1 && b.at > a.commit + p.window
    ensures RunStore(p, EMPTY_SHARD, [a, b, c]) == [Answer(0, true), Answer(0, false), Answer(0, true)]
  {
    RequestOnNothing(p, EMPTY_SHARD, a);
    var s2 := StoreStep(p, StoreStep(p, EMPTY_SHARD, a).0, b).0;
    assert Log(s2, p.key) == [];
    RequestOnNothing(p, s2, c);
    ThreeAnswers(p, a, b, c);
  }

  /** Lock order is needed, whatever the policy: a denied request with a later stamp trims the log, and a
      request one nanosecond older that takes the lock after it is charged on top of a full window. */
  lemma StaleStampBreaksBound(p: Policy, t: int)
    requires p.limit >= 1 && p.window >= 0
    ensures var w := p.window;
            var es := [Request(t, t, p.limit), Request(t + w + 1, t + w + 1, p.limit + 1),
                       Request(t + w, t + w + 1, 1)];
            Rolling(p, Charged(es, RunStore(p, EMPTY_SHARD, es)), t + w) == p.limit + 1
  {
    var w := p.window;
    var a, b, c := Request(t, t, p.limit), Request(t + w + 1, t + w + 1, p.limit + 1), Request(t + w, t + w + 1, 1);
    StaleAnswers(p, a, b, c);
    ChargedOuter(a, b, c);
    OneTooMany(p, t);
  }

  /** So is it that no stamp is older than a sweep before it: the sweep drops the whole log once its
      reading is past the log's expiry. */
  lemma EarlySweepBreaksBound(p: Policy, t: int)
    requires p.limit >= 1 && p.window >= 1
    ensures var w := p.window;
            var es := [Request(t, t, p.limit), Event.Sweep(t + w + 1), Request(t + w, t + w + 1, 1)];
            Rolling(p, Charged(es, RunStore(p, EMPTY_SHARD, es)), t + w) == p.limit + 1
  {
    var w := p.window;
    var a, b, c := Request(t, t, p.limit), Event.Sweep(t + w + 1), Request(t + w, t + w + 1, 1);
    SweptAnswers(p, a, b, c);
    ChargedOuter(a, b, c);
    OneTooMany(p, t);
  }

  lemma ChargedOuter(a: Event, b: Event, c: Event)
    requires a.Request? && c.Request?
    ensures Charged([a, b, c], [Answer(0, true), Answer(0, false), Answer(0, true)])
         == Copies(a.now, a.cost) + Copies(c.now, c.cost)
  {
    var x, y := Answer(0, true), Answer(0, false);
    assert Charged([c], [x]) == Copies(c.now, c.cost);
    assert [a, b, c][1..] == [b, c] && [b, c][1..] == [c] && [x, y, x][1..] == [y, x] && [y, x][1..] == [x];
    assert Charged([b, c], [y, x]) == Copies(c.now, c.cost);
  }

  lemma ThreeAnswers(p: Policy, a: Event, b: Event, c: Event)
    ensures var (s1, x) := StoreStep(p, EMPTY_SHARD, a);
            var (s2, y) := StoreStep(p, s1, b);
            RunStore(p, EMPTY_SHARD, [a, b, c]) == [x, y, StoreStep(p, s2, c).1]
  {
    var s1 := StoreStep(p, EMPTY_SHARD, a).0;
    var s2 := StoreStep(p, s1, b).0;
    RunCons(p, s2, c, []);
    RunCons(p, s1, b, [c]);
    RunCons(p, EMPTY_SHARD, a, [b, c]);
    assert [a, b, c] == [a] + [b, c] && [b, c] == [b] + [c] && [c] == [c] + [];
  }

  // ---------------------------------------------------------------- the evaluator

  datatype Decision = Allowed(remaining: int, resetAt: int) | Denied(retryAfter: int, remaining: int)

  lemma Stretch(x: real, y: real, d: real)
    requires d > 0.0
    ensures x <= y <==> x * d <= y * d
  {
    assert (y - x) * d == y * d - x * d;
    if x <= y { assert (y - x) * d >= 0.0; } else { assert (x - y) * d > 0.0; }
  }

  lemma ShareOfWhole(x: real, part: real, whole: real)
    requires whole != 0.0
    ensures x >= 0.0 && 0.0 <= part <= whole ==> 0.0 <= x * part / whole <= x
  {
    if x >= 0.0 && 0.0 <= part <= whole {
      assert x * (whole - part) >= 0.0 && x * part >= 0.0;
      assert x * part / whole * whole == x * part;
      Stretch(x * part / whole, x, whole);
      Stretch(0.0, x * part / whole, whole);
    }
  }

  /** The share of the window that `over` is of `count`. */
  function ExactShare(window: int, over: int, count: int): (x: real)
    requires count != 0
    ensures window >= 0 && 0 <= over <= count ==> 0.0 <= x <= window as real
  {
    ShareOfWhole(window as real, over as real, count as real);
    window as real * over as real / count as real
  }

  /** The denial hint: the share of the window by which the log is over, at least a second. */
  function RetryAfter(window: int, count: int, cost: int, limit: int): (wait: int)
    ensures window > 0 && count + cost > limit ==> wait > 0
    ensures window >= SECOND && 0 < count && limit < count + cost && cost <= limit ==> wait <= window
  {
    if count <= 0 then window
    else
      var exact := ExactShare(window, count + cost - limit, count);
      var wait := if exact >= 0.0 then exact.Floor else -(-exact).Floor;
      if wait <= 0 then SECOND else wait
  }

  lemma FloorQuotient(n: int, d: int)
    requires n >= 0 && d > 0
    ensures var q := (n as real / d as real).Floor; q >= 0 && q * d <= n < (q + 1) * d
  {
    var x := n as real / d as real;
    var q := x.Floor;
    assert x * d as real == n as real;
    ScaleOrder(q, x, d);
    ScaleOrder(q + 1, x, d);
    assert x >= 0.0;
  }

  lemma ScaleOrder(q: int, x: real, d: int)
    requires d > 0
    ensures q as real <= x <==> (q * d) as real <= x * d as real
  {
    assert (q * d) as real == q as real * d as real;
    Stretch(q as real, x, d as real);
  }

  lemma WholeCount(q: int, n: int, d: int)
    requires d > 0 && q >= 0 && q * d <= n < (q + 1) * d
    ensures q >= 1 <==> n >= d
  {
    if q >= 1 { assert q * d >= d; } else { assert q == 0; }
  }

  lemma ProductAsReal(a: int, b: int)
    ensures (a * b) as real == a as real * b as real
  {
  }

  /** The hint over a nonempty log, computed on whole numbers. */
  lemma HintQuotient(window: int, count: int, cost: int, limit: int)
    requires window > 0 && count > 0 && count + cost > limit
    ensures var q := ((window * (count + cost - limit)) as real / count as real).Floor;
            RetryAfter(window, count, cost, limit) == if q <= 0 then SECOND else q
  {
    ExactQuotient(window, count + cost - limit, count);
  }

  lemma ExactQuotient(window: int, over: int, count: int)
    requires window > 0 && over > 0 && count > 0
    ensures ExactShare(window, over, count) == (window * over) as real / count as real >= 0.0
  {
    ProductAsReal(window, over);
    assert window * over >= 0;
    QuotientNonnegative((window * over) as real, count as real);
  }

  lemma QuotientNonnegative(x: real, d: real)
    requires x >= 0.0 && d > 0.0
    ensures x / d >= 0.0
  {
  }

  /** In whole numbers: the hint is the largest wait whose share of the count, over the window, is no more than the
      excess; a wait that rounds to nothing becomes a second, and an empty log a whole window. */
  lemma HintIsShare(window: int, count: int, cost: int, limit: int)
    requires window > 0 && count + cost > limit
    ensures var wait, over := RetryAfter(window, count, cost, limit), count + cost - limit;
            if count <= 0 then wait == window
            else if window * over < count then wait == SECOND
            else wait * count <= window * over < (wait + 1) * count
  {
    if count > 0 {
      var n := window * (count + cost - limit);
      assert n >= 0;
      HintQuotient(window, count, cost, limit);
      FloorQuotient(n, count);
      WholeCount((n as real / count as real).Floor, n, count);
    }
  }

  /** Trimming an ascending log drops exactly a prefix. */
  lemma {:induction false} TrimmedPrefix(a: seq<int>, c: int)
    requires Ascending(a)
    ensures var n := |a| - |Trimmed(a, c)|;
            n >= 0 && (forall i :: 0 <= i < |a| ==> (a[i] < c <==> i < n))
  {
    if a != [] {
      TrimmedPrefix(a[..|a| - 1], c);
      assert forall i :: 0 <= i < |a| - 1 ==> a[i] == a[..|a| - 1][i] <= a[|a| - 1];
    }
  }

  /** When a denied request would be admitted, read off the log: not before the oldest stamps by which it
      was over the limit have left the window, and never if its cost is above the limit. */
  lemma RetryAdmittedIff(p: Policy, s: Shard, e: Event, later: int, commit: int)
    requires e.Request? && e.cost >= 1 && Ascending(Log(s, p.key)) && !StoreStep(p, s, e).1.allowed && e.now <= later
    ensures var (s', a) := StoreStep(p, s, e);
            var log, over := Log(s', p.key), a.count + e.cost - p.limit;
            && |log| == a.count && over >= 1
            && (StoreStep(p, s', Request(later, commit, e.cost)).1.allowed <==>
                  e.cost <= p.limit && log[over - 1] < later - p.window)
  {
    var (s', a) := StoreStep(p, s, e);
    TrimmedAscends(Log(s, p.key), e.now - p.window);
    TrimmedPrefix(Log(s', p.key), later - p.window);
  }

  /** The hint itself is an estimate: a retry at it is admitted exactly when those stamps have left by then. */
  lemma HintAdmittedIff(p: Policy, s: Shard, e: Event, commit: int)
    requires e.Request? && e.cost >= 1 && Ascending(Log(s, p.key)) && !StoreStep(p, s, e).1.allowed && p.window > 0
    ensures var (s', a) := StoreStep(p, s, e);
            var hint, over := RetryAfter(p.window, a.count, e.cost, p.limit), a.count + e.cost - p.limit;
            && hint > 0 && 0 <= a.count == |Log(s', p.key)|
            && (StoreStep(p, s', Request(e.now + hint, commit, e.cost)).1.allowed <==>
                  e.cost <= p.limit && Log(s', p.key)[over - 1] < e.now + hint - p.window)
  {
    var a := StoreStep(p, s, e).1;
    RetryAdmittedIff(p, s, e, e.now + RetryAfter(p.window, a.count, e.cost, p.limit), commit);
  }

  method Evaluate(store: MemoryStore, window: Window, limit: int, key: string, cost: int, now: int, commit: int)
    returns (d: Decision)
    requires store.Valid()
    modifies store.shards
    ensures var p := Policy(key + ":swl", EffectiveLimit(limit), Duration(window));
            var i := ShardFor(store.shards.Length, store.hash, p.key);
            var (s, a) := StoreStep(p, old(store.shards[i]), Request(now, commit, cost));
            && store.shards[..] == old(store.shards[..])[i := s]
            && d == (if a.allowed then Allowed(p.limit - (a.count + cost), now + p.window)
                    else Denied(RetryAfter(p.window, a.count, cost, p.limit), p.limit - a.count))
  {
    var length, logKey, max := Duration(window), key + ":swl", EffectiveLimit(limit);
    var count, allowed := store.CheckAndAddTimestamps(logKey, now - length, max, cost, now, length, commit);
    if !allowed {
      return Denied(RetryAfter(length, count, cost, max), max - count);
    }
    d := Allowed(max - (count + cost), now + length);
  }
}
