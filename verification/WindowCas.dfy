/** Fixed window and quota: any number of evaluations taking interleaved Get and CompareAndSwap steps
    on the counters of one policy key, one counter per window.

    The ledger is bookkeeping: per window, the evaluations that committed, in order. */
module WindowCas {
  import opened StoreModel
  import opened Windows
  import opened Calendar
  import Text

  datatype Policy = Policy(limit: int, window: Window, maxRetries: nat)

  predicate WellFormed(p: Policy) {
    p.limit >= 1 && p.maxRetries >= 1
  }

  datatype Result = Charged | OverLimit | Contended

  /** Where one evaluation stands.  `now` is its clock reading; `begun`, `seen` and `ended` count the commits
      to its window when it started, when it last read the counter, and when it returned. */
  datatype Phase =
    | Reading(now: int, start: int, cost: int, begun: nat, attempt: nat)
    | Swapping(now: int, start: int, cost: int, begun: nat, attempt: nat, cur: int, seen: nat)
    | Finished(now: int, start: int, cost: int, begun: nat, ended: nat, result: Result)

  /** Whose, at which clock reading, and how much. */
  datatype Charge = Charge(id: nat, now: int, cost: int)

  datatype State = State(
    clock: int,
    counters: map<int, Item>,
    ledger: map<int, seq<Charge>>,
    evals: map<nat, Phase>)

  const INIT: State := State(0, map[], map[], map[])

  datatype Event =
    | Begin(id: nat, now: int, cost: int)
    | Get(id: nat, now: int)
    | Swap(id: nat, now: int)

  function Ledger(s: State, start: int): seq<Charge> {
    if start in s.ledger then s.ledger[start] else []
  }

  function Counter(s: State, start: int, now: int): Item {
    if start in s.counters then Visible(s.counters[start], now) else ZERO
  }

  function Sum(cs: seq<Charge>): int {
    if cs == [] then 0 else Sum(cs[..|cs| - 1]) + cs[|cs| - 1].cost
  }

  /** Within one ttl of the start of the window charged, so that its counter cannot have expired.  This is
      the whole window except in a month of 31 days. */
  predicate InTime(p: Policy, start: int, now: int) {
    Duration(p.window) <= 0 || now <= start + Duration(p.window)
  }

  predicate Enabled(p: Policy, s: State, e: Event) {
    && s.clock <= e.now
    && match e
       case Begin(id, _, cost) => id !in s.evals && cost >= 1
       case Get(id, now) => id in s.evals && s.evals[id].Reading? && InTime(p, s.evals[id].start, now)
       case Swap(id, now) => id in s.evals && s.evals[id].Swapping? && InTime(p, s.evals[id].start, now)
  }

  function Apply(p: Policy, s: State, e: Event): State
    requires WellFormed(p)
    requires e.Begin? || (e.id in s.evals && (if e.Get? then s.evals[e.id].Reading? else s.evals[e.id].Swapping?))
  {
    match e
    case Begin(id, now, cost) =>
      var start := Start(p.window, now);
      s.(clock := now, evals := s.evals[id := Reading(now, start, cost, |Ledger(s, start)|, 0)])
    case Get(id, now) =>
      var v := s.evals[id];
      var commits := |Ledger(s, v.start)|;
      var cur := Counter(s, v.start, now).value;
      s.(clock := now,
         evals := s.evals[id :=
           if cur + v.cost > p.limit then Finished(v.now, v.start, v.cost, v.begun, commits, OverLimit)
           else Swapping(v.now, v.start, v.cost, v.begun, v.attempt, cur, commits)])
    case Swap(id, now) =>
      var v := s.evals[id];
      var commits := |Ledger(s, v.start)|;
      var it := Counter(s, v.start, now);
      if it.value == v.cur then
        State(now,
              s.counters[v.start := Item(v.cur + v.cost, Renew(it.expiry, Duration(p.window), now))],
              s.ledger[v.start := Ledger(s, v.start) + [Charge(id, v.now, v.cost)]],
              s.evals[id := Finished(v.now, v.start, v.cost, v.begun, commits + 1, Charged)])
      else
        s.(clock := now,
           evals := s.evals[id :=
             if v.attempt + 1 < p.maxRetries then Reading(v.now, v.start, v.cost, v.begun, v.attempt + 1)
             else Finished(v.now, v.start, v.cost, v.begun, commits, Contended)])
  }

  // ---------------------------------------------------------------- invariant

  /** Every charge was told to one finished evaluation, and no evaluation is charged twice. */
  predicate OnceEach(l: seq<Charge>, evals: map<nat, Phase>, start: int) {
    && (forall i :: 0 <= i < |l| ==> l[i].id in evals && Paid(evals[l[i].id], start, l[i].now, l[i].cost))
    && (forall i, j :: 0 <= i < j < |l| ==> l[i].id != l[j].id)
  }

  predicate LedgerOk(p: Policy, s: State, start: int) {
    var l := Ledger(s, start);
    && (forall i :: 0 <= i < |l| ==> l[i].cost >= 1)
    && Sum(l) <= p.limit
    && OnceEach(l, s.evals, start)
  }

  predicate Paid(v: Phase, start: int, now: int, cost: int) {
    v.Finished? && v.result == Charged && v.start == start && v.now == now && v.cost == cost
  }

  predicate CounterOk(p: Policy, s: State, start: int) {
    if start in s.counters then
      && s.counters[start].value == Sum(Ledger(s, start))
      && (if Duration(p.window) > 0
          then s.counters[start].expiry.At? && s.counters[start].expiry.ns >= start + Duration(p.window)
          else s.counters[start].expiry.Never?)
    else Ledger(s, start) == []
  }

  predicate EvalOk(p: Policy, s: State, id: nat)
    requires id in s.evals
  {
    var v := s.evals[id];
    var l := Ledger(s, v.start);
    && v.cost >= 1 && v.start <= s.clock && v.start == Start(p.window, v.now)
    && match v
       case Reading(_, _, _, begun, attempt) => attempt < p.maxRetries && begun + attempt <= |l|
       case Swapping(_, _, cost, begun, attempt, cur, seen) =>
         && attempt < p.maxRetries && begun + attempt <= seen <= |l|
         && cur == Sum(l[..seen]) && cur + cost <= p.limit
       case Finished(now, _, cost, begun, ended, result) =>
         && begun <= ended <= |l|
         && (result == Charged ==> Charge(id, now, cost) in l)
         && (result == Contended ==> begun + p.maxRetries <= ended)
  }

  ghost predicate Inv(p: Policy, s: State) {
    && WellFormed(p)
    && (forall start :: LedgerOk(p, s, start))
    && (forall start :: CounterOk(p, s, start))
    && (forall id :: id in s.evals ==> EvalOk(p, s, id))
  }

  lemma {:induction false} SumGrows(cs: seq<Charge>, n: nat)
    requires n <= |cs| && forall i :: 0 <= i < |cs| ==> cs[i].cost >= 1
    ensures Sum(cs) >= Sum(cs[..n]) + (|cs| - n)
  {
    if n < |cs| {
      SumGrows(cs[..|cs| - 1], n);
      assert cs[..|cs| - 1][..n] == cs[..n];
    } else {
      assert cs[..n] == cs;
    }
  }

  lemma StartBefore(w: Window, t: int)
    ensures Start(w, t) <= t
  {
    if Duration(w) > 0 { WindowsPartition(w, t, t); }
  }

  /** In that time a counter never expires, so it reads as the sum of its ledger. */
  lemma CounterExact(p: Policy, s: State, start: int, now: int)
    requires Inv(p, s) && InTime(p, start, now)
    ensures Counter(s, start, now).value == Sum(Ledger(s, start))
  {
    assert CounterOk(p, s, start);
  }

  lemma BeginKeeps(p: Policy, s: State, e: Event)
    requires Inv(p, s) && Enabled(p, s, e) && e.Begin?
    ensures Inv(p, Apply(p, s, e))
  {
    var s' := Apply(p, s, e);
    StartBefore(p.window, e.now);
    forall start ensures LedgerOk(p, s', start) && CounterOk(p, s', start) {
      assert LedgerOk(p, s, start) && CounterOk(p, s, start);
    }
    forall id | id in s'.evals ensures EvalOk(p, s', id) {
      if id != e.id { assert EvalOk(p, s, id); }
    }
  }

  lemma GetKeeps(p: Policy, s: State, e: Event)
    requires Inv(p, s) && Enabled(p, s, e) && e.Get?
    ensures Inv(p, Apply(p, s, e))
  {
    var s' := Apply(p, s, e);
    CounterExact(p, s, s.evals[e.id].start, e.now);
    forall start ensures LedgerOk(p, s', start) && CounterOk(p, s', start) {
      assert LedgerOk(p, s, start) && CounterOk(p, s, start);
    }
    forall id | id in s'.evals ensures EvalOk(p, s', id) {
      assert EvalOk(p, s, id);
      var l := Ledger(s, s.evals[id].start);
      assert l[..|l|] == l;
    }
  }

  /** A swap finds the value it read exactly when nobody has committed since. */
  lemma SwapIffQuiet(p: Policy, s: State, e: Event)
    requires Inv(p, s) && Enabled(p, s, e) && e.Swap?
    ensures var v := s.evals[e.id];
            Counter(s, v.start, e.now).value == v.cur <==> v.seen == |Ledger(s, v.start)|
  {
    var v := s.evals[e.id];
    var l := Ledger(s, v.start);
    assert EvalOk(p, s, e.id) && LedgerOk(p, s, v.start);
    CounterExact(p, s, v.start, e.now);
    SumGrows(l, v.seen);
    assert l[..|l|] == l;
  }

  lemma SwapFails(p: Policy, s: State, e: Event)
    requires Inv(p, s) && Enabled(p, s, e) && e.Swap?
    requires Counter(s, s.evals[e.id].start, e.now).value != s.evals[e.id].cur
    ensures Inv(p, Apply(p, s, e))
  {
    var s' := Apply(p, s, e);
    SwapIffQuiet(p, s, e);
    forall start ensures LedgerOk(p, s', start) && CounterOk(p, s', start) {
      assert LedgerOk(p, s, start) && CounterOk(p, s, start);
    }
    forall id | id in s'.evals ensures EvalOk(p, s', id) {
      assert EvalOk(p, s, id);
    }
  }

  lemma SumSnoc(cs: seq<Charge>, c: Charge)
    ensures Sum(cs + [c]) == Sum(cs) + c.cost
  {
    assert (cs + [c])[..|cs|] == cs;
  }

  lemma SwapCommits(p: Policy, s: State, e: Event)
    requires Inv(p, s) && Enabled(p, s, e) && e.Swap?
    requires Counter(s, s.evals[e.id].start, e.now).value == s.evals[e.id].cur
    ensures var s', v := Apply(p, s, e), s.evals[e.id];
            && Ledger(s', v.start) == Ledger(s, v.start) + [Charge(e.id, v.now, v.cost)]
            && Sum(Ledger(s', v.start)) == Sum(Ledger(s, v.start)) + v.cost == v.cur + v.cost <= p.limit
  {
    var v := s.evals[e.id];
    assert EvalOk(p, s, e.id);
    CounterExact(p, s, v.start, e.now);
    SumSnoc(Ledger(s, v.start), Charge(e.id, v.now, v.cost));
  }

  /** The counter moves with its ledger, and its expiry only ever moves outwards. */
  lemma SwapCounter(p: Policy, s: State, e: Event)
    requires Inv(p, s) && Enabled(p, s, e) && e.Swap?
    requires Counter(s, s.evals[e.id].start, e.now).value == s.evals[e.id].cur
    ensures CounterOk(p, Apply(p, s, e), s.evals[e.id].start)
  {
    SwapCommits(p, s, e);
    assert EvalOk(p, s, e.id) && CounterOk(p, s, s.evals[e.id].start);
  }

  lemma OnceEachSnoc(l: seq<Charge>, evals: map<nat, Phase>, start: int, id: nat, v: Phase)
    requires OnceEach(l, evals, start) && id in evals && !evals[id].Finished? && Paid(v, start, v.now, v.cost)
    ensures OnceEach(l + [Charge(id, v.now, v.cost)], evals[id := v], start)
  {
    var l' := l + [Charge(id, v.now, v.cost)];
    forall i | 0 <= i < |l| ensures l'[i] == l[i] && l[i].id != id {
    }
  }

  lemma SwapLedger(p: Policy, s: State, e: Event)
    requires Inv(p, s) && Enabled(p, s, e) && e.Swap?
    requires Counter(s, s.evals[e.id].start, e.now).value == s.evals[e.id].cur
    ensures LedgerOk(p, Apply(p, s, e), s.evals[e.id].start)
  {
    SwapCommits(p, s, e);
    var s', v := Apply(p, s, e), s.evals[e.id];
    assert EvalOk(p, s, e.id) && LedgerOk(p, s, v.start);
    OnceEachSnoc(Ledger(s, v.start), s.evals, v.start, e.id, s'.evals[e.id]);
  }

  /** A commit to one window leaves every other window's counter and ledger alone. */
  lemma SwapElsewhere(p: Policy, s: State, e: Event, start: int)
    requires Inv(p, s) && Enabled(p, s, e) && e.Swap? && start != s.evals[e.id].start
    requires Counter(s, s.evals[e.id].start, e.now).value == s.evals[e.id].cur
    ensures var s' := Apply(p, s, e);
            Ledger(s', start) == Ledger(s, start) && LedgerOk(p, s', start) && CounterOk(p, s', start)
  {
    var s' := Apply(p, s, e);
    assert LedgerOk(p, s, start) && CounterOk(p, s, start);
    assert Ledger(s', start) == Ledger(s, start);
  }

  lemma SwapEval(p: Policy, s: State, e: Event, id: nat)
    requires Inv(p, s) && Enabled(p, s, e) && e.Swap? && id in s.evals
    requires Counter(s, s.evals[e.id].start, e.now).value == s.evals[e.id].cur
    ensures EvalOk(p, Apply(p, s, e), id)
  {
    var s', v, w := Apply(p, s, e), s.evals[e.id], s.evals[id];
    assert EvalOk(p, s, id);
    if w.start != v.start {
      SwapElsewhere(p, s, e, w.start);
    } else {
      SwapCommits(p, s, e);
      var l, l' := Ledger(s, v.start), Ledger(s', v.start);
      if id == e.id {
        assert l'[|l|] == Charge(id, v.now, v.cost);
      } else if w.Swapping? {
        assert l'[..w.seen] == l[..w.seen];
      }
    }
  }

  lemma SwapSucceeds(p: Policy, s: State, e: Event)
    requires Inv(p, s) && Enabled(p, s, e) && e.Swap?
    requires Counter(s, s.evals[e.id].start, e.now).value == s.evals[e.id].cur
    ensures Inv(p, Apply(p, s, e))
  {
    var s', v := Apply(p, s, e), s.evals[e.id];
    forall start ensures LedgerOk(p, s', start) && CounterOk(p, s', start) {
      if start != v.start {
        SwapElsewhere(p, s, e, start);
      } else {
        SwapCounter(p, s, e);
        SwapLedger(p, s, e);
      }
    }
    forall id | id in s'.evals ensures EvalOk(p, s', id) {
      SwapEval(p, s, e, id);
    }
  }

  // ---------------------------------------------------------------- the store

  function WindowKey(key: string, start: int): string {
    key + ":" + Text.Decimal(start)
  }

  lemma WindowKeysDiffer(key: string, a: int, b: int)
    requires WindowKey(key, a) == WindowKey(key, b)
    ensures a == b
  {
    var n := |key + ":"|;
    assert WindowKey(key, a)[n..] == Text.Decimal(a) && WindowKey(key, b)[n..] == Text.Decimal(b);
    Text.DecimalInjective(a, b);
  }

  /** The store's entries under the window keys are the machine's counters. */
  ghost predicate Represents(s: State, f: Flat, key: string) {
    forall start ::
      if start in s.counters
      then WindowKey(key, start) in f.values && f.values[WindowKey(key, start)] == s.counters[start]
      else WindowKey(key, start) !in f.values
  }

  lemma CounterIsLive(s: State, f: Flat, key: string, start: int, now: int)
    requires Represents(s, f, key)
    ensures Counter(s, start, now) == Live(f.values, WindowKey(key, start), now)
  {
  }

  lemma WriteRepresents(s: State, s': State, f: Flat, f': Flat, key: string, start: int, it: Item)
    requires Represents(s, f, key)
    requires s'.counters == s.counters[start := it] && f'.values == f.values[WindowKey(key, start) := it]
    ensures Represents(s', f', key)
  {
    forall other | other != start ensures WindowKey(key, other) != WindowKey(key, start) {
      if WindowKey(key, other) == WindowKey(key, start) { WindowKeysDiffer(key, other, start); }
    }
  }

  /** The machine's Get and Swap are the reference store's calls on the window key, with the same
      replies, and they stay in step. */
  lemma StepsAreStoreSteps(p: Policy, s: State, e: Event, f: Flat, key: string)
    requires WellFormed(p) && Enabled(p, s, e) && !e.Begin? && Represents(s, f, key)
    ensures var s', v := Apply(p, s, e), s.evals[e.id];
            var k := WindowKey(key, v.start);
            if e.Get? then
              var (f', r) := FlatStep(f, Op.Get(k), e.now);
              && Represents(s', f', key) && r.Value?
              && s'.evals[e.id] ==
                   if r.value + v.cost > p.limit
                   then Finished(v.now, v.start, v.cost, v.begun, |Ledger(s, v.start)|, OverLimit)
                   else Swapping(v.now, v.start, v.cost, v.begun, v.attempt, r.value, |Ledger(s, v.start)|)
            else
              var (f', r) := FlatStep(f, Op.CompareAndSwap(k, v.cur, v.cur + v.cost, Duration(p.window)), e.now);
              Represents(s', f', key) && r == Swapped(Paid(s'.evals[e.id], v.start, v.now, v.cost))
  {
    var s', v := Apply(p, s, e), s.evals[e.id];
    var it := Counter(s, v.start, e.now);
    CounterIsLive(s, f, key, v.start, e.now);
    if e.Swap? && it.value == v.cur {
      var f' := FlatStep(f, Op.CompareAndSwap(WindowKey(key, v.start), v.cur, v.cur + v.cost, Duration(p.window)),
                         e.now).0;
      WriteRepresents(s, s', f, f', key, v.start, Item(v.cur + v.cost, Renew(it.expiry, Duration(p.window), e.now)));
    }
  }

  // ---------------------------------------------------------------- runs

  predicate Runnable(p: Policy, s: State, es: seq<Event>)
    requires WellFormed(p)
    decreases |es|
  {
    es == [] || (Enabled(p, s, es[0]) && Runnable(p, Apply(p, s, es[0]), es[1..]))
  }

  function Run(p: Policy, s: State, es: seq<Event>): State
    requires WellFormed(p) && Runnable(p, s, es)
    decreases |es|
  {
    if es == [] then s else Run(p, Apply(p, s, es[0]), es[1..])
  }

  lemma {:induction false} RunKeeps(p: Policy, s: State, es: seq<Event>)
    requires Inv(p, s) && Runnable(p, s, es)
    ensures Inv(p, Run(p, s, es))
    decreases |es|
  {
    if es != [] {
      var e := es[0];
      match e {
        case Begin(_, _, _) => BeginKeeps(p, s, e);
        case Get(_, _) => GetKeeps(p, s, e);
        case Swap(id, now) =>
          if Counter(s, s.evals[id].start, now).value == s.evals[id].cur {
            SwapSucceeds(p, s, e);
          } else {
            SwapFails(p, s, e);
          }
      }
      RunKeeps(p, Apply(p, s, e), es[1..]);
    }
  }

  /** Under every interleaving, a window's counter reads, up to one ttl after its start, as the sum of
      the costs of exactly the evaluations that were told "charged" for it, each counted once, and
      that sum never passes the limit. */
  lemma CasSafety(p: Policy, es: seq<Event>, start: int, now: int)
    requires WellFormed(p) && Runnable(p, INIT, es) && InTime(p, start, now)
    ensures var s := Run(p, INIT, es);
            var l := Ledger(s, start);
            && Counter(s, start, now).value == Sum(l) <= p.limit
            && (forall i, j :: 0 <= i < j < |l| ==> l[i].id != l[j].id)
            && (forall id, begun, cost ::
                  Charge(id, begun, cost) in l <==> id in s.evals && Paid(s.evals[id], start, begun, cost))
  {
    RunKeeps(p, INIT, es);
    var s := Run(p, INIT, es);
    CounterExact(p, s, start, now);
    assert LedgerOk(p, s, start);
    forall id, begun, cost
      ensures Charge(id, begun, cost) in Ledger(s, start) <==> id in s.evals && Paid(s.evals[id], start, begun, cost)
    {
      if id in s.evals { assert EvalOk(p, s, id); }
    }
  }

  /** An evaluation is told "contention" only if, between its start and its return, at least
      `maxRetries` other evaluations charged the same window. */
  lemma ContentionNeedsCommits(p: Policy, es: seq<Event>, id: nat)
    requires WellFormed(p) && Runnable(p, INIT, es)
    requires id in Run(p, INIT, es).evals
    ensures var v := Run(p, INIT, es).evals[id];
            v.Finished? && v.result == Contended ==>
              var l := Ledger(Run(p, INIT, es), v.start);
              && v.begun + p.maxRetries <= v.ended <= |l|
              && (forall i :: v.begun <= i < v.ended ==> l[i].id != id)
  {
    RunKeeps(p, INIT, es);
    var s := Run(p, INIT, es);
    assert EvalOk(p, s, id) && LedgerOk(p, s, s.evals[id].start);
  }

  /** So with more retries than the limit, contention is never reported. */
  lemma ContentionUnreachable(p: Policy, es: seq<Event>, id: nat)
    requires WellFormed(p) && Runnable(p, INIT, es) && p.maxRetries > p.limit
    requires id in Run(p, INIT, es).evals && Run(p, INIT, es).evals[id].Finished?
    ensures Run(p, INIT, es).evals[id].result != Contended
  {
    RunKeeps(p, INIT, es);
    var s := Run(p, INIT, es);
    assert EvalOk(p, s, id) && LedgerOk(p, s, s.evals[id].start);
    SumGrows(Ledger(s, s.evals[id].start), 0);
  }

  /** An evaluation of cost `cost` whose two store calls both happen at `now`. */
  function Whole(p: Policy, s: State, id: nat, begin: int, now: int, cost: int): State
    requires WellFormed(p) && Counter(s, Start(p.window, begin), now).value + cost <= p.limit
  {
    Apply(p, Apply(p, Apply(p, s, Begin(id, begin, cost)), Event.Get(id, now)), Swap(id, now))
  }

  lemma WholeCharges(p: Policy, s: State, id: nat, begin: int, now: int, cost: int)
    requires WellFormed(p) && Counter(s, Start(p.window, begin), now).value + cost <= p.limit
    ensures var start := Start(p.window, begin);
            var it, s' := Counter(s, start, now), Whole(p, s, id, begin, now, cost);
            && Ledger(s', start) == Ledger(s, start) + [Charge(id, begin, cost)]
            && start in s'.counters
            && s'.counters[start] == Item(it.value + cost, Renew(it.expiry, Duration(p.window), now))
  {
  }

  /** Finishing in time is needed, whatever the policy: an evaluation that began in the window but reads
      after the counter's ttl finds it gone, and the window is charged twice its limit. */
  lemma LateSwapOvercharges(p: Policy, t: int, begin: int)
    requires WellFormed(p) && Duration(p.window) > 0 && Start(p.window, begin) == Start(p.window, t)
    ensures var late := t + Duration(p.window) + 1;
            var s1 := Whole(p, INIT, 1, t, t, p.limit);
            && Counter(s1, Start(p.window, t), late) == ZERO
            && Sum(Ledger(Whole(p, s1, 2, begin, late, p.limit), Start(p.window, t))) == 2 * p.limit
  {
    var late, start := t + Duration(p.window) + 1, Start(p.window, t);
    WholeCharges(p, INIT, 1, t, t, p.limit);
    var s1 := Whole(p, INIT, 1, t, t, p.limit);
    assert Counter(s1, start, late) == ZERO;
    WholeCharges(p, s1, 2, begin, late, p.limit);
    assert Ledger(s1, start) == [Charge(1, t, p.limit)];
    var a, b := Charge(1, t, p.limit), Charge(2, begin, p.limit);
    assert Ledger(Whole(p, s1, 2, begin, late, p.limit), start) == [a, b];
    assert [a, b][..1] == [a] && [a][..0] == [];
    assert Sum([a]) == p.limit;
  }

  /** Every instant of a window is in time, unless the window is a month of 31 days: the counter's ttl is
      30 days for every month. */
  lemma WindowInTimeIff(p: Policy, t: int)
    requires Duration(p.window) > 0
    ensures (forall u :: Start(p.window, t) <= u < End(p.window, t) ==> InTime(p, Start(p.window, t), u)) <==>
            !(p.window.Monthly? && MonthDays(MonthOf(DayOf(t))) == 31)
  {
    WindowLength(p.window, t);
    var late := Start(p.window, t) + Duration(p.window) + 1;
    if p.window.Monthly? && MonthDays(MonthOf(DayOf(t))) == 31 {
      assert Start(p.window, t) <= late < End(p.window, t) && !InTime(p, Start(p.window, t), late);
    }
  }

  lemma ChargedTwice(p: Policy, first: int, late: int)
    requires WellFormed(p) && Duration(p.window) > 0 && late == first + Duration(p.window) + 1
    requires first == Start(p.window, first) == Start(p.window, late)
    ensures var s1 := Whole(p, INIT, 1, first, first, p.limit);
            && Counter(s1, first, late) == ZERO
            && Sum(Ledger(Whole(p, s1, 2, late, late, p.limit), first)) == 2 * p.limit
  {
    LateSwapOvercharges(p, first, late);
  }

  /** So in every month of 31 days a monthly limit can be charged twice, by two evaluations that each
      take place at one instant of that month: its first, and one after day 30. */
  lemma LongMonthOvercharges(p: Policy, t: int, first: int, late: int)
    requires WellFormed(p) && p.window.Monthly? && MonthDays(MonthOf(DayOf(t))) == 31
    requires first == Start(p.window, t) && late == first + Duration(p.window) + 1
    ensures first == Start(p.window, first) == Start(p.window, late) && late < End(p.window, t)
    ensures var s1 := Whole(p, INIT, 1, first, first, p.limit);
            && Counter(s1, first, late) == ZERO
            && Sum(Ledger(Whole(p, s1, 2, late, late, p.limit), first)) == 2 * p.limit
  {
    LongMonthTail(p.window, t);
    ChargedTwice(p, first, late);
  }

  // ---------------------------------------------------------------- any interval

  /** What a ledger holds of the interval [a, b], by clock reading. */
  function Within(cs: seq<Charge>, a: int, b: int): int {
    if cs == [] then 0
    else Within(cs[..|cs| - 1], a, b) + if a <= cs[|cs| - 1].now <= b then cs[|cs| - 1].cost else 0
  }

  lemma {:induction false} WithinSum(cs: seq<Charge>, a: int, b: int)
    requires forall i :: 0 <= i < |cs| ==> cs[i].cost >= 1
    ensures 0 <= Within(cs, a, b) <= Sum(cs)
    ensures (forall i :: 0 <= i < |cs| ==> !(a <= cs[i].now <= b)) ==> Within(cs, a, b) == 0
  {
    if cs != [] { WithinSum(cs[..|cs| - 1], a, b); }
  }

  /** The cost charged in [a, b] to the listed windows. */
  function Spent(s: State, starts: seq<int>, a: int, b: int): int {
    if starts == [] then 0
    else Spent(s, starts[..|starts| - 1], a, b) + Within(Ledger(s, starts[|starts| - 1]), a, b)
  }

  predicate Distinct(starts: seq<int>) {
    forall i, j :: 0 <= i < j < |starts| ==> starts[i] != starts[j]
  }

  /** An interval no longer than the window meets at most two windows. */
  lemma TwoStarts(p: Policy, a: int, x: int, b: int)
    requires Duration(p.window) > 0 && !p.window.Monthly? && a <= x <= b <= a + Duration(p.window)
    ensures Start(p.window, x) == Start(p.window, a) || Start(p.window, x) == Start(p.window, b)
  {
    WindowsTile(p.window, a, x);
    WindowsTile(p.window, b, x);
    WindowsTile(p.window, x, b);
  }

  lemma OneWindow(p: Policy, s: State, start: int, a: int, b: int)
    requires Inv(p, s) && Duration(p.window) > 0 && !p.window.Monthly? && a <= b <= a + Duration(p.window)
    ensures 0 <= Within(Ledger(s, start), a, b) <= p.limit
    ensures start != Start(p.window, a) && start != Start(p.window, b) ==> Within(Ledger(s, start), a, b) == 0
  {
    var l := Ledger(s, start);
    assert LedgerOk(p, s, start);
    WithinSum(l, a, b);
    forall i | 0 <= i < |l| && a <= l[i].now <= b ensures start == Start(p.window, a) || start == Start(p.window, b) {
      assert Paid(s.evals[l[i].id], start, l[i].now, l[i].cost) && EvalOk(p, s, l[i].id);
      TwoStarts(p, a, l[i].now, b);
    }
  }

  lemma {:induction false} SpentBound(p: Policy, s: State, starts: seq<int>, a: int, b: int)
    requires Inv(p, s) && Duration(p.window) > 0 && !p.window.Monthly? && a <= b <= a + Duration(p.window)
    requires Distinct(starts)
    ensures var first, last := Start(p.window, a), Start(p.window, b);
            Spent(s, starts, a, b) <= (if first in starts then p.limit else 0) + (if last in starts then p.limit else 0)
  {
    if starts != [] {
      var init, start := starts[..|starts| - 1], starts[|starts| - 1];
      assert starts == init + [start] && start !in init;
      SpentBound(p, s, init, a, b);
      OneWindow(p, s, start, a, b);
    }
  }

  /** Under every interleaving, any interval no longer than the window holds at most twice the limit, over all
      windows together. */
  lemma IntervalBound(p: Policy, es: seq<Event>, starts: seq<int>, a: int, b: int)
    requires WellFormed(p) && Runnable(p, INIT, es) && Distinct(starts)
    requires Duration(p.window) > 0 && !p.window.Monthly? && a <= b <= a + Duration(p.window)
    ensures Spent(Run(p, INIT, es), starts, a, b) <= 2 * p.limit
  {
    RunKeeps(p, INIT, es);
    SpentBound(p, Run(p, INIT, es), starts, a, b);
  }

  lemma RunCons(p: Policy, s: State, e: Event, es: seq<Event>)
    requires WellFormed(p) && Enabled(p, s, e) && Runnable(p, Apply(p, s, e), es)
    ensures Runnable(p, s, [e] + es) && Run(p, s, [e] + es) == Run(p, Apply(p, s, e), es)
  {
    assert ([e] + es)[1..] == es;
  }

  /** An evaluation's calls, all at one instant. */
  function Calls(id: nat, t: int, cost: int): seq<Event> {
    [Begin(id, t, cost), Event.Get(id, t), Swap(id, t)]
  }

  lemma WholeRuns(p: Policy, s: State, id: nat, t: int, cost: int, es: seq<Event>)
    requires WellFormed(p) && s.clock <= t && id !in s.evals && cost >= 1 && Duration(p.window) > 0
    requires Counter(s, Start(p.window, t), t).value + cost <= p.limit
    requires Runnable(p, Whole(p, s, id, t, t, cost), es) && InTime(p, Start(p.window, t), t)
    ensures Runnable(p, s, Calls(id, t, cost) + es)
    ensures Run(p, s, Calls(id, t, cost) + es) == Run(p, Whole(p, s, id, t, t, cost), es)
  {
    var a, b, c := Begin(id, t, cost), Event.Get(id, t), Swap(id, t);
    var s1 := Apply(p, s, a);
    var s2 := Apply(p, s1, b);
    RunCons(p, s2, c, es);
    RunCons(p, s1, b, [c] + es);
    RunCons(p, s, a, [b] + ([c] + es));
    assert Calls(id, t, cost) + es == [a] + ([b] + ([c] + es));
  }

  /** Two one-charge ledgers, summed. */
  lemma SpentTwice(s: State, before: int, t: int, a: Charge, b: Charge)
    requires before != t && Ledger(s, before) == [a] && Ledger(s, t) == [b]
    requires t - 1 <= a.now <= t && t - 1 <= b.now <= t
    ensures Spent(s, [before, t], t - 1, t) == a.cost + b.cost
  {
    assert [a][..0] == [] && [b][..0] == [];
    assert Within([a], t - 1, t) == a.cost && Within([b], t - 1, t) == b.cost;
    assert [before, t][..1] == [before] && [before][..0] == [];
    assert Spent(s, [before], t - 1, t) == a.cost;
  }

  /** The full limit just before a boundary and again at it. */
  lemma BothSides(p: Policy, t: int)
    requires WellFormed(p) && Duration(p.window) > 0 && !p.window.Monthly? && t >= 1 && Start(p.window, t) == t
    ensures var before := Start(p.window, t - 1);
            var s1 := Whole(p, INIT, 1, t - 1, t - 1, p.limit);
            var s2 := Whole(p, s1, 2, t, t, p.limit);
            && before < t && s1.clock == t - 1 && 2 !in s1.evals
            && InTime(p, before, t - 1) && InTime(p, t, t)
            && Counter(s1, t, t).value == 0
            && Ledger(s2, before) == [Charge(1, t - 1, p.limit)] && Ledger(s2, t) == [Charge(2, t, p.limit)]
  {
    WindowsTile(p.window, t - 1, t);
    WholeCharges(p, INIT, 1, t - 1, t - 1, p.limit);
    WholeCharges(p, Whole(p, INIT, 1, t - 1, t - 1, p.limit), 2, t, t, p.limit);
  }

  /** And a run reaches it at every window boundary: the full limit on either side. */
  lemma IntervalReached(p: Policy, t: int)
    requires WellFormed(p) && Duration(p.window) > 0 && !p.window.Monthly? && t >= 1 && Start(p.window, t) == t
    ensures var es := Calls(1, t - 1, p.limit) + (Calls(2, t, p.limit) + []);
            && Runnable(p, INIT, es)
            && Spent(Run(p, INIT, es), [Start(p.window, t - 1), t], t - 1, t) == 2 * p.limit
  {
    var s1 := Whole(p, INIT, 1, t - 1, t - 1, p.limit);
    BothSides(p, t);
    WholeRuns(p, s1, 2, t, p.limit, []);
    WholeRuns(p, INIT, 1, t - 1, p.limit, Calls(2, t, p.limit) + []);
    SpentTwice(Whole(p, s1, 2, t, t, p.limit), Start(p.window, t - 1), t,
               Charge(1, t - 1, p.limit), Charge(2, t, p.limit));
  }
}
