/** The sliding window counter's evaluator as a retry loop over the memory store.

    The other clients act in the gaps: in attempt i, between this evaluation's Get and its CompareAndSwap,
    they raise the counter by `gaps(i)` in all.  How much they may charge is theirs to decide, on their own
    clock readings. */
module SlidingCounterEvaluator {
  import opened StoreModel
  import opened MemoryStore
  import opened Windows
  import opened SlidingCounter
  import Limits = SlidingCounterLimits
  import WE = WindowEvaluators
  import Text

  datatype Decision = Allowed(remaining: int, resetAt: int) | Exceeded(retryAfter: int) | Contention(retryAfter: int)

  /** The largest count the current window may reach under the estimate, given the weighted previous count. */
  function Budget(limit: int, carried: real): int {
    (limit as real - carried).Floor
  }

  lemma BudgetExact(limit: int, carried: real, count: int)
    ensures count as real + carried > limit as real <==> count > Budget(limit, carried)
    ensures (limit as real - (count as real + carried)).Floor == Budget(limit, carried) - count
  {
  }

  /** The loop from one attempt on: how it ends, and the counter it leaves. */
  function Attempts(value: int, cost: WE.Cost, budget: int, gaps: nat -> nat, attempt: nat, retries: nat): (WE.End, int)
    decreases retries - attempt
  {
    if attempt >= retries then (WE.GaveUp, value)
    else if value + cost > budget then (WE.OverLimit, value)
    else if gaps(attempt) == 0 then (WE.Committed, value + cost)
    else Attempts(value + gaps(attempt), cost, budget, gaps, attempt + 1, retries)
  }

  /** Whatever the others charge, the counter only grows, this evaluation never takes it above its own
      budget, it is refused only when its cost does not fit any more, and it gives up only after as many
      raises by others as it had attempts. */
  lemma {:induction false} AttemptsFit(value: int, cost: WE.Cost, budget: int, gaps: nat -> nat, attempt: nat,
                                       retries: nat)
    requires attempt <= retries
    ensures var (end, final) := Attempts(value, cost, budget, gaps, attempt, retries);
            && value <= final
            && (end.Committed? ==> value + cost <= final <= budget)
            && (end.OverLimit? ==> final + cost > budget)
            && (end.GaveUp? ==> final >= value + (retries - attempt))
    decreases retries - attempt
  {
    if attempt < retries && value + cost <= budget && gaps(attempt) != 0 {
      AttemptsFit(value + gaps(attempt), cost, budget, gaps, attempt + 1, retries);
    }
  }

  // ---------------------------------------------------------------- the loop

  method WeighPrevious(length: int, elapsed: int, prevCount: int) returns (carried: real)
    requires length > 0
    ensures carried == Carried(length, elapsed, prevCount)
  {
    var weight := (length - elapsed) as real / length as real;
    if weight < 0.0 { weight := 0.0; }
    carried := prevCount as real * weight;
  }

  method Raise(store: MemoryStore, key: string, amount: nat, ttl: int, now: int)
    requires store.Valid()
    modifies store.shards
    ensures var it := ValueAt(old(store.shards[..]), store.hash, key, now);
            var it' := WE.ChargedTo(it, it.value + amount, ttl, now);
            && WE.Wrote(store.shards[..], old(store.shards[..]), store.hash, key, it', now)
            && ValueAt(store.shards[..], store.hash, key, now) == it'
  {
    ghost var start, hash := store.shards[..], store.hash;
    var cur := WE.Read(store, key, now);
    ghost var read := store.shards[..];
    if amount > 0 {
      var _ := WE.TrySwap(store, key, cur, cur + amount, ttl, now);
      WE.WroteTwice(store.shards[..], read, start, hash, key, ValueAt(start, hash, key, now),
                    ValueAt(store.shards[..], hash, key, now), now);
    }
  }

  /** The weighted test, and what it leaves of the limit. */
  method Estimate(curCount: int, cost: int, limit: int, carried: real) returns (over: bool, left: int)
    ensures over <==> curCount + cost > Budget(limit, carried)
    ensures left == Budget(limit, carried) - (curCount + cost)
  {
    var estimated := (curCount + cost) as real + carried;
    BudgetExact(limit, carried, curCount + cost);
    over, left := estimated > limit as real, (limit as real - estimated).Floor;
  }

  datatype Try = Refused | Lost | Won

  /** What one attempt leaves of the counter. */
  function Tried(value: int, cost: WE.Cost, budget: int, gap: nat): (Try, int) {
    if value + cost > budget then (Refused, value) else if gap == 0 then (Won, value + cost) else (Lost, value + gap)
  }

  method TryCharge(store: MemoryStore, key: string, cost: WE.Cost, limit: int, carried: real, ttl: int, now: int,
                   gap: nat)
    returns (r: Try, left: int)
    requires store.Valid()
    modifies store.shards
    ensures var it := ValueAt(old(store.shards[..]), store.hash, key, now);
            var budget := Budget(limit, carried);
            var (status, value) := Tried(it.value, cost, budget, gap);
            var it' := WE.ChargedTo(it, value, ttl, now);
            && r == status && (r.Won? ==> left == budget - value)
            && WE.Wrote(store.shards[..], old(store.shards[..]), store.hash, key, it', now)
            && ValueAt(store.shards[..], store.hash, key, now) == it'
  {
    ghost var start, hash := store.shards[..], store.hash;
    var curCount := WE.Read(store, key, now);
    ghost var read := store.shards[..];
    var over;
    over, left := Estimate(curCount, cost, limit, carried);
    if over { return Refused, left; }
    Raise(store, key, gap, ttl, now);
    ghost var disturbed := store.shards[..];
    WE.WroteTwice(disturbed, read, start, hash, key, ValueAt(read, hash, key, now),
                  ValueAt(disturbed, hash, key, now), now);
    var swapped := WE.TrySwap(store, key, curCount, curCount + cost, ttl, now);
    WE.WroteTwice(store.shards[..], disturbed, start, hash, key, ValueAt(disturbed, hash, key, now),
                  ValueAt(store.shards[..], hash, key, now), now);
    r := if swapped then Won else Lost;
  }

  /** The retry loop on the current window's counter; `carried` is the weighted previous count. */
  method EstimateLoop(store: MemoryStore, key: string, cost: WE.Cost, limit: int, carried: real, retries: nat, ttl: int,
                      now: int, gaps: nat -> nat)
    returns (end: WE.End, remaining: int)
    requires store.Valid()
    modifies store.shards
    ensures var it := ValueAt(old(store.shards[..]), store.hash, key, now);
            var budget := Budget(limit, carried);
            var (e, final) := Attempts(it.value, cost, budget, gaps, 0, retries);
            && end == e && (end.Committed? ==> remaining == budget - final)
            && WE.Wrote(store.shards[..], old(store.shards[..]), store.hash, key, WE.ChargedTo(it, final, ttl, now),
                        now)
  {
    ghost var before, hash := store.shards[..], store.hash;
    ghost var it := ValueAt(before, hash, key, now);
    ghost var value, budget := it.value, Budget(limit, carried);
    remaining := 0;
    for attempt := 0 to retries
      invariant Attempts(it.value, cost, budget, gaps, 0, retries) ==
                Attempts(value, cost, budget, gaps, attempt, retries)
      invariant value >= it.value
      invariant WE.Wrote(store.shards[..], before, hash, key, WE.ChargedTo(it, value, ttl, now), now)
      invariant ValueAt(store.shards[..], hash, key, now) == WE.ChargedTo(it, value, ttl, now)
    {
      ghost var begin := store.shards[..];
      var r, left := TryCharge(store, key, cost, limit, carried, ttl, now, gaps(attempt));
      WE.WroteTwice(store.shards[..], begin, before, hash, key, ValueAt(begin, hash, key, now),
                    ValueAt(store.shards[..], hash, key, now), now);
      value := Tried(value, cost, budget, gaps(attempt)).1;
      if r.Refused? { return WE.OverLimit, 0; }
      if r.Won? { return WE.Committed, left; }
    }
    end := WE.GaveUp;
  }

  function DecisionOf(end: WE.End, remaining: int, windowEnd: int, now: int): Decision {
    match end
    case Committed => Allowed(remaining, windowEnd)
    case OverLimit => Exceeded(windowEnd - now)
    case GaveUp => Contention(windowEnd - now)
  }

  function CounterKey(key: string, start: int): string {
    key + ":swc:" + Text.Decimal(start)
  }

  /** The budget of an evaluation that many nanoseconds into its window, with `before` in the previous one. */
  function BudgetAt(limit: int, length: int, elapsed: int, before: int): int
    requires length > 0
  {
    Budget(limit, Carried(length, elapsed, before))
  }

  /** The decision under a budget, and the store after it. */
  ghost predicate DecidesUnder(ss': seq<Shard>, ss: seq<Shard>, hash: string -> nat, curKey: string, budget: int,
                               windowEnd: int,
                               ttl: int, cost: WE.Cost, retries: nat, now: int, gaps: nat -> nat, d: Decision)
    requires |ss| > 0 && |ss'| > 0
  {
    var cur := ValueAt(ss, hash, curKey, now);
    var (end, final) := Attempts(cur.value, cost, budget, gaps, 0, retries);
    && d == DecisionOf(end, budget - final, windowEnd, now)
    && WE.Wrote(ss', ss, hash, curKey, WE.ChargedTo(cur, final, ttl, now), now)
  }

  /** An evaluation in the window that starts at `start`: its budget from the previous count, and what
      follows from it. */
  ghost predicate Decides(ss': seq<Shard>, ss: seq<Shard>, hash: string -> nat, p: Policy, curKey: string,
                          prevKey: string, start: int, cost: WE.Cost, now: int, gaps: nat -> nat, d: Decision)
    requires |ss| > 0 && |ss'| > 0
  {
    var length := Length(p.window);
    var before := ValueAt(ss, hash, prevKey, now).value;
    DecidesUnder(ss', ss, hash, curKey, BudgetAt(p.limit, length, now - start, before), start + length, 2 * length,
                 cost, p.maxRetries, now, gaps, d)
  }

  method Evaluate(store: MemoryStore, window: Window, limit: int, key: string, cost: WE.Cost, configuredRetries: int,
                  now: int, gaps: nat -> nat)
    returns (d: Decision)
    requires store.Valid()
    modifies store.shards
    ensures var start := Start(window, now);
            Decides(store.shards[..], old(store.shards[..]), store.hash,
                    Policy(EffectiveLimit(limit), window, MaxRetries(configuredRetries)),
                    CounterKey(key, start), CounterKey(key, start - Length(window)), start, cost, now, gaps, d)
  {
    var p := Policy(EffectiveLimit(limit), window, MaxRetries(configuredRetries));
    var length, curStart := Length(window), Start(window, now);
    d := EvaluateAt(store, p, CounterKey(key, curStart), CounterKey(key, curStart - length), curStart, cost, now, gaps);
  }

  /** The evaluation once keys and window are known. */
  method EvaluateAt(store: MemoryStore, p: Policy, curKey: string, prevKey: string, start: int, cost: WE.Cost, now: int,
                    gaps: nat -> nat)
    returns (d: Decision)
    requires store.Valid()
    modifies store.shards
    ensures Decides(store.shards[..], old(store.shards[..]), store.hash, p, curKey, prevKey, start, cost, now, gaps, d)
  {
    ghost var before, hash := store.shards[..], store.hash;
    ghost var cur := ValueAt(before, hash, curKey, now);
    var length := Length(p.window);
    var prevCount := WE.Read(store, prevKey, now);
    ghost var read := store.shards[..];
    assert ValueAt(read, hash, curKey, now) == cur;
    var carried := WeighPrevious(length, now - start, prevCount);
    var end, remaining := EstimateLoop(store, curKey, cost, p.limit, carried, p.maxRetries, 2 * length, now, gaps);
    ghost var final := Attempts(cur.value, cost, Budget(p.limit, carried), gaps, 0, p.maxRetries).1;
    WE.WroteAfterRead(store.shards[..], read, before, hash, prevKey, curKey,
                      WE.ChargedTo(cur, final, 2 * length, now), now);
    d := DecisionOf(end, remaining, start + length, now);
    assert d == DecisionOf(end, Budget(p.limit, carried) - final, start + length, now);
  }

  // ---------------------------------------------------------------- what a decision means

  /** The counter after the others' raises in the first `k` gaps. */
  function RaisedBy(value: int, gaps: nat -> nat, k: nat): int {
    if k == 0 then value else RaisedBy(value, gaps, k - 1) + gaps(k - 1)
  }

  /** The weighted estimate with this count in the current window is within the limit. */
  predicate Fits(limit: int, carried: real, count: int) {
    count as real + carried <= limit as real
  }

  /** Attempt `j` would have fitted and is lost to a raise. */
  predicate LostAt(value: int, cost: WE.Cost, limit: int, carried: real, gaps: nat -> nat, j: nat) {
    Fits(limit, carried, RaisedBy(value, gaps, j) + cost) && gaps(j) > 0
  }

  predicate LostBefore(value: int, cost: WE.Cost, limit: int, carried: real, gaps: nat -> nat, k: nat) {
    forall j :: 0 <= j < k ==> LostAt(value, cost, limit, carried, gaps, j)
  }

  lemma {:induction false} AttemptsAccounted(value: int, cost: WE.Cost, limit: int, carried: real, gaps: nat -> nat,
                                             attempt: nat, retries: nat)
    returns (k: nat)
    requires attempt <= retries && LostBefore(value, cost, limit, carried, gaps, attempt)
    ensures attempt <= k <= retries && LostBefore(value, cost, limit, carried, gaps, k)
    ensures var there := RaisedBy(value, gaps, k);
            var (end, final) :=
              Attempts(RaisedBy(value, gaps, attempt), cost, Budget(limit, carried), gaps, attempt, retries);
            && (end.GaveUp? <==> k == retries)
            && (end.OverLimit? <==> k < retries && !Fits(limit, carried, there + cost))
            && (end.Committed? ==> gaps(k) == 0)
            && final == if end.Committed? then there + cost else there
    decreases retries - attempt
  {
    k := attempt;
    BudgetExact(limit, carried, RaisedBy(value, gaps, attempt) + cost);
    if attempt < retries && LostAt(value, cost, limit, carried, gaps, attempt) {
      k := AttemptsAccounted(value, cost, limit, carried, gaps, attempt + 1, retries);
    }
  }

  /** What a decision says about the current counter before and after: allowed, it shows the others' raises up to
      some attempt and this cost, and `remaining` is what the estimate leaves of the limit, in whole units;
      else the raises alone, and the estimate is over the limit, or every attempt was lost. */
  ghost predicate Accounted(d: Decision, before: int, after: int, cost: WE.Cost, limit: int, carried: real,
                            gaps: nat -> nat, retries: nat)
  {
    exists k :: 0 <= k <= retries && LostBefore(before, cost, limit, carried, gaps, k) &&
      var others := RaisedBy(before, gaps, k);
      match d
      case Allowed(remaining, _) =>
        && k < retries && gaps(k) == 0 && after == others + cost
        && 0 <= remaining && remaining as real <= limit as real - (after as real + carried) < (remaining + 1) as real
      case Exceeded(_) => k < retries && after == others && !Fits(limit, carried, others + cost)
      case Contention(_) => k == retries && after == others
  }

  /** The evaluator's decision, from what the store shows before and after.  Left alone, it is the test of the
      weighted estimate; a charge lives for two window lengths; and the reset time, or the end of the wait, is one
      length after the window's start. */
  lemma DecisionMeans(ss': seq<Shard>, ss: seq<Shard>, hash: string -> nat, p: Policy, curKey: string,
                      prevKey: string, start: int, cost: WE.Cost, now: int, gaps: nat -> nat, d: Decision)
    requires |ss| > 0 && |ss'| > 0 && p.maxRetries > 0
    requires Decides(ss', ss, hash, p, curKey, prevKey, start, cost, now, gaps, d)
    ensures var length := Length(p.window);
            var before, after := ValueAt(ss, hash, curKey, now).value, ValueAt(ss', hash, curKey, now).value;
            var carried := Carried(length, now - start, ValueAt(ss, hash, prevKey, now).value);
            && (gaps(0) == 0 ==> (d.Allowed? <==> Fits(p.limit, carried, before + cost)))
            && Accounted(d, before, after, cost, p.limit, carried, gaps, p.maxRetries)
            && (d.Allowed? ==> WE.Lives(ss', hash, curKey, after, now, 2 * length))
            && start + length == if d.Allowed? then d.resetAt else now + d.retryAfter
  {
    var length := Length(p.window);
    var carried := Carried(length, now - start, ValueAt(ss, hash, prevKey, now).value);
    var cur := ValueAt(ss, hash, curKey, now);
    var k := AttemptsAccounted(cur.value, cost, p.limit, carried, gaps, 0, p.maxRetries);
    var (end, final) := Attempts(cur.value, cost, Budget(p.limit, carried), gaps, 0, p.maxRetries);
    AttemptsFit(cur.value, cost, Budget(p.limit, carried), gaps, 0, p.maxRetries);
    BudgetExact(p.limit, carried, final);
    assert ValueAt(ss', hash, curKey, now).value == final;
    assert RaisedBy(cur.value, gaps, 0) == cur.value;
  }

  /** Apart from months, that is where the next window begins. */
  lemma ResetIsNextWindow(p: Policy, now: int)
    requires Duration(p.window) > 0 && !p.window.Monthly?
    ensures FirstOutside(p.window, now, Start(p.window, now) + Length(p.window))
  {
    EndIsFirstOutside(p.window, now);
    WindowLength(p.window, now);
  }

  // ---------------------------------------------------------------- against the machine

  lemma CounterKeysDiffer(key: string, a: int, b: int)
    requires CounterKey(key, a) == CounterKey(key, b)
    ensures a == b
  {
    var n := |key + ":swc:"|;
    assert CounterKey(key, a)[n..] == Text.Decimal(a) && CounterKey(key, b)[n..] == Text.Decimal(b);
    Text.DecimalInjective(a, b);
  }

  ghost predicate Injective(keyOf: int -> string) {
    forall a, b :: keyOf(a) == keyOf(b) ==> a == b
  }

  lemma CounterKeysInjective(key: string)
    ensures Injective(start => CounterKey(key, start))
  {
    var keyOf := start => CounterKey(key, start);
    forall a, b | keyOf(a) == keyOf(b) ensures a == b { CounterKeysDiffer(key, a, b); }
  }

  /** From `now` on, the store's entries under the counter keys read as the machine's counters. */
  ghost predicate Represents(ss: seq<Shard>, hash: string -> nat, keyOf: int -> string, s: State, now: int)
    requires |ss| > 0
  {
    forall start, t :: t >= now ==> ValueAt(ss, hash, keyOf(start), t) == Counter(s, start, t)
  }

  /** The test on reals is the test on the budget. */
  lemma StepByBudget(p: Policy, s: State, start: int, q: Limits.Request)
    ensures var it, before := Counter(s, start, q.now), Counter(s, start - Length(p.window), q.now).value;
            var (s', ok) := Limits.StepAt(p, s, start, q);
            && (ok <==> it.value + q.cost <= BudgetAt(p.limit, Length(p.window), q.now - start, before))
            && s'.counters ==
                 if !ok then s.counters
                 else s.counters[start := Item(it.value + q.cost, Renew(it.expiry, 2 * Length(p.window), q.now))]
  {
    var it, before := Counter(s, start, q.now), Counter(s, start - Length(p.window), q.now).value;
    BudgetExact(p.limit, Carried(Length(p.window), q.now - start, before), it.value + q.cost);
  }

  lemma WriteRepresents(ss': seq<Shard>, ss: seq<Shard>, hash: string -> nat, keyOf: int -> string, s: State, s': State,
                        start: int, it: Item, now: int)
    requires |ss| > 0 && |ss'| > 0 && Represents(ss, hash, keyOf, s, now) && Injective(keyOf)
    requires WE.Wrote(ss', ss, hash, keyOf(start), it, now) && s'.counters == s.counters[start := it]
    ensures Represents(ss', hash, keyOf, s', now)
  {
    forall other, t | t >= now ensures ValueAt(ss', hash, keyOf(other), t) == Counter(s', other, t) {
      assert ValueAt(ss, hash, keyOf(other), t) == Counter(s, other, t);
    }
  }

  lemma SameRepresents(ss': seq<Shard>, ss: seq<Shard>, hash: string -> nat, keyOf: int -> string, s: State, s': State,
                       start: int, now: int)
    requires |ss| > 0 && |ss'| > 0 && Represents(ss, hash, keyOf, s, now) && Injective(keyOf)
    requires WE.Wrote(ss', ss, hash, keyOf(start), Counter(s, start, now), now) && s'.counters == s.counters
    ensures Represents(ss', hash, keyOf, s', now)
  {
    forall other, t | t >= now ensures ValueAt(ss', hash, keyOf(other), t) == Counter(s', other, t) {
      assert ValueAt(ss, hash, keyOf(other), t) == Counter(s, other, t);
    }
  }

  lemma AttemptsAlone(value: int, cost: WE.Cost, budget: int, gaps: nat -> nat, retries: nat)
    requires retries >= 1 && gaps(0) == 0
    ensures Attempts(value, cost, budget, gaps, 0, retries)
         == if value + cost > budget then (WE.OverLimit, value) else (WE.Committed, value + cost)
  {
  }

  /** Without interference: what is decided and written. */
  lemma DecidesAlone(ss': seq<Shard>, ss: seq<Shard>, hash: string -> nat, curKey: string, budget: int,
                     windowEnd: int, ttl: int, cost: WE.Cost, retries: nat, now: int, gaps: nat -> nat, d: Decision)
    requires |ss| > 0 && |ss'| > 0 && gaps(0) == 0 && retries >= 1
    requires DecidesUnder(ss', ss, hash, curKey, budget, windowEnd, ttl, cost, retries, now, gaps, d)
    ensures var cur := ValueAt(ss, hash, curKey, now);
            if cur.value + cost > budget then d.Exceeded? && WE.Wrote(ss', ss, hash, curKey, cur, now)
            else d.Allowed? && WE.Wrote(ss', ss, hash, curKey, Item(cur.value + cost, Renew(cur.expiry, ttl, now)), now)
  {
    AttemptsAlone(ValueAt(ss, hash, curKey, now).value, cost, budget, gaps, retries);
  }

  /** Left alone, an evaluation is the step that the bound is about: allowed exactly when the step charges,
      never contended, and the counters it leaves in the store are the step's. */
  lemma EvaluateIsStep(ss': seq<Shard>, ss: seq<Shard>, hash: string -> nat, p: Policy, keyOf: int -> string,
                       start: int, cost: WE.Cost, now: int, gaps: nat -> nat, d: Decision, s: State, id: nat)
    requires WellFormed(p) && |ss| > 0 && |ss'| > 0 && Represents(ss, hash, keyOf, s, now) && Injective(keyOf)
    requires Decides(ss', ss, hash, p, keyOf(start), keyOf(start - Length(p.window)), start, cost, now, gaps, d)
    requires gaps(0) == 0
    ensures var (s', ok) := Limits.StepAt(p, s, start, Limits.Request(id, now, cost));
            Represents(ss', hash, keyOf, s', now) && (if ok then d.Allowed? else d.Exceeded?)
  {
    var length, q := Length(p.window), Limits.Request(id, now, cost);
    var it, before := Counter(s, start, now), Counter(s, start - length, now).value;
    assert ValueAt(ss, hash, keyOf(start), now) == it;
    assert ValueAt(ss, hash, keyOf(start - length), now).value == before;
    StepByBudget(p, s, start, q);
    DecidesAlone(ss', ss, hash, keyOf(start), BudgetAt(p.limit, length, now - start, before), start + length,
                 2 * length, cost, p.maxRetries, now, gaps, d);
    var (s', ok) := Limits.StepAt(p, s, start, q);
    if ok {
      WriteRepresents(ss', ss, hash, keyOf, s, s', start, Item(it.value + cost, Renew(it.expiry, 2 * length, now)),
                      now);
    } else {
      SameRepresents(ss', ss, hash, keyOf, s, s', start, now);
    }
  }

  /** The flat store's entries under the counter keys are the machine's counters. */
  ghost predicate Matches(s: State, f: Flat, key: string) {
    forall start ::
      if start in s.counters
      then CounterKey(key, start) in f.values && f.values[CounterKey(key, start)] == s.counters[start]
      else CounterKey(key, start) !in f.values
  }

  lemma CounterIsLive(s: State, f: Flat, key: string, start: int, now: int)
    requires Matches(s, f, key)
    ensures Counter(s, start, now) == Live(f.values, CounterKey(key, start), now)
  {
  }

  lemma WriteMatches(s: State, s': State, f: Flat, f': Flat, key: string, start: int, it: Item)
    requires Matches(s, f, key)
    requires s'.counters == s.counters[start := it] && f'.values == f.values[CounterKey(key, start) := it]
    ensures Matches(s', f', key)
  {
    forall other | other != start ensures CounterKey(key, other) != CounterKey(key, start) {
      if CounterKey(key, other) == CounterKey(key, start) { CounterKeysDiffer(key, other, start); }
    }
  }

  /** The store call a step of the machine stands for. */
  function CallOf(p: Policy, v: Phase, e: SlidingCounter.Event, key: string): Op
    requires e.ReadPrevious? || e.Get? || (e.Swap? && v.Swapping?)
  {
    match e
    case ReadPrevious(_, _) => Op.Get(CounterKey(key, v.start - Length(p.window)))
    case Get(_, _) => Op.Get(CounterKey(key, v.start))
    case Swap(_, _) => Op.CompareAndSwap(CounterKey(key, v.start), v.cur, v.cur + v.cost, 2 * Length(p.window))
  }

  /** The machine's reads and swaps are the flat store's calls on the counter keys: the evaluation goes on
      with the store's reply, and machine and store stay in step. */
  lemma StepsAreStoreSteps(p: Policy, s: State, e: SlidingCounter.Event, f: Flat, key: string)
    requires WellFormed(p) && Possible(s, e) && !e.Begin? && Matches(s, f, key)
    ensures var s', v := Apply(p, s, e), s.evals[e.id];
            var (f', r) := FlatStep(f, CallOf(p, v, e, key), e.at);
            && Matches(s', f', key)
            && match e
               case ReadPrevious(id, _) =>
                 r.Value? && s'.evals[id] == Reading(v.now, v.start, v.cost, v.begun, r.value, 0)
               case Get(id, _) =>
                 && r.Value?
                 && s'.evals[id] ==
                      if Over(p, v.now - v.start, v.before, r.value, v.cost) then Return(s, v, OverLimit)
                      else Swapping(v.now, v.start, v.cost, v.begun, v.before, v.attempt, r.value, |s.history|)
               case Swap(id, _) => r == Swapped(s'.evals[id] == Return(s', v, Charged))
  {
    var s', v := Apply(p, s, e), s.evals[e.id];
    CounterIsLive(s, f, key, v.start, e.at);
    CounterIsLive(s, f, key, v.start - Length(p.window), e.at);
    var it := Counter(s, v.start, e.at);
    if e.Swap? && it.value == v.cur {
      var f' := FlatStep(f, CallOf(p, v, e, key), e.at).0;
      WriteMatches(s, s', f, f', key, v.start, Item(v.cur + v.cost, Renew(it.expiry, 2 * Length(p.window), e.at)));
    }
  }
}
