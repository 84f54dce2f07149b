/** The fixed-window and quota evaluators as retry loops over the memory store.

    The other clients act in the gaps: in attempt i, between this evaluation's Get and its
    CompareAndSwap, they try to charge the costs `gaps(i)` to the same counter, one after another. */
module WindowEvaluators {
  import opened StoreModel
  import opened MemoryStore
  import opened Windows
  import Text

  type Cost = n: int | n >= 1 witness 1

  datatype Verdict = Within(remaining: int, resetAt: int) | Exceeded(retryAfter: int) | Contention(retryAfter: int)

  /** The counter after others tried to charge `costs` under the same limit. */
  function Others(value: int, costs: seq<Cost>, limit: int): (r: int)
    ensures r >= value && (value <= limit ==> r <= limit)
    decreases |costs|
  {
    if costs == [] then value
    else Others(if value + costs[0] > limit then value else value + costs[0], costs[1..], limit)
  }

  datatype End = Committed | OverLimit | GaveUp

  /** The loop from one attempt on: how it ends, and the counter it leaves. */
  function Attempts(value: int, cost: Cost, limit: int, gaps: nat -> seq<Cost>, attempt: nat, retries: nat): (End, int)
    decreases retries - attempt
  {
    if attempt >= retries then (GaveUp, value)
    else if value + cost > limit then (OverLimit, value)
    else
      var value' := Others(value, gaps(attempt), limit);
      if value' == value then (Committed, value + cost)
      else Attempts(value', cost, limit, gaps, attempt + 1, retries)
  }

  /** Whatever the others do, the counter stays within the limit, only ever grows, grows by the cost
      on top of the others when the loop commits, and giving up means it grew at least once per try. */
  lemma {:induction false} AttemptsSafe(value: int, cost: Cost, limit: int, gaps: nat -> seq<Cost>, attempt: nat,
                                        retries: nat)
    requires value <= limit && attempt <= retries
    ensures var (end, final) := Attempts(value, cost, limit, gaps, attempt, retries);
            && value <= final <= limit
            && (end.Committed? ==> final >= value + cost)
            && (end.GaveUp? ==> final >= value + (retries - attempt))
            && (end.OverLimit? ==> final + cost > limit)
    decreases retries - attempt
  {
    if attempt < retries && value + cost <= limit {
      var value' := Others(value, gaps(attempt), limit);
      if value' != value { AttemptsSafe(value', cost, limit, gaps, attempt + 1, retries); }
    }
  }

  /** With more retries than the limit the loop never gives up on a counter that started at zero or above. */
  lemma NeverGivesUp(value: nat, cost: Cost, limit: int, gaps: nat -> seq<Cost>, retries: nat)
    requires value <= limit < retries
    ensures !Attempts(value, cost, limit, gaps, 0, retries).0.GaveUp?
  {
    AttemptsSafe(value, cost, limit, gaps, 0, retries);
  }

  function VerdictOf(end: End, remaining: int, window: Window, now: int): Verdict {
    match end
    case Committed => Within(remaining, Windows.End(window, now))
    case OverLimit => Exceeded(Windows.End(window, now) - now)
    case GaveUp => Contention(Windows.End(window, now) - now)
  }

  /** What the others alone make of the counter in the first `k` gaps. */
  function OthersBy(value: int, limit: int, gaps: nat -> seq<Cost>, k: nat): int {
    if k == 0 then value else Others(OthersBy(value, limit, gaps, k - 1), gaps(k - 1), limit)
  }

  /** Attempt `j` would have fitted and is lost to a charge of the others. */
  predicate Lost(value: int, cost: Cost, limit: int, gaps: nat -> seq<Cost>, j: nat) {
    && OthersBy(value, limit, gaps, j) + cost <= limit
    && OthersBy(value, limit, gaps, j) < OthersBy(value, limit, gaps, j + 1)
  }

  predicate LostBefore(value: int, cost: Cost, limit: int, gaps: nat -> seq<Cost>, k: nat) {
    forall j :: 0 <= j < k ==> Lost(value, cost, limit, gaps, j)
  }

  /** How the loop ends, told by the others alone: it stops at the first attempt that no longer fits or in whose
      gap nothing is charged, and its own cost comes on top in the second case only. */
  lemma {:induction false} AttemptsAccounted(value: int, cost: Cost, limit: int, gaps: nat -> seq<Cost>, attempt: nat,
                                             retries: nat)
    returns (k: nat)
    requires attempt <= retries && LostBefore(value, cost, limit, gaps, attempt)
    ensures attempt <= k <= retries && LostBefore(value, cost, limit, gaps, k)
    ensures var (end, final) := Attempts(OthersBy(value, limit, gaps, attempt), cost, limit, gaps, attempt, retries);
            var there := OthersBy(value, limit, gaps, k);
            && (end.GaveUp? <==> k == retries)
            && (end.OverLimit? <==> k < retries && there + cost > limit)
            && (end.Committed? ==> there == OthersBy(value, limit, gaps, k + 1))
            && final == if end.Committed? then there + cost else there
    decreases retries - attempt
  {
    k := attempt;
    if attempt < retries && Lost(value, cost, limit, gaps, attempt) {
      k := AttemptsAccounted(value, cost, limit, gaps, attempt + 1, retries);
    }
  }

  /** What a verdict says about the counter before and after, the others' charges being known: within the limit,
      the counter shows their charges up to some attempt and this cost, and `remaining` is what the limit leaves;
      else it shows their charges alone, and this cost does not fit, or every attempt was lost. */
  ghost predicate Accounted(v: Verdict, before: int, after: int, cost: Cost, limit: int, gaps: nat -> seq<Cost>,
                            retries: nat)
  {
    exists k :: 0 <= k <= retries && LostBefore(before, cost, limit, gaps, k) &&
      var others := OthersBy(before, limit, gaps, k);
      match v
      case Within(remaining, _) => k < retries && after == others + cost == limit - remaining && remaining >= 0
      case Exceeded(_) => k < retries && after == others && others + cost > limit
      case Contention(_) => k == retries && after == others
  }

  lemma VerdictAccounted(value: int, cost: Cost, limit: int, gaps: nat -> seq<Cost>, retries: nat, window: Window,
                         now: int)
    requires retries > 0
    ensures var (end, final) := Attempts(value, cost, limit, gaps, 0, retries);
            var v := VerdictOf(end, limit - final, window, now);
            && Accounted(v, value, final, cost, limit, gaps, retries)
            && (gaps(0) == [] ==> (v.Within? <==> value + cost <= limit))
            && (v.Within? ==> final != value)
  {
    var k := AttemptsAccounted(value, cost, limit, gaps, 0, retries);
    var (end, final) := Attempts(value, cost, limit, gaps, 0, retries);
    if end.Committed? { CommittedFits(value, cost, limit, gaps, 0, retries); }
  }

  lemma VerdictTimes(end: End, remaining: int, window: Window, now: int)
    ensures var v := VerdictOf(end, remaining, window, now);
            var next := if v.Within? then v.resetAt else now + v.retryAfter;
            if Duration(window) > 0 then FirstOutside(window, now, next) else next == now + Duration(window)
  {
    if Duration(window) > 0 { EndIsFirstOutside(window, now); }
  }

  lemma {:induction false} CommittedFits(value: int, cost: Cost, limit: int, gaps: nat -> seq<Cost>, attempt: nat,
                                         retries: nat)
    requires Attempts(value, cost, limit, gaps, attempt, retries).0.Committed?
    ensures value + cost <= Attempts(value, cost, limit, gaps, attempt, retries).1 <= limit
    decreases retries - attempt
  {
    var value' := Others(value, gaps(attempt), limit);
    if value' != value { CommittedFits(value', cost, limit, gaps, attempt + 1, retries); }
  }

  // ---------------------------------------------------------------- the loop

  /** The counter reads as `value` for `ttl` from `now` on, and then as zero. */
  ghost predicate Lives(ss: seq<Shard>, hash: string -> nat, key: string, value: int, now: int, ttl: int)
    requires |ss| > 0
  {
    forall t :: t >= now ==> ValueAt(ss, hash, key, t).value == if t <= now + ttl then value else 0
  }

  /** What a verdict means, from what the store shows before and after.  Left alone, it is the plain test of the
      old count against the limit; otherwise `Accounted` holds.  A charge lives for one window length, and the
      reset time or the end of the wait is the first instant of another window; a window of no length is over
      at once. */
  ghost predicate Means(v: Verdict, ss': seq<Shard>, ss: seq<Shard>, hash: string -> nat, key: string, window: Window,
                        cost: Cost, limit: int, gaps: nat -> seq<Cost>, retries: nat, now: int)
    requires |ss| > 0 && |ss'| > 0
  {
    var before, after := ValueAt(ss, hash, key, now).value, ValueAt(ss', hash, key, now).value;
    && (gaps(0) == [] ==> (v.Within? <==> before + cost <= limit))
    && Accounted(v, before, after, cost, limit, gaps, retries)
    && var next := if v.Within? then v.resetAt else now + v.retryAfter;
       if Duration(window) <= 0 then next == now + Duration(window)
       else
         && (v.Within? ==> Lives(ss', hash, key, limit - v.remaining, now, Duration(window)))
         && FirstOutside(window, now, next)
  }

  /** Only `key` may read differently, and it reads as `it`. */
  ghost predicate Wrote(ss': seq<Shard>, ss: seq<Shard>, hash: string -> nat, key: string, it: Item, now: int)
    requires |ss| > 0 && |ss'| > 0
  {
    forall k, t :: t >= now ==>
      ValueAt(ss', hash, k, t) == if k == key then Visible(it, t) else ValueAt(ss, hash, k, t)
  }

  /** An entry that may have been charged up to `value` at `now`. */
  function ChargedTo(it: Item, value: int, ttl: int, now: int): Item {
    if value == it.value then it else Item(value, Renew(it.expiry, ttl, now))
  }

  lemma WroteTwice(ss2: seq<Shard>, ss1: seq<Shard>, ss: seq<Shard>, hash: string -> nat, key: string, it1: Item,
                   it2: Item, now: int)
    requires |ss| > 0 && |ss1| > 0 && |ss2| > 0
    requires Wrote(ss1, ss, hash, key, it1, now) && Wrote(ss2, ss1, hash, key, it2, now)
    ensures Wrote(ss2, ss, hash, key, it2, now)
  {
  }

  /** A write after a read that changed nothing visible. */
  lemma WroteAfterRead(ss2: seq<Shard>, ss1: seq<Shard>, ss: seq<Shard>, hash: string -> nat, readKey: string,
                       key: string, it: Item, now: int)
    requires |ss| > 0 && |ss1| > 0 && |ss2| > 0
    requires Wrote(ss1, ss, hash, readKey, ValueAt(ss, hash, readKey, now), now) && Wrote(ss2, ss1, hash, key, it, now)
    ensures Wrote(ss2, ss, hash, key, it, now)
  {
  }

  method Read(store: MemoryStore, key: string, now: int) returns (value: int)
    requires store.Valid()
    modifies store.shards
    ensures value == ValueAt(old(store.shards[..]), store.hash, key, now).value
    ensures Wrote(store.shards[..], old(store.shards[..]), store.hash, key,
                  ValueAt(old(store.shards[..]), store.hash, key, now), now)
    ensures ValueAt(store.shards[..], store.hash, key, now) == ValueAt(old(store.shards[..]), store.hash, key, now)
  {
    StepEffect(store.shards[..], store.hash, Op.Get(key), now);
    value := store.Get(key, now);
  }

  method TrySwap(store: MemoryStore, key: string, oldVal: int, newVal: int, ttl: int, now: int) returns (swapped: bool)
    requires store.Valid() && newVal >= oldVal
    modifies store.shards
    ensures swapped == (ValueAt(old(store.shards[..]), store.hash, key, now).value == oldVal)
    ensures var it := ValueAt(old(store.shards[..]), store.hash, key, now);
            var it' := if swapped then Item(newVal, Renew(it.expiry, ttl, now)) else it;
            && Wrote(store.shards[..], old(store.shards[..]), store.hash, key, it', now)
            && ValueAt(store.shards[..], store.hash, key, now) == it'
  {
    StepEffect(store.shards[..], store.hash, Op.CompareAndSwap(key, oldVal, newVal, ttl), now);
    swapped := store.CompareAndSwap(key, oldVal, newVal, ttl, now);
  }

  /** Another client's read and swap, with nobody in between. */
  method ChargeOnce(store: MemoryStore, key: string, cost: Cost, limit: int, ttl: int, now: int)
    requires store.Valid()
    modifies store.shards
    ensures var it := ValueAt(old(store.shards[..]), store.hash, key, now);
            var it' := ChargedTo(it, Others(it.value, [cost], limit), ttl, now);
            && Wrote(store.shards[..], old(store.shards[..]), store.hash, key, it', now)
            && ValueAt(store.shards[..], store.hash, key, now) == it'
  {
    ghost var start, hash := store.shards[..], store.hash;
    var cur := Read(store, key, now);
    ghost var read := store.shards[..];
    if cur + cost <= limit {
      var _ := TrySwap(store, key, cur, cur + cost, ttl, now);
      WroteTwice(store.shards[..], read, start, hash, key, ValueAt(start, hash, key, now),
                 ValueAt(store.shards[..], hash, key, now), now);
    }
  }

  method Interfere(store: MemoryStore, key: string, costs: seq<Cost>, limit: int, ttl: int, now: int)
    requires store.Valid()
    modifies store.shards
    ensures var it := ValueAt(old(store.shards[..]), store.hash, key, now);
            var it' := ChargedTo(it, Others(it.value, costs, limit), ttl, now);
            && Wrote(store.shards[..], old(store.shards[..]), store.hash, key, it', now)
            && ValueAt(store.shards[..], store.hash, key, now) == it'
  {
    ghost var before, hash := store.shards[..], store.hash;
    ghost var it := ValueAt(before, hash, key, now);
    ghost var value := it.value;
    for i := 0 to |costs|
      invariant Others(it.value, costs, limit) == Others(value, costs[i..], limit) && value >= it.value
      invariant Wrote(store.shards[..], before, hash, key, ChargedTo(it, value, ttl, now), now)
      invariant ValueAt(store.shards[..], hash, key, now) == ChargedTo(it, value, ttl, now)
    {
      ghost var start := store.shards[..];
      assert costs[i..][1..] == costs[i + 1..];
      ChargeOnce(store, key, costs[i], limit, ttl, now);
      WroteTwice(store.shards[..], start, before, hash, key, ValueAt(start, hash, key, now),
                 ValueAt(store.shards[..], hash, key, now), now);
      value := Others(value, [costs[i]], limit);
    }
  }

  method ChargeLoop(store: MemoryStore, key: string, cost: Cost, limit: int, retries: nat, ttl: int, now: int,
                    gaps: nat -> seq<Cost>)
    returns (end: End, cur: int)
    requires store.Valid()
    modifies store.shards
    ensures var it := ValueAt(old(store.shards[..]), store.hash, key, now);
            var (e, final) := Attempts(it.value, cost, limit, gaps, 0, retries);
            && end == e && (end.Committed? ==> cur + cost == final)
            && Wrote(store.shards[..], old(store.shards[..]), store.hash, key, ChargedTo(it, final, ttl, now), now)
  {
    ghost var before, hash := store.shards[..], store.hash;
    ghost var it := ValueAt(before, hash, key, now);
    ghost var value := it.value;
    cur := 0;
    for attempt := 0 to retries
      invariant Attempts(it.value, cost, limit, gaps, 0, retries) ==
                Attempts(value, cost, limit, gaps, attempt, retries)
      invariant value >= it.value
      invariant Wrote(store.shards[..], before, hash, key, ChargedTo(it, value, ttl, now), now)
      invariant ValueAt(store.shards[..], hash, key, now) == ChargedTo(it, value, ttl, now)
    {
      ghost var start := store.shards[..];
      cur := Read(store, key, now);
      ghost var read := store.shards[..];
      WroteTwice(read, start, before, hash, key, ValueAt(start, hash, key, now), ValueAt(read, hash, key, now), now);
      if cur + cost > limit { return OverLimit, cur; }
      Interfere(store, key, gaps(attempt), limit, ttl, now);
      ghost var disturbed := store.shards[..];
      WroteTwice(disturbed, read, before, hash, key, ValueAt(read, hash, key, now),
                 ValueAt(disturbed, hash, key, now), now);
      var swapped := TrySwap(store, key, cur, cur + cost, ttl, now);
      WroteTwice(store.shards[..], disturbed, before, hash, key, ValueAt(disturbed, hash, key, now),
                 ValueAt(store.shards[..], hash, key, now), now);
      value := Others(value, gaps(attempt), limit);
      if swapped { return Committed, cur; }
    }
    end := GaveUp;
  }

  /** `window` is the policy's window and `key` its limit key. */
  method EvaluateFixedWindow(store: MemoryStore, window: Window, limit: int, key: string, cost: Cost,
                             configuredRetries: int, now: int, gaps: nat -> seq<Cost>)
    returns (v: Verdict)
    requires store.Valid()
    modifies store.shards
    ensures var windowKey := key + ":" + Text.Decimal(Start(window, now));
            var it := ValueAt(old(store.shards[..]), store.hash, windowKey, now);
            var max := EffectiveLimit(limit);
            var (end, final) := Attempts(it.value, cost, max, gaps, 0, MaxRetries(configuredRetries));
            && v == VerdictOf(end, max - final, window, now)
            && Wrote(store.shards[..], old(store.shards[..]), store.hash, windowKey,
                     ChargedTo(it, final, Duration(window), now), now)
            && Means(v, store.shards[..], old(store.shards[..]), store.hash, windowKey, window, cost, max, gaps,
                     MaxRetries(configuredRetries), now)
  {
    var windowKey := key + ":" + Text.Decimal(Start(window, now));
    v := EvaluateCounter(store, windowKey, window, limit, cost, MaxRetries(configuredRetries), now, gaps);
  }

  method EvaluateQuota(store: MemoryStore, period: Window, limit: int, key: string, cost: Cost,
                       configuredRetries: int, now: int, gaps: nat -> seq<Cost>)
    returns (v: Verdict)
    requires store.Valid()
    modifies store.shards
    ensures var window := QuotaWindow(period);
            var bucketKey := key + ":quota:" + Text.Decimal(Start(window, now));
            var it := ValueAt(old(store.shards[..]), store.hash, bucketKey, now);
            var max := EffectiveLimit(limit);
            var (end, final) := Attempts(it.value, cost, max, gaps, 0, MaxRetries(configuredRetries));
            && v == VerdictOf(end, max - final, window, now)
            && Wrote(store.shards[..], old(store.shards[..]), store.hash, bucketKey,
                     ChargedTo(it, final, Duration(window), now), now)
            && Means(v, store.shards[..], old(store.shards[..]), store.hash, bucketKey, window, cost, max, gaps,
                     MaxRetries(configuredRetries), now)
  {
    var window := QuotaWindow(period);
    var bucketKey := key + ":quota:" + Text.Decimal(Start(window, now));
    v := EvaluateCounter(store, bucketKey, window, limit, cost, MaxRetries(configuredRetries), now, gaps);
  }

  method EvaluateCounter(store: MemoryStore, counterKey: string, window: Window, limit: int, cost: Cost, retries: nat,
                         now: int, gaps: nat -> seq<Cost>)
    returns (v: Verdict)
    requires store.Valid() && retries > 0
    modifies store.shards
    ensures var it := ValueAt(old(store.shards[..]), store.hash, counterKey, now);
            var max := EffectiveLimit(limit);
            var (end, final) := Attempts(it.value, cost, max, gaps, 0, retries);
            && v == VerdictOf(end, max - final, window, now)
            && Wrote(store.shards[..], old(store.shards[..]), store.hash, counterKey,
                     ChargedTo(it, final, Duration(window), now), now)
            && Means(v, store.shards[..], old(store.shards[..]), store.hash, counterKey, window, cost, max, gaps,
                     retries, now)
  {
    var max, windowEnd := EffectiveLimit(limit), Windows.End(window, now);
    ghost var it := ValueAt(store.shards[..], store.hash, counterKey, now);
    VerdictAccounted(it.value, cost, max, gaps, retries, window, now);
    ghost var (e, final) := Attempts(it.value, cost, max, gaps, 0, retries);
    VerdictTimes(e, max - final, window, now);
    var end, cur := ChargeLoop(store, counterKey, cost, max, retries, Duration(window), now, gaps);
    v := match end
      case Committed => Within(max - (cur + cost), windowEnd)
      case OverLimit => Exceeded(windowEnd - now)
      case GaveUp => Contention(windowEnd - now);
  }
}
