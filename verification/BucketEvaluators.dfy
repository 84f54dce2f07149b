/** The two bucket evaluators as the loops they are, over the memory store.

    `gaps` stands for the other clients: in each attempt they may write either key, or both, between this
    evaluation's two reads, between its reads and its compare-and-swap, and between that and its write of
    the timestamp. */
module BucketEvaluators {
  import opened Common
  import opened StoreModel
  import opened MemoryStore
  import opened Buckets
  import Windows

  /** What the others write meanwhile to the two keys. */
  datatype Gap = Gap(level: Option<int>, last: Option<int>)
  datatype Gaps = Gaps(reading: Gap, deciding: Gap, writing: Gap)

  const QUIET: Gap := Gap(None, None)

  function Written(it: Item, value: Option<int>, ttl: int, now: int): Item {
    if value.Some? then Item(value.value, Renew(Never, ttl, now)) else it
  }

  function Overwritten(b: Bucket, gap: Gap, ttl: int, now: int): Bucket {
    Bucket(Written(b.level, gap.level, ttl, now), Written(b.ts, gap.last, ttl, now))
  }

  /** The pair of numbers an attempt reads: the level first, the timestamp after the first gap. */
  function ReadAcross(b: Bucket, g: Gaps, ttl: int, now: int): Reads {
    Reads(ValueOf(b.level, now), ValueOf(Overwritten(b, g.reading, ttl, now).ts, now))
  }

  /** The bucket when the swap comes. */
  function AtSwap(b: Bucket, g: Gaps, ttl: int, now: int): Bucket {
    Overwritten(Overwritten(b, g.reading, ttl, now), g.deciding, ttl, now)
  }

  function Charged(b: Bucket, milli: int, gap: Gap, ttl: int, now: int): Bucket {
    var swapped := Bucket(Item(milli, Renew(Never, ttl, now)), b.ts);
    Overwritten(swapped, gap, ttl, now).(ts := Item(now, Renew(Never, ttl, now)))
  }

  /** One pass of the loop: the bucket it leaves, and its outcome, Contention when the swap lost. */
  function Attempt(kind: Kind, c: Config, ttl: int, b: Bucket, q: Request, g: Gaps): (Bucket, Outcome)
    requires Positive(c)
  {
    var seen := ReadAcross(b, g, ttl, q.now);
    var o := Decide(kind, c, seen, q.now, q.cost);
    if !o.Admitted? then (Overwritten(b, g.reading, ttl, q.now), o)
    else
      var found := AtSwap(b, g, ttl, q.now);
      if ValueOf(found.level, q.now) != seen.milli then (found, Contention)
      else (Charged(found, o.milli, g.writing, ttl, q.now), o)
  }

  function Attempts(kind: Kind, c: Config, ttl: int, b: Bucket, q: Request, gaps: nat -> Gaps, attempt: nat,
                    retries: nat)
    : (Bucket, Outcome)
    requires Positive(c)
    decreases retries - attempt
  {
    if attempt >= retries then (b, Contention)
    else
      var (b', o) := Attempt(kind, c, ttl, b, q, gaps(attempt));
      if o.Contention? then Attempts(kind, c, ttl, b', q, gaps, attempt + 1, retries) else (b', o)
  }

  predicate WritesLevel(g: Gaps, milli: int) {
    g.reading.level == Some(milli) || g.deciding.level == Some(milli)
  }

  predicate WritesTime(g: Gaps, last: int) {
    g.reading.last == Some(last) || g.deciding.last == Some(last)
  }

  predicate Loses(g: Gaps) {
    g.reading.level.Some? || g.deciding.level.Some?
  }

  /** Each of the two numbers was in the store: as the evaluation found it, or as somebody wrote it since. */
  predicate InStore(r: Reads, b: Bucket, gaps: nat -> Gaps, attempt: nat, retries: nat, now: int) {
    && (r.milli == ValueOf(b.level, now) || exists i :: attempt <= i < retries && WritesLevel(gaps(i), r.milli))
    && (r.last == ValueOf(b.ts, now) || exists i :: attempt <= i < retries && WritesTime(gaps(i), r.last))
  }

  /** Whatever the others write, the loop decides exactly as one undisturbed evaluation of the pair it
      read, two numbers that were in the store though perhaps not together, or it lost every one of its
      swaps to another write of the level.  When it charges, its own timestamp is the one left. */
  lemma {:induction false} AttemptsDecide(kind: Kind, c: Config, ttl: int, b: Bucket, q: Request, gaps: nat -> Gaps,
                                          attempt: nat, retries: nat)
    returns (seen: Reads)
    requires Positive(c)
    ensures var (b', o) := Attempts(kind, c, ttl, b, q, gaps, attempt, retries);
            if o.Contention? then forall i :: attempt <= i < retries ==> Loses(gaps(i))
            else
              && InStore(seen, b, gaps, attempt, retries, q.now)
              && o == Decide(kind, c, seen, q.now, q.cost)
              && (o.Admitted? ==> b'.ts == Item(q.now, Renew(Never, ttl, q.now)))
    decreases retries - attempt
  {
    seen := ReadAcross(b, gaps(attempt), ttl, q.now);
    if attempt < retries {
      AttemptDecides(kind, c, ttl, b, q, gaps(attempt));
      var (b', o) := Attempt(kind, c, ttl, b, q, gaps(attempt));
      if o.Contention? {
        seen := AttemptsDecide(kind, c, ttl, b', q, gaps, attempt + 1, retries);
        if !Attempts(kind, c, ttl, b', q, gaps, attempt + 1, retries).1.Contention? {
          FoundInStore(b, gaps, attempt, retries, ttl, q.now, seen);
        }
      }
    }
  }

  lemma AttemptDecides(kind: Kind, c: Config, ttl: int, b: Bucket, q: Request, g: Gaps)
    requires Positive(c)
    ensures var (b', o) := Attempt(kind, c, ttl, b, q, g);
            var seen := ReadAcross(b, g, ttl, q.now);
            && seen.milli == ValueOf(b.level, q.now) && (seen.last == ValueOf(b.ts, q.now) || WritesTime(g, seen.last))
            && if o.Contention? then b' == AtSwap(b, g, ttl, q.now) && Loses(g)
               else
                 && o == Decide(kind, c, seen, q.now, q.cost)
                 && (o.Admitted? ==> b'.ts == Item(q.now, Renew(Never, ttl, q.now)))
  {
  }

  lemma FoundInStore(b: Bucket, gaps: nat -> Gaps, attempt: nat, retries: nat, ttl: int, now: int, seen: Reads)
    requires attempt < retries && InStore(seen, AtSwap(b, gaps(attempt), ttl, now), gaps, attempt + 1, retries, now)
    ensures InStore(seen, b, gaps, attempt, retries, now)
  {
    var g := gaps(attempt);
    var found := AtSwap(b, g, ttl, now);
    assert found.level == b.level || WritesLevel(g, found.level.value);
    assert found.ts == b.ts || WritesTime(g, found.ts.value);
  }

  /** Left alone, an attempt is one evaluation. */
  lemma QuietAttempt(kind: Kind, c: Config, ttl: int, b: Bucket, q: Request)
    requires Positive(c)
    ensures Attempt(kind, c, ttl, b, q, Gaps(QUIET, QUIET, QUIET)) == Evaluate(kind, c, ttl, b, q)
  {
  }

  // ---------------------------------------------------------------- the bucket in the store

  function BucketIn(ss: seq<Shard>, hash: string -> nat, levelKey: string, tsKey: string, now: int): Bucket
    requires |ss| > 0
  {
    Bucket(ValueAt(ss, hash, levelKey, now), ValueAt(ss, hash, tsKey, now))
  }

  /** The store shows `b` under the two keys, and everything else as `ss` did. */
  ghost predicate Shows(ss': seq<Shard>, ss: seq<Shard>, hash: string -> nat, levelKey: string, tsKey: string,
                        b: Bucket, now: int)
    requires |ss| > 0 && |ss'| > 0
  {
    forall k, t :: t >= now ==>
      ValueAt(ss', hash, k, t) ==
        if k == levelKey then Visible(b.level, t)
        else if k == tsKey then Visible(b.ts, t)
        else ValueAt(ss, hash, k, t)
  }

  ghost predicate Holds(ss': seq<Shard>, ss: seq<Shard>, hash: string -> nat, levelKey: string, tsKey: string,
                        b: Bucket, now: int)
    requires |ss| > 0 && |ss'| > 0
  {
    Shows(ss', ss, hash, levelKey, tsKey, b, now) && BucketIn(ss', hash, levelKey, tsKey, now) == b
  }

  lemma HoldsTwice(ss2: seq<Shard>, ss1: seq<Shard>, ss: seq<Shard>, hash: string -> nat, levelKey: string,
                   tsKey: string, b1: Bucket, b2: Bucket, now: int)
    requires |ss| > 0 && |ss1| > 0 && |ss2| > 0
    requires Holds(ss1, ss, hash, levelKey, tsKey, b1, now) && Holds(ss2, ss1, hash, levelKey, tsKey, b2, now)
    ensures Holds(ss2, ss, hash, levelKey, tsKey, b2, now)
  {
  }

  /** Reads one of the two keys. */
  method ReadKey(store: MemoryStore, levelKey: string, tsKey: string, key: string, now: int) returns (value: int)
    requires store.Valid() && (key == levelKey || key == tsKey)
    modifies store.shards
    ensures var b := BucketIn(old(store.shards[..]), store.hash, levelKey, tsKey, now);
            && value == ValueOf(if key == levelKey then b.level else b.ts, now)
            && Holds(store.shards[..], old(store.shards[..]), store.hash, levelKey, tsKey, b, now)
  {
    StepEffect(store.shards[..], store.hash, Op.Get(key), now);
    value := store.Get(key, now);
  }

  method SetKey(store: MemoryStore, levelKey: string, tsKey: string, key: string, value: int, ttl: int, now: int)
    requires store.Valid() && levelKey != tsKey && (key == levelKey || key == tsKey) && ttl > 0
    modifies store.shards
    ensures var b := BucketIn(old(store.shards[..]), store.hash, levelKey, tsKey, now);
            var it := Item(value, Renew(Never, ttl, now));
            Holds(store.shards[..], old(store.shards[..]), store.hash, levelKey, tsKey,
                  if key == levelKey then b.(level := it) else b.(ts := it), now)
  {
    StepEffect(store.shards[..], store.hash, Op.Set(key, value, ttl), now);
    store.Set(key, value, ttl, now);
  }

  method Interfere(store: MemoryStore, levelKey: string, tsKey: string, gap: Gap, ttl: int, now: int)
    requires store.Valid() && levelKey != tsKey && ttl > 0
    modifies store.shards
    ensures var b := BucketIn(old(store.shards[..]), store.hash, levelKey, tsKey, now);
            Holds(store.shards[..], old(store.shards[..]), store.hash, levelKey, tsKey,
                  Overwritten(b, gap, ttl, now), now)
  {
    ghost var start, hash := store.shards[..], store.hash;
    if gap.level.Some? { SetKey(store, levelKey, tsKey, levelKey, gap.level.value, ttl, now); }
    ghost var between := store.shards[..];
    if gap.last.Some? {
      SetKey(store, levelKey, tsKey, tsKey, gap.last.value, ttl, now);
      HoldsTwice(store.shards[..], between, start, hash, levelKey, tsKey, BucketIn(between, hash, levelKey, tsKey, now),
                 BucketIn(store.shards[..], hash, levelKey, tsKey, now), now);
    }
  }

  method ReadBoth(store: MemoryStore, levelKey: string, tsKey: string, g: Gaps, ttl: int, now: int)
    returns (milli: int, last: int)
    requires store.Valid() && levelKey != tsKey && ttl > 0
    modifies store.shards
    ensures var b := BucketIn(old(store.shards[..]), store.hash, levelKey, tsKey, now);
            && Reads(milli, last) == ReadAcross(b, g, ttl, now)
            && Holds(store.shards[..], old(store.shards[..]), store.hash, levelKey, tsKey,
                     Overwritten(b, g.reading, ttl, now), now)
  {
    ghost var start, hash := store.shards[..], store.hash;
    milli := ReadKey(store, levelKey, tsKey, levelKey, now);
    ghost var read := store.shards[..];
    Interfere(store, levelKey, tsKey, g.reading, ttl, now);
    ghost var disturbed := store.shards[..];
    HoldsTwice(disturbed, read, start, hash, levelKey, tsKey, BucketIn(read, hash, levelKey, tsKey, now),
               BucketIn(disturbed, hash, levelKey, tsKey, now), now);
    last := ReadKey(store, levelKey, tsKey, tsKey, now);
    HoldsTwice(store.shards[..], disturbed, start, hash, levelKey, tsKey,
               BucketIn(disturbed, hash, levelKey, tsKey, now),
               BucketIn(store.shards[..], hash, levelKey, tsKey, now), now);
  }

  method SwapLevel(store: MemoryStore, levelKey: string, tsKey: string, oldMilli: int, newMilli: int, ttl: int,
                   now: int)
    returns (swapped: bool)
    requires store.Valid() && levelKey != tsKey && ttl > 0
    modifies store.shards
    ensures var b := BucketIn(old(store.shards[..]), store.hash, levelKey, tsKey, now);
            && swapped == (ValueOf(b.level, now) == oldMilli)
            && Holds(store.shards[..], old(store.shards[..]), store.hash, levelKey, tsKey,
                     if swapped then b.(level := Item(newMilli, Renew(Never, ttl, now))) else b, now)
  {
    StepEffect(store.shards[..], store.hash, Op.CompareAndSwap(levelKey, oldMilli, newMilli, ttl), now);
    swapped := store.CompareAndSwap(levelKey, oldMilli, newMilli, ttl, now);
  }

  /** The write of the timestamp after a swap that won, with the others' last gap before it. */
  method Stamp(store: MemoryStore, levelKey: string, tsKey: string, gap: Gap, ttl: int, now: int)
    requires store.Valid() && levelKey != tsKey && ttl > 0
    modifies store.shards
    ensures var b := BucketIn(old(store.shards[..]), store.hash, levelKey, tsKey, now);
            Holds(store.shards[..], old(store.shards[..]), store.hash, levelKey, tsKey,
                  Overwritten(b, gap, ttl, now).(ts := Item(now, Renew(Never, ttl, now))), now)
  {
    ghost var start, hash := store.shards[..], store.hash;
    Interfere(store, levelKey, tsKey, gap, ttl, now);
    ghost var disturbed := store.shards[..];
    SetKey(store, levelKey, tsKey, tsKey, now, ttl, now);
    HoldsTwice(store.shards[..], disturbed, start, hash, levelKey, tsKey,
               BucketIn(disturbed, hash, levelKey, tsKey, now),
               BucketIn(store.shards[..], hash, levelKey, tsKey, now), now);
  }

  /** The swap that commits the charge, then the timestamp, from the end of the reads on. */
  method Commit(store: MemoryStore, levelKey: string, tsKey: string, oldMilli: int, newMilli: int, g: Gaps, ttl: int,
                now: int)
    returns (swapped: bool)
    requires store.Valid() && levelKey != tsKey && ttl > 0
    modifies store.shards
    ensures var b := Overwritten(BucketIn(old(store.shards[..]), store.hash, levelKey, tsKey, now),
                                 g.deciding, ttl, now);
            && swapped == (ValueOf(b.level, now) == oldMilli)
            && Holds(store.shards[..], old(store.shards[..]), store.hash, levelKey, tsKey,
                     if swapped then Charged(b, newMilli, g.writing, ttl, now) else b, now)
  {
    ghost var start, hash := store.shards[..], store.hash;
    Interfere(store, levelKey, tsKey, g.deciding, ttl, now);
    ghost var disturbed := store.shards[..];
    swapped := SwapLevel(store, levelKey, tsKey, oldMilli, newMilli, ttl, now);
    ghost var tried := store.shards[..];
    HoldsTwice(tried, disturbed, start, hash, levelKey, tsKey, BucketIn(disturbed, hash, levelKey, tsKey, now),
               BucketIn(tried, hash, levelKey, tsKey, now), now);
    if swapped {
      Stamp(store, levelKey, tsKey, g.writing, ttl, now);
      HoldsTwice(store.shards[..], tried, start, hash, levelKey, tsKey, BucketIn(tried, hash, levelKey, tsKey, now),
                 BucketIn(store.shards[..], hash, levelKey, tsKey, now), now);
    }
  }

  /** Refills for the elapsed time, a clock that went back counted as none elapsed. */
  method Refill(c: Config, milli: int, last: int, now: int) returns (tokens: real)
    ensures tokens == Tokens(c, Reads(milli, last), now)
  {
    tokens := milli as real / 1000.0;
    var lastNanos := last;
    if lastNanos == 0 {
      tokens := c.capacity as real;
      lastNanos := now;
    }
    var elapsed := (now - lastNanos) as real / SECOND as real;
    if elapsed < 0.0 { elapsed := 0.0; }
    tokens := Min(c.capacity as real, tokens + elapsed * c.rate);
  }

  method Leak(c: Config, milli: int, last: int, now: int) returns (level: real)
    ensures level == Level(c, Reads(milli, last), now)
  {
    level := milli as real / 1000.0;
    var lastNanos := last;
    if lastNanos == 0 { lastNanos := now; }
    var elapsed := (now - lastNanos) as real / SECOND as real;
    if elapsed < 0.0 { elapsed := 0.0; }
    level := Max(0.0, level - elapsed * c.rate);
  }

  method TryToken(store: MemoryStore, c: Config, tokensKey: string, tsKey: string, cost: int, ttl: int, now: int,
                  g: Gaps)
    returns (o: Outcome)
    requires store.Valid() && Positive(c) && tokensKey != tsKey && ttl > 0
    modifies store.shards
    ensures var b := BucketIn(old(store.shards[..]), store.hash, tokensKey, tsKey, now);
            var (b', outcome) := Attempt(Token, c, ttl, b, Request(now, cost), g);
            o == outcome && Holds(store.shards[..], old(store.shards[..]), store.hash, tokensKey, tsKey, b', now)
  {
    ghost var start, hash := store.shards[..], store.hash;
    var oldTokenMilli, lastNanos := ReadBoth(store, tokensKey, tsKey, g, ttl, now);
    ghost var read := store.shards[..];
    var curTokens := Refill(c, oldTokenMilli, lastNanos, now);
    if curTokens < cost as real {
      var missing := cost as real - curTokens;
      return Denied(Trunc(missing / c.rate * SECOND as real), Trunc(curTokens));
    }
    var newTokens := curTokens - cost as real;
    var newTokenMilli := Round(newTokens * 1000.0);
    var swapped := Commit(store, tokensKey, tsKey, oldTokenMilli, newTokenMilli, g, ttl, now);
    HoldsTwice(store.shards[..], read, start, hash, tokensKey, tsKey, BucketIn(read, hash, tokensKey, tsKey, now),
               BucketIn(store.shards[..], hash, tokensKey, tsKey, now), now);
    o := if swapped then Admitted(newTokenMilli, Trunc(newTokens)) else Contention;
  }

  method TryLeaky(store: MemoryStore, c: Config, levelKey: string, tsKey: string, cost: int, ttl: int, now: int,
                  g: Gaps)
    returns (o: Outcome)
    requires store.Valid() && Positive(c) && levelKey != tsKey && ttl > 0
    modifies store.shards
    ensures var b := BucketIn(old(store.shards[..]), store.hash, levelKey, tsKey, now);
            var (b', outcome) := Attempt(Leaky, c, ttl, b, Request(now, cost), g);
            o == outcome && Holds(store.shards[..], old(store.shards[..]), store.hash, levelKey, tsKey, b', now)
  {
    ghost var start, hash := store.shards[..], store.hash;
    var oldLevelMilli, lastNanos := ReadBoth(store, levelKey, tsKey, g, ttl, now);
    ghost var read := store.shards[..];
    var curLevel := Leak(c, oldLevelMilli, lastNanos, now);
    curLevel := curLevel + cost as real;
    if curLevel > c.capacity as real {
      var overflow := curLevel - c.capacity as real;
      return Denied(Trunc(overflow / c.rate * SECOND as real), 0);
    }
    var newLevelMilli := Round(curLevel * 1000.0);
    var swapped := Commit(store, levelKey, tsKey, oldLevelMilli, newLevelMilli, g, ttl, now);
    HoldsTwice(store.shards[..], read, start, hash, levelKey, tsKey, BucketIn(read, hash, levelKey, tsKey, now),
               BucketIn(store.shards[..], hash, levelKey, tsKey, now), now);
    o := if swapped then Admitted(newLevelMilli, Trunc(c.capacity as real - curLevel)) else Contention;
  }

  method EvaluateToken(store: MemoryStore, c: Config, key: string, cost: int, configuredRetries: int, now: int,
                       gaps: nat -> Gaps)
    returns (o: Outcome)
    requires store.Valid() && Positive(c)
    modifies store.shards
    ensures var tokensKey, tsKey := key + ":tb:tokens", key + ":tb:ts";
            var b := BucketIn(old(store.shards[..]), store.hash, tokensKey, tsKey, now);
            var (b', outcome) :=
              Attempts(Token, c, TWO_HOURS, b, Request(now, cost), gaps, 0, Windows.MaxRetries(configuredRetries));
            o == outcome && Holds(store.shards[..], old(store.shards[..]), store.hash, tokensKey, tsKey, b', now)
  {
    var tokensKey, tsKey, ttl := key + ":tb:tokens", key + ":tb:ts", TWO_HOURS;
    assert |tokensKey| != |tsKey|;
    var retries := Windows.MaxRetries(configuredRetries);
    ghost var before, hash, q := store.shards[..], store.hash, Request(now, cost);
    ghost var b := BucketIn(before, hash, tokensKey, tsKey, now);
    for attempt := 0 to retries
      invariant Holds(store.shards[..], before, hash, tokensKey, tsKey, b, now)
      invariant Attempts(Token, c, ttl, BucketIn(before, hash, tokensKey, tsKey, now), q, gaps, 0, retries)
             == Attempts(Token, c, ttl, b, q, gaps, attempt, retries)
    {
      ghost var start := store.shards[..];
      o := TryToken(store, c, tokensKey, tsKey, cost, ttl, now, gaps(attempt));
      ghost var b' := BucketIn(store.shards[..], hash, tokensKey, tsKey, now);
      HoldsTwice(store.shards[..], start, before, hash, tokensKey, tsKey, b, b', now);
      b := b';
      if !o.Contention? { return; }
    }
    o := Contention;
  }

  method EvaluateLeaky(store: MemoryStore, c: Config, window: int, key: string, cost: int, configuredRetries: int,
                       now: int, gaps: nat -> Gaps)
    returns (o: Outcome)
    requires store.Valid() && Positive(c)
    modifies store.shards
    ensures var levelKey, tsKey := key + ":lb:level", key + ":lb:ts";
            var b := BucketIn(old(store.shards[..]), store.hash, levelKey, tsKey, now);
            var (b', outcome) :=
              Attempts(Leaky, c, LeakyTtl(window), b, Request(now, cost), gaps, 0,
                       Windows.MaxRetries(configuredRetries));
            o == outcome && Holds(store.shards[..], old(store.shards[..]), store.hash, levelKey, tsKey, b', now)
  {
    var levelKey, tsKey := key + ":lb:level", key + ":lb:ts";
    assert |levelKey| != |tsKey|;
    var ttl := 2 * window;
    if ttl < TWO_HOURS { ttl := TWO_HOURS; }
    var retries := Windows.MaxRetries(configuredRetries);
    ghost var before, hash, q := store.shards[..], store.hash, Request(now, cost);
    ghost var b := BucketIn(before, hash, levelKey, tsKey, now);
    for attempt := 0 to retries
      invariant Holds(store.shards[..], before, hash, levelKey, tsKey, b, now)
      invariant Attempts(Leaky, c, ttl, BucketIn(before, hash, levelKey, tsKey, now), q, gaps, 0, retries)
             == Attempts(Leaky, c, ttl, b, q, gaps, attempt, retries)
    {
      ghost var start := store.shards[..];
      o := TryLeaky(store, c, levelKey, tsKey, cost, ttl, now, gaps(attempt));
      ghost var b' := BucketIn(store.shards[..], hash, levelKey, tsKey, now);
      HoldsTwice(store.shards[..], start, before, hash, levelKey, tsKey, b, b', now);
      b := b';
      if !o.Contention? { return; }
    }
    o := Contention;
  }
}
