/** The counter store as values: items with lazy expiry, shards, and the flat reference store.

    Times are integer nanoseconds.  A Go zero time in an expiry field means "no expiry" and is
    `Never` here.  Counters are unbounded integers. */
module StoreModel {

  datatype Expiry = Never | At(ns: int)
  datatype Item = Item(value: int, expiry: Expiry)
  type Table = map<string, Item>

  const ZERO: Item := Item(0, Never)

  predicate Expired(it: Item, now: int) {
    it.expiry.At? && now > it.expiry.ns
  }

  /** What a reader at `now` sees: a missing or expired entry reads as the zero item. */
  function Live(m: Table, k: string, now: int): Item {
    if k in m && !Expired(m[k], now) then m[k] else ZERO
  }

  /** A positive ttl replaces the expiry; otherwise the old one stays. */
  function Renew(previous: Expiry, ttl: int, now: int): Expiry {
    if ttl > 0 then At(now + ttl) else previous
  }

  function NextLease(it: Item, ttl: int, now: int): Item {
    Item(it.value + 1, Renew(it.expiry, ttl, now))
  }

  function Freed(it: Item): Item {
    if it.value > 0 then Item(it.value - 1, it.expiry) else it
  }

  datatype Op =
    | Get(key: string)
    | Set(key: string, value: int, ttl: int)
    | Increment(key: string, value: int, ttl: int)
    | CompareAndSwap(key: string, oldVal: int, newVal: int, ttl: int)
    | AcquireLease(key: string, limit: int, ttl: int)
    | ReleaseLease(key: string)
    | Delete(key: string)

  datatype Reply =
    | Value(value: int)
    | Done
    | Swapped(ok: bool)
    | Lease(ok: bool, current: int)
    | LimitError

  // ---------------------------------------------------------------- flat reference

  /** One map of values and one of leases.  Nothing is ever removed except by Delete. */
  datatype Flat = Flat(values: Table, leases: Table)

  function FlatStep(f: Flat, op: Op, now: int): (Flat, Reply) {
    var v := Live(f.values, op.key, now);
    var l := Live(f.leases, op.key, now);
    match op
    case Get(_) => (f, Value(v.value))
    case Set(k, x, ttl) => (f.(values := f.values[k := Item(x, Renew(Never, ttl, now))]), Done)
    case Increment(k, x, ttl) =>
      (f.(values := f.values[k := Item(v.value + x, Renew(v.expiry, ttl, now))]), Value(v.value + x))
    case CompareAndSwap(k, x, y, ttl) =>
      if v.value != x then (f, Swapped(false))
      else (f.(values := f.values[k := Item(y, Renew(v.expiry, ttl, now))]), Swapped(true))
    case AcquireLease(k, limit, ttl) =>
      if limit <= 0 then (f, LimitError)
      else if l.value >= limit then (f, Lease(false, l.value))
      else (f.(leases := f.leases[k := NextLease(l, ttl, now)]), Lease(true, l.value + 1))
    case ReleaseLease(k) => (f.(leases := f.leases[k := Freed(l)]), Done)
    case Delete(k) => (Flat(f.values - {k}, f.leases - {k}), Done)
  }

  function GetReply(f: Flat, key: string, t: int): Reply {
    FlatStep(f, Get(key), t).1
  }

  /** The value of `key` runs out by `t`, having been there at `now`. */
  predicate RunsOut(f: Flat, key: string, now: int, t: int) {
    key in f.values && !Expired(f.values[key], now) && Expired(f.values[key], t)
  }

  /** What a write at `now` is read as at `t`: nothing once the ttl is over.  Without a ttl it lasts as long as the
      value it replaces would have. */
  function ReadAs(f: Flat, key: string, written: int, ttl: int, now: int, t: int): Reply {
    Value(if (if ttl > 0 then t > now + ttl else RunsOut(f, key, now, t)) then 0 else written)
  }

  /** The reference is a counter store: what each call replies, and what is read afterwards, told by replies. */
  lemma ReadBack(f: Flat, op: Op, now: int, t: int)
    requires now <= t
    ensures var (f', r) := FlatStep(f, op, now);
            var was, after := GetReply(f, op.key, now).value, GetReply(f', op.key, t);
            match op
            case Get(_) => r == Value(was) && f' == f
            case Set(_, x, ttl) => r == Done && after == Value(if ttl > 0 && t > now + ttl then 0 else x)
            case Increment(k, x, ttl) => r == Value(was + x) && after == ReadAs(f, k, was + x, ttl, now, t)
            case CompareAndSwap(k, x, y, ttl) =>
              && r == Swapped(was == x)
              && after == if was == x then ReadAs(f, k, y, ttl, now, t) else GetReply(f, k, t)
            case Delete(_) => r == Done && after == Value(0)
            case _ => after == GetReply(f, op.key, t)
  {
  }

  /** Leases likewise: granted below the limit and counted, refused at it, given back one at a time; a grant keeps
      the count for its ttl. */
  lemma LeaseBack(f: Flat, op: Op, now: int, t: int)
    requires now <= t && (op.AcquireLease? || op.ReleaseLease?)
    ensures var (f', r) := FlatStep(f, op, now);
            var was, after := Live(f.leases, op.key, now).value, Live(f'.leases, op.key, t).value;
            match op
            case AcquireLease(k, limit, ttl) =>
              if limit <= 0 then r == LimitError && f' == f
              else if was >= limit then r == Lease(false, was) && f' == f
              else r == Lease(true, was + 1) && (ttl > 0 ==> after == if t <= now + ttl then was + 1 else 0)
            case ReleaseLease(k) =>
              r == Done && (t == now ==> after == if was > 0 then was - 1 else was)
            case _ => true
  {
  }

  // ---------------------------------------------------------------- shards

  datatype Shard = Shard(
    values: Table,
    timestamps: map<string, seq<int>>,
    tsExpiry: map<string, int>,
    leases: Table)

  const EMPTY_SHARD: Shard := Shard(map[], map[], map[], map[])

  /** The side effect of a locked read: an expired entry is removed. */
  function Evict(m: Table, k: string, now: int): Table {
    if k in m && Expired(m[k], now) then m - {k} else m
  }

  function ShardStep(s: Shard, op: Op, now: int): (Shard, Reply) {
    var v, l := Live(s.values, op.key, now), Live(s.leases, op.key, now);
    var values, leases := Evict(s.values, op.key, now), Evict(s.leases, op.key, now);
    match op
    case Get(_) => (s.(values := values), Value(v.value))
    case Set(k, x, ttl) => (s.(values := s.values[k := Item(x, Renew(Never, ttl, now))]), Done)
    case Increment(k, x, ttl) =>
      (s.(values := values[k := Item(v.value + x, Renew(v.expiry, ttl, now))]), Value(v.value + x))
    case CompareAndSwap(k, x, y, ttl) =>
      if v.value != x then (s.(values := values), Swapped(false))
      else (s.(values := values[k := Item(y, Renew(v.expiry, ttl, now))]), Swapped(true))
    case AcquireLease(k, limit, ttl) =>
      if limit <= 0 then (s, LimitError)
      else if l.value >= limit then (s.(leases := leases), Lease(false, l.value))
      else (s.(leases := leases[k := NextLease(l, ttl, now)]), Lease(true, l.value + 1))
    case ReleaseLease(k) => (s.(leases := leases[k := Freed(l)]), Done)
    case Delete(k) =>
      (Shard(s.values - {k}, s.timestamps - {k}, s.tsExpiry - {k}, s.leases - {k}), Done)
  }

  function Unexpired(m: Table, now: int): Table {
    map k | k in m && !Expired(m[k], now) :: m[k]
  }

  /** The sweep of one shard, with the time the sweep read when it began. */
  function SweepShard(s: Shard, now: int): Shard {
    var dead := set k | k in s.tsExpiry && now > s.tsExpiry[k];
    Shard(Unexpired(s.values, now), s.timestamps - dead, s.tsExpiry - dead, Unexpired(s.leases, now))
  }

  function ShardFor(n: nat, hash: string -> nat, k: string): (i: nat)
    requires n > 0
    ensures i < n
  {
    if n == 1 then 0 else hash(k) % n
  }

  /** Keys share a shard exactly when their hashes do, modulo the number of shards. */
  lemma ShardsByHash(n: nat, hash: string -> nat, j: string, k: string)
    requires n > 0
    ensures ShardFor(n, hash, j) == ShardFor(n, hash, k) <==> hash(j) % n == hash(k) % n
  {
  }

  function Step(ss: seq<Shard>, hash: string -> nat, op: Op, now: int): (seq<Shard>, Reply)
    requires |ss| > 0
  {
    var i := ShardFor(|ss|, hash, op.key);
    var (s, r) := ShardStep(ss[i], op, now);
    (ss[i := s], r)
  }

  function ValueAt(ss: seq<Shard>, hash: string -> nat, k: string, t: int): Item
    requires |ss| > 0
  {
    Live(ss[ShardFor(|ss|, hash, k)].values, k, t)
  }

  function LeaseAt(ss: seq<Shard>, hash: string -> nat, k: string, t: int): Item
    requires |ss| > 0
  {
    Live(ss[ShardFor(|ss|, hash, k)].leases, k, t)
  }

  /** An entry as a reader at `t` sees it. */
  function Visible(it: Item, t: int): Item {
    if Expired(it, t) then ZERO else it
  }

  /** What one call leaves visible from `now` on: its own key as written, every other key as it was. */
  lemma StepEffect(ss: seq<Shard>, hash: string -> nat, op: Op, now: int)
    requires |ss| > 0
    requires op.Get? || op.Set? || op.CompareAndSwap?
    ensures var ss' := Step(ss, hash, op, now).0;
            var written :=
              if op.Set? then Item(op.value, Renew(Never, op.ttl, now))
              else
                var it := ValueAt(ss, hash, op.key, now);
                if op.CompareAndSwap? && it.value == op.oldVal
                then Item(op.newVal, Renew(it.expiry, op.ttl, now)) else it;
            forall k, t :: t >= now ==>
              ValueAt(ss', hash, k, t) == if k == op.key then Visible(written, t) else ValueAt(ss, hash, k, t)
  {
  }

  /** The same for the lease calls. */
  lemma LeaseEffect(ss: seq<Shard>, hash: string -> nat, op: Op, now: int)
    requires |ss| > 0
    requires op.AcquireLease? || op.ReleaseLease?
    ensures var ss' := Step(ss, hash, op, now).0;
            var it := LeaseAt(ss, hash, op.key, now);
            var written :=
              if op.ReleaseLease? then Item(if it.value > 0 then it.value - 1 else it.value, it.expiry)
              else if op.limit > 0 && it.value < op.limit then Item(it.value + 1, Renew(it.expiry, op.ttl, now))
              else it;
            forall k, t :: t >= now ==>
              && LeaseAt(ss', hash, k, t) == (if k == op.key then Visible(written, t) else LeaseAt(ss, hash, k, t))
              && ValueAt(ss', hash, k, t) == ValueAt(ss, hash, k, t)
  {
  }

  /** A sweep leaves nothing that had expired when it read its clock, and a call nothing expired under its key in
      the table it works on. */
  lemma NothingExpiredStays(s: Shard, op: Op, now: int, k: string)
    ensures var s' := SweepShard(s, now);
            && (k in s'.values ==> !Expired(s'.values[k], now)) && (k in s'.leases ==> !Expired(s'.leases[k], now))
            && (k in s'.timestamps ==> !(k in s.tsExpiry && now > s.tsExpiry[k]))
            && (k in s'.tsExpiry ==> now <= s'.tsExpiry[k])
    ensures var s' := ShardStep(s, op, now).0;
            && (!op.AcquireLease? && !op.ReleaseLease? && op.key in s'.values ==> !Expired(s'.values[op.key], now))
            && (op.AcquireLease? && op.limit > 0 && op.key in s'.leases ==> !Expired(s'.leases[op.key], now))
            && (op.ReleaseLease? && op.key in s'.leases ==> !Expired(s'.leases[op.key], now))
            && (op.Delete? ==> op.key !in s'.values && op.key !in s'.leases && op.key !in s'.timestamps)
  {
  }

  // ---------------------------------------------------------------- timestamp logs

  function Trimmed(ts: seq<int>, cutoff: int): seq<int> {
    if ts == [] then []
    else if ts[|ts| - 1] >= cutoff then Trimmed(ts[..|ts| - 1], cutoff) + [ts[|ts| - 1]]
    else Trimmed(ts[..|ts| - 1], cutoff)
  }

  predicate Ascending(ts: seq<int>) {
    forall i, j :: 0 <= i < j < |ts| ==> ts[i] <= ts[j]
  }

  function Insert(ts: seq<int>, x: int): seq<int> {
    if ts == [] || ts[|ts| - 1] <= x then ts + [x]
    else Insert(ts[..|ts| - 1], x) + [ts[|ts| - 1]]
  }

  /** The library sort of a slice of times. */
  function Sorted(ts: seq<int>): seq<int> {
    if ts == [] then [] else Insert(Sorted(ts[..|ts| - 1]), ts[|ts| - 1])
  }

  lemma AscendingSnoc(ts: seq<int>, x: int)
    requires Ascending(ts) && (ts == [] || ts[|ts| - 1] <= x)
    ensures Ascending(ts + [x])
  {
  }

  lemma {:induction false} InsertSorts(ts: seq<int>, x: int)
    requires Ascending(ts)
    ensures var r := Insert(ts, x);
            && Ascending(r) && multiset(r) == multiset(ts) + multiset{x}
            && |r| == |ts| + 1 && r[|ts|] == if ts == [] || ts[|ts| - 1] <= x then x else ts[|ts| - 1]
  {
    if ts == [] || ts[|ts| - 1] <= x {
      AscendingSnoc(ts, x);
    } else {
      var init, last := ts[..|ts| - 1], ts[|ts| - 1];
      assert ts == init + [last];
      InsertSorts(init, x);
      AscendingSnoc(Insert(init, x), last);
    }
  }

  /** Ascending, and the same times. */
  lemma {:induction false} SortedSorts(ts: seq<int>)
    ensures Ascending(Sorted(ts)) && multiset(Sorted(ts)) == multiset(ts)
  {
    if ts != [] {
      assert ts == ts[..|ts| - 1] + [ts[|ts| - 1]];
      SortedSorts(ts[..|ts| - 1]);
      InsertSorts(Sorted(ts[..|ts| - 1]), ts[|ts| - 1]);
    }
  }

  lemma {:induction false} SortedKeeps(ts: seq<int>)
    requires Ascending(ts)
    ensures Sorted(ts) == ts
  {
    if ts != [] { SortedKeeps(ts[..|ts| - 1]); }
  }

  function Log(s: Shard, key: string): seq<int> {
    if key in s.timestamps then s.timestamps[key] else []
  }

  function Copies(ts: int, cost: int): seq<int> {
    if cost > 0 then seq(cost, _ => ts) else []
  }

  /** Trim, count, check the limit and record, all under the shard lock. */
  function CheckAndAdd(s: Shard, key: string, cutoff: int, limit: int, cost: int, ts: int, ttl: int, now: int)
    : (r: (Shard, int, bool))
  {
    var kept := Trimmed(Log(s, key), cutoff);
    if |kept| + cost > limit then (s.(timestamps := s.timestamps[key := kept]), |kept|, false)
    else
      (s.(timestamps := s.timestamps[key := Sorted(kept + Copies(ts, cost))],
          tsExpiry := if ttl > 0 then s.tsExpiry[key := now + ttl] else s.tsExpiry),
       |kept|, true)
  }

  // ---------------------------------------------------------------- refinement

  /** The sharded store and the flat store look the same to every reader from `clock` on. */
  ghost predicate Agree(ss: seq<Shard>, hash: string -> nat, f: Flat, clock: int)
    requires |ss| > 0
  {
    && (forall k, t :: t >= clock ==> ValueAt(ss, hash, k, t) == Live(f.values, k, t))
    && (forall k, t :: t >= clock ==> LeaseAt(ss, hash, k, t) == Live(f.leases, k, t))
  }

  /** On its own key, one locked operation does to a shard what the reference does to the flat map. */
  lemma StepOwnKey(s: Shard, f: Flat, op: Op, now: int)
    requires forall t :: t >= now ==> Live(s.values, op.key, t) == Live(f.values, op.key, t)
    requires forall t :: t >= now ==> Live(s.leases, op.key, t) == Live(f.leases, op.key, t)
    ensures ShardStep(s, op, now).1 == FlatStep(f, op, now).1
    ensures forall t :: t >= now ==>
      Live(ShardStep(s, op, now).0.values, op.key, t) == Live(FlatStep(f, op, now).0.values, op.key, t)
    ensures forall t :: t >= now ==>
      Live(ShardStep(s, op, now).0.leases, op.key, t) == Live(FlatStep(f, op, now).0.leases, op.key, t)
  {
    assert Live(s.values, op.key, now) == Live(f.values, op.key, now);
    assert Live(s.leases, op.key, now) == Live(f.leases, op.key, now);
    StepOwnValue(s, f, op, now);
    StepOwnLease(s, f, op, now);
  }

  lemma StepOwnValue(s: Shard, f: Flat, op: Op, now: int)
    requires forall t :: t >= now ==> Live(s.values, op.key, t) == Live(f.values, op.key, t)
    ensures forall t :: t >= now ==>
      Live(ShardStep(s, op, now).0.values, op.key, t) == Live(FlatStep(f, op, now).0.values, op.key, t)
  {
    assert Live(s.values, op.key, now) == Live(f.values, op.key, now);
  }

  lemma StepOwnLease(s: Shard, f: Flat, op: Op, now: int)
    requires forall t :: t >= now ==> Live(s.leases, op.key, t) == Live(f.leases, op.key, t)
    ensures forall t :: t >= now ==>
      Live(ShardStep(s, op, now).0.leases, op.key, t) == Live(FlatStep(f, op, now).0.leases, op.key, t)
  {
    assert Live(s.leases, op.key, now) == Live(f.leases, op.key, now);
  }

  /** Every other key reads as before, at every time. */
  lemma StepOtherKey(s: Shard, f: Flat, op: Op, now: int, k: string, t: int)
    requires k != op.key
    ensures Live(ShardStep(s, op, now).0.values, k, t) == Live(s.values, k, t)
    ensures Live(ShardStep(s, op, now).0.leases, k, t) == Live(s.leases, k, t)
    ensures Live(FlatStep(f, op, now).0.values, k, t) == Live(f.values, k, t)
    ensures Live(FlatStep(f, op, now).0.leases, k, t) == Live(f.leases, k, t)
  {
  }

  lemma StepAgrees(ss: seq<Shard>, hash: string -> nat, f: Flat, clock: int, op: Op, now: int)
    requires |ss| > 0 && clock <= now && Agree(ss, hash, f, clock)
    ensures Step(ss, hash, op, now).1 == FlatStep(f, op, now).1
    ensures Agree(Step(ss, hash, op, now).0, hash, FlatStep(f, op, now).0, now)
  {
    var i := ShardFor(|ss|, hash, op.key);
    forall t | t >= now
      ensures Live(ss[i].values, op.key, t) == Live(f.values, op.key, t)
      ensures Live(ss[i].leases, op.key, t) == Live(f.leases, op.key, t)
    {
      assert ValueAt(ss, hash, op.key, t) == Live(f.values, op.key, t);
      assert LeaseAt(ss, hash, op.key, t) == Live(f.leases, op.key, t);
    }
    StepOwnKey(ss[i], f, op, now);
    var ss', f' := Step(ss, hash, op, now).0, FlatStep(f, op, now).0;
    forall k, t | t >= now
      ensures ValueAt(ss', hash, k, t) == Live(f'.values, k, t)
      ensures LeaseAt(ss', hash, k, t) == Live(f'.leases, k, t)
    {
      assert ValueAt(ss, hash, k, t) == Live(f.values, k, t);
      assert LeaseAt(ss, hash, k, t) == Live(f.leases, k, t);
      if k != op.key { StepOtherKey(ss[i], f, op, now, k, t); }
    }
  }

  lemma SweepAgrees(ss: seq<Shard>, hash: string -> nat, f: Flat, clock: int, i: nat, at: int)
    requires i < |ss| && at <= clock && Agree(ss, hash, f, clock)
    ensures Agree(ss[i := SweepShard(ss[i], at)], hash, f, clock)
  {
    var ss' := ss[i := SweepShard(ss[i], at)];
    forall k, t | t >= clock
      ensures ValueAt(ss', hash, k, t) == Live(f.values, k, t)
      ensures LeaseAt(ss', hash, k, t) == Live(f.leases, k, t)
    {
      assert ValueAt(ss, hash, k, t) == Live(f.values, k, t);
      assert LeaseAt(ss, hash, k, t) == Live(f.leases, k, t);
    }
  }

  /** One store call, or the sweep reaching one shard.  A sweep reads its clock once, before its
      first shard, so by the time it reaches shard `i` that reading `at` may be out of date. */
  datatype Event =
    | Call(op: Op, now: int)
    | Sweep(shard: nat, at: int, now: int)

  /** Events in the order the shard locks serialise them, on one nondecreasing clock. */
  predicate Timed(es: seq<Event>, clock: int, n: nat) {
    es == [] ||
    (&& clock <= es[0].now
     && (es[0].Sweep? ==> es[0].shard < n && es[0].at <= es[0].now)
     && Timed(es[1..], es[0].now, n))
  }

  function RunSharded(ss: seq<Shard>, hash: string -> nat, es: seq<Event>): seq<Reply>
    requires |ss| > 0
    requires forall e :: e in es && e.Sweep? ==> e.shard < |ss|
    decreases |es|
  {
    if es == [] then []
    else match es[0]
      case Call(op, now) =>
        var (ss', r) := Step(ss, hash, op, now);
        [r] + RunSharded(ss', hash, es[1..])
      case Sweep(i, at, _) =>
        RunSharded(ss[i := SweepShard(ss[i], at)], hash, es[1..])
  }

  function RunFlat(f: Flat, es: seq<Event>): seq<Reply>
    decreases |es|
  {
    if es == [] then []
    else match es[0]
      case Call(op, now) =>
        var (f', r) := FlatStep(f, op, now);
        [r] + RunFlat(f', es[1..])
      case Sweep(_, _, _) => RunFlat(f, es[1..])
  }

  lemma {:induction false} TimedShards(es: seq<Event>, clock: int, n: nat)
    requires Timed(es, clock, n)
    ensures forall e :: e in es && e.Sweep? ==> e.shard < n
  {
    if es != [] {
      TimedShards(es[1..], es[0].now, n);
      assert es == [es[0]] + es[1..];
    }
  }

  lemma {:induction false} RunAgrees(ss: seq<Shard>, hash: string -> nat, f: Flat, clock: int, es: seq<Event>)
    requires |ss| > 0 && Agree(ss, hash, f, clock) && Timed(es, clock, |ss|)
    requires forall e :: e in es && e.Sweep? ==> e.shard < |ss|
    ensures RunSharded(ss, hash, es) == RunFlat(f, es)
    decreases |es|
  {
    if es != [] {
      var now := es[0].now;
      assert Agree(ss, hash, f, now);
      match es[0]
      case Call(op, _) =>
        StepAgrees(ss, hash, f, clock, op, now);
        RunAgrees(Step(ss, hash, op, now).0, hash, FlatStep(f, op, now).0, now, es[1..]);
      case Sweep(i, at, _) =>
        SweepAgrees(ss, hash, f, now, i, at);
        RunAgrees(ss[i := SweepShard(ss[i], at)], hash, f, now, es[1..]);
    }
  }

  function EmptyShards(n: nat): (ss: seq<Shard>)
    ensures |ss| == n && forall i :: 0 <= i < n ==> ss[i] == EMPTY_SHARD
  {
    seq(n, _ => EMPTY_SHARD)
  }

  /** Sharding, lazy expiry and the background sweep are invisible: from an empty store, for any
      shard count, any hash and any interleaving of calls and sweeps, every reply is the one the
      flat map that never sweeps gives. */
  lemma ShardingInvisible(n: nat, hash: string -> nat, clock: int, es: seq<Event>)
    requires n > 0 && Timed(es, clock, n)
    ensures forall e :: e in es && e.Sweep? ==> e.shard < n
    ensures RunSharded(EmptyShards(n), hash, es) == RunFlat(Flat(map[], map[]), es)
  {
    TimedShards(es, clock, n);
    RunAgrees(EmptyShards(n), hash, Flat(map[], map[]), clock, es);
  }
}
