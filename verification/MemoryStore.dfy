/** The in-process counter store, updating its shards in place.

    Every method stands for one critical section under a shard lock; `now` is the clock reading
    that section takes.  Each is tied to the value-level step of `StoreModel`, about which the
    run-wide results are proved. */
module MemoryStore {
  import opened StoreModel

  class MemoryStore {
    const shards: array<Shard>
    /** FNV-1a, uninterpreted. */
    const hash: string -> nat

    ghost predicate Valid() {
      shards.Length > 0
    }

    constructor (shardCount: int, hash: string -> nat)
      ensures Valid() && fresh(shards) && this.hash == hash
      ensures shards[..] == EmptyShards(if shardCount <= 0 then 1 else shardCount)
    {
      var n := if shardCount <= 0 then 1 else shardCount;
      this.hash := hash;
      this.shards := new Shard[n](_ => EMPTY_SHARD);
    }

    /** Reads a counter under the lock, dropping it when it has expired. */
    method GetValueLocked(i: nat, key: string, now: int) returns (it: Item)
      requires i < shards.Length
      modifies shards
      ensures it == Live(old(shards[i]).values, key, now)
      ensures shards[..] == old(shards[..])[i := old(shards[i]).(values := Evict(old(shards[i]).values, key, now))]
    {
      var s := shards[i];
      it := if key in s.values then s.values[key] else ZERO;
      if it.expiry.At? && now > it.expiry.ns {
        shards[i] := s.(values := s.values - {key});
        it := ZERO;
      }
    }

    method GetLeaseLocked(i: nat, key: string, now: int) returns (it: Item)
      requires i < shards.Length
      modifies shards
      ensures it == Live(old(shards[i]).leases, key, now)
      ensures shards[..] == old(shards[..])[i := old(shards[i]).(leases := Evict(old(shards[i]).leases, key, now))]
    {
      var s := shards[i];
      it := if key in s.leases then s.leases[key] else ZERO;
      if it.expiry.At? && now > it.expiry.ns {
        shards[i] := s.(leases := s.leases - {key});
        it := ZERO;
      }
    }

    method Get(key: string, now: int) returns (value: int)
      requires Valid()
      modifies shards
      ensures (shards[..], Value(value)) == Step(old(shards[..]), hash, Op.Get(key), now)
    {
      var it := GetValueLocked(ShardFor(shards.Length, hash, key), key, now);
      value := it.value;
    }

    method Set(key: string, value: int, ttl: int, now: int)
      requires Valid()
      modifies shards
      ensures shards[..] == Step(old(shards[..]), hash, Op.Set(key, value, ttl), now).0
    {
      var i := ShardFor(shards.Length, hash, key);
      var it := Item(value, Never);
      if ttl > 0 { it := it.(expiry := At(now + ttl)); }
      shards[i] := shards[i].(values := shards[i].values[key := it]);
    }

    method Increment(key: string, value: int, ttl: int, now: int) returns (total: int)
      requires Valid()
      modifies shards
      ensures (shards[..], Value(total)) == Step(old(shards[..]), hash, Op.Increment(key, value, ttl), now)
    {
      var i := ShardFor(shards.Length, hash, key);
      var it := GetValueLocked(i, key, now);
      it := it.(value := it.value + value);
      if ttl > 0 { it := it.(expiry := At(now + ttl)); }
      shards[i] := shards[i].(values := shards[i].values[key := it]);
      total := it.value;
      assert shards[..] == Step(old(shards[..]), hash, Op.Increment(key, value, ttl), now).0;
    }

    method CompareAndSwap(key: string, oldVal: int, newVal: int, ttl: int, now: int) returns (swapped: bool)
      requires Valid()
      modifies shards
      ensures (shards[..], Swapped(swapped))
           == Step(old(shards[..]), hash, Op.CompareAndSwap(key, oldVal, newVal, ttl), now)
    {
      var i := ShardFor(shards.Length, hash, key);
      var it := GetValueLocked(i, key, now);
      if it.value != oldVal { return false; }
      it := it.(value := newVal);
      if ttl > 0 { it := it.(expiry := At(now + ttl)); }
      shards[i] := shards[i].(values := shards[i].values[key := it]);
      swapped := true;
      assert shards[..] == Step(old(shards[..]), hash, Op.CompareAndSwap(key, oldVal, newVal, ttl), now).0;
    }

    method Delete(key: string, now: int)
      requires Valid()
      modifies shards
      ensures shards[..] == Step(old(shards[..]), hash, Op.Delete(key), now).0
    {
      var i := ShardFor(shards.Length, hash, key);
      var s := shards[i];
      shards[i] := Shard(s.values - {key}, s.timestamps - {key}, s.tsExpiry - {key}, s.leases - {key});
    }

    method AcquireLease(key: string, limit: int, ttl: int, now: int) returns (r: Reply)
      requires Valid()
      modifies shards
      ensures (shards[..], r) == Step(old(shards[..]), hash, Op.AcquireLease(key, limit, ttl), now)
    {
      var i := ShardFor(shards.Length, hash, key);
      if limit <= 0 {
        assert shards[..][i := shards[i]] == shards[..];
        return LimitError;
      }
      var it := GetLeaseLocked(i, key, now);
      if it.value >= limit { return Lease(false, it.value); }
      it := it.(value := it.value + 1);
      if ttl > 0 { it := it.(expiry := At(now + ttl)); }
      shards[i] := shards[i].(leases := shards[i].leases[key := it]);
      r := Lease(true, it.value);
      assert shards[..] == Step(old(shards[..]), hash, Op.AcquireLease(key, limit, ttl), now).0;
    }

    method ReleaseLease(key: string, now: int)
      requires Valid()
      modifies shards
      ensures shards[..] == Step(old(shards[..]), hash, Op.ReleaseLease(key), now).0
    {
      var i := ShardFor(shards.Length, hash, key);
      var it := GetLeaseLocked(i, key, now);
      if it.value > 0 { it := it.(value := it.value - 1); }
      shards[i] := shards[i].(leases := shards[i].leases[key := it]);
    }

    method CheckAndAddTimestamps(key: string, cutoff: int, limit: int, cost: int, ts: int, ttl: int, now: int)
      returns (count: int, allowed: bool)
      requires Valid()
      modifies shards
      ensures var i := ShardFor(shards.Length, hash, key);
              var (s, c, ok) := CheckAndAdd(old(shards[i]), key, cutoff, limit, cost, ts, ttl, now);
              shards[..] == old(shards[..])[i := s] && count == c && allowed == ok
    {
      var i := ShardFor(shards.Length, hash, key);
      var s := shards[i];
      var arr := TrimInPlace(Log(s, key), cutoff);
      count := |arr|;
      if count + cost > limit {
        shards[i] := s.(timestamps := s.timestamps[key := arr]);
        return count, false;
      }
      ghost var kept := arr;
      var n := 0;
      while n < cost
        invariant 0 <= n && (cost <= 0 ==> n == 0) && (cost > 0 ==> n <= cost)
        invariant arr == kept + seq(n, _ => ts)
      {
        arr := arr + [ts];
        n := n + 1;
      }
      arr := Sorted(arr);
      shards[i] := s.(timestamps := s.timestamps[key := arr],
                      tsExpiry := if ttl > 0 then s.tsExpiry[key := now + ttl] else s.tsExpiry);
      allowed := true;
    }

    /** Visits every shard with the one clock reading taken at the start. */
    method Sweep(now: int)
      requires Valid()
      modifies shards
      ensures forall i :: 0 <= i < shards.Length ==> shards[i] == SweepShard(old(shards[i]), now)
    {
      for i := 0 to shards.Length
        invariant forall j :: 0 <= j < i ==> shards[j] == SweepShard(old(shards[j]), now)
        invariant forall j :: i <= j < shards.Length ==> shards[j] == old(shards[j])
      {
        var s := shards[i];
        var values := DropExpired(s.values, now);
        var leases := DropExpired(s.leases, now);
        var timestamps, tsExpiry := DropLogs(s.timestamps, s.tsExpiry, now);
        shards[i] := Shard(values, timestamps, tsExpiry, leases);
      }
    }
  }

  /** Compacts a log onto its own front, keeping the order. */
  method TrimInPlace(ts: seq<int>, cutoff: int) returns (kept: seq<int>)
    ensures kept == Trimmed(ts, cutoff)
  {
    var arr, j := ts, 0;
    for i := 0 to |ts|
      invariant j <= i && |arr| == |ts|
      invariant arr[..j] == Trimmed(ts[..i], cutoff)
      invariant arr[i..] == ts[i..]
    {
      assert ts[..i + 1][..i] == ts[..i] && arr[i] == arr[i..][0] == ts[i];
      if arr[i] >= cutoff {
        ghost var before := arr;
        arr := arr[j := arr[i]];
        assert arr[..j + 1] == before[..j] + [ts[i]];
        j := j + 1;
      }
    }
    assert ts[..|ts|] == ts;
    kept := arr[..j];
  }

  method DropExpired(m: Table, now: int) returns (r: Table)
    ensures r == Unexpired(m, now)
  {
    r := m;
    var rest := m.Keys;
    while rest != {}
      invariant rest <= m.Keys
      invariant r == map k | k in m && (k in rest || !Expired(m[k], now)) :: m[k]
      decreases |rest|
    {
      var k :| k in rest;
      rest := rest - {k};
      if m[k].expiry.At? && now > m[k].expiry.ns { r := r - {k}; }
    }
  }

  method DropLogs(logs: map<string, seq<int>>, expiry: map<string, int>, now: int)
    returns (logs': map<string, seq<int>>, expiry': map<string, int>)
    ensures var dead := set k | k in expiry && now > expiry[k];
            logs' == logs - dead && expiry' == expiry - dead
  {
    logs', expiry' := logs, expiry;
    var rest := expiry.Keys;
    ghost var gone: set<string> := {};
    while rest != {}
      invariant rest <= expiry.Keys
      invariant gone == set k | k in expiry && k !in rest && now > expiry[k]
      invariant logs' == logs - gone && expiry' == expiry - gone
      decreases |rest|
    {
      var k :| k in rest;
      rest := rest - {k};
      if now > expiry[k] {
        gone := gone + {k};
        logs' := logs' - {k};
        expiry' := expiry' - {k};
      }
    }
    assert gone == set k | k in expiry && now > expiry[k];
  }
}
