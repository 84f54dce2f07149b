/** Acquire and release of concurrency leases: the store's lease counter, the engine's release
    closure, and the registry of lease ids, with any number of handlers taking interleaved steps.

    Slots taken through /check are not part of this machine. */
module Leases {
  import opened StoreModel
  import opened MemoryStore

  /** What StartConcurrencyLease hands back for later: give back a slot, or nothing. */
  datatype Closure = ReleaseOf(key: string) | NoOp

  /** A request in flight between two critical sections. */
  datatype Handler =
    | Acquired(release: Closure)                 // StartConcurrencyLease returned, not yet registered
    | Popped(id: string, release: Closure)       // taken out of the registry, not yet run

  datatype State = State(
    leases: Table,
    registry: map<string, Closure>,
    handlers: map<nat, Handler>,
    used: set<string>,      // lease ids ever handed out
    freed: seq<string>)     // bookkeeping: ids whose closure gave back a slot, in order

  const INIT: State := State(map[], map[], map[], {}, [])

  datatype Event =
    | Acquire(h: nat, key: string, ttl: int, shadow: bool, now: int)   // a concurrency policy
    | PassThrough(h: nat, now: int)                                    // any other allowed request
    | Put(h: nat, id: string, now: int)
    | Pop(h: nat, id: string, now: int)
    | Release(h: nat, now: int)

  /** MaxConcurrency, else limit, else one. */
  function EngineLimit(maxConcurrency: int, limit: int): (n: int)
    ensures n >= 1
    ensures maxConcurrency > 0 ==> n == maxConcurrency
    ensures maxConcurrency <= 0 && n > 1 ==> n == limit
    ensures maxConcurrency <= 0 ==> n >= limit
  {
    if maxConcurrency > 0 then maxConcurrency else if limit > 0 then limit else 1
  }

  function Slots(s: State, key: string): int {
    if key in s.leases then s.leases[key].value else 0
  }

  /** No lease counter the event touches has expired. */
  predicate Unexpired(s: State, key: string, now: int) {
    key in s.leases ==> !Expired(s.leases[key], now)
  }

  /** The step is one the handler can take now. */
  predicate Possible(s: State, e: Event) {
    match e
    case Acquire(h, _, _, _, _) => h !in s.handlers
    case PassThrough(h, _) => h !in s.handlers
    case Put(h, id, _) => h in s.handlers && s.handlers[h].Acquired? && id !in s.used
    case Pop(h, id, _) => h !in s.handlers
    case Release(h, _) => h in s.handlers && s.handlers[h].Popped?
  }

  /** It is, and no lease counter it touches has expired. */
  predicate Enabled(s: State, e: Event) {
    && Possible(s, e)
    && (e.Acquire? ==> Unexpired(s, e.key, e.now))
    && (e.Release? && s.handlers[e.h].release.ReleaseOf? ==> Unexpired(s, s.handlers[e.h].release.key, e.now))
  }

  /** The store is called with a positive limit: the engine defaults it. */
  function Apply(limit: string -> int, s: State, e: Event): State
    requires Possible(s, e)
  {
    match e
    case Acquire(h, key, ttl, shadow, now) =>
      var it := Live(s.leases, key, now);
      if it.value < limit(key) then
        s.(leases := s.leases[key := NextLease(it, ttl, now)], handlers := s.handlers[h := Acquired(ReleaseOf(key))])
      else if shadow then s.(handlers := s.handlers[h := Acquired(NoOp)])
      else s
    case PassThrough(h, _) => s.(handlers := s.handlers[h := Acquired(NoOp)])
    case Put(h, id, _) =>
      s.(registry := s.registry[id := s.handlers[h].release], handlers := s.handlers - {h}, used := s.used + {id})
    case Pop(h, id, _) =>
      if id !in s.registry then s
      else s.(registry := s.registry - {id}, handlers := s.handlers[h := Popped(id, s.registry[id])])
    case Release(h, now) =>
      var handler := s.handlers[h];
      match handler.release
      case NoOp => s.(handlers := s.handlers - {h})
      case ReleaseOf(key) =>
        s.(leases := s.leases[key := Freed(Live(s.leases, key, now))],
           handlers := s.handlers - {h},
           freed := s.freed + [handler.id])
  }

  // ---------------------------------------------------------------- conservation

  function Registered(s: State, key: string): set<string> {
    set id | id in s.registry && s.registry[id] == ReleaseOf(key)
  }

  function Pending(s: State, key: string): set<nat> {
    set h | h in s.handlers && s.handlers[h] == Acquired(ReleaseOf(key))
  }

  function Leaving(s: State, key: string): set<nat> {
    set h | h in s.handlers && s.handlers[h].Popped? && s.handlers[h].release == ReleaseOf(key)
  }

  /** Every slot of the key is registered, about to be registered, or about to be given back. */
  predicate Conserved(limit: string -> int, s: State, key: string) {
    && Slots(s, key) == |Registered(s, key)| + |Pending(s, key)| + |Leaving(s, key)|
    && Slots(s, key) <= (if limit(key) < 0 then 0 else limit(key))
  }

  /** Each lease id is in at most one place: the registry, one handler, or the freed list, once. */
  predicate IdsUnique(s: State) {
    && (forall id :: id in s.registry ==> id in s.used)
    && (forall i :: 0 <= i < |s.freed| ==> s.freed[i] in s.used && s.freed[i] !in s.registry)
    && (forall i, j :: 0 <= i < j < |s.freed| ==> s.freed[i] != s.freed[j])
    && (forall h :: h in s.handlers && s.handlers[h].Popped? ==>
          s.handlers[h].id in s.used && s.handlers[h].id !in s.registry && s.handlers[h].id !in s.freed)
    && (forall h, g :: h in s.handlers && g in s.handlers && h != g &&
                       s.handlers[h].Popped? && s.handlers[g].Popped? ==>
          s.handlers[h].id != s.handlers[g].id)
  }

  ghost predicate Inv(limit: string -> int, s: State) {
    (forall key :: Conserved(limit, s, key)) && IdsUnique(s)
  }

  lemma StepIds(limit: string -> int, s: State, e: Event)
    requires IdsUnique(s) && Enabled(s, e)
    ensures IdsUnique(Apply(limit, s, e))
  {
  }

  /** Which of the three places of `key` an event changes, and by whom. */
  lemma PutMoves(limit: string -> int, s: State, e: Event, key: string)
    requires Possible(s, e) && e.Put? && IdsUnique(s)
    ensures var s' := Apply(limit, s, e);
            && Leaving(s', key) == Leaving(s, key)
            && if s.handlers[e.h].release == ReleaseOf(key) then
                 && e.id !in Registered(s, key) && Registered(s', key) == Registered(s, key) + {e.id}
                 && e.h !in Pending(s', key) && Pending(s, key) == Pending(s', key) + {e.h}
               else Registered(s', key) == Registered(s, key) && Pending(s', key) == Pending(s, key)
  {
  }

  lemma PopMoves(limit: string -> int, s: State, e: Event, key: string)
    requires Possible(s, e) && e.Pop?
    ensures var s' := Apply(limit, s, e);
            && Pending(s', key) == Pending(s, key)
            && if e.id in s.registry && s.registry[e.id] == ReleaseOf(key) then
                 && e.id !in Registered(s', key) && Registered(s, key) == Registered(s', key) + {e.id}
                 && e.h !in Leaving(s, key) && Leaving(s', key) == Leaving(s, key) + {e.h}
               else Registered(s', key) == Registered(s, key) && Leaving(s', key) == Leaving(s, key)
  {
  }

  lemma ReleaseMoves(limit: string -> int, s: State, e: Event, key: string)
    requires Possible(s, e) && e.Release?
    ensures var s' := Apply(limit, s, e);
            && Registered(s', key) == Registered(s, key) && Pending(s', key) == Pending(s, key)
            && if s.handlers[e.h].release == ReleaseOf(key) then
                 e.h !in Leaving(s', key) && Leaving(s, key) == Leaving(s', key) + {e.h}
               else Leaving(s', key) == Leaving(s, key)
  {
  }

  lemma AcquireMoves(limit: string -> int, s: State, e: Event, key: string)
    requires Possible(s, e) && (e.Acquire? || e.PassThrough?)
    ensures var s' := Apply(limit, s, e);
            && Registered(s', key) == Registered(s, key) && Leaving(s', key) == Leaving(s, key)
            && if e.Acquire? && key == e.key && Live(s.leases, key, e.now).value < limit(key) then
                 e.h !in Pending(s, key) && Pending(s', key) == Pending(s, key) + {e.h}
               else Pending(s', key) == Pending(s, key)
  {
  }

  /** What an event does to the counter of `key`. */
  lemma SlotsChange(limit: string -> int, s: State, e: Event, key: string)
    requires Enabled(s, e)
    ensures var s' := Apply(limit, s, e);
            Slots(s', key) ==
              if e.Acquire? && key == e.key && Slots(s, key) < limit(key) then Slots(s, key) + 1
              else if e.Release? && s.handlers[e.h].release == ReleaseOf(key) && Slots(s, key) > 0
              then Slots(s, key) - 1
              else Slots(s, key)
  {
  }

  /** The slots of a key that somebody holds. */
  function Owed(s: State, key: string): nat {
    |Registered(s, key)| + |Pending(s, key)| + |Leaving(s, key)|
  }

  /** An acquire that is granted adds a holder, a release takes one away, and nothing else does either. */
  lemma OwedChange(limit: string -> int, s: State, e: Event, key: string)
    requires Possible(s, e) && IdsUnique(s)
    ensures Owed(Apply(limit, s, e), key) - Owed(s, key) ==
              if e.Acquire? && key == e.key && Live(s.leases, key, e.now).value < limit(key) then 1
              else if e.Release? && s.handlers[e.h].release == ReleaseOf(key) then -1
              else 0
  {
    match e {
      case Acquire(_, _, _, _, _) => AcquireMoves(limit, s, e, key);
      case PassThrough(_, _) => AcquireMoves(limit, s, e, key);
      case Put(_, _, _) => PutMoves(limit, s, e, key);
      case Pop(_, _, _) => PopMoves(limit, s, e, key);
      case Release(_, _) => ReleaseMoves(limit, s, e, key);
    }
  }

  lemma StepConserves(limit: string -> int, s: State, e: Event, key: string)
    requires Enabled(s, e) && IdsUnique(s) && Conserved(limit, s, key)
    ensures Conserved(limit, Apply(limit, s, e), key)
    ensures e.Release? && s.handlers[e.h].release == ReleaseOf(key) ==> Slots(s, key) > 0
  {
    SlotsChange(limit, s, e, key);
    OwedChange(limit, s, e, key);
    assert Slots(s, key) == Owed(s, key);
    if e.Release? && s.handlers[e.h].release == ReleaseOf(key) { assert e.h in Leaving(s, key); }
  }

  lemma StepKeeps(limit: string -> int, s: State, e: Event)
    requires Inv(limit, s) && Enabled(s, e)
    ensures Inv(limit, Apply(limit, s, e))
  {
    StepIds(limit, s, e);
    forall key ensures Conserved(limit, Apply(limit, s, e), key) {
      assert Conserved(limit, s, key);
      StepConserves(limit, s, e, key);
    }
  }

  predicate Runnable(limit: string -> int, s: State, es: seq<Event>)
    decreases |es|
  {
    es == [] || (Enabled(s, es[0]) && Runnable(limit, Apply(limit, s, es[0]), es[1..]))
  }

  function Run(limit: string -> int, s: State, es: seq<Event>): State
    requires Runnable(limit, s, es)
    decreases |es|
  {
    if es == [] then s else Run(limit, Apply(limit, s, es[0]), es[1..])
  }

  lemma {:induction false} RunKeeps(limit: string -> int, s: State, es: seq<Event>)
    requires Inv(limit, s) && Runnable(limit, s, es)
    ensures Inv(limit, Run(limit, s, es))
    decreases |es|
  {
    if es != [] {
      StepKeeps(limit, s, es[0]);
      RunKeeps(limit, Apply(limit, s, es[0]), es[1..]);
    }
  }

  lemma InitKeeps(limit: string -> int)
    ensures Inv(limit, INIT)
  {
    forall k ensures Conserved(limit, INIT, k) {
      assert Registered(INIT, k) == {} && Pending(INIT, k) == {} && Leaving(INIT, k) == {};
    }
  }

  /** In every reachable state, without lease expiry, the key's lease count is the number of its
      registered leases plus those acquired and not yet registered plus those popped and not yet
      released, and it is within the limit. */
  lemma LeaseConservation(limit: string -> int, es: seq<Event>, key: string)
    requires Runnable(limit, INIT, es) && limit(key) >= 1
    ensures var s := Run(limit, INIT, es);
            Slots(s, key) == |Registered(s, key)| + |Pending(s, key)| + |Leaving(s, key)| <= limit(key)
  {
    InitKeeps(limit);
    RunKeeps(limit, INIT, es);
    assert Conserved(limit, Run(limit, INIT, es), key);
  }

  /** However often one id is released, it frees at most one slot. */
  lemma ReleaseOnce(limit: string -> int, es: seq<Event>)
    requires Runnable(limit, INIT, es)
    ensures var s := Run(limit, INIT, es);
            forall i, j :: 0 <= i < j < |s.freed| ==> s.freed[i] != s.freed[j]
  {
    InitKeeps(limit);
    RunKeeps(limit, INIT, es);
  }

  lemma RunCons(limit: string -> int, s: State, e: Event, es: seq<Event>)
    requires Enabled(s, e) && Runnable(limit, Apply(limit, s, e), es)
    ensures Runnable(limit, s, [e] + es) && Run(limit, s, [e] + es) == Run(limit, Apply(limit, s, e), es)
  {
    assert ([e] + es)[1..] == es;
  }

  /** One lease from start to end: acquired, registered, popped and released by the same handler. */
  function RoundTrip(e: Event, id: string): seq<Event> {
    [e, Put(e.h, id, e.now), Pop(e.h, id, e.now), Release(e.h, e.now)]
  }

  /** The state of a request between acquiring and registering, and after a whole round trip. */
  lemma AllowedRegisters(limit: string -> int, s: State, e: Event, id: string)
    requires (e.Acquire? || e.PassThrough?) && Enabled(s, e) && id !in s.used && id !in s.registry
    requires e.Acquire? ==> Slots(s, e.key) >= 0 && (e.shadow || Slots(s, e.key) < limit(e.key))
    ensures var s1 := Apply(limit, s, e);
            && Enabled(s1, Put(e.h, id, e.now))
            && var s2 := Apply(limit, s1, Put(e.h, id, e.now));
               && s2.leases == s1.leases && s2.handlers == s.handlers && id in s2.registry
               && (s2.registry[id] == if e.Acquire? && Slots(s, e.key) < limit(e.key) then ReleaseOf(e.key) else NoOp)
  {
    var s1 := Apply(limit, s, e);
    assert e.h in s1.handlers && s1.handlers - {e.h} == s.handlers;
  }

  /** Popped and released, the lease is gone from registry and handlers, and a slot is given back if it was one. */
  lemma PoppedReleases(limit: string -> int, s: State, h: nat, id: string, now: int)
    requires h !in s.handlers && id in s.registry
    requires s.registry[id].ReleaseOf? ==> Unexpired(s, s.registry[id].key, now)
    ensures var s1 := Apply(limit, s, Pop(h, id, now));
            && Enabled(s1, Release(h, now))
            && var s2 := Apply(limit, s1, Release(h, now));
               && s2.handlers == s.handlers && s2.registry == s.registry - {id}
               && if s.registry[id].NoOp? then s2.leases == s.leases && s2.freed == s.freed
                  else
                    var k := s.registry[id].key;
                    s2.leases == s.leases[k := Freed(Live(s.leases, k, now))] && s2.freed == s.freed + [id]
  {
    var s1 := Apply(limit, s, Pop(h, id, now));
    assert s1.handlers - {h} == s.handlers;
  }

  lemma RoundTripRuns(limit: string -> int, s: State, e: Event, id: string)
    requires Enabled(s, e)
    requires var put, pop, release := Put(e.h, id, e.now), Pop(e.h, id, e.now), Release(e.h, e.now);
             var s1 := Apply(limit, s, e);
             && Enabled(s1, put)
             && var s2 := Apply(limit, s1, put);
                Enabled(s2, pop) && Enabled(Apply(limit, s2, pop), release)
    ensures Runnable(limit, s, RoundTrip(e, id))
    ensures Run(limit, s, RoundTrip(e, id)) ==
            var s2 := Apply(limit, Apply(limit, s, e), Put(e.h, id, e.now));
            Apply(limit, Apply(limit, s2, Pop(e.h, id, e.now)), Release(e.h, e.now))
  {
    var put, pop, release := Put(e.h, id, e.now), Pop(e.h, id, e.now), Release(e.h, e.now);
    var s1 := Apply(limit, s, e);
    var s2 := Apply(limit, s1, put);
    var s3 := Apply(limit, s2, pop);
    RunCons(limit, s3, release, []);
    RunCons(limit, s2, pop, [release]);
    RunCons(limit, s1, put, [pop, release]);
    RunCons(limit, s, e, [put, pop, release]);
    assert [release] == [release] + [] && [pop, release] == [pop] + [release];
    assert [put, pop, release] == [put] + [pop, release] && RoundTrip(e, id) == [e] + [put, pop, release];
  }

  /** Whatever let a request through, a free slot, shadow mode or a policy without slots, its round trip can be made,
      leaves every count as it was and the id in nobody's hands, and frees a slot exactly if it took one. */
  lemma RoundTripRestores(limit: string -> int, s: State, e: Event, id: string, key: string)
    requires (e.Acquire? || e.PassThrough?) && Enabled(s, e) && id !in s.used && id !in s.registry
    requires e.Acquire? ==> Slots(s, e.key) >= 0 && (e.shadow || Slots(s, e.key) < limit(e.key))
    ensures Runnable(limit, s, RoundTrip(e, id))
    ensures var s' := Run(limit, s, RoundTrip(e, id));
            && Slots(s', key) == Slots(s, key) && s'.handlers == s.handlers && s'.registry == s.registry
            && (s'.freed == s.freed + if e.Acquire? && Slots(s, e.key) < limit(e.key) then [id] else [])
  {
    AllowedRegisters(limit, s, e, id);
    var s2 := Apply(limit, Apply(limit, s, e), Put(e.h, id, e.now));
    assert s2.registry - {id} == s.registry && s2.freed == s.freed;
    PoppedReleases(limit, s2, e.h, id, e.now);
    RoundTripRuns(limit, s, e, id);
  }

  /** A release never meets the guard that keeps the counter from going below zero. */
  lemma ReleaseFindsSlot(limit: string -> int, es: seq<Event>, e: Event)
    requires Runnable(limit, INIT, es) && e.Release? && Enabled(Run(limit, INIT, es), e)
    ensures var s := Run(limit, INIT, es);
            s.handlers[e.h].release.ReleaseOf? ==> Slots(s, s.handlers[e.h].release.key) > 0
  {
    InitKeeps(limit);
    RunKeeps(limit, INIT, es);
    var s := Run(limit, INIT, es);
    if s.handlers[e.h].release.ReleaseOf? {
      var key := s.handlers[e.h].release.key;
      assert Conserved(limit, s, key);
      StepConserves(limit, s, e, key);
    }
  }

  /** A successful or refused acquire keeps the count right if and only if the counter it finds has not
      expired, or stood at zero. */
  lemma AcquireKeepsIff(limit: string -> int, s: State, e: Event)
    requires Possible(s, e) && e.Acquire? && limit(e.key) >= 1 && Conserved(limit, s, e.key)
    ensures Conserved(limit, Apply(limit, s, e), e.key) <==> Unexpired(s, e.key, e.now) || Slots(s, e.key) == 0
  {
    AcquireMoves(limit, s, e, e.key);
    var seen := Live(s.leases, e.key, e.now).value;
    assert Slots(Apply(limit, s, e), e.key) == if seen < limit(e.key) then seen + 1 else Slots(s, e.key);
  }

  /** A release, if and only if the counter it finds has not expired, or counted this slot alone. */
  lemma ReleaseKeepsIff(limit: string -> int, s: State, e: Event, key: string)
    requires Possible(s, e) && e.Release? && s.handlers[e.h].release == ReleaseOf(key) && Conserved(limit, s, key)
    ensures Conserved(limit, Apply(limit, s, e), key) <==> Unexpired(s, key, e.now) || Slots(s, key) == 1
  {
    ReleaseMoves(limit, s, e, key);
    assert e.h in Leaving(s, key);
  }

  predicate Touches(s: State, e: Event, key: string)
    requires Possible(s, e)
  {
    (e.Acquire? && e.key == key) || (e.Release? && s.handlers[e.h].release == ReleaseOf(key))
  }

  /** The step meets a lease counter that has expired with leases still out. */
  predicate LosesLeases(s: State, e: Event)
    requires Possible(s, e)
  {
    match e
    case Acquire(_, key, _, _, now) => !Unexpired(s, key, now) && Slots(s, key) != 0
    case Release(h, now) =>
      var release := s.handlers[h].release;
      release.ReleaseOf? && !Unexpired(s, release.key, now) && Slots(s, release.key) != 1
    case _ => false
  }

  lemma SlotsUntouched(limit: string -> int, s: State, e: Event, key: string)
    requires Possible(s, e) && !Touches(s, e, key)
    ensures Slots(Apply(limit, s, e), key) == Slots(s, key)
  {
  }

  /** A step leaves the counts of the keys it neither takes nor gives back. */
  lemma OtherKeysKept(limit: string -> int, s: State, e: Event, key: string)
    requires Possible(s, e) && IdsUnique(s) && Conserved(limit, s, key) && !Touches(s, e, key)
    ensures Conserved(limit, Apply(limit, s, e), key)
  {
    SlotsUntouched(limit, s, e, key);
    OwedChange(limit, s, e, key);
    assert Conserved(limit, s, key) ==> Slots(s, key) == Owed(s, key);
  }

  /** Expiry with leases out is exactly what breaks the law: a step keeps every count right if and only if
      it does not meet a counter that expired before its leases were given back. */
  lemma ExpiryBreaksConservation(limit: string -> int, s: State, e: Event)
    requires Inv(limit, s) && Possible(s, e) && (e.Acquire? ==> limit(e.key) >= 1)
    ensures (forall key :: Conserved(limit, Apply(limit, s, e), key)) <==> !LosesLeases(s, e)
  {
    forall key ensures Touches(s, e, key) || Conserved(limit, Apply(limit, s, e), key) {
      assert Conserved(limit, s, key);
      if !Touches(s, e, key) { OtherKeysKept(limit, s, e, key); }
    }
    if e.Acquire? {
      assert Conserved(limit, s, e.key);
      AcquireKeepsIff(limit, s, e);
    } else if e.Release? && s.handlers[e.h].release.ReleaseOf? {
      var key := s.handlers[e.h].release.key;
      assert Conserved(limit, s, key);
      ReleaseKeepsIff(limit, s, e, key);
    }
  }

  /** The machine's acquire and release are the reference store's: same counters, and a slot to give
      back exactly when the store granted the lease. */
  lemma StepsAreStoreSteps(limit: string -> int, s: State, e: Event, values: Table)
    requires Possible(s, e)
    ensures var f, s' := Flat(values, s.leases), Apply(limit, s, e);
            && (e.Acquire? && limit(e.key) >= 1 ==>
                  var (f', r) := FlatStep(f, Op.AcquireLease(e.key, limit(e.key), e.ttl), e.now);
                  && f' == Flat(values, s'.leases) && r.Lease?
                  && (r.ok <==> e.h in s'.handlers && s'.handlers[e.h] == Acquired(ReleaseOf(e.key))))
            && (e.Release? && s.handlers[e.h].release.ReleaseOf? ==>
                  FlatStep(f, Op.ReleaseLease(s.handlers[e.h].release.key), e.now).0 == Flat(values, s'.leases))
            && (!e.Acquire? && !(e.Release? && s.handlers[e.h].release.ReleaseOf?) ==> s'.leases == s.leases)
  {
  }

  // ---------------------------------------------------------------- the code

  class LeaseRegistry {
    var items: map<string, Closure>

    constructor ()
      ensures items == map[]
    {
      items := map[];
    }

    /** `id` is the random id drawn for this lease. */
    method Put(fn: Closure, id: string)
      modifies this
      ensures items == old(items)[id := fn]
    {
      items := items[id := fn];
    }

    method Pop(id: string) returns (fn: Closure, ok: bool)
      modifies this
      ensures ok <==> id in old(items)
      ensures ok ==> fn == old(items)[id]
      ensures items == old(items) - {id}
    {
      ok := id in items;
      fn := NoOp;
      if ok {
        fn := items[id];
        items := items - {id};
      }
    }
  }

  const DEFAULT_LEASE_TTL: int := 120_000_000_000

  /** What the store shows of it: a slot is taken, for as long as the ttl, exactly when one is free, and only then
      is there one to give back; in shadow mode the request passes anyway. */
  ghost predicate Took(ss': seq<Shard>, ss: seq<Shard>, hash: string -> nat, key: string, max: int, ttl: int, now: int,
                       allowed: bool, remaining: int, release: Closure, shadow: bool)
    requires |ss| > 0 && |ss'| > 0
  {
    var was, taken := LeaseAt(ss, hash, key, now).value, LeaseAt(ss', hash, key, now).value;
    && taken == (if was < max then was + 1 else was)
    && release == (if was < max then ReleaseOf(key) else NoOp)
    && (allowed <==> was < max || shadow)
    && remaining == (if taken <= max then max - taken else 0)
    && (was < max ==> forall t :: t >= now ==> LeaseAt(ss', hash, key, t).value == if t <= now + ttl then taken else 0)
  }

  /** The concurrency branch of StartConcurrencyLease. */
  method StartConcurrencyLease(store: MemoryStore, maxConcurrency: int, limit: int, leaseTtl: int, shadow: bool,
                               key: string, now: int)
    returns (allowed: bool, remaining: int, release: Closure)
    requires store.Valid()
    modifies store.shards
    ensures var max := EngineLimit(maxConcurrency, limit);
            var ttl := if leaseTtl > 0 then leaseTtl * 1_000_000_000 else DEFAULT_LEASE_TTL;
            var leaseKey := key + ":concurrency";
            var (ss, r) := Step(old(store.shards[..]), store.hash, Op.AcquireLease(leaseKey, max, ttl), now);
            && store.shards[..] == ss && r.Lease?
            && (release == if r.ok then ReleaseOf(leaseKey) else NoOp)
            && (allowed <==> r.ok || shadow)
            && (r.ok ==> r.current <= max)
            && (remaining == if max > r.current then max - r.current else 0)
            && Took(store.shards[..], old(store.shards[..]), store.hash, leaseKey, max, ttl, now, allowed, remaining,
                    release, shadow)
  {
    var max := EngineLimit(maxConcurrency, limit);
    var ttl := DEFAULT_LEASE_TTL;
    if leaseTtl > 0 { ttl := leaseTtl * 1_000_000_000; }
    var leaseKey := key + ":concurrency";
    LeaseEffect(store.shards[..], store.hash, Op.AcquireLease(leaseKey, max, ttl), now);
    var r := store.AcquireLease(leaseKey, max, ttl, now);
    remaining := if max > r.current then max - r.current else 0;
    if !r.ok {
      return shadow, remaining, NoOp;
    }
    allowed, release := true, ReleaseOf(leaseKey);
  }

  method RunRelease(store: MemoryStore, release: Closure, now: int)
    requires store.Valid()
    modifies store.shards
    ensures store.shards[..] ==
      match release
      case NoOp => old(store.shards[..])
      case ReleaseOf(key) => Step(old(store.shards[..]), store.hash, Op.ReleaseLease(key), now).0
    ensures release.ReleaseOf? ==>
      var was := LeaseAt(old(store.shards[..]), store.hash, release.key, now).value;
      LeaseAt(store.shards[..], store.hash, release.key, now).value == if was > 0 then was - 1 else was
  {
    if release.ReleaseOf? {
      LeaseEffect(store.shards[..], store.hash, Op.ReleaseLease(release.key), now);
      store.ReleaseLease(release.key, now);
    }
  }
}
