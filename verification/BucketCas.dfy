/** Overlapping bucket evaluations: any number of them taking interleaved steps on the two keys of one
    bucket, whose ttl is not reached. */
module BucketCas {
  import opened Buckets
  import Store = StoreModel

  /** Where one evaluation stands between its store calls. */
  datatype Phase =
    | Begun(now: int, cost: int)
    | HalfRead(now: int, cost: int, milli: int)
    | Ready(now: int, cost: int, seen: Reads)
    | Swapped(now: int)                        // charged, timestamp not yet written
    | Finished

  datatype State = State(
    pair: Reads,                 // the two numbers in the store
    evals: map<nat, Phase>,
    charges: seq<Request>)       // bookkeeping: what has been charged, in order

  const INIT: State := State(Reads(0, 0), map[], [])

  datatype Event =
    | Begin(id: nat, now: int, cost: int)
    | ReadLevel(id: nat)
    | ReadTime(id: nat)
    | Swap(id: nat)
    | Stamp(id: nat)

  predicate Possible(s: State, e: Event) {
    match e
    case Begin(id, now, cost) => id !in s.evals && now > 0 && cost >= 1
    case ReadLevel(id) => id in s.evals && s.evals[id].Begun?
    case ReadTime(id) => id in s.evals && s.evals[id].HalfRead?
    case Swap(id) => id in s.evals && s.evals[id].Ready?
    case Stamp(id) => id in s.evals && s.evals[id].Swapped?
  }

  /** The step is a swap that succeeds. */
  predicate Charges(kind: Kind, c: Config, s: State, e: Event)
    requires Positive(c) && Possible(s, e)
  {
    && e.Swap?
    && var v := s.evals[e.id];
       Decide(kind, c, v.seen, v.now, v.cost).Admitted? && s.pair.milli == v.seen.milli
  }

  /** A swap that lost starts over; how often it may is not limited here. */
  function Apply(kind: Kind, c: Config, s: State, e: Event): State
    requires Positive(c) && Possible(s, e)
  {
    match e
    case Begin(id, now, cost) => s.(evals := s.evals[id := Begun(now, cost)])
    case ReadLevel(id) => s.(evals := s.evals[id := HalfRead(s.evals[id].now, s.evals[id].cost, s.pair.milli)])
    case ReadTime(id) =>
      var v := s.evals[id];
      s.(evals := s.evals[id := Ready(v.now, v.cost, Reads(v.milli, s.pair.last))])
    case Swap(id) =>
      var v := s.evals[id];
      var o := Decide(kind, c, v.seen, v.now, v.cost);
      if !o.Admitted? then s.(evals := s.evals[id := Finished])
      else if s.pair.milli != v.seen.milli then s.(evals := s.evals[id := Begun(v.now, v.cost)])
      else State(s.pair.(milli := o.milli), s.evals[id := Swapped(v.now)], s.charges + [Request(v.now, v.cost)])
    case Stamp(id) => s.(pair := s.pair.(last := s.evals[id].now), evals := s.evals[id := Finished])
  }

  predicate Runnable(kind: Kind, c: Config, s: State, es: seq<Event>)
    requires Positive(c)
    decreases |es|
  {
    es == [] || (Possible(s, es[0]) && Runnable(kind, c, Apply(kind, c, s, es[0]), es[1..]))
  }

  function RunFrom(kind: Kind, c: Config, s: State, es: seq<Event>): State
    requires Positive(c) && Runnable(kind, c, s, es)
    decreases |es|
  {
    if es == [] then s else RunFrom(kind, c, Apply(kind, c, s, es[0]), es[1..])
  }

  /** The clock reading of the last charge, zero before the first. */
  function LastStamp(charges: seq<Request>): int {
    if charges == [] then 0 else charges[|charges| - 1].now
  }

  /** A swap that succeeds has read the timestamp of the last charge, and no later one than its own. */
  predicate Clean(kind: Kind, c: Config, s: State, e: Event)
    requires Positive(c) && Possible(s, e)
  {
    Charges(kind, c, s, e) ==> s.evals[e.id].seen.last == LastStamp(s.charges) <= s.evals[e.id].now
  }

  predicate CleanRun(kind: Kind, c: Config, s: State, es: seq<Event>)
    requires Positive(c) && Runnable(kind, c, s, es)
    decreases |es|
  {
    es == [] || (Clean(kind, c, s, es[0]) && CleanRun(kind, c, Apply(kind, c, s, es[0]), es[1..]))
  }

  // ---------------------------------------------------------------- the charges as a sequential run

  /** What a sequential run of admitted requests leaves in the store. */
  function After(kind: Kind, c: Config, qs: seq<Request>): Reads
    requires Positive(c)
  {
    if qs == [] then Reads(0, 0)
    else
      var init, q := qs[..|qs| - 1], qs[|qs| - 1];
      var o := Decide(kind, c, After(kind, c, init), q.now, q.cost);
      if o.Admitted? then Reads(o.milli, q.now) else After(kind, c, init)
  }

  /** Each request is admitted on what the ones before it left, no earlier than they, and at least one. */
  predicate Sequential(kind: Kind, c: Config, qs: seq<Request>)
    requires Positive(c)
  {
    qs == [] || (
      var init, q := qs[..|qs| - 1], qs[|qs| - 1];
      && Sequential(kind, c, init)
      && q.now > 0 && q.cost >= 1 && LastStamp(init) <= q.now
      && Decide(kind, c, After(kind, c, init), q.now, q.cost).Admitted?)
  }

  lemma SequentialStamp(kind: Kind, c: Config, qs: seq<Request>)
    requires Positive(c) && Sequential(kind, c, qs)
    ensures After(kind, c, qs).last == LastStamp(qs)
  {
  }

  predicate Begins(v: Phase) {
    v.Begun? || v.HalfRead? || v.Ready? ==> v.now > 0 && v.cost >= 1
  }

  /** The level in the store is the one the charges leave, whatever has become of the timestamp. */
  ghost predicate Inv(kind: Kind, c: Config, s: State) {
    && Positive(c)
    && (forall id :: id in s.evals ==> Begins(s.evals[id]))
    && Sequential(kind, c, s.charges)
    && s.pair.milli == After(kind, c, s.charges).milli
  }

  lemma QuietKeeps(kind: Kind, c: Config, s: State, e: Event)
    requires Inv(kind, c, s) && Possible(s, e) && !Charges(kind, c, s, e)
    ensures Inv(kind, c, Apply(kind, c, s, e))
  {
    var s' := Apply(kind, c, s, e);
    forall id | id in s'.evals ensures Begins(s'.evals[id]) {
      if id in s.evals { assert Begins(s.evals[id]); }
    }
  }

  lemma ChargeKeeps(kind: Kind, c: Config, s: State, e: Event)
    requires Inv(kind, c, s) && Possible(s, e) && Charges(kind, c, s, e) && Clean(kind, c, s, e)
    ensures Inv(kind, c, Apply(kind, c, s, e))
  {
    var s', v := Apply(kind, c, s, e), s.evals[e.id];
    assert Begins(v);
    SequentialStamp(kind, c, s.charges);
    assert s'.charges[..|s.charges|] == s.charges;
    assert v.seen == After(kind, c, s.charges);
    forall id | id in s'.evals ensures Begins(s'.evals[id]) {
      if id in s.evals { assert Begins(s.evals[id]); }
    }
  }

  lemma {:induction false} RunKeeps(kind: Kind, c: Config, s: State, es: seq<Event>)
    requires Inv(kind, c, s) && Runnable(kind, c, s, es) && CleanRun(kind, c, s, es)
    ensures Inv(kind, c, RunFrom(kind, c, s, es))
    decreases |es|
  {
    if es != [] {
      if Charges(kind, c, s, es[0]) { ChargeKeeps(kind, c, s, es[0]); } else { QuietKeeps(kind, c, s, es[0]); }
      RunKeeps(kind, c, Apply(kind, c, s, es[0]), es[1..]);
    }
  }

  // ---------------------------------------------------------------- the bound

  /** The bucket a run leaves. */
  function Leaves(kind: Kind, c: Config, b: Bucket, qs: seq<Request>): Bucket
    requires Positive(c)
    decreases |qs|
  {
    if qs == [] then b else Leaves(kind, c, Evaluate(kind, c, 0, b, qs[0]).0, qs[1..])
  }

  lemma {:induction false} RunSnoc(kind: Kind, c: Config, b: Bucket, qs: seq<Request>, q: Request)
    requires Positive(c)
    ensures var (b', o) := Evaluate(kind, c, 0, Leaves(kind, c, b, qs), q);
            Run(kind, c, 0, b, qs + [q]) == Run(kind, c, 0, b, qs) + [o] && Leaves(kind, c, b, qs + [q]) == b'
    decreases |qs|
  {
    if qs == [] {
      assert qs + [q] == [q] && [q][1..] == [];
    } else {
      assert (qs + [q])[1..] == qs[1..] + [q] && (qs + [q])[0] == qs[0];
      RunSnoc(kind, c, Evaluate(kind, c, 0, b, qs[0]).0, qs[1..], q);
    }
  }

  /** Evaluating the charges one after another, with keys that never expire, admits them all. */
  lemma {:induction false} SequentialRuns(kind: Kind, c: Config, qs: seq<Request>)
    requires Positive(c) && Sequential(kind, c, qs)
    ensures var os := Run(kind, c, 0, FRESH, qs);
            && (forall i :: 0 <= i < |qs| ==> os[i].Admitted?)
            && Leaves(kind, c, FRESH, qs) == Stored(After(kind, c, qs), 0)
  {
    if qs != [] {
      var init, q := qs[..|qs| - 1], qs[|qs| - 1];
      SequentialRuns(kind, c, init);
      RunSnoc(kind, c, FRESH, init, q);
      assert qs == init + [q];
    }
  }

  /** Requests that come in order. */
  predicate InOrder(qs: seq<Request>) {
    && (forall i :: 0 <= i < |qs| ==> qs[i].now > 0 && qs[i].cost >= 1)
    && (forall i, j :: 0 <= i < j < |qs| ==> qs[i].now <= qs[j].now)
  }

  lemma InOrderSnoc(qs: seq<Request>, q: Request)
    requires InOrder(qs) && q.now > 0 && q.cost >= 1 && LastStamp(qs) <= q.now
    ensures InOrder(qs + [q])
  {
    forall i | 0 <= i < |qs| ensures qs[i].now <= q.now {
      assert qs[i].now <= qs[|qs| - 1].now;
    }
  }

  lemma {:induction false} SequentialInOrder(kind: Kind, c: Config, qs: seq<Request>)
    requires Positive(c) && Sequential(kind, c, qs)
    ensures InOrder(qs)
  {
    if qs != [] {
      var init, q := qs[..|qs| - 1], qs[|qs| - 1];
      SequentialInOrder(kind, c, init);
      InOrderSnoc(init, q);
      assert qs == init + [q];
    }
  }

  lemma {:induction false} InOrderTimed(qs: seq<Request>, clock: int)
    requires InOrder(qs) && clock > 0 && (qs != [] ==> clock <= qs[0].now)
    ensures Timed(qs, clock)
    decreases |qs|
  {
    if qs != [] { InOrderTimed(qs[1..], qs[0].now); }
  }

  /** The cost of the charges stamped in [s, t], and their number. */
  function CostOf(qs: seq<Request>, s: int, t: int): int {
    if qs == [] then 0 else (if s <= qs[0].now <= t then qs[0].cost else 0) + CostOf(qs[1..], s, t)
  }

  function CountOf(qs: seq<Request>, s: int, t: int): nat {
    if qs == [] then 0 else (if s <= qs[0].now <= t then 1 else 0) + CountOf(qs[1..], s, t)
  }

  lemma {:induction false} AllAdmitted(qs: seq<Request>, os: seq<Outcome>, s: int, t: int)
    requires |qs| == |os| && forall i :: 0 <= i < |os| ==> os[i].Admitted?
    ensures ChargedCost(qs, os, s, t) == CostOf(qs, s, t) && ChargedCount(qs, os, s, t) == CountOf(qs, s, t)
  {
    if qs != [] { AllAdmitted(qs[1..], os[1..], s, t); }
  }

  lemma {:induction false} NoTtlNoExpiry(kind: Kind, c: Config, r: Reads, qs: seq<Request>, s: int, t: int)
    requires Positive(c)
    ensures ExpiredCount(kind, c, 0, Stored(r, 0), qs, s, t) == 0
    decreases |qs|
  {
    if qs != [] {
      var (b', o) := Evaluate(kind, c, 0, Stored(r, 0), qs[0]);
      var r' := if o.Admitted? then Reads(o.milli, qs[0].now) else r;
      assert b' == Stored(r', 0);
      NoTtlNoExpiry(kind, c, r', qs[1..], s, t);
    }
  }

  /** The bound on the charges of [s, t]: the capacity, plus what flows in, plus half a thousandth each. */
  predicate Bounded(c: Config, qs: seq<Request>, s: int, t: int) {
    CostOf(qs, s, t) as real <= c.capacity as real + Flow(c, t - s) + 0.0005 * CountOf(qs, s, t) as real
  }

  lemma SlackWithoutExpiry(c: Config, ttl: int, n: nat)
    ensures Slack(c, ttl, n, 0) == 0.0005 * n as real
  {
  }

  lemma SequentialBound(kind: Kind, c: Config, qs: seq<Request>, s: int, t: int)
    requires Positive(c) && InOrder(qs) && s <= t
    requires forall i :: 0 <= i < |qs| ==> Run(kind, c, 0, FRESH, qs)[i].Admitted?
    ensures CostOf(qs, s, t) as real <= c.capacity as real + Flow(c, t - s) + Slack(c, 0, CountOf(qs, s, t), 0)
  {
    InOrderTimed(qs, 1);
    AllAdmitted(qs, Run(kind, c, 0, FRESH, qs), s, t);
    assert ExpiredCount(kind, c, 0, FRESH, qs, s, t) == 0 by {
      assert FRESH == Stored(Reads(0, 0), 0);
      NoTtlNoExpiry(kind, c, Reads(0, 0), qs, s, t);
    }
    ChargedBound(kind, c, 0, qs, s, t);
  }

  /** Under every interleaving of clean swaps, the charges are those of a sequential run, and over every
      interval their cost is at most the capacity, plus what flows in, plus half a thousandth per charge. */
  lemma OverlappingBound(kind: Kind, c: Config, es: seq<Event>, s: int, t: int)
    requires Positive(c) && Runnable(kind, c, INIT, es) && CleanRun(kind, c, INIT, es) && s <= t
    ensures var qs := RunFrom(kind, c, INIT, es).charges;
            && (forall i :: 0 <= i < |qs| ==> Run(kind, c, 0, FRESH, qs)[i].Admitted?)
            && Bounded(c, qs, s, t)
  {
    RunKeeps(kind, c, INIT, es);
    var qs := RunFrom(kind, c, INIT, es).charges;
    SequentialRuns(kind, c, qs);
    SequentialInOrder(kind, c, qs);
    SequentialBound(kind, c, qs, s, t);
    SlackWithoutExpiry(c, 0, CountOf(qs, s, t));
  }

  // ---------------------------------------------------------------- the store

  /** At `at`, the two keys read as the machine's pair. */
  predicate Matches(s: State, f: Store.Flat, levelKey: string, tsKey: string, at: int) {
    Store.Live(f.values, levelKey, at).value == s.pair.milli && Store.Live(f.values, tsKey, at).value == s.pair.last
  }

  /** The step makes a store call: every one but the clock reading and a denial. */
  predicate Calls(kind: Kind, c: Config, s: State, e: Event)
    requires Positive(c) && Possible(s, e)
  {
    match e
    case Begin(_, _, _) => false
    case Swap(id) => Decide(kind, c, s.evals[id].seen, s.evals[id].now, s.evals[id].cost).Admitted?
    case _ => true
  }

  function CallOf(kind: Kind, c: Config, s: State, e: Event, levelKey: string, tsKey: string, ttl: int): Store.Op
    requires Positive(c) && Possible(s, e) && Calls(kind, c, s, e)
  {
    match e
    case ReadLevel(_) => Store.Op.Get(levelKey)
    case ReadTime(_) => Store.Op.Get(tsKey)
    case Swap(id) =>
      var v := s.evals[id];
      Store.CompareAndSwap(levelKey, v.seen.milli, Decide(kind, c, v.seen, v.now, v.cost).milli, ttl)
    case Stamp(id) => Store.Op.Set(tsKey, s.evals[id].now, ttl)
  }

  /** The machine's steps are the flat store's calls on the two keys: each evaluation goes on with the store's
      reply, from its reads again if the swap failed, and machine and store stay in step; a denial calls nothing
      and changes nothing. */
  lemma StepsAreStoreSteps(kind: Kind, c: Config, s: State, e: Event, f: Store.Flat, levelKey: string, tsKey: string,
                           ttl: int, at: int)
    requires Positive(c) && Possible(s, e) && Matches(s, f, levelKey, tsKey, at) && levelKey != tsKey && ttl > 0
    ensures var s' := Apply(kind, c, s, e);
            if !Calls(kind, c, s, e) then s'.pair == s.pair && s'.charges == s.charges
            else
              var (f', r) := Store.FlatStep(f, CallOf(kind, c, s, e, levelKey, tsKey, ttl), at);
              && Matches(s', f', levelKey, tsKey, at)
              && match e
                 case ReadLevel(id) => r == Store.Value(s'.evals[id].milli)
                 case ReadTime(id) => r == Store.Value(s'.evals[id].seen.last)
                 case Swap(id) =>
                   && r == Store.Swapped(s'.evals[id].Swapped?)
                   && (!r.ok ==> s'.evals[id] == Begun(s.evals[id].now, s.evals[id].cost))
                 case Stamp(_) => r == Store.Done
  {
  }

  /** They stay in step as time passes, until one of the two keys expires. */
  lemma MatchesLater(s: State, f: Store.Flat, levelKey: string, tsKey: string, at: int, later: int)
    requires Matches(s, f, levelKey, tsKey, at) && at <= later
    requires levelKey in f.values ==> Store.Expired(f.values[levelKey], later) == Store.Expired(f.values[levelKey], at)
    requires tsKey in f.values ==> Store.Expired(f.values[tsKey], later) == Store.Expired(f.values[tsKey], at)
    ensures Matches(s, f, levelKey, tsKey, later)
  {
  }
}
