/** The policy cache: expiring items, least-recently-set eviction, and singleflight loading.

    GetOrLoad is a machine over its critical sections; each thread is one call of it.  Loaders,
    external Set and Invalidate calls and sweeps interleave freely. */
module PolicyCache {
  import opened Common

  type Policies = seq<string>
  datatype Outcome = Loaded(policies: Policies) | Failed(error: string)
  datatype Entry = Entry(policies: Policies, expiry: int, lastUsed: int)
  type Items = map<string, Entry>

  // ---------------------------------------------------------------- items

  function Lookup(items: Items, ns: string, now: int): Option<Policies> {
    if ns in items && now <= items[ns].expiry then Some(items[ns].policies) else None
  }

  function Swept(items: Items, now: int): Items {
    map ns | ns in items && now <= items[ns].expiry :: items[ns]
  }

  predicate Oldest(items: Items, victim: string) {
    victim in items && forall ns :: ns in items ==> items[victim].lastUsed <= items[ns].lastUsed
  }

  /** The empty namespace is never evicted, even when it is the oldest. */
  function Evicted(items: Items, victim: string): Items {
    if victim == "" then items else items - {victim}
  }

  /** Set, with the victim the map iteration happens to find among the oldest entries. */
  function Stored(items: Items, ns: string, policies: Policies, ttl: int, maxItems: int, victim: string,
                  now: int): Items {
    var items' := items[ns := Entry(policies, now + ttl, now)];
    if maxItems > 0 && |items'| > maxItems then Evicted(items', victim) else items'
  }

  // ---------------------------------------------------------------- singleflight

  /** One in-flight or completed load. */
  datatype Flight = Flight(ns: string, leader: nat, outcome: Option<Outcome>, done: bool)

  datatype Thread =
    | Missed(ns: string)                       // after the cache miss
    | Waiting(ns: string, flight: nat)
    | Loading(ns: string, flight: nat)         // leader, loader running
    | Filling(ns: string, flight: nat)         // leader, loader returned, about to Set
    | Signalling(ns: string, flight: nat)      // leader, about to wake the waiters
    | Cleaning(ns: string, flight: nat)        // leader, about to delete the entry
    | Hit(policies: Policies)                  // returned from the cache
    | Returned(flight: nat, outcome: Outcome)  // returned what a flight delivered

  datatype State = State(
    items: Items,
    calls: map<string, nat>,             // sfCalls
    flights: seq<Flight>,
    threads: map<nat, Thread>,
    loads: seq<(nat, Outcome)>)          // bookkeeping: what each loader call returned, by flight

  const INIT: State := State(map[], map[], [], map[], [])

  datatype Config = Config(ttl: int, maxItems: int)

  datatype Event =
    | Get(t: nat, ns: string, now: int)
    | Enter(t: nat)
    | LoaderReturns(t: nat, outcome: Outcome)
    | Fill(t: nat, victim: string, now: int)
    | Signal(t: nat)
    | Clean(t: nat)
    | Wake(t: nat)
    | Set(ns: string, policies: Policies, victim: string, now: int)
    | Invalidate(ns: string)
    | Sweep(now: int)

  predicate Leads(th: Thread) {
    th.Loading? || th.Filling? || th.Signalling? || th.Cleaning?
  }

  predicate LeadsFor(s: State, t: nat, ns: string) {
    t in s.threads && Leads(s.threads[t]) && s.threads[t].ns == ns
  }

  predicate Enabled(s: State, e: Event) {
    match e
    case Get(t, _, _) => t !in s.threads
    case Enter(t) => t in s.threads && s.threads[t].Missed?
    case LoaderReturns(t, _) => t in s.threads && s.threads[t].Loading? && s.threads[t].flight < |s.flights|
    case Fill(t, _, _) =>
      && t in s.threads && s.threads[t].Filling? && s.threads[t].flight < |s.flights|
      && s.flights[s.threads[t].flight].outcome.Some?
    case Signal(t) => t in s.threads && s.threads[t].Signalling? && s.threads[t].flight < |s.flights|
    case Clean(t) =>
      && t in s.threads && s.threads[t].Cleaning? && s.threads[t].flight < |s.flights|
      && s.flights[s.threads[t].flight].outcome.Some?
    case Wake(t) =>
      && t in s.threads && s.threads[t].Waiting? && s.threads[t].flight < |s.flights|
      && s.flights[s.threads[t].flight].done && s.flights[s.threads[t].flight].outcome.Some?
    case _ => true
  }

  function Apply(c: Config, s: State, e: Event): State
    requires Enabled(s, e)
  {
    match e
    case Get(t, ns, now) =>
      var hit := Lookup(s.items, ns, now);
      s.(threads := s.threads[t := if hit.Some? then Hit(hit.value) else Missed(ns)])
    case Enter(t) =>
      var ns := s.threads[t].ns;
      if ns in s.calls then s.(threads := s.threads[t := Waiting(ns, s.calls[ns])])
      else
        s.(calls := s.calls[ns := |s.flights|],
           flights := s.flights + [Flight(ns, t, None, false)],
           threads := s.threads[t := Loading(ns, |s.flights|)])
    case LoaderReturns(t, outcome) =>
      var th := s.threads[t];
      s.(flights := s.flights[th.flight := s.flights[th.flight].(outcome := Some(outcome))],
         threads := s.threads[t := Filling(th.ns, th.flight)],
         loads := s.loads + [(th.flight, outcome)])
    case Fill(t, victim, now) =>
      var th := s.threads[t];
      var outcome := s.flights[th.flight].outcome.value;
      s.(items := if outcome.Loaded? then Stored(s.items, th.ns, outcome.policies, c.ttl, c.maxItems, victim, now)
                  else s.items,
         threads := s.threads[t := Signalling(th.ns, th.flight)])
    case Signal(t) =>
      var th := s.threads[t];
      s.(flights := s.flights[th.flight := s.flights[th.flight].(done := true)],
         threads := s.threads[t := Cleaning(th.ns, th.flight)])
    case Clean(t) =>
      var th := s.threads[t];
      s.(calls := s.calls - {th.ns}, threads := s.threads[t := Returned(th.flight, s.flights[th.flight].outcome.value)])
    case Wake(t) =>
      var th := s.threads[t];
      s.(threads := s.threads[t := Returned(th.flight, s.flights[th.flight].outcome.value)])
    case Set(ns, policies, victim, now) => s.(items := Stored(s.items, ns, policies, c.ttl, c.maxItems, victim, now))
    case Invalidate(ns) => s.(items := s.items - {ns})
    case Sweep(now) => s.(items := Swept(s.items, now))
  }

  // ---------------------------------------------------------------- invariant

  /** An entry of sfCalls belongs to a leader at work on that namespace and flight. */
  predicate CallOk(s: State, ns: string)
    requires ns in s.calls
  {
    var f := s.calls[ns];
    && f < |s.flights|
    && s.flights[f].leader in s.threads
    && Leads(s.threads[s.flights[f].leader])
    && s.threads[s.flights[f].leader].ns == ns
    && s.threads[s.flights[f].leader].flight == f
  }

  predicate ThreadOk(s: State, t: nat)
    requires t in s.threads
  {
    var th := s.threads[t];
    && (Leads(th) ==>
          && th.ns in s.calls && s.calls[th.ns] == th.flight < |s.flights|
          && s.flights[th.flight].leader == t
          && (s.flights[th.flight].outcome.Some? <==> !th.Loading?))
    && (th.Waiting? ==> th.flight < |s.flights| && s.flights[th.flight].ns == th.ns)
    && (th.Returned? ==> th.flight < |s.flights| && s.flights[th.flight].outcome == Some(th.outcome))
  }

  /** A flight has an outcome exactly when its one loader call has returned, and it is that one. */
  predicate FlightOk(s: State, f: nat)
    requires f < |s.flights|
  {
    && (s.flights[f].done ==> s.flights[f].outcome.Some?)
    && (!s.flights[f].done ==>
          var t := s.flights[f].leader;
          t in s.threads && Leads(s.threads[t]) && !s.threads[t].Cleaning? && s.threads[t].flight == f)
    && (forall i :: 0 <= i < |s.loads| && s.loads[i].0 == f ==> s.flights[f].outcome == Some(s.loads[i].1))
    && (s.flights[f].outcome.Some? ==> (f, s.flights[f].outcome.value) in s.loads)
  }

  ghost predicate Inv(s: State) {
    && (forall ns :: ns in s.calls ==> CallOk(s, ns))
    && (forall ns :: ns in s.calls ==> s.flights[s.calls[ns]].ns == ns)
    && (forall t :: t in s.threads ==> ThreadOk(s, t))
    && (forall f :: 0 <= f < |s.flights| ==> FlightOk(s, f))
    && (forall i :: 0 <= i < |s.loads| ==> s.loads[i].0 < |s.flights|)
    && (forall i, j :: 0 <= i < j < |s.loads| ==> s.loads[i].0 != s.loads[j].0)
  }

  lemma JoinKeeps(c: Config, s: State, e: Event)
    requires Inv(s) && e.Enter? && Enabled(s, e) && s.threads[e.t].ns in s.calls
    ensures Inv(Apply(c, s, e))
  {
    var s' := Apply(c, s, e);
    forall f | 0 <= f < |s'.flights| ensures FlightOk(s', f) { assert FlightOk(s, f); }
    forall t | t in s'.threads ensures ThreadOk(s', t) {
      if t == e.t { assert CallOk(s, s.threads[t].ns); } else { assert ThreadOk(s, t); }
    }
    forall ns | ns in s'.calls ensures CallOk(s', ns) { assert CallOk(s, ns); }
  }

  lemma LeadKeeps(c: Config, s: State, e: Event)
    requires Inv(s) && e.Enter? && Enabled(s, e) && s.threads[e.t].ns !in s.calls
    ensures Inv(Apply(c, s, e))
  {
    var s' := Apply(c, s, e);
    forall f | 0 <= f < |s'.flights| ensures FlightOk(s', f) {
      if f < |s.flights| { assert FlightOk(s, f); }
    }
    forall t | t in s'.threads ensures ThreadOk(s', t) {
      if t != e.t { assert ThreadOk(s, t); }
    }
    forall ns | ns in s'.calls ensures CallOk(s', ns) && s'.flights[s'.calls[ns]].ns == ns {
      if ns in s.calls { assert CallOk(s, ns); }
    }
  }

  lemma LoadKeeps(c: Config, s: State, e: Event)
    requires Inv(s) && e.LoaderReturns? && Enabled(s, e)
    ensures Inv(Apply(c, s, e))
  {
    var s' := Apply(c, s, e);
    assert ThreadOk(s, e.t);
    var g := s.threads[e.t].flight;
    assert FlightOk(s, g);
    forall f | 0 <= f < |s'.flights| ensures FlightOk(s', f) {
      assert FlightOk(s, f);
      if f == g { assert s'.loads[|s.loads|] == (g, e.outcome); }
    }
    forall t | t in s'.threads ensures ThreadOk(s', t) { assert ThreadOk(s, t); }
    forall ns | ns in s'.calls ensures CallOk(s', ns) { assert CallOk(s, ns); }
  }

  lemma SignalKeeps(c: Config, s: State, e: Event)
    requires Inv(s) && e.Signal? && Enabled(s, e)
    ensures Inv(Apply(c, s, e))
  {
    var s' := Apply(c, s, e);
    assert ThreadOk(s, e.t);
    forall f | 0 <= f < |s'.flights| ensures FlightOk(s', f) { assert FlightOk(s, f); }
    forall t | t in s'.threads ensures ThreadOk(s', t) { assert ThreadOk(s, t); }
    forall ns | ns in s'.calls ensures CallOk(s', ns) { assert CallOk(s, ns); }
  }

  lemma CleanKeeps(c: Config, s: State, e: Event)
    requires Inv(s) && e.Clean? && Enabled(s, e)
    ensures Inv(Apply(c, s, e))
  {
    var s' := Apply(c, s, e);
    assert ThreadOk(s, e.t);
    forall f | 0 <= f < |s'.flights| ensures FlightOk(s', f) { assert FlightOk(s, f); }
    forall t | t in s'.threads ensures ThreadOk(s', t) {
      assert ThreadOk(s, t);
      if t != e.t && Leads(s.threads[t]) { assert s.threads[t].ns != s.threads[e.t].ns; }
    }
    forall ns | ns in s'.calls ensures CallOk(s', ns) { assert CallOk(s, ns); }
  }

  /** The other steps change one thread's phase and the items only. */
  lemma OtherKeeps(c: Config, s: State, e: Event)
    requires Inv(s) && Enabled(s, e) && (e.Get? || e.Fill? || e.Wake? || e.Set? || e.Invalidate? || e.Sweep?)
    ensures Inv(Apply(c, s, e))
  {
    var s' := Apply(c, s, e);
    forall f | 0 <= f < |s'.flights| ensures FlightOk(s', f) { assert FlightOk(s, f); }
    forall t | t in s'.threads ensures ThreadOk(s', t) {
      if t in s.threads { assert ThreadOk(s, t); }
    }
    forall ns | ns in s'.calls ensures CallOk(s', ns) { assert CallOk(s, ns); }
  }

  predicate Runnable(c: Config, s: State, es: seq<Event>)
    decreases |es|
  {
    es == [] || (Enabled(s, es[0]) && Runnable(c, Apply(c, s, es[0]), es[1..]))
  }

  function Run(c: Config, s: State, es: seq<Event>): State
    requires Runnable(c, s, es)
    decreases |es|
  {
    if es == [] then s else Run(c, Apply(c, s, es[0]), es[1..])
  }

  lemma {:induction false} RunKeeps(c: Config, s: State, es: seq<Event>)
    requires Inv(s) && Runnable(c, s, es)
    ensures Inv(Run(c, s, es))
    decreases |es|
  {
    if es != [] {
      var e := es[0];
      if e.Enter? {
        if s.threads[e.t].ns in s.calls { JoinKeeps(c, s, e); } else { LeadKeeps(c, s, e); }
      }
      else if e.LoaderReturns? { LoadKeeps(c, s, e); }
      else if e.Signal? { SignalKeeps(c, s, e); }
      else if e.Clean? { CleanKeeps(c, s, e); }
      else { OtherKeeps(c, s, e); }
      RunKeeps(c, Apply(c, s, e), es[1..]);
    }
  }

  /** Two threads leading a load of the same namespace are the same thread; so loaders of one
      namespace never overlap.  A namespace is in sfCalls exactly while such a leader is at work. */
  lemma OneLeader(c: Config, es: seq<Event>, ns: string)
    requires Runnable(c, INIT, es)
    ensures var s := Run(c, INIT, es);
            && (forall t, u :: LeadsFor(s, t, ns) && LeadsFor(s, u, ns) ==> t == u)
            && (ns in s.calls <==> exists t :: LeadsFor(s, t, ns))
  {
    RunKeeps(c, INIT, es);
    var s := Run(c, INIT, es);
    assert forall t :: t in s.threads ==> ThreadOk(s, t);
    if ns in s.calls {
      assert CallOk(s, ns);
      assert LeadsFor(s, s.flights[s.calls[ns]].leader, ns);
    }
  }

  /** A thread that returned from a flight returned what that flight's loader returned; the loader of
      a flight ran once. */
  lemma WaitersGetLeadersOutcome(c: Config, es: seq<Event>, t: nat)
    requires Runnable(c, INIT, es)
    requires t in Run(c, INIT, es).threads && Run(c, INIT, es).threads[t].Returned?
    ensures var s := Run(c, INIT, es);
            var th := s.threads[t];
            && (th.flight, th.outcome) in s.loads
            && (forall i :: 0 <= i < |s.loads| && s.loads[i].0 == th.flight ==> s.loads[i].1 == th.outcome)
            && (forall i, j :: 0 <= i < j < |s.loads| ==> s.loads[i].0 != s.loads[j].0)
  {
    RunKeeps(c, INIT, es);
    var s := Run(c, INIT, es);
    assert ThreadOk(s, t);
    assert FlightOk(s, s.threads[t].flight);
  }

  /** Nobody waits in vain: a waiter's flight was opened for its namespace and has either been
      signalled, so the waiter can return, or its leader is still on the way to signalling it. */
  lemma WaitersWake(c: Config, es: seq<Event>, t: nat)
    requires Runnable(c, INIT, es)
    requires t in Run(c, INIT, es).threads && Run(c, INIT, es).threads[t].Waiting?
    ensures var s := Run(c, INIT, es);
            var f := s.threads[t].flight;
            && f < |s.flights| && s.flights[f].ns == s.threads[t].ns
            && if s.flights[f].done then Enabled(s, Wake(t))
               else var u := s.flights[f].leader;
                    && u in s.threads && Leads(s.threads[u]) && s.threads[u].flight == f
                    && (s.threads[u].Loading? || (s.threads[u].Filling? && Enabled(s, Fill(u, "", 0)))
                        || Enabled(s, Signal(u)))
  {
    RunKeeps(c, INIT, es);
    var s := Run(c, INIT, es);
    assert ThreadOk(s, t);
    var f := s.threads[t].flight;
    assert FlightOk(s, f);
    if !s.flights[f].done { assert ThreadOk(s, s.flights[f].leader); }
  }

  /** What is left for a leader to do when its loader has returned. */
  function Finish(t: nat, victim: string, now: int): seq<Event> {
    [Fill(t, victim, now), Signal(t), Clean(t)]
  }

  /** The state after the leader's last steps: it has returned its outcome, its flight is done, and nobody is at
      work on the namespace. */
  predicate Finished(s': State, s: State, t: nat)
    requires t in s.threads && Leads(s.threads[t]) && s.threads[t].flight < |s.flights|
    requires s.flights[s.threads[t].flight].outcome.Some?
  {
    var f := s.threads[t].flight;
    var outcome := s.flights[f].outcome;
    && t in s'.threads && s'.threads[t] == Returned(f, outcome.value) && s.threads[t].ns !in s'.calls
    && |s'.flights| == |s.flights| && s'.flights[f].done && s'.flights[f].outcome == outcome
    && forall u :: u in s.threads && u != t ==> u in s'.threads && s'.threads[u] == s.threads[u]
  }

  lemma LeaderFinishes(c: Config, s: State, t: nat, victim: string, now: int)
    requires Inv(s) && t in s.threads && s.threads[t].Filling?
    ensures var f := s.threads[t].flight;
            && f < |s.flights| && s.flights[f].outcome.Some?
            && Runnable(c, s, Finish(t, victim, now))
            && Finished(Run(c, s, Finish(t, victim, now)), s, t)
  {
    assert ThreadOk(s, t);
    var fill, signal, clean := Fill(t, victim, now), Signal(t), Clean(t);
    var s1 := Apply(c, s, fill);
    var s2 := Apply(c, s1, signal);
    RunCons(c, s2, clean, []);
    RunCons(c, s1, signal, [clean]);
    RunCons(c, s, fill, [signal, clean]);
    assert [clean] + [] == [clean] && [signal] + [clean] == [signal, clean];
    assert [fill] + [signal, clean] == Finish(t, victim, now);
  }

  /** In every reachable state: once a loader returns, its leader's own steps lead to its return with that outcome,
      after which every waiter of the flight can return the same, and the namespace is free to be loaded again. */
  lemma LoadCompletes(c: Config, es: seq<Event>, t: nat, outcome: Outcome, victim: string, now: int, u: nat)
    requires Runnable(c, INIT, es)
    requires t in Run(c, INIT, es).threads && Run(c, INIT, es).threads[t].Loading?
    ensures var s := Run(c, INIT, es);
            && Enabled(s, LoaderReturns(t, outcome))
            && var s1, f := Apply(c, s, LoaderReturns(t, outcome)), s.threads[t].flight;
               && Runnable(c, s1, Finish(t, victim, now))
               && var s2 := Run(c, s1, Finish(t, victim, now));
                  && t in s2.threads && s2.threads[t] == Returned(f, outcome) && s.threads[t].ns !in s2.calls
                  && (u in s.threads && s.threads[u].Waiting? && s.threads[u].flight == f ==>
                        Enabled(s2, Wake(u)) && Apply(c, s2, Wake(u)).threads[u] == Returned(f, outcome))
  {
    RunKeeps(c, INIT, es);
    var s := Run(c, INIT, es);
    assert ThreadOk(s, t);
    LoadKeeps(c, s, LoaderReturns(t, outcome));
    LeaderFinishes(c, Apply(c, s, LoaderReturns(t, outcome)), t, victim, now);
  }

  /** One loader at a time is not one load per miss: in every reachable state a caller past its miss loads
      if and only if nobody is at work on the namespace, whatever the cache holds by then. */
  lemma EnterLoadsIff(c: Config, es: seq<Event>, t: nat)
    requires Runnable(c, INIT, es) && Enabled(Run(c, INIT, es), Enter(t))
    ensures var s := Run(c, INIT, es);
            var ns, s' := s.threads[t].ns, Apply(c, s, Enter(t));
            && s'.items == s.items
            && (s'.threads[t].Loading? <==> !exists u :: LeadsFor(s, u, ns))
            && (s'.threads[t].Waiting? <==> exists u :: LeadsFor(s, u, ns))
  {
    OneLeader(c, es, Run(c, INIT, es).threads[t].ns);
  }

  /** For every namespace and configuration: a caller that missed loads again although the entry has been
      filled meanwhile and is fresh. */
  lemma LateEntrantLoadsAgain(c: Config, t: nat, ns: string, policies: Policies, now: int)
    requires c.ttl > 0 && c.maxItems > 0
    ensures var es := [Get(t, ns, now), Set(ns, policies, "", now), Enter(t)];
            && Runnable(c, INIT, es)
            && t in Run(c, INIT, es).threads && Run(c, INIT, es).threads[t].Loading?
            && Lookup(Run(c, INIT, es).items, ns, now) == Some(policies)
  {
    var get, fill, enter := Get(t, ns, now), Set(ns, policies, "", now), Enter(t);
    var s1 := Apply(c, INIT, get);
    var s2 := Apply(c, s1, fill);
    assert s2.items == map[ns := Entry(policies, now + c.ttl, now)];
    var s3 := Apply(c, s2, enter);
    RunCons(c, s2, enter, []);
    RunCons(c, s1, fill, [enter]);
    RunCons(c, INIT, get, [fill, enter]);
    assert [get] + [fill, enter] == [get, fill, enter] && [fill] + [enter] == [fill, enter] && [enter] + [] == [enter];
  }

  lemma RunCons(c: Config, s: State, e: Event, es: seq<Event>)
    requires Enabled(s, e) && Runnable(c, Apply(c, s, e), es)
    ensures Runnable(c, s, [e] + es) && Run(c, s, [e] + es) == Run(c, Apply(c, s, e), es)
  {
    assert ([e] + es)[1..] == es;
  }

  // ---------------------------------------------------------------- freshness

  /** Policies put under a namespace, by Set or by a leader that fills. */
  datatype Write = Write(ns: string, policies: Policies, at: int)

  function WriteOf(s: State, e: Event): Option<Write>
    requires Enabled(s, e)
  {
    match e
    case Set(ns, policies, _, now) => Some(Write(ns, policies, now))
    case Fill(t, _, now) =>
      var outcome := s.flights[s.threads[t].flight].outcome.value;
      if outcome.Loaded? then Some(Write(s.threads[t].ns, outcome.policies, now)) else None
    case _ => None
  }

  function NewWrites(s: State, e: Event): set<Write>
    requires Enabled(s, e)
  {
    if WriteOf(s, e).Some? then {WriteOf(s, e).value} else {}
  }

  function Writes(c: Config, s: State, es: seq<Event>): set<Write>
    requires Runnable(c, s, es)
    decreases |es|
  {
    if es == [] then {}
    else NewWrites(s, es[0]) + Writes(c, Apply(c, s, es[0]), es[1..])
  }

  /** Every entry was put there by one of the writes, and expires one ttl after it. */
  ghost predicate Backed(c: Config, items: Items, ws: set<Write>) {
    forall ns :: ns in items ==>
      items[ns].expiry == items[ns].lastUsed + c.ttl && Write(ns, items[ns].policies, items[ns].lastUsed) in ws
  }

  lemma StoredBacked(c: Config, items: Items, ns: string, policies: Policies, victim: string, now: int, ws: set<Write>)
    requires Backed(c, items, ws)
    ensures Backed(c, Stored(items, ns, policies, c.ttl, c.maxItems, victim, now), ws + {Write(ns, policies, now)})
  {
  }

  lemma StepBacked(c: Config, s: State, e: Event, ws: set<Write>)
    requires Enabled(s, e) && Backed(c, s.items, ws)
    ensures Backed(c, Apply(c, s, e).items, ws + NewWrites(s, e))
  {
    if WriteOf(s, e).Some? {
      var w := WriteOf(s, e).value;
      StoredBacked(c, s.items, w.ns, w.policies, e.victim, w.at, ws);
    }
  }

  lemma {:induction false} RunBacked(c: Config, s: State, es: seq<Event>, ws: set<Write>)
    requires Runnable(c, s, es) && Backed(c, s.items, ws)
    ensures Backed(c, Run(c, s, es).items, ws + Writes(c, s, es))
    decreases |es|
  {
    if es == [] {
      assert ws + {} == ws;
    } else {
      var s', ws' := Apply(c, s, es[0]), ws + NewWrites(s, es[0]);
      StepBacked(c, s, es[0], ws);
      RunBacked(c, s', es[1..], ws');
      assert ws + Writes(c, s, es) == ws' + Writes(c, s', es[1..]);
    }
  }

  /** Over every run, a hit returns policies that were put under that namespace no longer than one ttl ago. */
  lemma HitsAreFresh(c: Config, es: seq<Event>, t: nat, ns: string, now: int)
    requires Runnable(c, INIT, es) && t !in Run(c, INIT, es).threads
    ensures var th := Apply(c, Run(c, INIT, es), Get(t, ns, now)).threads[t];
            && (th.Hit? || th == Missed(ns))
            && (th.Hit? ==> exists at :: Write(ns, th.policies, at) in Writes(c, INIT, es) && now <= at + c.ttl)
  {
    RunBacked(c, INIT, es, {});
    assert {} + Writes(c, INIT, es) == Writes(c, INIT, es);
  }

  /** The event does not put anything else under `ns`, nor take its entry away before it has expired: it does not
      write or invalidate it, its eviction settles on another, and a sweep is no later than `now`. */
  predicate Spares(s: State, e: Event, ns: string, now: int)
    requires Enabled(s, e)
  {
    match e
    case Set(other, _, victim, _) => other != ns && victim != ns
    case Fill(t, victim, _) => s.threads[t].ns != ns && victim != ns
    case Invalidate(other) => other != ns
    case Sweep(at) => at <= now
    case _ => true
  }

  predicate SparesAll(c: Config, s: State, es: seq<Event>, ns: string, now: int)
    requires Runnable(c, s, es)
    decreases |es|
  {
    es == [] || (Spares(s, es[0], ns, now) && SparesAll(c, Apply(c, s, es[0]), es[1..], ns, now))
  }

  /** An entry is found as long as it has not expired, and not after, however often the cache is swept. */
  lemma {:induction false} EntryLasts(c: Config, s: State, es: seq<Event>, ns: string, policies: Policies, expiry: int,
                                      now: int)
    requires Runnable(c, s, es) && SparesAll(c, s, es, ns, now)
    requires Lookup(s.items, ns, now) == if now <= expiry then Some(policies) else None
    ensures Lookup(Run(c, s, es).items, ns, now) == if now <= expiry then Some(policies) else None
    decreases |es|
  {
    if es != [] { EntryLasts(c, Apply(c, s, es[0]), es[1..], ns, policies, expiry, now); }
  }

  /** What is put under a namespace, by Set or by a leader, and not evicted by the same call, is what Get returns
      for one ttl and no longer, until the namespace is written, invalidated or evicted. */
  lemma WriteThenGet(c: Config, s: State, e: Event, es: seq<Event>, now: int)
    requires Enabled(s, e) && WriteOf(s, e).Some? && e.victim != WriteOf(s, e).value.ns
    requires Runnable(c, Apply(c, s, e), es) && SparesAll(c, Apply(c, s, e), es, WriteOf(s, e).value.ns, now)
    ensures var w := WriteOf(s, e).value;
            Lookup(Run(c, Apply(c, s, e), es).items, w.ns, now) ==
            if now <= w.at + c.ttl then Some(w.policies) else None
  {
    var w := WriteOf(s, e).value;
    EntryLasts(c, Apply(c, s, e), es, w.ns, w.policies, w.at + c.ttl, now);
  }

  /** A sweep leaves exactly what a reader at its clock reading would still find; an invalidated namespace is not
      found; and a Set leaves every namespace but its own and the victim as it was. */
  lemma ItemsLeft(items: Items, ns: string, other: string, policies: Policies, ttl: int, maxItems: int, victim: string,
                  now: int, later: int)
    ensures other in Swept(items, now) <==> Lookup(items, other, now).Some?
    ensures now <= later ==> Lookup(Swept(items, now), other, later) == Lookup(items, other, later)
    ensures Lookup(items - {ns}, ns, later) == None
    ensures other != ns && other != victim ==>
      Lookup(Stored(items, ns, policies, ttl, maxItems, victim, now), other, later) == Lookup(items, other, later)
  {
  }

  /** The same of the machine's steps: a sweep leaves exactly what is found at its clock reading, an Invalidate does
      away with its namespace and with no other. */
  lemma StepsClear(c: Config, s: State, now: int, ns: string, other: string)
    ensures other in Apply(c, s, Sweep(now)).items <==> Lookup(s.items, other, now).Some?
    ensures other in Apply(c, s, Invalidate(ns)).items <==> other in s.items && other != ns
  {
  }

  // ---------------------------------------------------------------- the code

  class MemoryPolicyCache {
    const config: Config
    var items: Items
    var sfCalls: map<string, nat>
    var openedCount: nat     // flights opened so far

    constructor (ttl: int, maxItems: int)
      ensures items == map[] && sfCalls == map[] && openedCount == 0
      ensures config.ttl > 0 && config.maxItems > 0
      ensures config.ttl == if ttl > 0 then ttl else 30 * SECOND
      ensures config.maxItems == if maxItems > 0 then maxItems else 10_000
    {
      config := Config(if ttl <= 0 then 30_000_000_000 else ttl, if maxItems <= 0 then 10000 else maxItems);
      items, sfCalls, openedCount := map[], map[], 0;
    }

    method Get(ns: string, now: int) returns (hit: Option<Policies>)
      ensures hit == Lookup(items, ns, now)
    {
      if ns !in items || now > items[ns].expiry { return None; }
      hit := Some(items[ns].policies);
    }

    /** `victim` is the entry the eviction scan settled on, if it ran. */
    method Set(ns: string, policies: Policies, now: int) returns (victim: string)
      modifies `items
      ensures items == Stored(old(items), ns, policies, config.ttl, config.maxItems, victim, now)
      ensures config.maxItems > 0 && |old(items)[ns := Entry(policies, now + config.ttl, now)]| > config.maxItems ==>
        Oldest(old(items)[ns := Entry(policies, now + config.ttl, now)], victim)
    {
      items := items[ns := Entry(policies, now + config.ttl, now)];
      victim := "";
      if config.maxItems > 0 && |items| > config.maxItems {
        victim := EvictOldestLocked();
      }
    }

    method Invalidate(ns: string)
      modifies `items
      ensures items == old(items) - {ns}
    {
      items := items - {ns};
    }

    method Sweep(now: int)
      modifies `items
      ensures items == Swept(old(items), now)
    {
      var all := items;
      var rest := items.Keys;
      while rest != {}
        invariant rest <= all.Keys
        invariant items == map ns | ns in all && (ns in rest || now <= all[ns].expiry) :: all[ns]
        decreases |rest|
      {
        var ns :| ns in rest;
        rest := rest - {ns};
        if now > all[ns].expiry { items := items - {ns}; }
      }
    }

    method EvictOldestLocked() returns (victim: string)
      requires items != map[]
      modifies `items
      ensures Oldest(old(items), victim) && items == Evicted(old(items), victim)
    {
      var rest := items.Keys;
      var first :| first in rest;
      victim := first;
      rest := rest - {first};
      while rest != {}
        invariant rest <= items.Keys && victim in items && items == old(items)
        invariant forall ns :: ns in items && ns !in rest ==> items[victim].lastUsed <= items[ns].lastUsed
        decreases |rest|
      {
        var ns :| ns in rest;
        rest := rest - {ns};
        if items[ns].lastUsed < items[victim].lastUsed { victim := ns; }
      }
      if victim != "" { items := items - {victim}; }
    }

    /** The table of loads as the machine state has it. */
    ghost predicate Represents(s: State)
      reads this
    {
      sfCalls == s.calls && openedCount == |s.flights|
    }

    /** The first locked section of a miss: join the flight of the namespace or open one.  `s` is the
        state of the machine and `t` the caller. */
    method JoinOrLead(ns: string, ghost s: State, ghost t: nat) returns (flight: nat, leader: bool)
      requires Represents(s) && Enabled(s, Enter(t)) && s.threads[t].ns == ns
      modifies `sfCalls, `openedCount
      ensures var s' := Apply(config, s, Enter(t));
              Represents(s') && s'.threads[t] == if leader then Loading(ns, flight) else Waiting(ns, flight)
    {
      if ns in sfCalls {
        flight, leader := sfCalls[ns], false;
      } else {
        flight, leader := openedCount, true;
        openedCount := openedCount + 1;
        sfCalls := sfCalls[ns := flight];
      }
    }

    /** The last locked section of the leader. */
    method CleanUp(ns: string, ghost s: State, ghost t: nat)
      requires Represents(s) && Enabled(s, Clean(t)) && s.threads[t].ns == ns
      modifies `sfCalls
      ensures Represents(Apply(config, s, Clean(t)))
    {
      sfCalls := sfCalls - {ns};
    }
  }

  // ---------------------------------------------------------------- the cap

  /** Set keeps a cache within its cap unless the cap is passed and the oldest entry found is the empty
      namespace's. */
  lemma CapKeptIff(items: Items, ns: string, policies: Policies, ttl: int, maxItems: int, victim: string, now: int)
    requires maxItems > 0 && |items| <= maxItems
    requires var items' := items[ns := Entry(policies, now + ttl, now)]; |items'| > maxItems ==> Oldest(items', victim)
    ensures |Stored(items, ns, policies, ttl, maxItems, victim, now)| <= maxItems <==>
            ns in items || |items| < maxItems || victim != ""
  {
    var items' := items[ns := Entry(policies, now + ttl, now)];
    assert items'.Keys == items.Keys + {ns};
    assert victim in items' ==> (items' - {victim}).Keys == items'.Keys - {victim};
  }

  datatype SetCall = SetCall(ns: string, policies: Policies, victim: string, now: int)

  function StoreAll(c: Config, items: Items, calls: seq<SetCall>): Items {
    if calls == [] then items
    else
      var init, call := calls[..|calls| - 1], calls[|calls| - 1];
      Stored(StoreAll(c, items, init), call.ns, call.policies, c.ttl, c.maxItems, call.victim, call.now)
  }

  /** If the call evicts, its scan settled on an oldest entry. */
  predicate Settled(c: Config, items: Items, call: SetCall) {
    var items' := items[call.ns := Entry(call.policies, call.now + c.ttl, call.now)];
    c.maxItems > 0 && |items'| > c.maxItems ==> Oldest(items', call.victim)
  }

  ghost predicate Scanned(c: Config, items: Items, calls: seq<SetCall>) {
    calls == [] ||
      var init, call := calls[..|calls| - 1], calls[|calls| - 1];
      && Scanned(c, items, init)
      && Settled(c, StoreAll(c, items, init), call)
  }

  /** The empty namespace's entry is older than every other. */
  predicate Pinned(items: Items, since: int) {
    "" in items && items[""].lastUsed == since && forall ns :: ns in items && ns != "" ==> items[ns].lastUsed > since
  }

  function Names(calls: seq<SetCall>): set<string> {
    if calls == [] then {} else Names(calls[..|calls| - 1]) + {calls[|calls| - 1].ns}
  }

  lemma PinnedStays(c: Config, items: Items, since: int, call: SetCall)
    requires Pinned(items, since) && call.ns != "" && call.now > since && Settled(c, items, call)
    ensures var items' := Stored(items, call.ns, call.policies, c.ttl, c.maxItems, call.victim, call.now);
            Pinned(items', since) && items'.Keys == items.Keys + {call.ns}
  {
    var items' := items[call.ns := Entry(call.policies, call.now + c.ttl, call.now)];
    assert call.victim in items' && call.victim != "" ==> items'[call.victim].lastUsed > items'[""].lastUsed;
  }

  /** Once the empty namespace's entry is the oldest, later Sets of other namespaces evict nothing: the
      cache holds every one of them, however small its cap. */
  lemma {:induction false} EmptyNamespacePins(c: Config, items: Items, since: int, calls: seq<SetCall>)
    requires Pinned(items, since) && Scanned(c, items, calls)
    requires forall i :: 0 <= i < |calls| ==> calls[i].ns != "" && calls[i].now > since
    ensures Pinned(StoreAll(c, items, calls), since)
    ensures StoreAll(c, items, calls).Keys == items.Keys + Names(calls)
  {
    if calls != [] {
      var init, call := calls[..|calls| - 1], calls[|calls| - 1];
      EmptyNamespacePins(c, items, since, init);
      PinnedStays(c, StoreAll(c, items, init), since, call);
    }
  }
}
