/** The allocation loop, and the health-aware allocator that reruns it. */
module RegionAllocator {
  import opened Region

  /** Drops unnamed and weightless regions, adding up the rest. */
  method FilterUsable(weights: seq<RegionWeight>) returns (valid: seq<RegionWeight>, totalWeight: int)
    ensures valid == Kept(weights) && totalWeight == Total(valid)
  {
    valid, totalWeight := [], 0;
    for i := 0 to |weights|
      invariant valid == Kept(weights[..i]) && totalWeight == Total(valid)
    {
      assert weights[..i + 1][..i] == weights[..i];
      var w := weights[i];
      if w.region == "" || w.weight <= 0 { continue; }
      TotalSnoc(valid, w);
      valid := valid + [w];
      totalWeight := totalWeight + w.weight;
    }
    assert weights[..|weights|] == weights;
  }

  /** Hands out the floors in order, and the rest to the last region. */
  method AssignShares(globalLimit: int, valid: seq<RegionWeight>, totalWeight: int) returns (out: seq<Allocation>)
    requires totalWeight > 0
    ensures out == Shares(globalLimit, valid, totalWeight, 0, 0)
  {
    var given := 0;
    out := [];
    for i := 0 to |valid|
      invariant out + Shares(globalLimit, valid, totalWeight, i, given) == Shares(globalLimit, valid, totalWeight, 0, 0)
    {
      var limit := FloorShare(globalLimit, valid[i].weight, totalWeight);
      if i == |valid| - 1 { limit := globalLimit - given; }
      if limit < 0 { limit := 0; }
      var share := Allocation(valid[i].region, limit);
      assert out + ([share] + Shares(globalLimit, valid, totalWeight, i + 1, given + limit))
          == (out + [share]) + Shares(globalLimit, valid, totalWeight, i + 1, given + limit);
      out := out + [share];
      given := given + limit;
    }
  }

  method AllocateGlobalLimit(globalLimit: int, weights: seq<RegionWeight>) returns (out: seq<Allocation>)
    ensures out == Allocate(globalLimit, weights)
  {
    if globalLimit <= 0 || |weights| == 0 { return []; }
    var valid, totalWeight := FilterUsable(weights);
    KeptUsable(weights);
    if totalWeight == 0 { return []; }
    valid := ByName(valid);
    out := AssignShares(globalLimit, valid, totalWeight);
  }

  // ---------------------------------------------------------------- health

  datatype Health = Healthy | Degraded | Unhealthy
  datatype Status = Status(health: Health, lastHeartbeat: int, usage: int)

  /** The weights that take part: all regions not marked unhealthy. */
  function Up(ws: seq<RegionWeight>, health: map<string, Status>): seq<RegionWeight> {
    if ws == [] then []
    else
      var w := ws[|ws| - 1];
      if w.region in health && health[w.region].health != Unhealthy then Up(ws[..|ws| - 1], health) + [w]
      else Up(ws[..|ws| - 1], health)
  }

  /** With every region unhealthy, all take part. */
  function TakingPart(ws: seq<RegionWeight>, health: map<string, Status>): seq<RegionWeight> {
    if Up(ws, health) == [] then ws else Up(ws, health)
  }

  function Rebalance(limit: int, ws: seq<RegionWeight>, health: map<string, Status>): seq<Allocation> {
    Allocate(limit, TakingPart(ws, health))
  }

  datatype State = State(health: map<string, Status>, allocations: seq<Allocation>)

  datatype Event =
    | Heartbeat(region: string, usage: int, now: int)
    | CheckHealth(now: int)
    | DrainRegion(region: string)
    | RestoreRegion(region: string, now: int)

  predicate Silent(s: Status, ttl: int, now: int) {
    now - s.lastHeartbeat > ttl && s.health != Unhealthy
  }

  function Checked(health: map<string, Status>, ttl: int, now: int): map<string, Status> {
    map r | r in health :: if Silent(health[r], ttl, now) then health[r].(health := Unhealthy) else health[r]
  }

  function Apply(limit: int, ws: seq<RegionWeight>, ttl: int, s: State, e: Event): State {
    match e
    case Heartbeat(r, usage, now) =>
      if r !in s.health then s
      else if s.health[r].health == Unhealthy then
        var health := s.health[r := Status(Healthy, now, usage)];
        State(health, Rebalance(limit, ws, health))
      else s.(health := s.health[r := Status(s.health[r].health, now, usage)])
    case CheckHealth(now) =>
      if exists r :: r in s.health && Silent(s.health[r], ttl, now) then
        var health := Checked(s.health, ttl, now);
        State(health, Rebalance(limit, ws, health))
      else s
    case DrainRegion(r) =>
      if r !in s.health then s
      else
        var health := s.health[r := s.health[r].(health := Unhealthy)];
        State(health, Rebalance(limit, ws, health))
    case RestoreRegion(r, now) =>
      if r !in s.health then s
      else
        var health := s.health[r := s.health[r].(health := Healthy, lastHeartbeat := now)];
        State(health, Rebalance(limit, ws, health))
  }

  /** Every configured region starts healthy. */
  function Initial(ws: seq<RegionWeight>, now: int): map<string, Status> {
    if ws == [] then map[] else Initial(ws[..|ws| - 1], now)[ws[|ws| - 1].region := Status(Healthy, now, 0)]
  }

  function Run(limit: int, ws: seq<RegionWeight>, ttl: int, s: State, es: seq<Event>): State
    decreases |es|
  {
    if es == [] then s else Run(limit, ws, ttl, Apply(limit, ws, ttl, s, es[0]), es[1..])
  }

  /** Only the unhealthy mark matters to the split. */
  lemma {:induction false} UpSame(ws: seq<RegionWeight>, a: map<string, Status>, b: map<string, Status>)
    requires a.Keys == b.Keys && forall r :: r in a ==> (a[r].health == Unhealthy <==> b[r].health == Unhealthy)
    ensures Up(ws, a) == Up(ws, b)
  {
    if ws != [] { UpSame(ws[..|ws| - 1], a, b); }
  }

  lemma StepKeeps(limit: int, ws: seq<RegionWeight>, ttl: int, s: State, e: Event)
    requires s.allocations == Rebalance(limit, ws, s.health)
    ensures var s' := Apply(limit, ws, ttl, s, e); s'.allocations == Rebalance(limit, ws, s'.health)
  {
    if e.Heartbeat? && e.region in s.health && s.health[e.region].health != Unhealthy {
      UpSame(ws, s.health, Apply(limit, ws, ttl, s, e).health);
    }
  }

  lemma {:induction false} RunKeeps(limit: int, ws: seq<RegionWeight>, ttl: int, s: State, es: seq<Event>)
    requires s.allocations == Rebalance(limit, ws, s.health)
    ensures var s' := Run(limit, ws, ttl, s, es); s'.allocations == Rebalance(limit, ws, s'.health)
    decreases |es|
  {
    if es != [] {
      StepKeeps(limit, ws, ttl, s, es[0]);
      RunKeeps(limit, ws, ttl, Apply(limit, ws, ttl, s, es[0]), es[1..]);
    }
  }

  // ---------------------------------------------------------------- who holds what

  predicate Holds(out: seq<Allocation>, region: string) {
    exists i :: 0 <= i < |out| && out[i].region == region
  }

  predicate Offers(ws: seq<RegionWeight>, region: string) {
    exists w :: w in ws && Usable(w) && w.region == region
  }

  lemma ShareNeedsWeight(limit: int, ws: seq<RegionWeight>, i: nat)
    requires i < |Allocate(limit, ws)|
    ensures limit > 0 && Offers(ws, Allocate(limit, ws)[i].region)
  {
    KeptElements(ws);
    KeptUsable(ws);
    ProportionalSplit(limit, ws);
    ByNameKeeps(Kept(ws));
    assert ByName(Kept(ws))[i] in Kept(ws);
  }

  lemma WeightGetsShare(limit: int, ws: seq<RegionWeight>, w: RegionWeight)
    requires limit > 0 && w in ws && Usable(w)
    ensures Holds(Allocate(limit, ws), w.region)
  {
    KeptElements(ws);
    ProportionalSplit(limit, ws);
    ByNameKeeps(Kept(ws));
    var v := ByName(Kept(ws));
    assert w in v;
    var i :| 0 <= i < |v| && v[i] == w;
    assert Allocate(limit, ws)[i].region == w.region;
  }

  /** A split of a positive limit gives a share to exactly the usable regions: named, and of positive weight. */
  lemma AllocatedRegions(limit: int, ws: seq<RegionWeight>, region: string)
    ensures Holds(Allocate(limit, ws), region) <==> limit > 0 && Offers(ws, region)
    ensures Offers(ws, region) <==> region != "" && exists w :: w in ws && w.region == region && w.weight > 0
  {
    if i :| 0 <= i < |Allocate(limit, ws)| && Allocate(limit, ws)[i].region == region {
      ShareNeedsWeight(limit, ws, i);
    }
    if limit > 0 && Offers(ws, region) {
      var w :| w in ws && Usable(w) && w.region == region;
      WeightGetsShare(limit, ws, w);
    }
  }

  lemma {:induction false} UpFacts(ws: seq<RegionWeight>, health: map<string, Status>)
    ensures forall w :: w in Up(ws, health) <==> w in ws && w.region in health && health[w.region].health != Unhealthy
  {
    if ws != [] {
      UpFacts(ws[..|ws| - 1], health);
      assert ws == ws[..|ws| - 1] + [ws[|ws| - 1]];
    }
  }

  lemma SplitSum(limit: int, ws: seq<RegionWeight>)
    ensures Sum(Allocate(limit, ws)) == if limit > 0 && (exists w :: w in ws && Usable(w)) then limit else 0
  {
    KeptElements(ws);
    if Kept(ws) != [] {
      assert Kept(ws)[0] in ws && Usable(Kept(ws)[0]);
      if limit > 0 { ProportionalSplit(limit, ws); }
    }
  }

  /** After any sequence of operations the allocations are the split of the whole limit over the regions
      not unhealthy, or over all when every one is.  They sum to the limit whenever one of those is
      usable, exactly the usable ones hold a share, and a region marked unhealthy holds one only when
      all regions are unhealthy. */
  lemma AllocatorInvariant(limit: int, ws: seq<RegionWeight>, ttl: int, now: int, es: seq<Event>, region: string)
    ensures var start := Initial(ws, now);
            var s := Run(limit, ws, ttl, State(start, Rebalance(limit, ws, start)), es);
            var part := TakingPart(ws, s.health);
            && s.allocations == Rebalance(limit, ws, s.health)
            && Sum(s.allocations) == (if limit > 0 && (exists w :: w in part && Usable(w)) then limit else 0)
            && (Holds(s.allocations, region) <==> limit > 0 && Offers(part, region))
            && (Up(ws, s.health) != [] && region in s.health && s.health[region].health == Unhealthy ==>
                  !Holds(s.allocations, region))
  {
    var start := Initial(ws, now);
    RunKeeps(limit, ws, ttl, State(start, Rebalance(limit, ws, start)), es);
    var s := Run(limit, ws, ttl, State(start, Rebalance(limit, ws, start)), es);
    UpFacts(ws, s.health);
    SplitSum(limit, TakingPart(ws, s.health));
    AllocatedRegions(limit, TakingPart(ws, s.health), region);
  }

  // ---------------------------------------------------------------- which regions are down

  /** The event is a sign of life of the region: a heartbeat or a restore. */
  predicate Revives(e: Event, region: string) {
    (e.Heartbeat? || e.RestoreRegion?) && e.region == region
  }

  /** When the region last gave one; at first, when the allocator was made. */
  function LastSign(es: seq<Event>, region: string, made: int): int {
    if es == [] then made
    else if Revives(es[|es| - 1], region) then es[|es| - 1].now
    else LastSign(es[..|es| - 1], region, made)
  }

  /** Event `i` takes the region down: it drains it, or is a check that finds it silent for longer than the ttl. */
  predicate TakesDown(es: seq<Event>, i: nat, region: string, ttl: int, made: int)
    requires i < |es|
  {
    match es[i]
    case DrainRegion(r) => r == region
    case CheckHealth(now) => now - LastSign(es[..i], region, made) > ttl
    case _ => false
  }

  /** Something took the region down, and it has given no sign since. */
  predicate Down(es: seq<Event>, region: string, ttl: int, made: int) {
    exists i :: 0 <= i < |es| && TakesDown(es, i, region, ttl, made) &&
      forall j :: i < j < |es| ==> !Revives(es[j], region)
  }

  function LastUsage(es: seq<Event>, region: string): int {
    if es == [] then 0
    else
      var e := es[|es| - 1];
      if e.Heartbeat? && e.region == region then e.usage else LastUsage(es[..|es| - 1], region)
  }

  lemma DownSnoc(es: seq<Event>, e: Event, region: string, ttl: int, made: int)
    ensures Down(es + [e], region, ttl, made) <==>
            TakesDown(es + [e], |es|, region, ttl, made) || (Down(es, region, ttl, made) && !Revives(e, region))
  {
    var all := es + [e];
    forall i | 0 <= i < |es|
      ensures TakesDown(all, i, region, ttl, made) == TakesDown(es, i, region, ttl, made)
    {
      assert all[..i] == es[..i] && all[i] == es[i];
    }
    if Down(es, region, ttl, made) && !Revives(e, region) {
      var i :| 0 <= i < |es| && TakesDown(es, i, region, ttl, made) &&
               forall j :: i < j < |es| ==> !Revives(es[j], region);
      assert TakesDown(all, i, region, ttl, made);
    }
    if Down(all, region, ttl, made) && !TakesDown(all, |es|, region, ttl, made) {
      var i :| 0 <= i < |all| && TakesDown(all, i, region, ttl, made) &&
               forall j :: i < j < |all| ==> !Revives(all[j], region);
      assert TakesDown(es, i, region, ttl, made);
      assert forall j :: i < j < |es| ==> es[j] == all[j];
      assert !Revives(all[|es|], region);
    }
  }

  lemma {:induction false} RunSnoc(limit: int, ws: seq<RegionWeight>, ttl: int, s: State, es: seq<Event>, e: Event)
    ensures Run(limit, ws, ttl, s, es + [e]) == Apply(limit, ws, ttl, Run(limit, ws, ttl, s, es), e)
    decreases |es|
  {
    if es == [] {
      assert es + [e] == [e] && [e][1..] == [];
    } else {
      assert (es + [e])[1..] == es[1..] + [e];
      RunSnoc(limit, ws, ttl, Apply(limit, ws, ttl, s, es[0]), es[1..], e);
    }
  }

  predicate Configured(ws: seq<RegionWeight>, region: string) {
    exists w :: w in ws && w.region == region
  }

  lemma {:induction false} InitialRegions(ws: seq<RegionWeight>, now: int, region: string)
    ensures region in Initial(ws, now) <==> Configured(ws, region)
    ensures region in Initial(ws, now) ==> Initial(ws, now)[region] == Status(Healthy, now, 0)
  {
    if ws != [] {
      var init, last := ws[..|ws| - 1], ws[|ws| - 1];
      InitialRegions(init, now, region);
      assert ws == init + [last];
      if Configured(init, region) {
        var w :| w in init && w.region == region;
        assert w in ws;
      }
      if last.region == region { assert last in ws; }
    }
  }

  /** What the health table says of one region: its mark, its last sign of life and its last reported usage. */
  predicate Tells(health: map<string, Status>, es: seq<Event>, region: string, ttl: int, made: int) {
    && region in health
    && (health[region].health == Unhealthy <==> Down(es, region, ttl, made))
    && health[region].lastHeartbeat == LastSign(es, region, made)
    && health[region].usage == LastUsage(es, region)
  }

  lemma TellsSnoc(limit: int, ws: seq<RegionWeight>, ttl: int, s: State, es: seq<Event>, e: Event, region: string,
                  made: int)
    requires Tells(s.health, es, region, ttl, made)
    ensures Tells(Apply(limit, ws, ttl, s, e).health, es + [e], region, ttl, made)
  {
    var all := es + [e];
    assert all[..|es|] == es && all[|es|] == e;
    DownSnoc(es, e, region, ttl, made);
  }

  /** After any run, a configured region is marked unhealthy if and only if it was drained, or a check found it
      silent for longer than the ttl, and it has sent no heartbeat and has not been restored since; what happens
      to other regions does not matter. */
  lemma {:induction false} UnhealthyIff(limit: int, ws: seq<RegionWeight>, ttl: int, now: int, es: seq<Event>,
                                        region: string)
    ensures var start := Initial(ws, now);
            var s := Run(limit, ws, ttl, State(start, Rebalance(limit, ws, start)), es);
            if Configured(ws, region) then Tells(s.health, es, region, ttl, now) else region !in s.health
  {
    var start := Initial(ws, now);
    var s0 := State(start, Rebalance(limit, ws, start));
    InitialRegions(ws, now, region);
    if es != [] {
      var init, last := es[..|es| - 1], es[|es| - 1];
      UnhealthyIff(limit, ws, ttl, now, init, region);
      RunSnoc(limit, ws, ttl, s0, init, last);
      assert es == init + [last];
      if Configured(ws, region) {
        TellsSnoc(limit, ws, ttl, Run(limit, ws, ttl, s0, init), init, last, region, now);
      }
    }
  }

  // ---------------------------------------------------------------- the code

  class DynamicAllocator {
    const globalLimit: int
    const weights: seq<RegionWeight>
    const heartbeatTtl: int
    var health: map<string, Status>
    var allocations: seq<Allocation>

    ghost function View(): State
      reads this
    {
      State(health, allocations)
    }

    constructor (globalLimit: int, weights: seq<RegionWeight>, heartbeatTtl: int, now: int)
      ensures this.globalLimit == globalLimit && this.weights == weights
      ensures this.heartbeatTtl == if heartbeatTtl <= 0 then 30_000_000_000 else heartbeatTtl
      ensures View() == State(Initial(weights, now), Rebalance(globalLimit, weights, Initial(weights, now)))
    {
      this.globalLimit := globalLimit;
      this.weights := weights;
      this.heartbeatTtl := if heartbeatTtl <= 0 then 30_000_000_000 else heartbeatTtl;
      this.health := map[];
      this.allocations := [];
      new;
      for i := 0 to |weights|
        invariant health == Initial(weights[..i], now)
      {
        assert weights[..i + 1][..i] == weights[..i];
        health := health[weights[i].region := Status(Healthy, now, 0)];
      }
      assert weights[..|weights|] == weights;
      RebalanceLocked();
    }

    method RebalanceLocked()
      modifies `allocations
      ensures allocations == Rebalance(globalLimit, weights, health)
    {
      var up: seq<RegionWeight> := [];
      for i := 0 to |weights|
        invariant up == Up(weights[..i], health)
      {
        assert weights[..i + 1][..i] == weights[..i];
        var w := weights[i];
        if w.region in health && health[w.region].health != Unhealthy { up := up + [w]; }
      }
      assert weights[..|weights|] == weights;
      if |up| == 0 {
        allocations := AllocateGlobalLimit(globalLimit, weights);
        return;
      }
      allocations := AllocateGlobalLimit(globalLimit, up);
    }

    method Heartbeat(region: string, usage: int, now: int)
      modifies this
      ensures View() == Apply(globalLimit, weights, heartbeatTtl, old(View()), Event.Heartbeat(region, usage, now))
    {
      if region in health {
        var s := health[region].(lastHeartbeat := now, usage := usage);
        health := health[region := s];
        if s.health == Unhealthy {
          health := health[region := s.(health := Healthy)];
          assert health == old(health)[region := Status(Healthy, now, usage)];
          RebalanceLocked();
        }
      }
    }

    method CheckHealth(now: int)
      modifies this
      ensures View() == Apply(globalLimit, weights, heartbeatTtl, old(View()), Event.CheckHealth(now))
    {
      var before, rest, changed := health, health.Keys, false;
      while rest != {}
        invariant rest <= before.Keys && allocations == old(allocations)
        invariant changed <==> exists r :: r in before && r !in rest && Silent(before[r], heartbeatTtl, now)
        invariant health == map r | r in before ::
          if r !in rest && Silent(before[r], heartbeatTtl, now) then before[r].(health := Unhealthy) else before[r]
        decreases |rest|
      {
        var r :| r in rest;
        rest := rest - {r};
        var s := health[r];
        if now - s.lastHeartbeat > heartbeatTtl && s.health != Unhealthy {
          health := health[r := s.(health := Unhealthy)];
          changed := true;
        }
      }
      assert health == Checked(before, heartbeatTtl, now);
      if changed {
        RebalanceLocked();
      } else {
        assert health == before;
      }
    }

    method DrainRegion(region: string)
      modifies this
      ensures View() == Apply(globalLimit, weights, heartbeatTtl, old(View()), Event.DrainRegion(region))
    {
      if region in health {
        health := health[region := health[region].(health := Unhealthy)];
        RebalanceLocked();
      }
    }

    method RestoreRegion(region: string, now: int)
      modifies this
      ensures View() == Apply(globalLimit, weights, heartbeatTtl, old(View()), Event.RestoreRegion(region, now))
    {
      if region in health {
        health := health[region := health[region].(health := Healthy, lastHeartbeat := now)];
        RebalanceLocked();
      }
    }
  }
}
