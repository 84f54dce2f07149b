/** Splitting a global limit over regions, and keeping the split consistent with region health.

    Integers are unbounded: the product of limit and weight is taken not to overflow int64. */
module Region {
  import opened Text

  datatype RegionWeight = RegionWeight(region: string, weight: int)
  datatype Allocation = Allocation(region: string, limit: int)

  predicate Usable(w: RegionWeight) {
    w.region != "" && w.weight > 0
  }

  function Kept(ws: seq<RegionWeight>): seq<RegionWeight> {
    if ws == [] then []
    else if Usable(ws[|ws| - 1]) then Kept(ws[..|ws| - 1]) + [ws[|ws| - 1]]
    else Kept(ws[..|ws| - 1])
  }

  function Total(ws: seq<RegionWeight>): int {
    if ws == [] then 0 else Total(ws[..|ws| - 1]) + ws[|ws| - 1].weight
  }

  function Insert(ws: seq<RegionWeight>, w: RegionWeight): seq<RegionWeight> {
    if ws == [] || !Less(w.region, ws[|ws| - 1].region) then ws + [w]
    else Insert(ws[..|ws| - 1], w) + [ws[|ws| - 1]]
  }

  /** The library sort by region name; names are taken to be distinct where order matters. */
  function ByName(ws: seq<RegionWeight>): seq<RegionWeight> {
    if ws == [] then [] else Insert(ByName(ws[..|ws| - 1]), ws[|ws| - 1])
  }

  /** A region's exact proportion, rounded down. */
  function FloorShare(limit: int, weight: int, total: int): int
    requires total > 0
  {
    limit * weight / total
  }

  /** The shares of the regions from index i on, with `given` already given away. */
  function Shares(limit: int, ws: seq<RegionWeight>, total: int, i: nat, given: int): seq<Allocation>
    requires total > 0 && i <= |ws|
    decreases |ws| - i
  {
    if i == |ws| then []
    else
      var share := if i == |ws| - 1 then limit - given else FloorShare(limit, ws[i].weight, total);
      var clamped := if share < 0 then 0 else share;
      [Allocation(ws[i].region, clamped)] + Shares(limit, ws, total, i + 1, given + clamped)
  }

  function Allocate(limit: int, ws: seq<RegionWeight>): seq<Allocation> {
    if limit <= 0 || ws == [] || Total(Kept(ws)) <= 0 then []
    else Shares(limit, ByName(Kept(ws)), Total(Kept(ws)), 0, 0)
  }

  function Sum(out: seq<Allocation>): int {
    if out == [] then 0 else out[0].limit + Sum(out[1..])
  }

  // ---------------------------------------------------------------- the split

  predicate AllUsable(ws: seq<RegionWeight>) {
    forall i :: 0 <= i < |ws| ==> Usable(ws[i])
  }

  /** What the floors of the first n regions add up to. */
  function Floors(limit: int, ws: seq<RegionWeight>, total: int, n: nat): int
    requires total > 0 && n <= |ws|
  {
    if n == 0 then 0 else Floors(limit, ws, total, n - 1) + FloorShare(limit, ws[n - 1].weight, total)
  }

  lemma DivideBounds(x: int, d: int)
    requires d > 0
    ensures x / d * d <= x <= x / d * d + (d - 1)
  {
  }

  lemma FloorStep(limit: int, sum: int, w: int, f: int, total: int, n: int)
    requires total > 0
    requires f * total <= limit * sum <= f * total + (n - 1) * (total - 1)
    ensures var q := FloorShare(limit, w, total);
            (f + q) * total <= limit * (sum + w) <= (f + q) * total + n * (total - 1)
  {
    var q := FloorShare(limit, w, total);
    DivideBounds(limit * w, total);
    assert limit * (sum + w) == limit * sum + limit * w;
    assert (f + q) * total == f * total + q * total;
    assert n * (total - 1) == (n - 1) * (total - 1) + (total - 1);
  }

  /** The floors fall short of the exact shares by less than one each. */
  lemma {:induction false} FloorsTight(limit: int, ws: seq<RegionWeight>, total: int, n: nat)
    requires total > 0 && n <= |ws|
    ensures Floors(limit, ws, total, n) * total <= limit * Total(ws[..n]) <=
            Floors(limit, ws, total, n) * total + n * (total - 1)
  {
    if n > 0 {
      FloorsTight(limit, ws, total, n - 1);
      assert ws[..n][..n - 1] == ws[..n - 1];
      FloorStep(limit, Total(ws[..n - 1]), ws[n - 1].weight, Floors(limit, ws, total, n - 1), total, n);
    }
  }

  lemma Cancel(a: int, b: int, k: int)
    requires k > 0
    ensures a * k <= b * k ==> a <= b
    ensures a * k < b * k ==> a < b
  {
  }

  lemma FloorsBound(limit: int, ws: seq<RegionWeight>, total: int)
    requires total > 0 && total == Total(ws) && ws != []
    ensures limit - |ws| < Floors(limit, ws, total, |ws|) <= limit
  {
    FloorsTight(limit, ws, total, |ws|);
    assert ws[..|ws|] == ws;
    var f, n := Floors(limit, ws, total, |ws|), |ws|;
    Cancel(f, limit, total);
    assert (limit - f) * total == limit * total - f * total;
    assert n * (total - 1) == n * total - n;
    Cancel(limit - f, n, total);
  }

  /** The share of region i: its floor, or for the last one what the floors leave. */
  function Share(limit: int, ws: seq<RegionWeight>, total: int, i: nat): int
    requires total > 0 && i < |ws|
  {
    if i == |ws| - 1 then limit - Floors(limit, ws, total, i) else FloorShare(limit, ws[i].weight, total)
  }

  function Given(limit: int, ws: seq<RegionWeight>, total: int, i: nat): Allocation
    requires total > 0 && i < |ws|
  {
    Allocation(ws[i].region, Share(limit, ws, total, i))
  }

  /** The last share is its floor or up to one more per other region, and no share is negative. */
  lemma ShareRange(limit: int, ws: seq<RegionWeight>, total: int, i: nat)
    requires limit > 0 && total > 0 && total == Total(ws) && AllUsable(ws) && i < |ws|
    ensures 0 <= FloorShare(limit, ws[i].weight, total) <= Share(limit, ws, total, i) <=
            FloorShare(limit, ws[i].weight, total) + (|ws| - 1)
  {
    NonNegative(limit, ws[i].weight, total);
    FloorsBound(limit, ws, total);
  }

  /** Nothing is clamped. */
  lemma SharesUnfold(limit: int, ws: seq<RegionWeight>, total: int, i: nat)
    requires limit > 0 && total > 0 && total == Total(ws) && AllUsable(ws) && i < |ws|
    ensures Shares(limit, ws, total, i, Floors(limit, ws, total, i)) ==
      [Given(limit, ws, total, i)]
      + (if i + 1 == |ws| then [] else Shares(limit, ws, total, i + 1, Floors(limit, ws, total, i + 1)))
  {
    ShareRange(limit, ws, total, i);
  }

  function GivenFrom(limit: int, ws: seq<RegionWeight>, total: int, i: nat): seq<Allocation>
    requires total > 0 && i <= |ws|
    decreases |ws| - i
  {
    if i == |ws| then [] else [Given(limit, ws, total, i)] + GivenFrom(limit, ws, total, i + 1)
  }

  /** Every region gets its share, and together they get the limit. */
  lemma {:induction false} SharesExact(limit: int, ws: seq<RegionWeight>, total: int, i: nat)
    requires limit > 0 && total > 0 && total == Total(ws) && AllUsable(ws) && i < |ws|
    ensures Shares(limit, ws, total, i, Floors(limit, ws, total, i)) == GivenFrom(limit, ws, total, i)
    ensures Sum(GivenFrom(limit, ws, total, i)) == limit - Floors(limit, ws, total, i)
    decreases |ws| - i
  {
    SharesUnfold(limit, ws, total, i);
    var rest := GivenFrom(limit, ws, total, i + 1);
    assert ([Given(limit, ws, total, i)] + rest)[1..] == rest;
    if i + 1 < |ws| { SharesExact(limit, ws, total, i + 1); }
  }

  lemma {:induction false} GivenFromAt(limit: int, ws: seq<RegionWeight>, total: int, i: nat, j: nat)
    requires total > 0 && i <= j < |ws|
    ensures |GivenFrom(limit, ws, total, i)| == |ws| - i
    ensures GivenFrom(limit, ws, total, i)[j - i] == Given(limit, ws, total, j)
    decreases |ws| - i
  {
    if i < j {
      GivenFromAt(limit, ws, total, i + 1, j);
    } else if i + 1 < |ws| {
      GivenFromAt(limit, ws, total, i + 1, i + 1);
    }
  }

  lemma NonNegative(limit: int, w: int, total: int)
    requires limit >= 0 && w >= 0 && total > 0
    ensures FloorShare(limit, w, total) >= 0
  {
    assert limit * w >= 0;
    DivideBounds(limit * w, total);
    Cancel(-1, FloorShare(limit, w, total), total);
  }

  // ---------------------------------------------------------------- order

  predicate Distinct(ws: seq<RegionWeight>) {
    forall i, j :: 0 <= i < j < |ws| ==> ws[i].region != ws[j].region
  }

  predicate Ordered(ws: seq<RegionWeight>) {
    forall i, j :: 0 <= i < j < |ws| ==> Less(ws[i].region, ws[j].region)
  }

  lemma TotalSnoc(ws: seq<RegionWeight>, w: RegionWeight)
    ensures Total(ws + [w]) == Total(ws) + w.weight
  {
    assert (ws + [w])[..|ws|] == ws;
  }

  ghost predicate SameElements(a: seq<RegionWeight>, b: seq<RegionWeight>) {
    forall w :: w in a <==> w in b
  }

  lemma {:induction false} InsertAdds(ws: seq<RegionWeight>, w: RegionWeight)
    ensures |Insert(ws, w)| == |ws| + 1 && Total(Insert(ws, w)) == Total(ws) + w.weight
    ensures forall x :: x in Insert(ws, w) <==> x in ws || x == w
  {
    if ws == [] || !Less(w.region, ws[|ws| - 1].region) {
      TotalSnoc(ws, w);
    } else {
      var init, last := ws[..|ws| - 1], ws[|ws| - 1];
      InsertAdds(init, w);
      TotalSnoc(Insert(init, w), last);
      assert ws == init + [last];
    }
  }

  lemma {:induction false} ByNameTotals(ws: seq<RegionWeight>)
    ensures |ByName(ws)| == |ws| && Total(ByName(ws)) == Total(ws)
  {
    if ws != [] {
      ByNameTotals(ws[..|ws| - 1]);
      InsertAdds(ByName(ws[..|ws| - 1]), ws[|ws| - 1]);
    }
  }

  lemma {:induction false} ByNameElements(ws: seq<RegionWeight>, x: RegionWeight)
    ensures x in ByName(ws) <==> x in ws
  {
    if ws != [] {
      var init, last := ws[..|ws| - 1], ws[|ws| - 1];
      ByNameElements(init, x);
      InsertAdds(ByName(init), last);
      assert ws == init + [last];
    }
  }

  lemma ByNameKeeps(ws: seq<RegionWeight>)
    ensures |ByName(ws)| == |ws| && Total(ByName(ws)) == Total(ws)
    ensures forall x :: x in ByName(ws) <==> x in ws
  {
    ByNameTotals(ws);
    forall x ensures x in ByName(ws) <==> x in ws { ByNameElements(ws, x); }
  }

  predicate Before(ws: seq<RegionWeight>, w: RegionWeight) {
    forall i :: 0 <= i < |ws| ==> Less(ws[i].region, w.region)
  }

  lemma InsertBefore(ws: seq<RegionWeight>, w: RegionWeight, last: RegionWeight)
    requires Before(ws, last) && Less(w.region, last.region)
    ensures Before(Insert(ws, w), last)
  {
    InsertAdds(ws, w);
    forall i | 0 <= i < |Insert(ws, w)| ensures Less(Insert(ws, w)[i].region, last.region) {
      assert Insert(ws, w)[i] in ws || Insert(ws, w)[i] == w;
    }
  }

  lemma BeforeLast(ws: seq<RegionWeight>, last: RegionWeight, w: RegionWeight)
    requires Before(ws, last) && Less(last.region, w.region)
    ensures Before(ws + [last], w)
  {
    forall i | 0 <= i < |ws| ensures Less(ws[i].region, w.region) {
      LessTransitive(ws[i].region, last.region, w.region);
    }
  }

  lemma {:induction false} InsertOrdered(ws: seq<RegionWeight>, w: RegionWeight)
    requires Ordered(ws) && forall i :: 0 <= i < |ws| ==> ws[i].region != w.region
    ensures Ordered(Insert(ws, w))
  {
    if ws != [] {
      var init, last := ws[..|ws| - 1], ws[|ws| - 1];
      assert ws == init + [last];
      LessTotal(w.region, last.region);
      if Less(w.region, last.region) {
        InsertOrdered(init, w);
        InsertBefore(init, w, last);
      } else {
        BeforeLast(init, last, w);
      }
    }
  }

  lemma {:induction false} ByNameOrdered(ws: seq<RegionWeight>)
    requires Distinct(ws)
    ensures Ordered(ByName(ws))
  {
    if ws != [] {
      var init, last := ws[..|ws| - 1], ws[|ws| - 1];
      ByNameOrdered(init);
      ByNameKeeps(init);
      forall i | 0 <= i < |ByName(init)| ensures ByName(init)[i].region != last.region {
        assert ByName(init)[i] in init;
      }
      InsertOrdered(ByName(init), last);
    }
  }

  lemma Init(ws: seq<RegionWeight>)
    requires Ordered(ws) && ws != []
    ensures forall w :: w in ws[..|ws| - 1] <==> w in ws && w != ws[|ws| - 1]
  {
    LessTotal(ws[|ws| - 1].region, ws[|ws| - 1].region);
    assert ws == ws[..|ws| - 1] + [ws[|ws| - 1]];
  }

  lemma SameLast(a: seq<RegionWeight>, b: seq<RegionWeight>)
    requires Ordered(a) && Ordered(b) && SameElements(a, b) && a != []
    ensures b != [] && a[|a| - 1] == b[|b| - 1]
  {
    assert a[|a| - 1] in b && b[|b| - 1] in a;
    LessTotal(a[|a| - 1].region, b[|b| - 1].region);
  }

  /** An ordered list is determined by its elements. */
  lemma {:induction false} OrderedUnique(a: seq<RegionWeight>, b: seq<RegionWeight>)
    requires Ordered(a) && Ordered(b) && SameElements(a, b)
    ensures a == b
  {
    if a == [] {
      if b != [] { SameLast(b, a); }
    } else {
      SameLast(a, b);
      Init(a);
      Init(b);
      var a', b' := a[..|a| - 1], b[..|b| - 1];
      forall w ensures w in a' <==> w in b' {
        assert w in a <==> w in b;
      }
      OrderedUnique(a', b');
      assert a == a[..|a| - 1] + [a[|a| - 1]] && b == b[..|b| - 1] + [b[|b| - 1]];
    }
  }

  lemma {:induction false} KeptElements(ws: seq<RegionWeight>)
    ensures forall w :: w in Kept(ws) <==> w in ws && Usable(w)
  {
    if ws != [] {
      KeptElements(ws[..|ws| - 1]);
      assert ws == ws[..|ws| - 1] + [ws[|ws| - 1]];
    }
  }

  /** With distinct names the allocation does not depend on the order of the configured weights. */
  lemma OrderIndependent(limit: int, ws: seq<RegionWeight>, ws': seq<RegionWeight>)
    requires multiset(ws) == multiset(ws') && Distinct(ws) && Distinct(ws')
    ensures Allocate(limit, ws) == Allocate(limit, ws')
  {
    assert |multiset(ws)| == |multiset(ws')|;
    assert forall w :: w in ws <==> w in multiset(ws);
    assert forall w :: w in ws' <==> w in multiset(ws');
    var v, v' := Kept(ws), Kept(ws');
    KeptElements(ws);
    KeptElements(ws');
    KeptDistinct(ws);
    KeptDistinct(ws');
    ByNameKeeps(v);
    ByNameKeeps(v');
    ByNameOrdered(v);
    ByNameOrdered(v');
    OrderedUnique(ByName(v), ByName(v'));
  }

  lemma {:induction false} KeptDistinct(ws: seq<RegionWeight>)
    requires Distinct(ws)
    ensures Distinct(Kept(ws))
  {
    if ws != [] {
      var init, last := ws[..|ws| - 1], ws[|ws| - 1];
      KeptDistinct(init);
      KeptElements(init);
      forall i | 0 <= i < |Kept(init)| ensures Kept(init)[i].region != last.region {
        assert Kept(init)[i] in init;
      }
    }
  }

  // ---------------------------------------------------------------- the main property

  lemma {:induction false} KeptUsable(ws: seq<RegionWeight>)
    ensures AllUsable(Kept(ws)) && Total(Kept(ws)) >= |Kept(ws)|
  {
    if ws != [] {
      KeptUsable(ws[..|ws| - 1]);
      TotalSnoc(Kept(ws[..|ws| - 1]), ws[|ws| - 1]);
    }
  }

  lemma SortedUsable(ws: seq<RegionWeight>)
    ensures var v := ByName(Kept(ws)); AllUsable(v) && Total(v) == Total(Kept(ws)) && |v| == |Kept(ws)|
  {
    KeptElements(ws);
    ByNameKeeps(Kept(ws));
    forall i | 0 <= i < |ByName(Kept(ws))| ensures Usable(ByName(Kept(ws))[i]) {
      assert ByName(Kept(ws))[i] in Kept(ws);
    }
  }

  lemma RegionShare(limit: int, ws: seq<RegionWeight>, i: nat)
    requires limit > 0 && i < |Kept(ws)|
    ensures var out, v, total := Allocate(limit, ws), ByName(Kept(ws)), Total(Kept(ws));
            && total > 0 && |out| == |v| == |Kept(ws)| && out[i].region == v[i].region
            && var floor := FloorShare(limit, v[i].weight, total);
               && 0 <= floor <= out[i].limit <= floor + |v| - 1
               && (i < |v| - 1 ==> out[i].limit == floor)
  {
    var v, total := ByName(Kept(ws)), Total(Kept(ws));
    AllocateIsGiven(limit, ws);
    GivenFromAt(limit, v, total, 0, i);
    ShareRange(limit, v, total, i);
  }

  /** A positive limit over at least one usable region is given away exactly.  Of n regions in name
      order with total weight T, each but the last gets floor(limit * w / T), and the last its floor
      and at most n - 1 more. */
  lemma ProportionalSplit(limit: int, ws: seq<RegionWeight>)
    requires limit > 0 && Kept(ws) != []
    ensures var out, v, total := Allocate(limit, ws), ByName(Kept(ws)), Total(Kept(ws));
            && total > 0 && |out| == |v| == |Kept(ws)| && Sum(out) == limit
            && (forall i :: 0 <= i < |v| ==> out[i].region == v[i].region)
            && (forall i :: 0 <= i < |v| - 1 ==> out[i].limit == FloorShare(limit, v[i].weight, total))
            && var last := |v| - 1;
               0 <= FloorShare(limit, v[last].weight, total) <= out[last].limit <=
               FloorShare(limit, v[last].weight, total) + last
  {
    AllocateIsGiven(limit, ws);
    var out, v, total := Allocate(limit, ws), ByName(Kept(ws)), Total(Kept(ws));
    forall i | 0 <= i < |v|
      ensures |out| == |v| && out[i].region == v[i].region
      ensures i < |v| - 1 ==> out[i].limit == FloorShare(limit, v[i].weight, total)
    {
      RegionShare(limit, ws, i);
    }
    RegionShare(limit, ws, |v| - 1);
  }

  /** With distinct names the shares come in name order, so the one that takes the rest has the greatest name. */
  lemma SplitInNameOrder(limit: int, ws: seq<RegionWeight>)
    requires limit > 0 && Kept(ws) != [] && Distinct(ws)
    ensures var out := Allocate(limit, ws); forall i, j :: 0 <= i < j < |out| ==> Less(out[i].region, out[j].region)
  {
    ProportionalSplit(limit, ws);
    KeptDistinct(ws);
    ByNameOrdered(Kept(ws));
  }

  lemma AllocateIsGiven(limit: int, ws: seq<RegionWeight>)
    requires limit > 0 && Kept(ws) != []
    ensures var v, total := ByName(Kept(ws)), Total(Kept(ws));
            && total > 0 && |v| == |Kept(ws)| && AllUsable(v) && Total(v) == total
            && Allocate(limit, ws) == GivenFrom(limit, v, total, 0)
            && Sum(Allocate(limit, ws)) == limit
  {
    KeptUsable(ws);
    SortedUsable(ws);
    SharesExact(limit, ByName(Kept(ws)), Total(Kept(ws)), 0);
  }
}
