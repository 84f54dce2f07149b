/** Token bucket and leaky bucket over whole sequential runs.

    Both keep a level in thousandths and the time of the last charge, in two store keys.  float64 is
    `real`, rounding of nonnegative values is floor(x + 1/2), and a conversion to int64 or to a
    duration drops the fraction.  One clock reading serves one evaluation. */
module Buckets {
  import opened Common
  import opened StoreModel

  const TWO_HOURS: int := 7200 * SECOND

  datatype Kind = Token | Leaky
  datatype Config = Config(capacity: int, rate: real)

  predicate Positive(c: Config) {
    c.capacity >= 1 && c.rate > 0.0
  }

  /** Burst, else limit, else one; and the refill rate, else limit per window, else one.  A window of no
      length with a limit of zero or more gives a rate that is not a number: infinite, or undefined. */
  function TokenConfig(burst: int, limit: int, refillRate: real, window: int): (c: Option<Config>)
    ensures c.Some? ==> Positive(c.value)
    ensures c.None? <==> refillRate <= 0.0 && window == 0 && limit >= 0
  {
    var capacity := if burst > 0 then burst else if limit > 0 then limit else 1;
    if refillRate > 0.0 then Some(Config(capacity, refillRate))
    else if window == 0 then if limit >= 0 then None else Some(Config(capacity, 1.0))
    else
      var rate := limit as real / (window as real / SECOND as real);
      Some(Config(capacity, if rate <= 0.0 then 1.0 else rate))
  }

  function LeakyConfig(limit: int, leakRate: real): (c: Config)
    ensures Positive(c)
  {
    Config(if limit <= 0 then 1 else limit, if leakRate <= 0.0 then 1.0 else leakRate)
  }

  /** Twice the window, but no less than two hours. */
  function LeakyTtl(window: int): (ttl: int)
    ensures ttl >= 2 * window && ttl >= 7200 * SECOND && (ttl > 2 * window ==> ttl == 7200 * SECOND)
  {
    if 2 * window < TWO_HOURS then TWO_HOURS else 2 * window
  }

  /** The two stored numbers an evaluation reads: thousandths, and nanoseconds of the last charge. */
  datatype Reads = Reads(milli: int, last: int)

  datatype Outcome =
    | Admitted(milli: int, remaining: int)
    | Denied(retryAfter: int, remaining: int)
    | Contention

  function Round(x: real): int {
    (x + 0.5).Floor
  }

  /** A conversion to an integer drops the fraction. */
  function Trunc(x: real): int {
    if x >= 0.0 then x.Floor else -(-x).Floor
  }

  /** What `dt` nanoseconds are worth at the configured rate; a clock that went back counts as zero. */
  function Flow(c: Config, dt: int): real {
    (if dt < 0 then 0 else dt) as real / SECOND as real * c.rate
  }

  function Min(x: real, y: real): real { if x <= y then x else y }
  function Max(x: real, y: real): real { if x >= y then x else y }

  // ---------------------------------------------------------------- one evaluation

  function Tokens(c: Config, r: Reads, now: int): real {
    var cur := if r.last == 0 then c.capacity as real else r.milli as real / 1000.0;
    var last := if r.last == 0 then now else r.last;
    Min(c.capacity as real, cur + Flow(c, now - last))
  }

  function DecideToken(c: Config, r: Reads, now: int, cost: int): Outcome
    requires Positive(c)
  {
    var cur := Tokens(c, r, now);
    if cur < cost as real then
      Denied(Trunc((cost as real - cur) / c.rate * SECOND as real), Trunc(cur))
    else
      Admitted(Round((cur - cost as real) * 1000.0), Trunc(cur - cost as real))
  }

  function Level(c: Config, r: Reads, now: int): real {
    var last := if r.last == 0 then now else r.last;
    Max(0.0, r.milli as real / 1000.0 - Flow(c, now - last))
  }

  function DecideLeaky(c: Config, r: Reads, now: int, cost: int): Outcome
    requires Positive(c)
  {
    var cur := Level(c, r, now) + cost as real;
    if cur > c.capacity as real then
      Denied(Trunc((cur - c.capacity as real) / c.rate * SECOND as real), 0)
    else
      Admitted(Round(cur * 1000.0), Trunc(c.capacity as real - cur))
  }

  function Decide(kind: Kind, c: Config, r: Reads, now: int, cost: int): Outcome
    requires Positive(c)
  {
    if kind.Token? then DecideToken(c, r, now, cost) else DecideLeaky(c, r, now, cost)
  }

  /** How much cost the bucket could take at `now`: the tokens, or the space above the level. */
  function Headroom(kind: Kind, c: Config, r: Reads, now: int): real {
    if kind.Token? then Tokens(c, r, now) else c.capacity as real - Level(c, r, now)
  }

  /** What every stored pair satisfies. */
  predicate Sound(kind: Kind, c: Config, r: Reads, clock: int) {
    && 0 <= r.milli <= 1000 * c.capacity
    && 0 <= r.last <= clock
    && (r.last == 0 ==> r.milli == 0)
  }

  lemma FlowAdds(c: Config, a: int, b: int)
    requires Positive(c) && a >= 0 && b >= 0
    ensures Flow(c, a + b) == Flow(c, a) + Flow(c, b)
    ensures Flow(c, a) >= 0.0
  {
    var x, y, s := a as real, b as real, SECOND as real;
    assert (a + b) as real == x + y;
    assert (x + y) / s * c.rate == x / s * c.rate + y / s * c.rate;
    Product(x / s, c.rate);
  }

  lemma Product(x: real, y: real)
    requires x >= 0.0 && y >= 0.0
    ensures x * y >= 0.0
  {
  }

  /** One evaluation in terms of headroom: admission is exactly cost fitting, and a charge takes the
      cost from the headroom up to half a thousandth. */
  lemma DecideByHeadroom(kind: Kind, c: Config, r: Reads, now: int, cost: int)
    requires Positive(c) && cost >= 1 && 0 < now && Sound(kind, c, r, now)
    ensures var h, o := Headroom(kind, c, r, now), Decide(kind, c, r, now, cost);
            && 0.0 <= h <= c.capacity as real
            && (o.Admitted? <==> cost as real <= h)
            && (o.Denied? <==> cost as real > h)
            && (o.Admitted? ==>
                  var h' := Headroom(kind, c, Reads(o.milli, now), now);
                  && Sound(kind, c, Reads(o.milli, now), now)
                  && h - cost as real - 0.0005 <= h' <= h - cost as real + 0.0005)
  {
    FlowAdds(c, now - r.last, 0);
  }

  /** Without a charge, headroom grows at most at the rate. */
  lemma HeadroomGrows(kind: Kind, c: Config, r: Reads, t: int, u: int)
    requires Positive(c) && 0 < t <= u && Sound(kind, c, r, t)
    ensures Headroom(kind, c, r, t) <= Headroom(kind, c, r, u) <= Headroom(kind, c, r, t) + Flow(c, u - t)
  {
    FlowAdds(c, u - t, 0);
    if r.last != 0 {
      FlowAdds(c, t - r.last, u - t);
      assert t - r.last + (u - t) == u - r.last;
    }
  }

  // ---------------------------------------------------------------- what a policy configures

  lemma FlowOfQuotient(c: Config, n: real, dt: int)
    requires dt > 0 && c.rate == n / (dt as real / SECOND as real)
    ensures Flow(c, dt) == n
  {
  }

  /** The configured refill rate is per second; without one, a window refills the limit exactly, and if
      neither makes sense one unit a second.  Signs cancel: a negative limit over a negative window is a rate. */
  lemma TokenRefill(burst: int, limit: int, refillRate: real, window: int)
    requires TokenConfig(burst, limit, refillRate, window).Some?
    ensures var c := TokenConfig(burst, limit, refillRate, window).value;
            && (refillRate > 0.0 ==> Flow(c, SECOND) == refillRate)
            && (refillRate <= 0.0 && limit > 0 && window > 0 ==> Flow(c, window) == limit as real)
            && (refillRate <= 0.0 && limit < 0 && window < 0 ==> Flow(c, -window) == (-limit) as real)
            && (refillRate <= 0.0 && (limit <= 0 || window <= 0) && (limit >= 0 || window >= 0) ==>
                  Flow(c, SECOND) == 1.0)
  {
    var c := TokenConfig(burst, limit, refillRate, window).value;
    if refillRate <= 0.0 && window != 0 {
      var l, w, s := limit as real, window as real, SECOND as real;
      if limit < 0 && window < 0 {
        assert l / (w / s) == (-l) / ((-w) / s);
        FlowOfQuotient(c, -l, -window);
      } else if limit > 0 && window > 0 {
        assert l / (w / s) > 0.0;
        FlowOfQuotient(c, l, window);
      } else {
        assert l / (w / s) <= 0.0;
      }
    }
  }

  /** A new token bucket takes the burst and no more; without a burst the limit, and without either one. */
  lemma TokenBurst(burst: int, limit: int, refillRate: real, window: int, now: int, cost: int)
    requires TokenConfig(burst, limit, refillRate, window).Some?
    ensures var o := Decide(Token, TokenConfig(burst, limit, refillRate, window).value, Reads(0, 0), now, cost);
            && (burst > 0 ==> (o.Admitted? <==> cost <= burst))
            && (burst <= 0 < limit ==> (o.Admitted? <==> cost <= limit))
            && (burst <= 0 && limit <= 0 ==> (o.Admitted? <==> cost <= 1))
            && (o.Denied? <==> !o.Admitted?)
  {
    assert Flow(TokenConfig(burst, limit, refillRate, window).value, 0) == 0.0;
  }

  /** The leak rate is per second, one if not configured, and a new leaky bucket takes the limit and no more. */
  lemma LeakyLimit(limit: int, leakRate: real, now: int, cost: int)
    ensures var c := LeakyConfig(limit, leakRate);
            var o := Decide(Leaky, c, Reads(0, 0), now, cost);
            && Flow(c, SECOND) == (if leakRate > 0.0 then leakRate else 1.0)
            && (limit > 0 ==> (o.Admitted? <==> cost <= limit))
            && (limit <= 0 ==> (o.Admitted? <==> cost <= 1))
            && (o.Denied? <==> !o.Admitted?)
  {
    assert Flow(LeakyConfig(limit, leakRate), 0) == 0.0;
  }

  /** A clock that went back behind the last charge is taken to stand at it: nothing flows. */
  lemma ClockBackIgnored(kind: Kind, c: Config, r: Reads, now: int, cost: int)
    requires Positive(c) && now <= r.last && r.last != 0
    ensures Decide(kind, c, r, now, cost) == Decide(kind, c, r, r.last, cost)
    ensures Headroom(kind, c, r, now) ==
            if kind.Token? then Min(c.capacity as real, r.milli as real / 1000.0)
            else c.capacity as real - Max(0.0, r.milli as real / 1000.0)
  {
    assert Flow(c, now - r.last) == Flow(c, 0) == 0.0;
  }

  /** The remaining count is the headroom left, in whole units; a denied leaky bucket reports none. */
  lemma RemainingIsHeadroom(kind: Kind, c: Config, r: Reads, now: int, cost: int)
    requires Positive(c) && cost >= 1 && 0 < now && Sound(kind, c, r, now)
    ensures var h, o := Headroom(kind, c, r, now), Decide(kind, c, r, now, cost);
            && (o.Admitted? ==> 0 <= o.remaining && o.remaining as real <= h - cost as real < (o.remaining + 1) as real)
            && (o.Denied? && kind.Token? ==> 0 <= o.remaining && o.remaining as real <= h < (o.remaining + 1) as real)
            && (o.Denied? && kind.Leaky? ==> o.remaining == 0)
  {
    DecideByHeadroom(kind, c, r, now, cost);
  }

  // ---------------------------------------------------------------- runs

  /** The two store entries of one bucket. */
  datatype Bucket = Bucket(level: Item, ts: Item)
  datatype Request = Request(now: int, cost: int)

  const FRESH: Bucket := Bucket(ZERO, ZERO)

  function ValueOf(it: Item, now: int): int {
    if Expired(it, now) then 0 else it.value
  }

  function ReadAt(b: Bucket, now: int): Reads {
    Reads(ValueOf(b.level, now), ValueOf(b.ts, now))
  }

  /** A ttl of zero gives entries that never expire. */
  function Evaluate(kind: Kind, c: Config, ttl: int, b: Bucket, q: Request): (Bucket, Outcome)
    requires Positive(c)
  {
    var o := Decide(kind, c, ReadAt(b, q.now), q.now, q.cost);
    if !o.Admitted? then (b, o)
    else
      var expiry := Renew(Never, ttl, q.now);
      (Bucket(Item(o.milli, expiry), Item(q.now, expiry)), o)
  }

  function Run(kind: Kind, c: Config, ttl: int, b: Bucket, qs: seq<Request>): (os: seq<Outcome>)
    requires Positive(c)
    ensures |os| == |qs|
    decreases |qs|
  {
    if qs == [] then []
    else
      var (b', o) := Evaluate(kind, c, ttl, b, qs[0]);
      [o] + Run(kind, c, ttl, b', qs[1..])
  }

  /** Requests on a positive, nondecreasing clock, with positive costs. */
  predicate Timed(qs: seq<Request>, clock: int) {
    qs == [] || (0 < clock <= qs[0].now && qs[0].cost >= 1 && Timed(qs[1..], qs[0].now))
  }

  function ChargedCost(qs: seq<Request>, os: seq<Outcome>, s: int, t: int): int
    requires |qs| == |os|
  {
    if qs == [] then 0
    else (if os[0].Admitted? && s <= qs[0].now <= t then qs[0].cost else 0) + ChargedCost(qs[1..], os[1..], s, t)
  }

  function ChargedCount(qs: seq<Request>, os: seq<Outcome>, s: int, t: int): nat
    requires |qs| == |os|
  {
    if qs == [] then 0
    else (if os[0].Admitted? && s <= qs[0].now <= t then 1 else 0) + ChargedCount(qs[1..], os[1..], s, t)
  }

  // ---------------------------------------------------------------- the bound

  lemma {:induction false} NoneAfter(qs: seq<Request>, os: seq<Outcome>, s: int, t: int, clock: int)
    requires |qs| == |os| && Timed(qs, clock) && t < clock
    ensures ChargedCost(qs, os, s, t) == 0
  {
    if qs != [] { NoneAfter(qs[1..], os[1..], s, t, qs[0].now); }
  }

  /** The smallest idle gap that can outlive the ttl refills the whole bucket. */
  predicate FullAfter(c: Config, ttl: int) {
    Flow(c, ttl + 1) >= c.capacity as real
  }

  /** What one expiry of the two keys can give back too early. */
  function Loss(c: Config, ttl: int): (loss: real)
    ensures loss >= 0.0 && (loss == 0.0 <==> FullAfter(c, ttl))
  {
    Max(0.0, c.capacity as real - Flow(c, ttl + 1))
  }

  /** The store entries holding `r`, written by the charge at `r.last`. */
  function Stored(r: Reads, ttl: int): Bucket {
    var expiry := if r.last == 0 then Never else Renew(Never, ttl, r.last);
    Bucket(Item(r.milli, expiry), Item(r.last, expiry))
  }

  lemma ExpiryLoses(kind: Kind, c: Config, ttl: int, r: Reads, now: int)
    requires Positive(c) && 0 < now && Sound(kind, c, r, now)
    ensures var read := ReadAt(Stored(r, ttl), now);
            && Sound(kind, c, read, now)
            && Headroom(kind, c, read, now) <= Headroom(kind, c, r, now) + LossAt(c, ttl, Stored(r, ttl), now)
  {
    if Expired(Stored(r, ttl).ts, now) {
      FlowAdds(c, ttl + 1, now - r.last - ttl - 1);
      FlowAdds(c, now - r.last - ttl - 1, 0);
      assert ttl + 1 + (now - r.last - ttl - 1) == now - r.last;
    }
  }

  /** What an evaluation at `now` gets from expiry: nothing unless it finds the keys expired. */
  function LossAt(c: Config, ttl: int, b: Bucket, now: int): real {
    if Expired(b.ts, now) then Loss(c, ttl) else 0.0
  }

  /** The charges in [s, t] that found their keys expired. */
  function ExpiredCount(kind: Kind, c: Config, ttl: int, b: Bucket, qs: seq<Request>, s: int, t: int): nat
    requires Positive(c)
    decreases |qs|
  {
    if qs == [] then 0
    else
      var q := qs[0];
      var (b', o) := Evaluate(kind, c, ttl, b, q);
      (if o.Admitted? && s <= q.now <= t && Expired(b.ts, q.now) then 1 else 0)
      + ExpiredCount(kind, c, ttl, b', qs[1..], s, t)
  }

  /** Half a thousandth of rounding per charge, and the loss of each expiry. */
  function Slack(c: Config, ttl: int, charges: nat, expired: nat): real {
    0.0005 * charges as real + Loss(c, ttl) * expired as real
  }

  lemma SlackAdds(c: Config, ttl: int, n: nat, k: nat)
    ensures Slack(c, ttl, n + 1, k) == Slack(c, ttl, n, k) + 0.0005
    ensures Slack(c, ttl, n, k + 1) == Slack(c, ttl, n, k) + Loss(c, ttl)
    ensures Slack(c, ttl, n, k) >= 0.0
  {
    var loss := Loss(c, ttl);
    Product(loss, k as real);
    assert (k + 1) as real == k as real + 1.0;
    assert loss * (k as real + 1.0) == loss * k as real + loss;
  }

  /** One evaluation over stored entries: what is left and what it charged, against the headroom. */
  lemma EvaluateFits(kind: Kind, c: Config, ttl: int, r: Reads, q: Request)
    requires Positive(c) && 0 < q.now && q.cost >= 1 && Sound(kind, c, r, q.now)
    ensures var (b', o) := Evaluate(kind, c, ttl, Stored(r, ttl), q);
            var r' := if o.Admitted? then Reads(o.milli, q.now) else r;
            && b' == Stored(r', ttl) && Sound(kind, c, r', q.now)
            && 0.0 <= Headroom(kind, c, r', q.now)
            && (o.Admitted? ==>
                  q.cost as real + Headroom(kind, c, r', q.now)
                    <= Headroom(kind, c, r, q.now) + LossAt(c, ttl, Stored(r, ttl), q.now) + 0.0005)
  {
    ExpiryLoses(kind, c, ttl, r, q.now);
    DecideByHeadroom(kind, c, ReadAt(Stored(r, ttl), q.now), q.now, q.cost);
    DecideByHeadroom(kind, c, r, q.now, q.cost);
    var o := Evaluate(kind, c, ttl, Stored(r, ttl), q).1;
    if o.Admitted? { DecideByHeadroom(kind, c, Reads(o.milli, q.now), q.now, q.cost); }
  }

  /** The slack of a run from its first request on. */
  function RunSlack(kind: Kind, c: Config, ttl: int, b: Bucket, qs: seq<Request>, s: int, t: int): real
    requires Positive(c)
  {
    Slack(c, ttl, ChargedCount(qs, Run(kind, c, ttl, b, qs), s, t), ExpiredCount(kind, c, ttl, b, qs, s, t))
  }

  lemma RunSlackStep(kind: Kind, c: Config, ttl: int, b: Bucket, qs: seq<Request>, s: int, t: int)
    requires Positive(c) && qs != []
    ensures var q := qs[0];
            var (b', o) := Evaluate(kind, c, ttl, b, q);
            && RunSlack(kind, c, ttl, b, qs, s, t) == RunSlack(kind, c, ttl, b', qs[1..], s, t)
                 + (if o.Admitted? && s <= q.now <= t then 0.0005 + LossAt(c, ttl, b, q.now) else 0.0)
            && RunSlack(kind, c, ttl, b, qs, s, t) >= 0.0
  {
    var (b', o) := Evaluate(kind, c, ttl, b, qs[0]);
    var os := Run(kind, c, ttl, b, qs);
    assert os[1..] == Run(kind, c, ttl, b', qs[1..]);
    var n, k := ChargedCount(qs[1..], os[1..], s, t), ExpiredCount(kind, c, ttl, b', qs[1..], s, t);
    SlackAdds(c, ttl, n, k);
    SlackAdds(c, ttl, n + 1, k);
    SlackAdds(c, ttl, n + 1, k + 1);
  }

  /** One evaluation's share of the claim below, `q` and `rest` being what it and the others charge. */
  lemma {:induction false} FirstFits(kind: Kind, c: Config, ttl: int, r: Reads, q: Request, t: int, clock: int,
                                     rest: real, slack: real)
    requires Positive(c) && Sound(kind, c, r, clock) && 0 < clock <= q.now <= t && q.cost >= 1
    requires var o := Evaluate(kind, c, ttl, Stored(r, ttl), q).1;
             rest <= Headroom(kind, c, if o.Admitted? then Reads(o.milli, q.now) else r, q.now)
                     + Flow(c, t - q.now) + slack
    ensures var o := Evaluate(kind, c, ttl, Stored(r, ttl), q).1;
            if o.Admitted? then
              q.cost as real + rest <= Headroom(kind, c, r, clock) + Flow(c, t - clock) + slack
                                       + 0.0005 + LossAt(c, ttl, Stored(r, ttl), q.now)
            else rest <= Headroom(kind, c, r, clock) + Flow(c, t - clock) + slack
  {
    EvaluateFits(kind, c, ttl, r, q);
    HeadroomGrows(kind, c, r, clock, q.now);
    FlowSplits(c, clock, q.now, t);
  }

  lemma HeadroomPositive(kind: Kind, c: Config, r: Reads, now: int)
    requires Positive(c) && 0 < now && Sound(kind, c, r, now)
    ensures 0.0 <= Headroom(kind, c, r, now) <= c.capacity as real
  {
    DecideByHeadroom(kind, c, r, now, 1);
  }

  /** From a known state at `clock`, what is charged until `t` fits in the headroom, the flow and the slack. */
  lemma {:induction false} ChargedFits(kind: Kind, c: Config, ttl: int, r: Reads, qs: seq<Request>, s: int, t: int,
                                       clock: int)
    requires Positive(c) && Sound(kind, c, r, clock) && 0 < clock <= t && s <= clock && Timed(qs, clock)
    ensures var b := Stored(r, ttl);
            ChargedCost(qs, Run(kind, c, ttl, b, qs), s, t) as real
              <= Headroom(kind, c, r, clock) + Flow(c, t - clock) + RunSlack(kind, c, ttl, b, qs, s, t)
    decreases |qs|
  {
    var b := Stored(r, ttl);
    if qs == [] || qs[0].now > t {
      FlowAdds(c, t - clock, 0);
      HeadroomPositive(kind, c, r, clock);
      if qs != [] {
        NoneAfter(qs, Run(kind, c, ttl, b, qs), s, t, qs[0].now);
        RunSlackStep(kind, c, ttl, b, qs, s, t);
      }
    } else {
      var q, os := qs[0], Run(kind, c, ttl, b, qs);
      var (b', o) := Evaluate(kind, c, ttl, b, q);
      var r' := if o.Admitted? then Reads(o.milli, q.now) else r;
      assert b' == Stored(r', ttl) && Sound(kind, c, r', q.now) by { EvaluateFits(kind, c, ttl, r, q); }
      ChargedFits(kind, c, ttl, r', qs[1..], s, t, q.now);
      assert os[1..] == Run(kind, c, ttl, b', qs[1..]);
      var rest := ChargedCost(qs[1..], os[1..], s, t);
      FirstFits(kind, c, ttl, r, q, t, clock, rest as real, RunSlack(kind, c, ttl, b', qs[1..], s, t));
      RunSlackStep(kind, c, ttl, b, qs, s, t);
      assert ChargedCost(qs, os, s, t) == rest + if o.Admitted? then q.cost else 0;
    }
  }

  lemma FlowSplits(c: Config, a: int, b: int, d: int)
    requires Positive(c) && a <= b <= d
    ensures Flow(c, d - a) == Flow(c, b - a) + Flow(c, d - b)
    ensures Flow(c, b - a) >= 0.0 && Flow(c, d - b) >= 0.0
  {
    FlowAdds(c, b - a, d - b);
    FlowAdds(c, d - b, 0);
    assert b - a + (d - b) == d - a;
  }

  lemma {:induction false} ChargedBoundFrom(kind: Kind, c: Config, ttl: int, r: Reads, qs: seq<Request>, s: int,
                                            t: int, clock: int)
    requires Positive(c) && Sound(kind, c, r, clock) && 0 < clock && s <= t && Timed(qs, clock)
    ensures var b := Stored(r, ttl);
            ChargedCost(qs, Run(kind, c, ttl, b, qs), s, t) as real
              <= c.capacity as real + Flow(c, t - s) + RunSlack(kind, c, ttl, b, qs, s, t)
    decreases |qs|
  {
    FlowAdds(c, t - s, 0);
    if qs != [] {
      var q, os := qs[0], Run(kind, c, ttl, Stored(r, ttl), qs);
      RunSlackStep(kind, c, ttl, Stored(r, ttl), qs, s, t);
      if q.now < s {
        EvaluateFits(kind, c, ttl, r, q);
        var (b', o) := Evaluate(kind, c, ttl, Stored(r, ttl), q);
        assert os[1..] == Run(kind, c, ttl, b', qs[1..]);
        ChargedBoundFrom(kind, c, ttl, if o.Admitted? then Reads(o.milli, q.now) else r, qs[1..], s, t, q.now);
      } else if q.now > t {
        NoneAfter(qs, os, s, t, q.now);
      } else {
        ChargedFits(kind, c, ttl, r, qs, s, t, q.now);
        DecideByHeadroom(kind, c, r, q.now, q.cost);
        FlowSplits(c, s, q.now, t);
      }
    }
  }

  /** Over every interval [s, t] of every sequential run at every rate and ttl, the cost charged is at most
      the capacity, plus what flows in, plus half a thousandth per charge, plus what the ttl did not
      refill for each charge that found its keys expired. */
  lemma ChargedBound(kind: Kind, c: Config, ttl: int, qs: seq<Request>, s: int, t: int)
    requires Positive(c) && Timed(qs, 1) && s <= t
    ensures var os := Run(kind, c, ttl, FRESH, qs);
            var charges, expired := ChargedCount(qs, os, s, t), ExpiredCount(kind, c, ttl, FRESH, qs, s, t);
            ChargedCost(qs, os, s, t) as real <= c.capacity as real + Flow(c, t - s) + Slack(c, ttl, charges, expired)
  {
    assert Stored(Reads(0, 0), ttl) == FRESH;
    ChargedBoundFrom(kind, c, ttl, Reads(0, 0), qs, s, t, 1);
  }

  /** Each request comes at most the ttl after the last charge before it; zero is no charge yet. */
  predicate Busy(qs: seq<Request>, os: seq<Outcome>, last: int, ttl: int)
    requires |qs| == |os|
  {
    qs == [] || (
      && (last == 0 || qs[0].now - last <= ttl)
      && Busy(qs[1..], os[1..], if os[0].Admitted? then qs[0].now else last, ttl))
  }

  lemma {:induction false} BusyKeepsKeys(kind: Kind, c: Config, ttl: int, r: Reads, qs: seq<Request>, s: int, t: int)
    requires Positive(c) && Busy(qs, Run(kind, c, ttl, Stored(r, ttl), qs), r.last, ttl)
    requires forall i :: 0 <= i < |qs| ==> qs[i].now != 0
    ensures ExpiredCount(kind, c, ttl, Stored(r, ttl), qs, s, t) == 0
    decreases |qs|
  {
    if qs != [] {
      var (b', o) := Evaluate(kind, c, ttl, Stored(r, ttl), qs[0]);
      var r' := if o.Admitted? then Reads(o.milli, qs[0].now) else r;
      assert b' == Stored(r', ttl);
      assert Run(kind, c, ttl, Stored(r, ttl), qs)[1..] == Run(kind, c, ttl, b', qs[1..]);
      BusyKeepsKeys(kind, c, ttl, r', qs[1..], s, t);
    }
  }

  lemma {:induction false} TimedPositive(qs: seq<Request>, clock: int)
    requires Timed(qs, clock)
    ensures forall i :: 0 <= i < |qs| ==> qs[i].now > 0
  {
    if qs != [] {
      TimedPositive(qs[1..], qs[0].now);
      forall i | 0 <= i < |qs| ensures qs[i].now > 0 {
        if i > 0 { assert qs[i] == qs[1..][i - 1]; }
      }
    }
  }

  /** So a bucket that is never left idle past its ttl keeps the plain bound, however slow its rate. */
  lemma BusyBound(kind: Kind, c: Config, ttl: int, qs: seq<Request>, s: int, t: int)
    requires Positive(c) && Timed(qs, 1) && s <= t && Busy(qs, Run(kind, c, ttl, FRESH, qs), 0, ttl)
    ensures var os := Run(kind, c, ttl, FRESH, qs);
            ChargedCost(qs, os, s, t) as real
              <= c.capacity as real + Flow(c, t - s) + 0.0005 * ChargedCount(qs, os, s, t) as real
  {
    TimedPositive(qs, 1);
    assert FRESH == Stored(Reads(0, 0), ttl);
    BusyKeepsKeys(kind, c, ttl, Reads(0, 0), qs, s, t);
    ChargedBound(kind, c, ttl, qs, s, t);
  }

  /** In particular, any run that fits into one ttl from its first request. */
  lemma {:induction false} ShortRunBusy(qs: seq<Request>, os: seq<Outcome>, first: int, last: int, ttl: int)
    requires |qs| == |os| && (last == 0 || first <= last)
    requires forall i :: 0 <= i < |qs| ==> first <= qs[i].now <= first + ttl
    ensures Busy(qs, os, last, ttl)
    decreases |qs|
  {
    if qs != [] { ShortRunBusy(qs[1..], os[1..], first, if os[0].Admitted? then qs[0].now else last, ttl); }
  }

  // ---------------------------------------------------------------- key expiry

  lemma ExpiredIsFull(kind: Kind, c: Config, ttl: int, r: Reads, now: int)
    requires Positive(c) && ttl > 0 && FullAfter(c, ttl) && 0 < now && Sound(kind, c, r, now)
    requires Expired(Stored(r, ttl).ts, now)
    ensures Headroom(kind, c, r, now) == c.capacity as real == Headroom(kind, c, Reads(0, 0), now)
  {
    FlowAdds(c, ttl + 1, now - r.last - ttl - 1);
    FlowAdds(c, now - r.last - ttl - 1, 0);
    assert ttl + 1 + (now - r.last - ttl - 1) == now - r.last;
  }

  lemma {:induction false} RunIgnoresExpiry(kind: Kind, c: Config, ttl: int, r: Reads, qs: seq<Request>, clock: int)
    requires Positive(c) && ttl > 0 && FullAfter(c, ttl) && Sound(kind, c, r, clock) && Timed(qs, clock)
    ensures Run(kind, c, ttl, Stored(r, ttl), qs) == Run(kind, c, 0, Stored(r, 0), qs)
    decreases |qs|
  {
    if qs != [] {
      var q := qs[0];
      if Expired(Stored(r, ttl).ts, q.now) {
        ExpiredIsFull(kind, c, ttl, r, q.now);
      }
      var o := Decide(kind, c, r, q.now, q.cost);
      assert Evaluate(kind, c, ttl, Stored(r, ttl), q).1 == o == Evaluate(kind, c, 0, Stored(r, 0), q).1;
      DecideByHeadroom(kind, c, r, q.now, q.cost);
      RunIgnoresExpiry(kind, c, ttl, if o.Admitted? then Reads(o.milli, q.now) else r, qs[1..], q.now);
    }
  }

  /** Draining the bucket and coming back one nanosecond after the entries expire. */
  lemma ShortTtlRefills(kind: Kind, c: Config, ttl: int)
    requires Positive(c) && ttl > 0 && !FullAfter(c, ttl)
    ensures var qs := [Request(1, c.capacity), Request(ttl + 2, c.capacity)];
            && Timed(qs, 1)
            && Run(kind, c, ttl, FRESH, qs)[1].Admitted?
            && Run(kind, c, 0, FRESH, qs)[1].Denied?
  {
    var q, q' := Request(1, c.capacity), Request(ttl + 2, c.capacity);
    var qs := [q, q'];
    assert qs[1..] == [q'];
    assert Timed([q'], 1);
    FlowAdds(c, ttl + 1, 0);
    DecideByHeadroom(kind, c, Reads(0, 0), 1, q.cost);
    DecideByHeadroom(kind, c, Reads(0, 0), q'.now, q'.cost);
    var stored := if kind.Token? then 0 else 1000 * c.capacity;
    assert Evaluate(kind, c, 0, FRESH, q).0 == Stored(Reads(stored, 1), 0);
    assert Evaluate(kind, c, ttl, FRESH, q).0 == Stored(Reads(stored, 1), ttl);
    DecideByHeadroom(kind, c, Reads(stored, 1), q'.now, q'.cost);
    assert Run(kind, c, 0, FRESH, qs)[1] == Run(kind, c, 0, Stored(Reads(stored, 1), 0), [q'])[0];
    assert Run(kind, c, ttl, FRESH, qs)[1] == Run(kind, c, ttl, Stored(Reads(stored, 1), ttl), [q'])[0];
  }

  /** Expiry of the two keys never changes a decision exactly when an idle gap longer than the ttl
      refills the bucket anyway. */
  lemma ExpiryInvisible(kind: Kind, c: Config, ttl: int)
    requires Positive(c) && ttl > 0
    ensures (forall qs :: Timed(qs, 1) ==> Run(kind, c, ttl, FRESH, qs) == Run(kind, c, 0, FRESH, qs))
       <==> FullAfter(c, ttl)
  {
    if FullAfter(c, ttl) {
      forall qs | Timed(qs, 1)
        ensures Run(kind, c, ttl, FRESH, qs) == Run(kind, c, 0, FRESH, qs)
      {
        RunIgnoresExpiry(kind, c, ttl, Reads(0, 0), qs, 1);
      }
    } else {
      ShortTtlRefills(kind, c, ttl);
    }
  }

  /** A token bucket that refills its limit once a window keeps its keys long enough if and only if the window
      is no longer than the two hours they live; ttl and window are compared in nanoseconds, an expiry strikes
      one later. */
  lemma TokenTtlCovers(limit: int, window: int)
    requires limit > 0 && window > 0
    ensures TokenConfig(0, limit, 0.0, window).Some?
    ensures (forall qs :: Timed(qs, 1) ==>
               var c := TokenConfig(0, limit, 0.0, window).value;
               Run(Token, c, TWO_HOURS, FRESH, qs) == Run(Token, c, 0, FRESH, qs))
       <==> window <= 7200 * SECOND + 1
  {
    var c := TokenConfig(0, limit, 0.0, window).value;
    TokenRefill(0, limit, 0.0, window);
    ExpiryInvisible(Token, c, TWO_HOURS);
    if window <= TWO_HOURS + 1 {
      FlowAdds(c, window, TWO_HOURS + 1 - window);
      FlowAdds(c, TWO_HOURS + 1 - window, 0);
    } else {
      FlowAdds(c, TWO_HOURS + 1, window - TWO_HOURS - 1);
      Product((window - TWO_HOURS - 1) as real / SECOND as real, c.rate);
      assert Flow(c, window - TWO_HOURS - 1) > 0.0;
    }
  }

  // ---------------------------------------------------------------- retry-after

  lemma RetryBounds(c: Config, missing: real, d: int)
    requires Positive(c) && missing > 0.0 && d >= 0
    ensures var wait := Trunc(missing / c.rate * SECOND as real);
            && wait >= 0
            && (d < wait ==> Flow(c, d) < missing)
            && (d > wait ==> Flow(c, d) >= missing)
  {
    var s := SECOND as real;
    var exact := missing / c.rate * s;
    assert missing / c.rate > 0.0;
    assert exact / s * c.rate == missing;
    if d as real < exact {
      assert d as real / s < exact / s;
      Scaled(d as real / s, exact / s, c.rate);
    } else {
      assert d as real / s >= exact / s;
      Scaled(exact / s, d as real / s, c.rate);
    }
  }

  lemma Scaled(x: real, y: real, k: real)
    requires k > 0.0
    ensures x < y ==> x * k < y * k
    ensures x <= y ==> x * k <= y * k
  {
  }

  /** A bucket that has been charged refills at the rate until it is full. */
  lemma HeadroomFills(kind: Kind, c: Config, r: Reads, t: int, u: int)
    requires Positive(c) && 0 < t <= u && Sound(kind, c, r, t) && r.last != 0
    ensures Headroom(kind, c, r, u) >= Min(c.capacity as real, Headroom(kind, c, r, t) + Flow(c, u - t))
  {
    FlowSplits(c, r.last, t, u);
  }

  lemma HintIsMissing(kind: Kind, c: Config, r: Reads, now: int, cost: int)
    requires Positive(c) && cost >= 1 && Decide(kind, c, r, now, cost).Denied?
    ensures Decide(kind, c, r, now, cost).retryAfter
         == Trunc((cost as real - Headroom(kind, c, r, now)) / c.rate * SECOND as real)
  {
    var missing := cost as real - Headroom(kind, c, r, now);
    if kind.Leaky? { assert Level(c, r, now) + cost as real - c.capacity as real == missing; }
  }

  /** When the headroom reaches the cost, in terms of the hint. */
  lemma HintInHeadroom(kind: Kind, c: Config, r: Reads, now: int, cost: int, later: int)
    requires Positive(c) && 0 < now <= later && Sound(kind, c, r, now) && Headroom(kind, c, r, now) < cost as real
    ensures var hint := Trunc((cost as real - Headroom(kind, c, r, now)) / c.rate * SECOND as real);
            && hint >= 0
            && (later < now + hint ==> Headroom(kind, c, r, later) < cost as real)
            && (later > now + hint && cost <= c.capacity ==> Headroom(kind, c, r, later) >= cost as real)
  {
    RetryBounds(c, cost as real - Headroom(kind, c, r, now), later - now);
    HeadroomGrows(kind, c, r, now, later);
    if cost <= c.capacity { HeadroomFills(kind, c, r, now, later); }
  }

  /** After a denial, with the two entries as they were: a retry before the hint is denied, one
      past it is admitted, and a cost above the capacity is never admitted. */
  lemma RetryAfterTight(kind: Kind, c: Config, r: Reads, now: int, cost: int, later: int)
    requires Positive(c) && cost >= 1 && 0 < now <= later && Sound(kind, c, r, now)
    requires Decide(kind, c, r, now, cost).Denied?
    ensures var hint := Decide(kind, c, r, now, cost).retryAfter;
            && hint >= 0
            && (later < now + hint ==> Decide(kind, c, r, later, cost).Denied?)
            && (later > now + hint && cost <= c.capacity ==> Decide(kind, c, r, later, cost).Admitted?)
            && (cost > c.capacity ==> Decide(kind, c, r, later, cost).Denied?)
  {
    DecideByHeadroom(kind, c, r, now, cost);
    DecideByHeadroom(kind, c, r, later, cost);
    HintIsMissing(kind, c, r, now, cost);
    HintInHeadroom(kind, c, r, now, cost, later);
  }

  // ---------------------------------------------------------------- duality

  /** The value lies exactly midway between two thousandths. */
  predicate Tie(x: real) {
    (x * 1000.0 + 0.5).Floor as real == x * 1000.0 + 0.5
  }

  /** Rounding a value and its complement adds up to the whole unless the value is a tie. */
  lemma ComplementRounds(n: int, x: real)
    ensures Round(x * 1000.0) + Round((n as real - x) * 1000.0) == 1000 * n + (if Tie(x) then 1 else 0)
  {
    var y := x * 1000.0;
    assert (n as real - x) * 1000.0 == (1000 * n) as real - y;
  }

  /** Stored pairs that describe the same bucket from both sides. */
  predicate Dual(c: Config, token: Reads, leaky: Reads) {
    && token.last == leaky.last
    && (token.last == 0 ==> token.milli == 0 == leaky.milli)
    && (token.last != 0 ==> token.milli + leaky.milli == 1000 * c.capacity)
  }

  predicate SameOutcome(c: Config, token: Outcome, leaky: Outcome) {
    match token
    case Admitted(m, rest) => leaky.Admitted? && rest == leaky.remaining && m + leaky.milli == 1000 * c.capacity
    case Denied(wait, _) => leaky.Denied? && wait == leaky.retryAfter
    case Contention => leaky.Contention?
  }

  lemma DualStep(c: Config, token: Reads, leaky: Reads, now: int, cost: int)
    requires Positive(c) && cost >= 1 && 0 < now && Dual(c, token, leaky)
    requires Sound(Token, c, token, now) && Sound(Leaky, c, leaky, now)
    ensures Headroom(Token, c, token, now) == Headroom(Leaky, c, leaky, now)
    ensures var t, l := Decide(Token, c, token, now, cost), Decide(Leaky, c, leaky, now, cost);
            SameOutcome(c, t, l) <==> !(t.Admitted? && Tie(Tokens(c, token, now) - cost as real))
  {
    FlowAdds(c, now - token.last, 0);
    assert Headroom(Token, c, token, now) == Headroom(Leaky, c, leaky, now);
    ComplementRounds(c.capacity, Tokens(c, token, now) - cost as real);
  }

  /** No charge of the token run stores a tie. */
  predicate NoTies(c: Config, r: Reads, qs: seq<Request>)
    requires Positive(c)
    decreases |qs|
  {
    qs == [] ||
    var o := Decide(Token, c, r, qs[0].now, qs[0].cost);
    && (o.Admitted? ==> !Tie(Tokens(c, r, qs[0].now) - qs[0].cost as real))
    && NoTies(c, if o.Admitted? then Reads(o.milli, qs[0].now) else r, qs[1..])
  }

  predicate SameOutcomes(c: Config, ts: seq<Outcome>, ls: seq<Outcome>)
    requires |ts| == |ls|
  {
    ts == [] || (SameOutcome(c, ts[0], ls[0]) && SameOutcomes(c, ts[1..], ls[1..]))
  }

  lemma {:induction false} DualRun(c: Config, token: Reads, leaky: Reads, qs: seq<Request>, clock: int)
    requires Positive(c) && Dual(c, token, leaky) && Timed(qs, clock)
    requires Sound(Token, c, token, clock) && Sound(Leaky, c, leaky, clock)
    ensures SameOutcomes(c, Run(Token, c, 0, Stored(token, 0), qs), Run(Leaky, c, 0, Stored(leaky, 0), qs))
       <==> NoTies(c, token, qs)
    decreases |qs|
  {
    if qs != [] {
      var q := qs[0];
      DualStep(c, token, leaky, q.now, q.cost);
      DecideByHeadroom(Token, c, token, q.now, q.cost);
      DecideByHeadroom(Leaky, c, leaky, q.now, q.cost);
      var t, l := Decide(Token, c, token, q.now, q.cost), Decide(Leaky, c, leaky, q.now, q.cost);
      var token' := if t.Admitted? then Reads(t.milli, q.now) else token;
      var leaky' := if l.Admitted? then Reads(l.milli, q.now) else leaky;
      var ts, ls := Run(Token, c, 0, Stored(token', 0), qs[1..]), Run(Leaky, c, 0, Stored(leaky', 0), qs[1..]);
      assert ([t] + ts)[1..] == ts && ([l] + ls)[1..] == ls;
      assert Run(Token, c, 0, Stored(token, 0), qs) == [t] + ts;
      assert Run(Leaky, c, 0, Stored(leaky, 0), qs) == [l] + ls;
      if SameOutcome(c, t, l) {
        DualRun(c, token', leaky', qs[1..], q.now);
      }
    }
  }

  /** With equal capacity and rate and no expiry, the two algorithms admit the same requests with the
      same Remaining and the same retry hints, and their stored values always add up to the capacity,
      exactly on the runs that store no tie. */
  lemma TokenLeakyDuality(c: Config, qs: seq<Request>)
    requires Positive(c) && Timed(qs, 1)
    ensures SameOutcomes(c, Run(Token, c, 0, FRESH, qs), Run(Leaky, c, 0, FRESH, qs))
       <==> NoTies(c, Reads(0, 0), qs)
  {
    assert Stored(Reads(0, 0), 0) == FRESH;
    DualRun(c, Reads(0, 0), Reads(0, 0), qs, 1);
  }

  /** A tie does break the agreement: both sides round up, and a later request is admitted by the
      token bucket only. */
  lemma TieBreaksDuality()
    ensures var c := Config(2, 0.5005);
            var qs := [Request(1, 1), Request(SECOND + 1, 1), Request(SECOND + 998_000_001, 1)];
            && Positive(c) && Timed(qs, 1)
            && Run(Token, c, 0, FRESH, qs)[2].Admitted?
            && Run(Leaky, c, 0, FRESH, qs)[2].Denied?
  {
    var c := Config(2, 0.5005);
    var a, b, d := Request(1, 1), Request(SECOND + 1, 1), Request(SECOND + 998_000_001, 1);
    var qs := [a, b, d];
    assert qs[1..] == [b, d] && [b, d][1..] == [d];
    assert Timed([d], b.now) && Timed([b, d], a.now);
    assert Evaluate(Token, c, 0, FRESH, a).0 == Stored(Reads(1000, a.now), 0);
    assert Evaluate(Leaky, c, 0, FRESH, a).0 == Stored(Reads(1000, a.now), 0);
    assert Evaluate(Token, c, 0, Stored(Reads(1000, a.now), 0), b).0 == Stored(Reads(501, b.now), 0);
    assert Evaluate(Leaky, c, 0, Stored(Reads(1000, a.now), 0), b).0 == Stored(Reads(1500, b.now), 0);
    assert Run(Token, c, 0, FRESH, qs)[2] == Run(Token, c, 0, Stored(Reads(501, b.now), 0), [d])[0];
    assert Run(Leaky, c, 0, FRESH, qs)[2] == Run(Leaky, c, 0, Stored(Reads(1500, b.now), 0), [d])[0];
  }

  // ---------------------------------------------------------------- overlapping evaluations

  /** A bucket with `free` whole units of headroom at its last charge. */
  function Holding(kind: Kind, c: Config, free: int, last: int): Reads {
    Reads(if kind.Token? then 1000 * free else 1000 * (c.capacity - free), last)
  }

  /** Read at `now`, the bucket is full whatever its level: a token bucket without a timestamp, a bucket
      without anything, or one left idle for as long as it takes to fill. */
  predicate Refilled(kind: Kind, c: Config, r: Reads, now: int) {
    && 0 <= r.milli <= 1000 * c.capacity
    && if r.last == 0 then kind.Token? || r.milli == 0
       else 0 < r.last <= now && Flow(c, now - r.last) >= c.capacity as real
  }

  /** The timestamp is written after the swap.  An evaluation that reads between the two finds the new level
      with the old timestamp, or with none: the bucket looks full again, so long as it did before. */
  lemma LateTimestampRefills(kind: Kind, c: Config, r: Reads, now: int, cost: int)
    requires Positive(c) && Refilled(kind, c, r, now) && 1 <= cost <= c.capacity
    ensures var o := Decide(kind, c, r, now, cost);
            && o.Admitted? && o.milli == Holding(kind, c, c.capacity - cost, now).milli
            && (r.last != 0 || kind.Token? ==> Refilled(kind, c, Reads(o.milli, r.last), now))
  {
    WholeUnits(c.capacity - cost);
    WholeUnits(cost);
    assert kind.Token? ==> Tokens(c, r, now) == c.capacity as real;
    assert kind.Leaky? ==> Level(c, r, now) == 0.0;
  }

  lemma WholeUnits(n: int)
    ensures Round(n as real * 1000.0) == 1000 * n
  {
    assert n as real * 1000.0 == (1000 * n) as real;
  }

  /** In whole units: what flowed in is added up to the capacity, and the cost taken. */
  lemma DecideWhole(kind: Kind, c: Config, free: int, last: int, now: int, flow: int, cost: int)
    requires Positive(c) && 0 <= free <= c.capacity && 0 < last && flow >= 0 && Flow(c, now - last) == flow as real
    requires free + flow <= c.capacity && 1 <= cost <= free + flow
    ensures var o := Decide(kind, c, Holding(kind, c, free, last), now, cost);
            o.Admitted? && Reads(o.milli, now) == Holding(kind, c, free + flow - cost, now)
  {
    var r := Holding(kind, c, free, last);
    WholeUnits(free + flow - cost);
    WholeUnits(c.capacity - (free + flow - cost));
    assert kind.Token? ==> Tokens(c, r, now) == (free + flow) as real;
    assert kind.Leaky? ==> Level(c, r, now) == (c.capacity - free - flow) as real;
  }

  /** In general a timestamp older than the last charge adds the flow in between, up to a full bucket; so does
      a charge by a clock that went back, which leaves one. */
  lemma OlderTimestampRefills(kind: Kind, c: Config, milli: int, older: int, last: int, now: int)
    requires Positive(c) && 0 < older <= last <= now && 0 <= milli <= 1000 * c.capacity
    ensures Headroom(kind, c, Reads(milli, older), now)
         == Min(c.capacity as real, Headroom(kind, c, Reads(milli, last), now) + Flow(c, last - older))
  {
    FlowSplits(c, older, last, now);
  }

  /** The swap compares levels only.  A charge of exactly what flowed in since the last one leaves the level
      as it was, so an evaluation that read before it can still swap after it, and takes the same flow a
      second time: it sees `k` more headroom than there is, up to a full bucket. */
  lemma EqualLevelHidesCharge(kind: Kind, c: Config, r: Reads, t: int, later: int, k: int)
    requires Positive(c) && 0 < r.last < t <= later && Sound(kind, c, r, t) && k >= 1
    requires Flow(c, t - r.last) == k as real && Headroom(kind, c, r, t) == Headroom(kind, c, r, r.last) + k as real
    ensures var o := Decide(kind, c, r, t, k);
            && o.Admitted? && o.milli == r.milli
            && Headroom(kind, c, r, later)
                 == Min(c.capacity as real, Headroom(kind, c, Reads(o.milli, t), later) + k as real)
  {
    UnchangedLevel(kind, c, r, t, k);
    OlderTimestampRefills(kind, c, r.milli, r.last, t, later);
  }

  lemma UnchangedLevel(kind: Kind, c: Config, r: Reads, t: int, k: int)
    requires Positive(c) && 0 < r.last < t && Sound(kind, c, r, t) && k >= 1
    requires Headroom(kind, c, r, t) == Headroom(kind, c, r, r.last) + k as real
    ensures Decide(kind, c, r, t, k).Admitted? && Decide(kind, c, r, t, k).milli == r.milli
  {
    var x := r.milli as real / 1000.0;
    assert x * 1000.0 == r.milli as real;
    assert Round(x * 1000.0) == r.milli;
    DecideByHeadroom(kind, c, r, t, k);
    assert Flow(c, 0) == 0.0;
    match kind {
      case Token => assert Tokens(c, r, r.last) == x && Tokens(c, r, t) - k as real == x;
      case Leaky => assert Level(c, r, r.last) == x && Level(c, r, t) + k as real == x;
    }
  }
}
