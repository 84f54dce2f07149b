/** Window configuration, defaults and calendar arithmetic shared by the algorithms, in UTC.

    Times are nanoseconds since the Unix epoch.  Go truncates relative to its zero time, the first
    instant of year 1, a Monday. */
module Windows {
  import opened Calendar
  import opened Common

  const MINUTE: int := 60 * SECOND
  const DAY: int := 24 * 60 * MINUTE
  const WEEK: int := 7 * DAY

  /** From the zero time to the Unix epoch. */
  const EPOCH: int := 62_135_596_800 * SECOND

  /** The window string after parsing: empty, a duration, a period alias, or none of these. */
  datatype Window = Unset | Parsed(ns: int) | Daily | Weekly | Monthly | Unrecognised

  function Duration(w: Window): int {
    match w
    case Unset => MINUTE
    case Parsed(d) => d
    case Daily => DAY
    case Weekly => WEEK
    case Monthly => 30 * DAY
    case Unrecognised => MINUTE
  }

  /** Rounds down to a multiple of `d` since the zero time; a nonpositive `d` leaves `t` alone. */
  function Truncate(t: int, d: int): int {
    if d <= 0 then t else (t + EPOCH) / d * d - EPOCH
  }

  /** Sunday is 0. */
  function Weekday(t: int): int {
    (DayOf(t) + 1) % 7
  }

  /** The instant a day begins. */
  function Midnight(day: int): int {
    day * DAY - EPOCH
  }

  function DayOf(t: int): int {
    (t + EPOCH) / DAY
  }

  function Start(w: Window, t: int): int {
    match w
    case Monthly => Midnight(MonthBegin(MonthOf(DayOf(t))))
    case Weekly =>
      var sinceMonday := (Weekday(t) + 6) % 7;
      Midnight(DayOf(t) - sinceMonday)
    case _ => Truncate(t, Duration(w))
  }

  function End(w: Window, t: int): int {
    match w
    case Monthly => Midnight(MonthBegin(MonthOf(DayOf(t)) + 1))
    case Weekly => Start(w, t) + WEEK
    case _ => Start(w, t) + Duration(w)
  }

  /** Policy override, else request quantity, else one. */
  function Cost(costPerRequest: int, quantity: int): (cost: int)
    ensures cost >= 1
    ensures costPerRequest > 0 ==> cost == costPerRequest
    ensures costPerRequest <= 0 && quantity > 0 ==> cost == quantity
    ensures cost > 1 ==> costPerRequest > 0 || quantity > 0
  {
    if costPerRequest > 0 then costPerRequest else if quantity > 0 then quantity else 1
  }

  function EffectiveLimit(limit: int): (n: int)
    ensures n >= 1 && n >= limit && (n > 1 ==> n == limit)
  {
    if limit <= 0 then 1 else limit
  }

  /** A quota's period, a day unless configured. */
  function QuotaWindow(period: Window): Window {
    if period.Unset? then Daily else period
  }

  const DEFAULT_MAX_RETRIES: int := 5

  /** Attempts at the compare-and-swap: the configured number if positive. */
  function MaxRetries(configured: int): (n: nat)
    ensures n > 0
    ensures if configured > 0 then n == configured else n == 5
  {
    if configured > 0 then configured else DEFAULT_MAX_RETRIES
  }

  /** The calendar week is a plain truncation to seven days. */
  lemma WeekStart(t: int)
    ensures Start(Weekly, t) == Truncate(t, WEEK)
  {
    var day := DayOf(t);
    assert (Weekday(t) + 6) % 7 == day % 7;
    assert (t + EPOCH) / WEEK == day / 7 by {
      var r := (t + EPOCH) % DAY;
      assert t + EPOCH == (7 * (day / 7) + day % 7) * DAY + r;
      Quotient(t + EPOCH, WEEK, day / 7, day % 7 * DAY + r);
    }
  }

  lemma Quotient(x: int, d: int, q: int, r: int)
    requires d > 0 && x == q * d + r && 0 <= r < d
    ensures x / d == q
  {
    var k := x / d - q;
    assert k * d == x / d * d - q * d == r - x % d;
    if k != 0 { NonzeroMultiple(k, d); }
  }

  lemma NonzeroMultiple(k: int, d: int)
    requires k != 0 && d > 0
    ensures k * d >= d || k * d <= -d
  {
    if k > 0 { Multiples(0, k, d); } else { Multiples(k, 0, d); }
  }

  lemma StartTruncates(w: Window, t: int)
    requires !w.Monthly?
    ensures Start(w, t) == Truncate(t, Duration(w))
  {
    if w.Weekly? { WeekStart(t); }
  }

  /** Windows of positive length tile time: each instant lies in its own window, every instant of a
      window has the same start, and two windows are equal or at least one length apart. */
  lemma WindowsTile(w: Window, t: int, u: int)
    requires !w.Monthly? && Duration(w) > 0
    ensures Start(w, t) <= t < End(w, t) == Start(w, t) + Duration(w)
    ensures Start(w, t) <= u < End(w, t) <==> Start(w, u) == Start(w, t)
    ensures Start(w, u) == Start(w, t) || Start(w, u) >= Start(w, t) + Duration(w)
            || Start(w, u) <= Start(w, t) - Duration(w)
    ensures Start(w, Start(w, t) - Duration(w)) == Start(w, t) - Duration(w)
  {
    var d := Duration(w);
    StartTruncates(w, t);
    StartTruncates(w, u);
    StartTruncates(w, Truncate(t, d) - d);
    TruncateTiles(t, u, d);
    TruncateEarlier(t, d);
  }

  lemma TruncateEarlier(t: int, d: int)
    requires d > 0
    ensures Truncate(Truncate(t, d) - d, d) == Truncate(t, d) - d
  {
    var q := (t + EPOCH) / d;
    assert Truncate(t, d) - d + EPOCH == (q - 1) * d;
    Quotient(Truncate(t, d) - d + EPOCH, d, q - 1, 0);
  }

  lemma TruncateTiles(t: int, u: int, d: int)
    requires d > 0
    ensures Truncate(t, d) <= t < Truncate(t, d) + d
    ensures Truncate(t, d) <= u < Truncate(t, d) + d <==> Truncate(u, d) == Truncate(t, d)
    ensures Truncate(u, d) == Truncate(t, d) || Truncate(u, d) >= Truncate(t, d) + d
            || Truncate(u, d) <= Truncate(t, d) - d
  {
    var q, p := (t + EPOCH) / d, (u + EPOCH) / d;
    if p < q { Multiples(p, q, d); } else if q < p { Multiples(q, p, d); }
  }

  lemma Multiples(p: int, q: int, d: int)
    requires p < q && d > 0
    ensures p * d + d <= q * d
  {
    assert (p + 1) * d <= q * d;
  }

  // ---------------------------------------------------------------- months

  lemma DaysBetween(t: int, a: int, b: int)
    ensures Midnight(a) <= t < Midnight(b) <==> a <= DayOf(t) < b
  {
  }

  lemma DaysDiffer(a: int, b: int)
    ensures Midnight(a) == Midnight(b) <==> a == b
  {
  }

  lemma DaysAdd(a: int, days: int)
    ensures Midnight(a + days) == Midnight(a) + days * DAY
    ensures DayOf(Midnight(a)) == a
  {
  }

  /** The calendar agrees with the epoch: January 1970 begins at time zero. */
  lemma EpochIsJanuary(year: nat)
    requires year == 1970
    ensures Midnight(MonthBegin(12 * (year - 1))) == 0
  {
    YearBegin(year - 1);
    assert DaysBefore(year - 1) == 719162;
  }

  lemma InMonth(t: int, n: int)
    ensures Midnight(MonthBegin(n)) <= t < Midnight(MonthBegin(n + 1)) <==> MonthOf(DayOf(t)) == n
  {
    var day, a, b := DayOf(t), MonthBegin(n), MonthBegin(n + 1);
    DaysBetween(t, a, b);
    if a <= day < b { MonthUnique(day, n); }
    InItsMonth(day);
  }

  /** Months, like the other windows: each instant lies in its own, and exactly its instants share it. */
  lemma MonthsPartition(t: int, u: int)
    ensures Start(Monthly, t) <= t < End(Monthly, t)
    ensures Start(Monthly, t) <= u < End(Monthly, t) <==> Start(Monthly, u) == Start(Monthly, t)
  {
    var n, m := MonthOf(DayOf(t)), MonthOf(DayOf(u));
    InMonth(t, n);
    assert Start(Monthly, t) <= u < End(Monthly, t) <==> m == n by { InMonth(u, n); }
    assert Start(Monthly, u) == Start(Monthly, t) <==> m == n by {
      MonthsDiffer(m, n);
      DaysDiffer(MonthBegin(m), MonthBegin(n));
    }
  }

  /** Every kind of window cuts time into half-open pieces: each instant lies in its own window, and
      exactly the instants of a window share its start. */
  lemma WindowsPartition(w: Window, t: int, u: int)
    requires Duration(w) > 0
    ensures Start(w, t) <= t < End(w, t)
    ensures Start(w, t) <= u < End(w, t) <==> Start(w, u) == Start(w, t)
  {
    if w.Monthly? { MonthsPartition(t, u); } else { WindowsTile(w, t, u); }
  }

  /** A window is as long as its duration says, except that a month is as long as it is. */
  lemma WindowLength(w: Window, t: int)
    ensures End(w, t) == Start(w, t) + if w.Monthly? then MonthDays(MonthOf(DayOf(t))) * DAY else Duration(w)
  {
    if w.Monthly? {
      var n := MonthOf(DayOf(t));
      MonthLength(n);
      DaysAdd(MonthBegin(n), MonthDays(n));
    }
  }

  /** `next` is the first instant after `t` that lies in another window. */
  ghost predicate FirstOutside(w: Window, t: int, next: int) {
    t < next && Start(w, next) != Start(w, t) && forall u :: t <= u < next ==> Start(w, u) == Start(w, t)
  }

  lemma EndIsFirstOutside(w: Window, t: int)
    requires Duration(w) > 0
    ensures FirstOutside(w, t, End(w, t))
  {
    WindowsPartition(w, t, End(w, t));
    forall u | t <= u < End(w, t) ensures Start(w, u) == Start(w, t) {
      WindowsPartition(w, t, u);
    }
  }

  /** Without a window, or with one nobody understands, windows are the minutes of the clock; a quota without a
      period, and a daily window, are the days of the calendar. */
  lemma DefaultWindows(w: Window, t: int)
    ensures (w.Unset? || w.Unrecognised? ==> Start(w, t) % (60 * SECOND) == 0 && 0 <= t - Start(w, t) < 60 * SECOND)
    ensures var d := QuotaWindow(w);
            (w.Unset? || w.Daily? ==> Start(d, t) == Midnight(DayOf(t)) && 0 <= t - Start(d, t) < 86_400 * SECOND)
    ensures !w.Unset? ==> QuotaWindow(w) == w
    ensures w.Weekly? ==> 0 <= t - Start(w, t) < 7 * 86_400 * SECOND
    ensures w.Parsed? && w.ns > 0 ==> (Start(w, t) + EPOCH) % w.ns == 0 && 0 <= t - Start(w, t) < w.ns
    ensures w.Parsed? && w.ns <= 0 ==> Start(w, t) == t
  {
    if !w.Monthly? && Duration(w) > 0 {
      WindowsTile(w, t, t);
      MultipleOf((t + EPOCH) / Duration(w), Duration(w));
    }
    MinuteMultiple((t + EPOCH) / MINUTE);
  }

  lemma MultipleOf(k: int, d: int)
    requires d > 0
    ensures k * d % d == 0
  {
    Quotient(k * d, d, k, 0);
  }

  lemma MinuteMultiple(k: int)
    ensures (k * MINUTE - EPOCH) % (60 * SECOND) == 0
  {
  }

  lemma MonthOfMidnight(n: int)
    ensures MonthOf(DayOf(Midnight(MonthBegin(n)))) == n
  {
    DaysAdd(MonthBegin(n), 0);
    MonthLength(n);
    MonthUnique(MonthBegin(n), n);
  }

  lemma DayBefore(day: int)
    ensures DayOf(Midnight(day) - 1) == day - 1
  {
  }

  lemma MonthOfLastDay(n: int)
    ensures MonthOf(DayOf(Midnight(MonthBegin(n)) - 1)) == n - 1
  {
    var day := MonthBegin(n);
    assert MonthBegin(n - 1) <= day - 1 < day by { MonthLength(n - 1); }
    DayBefore(day);
    MonthUnique(day - 1, n - 1);
  }

  /** The month before the one of `t` began 30 days earlier only if it had 30 days. */
  lemma PreviousMonthIff(t: int)
    ensures var first := Start(Monthly, t);
            && Start(Monthly, first) == first != Start(Monthly, first - 1)
            && (Start(Monthly, first - 1) == first - Duration(Monthly) <==> MonthDays(MonthOf(DayOf(t)) - 1) == 30)
  {
    var n := MonthOf(DayOf(t));
    var a, b := MonthBegin(n - 1), MonthBegin(n);
    MonthOfMidnight(n);
    MonthOfLastDay(n);
    assert b == a + MonthDays(n - 1) by { MonthLength(n - 1); }
    DaysDiffer(a, b);
    DaysDiffer(a, b - 30);
    DaysAdd(b - 30, 30);
  }

  /** In a month of 31 days, one duration and an instant after its start, the month is not over. */
  lemma LongMonthTail(w: Window, t: int)
    requires w.Monthly? && MonthDays(MonthOf(DayOf(t))) == 31
    ensures var first, late := Start(w, t), Start(w, t) + Duration(w) + 1;
            first == Start(w, first) == Start(w, late) && late < End(w, t)
  {
    var first, late := Start(w, t), Start(w, t) + Duration(w) + 1;
    assert late < End(w, t) by { WindowLength(w, t); }
    WindowsPartition(w, t, first);
    WindowsPartition(w, t, late);
  }
}
