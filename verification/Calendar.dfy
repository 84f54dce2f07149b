/** The Gregorian calendar, carried backwards without end.  Days are counted from the first of January
    of year 1, months from that January. */
module Calendar {

  predicate Leap(year: int) {
    year % 4 == 0 && (year % 100 != 0 || year % 400 == 0)
  }

  /** Days of the n-th month. */
  function MonthDays(n: int): (days: int)
    ensures 28 <= days <= 31
  {
    var m := n % 12;
    if m == 1 then if Leap(n / 12 + 1) then 29 else 28
    else if m == 3 || m == 5 || m == 8 || m == 10 then 30
    else 31
  }

  /** The first day of the n-th month. */
  function MonthBegin(n: int): int
    decreases if n < 0 then -n else n
  {
    if n == 0 then 0
    else if n > 0 then MonthBegin(n - 1) + MonthDays(n - 1)
    else MonthBegin(n + 1) - MonthDays(n)
  }

  lemma MonthLength(n: int)
    ensures MonthBegin(n + 1) == MonthBegin(n) + MonthDays(n)
  {
  }

  lemma {:induction false} MonthOrder(a: int, b: int)
    requires a < b
    ensures MonthBegin(a) + 28 * (b - a) <= MonthBegin(b) <= MonthBegin(a) + 31 * (b - a)
    decreases b - a
  {
    MonthLength(b - 1);
    if a < b - 1 { MonthOrder(a, b - 1); }
  }

  /** A month that begins no later than the day. */
  function Guess(day: int): (n: int)
    ensures MonthBegin(n) <= day
  {
    var n := if day >= 0 then day / 31 else day / 28;
    if n > 0 then MonthOrder(0, n); n
    else if n < 0 then MonthOrder(n, 0); n
    else n
  }

  function Search(day: int, n: int): int
    requires MonthBegin(n) <= day
    decreases day - MonthBegin(n)
  {
    MonthLength(n);
    if day < MonthBegin(n + 1) then n else Search(day, n + 1)
  }

  lemma {:induction false} SearchFinds(day: int, n: int)
    requires MonthBegin(n) <= day
    ensures MonthBegin(Search(day, n)) <= day < MonthBegin(Search(day, n) + 1)
    decreases day - MonthBegin(n)
  {
    MonthLength(n);
    if MonthBegin(n + 1) <= day { SearchFinds(day, n + 1); }
  }

  /** The month a day lies in. */
  function MonthOf(day: int): int {
    Search(day, Guess(day))
  }

  lemma InItsMonth(day: int)
    ensures MonthBegin(MonthOf(day)) <= day < MonthBegin(MonthOf(day) + 1)
  {
    SearchFinds(day, Guess(day));
  }

  lemma MonthUnique(day: int, n: int)
    requires MonthBegin(n) <= day < MonthBegin(n + 1)
    ensures MonthOf(day) == n
  {
    var r := MonthOf(day);
    InItsMonth(day);
    if r + 1 < n { MonthOrder(r + 1, n); }
    if n + 1 < r { MonthOrder(n + 1, r); }
  }

  lemma MonthsDiffer(m: int, n: int)
    ensures MonthBegin(m) == MonthBegin(n) <==> m == n
  {
    if m < n { MonthOrder(m, n); } else if n < m { MonthOrder(n, m); }
  }

  // ---------------------------------------------------------------- years

  /** Days before the year that is `y` years after year 1. */
  function DaysBefore(y: int): int {
    365 * y + y / 4 - y / 100 + y / 400
  }

  lemma Fours(y: int)
    ensures (y + 1) / 4 == y / 4 + if (y + 1) % 4 == 0 then 1 else 0
  {
  }

  lemma Centuries(y: int)
    ensures (y + 1) / 100 == y / 100 + if (y + 1) % 100 == 0 then 1 else 0
    ensures y % 100 == 0 ==> y % 4 == 0
  {
    assert y == 4 * (25 * (y / 100)) + y % 100;
  }

  lemma FourCenturies(y: int)
    ensures (y + 1) / 400 == y / 400 + if (y + 1) % 400 == 0 then 1 else 0
    ensures y % 400 == 0 ==> y % 100 == 0
  {
    assert y == 100 * (4 * (y / 400)) + y % 400;
  }

  lemma YearLength(y: int)
    ensures DaysBefore(y + 1) == DaysBefore(y) + 365 + if Leap(y + 1) then 1 else 0
  {
    Fours(y);
    Centuries(y);
    Centuries(y + 1);
    FourCenturies(y);
    FourCenturies(y + 1);
  }

  lemma MonthInYear(y: int, m: int)
    requires 0 <= m < 12
    ensures MonthBegin(12 * y + m + 1) == MonthBegin(12 * y + m) +
      if m == 1 then if Leap(y + 1) then 29 else 28 else if m == 3 || m == 5 || m == 8 || m == 10 then 30 else 31
  {
    var n := 12 * y + m;
    assert n % 12 == m && n / 12 == y;
    MonthLength(n);
  }

  lemma TwelveMonths(y: int)
    ensures MonthBegin(12 * (y + 1)) == MonthBegin(12 * y) + 365 + if Leap(y + 1) then 1 else 0
  {
    MonthInYear(y, 0); MonthInYear(y, 1); MonthInYear(y, 2); MonthInYear(y, 3);
    MonthInYear(y, 4); MonthInYear(y, 5); MonthInYear(y, 6); MonthInYear(y, 7);
    MonthInYear(y, 8); MonthInYear(y, 9); MonthInYear(y, 10); MonthInYear(y, 11);
    assert 12 * (y + 1) == 12 * y + 11 + 1;
  }

  /** Counting month by month gives the leap-year rule. */
  lemma {:induction false} YearBegin(y: nat)
    ensures MonthBegin(12 * y) == DaysBefore(y)
  {
    if y > 0 {
      YearBegin(y - 1);
      TwelveMonths(y - 1);
      YearLength(y - 1);
    }
  }
}
