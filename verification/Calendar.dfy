/** The proleptic Gregorian calendar that time.Time exposes, on day numbers counted from
    Monday, 1 January of year 1 (the day of Go's zero time). */
module Calendar {
  import opened Arith

  datatype Date = Date(year: int, month: int, day: int)

  predicate Leap(y: int) { y % 4 == 0 && (y % 100 != 0 || y % 400 == 0) }

  function MonthLength(y: int, m: int): int {
    if m == 2 then (if Leap(y) then 29 else 28)
    else if m == 4 || m == 6 || m == 9 || m == 11 then 30 else 31
  }

  /** Days of a year before its month m. */
  function MonthStart(leap: bool, m: int): int {
    var l := if leap then 1 else 0;
    if m <= 1 then 0 else if m == 2 then 31 else if m == 3 then 59 + l else if m == 4 then 90 + l
    else if m == 5 then 120 + l else if m == 6 then 151 + l else if m == 7 then 181 + l
    else if m == 8 then 212 + l else if m == 9 then 243 + l else if m == 10 then 273 + l
    else if m == 11 then 304 + l else if m == 12 then 334 + l else 365 + l
  }

  function MonthOf(leap: bool, yday: int): (m: int)
    requires 0 <= yday < 365 + (if leap then 1 else 0)
    ensures 1 <= m <= 12 && MonthStart(leap, m) <= yday < MonthStart(leap, m + 1)
  {
    if yday < MonthStart(leap, 2) then 1 else if yday < MonthStart(leap, 3) then 2
    else if yday < MonthStart(leap, 4) then 3 else if yday < MonthStart(leap, 5) then 4
    else if yday < MonthStart(leap, 6) then 5 else if yday < MonthStart(leap, 7) then 6
    else if yday < MonthStart(leap, 8) then 7 else if yday < MonthStart(leap, 9) then 8
    else if yday < MonthStart(leap, 10) then 9 else if yday < MonthStart(leap, 11) then 10
    else if yday < MonthStart(leap, 12) then 11 else 12
  }

  /** A day as whole cycles of 400, 100, 4 and 1 years plus a day of the year. */
  datatype Cycles = Cycles(n400: int, n100: int, n4: int, n1: int, yday: int) {
    function Days(): int { 146097 * n400 + 36524 * n100 + 1461 * n4 + 365 * n1 + yday }
    function Year(): int { 400 * n400 + 100 * n100 + 4 * n4 + n1 + 1 }

    predicate IsLeap() { n1 == 3 && (n4 != 24 || n100 == 3) }

    /** Every cycle is cut short of the next longer one. */
    predicate Normal() {
      0 <= n100 <= 3 && 0 <= n4 <= 24 && 0 <= n1 <= 3 && 0 <= yday < 365 + (if IsLeap() then 1 else 0)
    }
  }

  function CutOff(d: int, unit: int, limit: int): (r: (int, int))
    requires 0 <= d && 0 < unit
    ensures r.0 == (if d / unit > limit then limit else d / unit) && r.1 == d - r.0 * unit
  {
    var k := if d / unit > limit then limit else d / unit;
    (k, d - k * unit)
  }

  function ToCycles(n: int): (c: Cycles)
    ensures c.Normal() && c.Days() == n
  {
    var (n100, d100) := CutOff(n % 146097, 36524, 3);
    assert 0 <= n100 <= 3 && 0 <= d100 <= 36524 && (n100 < 3 ==> d100 < 36524);
    var (n4, d4) := CutOff(d100, 1461, 24);
    assert 0 <= n4 <= 24 && 0 <= d4 <= 1460 && (n4 == 24 && n100 < 3 ==> d4 <= 1459);
    var (n1, yday) := CutOff(d4, 365, 3);
    Cycles(n / 146097, n100, n4, n1, yday)
  }

  /** A year that is the r-th after a multiple of d, counting to d, is divisible only if r == d. */
  lemma LastOfCycle(y: int, k: int, r: int, d: int)
    requires y == k * d + r && 1 <= r <= d
    ensures y % d == 0 <==> r == d
  {
    if r == d { DivUnique(y, k + 1, 0, d); } else { DivUnique(y, k, r, d); }
  }

  lemma LeapCycles(c: Cycles)
    requires c.Normal()
    ensures Leap(c.Year()) == c.IsLeap()
  {
    var y := c.Year();
    LastOfCycle(y, 100 * c.n400 + 25 * c.n100 + c.n4, c.n1 + 1, 4);
    if c.n1 == 3 {
      LastOfCycle(y, 4 * c.n400 + c.n100, 4 * (c.n4 + 1), 100);
      if c.n4 == 24 { LastOfCycle(y, c.n400, 100 * (c.n100 + 1), 400); }
    }
  }

  lemma NormalUnique(a: Cycles, b: Cycles)
    requires a.Normal() && b.Normal() && a.Days() == b.Days()
    ensures a == b
  {
    var d4a, d4b := 365 * a.n1 + a.yday, 365 * b.n1 + b.yday;
    var d100a, d100b := 1461 * a.n4 + d4a, 1461 * b.n4 + d4b;
    var d400a, d400b := 36524 * a.n100 + d100a, 36524 * b.n100 + d100b;
    assert 0 <= d400a < 146097 && 0 <= d400b < 146097;
    assert a.n400 == b.n400;
    assert a.n100 == b.n100;
    assert a.n4 == b.n4;
  }

  function NextCycles(c: Cycles): (d: Cycles)
    requires c.Normal()
    ensures d.Normal() && d.Days() == c.Days() + 1
    ensures if c.yday + 1 < 365 + (if c.IsLeap() then 1 else 0) then d == c.(yday := c.yday + 1) else d.yday == 0 && d.Year() == c.Year() + 1
  {
    if c.yday + 1 < 365 + (if c.IsLeap() then 1 else 0) then c.(yday := c.yday + 1)
    else if c.n1 < 3 then c.(yday := 0, n1 := c.n1 + 1)
    else if c.n4 < 24 then c.(yday := 0, n1 := 0, n4 := c.n4 + 1)
    else if c.n100 < 3 then c.(yday := 0, n1 := 0, n4 := 0, n100 := c.n100 + 1)
    else Cycles(c.n400 + 1, 0, 0, 0, 0)
  }

  /** Year and day of the year. */
  function YearAndDay(n: int): (r: (int, int))
    ensures 0 <= r.1 < 365 + (if Leap(r.0) then 1 else 0)
  {
    var c := ToCycles(n);
    LeapCycles(c);
    (c.Year(), c.yday)
  }

  function DateIn(y: int, yday: int): (d: Date)
    requires 0 <= yday < 365 + (if Leap(y) then 1 else 0)
    ensures 1 <= d.month <= 12 && 1 <= d.day <= 31
  {
    var m := MonthOf(Leap(y), yday);
    Date(y, m, yday - MonthStart(Leap(y), m) + 1)
  }

  function DateOf(n: int): (d: Date)
    ensures 1 <= d.month <= 12 && 1 <= d.day <= 31
  {
    DateIn(YearAndDay(n).0, YearAndDay(n).1)
  }

  /** time.Weekday, Sunday = 0. */
  function Weekday(n: int): (w: int)
    ensures 0 <= w <= 6
  {
    (n + 1) % 7
  }

  function Tomorrow(d: Date): Date {
    if d.day < MonthLength(d.year, d.month) then d.(day := d.day + 1)
    else if d.month < 12 then Date(d.year, d.month + 1, 1)
    else Date(d.year + 1, 1, 1)
  }

  lemma MonthLengths(y: int, m: int)
    requires 1 <= m <= 12
    ensures MonthLength(y, m) == MonthStart(Leap(y), m + 1) - MonthStart(Leap(y), m)
  {}

  lemma DateAdvances(y: int, yday: int)
    requires 0 <= yday < 365 + (if Leap(y) then 1 else 0)
    ensures Tomorrow(DateIn(y, yday)) ==
            if yday + 1 < 365 + (if Leap(y) then 1 else 0) then DateIn(y, yday + 1) else Date(y + 1, 1, 1)
  {
    MonthLengths(y, MonthOf(Leap(y), yday));
  }

  lemma DateAt(n: int, c: Cycles)
    requires c.Normal() && c.Days() == n
    ensures Leap(c.Year()) == c.IsLeap() && DateOf(n) == DateIn(c.Year(), c.yday)
  {
    NormalUnique(ToCycles(n), c);
    LeapCycles(c);
  }

  lemma DateStep(c: Cycles, d: Cycles)
    requires c.Normal() && d == NextCycles(c) && Leap(c.Year()) == c.IsLeap() && Leap(d.Year()) == d.IsLeap()
    ensures DateIn(d.Year(), d.yday) == Tomorrow(DateIn(c.Year(), c.yday))
  {
    DateAdvances(c.Year(), c.yday);
  }

  lemma NewYear(n: int, c: Cycles)
    requires c.Normal() && c.yday == 0 && c.Days() == n
    ensures DateOf(n) == Date(c.Year(), 1, 1)
  {
    DateAt(n, c);
  }

  lemma OriginNormal(c: Cycles)
    requires c == Cycles(0, 0, 0, 0, 0)
    ensures c.Normal()
  {
    assert !c.IsLeap();
  }

  lemma OriginDay(c: Cycles)
    requires c == Cycles(0, 0, 0, 0, 0)
    ensures c.Days() == 0 && c.Year() == 1
  {
  }

  lemma FirstDay(n: int)
    requires n == 0
    ensures DateOf(n) == Date(1, 1, 1)
  {
    hide *;
    var c := Cycles(0, 0, 0, 0, 0);
    OriginNormal(c);
    OriginDay(c);
    NewYear(n, c);
  }

  lemma WeekdayStep(n: int)
    ensures Weekday(n + 1) == (Weekday(n) + 1) % 7 && (n == 0 ==> Weekday(n) == 1)
  {}

  lemma DayStep(n: int)
    ensures DateOf(n + 1) == Tomorrow(DateOf(n))
  {
    var c := ToCycles(n);
    var d := NextCycles(c);
    DateAt(n, c);
    DateAt(n + 1, d);
    DateStep(c, d);
  }

  /** The calendar is the one that starts on Monday, 1 January of year 1, and in which each day is followed
      by its tomorrow and each weekday by the next; this fixes DateOf and Weekday on every day. */
  lemma DatesAdvance(n: int)
    ensures n == 0 ==> DateOf(n) == Date(1, 1, 1) && Weekday(n) == 1
    ensures DateOf(n + 1) == Tomorrow(DateOf(n)) && Weekday(n + 1) == (Weekday(n) + 1) % 7
  {
    hide *;
    if n == 0 { FirstDay(n); }
    DayStep(n);
    WeekdayStep(n);
  }
}
