// Dates in posture reports (client/src/posture_collector.rs).
module Calendar {
  import opened Prelude

  const DAY := 86_400

  // ---------- the two formulas ----------

  // The era of a year starting in March; the source divides toward zero.
  function Era(y: int): int { TruncDiv(if y >= 0 then y else y - 399, 400) }

  function FromEra(y: int, dayOfYear: int): int {
    var era := Era(y);
    var yoe := y - era * 400;
    var doe := yoe * 365 + TruncDiv(yoe, 4) - TruncDiv(yoe, 100) + dayOfYear;
    (era * 146_097 + doe - 719_468) * DAY
  }

  // Rust's remainder takes the sign of the dividend.
  function TruncMod(a: int, b: int): int
    requires b > 0
  {
    a - TruncDiv(a, b) * b
  }

  function DateToUnix(year: int, month: int, day: int): int {
    var y := if month <= 2 then year - 1 else year;
    var mp := TruncMod(month + 9, 12);
    FromEra(y, TruncDiv(153 * mp + 2, 5) + day - 1)
  }

  function CivilToUnix(year: int, month: int, day: int): int {
    var (y, m) := if month <= 2 then (year - 1, month + 12) else (year, month);
    FromEra(y, TruncDiv(153 * m - 457, 5) + day - 1)
  }

  // ---------- the calendar ----------

  predicate IsLeap(y: int) { y % 4 == 0 && (y % 100 != 0 || y % 400 == 0) }

  function YearLength(y: int): nat { if IsLeap(y) then 366 else 365 }

  function MonthLength(y: int, m: int): nat
    requires 1 <= m <= 12
  {
    if m == 2 then if IsLeap(y) then 29 else 28 else if m in {4, 6, 9, 11} then 30 else 31
  }

  datatype Date = Date(year: int, month: int, day: int)

  predicate Valid(d: Date) { 1 <= d.month <= 12 && 1 <= d.day <= MonthLength(d.year, d.month) }

  function NextDay(d: Date): (n: Date)
    requires Valid(d)
    ensures Valid(n)
  {
    if d.day < MonthLength(d.year, d.month) then d.(day := d.day + 1)
    else if d.month < 12 then Date(d.year, d.month + 1, 1)
    else Date(d.year + 1, 1, 1)
  }

  function DayBefore(d: Date): (p: Date)
    requires Valid(d)
    ensures Valid(p) && NextDay(p) == d
  {
    if d.day > 1 then d.(day := d.day - 1)
    else if d.month > 1 then Date(d.year, d.month - 1, MonthLength(d.year, d.month - 1))
    else Date(d.year - 1, 12, 31)
  }

  // The date reached by counting `n` days from 1970-01-01, one at a time.
  function Counted(n: int): (d: Date)
    ensures Valid(d)
    decreases if n < 0 then -n else n
  {
    if n == 0 then Date(1970, 1, 1) else if n > 0 then NextDay(Counted(n - 1)) else DayBefore(Counted(n + 1))
  }

  predicate Earlier(a: Date, b: Date) {
    a.year < b.year || (a.year == b.year && (a.month < b.month || (a.month == b.month && a.day < b.day)))
  }

  // ---------- the formulas against the calendar ----------

  // Truncating division by way of the 399 is the floor.
  lemma EraIsFloor(y: int)
    ensures Era(y) == y / 400
  {
  }

  // Days from the first of March of year zero to that of year `y`.
  function MarchDays(y: int): int { 365 * y + y / 4 - y / 100 + y / 400 }

  lemma FromEraIsDays(y: int, dayOfYear: int)
    ensures FromEra(y, dayOfYear) == (MarchDays(y) + dayOfYear - 719_468) * DAY
  {
    EraIsFloor(y);
    var e := y / 400;
    var k := y - e * 400;
    assert 0 <= k < 400;
    assert y / 4 == 100 * e + k / 4;
    assert y / 100 == 4 * e + k / 100;
  }

  lemma MarchYear(y: int)
    ensures MarchDays(y + 1) - MarchDays(y) == YearLength(y + 1)
  {
    assert (y + 1) / 4 - y / 4 == (if (y + 1) % 4 == 0 then 1 else 0);
    assert (y + 1) / 100 - y / 100 == (if (y + 1) % 100 == 0 then 1 else 0);
    assert (y + 1) / 400 - y / 400 == (if (y + 1) % 400 == 0 then 1 else 0);
    FactorOfFour(y + 1);
  }

  lemma FactorOfFour(y: int)
    ensures y % 100 == 0 ==> y % 4 == 0
    ensures y % 400 == 0 ==> y % 100 == 0
  {
  }

  // The day number of a date in the year starting in March.
  function MarchDay(m: int): int
    requires 1 <= m <= 12
  {
    if m <= 2 then (153 * (m + 9) + 2) / 5 else (153 * (m - 3) + 2) / 5
  }

  lemma Numbered(d: Date)
    requires Valid(d)
    ensures var y := if d.month <= 2 then d.year - 1 else d.year;
      DateToUnix(d.year, d.month, d.day) == (MarchDays(y) + MarchDay(d.month) + d.day - 1 - 719_468) * DAY
  {
    hide FromEra, MarchDays;
    var y := if d.month <= 2 then d.year - 1 else d.year;
    FromEraIsDays(y, MarchDay(d.month) + d.day - 1);
  }

  // The two formulas agree on every month of every year, whatever the day.
  lemma FormulasAgree(year: int, month: int, day: int)
    requires 1 <= month <= 12
    ensures DateToUnix(year, month, day) == CivilToUnix(year, month, day)
  {
    hide FromEra;
  }

  // A day later is 86400 seconds later, across every month end, leap day and year end.
  lemma NextDayIsOneDayLater(d: Date)
    requires Valid(d)
    ensures var n := NextDay(d);
      DateToUnix(n.year, n.month, n.day) == DateToUnix(d.year, d.month, d.day) + 86_400
  {
    hide DateToUnix, MarchDays;
    var n := NextDay(d);
    Numbered(d);
    Numbered(n);
    MarchYear(d.year - 1);
  }

  // Both formulas number the days as counting them one by one from 1970-01-01 does.
  lemma {:induction false} CountingAgrees(n: int)
    ensures var d := Counted(n);
      DateToUnix(d.year, d.month, d.day) == n * 86_400 && CivilToUnix(d.year, d.month, d.day) == n * 86_400
    decreases if n < 0 then -n else n
  {
    hide DateToUnix, CivilToUnix;
    var d := Counted(n);
    FormulasAgree(d.year, d.month, d.day);
    if n == 0 {
      Epoch();
    } else if n > 0 {
      CountingAgrees(n - 1);
      NextDayIsOneDayLater(Counted(n - 1));
    } else {
      CountingAgrees(n + 1);
      NextDayIsOneDayLater(d);
    }
  }

  lemma Epoch()
    ensures DateToUnix(1970, 1, 1) == 0
  {
    Numbered(Date(1970, 1, 1));
  }

  // Later dates have later times: across years, by the lengths of the years between.
  lemma {:induction false} YearsApart(a: int, b: int)
    requires a < b
    ensures MarchDays(b) - MarchDays(a) >= 365 * (b - a)
    decreases b - a
  {
    hide MarchDays;
    MarchYear(b - 1);
    if a < b - 1 {
      YearsApart(a, b - 1);
    }
  }

  lemma StrictlyMonotone(a: Date, b: Date)
    requires Valid(a) && Valid(b)
    ensures Earlier(a, b) <==> DateToUnix(a.year, a.month, a.day) < DateToUnix(b.year, b.month, b.day)
  {
    hide DateToUnix, MarchDays;
    Numbered(a);
    Numbered(b);
    Within(a);
    Within(b);
    if Earlier(a, b) {
      Ordered(a, b);
    } else if a != b {
      Ordered(b, a);
    }
  }

  // A date's number lies between the first of March before it and the next.
  lemma Within(d: Date)
    requires Valid(d)
    ensures var y := if d.month <= 2 then d.year - 1 else d.year;
      0 <= MarchDay(d.month) + d.day - 1 < YearLength(y + 1)
  {
  }

  lemma Ordered(a: Date, b: Date)
    requires Valid(a) && Valid(b) && Earlier(a, b)
    ensures var y, z := if a.month <= 2 then a.year - 1 else a.year, if b.month <= 2 then b.year - 1 else b.year;
      MarchDays(y) + MarchDay(a.month) + a.day < MarchDays(z) + MarchDay(b.month) + b.day
  {
    hide MarchDays;
    var y, z := if a.month <= 2 then a.year - 1 else a.year, if b.month <= 2 then b.year - 1 else b.year;
    Within(a);
    Within(b);
    if y + 1 < z {
      MarchYear(y);
      YearsApart(y + 1, z);
    } else if y < z {
      MarchYear(y);
    }
  }

  // So every valid date is the one counting reaches after its own number of days.
  lemma EveryDateIsCounted(d: Date)
    requires Valid(d)
    ensures Counted(DateToUnix(d.year, d.month, d.day) / 86_400) == d
  {
    hide DateToUnix, CivilToUnix, Counted;
    var n := DateToUnix(d.year, d.month, d.day) / DAY;
    WholeDays(d);
    CountingAgrees(n);
    StrictlyMonotone(d, Counted(n));
    StrictlyMonotone(Counted(n), d);
  }

  lemma WholeDays(d: Date)
    requires Valid(d)
    ensures DateToUnix(d.year, d.month, d.day) == DateToUnix(d.year, d.month, d.day) / DAY * DAY
  {
    hide DateToUnix, MarchDays;
    Numbered(d);
  }

  // A day past the end of its month is counted on into the next; the parser accepts such dates.
  lemma ExtraDaysRollOver(year: int, month: int, day: int)
    requires 1 <= month <= 12
    ensures CivilToUnix(year, month, day) == CivilToUnix(year, month, 1) + (day - 1) * 86_400
  {
    var y := if month <= 2 then year - 1 else year;
    var m := if month <= 2 then month + 12 else month;
    FromEraIsDays(y, TruncDiv(153 * m - 457, 5) + day - 1);
    FromEraIsDays(y, TruncDiv(153 * m - 457, 5));
  }
}
