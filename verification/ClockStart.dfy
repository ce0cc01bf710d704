/** The date a machine starts at: its own civil-date arithmetic against counting days one
    by one in the Gregorian calendar (section 3.2.1 of ISO 8601:2004). */
module ClockStart {
  import opened Division
  import opened Options

  datatype Date = Date(year: int, month: int, day: int)
  datatype Time = Time(hour: int, minute: int, second: int)

  // ---- the calendar ------------------------------------------------------

  predicate IsLeap(year: int) {
    (year % 4 == 0 && year % 100 != 0) || year % 400 == 0
  }

  function MonthLength(year: int, month: int): (n: int)
    requires 1 <= month <= 12
    ensures 28 <= n <= 31
  {
    if month == 2 then (if IsLeap(year) then 29 else 28)
    else if month == 4 || month == 6 || month == 9 || month == 11 then 30
    else 31
  }

  function YearLength(year: int): int {
    if IsLeap(year) then 366 else 365
  }

  predicate IsDate(d: Date) {
    d.year >= 1 && 1 <= d.month <= 12 && 1 <= d.day <= MonthLength(d.year, d.month)
  }

  predicate IsTime(t: Time) {
    0 <= t.hour <= 23 && 0 <= t.minute <= 59 && 0 <= t.second <= 59
  }

  /** The next civil day. */
  function Tomorrow(d: Date): (e: Date)
    requires IsDate(d)
    ensures IsDate(e)
  {
    if d.day < MonthLength(d.year, d.month) then d.(day := d.day + 1)
    else if d.month < 12 then Date(d.year, d.month + 1, 1)
    else Date(d.year + 1, 1, 1)
  }

  predicate Earlier(d: Date, e: Date) {
    d.year < e.year || (d.year == e.year && (d.month < e.month || (d.month == e.month && d.day < e.day)))
  }

  // ---- counting days -----------------------------------------------------

  /** The days of the years 1 to `year` - 1. */
  function DaysOfYears(year: nat): int {
    if year <= 1 then 0 else DaysOfYears(year - 1) + YearLength(year - 1)
  }

  /** The days of the months before `month`. */
  function DaysOfMonths(year: int, month: int): int
    requires 1 <= month <= 12
    decreases month
  {
    if month == 1 then 0 else DaysOfMonths(year, month - 1) + MonthLength(year, month - 1)
  }

  /** The days before `d` since 0001-01-01, counted year by year and month by month. */
  function DaysCounted(d: Date): int
    requires IsDate(d)
  {
    DaysOfYears(d.year) + DaysOfMonths(d.year, d.month) + d.day - 1
  }

  // ---- the program's arithmetic ------------------------------------------

  /** Days from 1970-01-01, in closed form: years start in March and come in eras of 400. */
  function DaysFromCivil(d: Date): int {
    var yy := d.year - (if d.month <= 2 then 1 else 0);
    var era := yy / 400;
    var yoe := yy - era * 400;
    var doy := (153 * (d.month + (if d.month > 2 then -3 else 9)) + 2) / 5 + d.day - 1;
    var doe := yoe * 365 + yoe / 4 - yoe / 100 + doy;
    era * 146097 + doe - 719468
  }

  /** The fields of a date, and of a time when one was given, to seconds since 1970:
      taken exactly when they are a date and a time of the years 1980 to 2099. */
  function ParseClockStart(d: Date, t: Time): (seconds: Option<int>)
    ensures seconds.Some? <==> IsDate(d) && 1980 <= d.year <= 2099 && IsTime(t)
  {
    if d.year < 1980 || d.year > 2099 || d.month < 1 || d.month > 12 || d.day < 1
       || d.day > [31, 28, 31, 30, 31, 30, 31, 31, 30, 31, 30, 31][d.month - 1] + (if d.month == 2 && IsLeap(d.year) then 1 else 0)
       || t.hour < 0 || t.hour > 23 || t.minute < 0 || t.minute > 59 || t.second < 0 || t.second > 59
    then None
    else Some(DaysFromCivil(d) * 86400 + t.hour * 3600 + t.minute * 60 + t.second)
  }

  // ---- they agree --------------------------------------------------------

  /** The days before March of a year are those of the eras, the years and the leap days. */
  lemma {:induction false} YearsInClosedForm(year: nat)
    requires year >= 1
    ensures DaysOfYears(year) == 365 * (year - 1) + (year - 1) / 4 - (year - 1) / 100 + (year - 1) / 400
    decreases year
  {
    if year > 1 {
      YearsInClosedForm(year - 1);
      LeapStep(year - 1);
    }
  }

  lemma LeapStep(y: nat)
    requires y >= 1
    ensures y / 4 - y / 100 + y / 400 == (y - 1) / 4 - (y - 1) / 100 + (y - 1) / 400 + (if IsLeap(y) then 1 else 0)
  {
    QuotientStep(y, 4);
    QuotientStep(y, 100);
    QuotientStep(y, 400);
    Multiples(y);
  }

  lemma Multiples(y: nat)
    ensures y % 400 == 0 ==> y % 100 == 0
    ensures y % 100 == 0 ==> y % 4 == 0
  {
    if y % 400 == 0 {
      OfHundreds(4 * (y / 400), y);
    }
    if y % 100 == 0 {
      OfFours(25 * (y / 100), y);
    }
  }

  lemma OfHundreds(q: nat, y: nat)
    requires y == 100 * q
    ensures y % 100 == 0
  {
  }

  lemma OfFours(q: nat, y: nat)
    requires y == 4 * q
    ensures y % 4 == 0
  {
  }

  lemma QuotientStep(y: nat, d: nat)
    requires y >= 1 && (d == 4 || d == 100 || d == 400)
    ensures y / d == (y - 1) / d + (if y % d == 0 then 1 else 0)
  {
  }

  /** An era's years and days, added up. */
  lemma EraInClosedForm(yy: nat)
    ensures var yoe := yy - yy / 400 * 400;
            yy / 400 * 146097 + yoe * 365 + yoe / 4 - yoe / 100 == 365 * yy + yy / 4 - yy / 100 + yy / 400
  {
    var q, r := yy / 400, yy % 400;
    assert yy == 400 * q + r;
    assert yy / 4 == 100 * q + r / 4;
    assert yy / 100 == 4 * q + r / 100;
  }

  /** The months of a year that starts in March. */
  lemma MonthsFromMarch(year: int, month: int)
    requires 1 <= month <= 12
    ensures (153 * (month + (if month > 2 then -3 else 9)) + 2) / 5
            == if month > 2 then DaysOfMonths(year, month) - DaysOfMonths(year, 3) else DaysOfMonths(year, month) + 306
    ensures DaysOfMonths(year, 3) == 59 + (if IsLeap(year) then 1 else 0)
  {
    assert DaysOfMonths(year, 2) == 31;
    assert DaysOfMonths(year, 4) == DaysOfMonths(year, 3) + 31;
    assert DaysOfMonths(year, 6) == DaysOfMonths(year, 4) + 61;
    assert DaysOfMonths(year, 8) == DaysOfMonths(year, 6) + 61;
    assert DaysOfMonths(year, 10) == DaysOfMonths(year, 8) + 61;
    assert DaysOfMonths(year, 12) == DaysOfMonths(year, 10) + 61;
  }

  lemma FormulaUnfolded(d: Date)
    requires IsDate(d)
    ensures var yy := d.year - (if d.month <= 2 then 1 else 0);
            var doy := (153 * (d.month + (if d.month > 2 then -3 else 9)) + 2) / 5 + d.day - 1;
            DaysFromCivil(d) == 365 * yy + yy / 4 - yy / 100 + yy / 400 + doy - 719468
  {
    EraInClosedForm(d.year - (if d.month <= 2 then 1 else 0));
  }

  /** The closed form is the count of days, for every date from the year 1 on. */
  lemma FormulaCountsDays(d: Date)
    requires IsDate(d)
    ensures DaysFromCivil(d) == DaysCounted(d) - DaysCounted(Date(1970, 1, 1))
  {
    FormulaUnfolded(d);
    YearsInClosedForm(d.year);
    CountedEpoch();
    MonthsFromMarch(d.year, d.month);
    if d.month > 2 {
      LeapStep(d.year);
    }
  }

  lemma CountedEpoch()
    ensures DaysCounted(Date(1970, 1, 1)) == 719162
  {
    YearsInClosedForm(1970);
  }

  /** Tomorrow is one day on, across the ends of months, years and leap years. */
  lemma TomorrowIsOneMore(d: Date)
    requires IsDate(d)
    ensures DaysFromCivil(Tomorrow(d)) == DaysFromCivil(d) + 1
  {
    FormulaCountsDays(d);
    FormulaCountsDays(Tomorrow(d));
    TomorrowCounts(d);
  }

  lemma TomorrowCounts(d: Date)
    requires IsDate(d)
    ensures DaysCounted(Tomorrow(d)) == DaysCounted(d) + 1
  {
    if d.month == 12 {
      WholeYear(d.year);
    }
  }

  lemma WholeYear(year: int)
    ensures DaysOfMonths(year, 12) + 31 == YearLength(year)
  {
    MonthsFromMarch(year, 12);
  }

  function DaysLater(d: Date, n: nat): (e: Date)
    requires IsDate(d)
    ensures IsDate(e)
    decreases n
  {
    if n == 0 then d else Tomorrow(DaysLater(d, n - 1))
  }

  lemma {:induction false} CountOfDaysLater(d: Date, n: nat)
    requires IsDate(d)
    ensures DaysCounted(DaysLater(d, n)) == DaysCounted(d) + n
    decreases n
  {
    if n > 0 {
      CountOfDaysLater(d, n - 1);
      TomorrowCounts(DaysLater(d, n - 1));
    }
  }

  /** Counting days on from any date, the formula gives back the count. */
  lemma FormulaOfDaysLater(d: Date, n: nat)
    requires IsDate(d)
    ensures DaysFromCivil(DaysLater(d, n)) == DaysFromCivil(d) + n
  {
    CountOfDaysLater(d, n);
    FormulaCountsDays(d);
    FormulaCountsDays(DaysLater(d, n));
  }

  // ---- it is strictly monotone and invertible ----------------------------

  lemma {:induction false} MonthsMonotone(year: int, m: int, n: int)
    requires 1 <= m < n <= 12
    ensures DaysOfMonths(year, m) + MonthLength(year, m) <= DaysOfMonths(year, n)
    decreases n
  {
    if m < n - 1 {
      MonthsMonotone(year, m, n - 1);
    }
  }

  lemma {:induction false} YearsMonotone(y: nat, z: nat)
    requires 1 <= y < z
    ensures DaysOfYears(y) + YearLength(y) <= DaysOfYears(z)
    decreases z
  {
    if y < z - 1 {
      YearsMonotone(y, z - 1);
    }
  }

  lemma WithinYear(d: Date)
    requires IsDate(d)
    ensures 0 <= DaysOfMonths(d.year, d.month) + d.day - 1 < YearLength(d.year)
  {
    WholeYear(d.year);
    if d.month < 12 {
      MonthsMonotone(d.year, d.month, 12);
    }
    if d.month > 1 {
      MonthsMonotone(d.year, 1, d.month);
    }
  }

  /** Earlier dates get smaller numbers. */
  lemma FormulaMonotone(d: Date, e: Date)
    requires IsDate(d) && IsDate(e)
    ensures Earlier(d, e) <==> DaysFromCivil(d) < DaysFromCivil(e)
    ensures d == e <==> DaysFromCivil(d) == DaysFromCivil(e)
  {
    FormulaCountsDays(d);
    FormulaCountsDays(e);
    if Earlier(d, e) {
      CountMonotone(d, e);
    } else if Earlier(e, d) {
      CountMonotone(e, d);
    }
  }

  lemma CountMonotone(d: Date, e: Date)
    requires IsDate(d) && IsDate(e) && Earlier(d, e)
    ensures DaysCounted(d) < DaysCounted(e)
  {
    WithinYear(d);
    WithinYear(e);
    if d.year < e.year {
      YearsMonotone(d.year, e.year);
    } else if d.month < e.month {
      MonthsMonotone(d.year, d.month, e.month);
    }
  }

  /** Every date from another on is reached by counting, so the formula can be inverted. */
  lemma FormulaInvertible(d: Date, e: Date)
    requires IsDate(d) && IsDate(e) && !Earlier(e, d)
    ensures DaysFromCivil(e) >= DaysFromCivil(d)
    ensures DaysLater(d, DaysFromCivil(e) - DaysFromCivil(d)) == e
  {
    FormulaMonotone(e, d);
    var n := DaysFromCivil(e) - DaysFromCivil(d);
    FormulaOfDaysLater(d, n);
    FormulaMonotone(DaysLater(d, n), e);
  }

  // ---- what an accepted start becomes ------------------------------------

  /** The turn of the century. */
  lemma CenturyStarts()
    ensures ParseClockStart(Date(2000, 1, 1), Time(0, 0, 0)) == Some(946684800)
  {
    assert DaysFromCivil(Date(2000, 1, 1)) == 10957;
  }

  /** Its leap day, to the last second. */
  lemma LeapDayEnds()
    ensures ParseClockStart(Date(2000, 2, 29), Time(23, 59, 59)) == Some(951868799)
  {
    assert DaysFromCivil(Date(2000, 2, 29)) == 11016;
  }

  /** The last second that is accepted. */
  lemma LastStart()
    ensures ParseClockStart(Date(2099, 12, 31), Time(23, 59, 59)) == Some(4102444799)
  {
    assert DaysFromCivil(Date(2099, 12, 31)) == 47481;
  }

  /** Two clock starts give the same second only when they are the same, and later ones later seconds. */
  lemma StartsInOrder(d: Date, t: Time, e: Date, u: Time)
    requires ParseClockStart(d, t).Some? && ParseClockStart(e, u).Some?
    ensures ParseClockStart(d, t) == ParseClockStart(e, u) <==> d == e && t == u
    ensures Earlier(d, e) ==> ParseClockStart(d, t).value < ParseClockStart(e, u).value
    ensures 315532800 <= ParseClockStart(d, t).value < 4102444800
  {
    FormulaMonotone(d, e);
    SecondsOfDay(DaysFromCivil(d), t, DaysFromCivil(e), u);
    InRange(d);
  }

  lemma SecondsOfDay(a: int, t: Time, b: int, u: Time)
    requires IsTime(t) && IsTime(u)
    ensures var x, y := a * 86400 + t.hour * 3600 + t.minute * 60 + t.second, b * 86400 + u.hour * 3600 + u.minute * 60 + u.second;
            (x == y <==> a == b && t == u) && (a < b ==> x < y)
  {
  }

  /** The seconds give back the days counted from 1970 and the time of day. */
  lemma StartInvertible(d: Date, t: Time)
    requires ParseClockStart(d, t).Some?
    ensures var s := ParseClockStart(d, t).value;
            && s / 86400 == DaysCounted(d) - DaysCounted(Date(1970, 1, 1))
            && s % 86400 / 3600 == t.hour && s % 3600 / 60 == t.minute && s % 60 == t.second
  {
    FormulaCountsDays(d);
    InRange(d);
    SplitSeconds(DaysFromCivil(d), t);
  }

  lemma SplitSeconds(days: nat, t: Time)
    requires IsTime(t)
    ensures var s := days * 86400 + t.hour * 3600 + t.minute * 60 + t.second;
            s / 86400 == days && s % 86400 / 3600 == t.hour && s % 3600 / 60 == t.minute && s % 60 == t.second
  {
    var s := days * 86400 + t.hour * 3600 + t.minute * 60 + t.second;
    var ofHour := t.minute * 60 + t.second;
    var ofDay := t.hour * 3600 + ofHour;
    DivisionUnique(s, days, ofDay, 86400);
    DivisionUnique(ofDay, t.hour, ofHour, 3600);
    DivisionUnique(s, days * 24 + t.hour, ofHour, 3600);
    DivisionUnique(ofHour, t.minute, t.second, 60);
    DivisionUnique(s, days * 1440 + t.hour * 60 + t.minute, t.second, 60);
  }

  lemma InRange(d: Date)
    requires IsDate(d) && 1980 <= d.year <= 2099
    ensures 3652 <= DaysFromCivil(d) < 47482
  {
    var first, last := Date(1980, 1, 1), Date(2099, 12, 31);
    FormulaMonotone(d, first);
    FormulaMonotone(last, d);
    assert DaysFromCivil(first) == 3652 && DaysFromCivil(last) == 47481;
  }
}
