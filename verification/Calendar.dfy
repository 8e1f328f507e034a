/** mk_time: from a date and a time of day to seconds since 1970. */
module Calendar {
  /** A date and a time of day as the GPS receiver reports them: years from 1900, months from 1. */
  datatype Moment = Moment(year: int, month: int, day: int, hours: int, minutes: int, seconds: int)

  const INT32_MAX := 0x7fff_ffff

  predicate IsLeapYear(year: int) {
    var y := year + 1900;
    y % 4 == 0 && (y % 100 != 0 || y % 400 == 0)
  }

  const DAYS: seq<int> := [31, 28, 31, 30, 31, 30, 31, 31, 30, 31, 30, 31]

  function DaysInMonth(month: int, year: int): (d: int)
    requires 0 <= month < 12
    ensures 28 <= d <= 31
  {
    if month == 1 && IsLeapYear(year) then 29 else DAYS[month]
  }

  // ---------------------------------------------------------------- the Gregorian calendar

  /** The leap years of our era up to the year `n`. */
  function Leaps(n: int): int {
    n / 4 - n / 100 + n / 400
  }

  /** Days from 1970 to the beginning of the year 1900 + `year`; negative before 1970. */
  function DaysBeforeYear(year: int): int {
    365 * (year - 70) + Leaps(year + 1899) - Leaps(1969)
  }

  const MONTH_STARTS: seq<int> := [0, 31, 59, 90, 120, 151, 181, 212, 243, 273, 304, 334]

  function DaysBeforeMonth(month: int, year: int): int
    requires 0 <= month < 12
  {
    MONTH_STARTS[month] + if month >= 2 && IsLeapYear(year) then 1 else 0
  }

  /** Two-digit years up to 69 belong to this century. */
  function Century(year: int): int {
    if year < 70 then year + 100 else year
  }

  /** Months outside of 1 to 12 carry over into the year. */
  function Year(m: Moment): int { Century(m.year) + (m.month - 1) / 12 }

  function Month(m: Moment): (month: int)
    ensures 0 <= month < 12
  {
    (m.month - 1) % 12
  }

  /** The number of the day, 1970-01-01 being day 0. */
  function DayNumber(m: Moment): int {
    DaysBeforeYear(Year(m)) + DaysBeforeMonth(Month(m), Year(m)) + m.day - 1
  }

  function TimeOfDay(m: Moment): int { m.hours * 3600 + m.minutes * 60 + m.seconds }

  /** Seconds since 1970. */
  function Stamp(m: Moment): int { DayNumber(m) * 86400 + TimeOfDay(m) }

  predicate Valid(m: Moment) {
    && 1 <= m.month <= 12 && 1 <= m.day <= DaysInMonth(Month(m), Year(m))
    && 0 <= m.hours < 24 && 0 <= m.minutes < 60 && 0 <= m.seconds < 60
  }

  // ---------------------------------------------------------------- the loops of mk_time

  lemma {:induction false} Quarters(n: int)
    ensures n / 4 == (n - 1) / 4 + if n % 4 == 0 then 1 else 0
  {
  }

  lemma {:induction false} Centuries(n: int)
    ensures n / 100 == (n - 1) / 100 + if n % 100 == 0 then 1 else 0
  {
  }

  lemma {:induction false} Cycles(n: int)
    ensures n / 400 == (n - 1) / 400 + if n % 400 == 0 then 1 else 0
  {
  }

  lemma {:induction false} CycleIsCentury(n: int)
    ensures n % 400 == 0 ==> n % 100 == 0
  {
    if n % 400 == 0 {
      var k := n / 400;
      assert n == 100 * (4 * k);
    }
  }

  lemma {:induction false} CenturyIsQuarter(n: int)
    ensures n % 100 == 0 ==> n % 4 == 0
  {
    if n % 100 == 0 {
      var k := n / 100;
      assert n == 4 * (25 * k);
    }
  }

  lemma {:induction false} NextYear(year: int)
    ensures DaysBeforeYear(year + 1) == DaysBeforeYear(year) + if IsLeapYear(year) then 366 else 365
  {
    var n := year + 1900;
    Quarters(n);
    Centuries(n);
    Cycles(n);
    CycleIsCentury(n);
    CenturyIsQuarter(n);
  }

  lemma {:induction false} NextMonth(month: int, year: int)
    requires 0 <= month < 11
    ensures DaysBeforeMonth(month + 1, year) == DaysBeforeMonth(month, year) + DaysInMonth(month, year)
  {
  }

  lemma {:induction false} EpochStarts()
    ensures DaysBeforeYear(70) == 0
  {
  }

  lemma {:induction false} MonthsStart(year: int)
    ensures DaysBeforeMonth(0, year) == 0
  {
  }

  lemma {:induction false} YearsGrow(year: int, later: int)
    requires year <= later
    ensures DaysBeforeYear(later) >= DaysBeforeYear(year) + 365 * (later - year)
    decreases later - year
  {
    if year < later {
      NextYear(later - 1);
      YearsGrow(year, later - 1);
    }
  }

  /** Years before 1970 begin before day 0. */
  lemma {:induction false} BeginsBefore1970(year: int)
    ensures DaysBeforeYear(year) < 0 <==> year < 70
  {
    EpochStarts();
    if year < 70 {
      YearsGrow(year, 70);
    } else {
      YearsGrow(70, year);
    }
  }

  /** mk_time. Before 1970 the loop over the years adds nothing, so the stamp is right exactly from 1970 on. */
  method MkTime(m: Moment) returns (total: int)
    ensures total == Stamp(m) <==> Year(m) >= 70
    ensures Year(m) < 70 ==> total == Stamp(m) - DaysBeforeYear(Year(m)) * 86400
  {
    hide DaysBeforeYear, DaysBeforeMonth, DaysInMonth, IsLeapYear;
    BeginsBefore1970(Year(m));
    var year, month, day := m.year, m.month - 1, m.day - 1;
    if year < 70 {
      year := year + 100;
    }
    while month < 0
      invariant month % 12 == Month(m) && year + month / 12 == Year(m)
      decreases -month
    {
      month, year := month + 12, year - 1;
    }
    while month >= 12
      invariant 0 <= month && month % 12 == Month(m) && year + month / 12 == Year(m)
    {
      month, year := month - 12, year + 1;
    }
    assert month == Month(m) && year == Year(m);
    var days := 0;
    EpochStarts();
    for y := 70 to (if year > 70 then year else 70)
      invariant days == DaysBeforeYear(y)
    {
      NextYear(y);
      days := days + if IsLeapYear(y) then 366 else 365;
    }
    ghost var years := days;
    MonthsStart(year);
    for k := 0 to month
      invariant days == years + DaysBeforeMonth(k, year)
    {
      NextMonth(k, year);
      days := days + DaysInMonth(k, year);
    }
    days := days + day;
    total := days * 86400 + m.hours * 3600 + m.minutes * 60 + m.seconds;
  }

  // ---------------------------------------------------------------- laws

  /** The moment is earlier in the calendar. */
  predicate Earlier(a: Moment, b: Moment) {
    Year(a) < Year(b)
    || (Year(a) == Year(b) && (a.month < b.month
    || (a.month == b.month && (a.day < b.day
    || (a.day == b.day && TimeOfDay(a) < TimeOfDay(b))))))
  }

  lemma {:induction false} MonthsGrow(month: int, later: int, year: int)
    requires 0 <= month < later < 12
    ensures DaysBeforeMonth(later, year) >= DaysBeforeMonth(month, year) + DaysInMonth(month, year)
  {
  }

  lemma {:induction false} YearHolds(month: int, year: int)
    requires 0 <= month < 12
    ensures DaysBeforeMonth(month, year) + DaysInMonth(month, year) <= if IsLeapYear(year) then 366 else 365
  {
  }

  lemma {:induction false} MonthsFromZero(month: int, year: int)
    requires 0 <= month < 12
    ensures DaysBeforeMonth(month, year) >= 0
  {
  }

  lemma {:induction false} DaysOrdered(a: Moment, b: Moment)
    requires Valid(a) && Valid(b)
             && (Year(a) < Year(b)
                 || (Year(a) == Year(b) && (a.month < b.month || (a.month == b.month && a.day < b.day))))
    ensures DayNumber(a) < DayNumber(b)
  {
    hide DaysBeforeYear, DaysBeforeMonth, IsLeapYear, DaysInMonth;
    if Year(a) < Year(b) {
      YearHolds(Month(a), Year(a));
      NextYear(Year(a));
      YearsGrow(Year(a) + 1, Year(b));
      MonthsFromZero(Month(b), Year(b));
    } else if a.month < b.month {
      MonthsGrow(Month(a), Month(b), Year(a));
    }
  }

  lemma {:induction false} SameDay(a: Moment, b: Moment)
    requires Year(a) == Year(b) && a.month == b.month && a.day == b.day
    ensures DayNumber(a) == DayNumber(b)
  {
  }

  lemma {:induction false} EarlierStamp(a: Moment, b: Moment)
    requires Valid(a) && Valid(b) && Earlier(a, b)
    ensures Stamp(a) < Stamp(b)
  {
    hide DayNumber, DaysInMonth;
    assert 0 <= TimeOfDay(a) < 86400 && 0 <= TimeOfDay(b) < 86400;
    if Year(a) == Year(b) && a.month == b.month && a.day == b.day {
      SameDay(a, b);
    } else {
      DaysOrdered(a, b);
    }
  }

  /** Later moments have larger stamps. */
  lemma {:induction false} StampsOrdered(a: Moment, b: Moment)
    requires Valid(a) && Valid(b)
    ensures Earlier(a, b) <==> Stamp(a) < Stamp(b)
  {
    hide DayNumber;
    if Earlier(a, b) {
      EarlierStamp(a, b);
    } else if Earlier(b, a) {
      EarlierStamp(b, a);
    } else {
      assert Year(a) == Year(b) && a.month == b.month && a.day == b.day && TimeOfDay(a) == TimeOfDay(b);
      SameDay(a, b);
    }
  }

  /** The date of the next day, at the same time. */
  function Tomorrow(m: Moment): Moment
    requires Valid(m)
  {
    if m.day < DaysInMonth(Month(m), Year(m)) then m.(day := m.day + 1)
    else if m.month < 12 then m.(month := m.month + 1, day := 1)
    else m.(year := Century(m.year) + 1, month := 1, day := 1)
  }

  lemma {:induction false} DecemberEnds(year: int)
    ensures DaysBeforeMonth(11, year) + DaysInMonth(11, year) == if IsLeapYear(year) then 366 else 365
  {
  }

  /** The day number counts days: it is 0 on 1970-01-01 and one more on every next date. */
  lemma {:induction false} DaysCounted(m: Moment)
    requires Valid(m) && Year(m) >= 70
    ensures Valid(Tomorrow(m)) && DayNumber(Tomorrow(m)) == DayNumber(m) + 1
    ensures DayNumber(Moment(70, 1, 1, 0, 0, 0)) == 0
  {
    hide DaysBeforeYear, DaysBeforeMonth, DaysInMonth, IsLeapYear;
    EpochStarts();
    MonthsStart(70);
    if m.day == DaysInMonth(Month(m), Year(m)) {
      if m.month == 12 {
        DecemberEnds(Year(m));
        NextYear(Year(m));
        MonthsStart(Year(m) + 1);
      } else {
        NextMonth(Month(m), Year(m));
      }
    }
  }

  // ---------------------------------------------------------------- the calendar without tables

  /** The leap years by the remainders of the year of our era. */
  lemma {:induction false} LeapYears(year: int)
    ensures IsLeapYear(year) <==>
              ((year + 1900) % 4 == 0 && (year + 1900) % 100 != 0) || (year + 1900) % 400 == 0
  {
    CycleIsCentury(year + 1900);
    CenturyIsQuarter(year + 1900);
  }

  /** Counted from March, five months are 153 days: where each month begins and how long it is. */
  lemma {:induction false} MonthLaw(month: int, year: int)
    requires 0 <= month < 12
    ensures DaysBeforeMonth(month, year) ==
            if month == 0 then 0 else if month == 1 then 31
            else (153 * (month - 2) + 2) / 5 + if IsLeapYear(year) then 60 else 59
    ensures DaysInMonth(month, year) ==
            if month == 0 then 31 else if month == 1 then (if IsLeapYear(year) then 29 else 28)
            else (153 * (month - 1) + 2) / 5 - (153 * (month - 2) + 2) / 5
  {
  }

  lemma {:induction false} QuartersOn(n: int)
    ensures (n + 400) / 4 == n / 4 + 100
  {
  }

  lemma {:induction false} CenturiesOn(n: int)
    ensures (n + 400) / 100 == n / 100 + 4
  {
  }

  lemma {:induction false} CyclesOn(n: int)
    ensures (n + 400) / 400 == n / 400 + 1
  {
  }

  lemma {:induction false} LeapsOn(n: int)
    ensures Leaps(n + 400) == Leaps(n) + 97
  {
    QuartersOn(n);
    CenturiesOn(n);
    CyclesOn(n);
  }

  /** Every 400 years have 146097 days. */
  lemma {:induction false} FourCenturies(year: int)
    ensures DaysBeforeYear(year + 400) == DaysBeforeYear(year) + 146097
  {
    hide Leaps;
    LeapsOn(year + 1899);
  }

  /** The stamp as one formula, without the tables of the source. */
  lemma {:induction false} StampLaw(m: Moment)
    requires 1 <= m.month <= 12 && 70 <= m.year
    ensures var past, k, y := m.year + 1899, m.month - 3, m.year + 1900;
            var leap := (y % 4 == 0 && y % 100 != 0) || y % 400 == 0;
            var months := if k == -2 then 0 else if k == -1 then 31
                          else (153 * k + 2) / 5 + if leap then 60 else 59;
            var days := 365 * (m.year - 70) + past / 4 - past / 100 + past / 400 - 477 + months + m.day - 1;
            Stamp(m) == ((days * 24 + m.hours) * 60 + m.minutes) * 60 + m.seconds
  {
    hide IsLeapYear, DaysBeforeMonth;
    LeapYears(m.year);
    MonthLaw(m.month - 1, m.year);
    assert Month(m) == m.month - 1 && Year(m) == m.year;
  }

  /** The year 69 is 2069, the year 70 is 1970. */
  lemma {:induction false} TwoDigitYears(m: Moment)
    requires 1 <= m.month <= 12 && -30 <= m.year < 70
    ensures Stamp(m) == Stamp(m.(year := m.year + 100))
    ensures Year(m) == m.year + 100 && Year(m.(year := m.year + 100)) == m.year + 100
  {
  }

  lemma {:induction false} MonthBounds(month: int, year: int)
    requires 0 <= month < 12
    ensures 0 <= DaysBeforeMonth(month, year) <= 335
  {
  }

  /** Twelve months are a year, as long as the year does not cross the limit of the century rule. */
  lemma {:induction false} MonthsCarry(m: Moment, k: int)
    requires Year(m.(month := m.month + 12 * k)) >= 70 && Year(m.(year := m.year + k)) >= 70
    ensures Stamp(m.(month := m.month + 12 * k)) == Stamp(m.(year := m.year + k)) <==>
              (m.year < 70 <==> m.year + k < 70)
  {
    hide DaysBeforeYear, DaysBeforeMonth;
    var a, b := m.(month := m.month + 12 * k), m.(year := m.year + k);
    assert Month(a) == Month(b);
    assert (m.month + 12 * k - 1) / 12 == (m.month - 1) / 12 + k;
    if !(m.year < 70 <==> m.year + k < 70) {
      assert Year(a) == Year(b) + 100 || Year(b) == Year(a) + 100;
      MonthBounds(Month(a), Year(a));
      MonthBounds(Month(b), Year(b));
      YearsGrow(if Year(a) < Year(b) then Year(a) else Year(b), if Year(a) < Year(b) then Year(b) else Year(a));
    }
  }

  /** Month 25 of 1969 is month 13 of 1970, but the two-digit year 69 is read as 2069. */
  lemma {:induction false} CenturyCrossed()
    ensures Stamp(Moment(70, 13, 1, 0, 0, 0)) != Stamp(Moment(69, 25, 1, 0, 0, 0))
  {
    MonthsCarry(Moment(70, 25, 1, 0, 0, 0), -1);
  }

  lemma {:induction false} LastValid()
    ensures Valid(Moment(138, 1, 19, 3, 14, 7)) && Stamp(Moment(138, 1, 19, 3, 14, 7)) == INT32_MAX
  {
  }

  /** A signed 32-bit stamp suffices exactly up to 2038-01-19 03:14:07, and so do all sums on the way. */
  lemma {:induction false} Fits32Bits(m: Moment)
    requires Valid(m) && Year(m) >= 70
    ensures Stamp(m) <= INT32_MAX <==> !Earlier(Moment(138, 1, 19, 3, 14, 7), m)
    ensures 0 <= DayNumber(m) * 86400 <= DayNumber(m) * 86400 + m.hours * 3600
            <= DayNumber(m) * 86400 + m.hours * 3600 + m.minutes * 60 <= Stamp(m)
  {
    hide DaysInMonth, DaysBeforeYear, DaysBeforeMonth, IsLeapYear;
    var last := Moment(138, 1, 19, 3, 14, 7);
    LastValid();
    StampsOrdered(last, m);
    YearsGrow(70, Year(m));
    EpochStarts();
    MonthsFromZero(Month(m), Year(m));
  }
}
