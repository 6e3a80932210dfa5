/** Moving holidays: the Butcher-Meeus date of Easter against the calendar and the Gregorian computus. */
module Easter {

  datatype Date = Date(year: int, month: int, day: int)

  // ----- the Gregorian calendar, by its rules -----

  predicate IsLeap(year: int) { year % 4 == 0 && (year % 100 != 0 || year % 400 == 0) }

  function DaysInMonth(year: int, month: int): int {
    if month == 2 then if IsLeap(year) then 29 else 28
    else if month == 4 || month == 6 || month == 9 || month == 11 then 30
    else 31
  }

  predicate ValidDate(d: Date) { d.year >= 1 && 1 <= d.month <= 12 && 1 <= d.day <= DaysInMonth(d.year, d.month) }

  function NextDay(d: Date): (next: Date)
    requires ValidDate(d)
    ensures ValidDate(next)
  {
    if d.day < DaysInMonth(d.year, d.month) then d.(day := d.day + 1)
    else if d.month < 12 then Date(d.year, d.month + 1, 1)
    else Date(d.year + 1, 1, 1)
  }

  function AddDays(d: Date, n: nat): (sum: Date)
    requires ValidDate(d)
    ensures ValidDate(sum)
  {
    if n == 0 then d else NextDay(AddDays(d, n - 1))
  }

  /** Days from 1 January of year 1 to 1 January of the year, leap years counted one by one. */
  function YearStart(year: nat): int
    requires year >= 1
  {
    if year == 1 then 0 else YearStart(year - 1) + if IsLeap(year - 1) then 366 else 365
  }

  function MonthStart(year: int, month: int): int
    requires 1 <= month <= 12
    decreases month
  {
    if month == 1 then 0 else MonthStart(year, month - 1) + DaysInMonth(year, month - 1)
  }

  function DayNumber(d: Date): int
    requires ValidDate(d)
  {
    YearStart(d.year) + MonthStart(d.year, d.month) + d.day - 1
  }

  const MONDAY := 0
  const THURSDAY := 3
  const SUNDAY := 6

  /** 1 January of year 1 is a Monday. */
  function Weekday(d: Date): (w: int)
    requires ValidDate(d)
    ensures 0 <= w < 7
  {
    DayNumber(d) % 7
  }

  lemma MonthStarts(year: int)
    ensures MonthStart(year, 2) == 31
    ensures var feb := if IsLeap(year) then 29 else 28;
            && MonthStart(year, 3) == 31 + feb && MonthStart(year, 4) == 62 + feb && MonthStart(year, 5) == 92 + feb
            && MonthStart(year, 6) == 123 + feb && MonthStart(year, 7) == 153 + feb && MonthStart(year, 8) == 184 + feb
            && MonthStart(year, 9) == 215 + feb && MonthStart(year, 10) == 245 + feb
            && MonthStart(year, 11) == 276 + feb && MonthStart(year, 12) == 306 + feb
  {
    assert MonthStart(year, 3) == MonthStart(year, 2) + DaysInMonth(year, 2);
    assert MonthStart(year, 5) == MonthStart(year, 4) + DaysInMonth(year, 4);
    assert MonthStart(year, 7) == MonthStart(year, 6) + DaysInMonth(year, 6);
    assert MonthStart(year, 9) == MonthStart(year, 8) + DaysInMonth(year, 8);
    assert MonthStart(year, 11) == MonthStart(year, 10) + DaysInMonth(year, 10);
  }

  lemma NextDayIsOneLater(d: Date)
    requires ValidDate(d)
    ensures DayNumber(NextDay(d)) == DayNumber(d) + 1
  {
    if d.day == DaysInMonth(d.year, d.month) && d.month == 12 {
      MonthStarts(d.year);
    }
  }

  lemma {:induction false} AddDaysIsLater(d: Date, n: nat)
    requires ValidDate(d)
    ensures DayNumber(AddDays(d, n)) == DayNumber(d) + n
  {
    if n > 0 {
      AddDaysIsLater(d, n - 1);
      NextDayIsOneLater(AddDays(d, n - 1));
    }
  }

  // ----- closed forms -----

  lemma {:induction false} YearStartClosed(year: nat)
    requires year >= 1
    ensures var y := year - 1; YearStart(year) == 365 * y + y / 4 - y / 100 + y / 400
  {
    if year > 1 {
      YearStartClosed(year - 1);
      LeapStep(year - 1);
    }
  }

  lemma LeapStep(y: int)
    requires y >= 1
    ensures (y / 4 - (y - 1) / 4) == if y % 4 == 0 then 1 else 0
    ensures (y / 100 - (y - 1) / 100) == if y % 100 == 0 then 1 else 0
    ensures (y / 400 - (y - 1) / 400) == if y % 400 == 0 then 1 else 0
    ensures y % 400 == 0 ==> y % 100 == 0
    ensures y % 100 == 0 ==> y % 4 == 0
  {
  }

  /** 1 March, counted with the year's own leap day. */
  lemma MarchStart(year: nat)
    requires year >= 1
    ensures YearStart(year) + MonthStart(year, 3) == 365 * year + year / 4 - year / 100 + year / 400 - 306
  {
    YearStartClosed(year);
    LeapStep(year);
    MonthStarts(year);
  }

  // ----- the program's Easter -----

  function H(year: int): (h: int)
    ensures 0 <= h < 30
  {
    var a := year % 19;
    var b := year / 100;
    var d := b / 4;
    var f := (b + 8) / 25;
    var g := (b - f + 1) / 3;
    (19 * a + b - d - g + 15) % 30
  }

  function L(year: int): (l: int)
    ensures 0 <= l < 7
  {
    var b := year / 100;
    var c := year % 100;
    var e := b % 4;
    var i := c / 4;
    var k := c % 4;
    (32 + 2 * e + 2 * i - H(year) - k) % 7
  }

  function M(year: int): int { (year % 19 + 11 * H(year) + 22 * L(year)) / 451 }

  function Paques(year: int): Date {
    var n := H(year) + L(year) - 7 * M(year) + 114;
    Date(year, n / 31, n % 31 + 1)
  }

  /** Easter Monday, Ascension and Whit Monday: days after Easter. */
  const HOLIDAY_OFFSETS: seq<nat> := [1, 39, 50]

  function MovingHolidays(year: int): seq<Date>
    requires year >= 1
  {
    EasterDateIsValid(year);
    DaysFrom(Paques(year))
  }

  function DaysFrom(d: Date): (days: seq<Date>)
    requires ValidDate(d)
    ensures |days| == 3 && forall i | 0 <= i < 3 :: ValidDate(days[i])
  {
    seq(|HOLIDAY_OFFSETS|, i requires 0 <= i < |HOLIDAY_OFFSETS| => AddDays(d, HOLIDAY_OFFSETS[i]))
  }

  /** Days after 22 March. */
  function AfterMarch22(year: int): int { H(year) + L(year) - 7 * M(year) }

  lemma MIsZeroOrOne(year: int)
    ensures M(year) == if year % 19 + 11 * H(year) + 22 * L(year) >= 451 then 1 else 0
  {
  }

  lemma EasterSpan(year: int)
    ensures 0 <= AfterMarch22(year) <= 34
  {
    MIsZeroOrOne(year);
  }

  /** For every year of the calendar the result is a date, from 22 March to 25 April. */
  lemma EasterDateIsValid(year: int)
    requires year >= 1
    ensures ValidDate(Paques(year))
    ensures var p := Paques(year); (p.month == 3 && p.day >= 22) || (p.month == 4 && p.day <= 25)
  {
    EasterSpan(year);
  }

  lemma EasterDayNumber(year: nat)
    requires year >= 1
    ensures ValidDate(Paques(year))
    ensures DayNumber(Paques(year)) == YearStart(year) + MonthStart(year, 3) + 21 + AfterMarch22(year)
  {
    EasterSpan(year);
    MonthStarts(year);
  }

  /** The year's day count in terms of its digits: l makes 22 March plus h + l a Sunday. */
  lemma SundayLetter(d: int, e: int, i: int, k: int, h: int, q: int)
    ensures var year := 400 * d + 100 * e + 4 * i + k;
            var l := 32 + 2 * e + 2 * i - h - k - 7 * q;
            365 * year + (100 * d + 25 * e + i) - (4 * d + e) + d - 306 + 21 + h + l
            == 7 * (20871 * d + 5218 * e + 209 * i + 52 * k - 37 - q) + SUNDAY
  {
  }

  lemma LByQuotient(year: int) returns (q: int)
    ensures var b, c := year / 100, year % 100;
            L(year) == 32 + 2 * (b % 4) + 2 * (c / 4) - H(year) - c % 4 - 7 * q
  {
    var b, c := year / 100, year % 100;
    q := (32 + 2 * (b % 4) + 2 * (c / 4) - H(year) - c % 4) / 7;
  }

  lemma SundayInWeeks(year: nat) returns (weeks: int)
    ensures 365 * year + year / 4 - year / 100 + year / 400 - 306 + 21 + AfterMarch22(year) == 7 * weeks + SUNDAY
  {
    var b, c := year / 100, year % 100;
    CenturySplit(year);
    var q := LByQuotient(year);
    SundayLetter(b / 4, b % 4, c / 4, c % 4, H(year), q);
    weeks := 20871 * (b / 4) + 5218 * (b % 4) + 209 * (c / 4) + 52 * (c % 4) - 37 - q - M(year);
  }

  lemma CenturySplit(year: nat)
    ensures var b, c := year / 100, year % 100;
            && year == 400 * (b / 4) + 100 * (b % 4) + 4 * (c / 4) + c % 4
            && year / 4 == 100 * (b / 4) + 25 * (b % 4) + c / 4
            && year / 100 == 4 * (b / 4) + b % 4
            && year / 400 == b / 4
  {
  }

  /** Easter is a Sunday. */
  lemma EasterIsSunday(year: nat)
    requires year >= 1
    ensures ValidDate(Paques(year)) && Weekday(Paques(year)) == SUNDAY
  {
    EasterDayNumber(year);
    MarchStart(year);
    var weeks := SundayInWeeks(year);
    WeeksAndDays(DayNumber(Paques(year)), weeks);
  }

  lemma WeeksAndDays(n: int, weeks: int)
    requires n == 7 * weeks + SUNDAY
    ensures n % 7 == SUNDAY
  {
  }

  /** The first date of the weekday after a day, the second one, and so on. */
  ghost predicate NthAfter(day: Date, d: Date, weekday: int, n: int)
    requires ValidDate(day) && ValidDate(d)
  {
    Weekday(d) == weekday && DayNumber(day) + 7 * (n - 1) < DayNumber(d) <= DayNumber(day) + 7 * n
  }

  /** The date so many days after a Sunday. */
  ghost predicate IsLater(d: Date, later: Date, n: nat) {
    && ValidDate(d) && ValidDate(later)
    && DayNumber(later) == DayNumber(d) + n && Weekday(later) == (SUNDAY + n) % 7
  }

  ghost predicate AreHolidays(easter: Date, days: seq<Date>) {
    && |days| == 3
    && IsLater(easter, days[0], 1) && IsLater(easter, days[1], 39) && IsLater(easter, days[2], 50)
  }

  lemma OffsetsApart(d: Date, days: seq<Date>)
    requires |days| == 3 && forall i: nat | i < 3 :: IsLater(d, days[i], HOLIDAY_OFFSETS[i])
    ensures AreHolidays(d, days)
  {
  }

  lemma HolidayIs(d: Date, i: nat)
    requires ValidDate(d) && Weekday(d) == SUNDAY && i < 3
    ensures IsLater(d, DaysFrom(d)[i], HOLIDAY_OFFSETS[i])
  {
    AddDaysIsLater(d, HOLIDAY_OFFSETS[i]);
    DaysAfterSunday(d, HOLIDAY_OFFSETS[i]);
  }

  lemma HolidaysAfterSunday(d: Date)
    requires ValidDate(d) && Weekday(d) == SUNDAY
    ensures AreHolidays(d, DaysFrom(d))
  {
    var days := DaysFrom(d);
    forall i: nat | i < 3 ensures IsLater(d, days[i], HOLIDAY_OFFSETS[i]) {
      HolidayIs(d, i);
    }
    OffsetsApart(d, days);
  }

  /** What it takes to be the three holidays of an Easter. */
  lemma HolidaysAre(easter: Date, days: seq<Date>)
    requires AreHolidays(easter, days)
    ensures && |days| == 3 && ValidDate(easter) && (forall d | d in days :: ValidDate(d))
            && DayNumber(days[0]) == DayNumber(easter) + 1 && NthAfter(easter, days[0], MONDAY, 1)
            && DayNumber(days[1]) == DayNumber(easter) + 39 && NthAfter(easter, days[1], THURSDAY, 6)
            && DayNumber(days[2]) == DayNumber(easter) + 50 && NthAfter(easter, days[2], MONDAY, 8)
  {
  }

  /** Every year Easter Monday is the first Monday after Easter, Ascension the sixth Thursday after it, and Whit Monday
      the Monday after the seventh Sunday that follows: 1, 39 and 50 days after Easter. */
  lemma HolidaysFallOnTheirDays(year: nat)
    requires year >= 1
    ensures var easter, days := Paques(year), MovingHolidays(year);
            && |days| == 3 && ValidDate(easter) && (forall d | d in days :: ValidDate(d))
            && DayNumber(days[0]) == DayNumber(easter) + 1 && NthAfter(easter, days[0], MONDAY, 1)
            && DayNumber(days[1]) == DayNumber(easter) + 39 && NthAfter(easter, days[1], THURSDAY, 6)
            && DayNumber(days[2]) == DayNumber(easter) + 50 && NthAfter(easter, days[2], MONDAY, 8)
  {
    EasterIsSunday(year);
    HolidaysAfterSunday(Paques(year));
    HolidaysAre(Paques(year), MovingHolidays(year));
  }

  /** A day number is that of one date only. */
  lemma DayNumberIsInjective(a: Date, b: Date)
    requires ValidDate(a) && ValidDate(b) && DayNumber(a) == DayNumber(b)
    ensures a == b
  {
    YearBounds(a);
    YearBounds(b);
    if a.year != b.year {
      YearsGrow(a.year, b.year);
      YearsGrow(b.year, a.year);
    }
    MonthStarts(a.year);
  }

  /** A date lies inside its year. */
  lemma YearBounds(d: Date)
    requires ValidDate(d)
    ensures YearStart(d.year) <= DayNumber(d) < YearStart(d.year + 1)
  {
    MonthStarts(d.year);
  }

  lemma {:induction false} YearsGrow(y: nat, z: nat)
    requires y >= 1 && z >= 1
    ensures y < z ==> YearStart(y + 1) <= YearStart(z)
    decreases z
  {
    if y + 1 < z {
      YearsGrow(y, z - 1);
    }
  }

  lemma DaysAfterSunday(d: Date, n: nat)
    requires ValidDate(d) && Weekday(d) == SUNDAY
    ensures Weekday(AddDays(d, n)) == (SUNDAY + n) % 7
  {
    AddDaysIsLater(d, n);
    DropWeeks(DayNumber(d) / 7, SUNDAY + n);
  }

  lemma DropWeeks(weeks: int, n: int)
    ensures (7 * weeks + n) % 7 == n % 7
  {
    assert 7 * weeks + n == 7 * (weeks + n / 7) + n % 7;
  }

  // ----- the Gregorian computus: epact and paschal full moon -----

  function GoldenNumber(year: int): int { year % 19 + 1 }

  /** The epact, corrected so that no two years of a cycle share a moon: from the golden number, the leap days dropped
      since the reform and the eight-day drift of the moon in twenty-five centuries. */
  function Epact(year: int): int {
    var century := year / 100 + 1;
    var dropped := 3 * century / 4 - 12;
    var drift := (8 * century + 5) / 25 - 5;
    var e := (11 * GoldenNumber(year) + 20 + drift - dropped) % 30;
    if e == 24 || (e == 25 && GoldenNumber(year) > 11) then e + 1 else e
  }

  /** Days after 21 March of the paschal full moon: the first one on or after 21 March. */
  function FullMoonAfterMarch21(year: int): int {
    var march := 44 - Epact(year);
    (if march < 21 then march + 30 else march) - 21
  }

  lemma SolarEquation(b: int)
    ensures 3 * (b + 1) / 4 == b - b / 4
  {
  }

  lemma LunarEquation(b: int)
    ensures (8 * (b + 1) + 5) / 25 == (b - (b + 8) / 25 + 1) / 3
  {
    var q, r := b / 25, b % 25;
    assert b == 25 * q + r;
    assert (b + 8) / 25 == q + (r + 8) / 25;
    assert (8 * (b + 1) + 5) / 25 == 8 * q + (8 * r + 13) / 25;
    assert (b - (b + 8) / 25 + 1) / 3 == 8 * q + (r - (r + 8) / 25 + 1) / 3;
  }

  /** h is the moon's age from the uncorrected epact. */
  lemma MoonFromEpact(year: int)
    ensures var e := (11 * GoldenNumber(year) + 20 + ((8 * (year / 100 + 1) + 5) / 25 - 5)
                      - (3 * (year / 100 + 1) / 4 - 12)) % 30;
            H(year) == if e <= 23 then 23 - e else 53 - e
  {
    var a, b := year % 19, year / 100;
    SolarEquation(b);
    LunarEquation(b);
    var g := (b - (b + 8) / 25 + 1) / 3;
    var x := 11 * a + 38 + g - b + b / 4;
    assert 19 * a + b - b / 4 - g + 15 == 30 * a + 53 - x;
    Complement(a, x);
  }

  lemma Complement(a: int, x: int)
    ensures (30 * a + 53 - x) % 30 == if x % 30 <= 23 then 23 - x % 30 else 53 - x % 30
  {
    var q, r := x / 30, x % 30;
    assert 30 * a + 53 - x == 30 * (a - q) + 53 - r;
  }

  lemma FullMoonFromH(year: int)
    ensures FullMoonAfterMarch21(year)
            == if H(year) == 29 || (H(year) == 28 && year % 19 > 10) then H(year) - 1 else H(year)
  {
    MoonFromEpact(year);
  }

  /** The main result: for every year, the date is the first Sunday strictly after the paschal full moon. */
  lemma EasterFollowsTheFullMoon(year: nat)
    requires year >= 1
    ensures ValidDate(Date(year, 3, 21)) && ValidDate(Paques(year))
    ensures var moon := DayNumber(Date(year, 3, 21)) + FullMoonAfterMarch21(year);
            moon < DayNumber(Paques(year)) <= moon + 7
    ensures Weekday(Paques(year)) == SUNDAY
  {
    EasterIsSunday(year);
    EasterDayNumber(year);
    FullMoonFromH(year);
    MIsZeroOrOne(year);
  }
}
