/**
 Calendar (src/darwincore/foundation/date/Calendar.cpp): Gregorian day arithmetic through Julian day numbers.

 Integers are unbounded; division and remainder truncate toward zero as in C++.
 */
module Calendar {

  datatype Date = Date(year: int, month: int, day: int)

  function Quot(a: int, b: int): int
    requires b > 0
  {
    if a >= 0 then a / b else -((-a) / b)
  }

  function Rem(a: int, b: int): int
    requires b > 0
  {
    a - b * Quot(a, b)
  }

  function IsLeapYear(year: int): bool {
    (Rem(year, 4) == 0 && Rem(year, 100) != 0) || Rem(year, 400) == 0
  }

  function DaysInMonth(year: int, month: int): int {
    if month < 1 || month > 12 then 0
    else if month == 2 && IsLeapYear(year) then 29
    else if month == 2 then 28
    else if month == 4 || month == 6 || month == 9 || month == 11 then 30
    else 31
  }

  predicate IsDate(d: Date) {
    1 <= d.month <= 12 && 1 <= d.day <= DaysInMonth(d.year, d.month)
  }

  function ToJulianDay(d: Date): int {
    var a := Quot(14 - d.month, 12);
    var y := d.year + 4800 - a;
    var m := d.month + 12 * a - 3;
    d.day + Quot(153 * m + 2, 5) + 365 * y + Quot(y, 4) - Quot(y, 100) + Quot(y, 400) - 32045
  }

  function FromJulianDay(jd: int): Date {
    var a := jd + 32044;
    var b := Quot(4 * a + 3, 146097);
    FromCentury(b, a - Quot(146097 * b, 4))
  }

  /** The second step of fromJulianDay: a day of a century. */
  function FromCentury(b: int, c: int): Date {
    var d := Quot(4 * c + 3, 1461);
    FromYear(100 * b + d, c - Quot(1461 * d, 4))
  }

  /** The third step of fromJulianDay: a day of a year. */
  function FromYear(y: int, e: int): Date {
    var m := Quot(5 * e + 2, 153);
    Date(y - 4800 + Quot(m, 10), m + 3 - 12 * Quot(m, 10), e - Quot(153 * m + 2, 5) + 1)
  }

  /** The day number zero of the arithmetic: 1 March -4800. */
  const FIRST_DAY: int := -32044

  // ---------------------------------------------------------------- years that begin in March

  /** The March-based year of a date, counted from 1 March -4800. */
  function MarchYear(d: Date): int { d.year + 4800 - (if d.month < 3 then 1 else 0) }

  function MarchMonth(d: Date): int { if d.month < 3 then d.month + 9 else d.month - 3 }

  /** Valid dates from 1 March -4800 on. */
  predicate InRange(d: Date) { IsDate(d) && MarchYear(d) >= 0 }

  function MonthStart(m: int): int { (153 * m + 2) / 5 }

  function YearStart(y: int): int { 365 * y + y / 4 - y / 100 + y / 400 }

  /** Does the March-based year end on 29 February? */
  predicate LongYear(y: int) { ((y + 1) % 4 == 0 && (y + 1) % 100 != 0) || (y + 1) % 400 == 0 }

  lemma LeapIsLong(d: Date)
    requires d.month < 3
    ensures IsLeapYear(d.year) == LongYear(MarchYear(d))
  {
    RemZero(d.year, 4);
    RemZero(d.year, 100);
    RemZero(d.year, 400);
    DivIs(d.year + 4800, 4, d.year / 4 + 1200, d.year % 4);
    DivIs(d.year + 4800, 100, d.year / 100 + 48, d.year % 100);
    DivIs(d.year + 4800, 400, d.year / 400 + 12, d.year % 400);
  }

  lemma RemZero(a: int, d: int)
    requires d > 0
    ensures Rem(a, d) == 0 <==> a % d == 0
  {
    if a < 0 {
      var q, r := (-a) / d, (-a) % d;
      assert -a == d * q + r;
      if r == 0 {
        assert a == d * (-q);
        DivIs(a, d, -q, 0);
      } else {
        assert a == d * (-q - 1) + (d - r);
        DivIs(a, d, -q - 1, d - r);
      }
    }
  }

  lemma JulianOfShifted(d: Date)
    requires 1 <= d.month <= 12 && MarchYear(d) >= 0
    ensures ToJulianDay(d) == d.day - 1 + MonthStart(MarchMonth(d)) + YearStart(MarchYear(d)) + FIRST_DAY
  {}

  /** Months of a March-based year. */
  lemma MonthSplit(m: int, k: int)
    requires 0 <= m <= 11 && 0 <= k < MonthStart(m + 1) - MonthStart(m)
    ensures Quot(5 * (MonthStart(m) + k) + 2, 153) == m && Quot(153 * m + 2, 5) == MonthStart(m)
  {}

  lemma MonthLengths(d: Date)
    requires IsDate(d)
    ensures 0 <= MarchMonth(d) <= 11 && d.day <= MonthStart(MarchMonth(d) + 1) - MonthStart(MarchMonth(d))
    ensures MarchMonth(d) < 11 ==> DaysInMonth(d.year, d.month) == MonthStart(MarchMonth(d) + 1) - MonthStart(MarchMonth(d))
    ensures 0 <= MonthStart(MarchMonth(d)) + d.day - 1 < (if LongYear(MarchYear(d)) then 366 else 365)
  {
    if d.month < 3 { LeapIsLong(d); }
  }

  // ---------------------------------------------------------------- centuries and years

  function YearLength(y: int): int { if LongYear(y) then 366 else 365 }

  function CenturyStart(b: int): int { 36524 * b + b / 4 }

  function CenturyLength(b: int): int { if b % 4 == 3 then 36525 else 36524 }

  /** Years within a century, every fourth one long. */
  function PlainStart(q: int): int { 365 * q + q / 4 }

  function PlainLength(q: int): int { if q % 4 == 3 then 366 else 365 }

  lemma CenturySplit(b: int, c: int)
    requires b >= 0 && 0 <= c < CenturyLength(b)
    ensures Quot(4 * (CenturyStart(b) + c) + 3, 146097) == b && Quot(146097 * b, 4) == CenturyStart(b)
  {
    DivIs(4 * (CenturyStart(b) + c) + 3, 146097, b, 4 * c + 3 - b % 4);
    DivIs(146097 * b, 4, CenturyStart(b), b % 4);
  }

  lemma CenturyOf(a: int)
    requires a >= 0
    ensures var b := (4 * a + 3) / 146097; b >= 0 && 0 <= a - CenturyStart(b) < CenturyLength(b)
  {}

  lemma PlainSplit(q: int, e: int)
    requires q >= 0 && 0 <= e < PlainLength(q)
    ensures Quot(4 * (PlainStart(q) + e) + 3, 1461) == q && Quot(1461 * q, 4) == PlainStart(q)
  {
    DivIs(4 * (PlainStart(q) + e) + 3, 1461, q, 4 * e + 3 - q % 4);
    DivIs(1461 * q, 4, PlainStart(q), q % 4);
  }

  lemma PlainOf(c: int)
    requires c >= 0
    ensures var q := (4 * c + 3) / 1461; q >= 0 && 0 <= c - PlainStart(q) < PlainLength(q)
  {}

  lemma Tens(m: int)
    requires 0 <= m <= 11
    ensures Quot(m, 10) == if m < 10 then 0 else 1
  {}

  /** Division, by its quotient and remainder. */
  lemma DivIs(a: int, d: int, q: int, r: int)
    requires d > 0 && a == d * q + r && 0 <= r < d
    ensures a / d == q && a % d == r
    ensures a >= 0 ==> Quot(a, d) == q
  {
    QuotientIsUnique(d, q, r, a / d, a % d);
  }

  lemma QuotientIsUnique(d: int, q: int, r: int, q': int, r': int)
    requires d > 0 && d * q + r == d * q' + r' && 0 <= r < d && 0 <= r' < d
    ensures q == q' && r == r'
  {
    Apart(d, q, q');
    Apart(d, q', q);
  }

  lemma Apart(d: int, q: int, q': int)
    requires d > 0
    ensures q < q' ==> d * q + d <= d * q'
  {
    if q < q' {
      Distributes(d, q, q' - q);
      AtLeast(d, q' - q);
    }
  }

  lemma Distributes(d: int, a: int, b: int)
    ensures d * (a + b) == d * a + d * b
  {}

  lemma AtLeast(d: int, n: int)
    requires d > 0 && n > 0
    ensures d * n >= d
  {}

  lemma CenturyParts(b: int, q: int)
    requires b >= 0 && 0 <= q < 100
    ensures (100 * b + q) / 4 == 25 * b + q / 4 && (100 * b + q) / 100 == b && (100 * b + q) / 400 == b / 4
    ensures (100 * b + q) % 4 == q % 4 && (100 * b + q) % 100 == q && (100 * b + q) % 400 == 100 * (b % 4) + q
  {
    DivIs(100 * b + q, 4, 25 * b + q / 4, q % 4);
    DivIs(100 * b + q, 100, b, q);
    DivIs(100 * b + q, 400, b / 4, 100 * (b % 4) + q);
  }

  lemma YearInCentury(b: int, q: int)
    requires b >= 0 && 0 <= q < 100
    ensures YearStart(100 * b + q) == CenturyStart(b) + PlainStart(q)
    ensures LongYear(100 * b + q) == (if q == 99 then b % 4 == 3 else q % 4 == 3)
  {
    CenturyParts(b, q);
    if q == 99 { CenturyParts(b + 1, 0); } else { CenturyParts(b, q + 1); }
  }

  // ---------------------------------------------------------------- the bijection

  /** A date from its March-based year, month and day of the month. */
  function Unshifted(y: int, m: int, k: int): Date {
    if m < 10 then Date(y - 4800, m + 3, k + 1) else Date(y - 4799, m - 9, k + 1)
  }

  predicate InYear(y: int, m: int, k: int) {
    y >= 0 && 0 <= m <= 11 && 0 <= k < MonthStart(m + 1) - MonthStart(m) && MonthStart(m) + k < YearLength(y)
  }

  lemma UnshiftedInRange(y: int, m: int, k: int)
    requires InYear(y, m, k)
    ensures InRange(Unshifted(y, m, k))
    ensures MarchYear(Unshifted(y, m, k)) == y && MarchMonth(Unshifted(y, m, k)) == m && Unshifted(y, m, k).day == k + 1
  {
    if m >= 10 { LeapIsLong(Unshifted(y, m, k)); }
  }

  lemma DateInYear(d: Date)
    requires InRange(d)
    ensures InYear(MarchYear(d), MarchMonth(d), d.day - 1)
    ensures Unshifted(MarchYear(d), MarchMonth(d), d.day - 1) == d
  {
    MonthLengths(d);
  }

  lemma YearFits(b: int, q: int, e: int)
    requires b >= 0 && 0 <= q < 100 && 0 <= e < YearLength(100 * b + q)
    ensures e < PlainLength(q) && PlainStart(q) + e < CenturyLength(b)
  {
    YearInCentury(b, q);
  }

  lemma FromYearIs(y: int, m: int, k: int, e: int)
    requires 0 <= m <= 11 && 0 <= k < MonthStart(m + 1) - MonthStart(m) && e == MonthStart(m) + k
    ensures FromYear(y, e) == Unshifted(y, m, k)
  {
    MonthSplit(m, k);
    Tens(m);
  }

  lemma FromCenturyIs(b: int, q: int, e: int, c: int, d: Date)
    requires q >= 0 && 0 <= e < PlainLength(q) && c == PlainStart(q) + e && FromYear(100 * b + q, e) == d
    ensures FromCentury(b, c) == d
  {
    PlainSplit(q, e);
  }

  lemma FromJulianIs(jd: int, b: int, c: int, d: Date)
    requires b >= 0 && 0 <= c < CenturyLength(b) && jd + 32044 == CenturyStart(b) + c && FromCentury(b, c) == d
    ensures FromJulianDay(jd) == d
  {
    CenturySplit(b, c);
  }

  /** Day numbers are cut back into century, year, month and day. */
  lemma FromSplit(jd: int, b: int, q: int, m: int, k: int, e: int, d: Date)
    requires b >= 0 && 0 <= q < 100 && InYear(100 * b + q, m, k) && d == Unshifted(100 * b + q, m, k) && e == MonthStart(m) + k
    requires jd == FIRST_DAY + CenturyStart(b) + PlainStart(q) + e
    ensures FromJulianDay(jd) == d
  {
    var c := PlainStart(q) + e;
    YearFits(b, q, e);
    assert FromYear(100 * b + q, e) == d by { FromYearIs(100 * b + q, m, k, e); }
    assert FromCentury(b, c) == d by { FromCenturyIs(b, q, e, c, d); }
    FromJulianIs(jd, b, c, d);
  }

  lemma YearBack(jd: int, y: int, m: int, k: int, d: Date)
    requires InYear(y, m, k) && d == Unshifted(y, m, k)
    requires jd == FIRST_DAY + YearStart(y) + MonthStart(m) + k
    ensures jd >= FIRST_DAY && FromJulianDay(jd) == d
  {
    var b, q := YearParts(y);
    FromSplit(jd, b, q, m, k, MonthStart(m) + k, d);
  }

  lemma YearParts(y: int) returns (b: int, q: int)
    requires y >= 0
    ensures b >= 0 && 0 <= q < 100 && y == 100 * b + q
    ensures YearStart(y) == CenturyStart(b) + PlainStart(q) && YearStart(y) >= 0
  {
    b, q := y / 100, y % 100;
    YearInCentury(b, q);
  }

  /** No date is lost: the day number gives it back. */
  lemma DateToDayToDate(d: Date)
    requires InRange(d)
    ensures ToJulianDay(d) >= FIRST_DAY && FromJulianDay(ToJulianDay(d)) == d
  {
    JulianOfShifted(d);
    DateInYear(d);
    YearBack(ToJulianDay(d), MarchYear(d), MarchMonth(d), d.day - 1, d);
  }

  lemma SplitOf(jd: int) returns (y: int, m: int, k: int)
    requires jd >= FIRST_DAY
    ensures InYear(y, m, k) && jd == FIRST_DAY + YearStart(y) + MonthStart(m) + k
  {
    var a := jd - FIRST_DAY;
    CenturyOf(a);
    var b := (4 * a + 3) / 146097;
    var c := a - CenturyStart(b);
    PlainOf(c);
    var q := (4 * c + 3) / 1461;
    var e := c - PlainStart(q);
    YearInCentury(b, q);
    m := (5 * e + 2) / 153;
    y, k := 100 * b + q, e - MonthStart(m);
  }

  lemma DayBack(y: int, m: int, k: int)
    requires InYear(y, m, k)
    ensures InRange(Unshifted(y, m, k)) && ToJulianDay(Unshifted(y, m, k)) == FIRST_DAY + YearStart(y) + MonthStart(m) + k
  {
    UnshiftedInRange(y, m, k);
    JulianOfShifted(Unshifted(y, m, k));
  }

  /** Every day number from the first one on is a date, and the only one with that number. */
  lemma DayToDateToDay(jd: int)
    requires jd >= FIRST_DAY
    ensures InRange(FromJulianDay(jd)) && ToJulianDay(FromJulianDay(jd)) == jd
  {
    var y, m, k := SplitOf(jd);
    DayBack(y, m, k);
    YearBack(jd, y, m, k, Unshifted(y, m, k));
  }

  // ---------------------------------------------------------------- the calendar as a reader knows it

  /** The next day, by month lengths alone. */
  function Tomorrow(d: Date): Date {
    if d.day < DaysInMonth(d.year, d.month) then d.(day := d.day + 1)
    else if d.month < 12 then Date(d.year, d.month + 1, 1)
    else Date(d.year + 1, 1, 1)
  }

  lemma YearStep(y: int)
    requires y >= 0
    ensures YearStart(y + 1) == YearStart(y) + YearLength(y)
  {
    var b, q := y / 100, y % 100;
    YearInCentury(b, q);
    if q == 99 { YearInCentury(b + 1, 0); } else { YearInCentury(b, q + 1); }
  }

  lemma LastOfFebruary(d: Date)
    requires IsDate(d) && d.month == 2 && d.day == DaysInMonth(d.year, d.month)
    ensures MonthStart(11) + d.day == YearLength(MarchYear(d))
  {
    LeapIsLong(d);
  }

  lemma TomorrowIsNext(d: Date)
    requires InRange(d)
    ensures InRange(Tomorrow(d)) && ToJulianDay(Tomorrow(d)) == ToJulianDay(d) + 1
    ensures MarchYear(Tomorrow(d)) == MarchYear(d) || Tomorrow(d) == Date(MarchYear(d) + 1 - 4800, 3, 1)
  {
    TomorrowShifts(d);
    JulianOfShifted(d);
    JulianOfShifted(Tomorrow(d));
  }

  /** The day within the March-based years. */
  function ShiftedDay(d: Date): int { d.day - 1 + MonthStart(MarchMonth(d)) + YearStart(MarchYear(d)) }

  lemma TomorrowShifts(d: Date)
    requires InRange(d)
    ensures InRange(Tomorrow(d)) && ShiftedDay(Tomorrow(d)) == ShiftedDay(d) + 1
    ensures MarchYear(Tomorrow(d)) == MarchYear(d) || Tomorrow(d) == Date(MarchYear(d) + 1 - 4800, 3, 1)
  {
    MonthLengths(d);
    if d.month == 2 && d.day == DaysInMonth(d.year, d.month) {
      LastOfFebruary(d);
      YearStep(MarchYear(d));
    }
  }

  // ---------------------------------------------------------------- adding days

  function AddDays(d: Date, n: int): Date {
    FromJulianDay(ToJulianDay(d) + n)
  }

  function Later(d: Date, n: nat): Date {
    if n == 0 then d else Tomorrow(Later(d, n - 1))
  }

  lemma AddDaysComposes(d: Date, m: int, n: int)
    requires InRange(d) && ToJulianDay(d) + m >= FIRST_DAY && ToJulianDay(d) + m + n >= FIRST_DAY
    ensures AddDays(AddDays(d, m), n) == AddDays(d, m + n)
  {
    var jd := ToJulianDay(d) + m;
    AddDaysMoves(d, m, jd);
    AddDaysFrom(AddDays(d, m), n, jd + n);
    AddDaysFrom(d, m + n, jd + n);
  }

  lemma AddDaysUndone(d: Date, n: int)
    requires InRange(d) && ToJulianDay(d) + n >= FIRST_DAY
    ensures AddDays(AddDays(d, n), -n) == d
  {
    var jd := ToJulianDay(d);
    assert FromJulianDay(jd) == d by { DateToDayToDate(d); }
    assert ToJulianDay(AddDays(d, n)) == jd + n by { AddDaysMoves(d, n, jd + n); }
    BackTo(AddDays(d, n), n, jd, d);
  }

  lemma BackTo(later: Date, n: int, jd: int, d: Date)
    requires ToJulianDay(later) == jd + n && FromJulianDay(jd) == d
    ensures AddDays(later, -n) == d
  {
    AddDaysFrom(later, -n, jd);
  }

  lemma AddDaysMoves(d: Date, n: int, jd: int)
    requires ToJulianDay(d) + n == jd && jd >= FIRST_DAY
    ensures ToJulianDay(AddDays(d, n)) == jd && InRange(AddDays(d, n))
  {
    AddDaysFrom(d, n, jd);
    DayToDateToDay(jd);
  }

  lemma AddDaysFrom(d: Date, n: int, jd: int)
    requires ToJulianDay(d) + n == jd
    ensures AddDays(d, n) == FromJulianDay(jd)
  {}

  /** Adding days is turning that many leaves of the calendar. */
  lemma AddDaysIsLater(d: Date, n: nat)
    requires InRange(d)
    ensures AddDays(d, n) == Later(d, n) && InRange(Later(d, n)) && ToJulianDay(Later(d, n)) == ToJulianDay(d) + n
  {
    LaterMoves(d, n);
    DateToDayToDate(Later(d, n));
    AddDaysFrom(d, n, ToJulianDay(Later(d, n)));
  }

  lemma {:induction false} LaterMoves(d: Date, n: nat)
    requires InRange(d)
    ensures InRange(Later(d, n)) && ToJulianDay(Later(d, n)) == ToJulianDay(d) + n
  {
    if n > 0 {
      LaterMoves(d, n - 1);
      TomorrowIsNext(Later(d, n - 1));
    }
  }

  function DayOfYear(d: Date): int
    requires 1 <= d.month <= 12
  {
    var before := [0, 0, 31, 59, 90, 120, 151, 181, 212, 243, 273, 304, 334];
    var doy := before[d.month] + d.day;
    if d.month > 2 && IsLeapYear(d.year) then doy + 1 else doy
  }

  /** The day of the year counts the days since 31 December. */
  lemma DayOfYearCounts(d: Date)
    requires InRange(d) && MarchYear(Date(d.year, 1, 1)) >= 0
    ensures DayOfYear(d) == ToJulianDay(d) - ToJulianDay(Date(d.year, 1, 1)) + 1
  {
    var first := Date(d.year, 1, 1);
    JulianOfShifted(d);
    JulianOfShifted(first);
    LeapIsLong(first);
    DayOfYearIs(d);
    if d.month > 2 { YearStep(MarchYear(first)); }
  }

  lemma DayOfYearIs(d: Date)
    requires 1 <= d.month <= 12
    ensures DayOfYear(d) == d.day + if d.month < 3 then MonthStart(MarchMonth(d)) - 306
                                    else MonthStart(MarchMonth(d)) + (if IsLeapYear(d.year) then 60 else 59)
  {}

  // ---------------------------------------------------------------- days of the week

  /** Zeller's sum as dayOfWeek computes it; `year` and `month` count January and February to the year before. */
  function ZellerSum(year: int, month: int, day: int): int {
    var k := Rem(year, 100);
    var j := Quot(year, 100);
    day + Quot(13 * (month + 1), 5) + k + Quot(k, 4) + Quot(j, 4) - 2 * j
  }

  function DayOfWeek(d: Date): int {
    var h := Rem(if d.month < 3 then ZellerSum(d.year - 1, d.month + 12, d.day) else ZellerSum(d.year, d.month, d.day), 7);
    Rem(h + 6, 7)
  }

  /** The truncated remainders still give the sum's residue. */
  lemma SevenTwice(sum: int)
    ensures Rem(Rem(sum, 7) + 6, 7) == (sum + 6) % 7
  {}

  /** By how much truncation puts the day of the week ahead in negative years. */
  function Ahead(year: int): int {
    if year >= 0 || IsLeapYear(year) then 0 else 1
  }

  /** Zeller's month term against the month starts of the day number. */
  lemma ZellerMonth(month: int)
    requires 3 <= month <= 14
    ensures Quot(13 * (month + 1), 5) == MonthStart(month - 3) - 28 * month + 94
  {}

  lemma YearShift(year: int)
    ensures YearStart(year + 4800) == 365 * year + year / 4 - year / 100 + year / 400 + 1753164
  {
    DivIs(year + 4800, 4, year / 4 + 1200, year % 4);
    DivIs(year + 4800, 100, year / 100 + 48, year % 100);
    DivIs(year + 4800, 400, year / 400 + 12, year % 400);
  }

  /** What the year contributes, apart from multiples of seven. */
  lemma ZellerYear(year: int, k: int, j: int)
    requires k == Rem(year, 100) && j == Quot(year, 100)
    ensures year == 100 * j + k
    ensures year / 4 - year / 100 + year / 400 == 24 * j + Quot(k, 4) + Quot(j, 4) - Ahead(year)
  {
    if year >= 0 {
      ForwardYear(year);
    } else {
      BackwardYear(year);
    }
  }

  lemma ForwardYear(year: int)
    requires year >= 0
    ensures var k, j := Rem(year, 100), Quot(year, 100);
            year / 4 - year / 100 + year / 400 == 24 * j + Quot(k, 4) + Quot(j, 4)
  {
    CenturyParts(year / 100, year % 100);
  }

  /** Before the year 0, in positive numbers. */
  lemma BackwardYear(year: int)
    requires year < 0
    ensures var k, j := Rem(year, 100), Quot(year, 100);
            year / 4 - year / 100 + year / 400 == 24 * j + Quot(k, 4) + Quot(j, 4) - Ahead(year)
  {
    var n := -year;
    var p, r := n / 100, n % 100;
    CenturyParts(p, r);
    RemZero(year, 4);
    RemZero(year, 100);
    RemZero(year, 400);
    Negated(n, 4);
    Negated(n, 100);
    Negated(n, 400);
  }

  lemma Negated(n: int, d: int)
    requires d > 0
    ensures (-n) / d == (if n % d == 0 then -(n / d) else -(n / d) - 1) && ((-n) % d == 0 <==> n % d == 0)
  {
    var q, r := n / d, n % d;
    Distributes(d, -q, -1);
    if r == 0 { DivIs(-n, d, -q, 0); } else { DivIs(-n, d, -q - 1, d - r); }
  }

  lemma ZellerSumIs(year: int, month: int, day: int)
    requires 3 <= month <= 14 && year + 4800 >= 0
    ensures exists w :: day - 1 + MonthStart(month - 3) + YearStart(year + 4800) + FIRST_DAY + 1 ==
                        ZellerSum(year, month, day) + 6 - Ahead(year) + 7 * w
  {
    var k, j := Rem(year, 100), Quot(year, 100);
    ZellerMonth(month);
    YearShift(year);
    ZellerYear(year, k, j);
    var w := 4 * month + 5218 * j + 52 * k + 245860;
    assert day - 1 + MonthStart(month - 3) + YearStart(year + 4800) + FIRST_DAY + 1 ==
           ZellerSum(year, month, day) + 6 - Ahead(year) + 7 * w;
  }

  /** The year dayOfWeek reckons with: January and February belong to the year before. */
  function ReckonedYear(d: Date): int { if d.month < 3 then d.year - 1 else d.year }

  lemma ModSeven(a: int, b: int, w: int)
    requires a == b + 7 * w
    ensures a % 7 == b % 7
  {
    DivIs(a, 7, b / 7 + w, b % 7);
  }

  function ReckonedMonth(d: Date): int { if d.month < 3 then d.month + 12 else d.month }

  lemma DayOfWeekOfSum(d: Date, sum: int)
    requires sum == ZellerSum(ReckonedYear(d), ReckonedMonth(d), d.day)
    ensures DayOfWeek(d) == (sum + 6) % 7
  {
    SevenTwice(sum);
  }

  lemma SumOfDay(d: Date, sum: int, jd: int)
    requires InRange(d) && sum == ZellerSum(ReckonedYear(d), ReckonedMonth(d), d.day) && jd == ToJulianDay(d)
    ensures (sum + 6) % 7 == (jd + 1 + Ahead(ReckonedYear(d))) % 7
  {
    var ahead := Ahead(ReckonedYear(d));
    JulianOfShifted(d);
    ZellerSumIs(ReckonedYear(d), ReckonedMonth(d), d.day);
    var w :| jd + 1 == sum + 6 - ahead + 7 * w;
    ModSeven(jd + 1 + ahead, sum + 6, w);
  }

  lemma DayOfWeekIs(d: Date)
    requires InRange(d)
    ensures DayOfWeek(d) == (ToJulianDay(d) + 1 + Ahead(ReckonedYear(d))) % 7
  {
    var sum := ZellerSum(ReckonedYear(d), ReckonedMonth(d), d.day);
    DayOfWeekOfSum(d, sum);
    SumOfDay(d, sum, ToJulianDay(d));
  }

  /** The formula gives the day of the week exactly from 1 March 0000 on and, before, in leap years. */
  lemma DayOfWeekExactly(d: Date)
    requires InRange(d)
    ensures 0 <= DayOfWeek(d) < 7
    ensures DayOfWeek(d) == (ToJulianDay(d) + 1) % 7 <==> ReckonedYear(d) >= 0 || IsLeapYear(ReckonedYear(d))
  {
    DayOfWeekIs(d);
    NextResidue(ToJulianDay(d) + 1);
  }

  lemma NextResidue(a: int)
    ensures (a + 1) % 7 != a % 7
  {}

  /** A day on which it goes wrong: 1 March of the year -1. */
  lemma DayOfWeekMistake(d: Date)
    requires d == Date(-1, 3, 1)
    ensures InRange(d) && DayOfWeek(d) != (ToJulianDay(d) + 1) % 7
  {
    DayOfWeekExactly(d);
  }

  predicate IsWeekday(d: Date) {
    1 <= DayOfWeek(d) <= 5
  }

  // ---------------------------------------------------------------- the next weekday

  /** Weekends are short even where the reckoning slips by a day. */
  lemma FourDays(s1: int, s2: int, s3: int, s4: int)
    requires s1 <= s2 <= s1 + 2 && s2 <= s3 <= s2 + 2 && s3 <= s4 <= s3 + 2
    requires (s2 == s1 + 1 && s3 == s2 + 1) || (s2 == s1 + 1 && s4 == s3 + 1) || (s3 == s2 + 1 && s4 == s3 + 1)
    ensures 1 <= s1 % 7 <= 5 || 1 <= s2 % 7 <= 5 || 1 <= s3 % 7 <= 5 || 1 <= s4 % 7 <= 5
    ensures s2 == s1 + 1 && s3 == s2 + 1 ==> 1 <= s1 % 7 <= 5 || 1 <= s2 % 7 <= 5 || 1 <= s3 % 7 <= 5
  {
    var q, r := s1 / 7, s1 % 7;
    ModSeven(s2, r + (s2 - s1), q);
    ModSeven(s3, r + (s3 - s1), q);
    ModSeven(s4, r + (s4 - s1), q);
  }

  /** The first of March opens a March year; the next days stay in it. */
  lemma AfterNewYear(d: Date)
    requires InRange(d) && ReckonedYear(Tomorrow(d)) != ReckonedYear(d)
    ensures ReckonedYear(Tomorrow(Tomorrow(d))) == ReckonedYear(Tomorrow(d)) == ReckonedYear(Tomorrow(Tomorrow(Tomorrow(d))))
  {
    TomorrowIsNext(d);
  }

  /** What dayOfWeek reads some days later, before the remainder by seven. */
  function Reading(d: Date, n: nat): int {
    ToJulianDay(d) + 1 + n + Ahead(ReckonedYear(Later(d, n)))
  }

  lemma DayInRow(d: Date, n: nat)
    requires InRange(d)
    ensures IsWeekday(Later(d, n)) <==> 1 <= Reading(d, n) % 7 <= 5
  {
    LaterMoves(d, n);
    WeekdayReads(Later(d, n), ToJulianDay(d) + n, Reading(d, n));
  }

  lemma WeekdayReads(d: Date, jd: int, reading: int)
    requires InRange(d) && ToJulianDay(d) == jd && reading == jd + 1 + Ahead(ReckonedYear(d))
    ensures IsWeekday(d) <==> 1 <= reading % 7 <= 5
  {
    DayOfWeekIs(d);
  }

  lemma ReckonedGrows(d: Date)
    requires InRange(d)
    ensures InRange(Tomorrow(d)) && ReckonedYear(d) <= ReckonedYear(Tomorrow(d))
  {
    TomorrowIsNext(d);
  }

  /** Of four days in a row at most one begins a March year. */
  lemma AtMostOneNewYear(d: Date)
    requires InRange(d)
    ensures var a, b, c, e := ReckonedYear(Later(d, 1)), ReckonedYear(Later(d, 2)), ReckonedYear(Later(d, 3)), ReckonedYear(Later(d, 4));
            && ReckonedYear(d) <= a <= b <= c
            && ((a == b && b == c) || (a == b && c == e) || (b == c && c == e))
  {
    var d1 := Tomorrow(d);
    var d2 := Tomorrow(d1);
    var d3 := Tomorrow(d2);
    ReckonedGrows(d);
    ReckonedGrows(d1);
    ReckonedGrows(d2);
    LaterFour(d);
    if ReckonedYear(d2) != ReckonedYear(d1) { AfterNewYear(d1); }
    if ReckonedYear(d3) != ReckonedYear(d2) { AfterNewYear(d2); }
  }

  lemma LaterFour(d: Date)
    ensures Later(d, 1) == Tomorrow(d) && Later(d, 2) == Tomorrow(Tomorrow(d))
    ensures Later(d, 3) == Tomorrow(Tomorrow(Tomorrow(d))) && Later(d, 4) == Tomorrow(Tomorrow(Tomorrow(Tomorrow(d))))
  {
    assert Later(d, 1) == Tomorrow(Later(d, 0));
    assert Later(d, 2) == Tomorrow(Later(d, 1));
    assert Later(d, 3) == Tomorrow(Later(d, 2));
    assert Later(d, 4) == Tomorrow(Later(d, 3));
  }

  /** A weekday comes within four days, and within three where the reckoning is right. */
  lemma WeekdayComes(d: Date) returns (n: nat)
    requires InRange(d)
    ensures 1 <= n <= 4 && (ReckonedYear(d) >= 0 ==> n <= 3) && IsWeekday(Later(d, n))
  {
    ReadingsComes(d);
    n := if 1 <= Reading(d, 1) % 7 <= 5 then 1
         else if 1 <= Reading(d, 2) % 7 <= 5 then 2
         else if 1 <= Reading(d, 3) % 7 <= 5 then 3 else 4;
    DayInRow(d, n);
  }

  lemma ReadingsComes(d: Date)
    requires InRange(d)
    ensures var f := (n: nat) => 1 <= Reading(d, n) % 7 <= 5;
            (f(1) || f(2) || f(3) || f(4)) && (ReckonedYear(d) >= 0 ==> f(1) || f(2) || f(3))
  {
    AtMostOneNewYear(d);
    FourDays(Reading(d, 1), Reading(d, 2), Reading(d, 3), Reading(d, 4));
  }

  /** The first day that stops a search which goes on day by day. */
  method FirstLater(d: Date, next: Date -> Date, stop: Date -> bool, ghost row: nat -> Date, ghost last: nat)
    returns (r: Date, ghost n: nat)
    requires last >= 1 && row(0) == d && stop(row(last)) && forall i: nat :: next(row(i)) == row(i + 1)
    ensures 1 <= n <= last && r == row(n) && stop(r) && forall i: nat :: 1 <= i < n ==> !stop(row(i))
  {
    r, n := next(d), 1;
    while !stop(r)
      invariant 1 <= n <= last && r == row(n) && forall i: nat :: 1 <= i < n ==> !stop(row(i))
      decreases last - n
    {
      r, n := next(r), n + 1;
    }
  }

  /** The days after `d` and before the n-th do not count as weekdays. */
  ghost predicate WeekendUntil(d: Date, n: nat) {
    forall i: nat :: 1 <= i < n ==> !IsWeekday(Later(d, i))
  }

  method SearchWeekday(d: Date, ghost last: nat) returns (r: Date, ghost n: nat)
    requires InRange(d) && last >= 1 && IsWeekday(Later(d, last))
    ensures 1 <= n <= last && r == Later(d, n) && IsWeekday(r) && WeekendUntil(d, n)
  {
    forall i: nat ensures AddDays(Later(d, i), 1) == Later(d, i + 1) { DayAfter(d, i); }
    ghost var row := (i: nat) => Later(d, i);
    r, n := FirstLater(d, x => AddDays(x, 1), x => IsWeekday(x), row, last);
    forall i: nat | 1 <= i < n ensures !IsWeekday(Later(d, i)) { assert row(i) == Later(d, i); }
  }

  /** The first later day that counts as a weekday; a true weekday from the year 0 on. */
  method NextWeekday(d: Date) returns (r: Date, ghost n: nat)
    requires InRange(d)
    ensures 1 <= n <= 4 && (ReckonedYear(d) >= 0 ==> n <= 3)
    ensures r == Later(d, n) && IsWeekday(r) && WeekendUntil(d, n)
    ensures ReckonedYear(d) >= 0 ==> 1 <= (ToJulianDay(r) + 1) % 7 <= 5
  {
    ghost var last := WeekdayComes(d);
    r, n := SearchWeekday(d, last);
    if ReckonedYear(d) >= 0 { TrueWeekday(d, n); }
  }

  lemma DayAfter(d: Date, i: nat)
    requires InRange(d)
    ensures AddDays(Later(d, i), 1) == Later(d, i + 1)
  {
    LaterMoves(d, i);
    AddDaysIsLater(Later(d, i), 1);
    assert Later(Later(d, i), 1) == Tomorrow(Later(Later(d, i), 0));
  }

  lemma TrueWeekday(d: Date, n: nat)
    requires InRange(d) && ReckonedYear(d) >= 0 && IsWeekday(Later(d, n))
    ensures 1 <= (ToJulianDay(Later(d, n)) + 1) % 7 <= 5
  {
    LaterYears(d, n);
    LaterMoves(d, n);
    DayOfWeekIs(Later(d, n));
  }

  lemma {:induction false} LaterYears(d: Date, n: nat)
    requires InRange(d)
    ensures ReckonedYear(d) <= ReckonedYear(Later(d, n))
  {
    if n > 0 {
      LaterYears(d, n - 1);
      LaterMoves(d, n - 1);
      ReckonedGrows(Later(d, n - 1));
    }
  }

  // ---------------------------------------------------------------- adding months

  /** Months are added on the count 12 * year + month; the day is cut to the new month's length. */
  method AddMonths(d: Date, months: int) returns (r: Date)
    ensures 1 <= r.month <= 12 && 12 * r.year + r.month == 12 * d.year + d.month + months
    ensures r.day == if d.day > DaysInMonth(r.year, r.month) then DaysInMonth(r.year, r.month) else d.day
    ensures IsDate(d) ==> IsDate(r)
  {
    var year, month, day := d.year, d.month + months, d.day;
    while month > 12
      invariant 12 * year + month == 12 * d.year + d.month + months
    {
      month := month - 12;
      year := year + 1;
    }
    while month < 1
      invariant 12 * year + month == 12 * d.year + d.month + months && month <= 12
    {
      month := month + 12;
      year := year - 1;
    }
    var maxDay := DaysInMonth(year, month);
    if day > maxDay { day := maxDay; }
    r := Date(year, month, day);
  }
}
