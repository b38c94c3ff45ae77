/** The proleptic Gregorian calendar: civil dates and day numbers. */
module Calendar {

  datatype Civil = Civil(y: int, m: int, d: int)

  predicate IsLeap(y: int) { y % 4 == 0 && (y % 100 != 0 || y % 400 == 0) }

  function DaysInMonth(y: int, m: int): int {
    if m in {1, 3, 5, 7, 8, 10, 12} then 31
    else if m in {4, 6, 9, 11} then 30
    else if m == 2 then (if IsLeap(y) then 29 else 28)
    else 0
  }

  /** validDate without its bound on the year. */
  predicate RealDate(c: Civil) { 1 <= c.m <= 12 && 1 <= c.d <= DaysInMonth(c.y, c.m) }

  /** Years that start in March: the day of the year of the first of a month. */
  function MonthStart(m: int): int { (153 * (if m > 2 then m - 3 else m + 9) + 2) / 5 }

  /** The first day of a year of an era of 400 years. */
  function YearStart(yoe: int): int { 365 * yoe + yoe / 4 - yoe / 100 }

  /** daysFromCivil before its range check; Euclidean division is floorDiv for these divisors. */
  function DaysFromCivil(c: Civil): int {
    var yy := if c.m <= 2 then c.y - 1 else c.y;
    var era := yy / 400;
    var yoe := yy - era * 400;
    era * 146097 + (YearStart(yoe) + (MonthStart(c.m) + c.d - 1)) - 719468
  }

  function YearOfEra(doe: int): int { (doe - doe / 1460 + doe / 36524 - doe / 146096) / 365 }

  /** civilFromDays. */
  function CivilFromDays(day: int): Civil {
    var z := day + 719468;
    var era := z / 146097;
    var doe := z - era * 146097;
    var yoe := YearOfEra(doe);
    var doy := doe - YearStart(yoe);
    var mp := (5 * doy + 2) / 153;
    var d := doy - (153 * mp + 2) / 5 + 1;
    if mp < 10 then Civil(yoe + era * 400, mp + 3, d) else Civil(yoe + era * 400 + 1, mp - 9, d)
  }

  /** The length of a March year of an era. */
  function YearLength(yoe: int): int { if IsLeap(yoe + 1) then 366 else 365 }

  lemma {:induction false} YearParts(yoe: int)
    requires 0 <= yoe < 400
    ensures var c, b, a := yoe / 100, yoe % 100 / 4, yoe % 4;
      && yoe == 100 * c + 4 * b + a && 0 <= c < 4 && 0 <= b < 25 && 0 <= a < 4
      && YearStart(yoe) == 36524 * c + 1461 * b + 365 * a
      && (YearLength(yoe) == 366 <==> a == 3 && (b < 24 || c == 3))
  {}

  /** The year of a day of the era, from the start of the year and the day in it. */
  lemma {:induction false} YearOfDay(yoe: int, doy: int)
    requires 0 <= yoe < 400 && 0 <= doy < YearLength(yoe)
    ensures 0 <= YearStart(yoe) + doy < 146097 && YearOfEra(YearStart(yoe) + doy) == yoe
  {
    YearParts(yoe);
    var c, b, a := yoe / 100, yoe % 100 / 4, yoe % 4;
    YearOfParts(c, b, a, doy);
  }

  lemma {:induction false} YearOfParts(c: int, b: int, a: int, doy: int)
    requires 0 <= c < 4 && 0 <= b < 25 && 0 <= a < 4 && 0 <= doy <= 365 && (doy == 365 ==> a == 3 && (b < 24 || c == 3))
    ensures var doe := 36524 * c + 1461 * b + 365 * a + doy; 0 <= doe < 146097 && YearOfEra(doe) == 100 * c + 4 * b + a
  {
    var r := 1461 * b + 365 * a + doy;
    var doe := 36524 * c + r;
    assert doe / 36524 == if r == 36524 then c + 1 else c;
    assert doe / 146096 == if doe == 146096 then 1 else 0;
  }

  /** Every day of the era lies in a century, a cycle of four years, a year and a day. */
  lemma {:induction false} DayParts(doe: int) returns (c: int, b: int, a: int, doy: int)
    requires 0 <= doe < 146097
    ensures 0 <= c < 4 && 0 <= b < 25 && 0 <= a < 4 && 0 <= doy <= 365 && (doy == 365 ==> a == 3 && (b < 24 || c == 3))
    ensures doe == 36524 * c + 1461 * b + 365 * a + doy
  {
    c := if doe == 146096 then 3 else doe / 36524;
    var r := doe - 36524 * c;
    b := r / 1461;
    var s := r - 1461 * b;
    a := if s == 1460 then 3 else s / 365;
    doy := s - 365 * a;
  }

  /** Every day of the era lies in the year that YearOfEra gives. */
  lemma {:induction false} DayInYear(doe: int)
    requires 0 <= doe < 146097
    ensures var yoe := YearOfEra(doe); 0 <= yoe < 400 && 0 <= doe - YearStart(yoe) < YearLength(yoe)
  {
    hide YearOfEra, YearStart, IsLeap;
    var c, b, a, doy := DayParts(doe);
    YearOfParts(c, b, a, doy);
    YearParts(100 * c + 4 * b + a);
    SameParts(c, b, a);
  }

  lemma {:induction false} SameParts(c: int, b: int, a: int)
    requires 0 <= c < 4 && 0 <= b < 25 && 0 <= a < 4
    ensures var y := 100 * c + 4 * b + a; y / 100 == c && y % 100 / 4 == b && y % 4 == a
  {}

  /** Months of a March year: number 0 is March. */
  function Shifted(mp: int): int { if mp < 10 then mp + 3 else mp - 9 }

  lemma {:induction false} MonthOfDay(mp: int, d: int)
    requires 0 <= mp < 12 && 1 <= d <= (if mp == 11 then 29 else (153 * (mp + 1) + 2) / 5 - (153 * mp + 2) / 5)
    ensures (5 * ((153 * mp + 2) / 5 + d - 1) + 2) / 153 == mp
  {}

  /** Outside February, a month ends where the next one starts. */
  lemma {:induction false} MonthLengths(y: int, m: int)
    requires 1 <= m <= 12
    ensures var mp := if m > 2 then m - 3 else m + 9;
      && Shifted(mp) == m && MonthStart(m) == (153 * mp + 2) / 5
      && (m != 2 ==> DaysInMonth(y, m) == (153 * (mp + 1) + 2) / 5 - (153 * mp + 2) / 5)
      && (m == 2 ==> MonthStart(m) + DaysInMonth(y, m) == if IsLeap(y) then 366 else 365)
  {}

  lemma {:induction false} DayOfYear(y: int, m: int, d: int)
    requires RealDate(Civil(y, m, d))
    ensures 0 <= MonthStart(m) + d - 1 < if IsLeap(if m <= 2 then y else y + 1) then 366 else 365
    ensures (5 * (MonthStart(m) + d - 1) + 2) / 153 == if m > 2 then m - 3 else m + 9
  {
    MonthLengths(y, m);
    MonthOfDay(if m > 2 then m - 3 else m + 9, d);
  }

  lemma {:induction false} EraLeap(yy: int)
    ensures IsLeap(yy + 1) <==> IsLeap(yy % 400 + 1)
  {}

  lemma {:induction false} DayEra(era: int, doe: int)
    requires 0 <= doe < 146097
    ensures (era * 146097 + doe) / 146097 == era
  {}

  /** civilFromDays undoes daysFromCivil on every date of the calendar. */
  lemma {:induction false} CivilOfDays(c: Civil)
    requires RealDate(c)
    ensures CivilFromDays(DaysFromCivil(c)) == c
  {
    hide YearOfEra, YearStart, IsLeap, MonthStart, DaysInMonth;
    var yy := if c.m <= 2 then c.y - 1 else c.y;
    var era, yoe := yy / 400, yy % 400;
    var doy := MonthStart(c.m) + c.d - 1;
    DayOfYear(c.y, c.m, c.d);
    EraLeap(yy);
    YearOfDay(yoe, doy);
    MonthLengths(c.y, c.m);
    DayEra(era, YearStart(yoe) + doy);
    DatedAgain(era, yoe, c);
  }

  /** Reading a day number back as a date. */
  lemma {:induction false} DatedAgain(era: int, yoe: int, c: Civil)
    requires 0 <= yoe < 400 && c.y - (if c.m <= 2 then 1 else 0) == yoe + era * 400 && 1 <= c.m <= 12
    requires var doe := YearStart(yoe) + (MonthStart(c.m) + c.d - 1);
      0 <= doe < 146097 && YearOfEra(doe) == yoe && (era * 146097 + doe) / 146097 == era
    requires var mp := if c.m > 2 then c.m - 3 else c.m + 9;
      (5 * (MonthStart(c.m) + c.d - 1) + 2) / 153 == mp && MonthStart(c.m) == (153 * mp + 2) / 5
    ensures CivilFromDays(DaysFromCivil(c)) == c
  {
    hide YearOfEra, YearStart, MonthStart;
    EraOf(era, yoe);
    assert DaysFromCivil(c) == era * 146097 + (YearStart(yoe) + (MonthStart(c.m) + c.d - 1)) - 719468;
    hide DaysFromCivil;
  }

  /** daysFromCivil undoes civilFromDays on every day number, and the date is real. */
  lemma {:induction false} DaysOfCivil(day: int)
    ensures RealDate(CivilFromDays(day)) && DaysFromCivil(CivilFromDays(day)) == day
  {
    hide YearOfEra, YearStart, IsLeap, MonthStart, RealDate, DaysFromCivil;
    var z := day + 719468;
    var era, doe := z / 146097, z % 146097;
    var yoe := YearOfEra(doe);
    DayInYear(doe);
    var doy := doe - YearStart(yoe);
    var mp := (5 * doy + 2) / 153;
    var d := doy - (153 * mp + 2) / 5 + 1;
    DateInYear(yoe, doy);
    DateReal(era, yoe, mp, d);
    assert CivilFromDays(day) == Dated(era, yoe, mp, d);
  }

  /** The date of a month and day of a March year. */
  function Dated(era: int, yoe: int, mp: int, d: int): Civil {
    Civil(if mp < 10 then yoe + era * 400 else yoe + era * 400 + 1, Shifted(mp), d)
  }

  lemma {:induction false} EraOf(era: int, yoe: int)
    requires 0 <= yoe < 400
    ensures (yoe + era * 400) / 400 == era && (yoe + era * 400) % 400 == yoe
  {}

  lemma {:induction false} DateReal(era: int, yoe: int, mp: int, d: int)
    requires 0 <= yoe < 400 && 0 <= mp < 12 && 1 <= d
      && (mp < 11 ==> d <= (153 * (mp + 1) + 2) / 5 - (153 * mp + 2) / 5)
    requires mp == 11 ==> d <= if IsLeap(yoe + 1) then 29 else 28
    ensures RealDate(Dated(era, yoe, mp, d))
    ensures DaysFromCivil(Dated(era, yoe, mp, d)) == era * 146097 +
      (YearStart(yoe) + (MonthStart(Shifted(mp)) + d - 1)) - 719468
  {
    var c := Dated(era, yoe, mp, d);
    EraOf(era, yoe);
    EraLeap(yoe + era * 400);
    MonthLengths(c.y, c.m);
    hide YearStart, MonthStart, IsLeap;
  }

  /** A day of a March year has a month and a day of the month. */
  lemma {:induction false} DateInYear(yoe: int, doy: int)
    requires 0 <= doy < YearLength(yoe)
    ensures var mp := (5 * doy + 2) / 153; var d := doy - (153 * mp + 2) / 5 + 1;
      && 0 <= mp < 12 && MonthStart(Shifted(mp)) + d - 1 == doy
      && 1 <= d && (mp < 11 ==> d <= (153 * (mp + 1) + 2) / 5 - (153 * mp + 2) / 5)
      && (mp == 11 ==> d <= if IsLeap(yoe + 1) then 29 else 28)
  {}

  /** The day after a date. */
  function NextDay(c: Civil): Civil {
    if c.d < DaysInMonth(c.y, c.m) then Civil(c.y, c.m, c.d + 1)
    else if c.m < 12 then Civil(c.y, c.m + 1, 1)
    else Civil(c.y + 1, 1, 1)
  }

  /** The next date of the calendar is the next integer. */
  lemma {:induction false} NextDayIsNext(c: Civil)
    requires RealDate(c)
    ensures RealDate(NextDay(c)) && DaysFromCivil(NextDay(c)) == DaysFromCivil(c) + 1
  {
    var yy := if c.m <= 2 then c.y - 1 else c.y;
    MonthLengths(c.y, c.m);
    if c.d == DaysInMonth(c.y, c.m) && c.m == 2 {
      YearTurn(yy);
    }
  }

  /** The date n days later. */
  function DaysLater(c: Civil, n: nat): Civil { if n == 0 then c else NextDay(DaysLater(c, n - 1)) }

  /** Day numbers count the days of the calendar from 1970-01-01, before it and after it. */
  lemma {:induction false} DaysCount(c: Civil, n: nat)
    requires RealDate(c)
    ensures RealDate(DaysLater(c, n)) && DaysFromCivil(DaysLater(c, n)) == DaysFromCivil(c) + n
    ensures DaysFromCivil(Civil(1970, 1, 1)) == 0
  {
    hide NextDay, RealDate;
    if n > 0 {
      DaysCount(c, n - 1);
      NextDayIsNext(DaysLater(c, n - 1));
    }
  }

  /** March years follow each other, across eras too. */
  lemma {:induction false} YearTurn(yy: int)
    ensures (yy + 1) / 400 * 146097 + YearStart((yy + 1) % 400) == yy / 400 * 146097 + YearStart(yy % 400) +
      YearLength(yy % 400)
    ensures YearLength(yy % 400) == if IsLeap(yy + 1) then 366 else 365
  {
    EraLeap(yy);
    var era, yoe := yy / 400, yy % 400;
    if yoe < 399 {
      EraOf(era, yoe + 1);
      NextStart(yoe);
    } else {
      EraOf(era + 1, 0);
      assert YearStart(399) == 145731 && YearStart(0) == 0 && YearLength(399) == 366;
    }
  }

  lemma {:induction false} NextStart(yoe: int)
    requires 0 <= yoe < 399
    ensures YearStart(yoe + 1) == YearStart(yoe) + YearLength(yoe)
  {}

  /** Every date that validDate admits has a day number that fits 32 bits. */
  lemma {:induction false} DaysFit(c: Civil)
    requires RealDate(c) && -9999 <= c.y <= 9999
    ensures -0x8000_0000 <= DaysFromCivil(c) < 0x8000_0000
  {
    DayOfYear(c.y, c.m, c.d);
    var yy := if c.m <= 2 then c.y - 1 else c.y;
    hide MonthStart, DaysInMonth, IsLeap;
    assert -26 <= yy / 400 <= 25;
  }
}
