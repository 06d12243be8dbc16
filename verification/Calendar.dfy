/** Day numbers to calendar dates (src/key_import.rs). The calendar is the proleptic Gregorian one of ISO 8601. */
module Calendar {

  datatype Date = Date(year: int, month: int, day: int)

  // The calendar itself.

  predicate Leap(y: int) {
    y % 4 == 0 && (y % 100 != 0 || y % 400 == 0)
  }

  function DaysIn(y: int, m: int): int
    requires 1 <= m <= 12
  {
    if m == 2 then (if Leap(y) then 29 else 28)
    else if m == 4 || m == 6 || m == 9 || m == 11 then 30 else 31
  }

  predicate Valid(d: Date) {
    1 <= d.month <= 12 && 1 <= d.day <= DaysIn(d.year, d.month)
  }

  function Next(d: Date): Date
    requires Valid(d)
  {
    if d.day < DaysIn(d.year, d.month) then d.(day := d.day + 1)
    else if d.month < 12 then Date(d.year, d.month + 1, 1)
    else Date(d.year + 1, 1, 1)
  }

  // The conversion.

  /** Division as the machine does it: toward zero. */
  function Quotient(a: int, b: int): int
    requires b > 0
  {
    if a >= 0 then a / b else -(-a / b)
  }

  function YearOfEra(doe: int): int {
    (doe - doe / 1460 + doe / 36524 - doe / 146096) / 365
  }

  /** First day of a year of the era; years begin in March. */
  function YearStart(yoe: int): int {
    365 * yoe + yoe / 4 - yoe / 100
  }

  function MonthIndex(doy: int): int {
    (5 * doy + 2) / 153
  }

  function MonthStart(mp: int): int {
    (153 * mp + 2) / 5
  }

  function DateOf(y: int, doy: int): Date {
    var mp := MonthIndex(doy);
    var month := mp + (if mp < 10 then 3 else -9);
    Date(if month <= 2 then y + 1 else y, month, doy - MonthStart(mp) + 1)
  }

  /** All in 64 bits, before the year is narrowed. */
  function CivilWide(days: int): Date {
    var z := days + 719468;
    var era := Quotient(if z >= 0 then z else z - 146096, 146097);
    var doe := z - era * 146097;
    var yoe := YearOfEra(doe);
    DateOf(yoe + era * 400, doe - YearStart(yoe))
  }

  /** The low 32 bits of a number, as a signed number. */
  function Narrowed(y: int): (r: int)
    ensures -0x8000_0000 <= r < 0x8000_0000
  {
    (y + 0x8000_0000) % 0x1_0000_0000 - 0x8000_0000
  }

  function CivilFromDays(days: int): Date {
    CivilWide(days).(year := Narrowed(CivilWide(days).year))
  }

  // Years of an era.

  predicate LeapEnd(yoe: int) {
    yoe % 4 == 3 && (yoe % 100 != 99 || yoe == 399)
  }

  function YearLength(yoe: int): int {
    if LeapEnd(yoe) then 366 else 365
  }

  /** A year of the era ends with the last of February of the next calendar year. */
  lemma {:induction false} LeapEndIsLeap(yoe: int, era: int)
    requires 0 <= yoe < 400
    ensures LeapEnd(yoe) <==> Leap(yoe + era * 400 + 1)
  {
    LeapPeriod(yoe + 1, era);
  }

  lemma {:induction false} LeapPeriod(y: int, era: int)
    ensures Leap(y + era * 400) <==> Leap(y)
  {
    Mod4(y, era * 100);
    Mod100(y, era * 4);
    Mod400(y, era);
  }

  lemma {:induction false} Mod4(y: int, k: int)
    ensures (y + k * 4) % 4 == y % 4
  {
  }

  lemma {:induction false} Mod100(y: int, k: int)
    ensures (y + k * 100) % 100 == y % 100
  {
  }

  lemma {:induction false} Mod400(y: int, k: int)
    ensures (y + k * 400) % 400 == y % 400
  {
  }

  /** Centuries, four-year cycles and years of an era. */
  lemma {:induction false} YearStartParts(c: int, q: int, a: int)
    requires 0 <= c < 4 && 0 <= q < 25 && 0 <= a < 4
    ensures YearStart(100 * c + 4 * q + a) == 36524 * c + 1461 * q + 365 * a
    ensures LeapEnd(100 * c + 4 * q + a) <==> a == 3 && (q < 24 || c == 3)
  {
    var yoe := 100 * c + 4 * q + a;
    assert yoe / 4 == 25 * c + q && yoe / 100 == c;
  }

  lemma {:induction false} YearStartStep(yoe: int)
    requires 0 <= yoe < 400
    ensures yoe < 399 ==> YearStart(yoe + 1) == YearStart(yoe) + YearLength(yoe)
    ensures yoe == 399 ==> YearStart(yoe) + YearLength(yoe) == 146097
  {
    hide YearStart, LeapEnd;
    var c, q, a := yoe / 100, yoe % 100 / 4, yoe % 4;
    YearStartParts(c, q, a);
    if a < 3 {
      YearStartParts(c, q, a + 1);
    } else if q < 24 {
      YearStartParts(c, q + 1, 0);
    } else if c < 3 {
      YearStartParts(c + 1, 0, 0);
    }
  }

  lemma {:induction false} By1460(k: int, e: int)
    requires 0 <= e < 2 * 1460
    ensures (1460 * k + e) / 1460 == k + (if e >= 1460 then 1 else 0)
  {
  }

  lemma {:induction false} Centuries(c: int, r: int)
    requires 0 <= c < 4 && 0 <= r <= 36524 && (r == 36524 ==> c == 3)
    ensures (36524 * c + r) / 36524 - (36524 * c + r) / 146096 == c
  {
  }

  lemma {:induction false} By365(y: int, d: int)
    requires 0 <= d < 365
    ensures (365 * y + d) / 365 == y
  {
  }

  /** The corrections of the formula cancel: what is left is 365 times the year, and less than a year. */
  lemma {:induction false} YearOfEraParts(c: int, q: int, a: int, doy: int)
    requires 0 <= c < 4 && 0 <= q < 25 && 0 <= a < 4
    requires 0 <= doy < if a == 3 && (q < 24 || c == 3) then 366 else 365
    ensures YearOfEra(36524 * c + 1461 * q + 365 * a + doy) == 100 * c + 4 * q + a
  {
    var doe := 36524 * c + 1461 * q + 365 * a + doy;
    var e := 24 * c + q + 365 * a + doy;
    var extra := if e >= 1460 then 1 else 0;
    By1460(25 * c + q, e);
    Centuries(c, 1461 * q + 365 * a + doy);
    By365(100 * c + 4 * q + a, doy - extra);
  }

  /** The formula finds the year a day of the era lies in. */
  lemma {:induction false} YearFound(doe: int)
    requires 0 <= doe < 146097
    ensures
      var yoe := YearOfEra(doe);
      0 <= yoe < 400 && 0 <= doe - YearStart(yoe) < YearLength(yoe)
  {
    hide YearOfEra, YearStart, LeapEnd;
    var c := if doe == 146096 then 3 else doe / 36524;
    var r := doe - 36524 * c;
    var q := r / 1461;
    var s := r - 1461 * q;
    var a := if s >= 1095 then 3 else s / 365;
    YearOfEraParts(c, q, a, s - 365 * a);
    YearStartParts(c, q, a);
  }

  // Months of a year that begins in March.

  lemma {:induction false} MonthFound(doy: int)
    requires 0 <= doy < 366
    ensures 0 <= MonthIndex(doy) < 12 && MonthStart(MonthIndex(doy)) <= doy < MonthStart(MonthIndex(doy) + 1)
  {
  }

  lemma {:induction false} MonthUnique(doy: int, mp: int)
    requires 0 <= mp < 12 && MonthStart(mp) <= doy < MonthStart(mp + 1)
    ensures MonthIndex(doy) == mp
  {
  }

  /** How long the months are; the last one is February. */
  lemma {:induction false} MonthLengths(mp: int)
    requires 0 <= mp < 12
    ensures MonthStart(0) == 0 && MonthStart(12) == 367 && MonthStart(11) == 337
    ensures MonthStart(mp + 1) - MonthStart(mp) == if mp == 11 then 30 else if mp == 1 || mp == 3 || mp == 6 || mp
      == 8 then 30 else 31
  {
  }

  /** A day of the year is a valid date, and the day after is the next date. */
  lemma {:induction false} DateOfStep(y: int, doy: int, leap: bool)
    requires leap <==> Leap(y + 1)
    requires 0 <= doy < if leap then 366 else 365
    ensures Valid(DateOf(y, doy))
    ensures doy + 1 < (if leap then 366 else 365) ==> Next(DateOf(y, doy)) == DateOf(y, doy + 1)
    ensures doy + 1 == (if leap then 366 else 365) ==> Next(DateOf(y, doy)) == DateOf(y + 1, 0)
  {
    hide Leap, MonthIndex, MonthStart;
    var mp := MonthIndex(doy);
    MonthFound(doy);
    MonthLengths(mp);
    MonthLengths(0);
    MonthUnique(0, 0);
    if doy >= 337 {
      MonthLengths(11);
      MonthUnique(doy, 11);
    }
    if doy + 1 < MonthStart(mp + 1) {
      MonthUnique(doy + 1, mp);
    } else if mp < 11 {
      MonthLengths(mp + 1);
      MonthUnique(doy + 1, mp + 1);
    }
  }

  // Eras.

  lemma {:induction false} EraFound(z: int)
    ensures
      var era := Quotient(if z >= 0 then z else z - 146096, 146097);
      era == z / 146097 && z - era * 146097 == z % 146097
  {
  }

  /** Year, day of the year and whether the year ends with a 29th of February. */
  lemma {:induction false} Located(days: int) returns (era: int, yoe: int, doy: int)
    ensures 0 <= yoe < 400 && 0 <= doy < YearLength(yoe)
    ensures days + 719468 == era * 146097 + YearStart(yoe) + doy
    ensures CivilWide(days) == DateOf(yoe + era * 400, doy)
  {
    hide YearOfEra, YearStart, DateOf, Quotient;
    var z := days + 719468;
    EraFound(z);
    era := z / 146097;
    YearFound(z % 146097);
    yoe := YearOfEra(z % 146097);
    doy := z % 146097 - YearStart(yoe);
  }

  lemma {:induction false} LocatedUnique(days: int, era: int, yoe: int, doy: int)
    requires 0 <= yoe < 400 && 0 <= doy < YearLength(yoe) && days + 719468 == era * 146097 + YearStart(yoe) + doy
    ensures CivilWide(days) == DateOf(yoe + era * 400, doy)
  {
    hide YearOfEra, DateOf, Quotient, YearStart, LeapEnd;
    var z := days + 719468;
    var doe := YearStart(yoe) + doy;
    InEra(yoe, doy);
    EraUnique(z, era, doe);
    EraFound(z);
    YearOfStart(yoe, doy);
  }

  lemma {:induction false} YearOfStart(yoe: int, doy: int)
    requires 0 <= yoe < 400 && 0 <= doy < YearLength(yoe)
    ensures YearOfEra(YearStart(yoe) + doy) == yoe
  {
    hide YearOfEra, YearStart, LeapEnd;
    var c, q, a := yoe / 100, yoe % 100 / 4, yoe % 4;
    YearStartParts(c, q, a);
    YearOfEraParts(c, q, a, doy);
  }

  lemma {:induction false} EraUnique(z: int, era: int, doe: int)
    requires z == era * 146097 + doe && 0 <= doe < 146097
    ensures z / 146097 == era && z % 146097 == doe
  {
  }

  lemma {:induction false} InEra(yoe: int, doy: int)
    requires 0 <= yoe < 400 && 0 <= doy < YearLength(yoe)
    ensures 0 <= YearStart(yoe) + doy < 146097
  {
  }

  /** For every day number the result is a date of the calendar, and the next day number gives the next date. */
  lemma {:induction false} NextDay(days: int)
    ensures Valid(CivilWide(days)) && CivilWide(days + 1) == Next(CivilWide(days))
  {
    hide YearStart, DateOf, LeapEnd, CivilWide, Leap, Next, Valid, YearLength;
    var era, yoe, doy := Located(days);
    LeapEndIsLeap(yoe, era);
    YearLengthIs(yoe);
    DateOfStep(yoe + era * 400, doy, LeapEnd(yoe));
    YearStartStep(yoe);
    if doy + 1 < YearLength(yoe) {
      LocatedUnique(days + 1, era, yoe, doy + 1);
    } else if yoe < 399 {
      YearLengthIs(yoe + 1);
      LocatedUnique(days + 1, era, yoe + 1, 0);
    } else {
      YearLengthIs(0);
      EraStart();
      LocatedUnique(days + 1, era + 1, 0, 0);
    }
  }

  lemma {:induction false} YearLengthIs(yoe: int)
    ensures YearLength(yoe) == if LeapEnd(yoe) then 366 else 365
  {
  }

  lemma {:induction false} EraStart()
    ensures YearStart(0) == 0
  {
  }

  /** Day 0 is 1 January 1970. */
  lemma {:induction false} Epoch()
    ensures CivilWide(0) == Date(1970, 1, 1)
  {
  }

  // Millisecond counts.

  datatype Stamp = Stamp(date: Date, hour: int, minute: int)

  /** Date, hour and minute of a count of milliseconds since 30 December 1899. */
  function StampOf(totalMillis: int): Stamp {
    var ofDay := totalMillis % 86400000;
    Stamp(CivilFromDays(totalMillis / 86400000 - 25569), ofDay / 3600000, ofDay % 3600000 / 60000)
  }

  /** For every 64-bit count the year survives narrowing and the time of day is in range. */
  lemma {:induction false} StampInRange(totalMillis: int)
    requires -0x8000_0000_0000_0000 <= totalMillis < 0x8000_0000_0000_0000
    ensures StampOf(totalMillis).date == CivilWide(totalMillis / 86400000 - 25569) && Valid(StampOf(totalMillis).date)
    ensures 0 <= StampOf(totalMillis).hour < 24 && 0 <= StampOf(totalMillis).minute < 60
  {
    hide CivilWide, Valid, Next;
    var days := totalMillis / 86400000 - 25569;
    YearBound(days);
    NextDay(days);
    TimeOfDay(totalMillis);
  }

  lemma {:induction false} TimeOfDay(totalMillis: int)
    ensures 0 <= StampOf(totalMillis).hour < 24 && 0 <= StampOf(totalMillis).minute < 60
  {
    hide CivilFromDays;
  }

  lemma {:induction false} YearBound(days: int)
    requires -110_000_000_000 <= days <= 110_000_000_000
    ensures -0x8000_0000 <= CivilWide(days).year < 0x8000_0000
  {
    hide CivilWide, YearStart, YearLength;
    var era, yoe, doy := Located(days);
    InEra(yoe, doy);
    DateYear(yoe + era * 400, doy);
  }

  lemma {:induction false} DateYear(y: int, doy: int)
    ensures y <= DateOf(y, doy).year <= y + 1
  {
  }
}
