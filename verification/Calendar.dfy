/** The log timestamp's calendar: civil-from-days against the Gregorian calendar itself. */
module Calendar {
  import opened Arithmetic

  const DAY_MS: int := 86_400_000

  datatype Date = Date(y: int, m: int, d: int)

  // ---- the algorithm ----

  function Era(z: int): int {
    TruncDiv(if z >= 0 then z else z - 146_096, 146_097)
  }

  function YearOfEra(doe: nat): nat
    requires doe < 146_097
  {
    YearOfEraNonNegative(doe);
    (doe - doe / 1460 + doe / 36_524 - doe / 146_096) / 365
  }

  lemma YearOfEraNonNegative(doe: nat)
    requires doe < 146_097
    ensures doe - doe / 1460 + doe / 36_524 - doe / 146_096 >= 0
  {}

  /** Days from 1 March of the era's year `yoe` to the era's start. */
  function MarchStart(yoe: nat): int {
    365 * yoe + yoe / 4 - yoe / 100
  }

  /** Month and day from the day of a year that begins in March. */
  function MonthDay(doy: nat): (int, int) {
    var mp := (5 * doy + 2) / 153;
    (if mp < 10 then mp + 3 else mp - 9, doy - (153 * mp + 2) / 5 + 1)
  }

  /** The date of a day counted from 1 January 1970. */
  function CivilFromDays(days: int): Date {
    var z := days + 719_468;
    EraFloors(z);
    var era := Era(z);
    var doe := z - era * 146_097;
    var yoe := YearOfEra(doe);
    YearOfEraBounds(doe);
    var doy := doe - MarchStart(yoe);
    var (m, d) := MonthDay(doy);
    Date(yoe + era * 400 + (if m <= 2 then 1 else 0), m, d)
  }

  lemma EraFloors(z: int)
    ensures Era(z) == z / 146_097
  {
    if z < 0 {
      var q := (146_096 - z) / 146_097;
      assert (-q) * 146_097 <= z < (-q + 1) * 146_097;
    }
  }

  /** The year found is the one whose March-to-March span holds the day. */
  lemma YearOfEraBounds(doe: nat)
    requires doe < 146_097
    ensures var yoe := YearOfEra(doe);
            yoe < 400 && MarchStart(yoe) <= doe
            && doe < MarchStart(yoe + 1) + (if yoe == 399 then 1 else 0)
  {
    if doe < 146_096 {
      var q, c := doe / 1460, doe / 36_524;
      var y := YearOfEra(doe);
      assert doe / 146_096 == 0;
      InYear(doe, q, c, y, (doe - q + c) % 365);
    } else {
      assert YearOfEra(146_096) == 399 && MarchStart(399) == 145_731 && MarchStart(400) == 146_096;
    }
  }

  lemma InYear(doe: nat, q: nat, c: nat, y: nat, f: nat)
    requires q == doe / 1460 && c == doe / 36_524 && doe < 146_096 && f < 365
    requires doe - q + c == 365 * y + f
    ensures y < 400 && MarchStart(y) <= doe && doe < MarchStart(y + 1) + (if y == 399 then 1 else 0)
  {
    var a, r := y / 4, y % 4;
    WithinCentury(doe, q, c, a, r, f);
    CenturyOf(y, a, r);
  }

  /** `f` days into year `4a + r`, by the estimate that divides the day by 1460 and by 36524. */
  lemma WithinCentury(doe: nat, q: nat, c: nat, a: nat, r: nat, f: nat)
    requires q == doe / 1460 && c == doe / 36_524 && doe < 146_096 && r < 4 && f < 365
    requires doe - q + c == 365 * (4 * a + r) + f
    ensures a < 100 && a / 25 == c && 0 <= q - a + f
    ensures q - a + f <= 364 + (if r == 3 && (a % 25 != 24 || a == 99) then 1 else 0)
  {
    var s := doe % 1460;
    var delta := q - a;
    assert s == a + 365 * r + f - 1459 * delta - c;
    assert -1 <= delta <= 1;
    var b, g := a / 25, a % 25;
    assert doe == 36_525 * b + 1461 * g + 365 * r + f + delta - c;
    assert b == c;
  }

  lemma CenturyOf(y: nat, a: nat, r: nat)
    requires a == y / 4 && r == y % 4
    ensures y / 100 == a / 25 && (y + 1) / 4 == a + (if r == 3 then 1 else 0)
    ensures (y + 1) / 100 == a / 25 + (if r == 3 && a % 25 == 24 then 1 else 0)
  {}

  // ---- the Gregorian calendar ----

  predicate Leap(y: int) {
    y % 4 == 0 && (y % 100 != 0 || y % 400 == 0)
  }

  function DaysInMonth(y: int, m: int): (n: nat)
    ensures n <= 31
  {
    if m == 2 then (if Leap(y) then 29 else 28)
    else if m == 4 || m == 6 || m == 9 || m == 11 then 30
    else 31
  }

  predicate Valid(t: Date) {
    1 <= t.m <= 12 && 1 <= t.d <= DaysInMonth(t.y, t.m)
  }

  /** The day after. */
  function NextDate(t: Date): Date {
    if t.d < DaysInMonth(t.y, t.m) then t.(d := t.d + 1)
    else if t.m < 12 then Date(t.y, t.m + 1, 1)
    else Date(t.y + 1, 1, 1)
  }

  /** Days from the start of the calendar to 1 January of year `y`. */
  function DaysBeforeYear(y: int): int {
    365 * (y - 1) + (y - 1) / 4 - (y - 1) / 100 + (y - 1) / 400
  }

  function DaysBeforeMonth(y: int, m: int): int
    decreases m
  {
    if m <= 1 then 0 else DaysBeforeMonth(y, m - 1) + DaysInMonth(y, m - 1)
  }

  /** Days since 1 January 1970. */
  function DayNumber(t: Date): int {
    DaysBeforeYear(t.y) + DaysBeforeMonth(t.y, t.m) + t.d - 1 - 719_162
  }

  lemma YearLength(y: int)
    ensures DaysBeforeYear(y + 1) == DaysBeforeYear(y) + (if Leap(y) then 366 else 365)
  {
    DivStep(y, 4);
    DivStep(y, 100);
    DivStep(y, 400);
    Multiples(y);
  }

  lemma Multiples(y: int)
    ensures y % 400 == 0 ==> y % 100 == 0
    ensures y % 100 == 0 ==> y % 4 == 0
  {
    if y % 100 == 0 { Mod4(0, 25 * (y / 100)); }
    if y % 400 == 0 { Mod100(0, 4 * (y / 400)); }
  }

  lemma DivStep(y: int, n: int)
    requires n == 4 || n == 100 || n == 400
    ensures y / n == (y - 1) / n + (if y % n == 0 then 1 else 0)
  {}

  lemma MonthTable(y: int)
    ensures var k := if Leap(y) then 1 else 0;
            && DaysBeforeMonth(y, 1) == 0 && DaysBeforeMonth(y, 2) == 31 && DaysBeforeMonth(y, 3) == 59 + k
            && DaysBeforeMonth(y, 4) == 90 + k && DaysBeforeMonth(y, 5) == 120 + k && DaysBeforeMonth(y, 6) == 151 + k
            && DaysBeforeMonth(y, 7) == 181 + k && DaysBeforeMonth(y, 8) == 212 + k && DaysBeforeMonth(y, 9) == 243 + k
            && DaysBeforeMonth(y, 10) == 273 + k && DaysBeforeMonth(y, 11) == 304 + k
            && DaysBeforeMonth(y, 12) == 334 + k && DaysBeforeMonth(y, 13) == 365 + k
  {
    assert DaysBeforeMonth(y, 2) == 31;
    assert DaysBeforeMonth(y, 4) == DaysBeforeMonth(y, 3) + 31;
    assert DaysBeforeMonth(y, 6) == DaysBeforeMonth(y, 5) + 31;
    assert DaysBeforeMonth(y, 8) == DaysBeforeMonth(y, 7) + 31;
    assert DaysBeforeMonth(y, 10) == DaysBeforeMonth(y, 9) + 30;
    assert DaysBeforeMonth(y, 12) == DaysBeforeMonth(y, 11) + 30;
  }

  /** Day numbers count dates one by one. */
  lemma NextDateNext(t: Date)
    requires Valid(t)
    ensures Valid(NextDate(t)) && DayNumber(NextDate(t)) == DayNumber(t) + 1
  {
    MonthTable(t.y);
    YearLength(t.y);
    if t.m == 12 { MonthTable(t.y + 1); }
    hide DaysBeforeYear, Leap;
  }

  lemma {:induction false} YearsMonotone(a: int, b: int)
    requires a <= b
    ensures DaysBeforeYear(a) + 365 * (b - a) <= DaysBeforeYear(b)
    decreases b - a
  {
    if a < b {
      YearLength(b - 1);
      hide DaysBeforeYear;
      YearsMonotone(a, b - 1);
    }
  }

  lemma {:induction false} MonthsMonotone(y: int, a: int, b: int)
    requires 1 <= a < b
    ensures DaysBeforeMonth(y, a) + DaysInMonth(y, a) <= DaysBeforeMonth(y, b)
    decreases b
  {
    if a < b - 1 { MonthsMonotone(y, a, b - 1); }
  }

  lemma InYearNumber(t: Date)
    requires Valid(t)
    ensures 0 <= DayNumber(t) + 719_162 - DaysBeforeYear(t.y) < (if Leap(t.y) then 366 else 365)
  {
    MonthTable(t.y);
    hide DaysBeforeYear, Leap;
  }

  lemma DayNumberOrder(a: Date, b: Date)
    requires Valid(a) && Valid(b)
    requires a.y < b.y || (a.y == b.y && (a.m < b.m || (a.m == b.m && a.d < b.d)))
    ensures DayNumber(a) < DayNumber(b)
  {
    if a.y < b.y {
      InYearNumber(a);
      InYearNumber(b);
      YearLength(a.y);
      YearsMonotone(a.y + 1, b.y);
      hide DaysBeforeYear, DaysBeforeMonth, Leap, DayNumber;
    } else if a.m < b.m {
      MonthsMonotone(a.y, a.m, b.m);
    }
  }

  lemma DayNumberInjective(a: Date, b: Date)
    requires Valid(a) && Valid(b) && DayNumber(a) == DayNumber(b)
    ensures a == b
  {
    hide DayNumber, Valid;
    if a != b {
      if a.y < b.y || (a.y == b.y && (a.m < b.m || (a.m == b.m && a.d < b.d))) {
        DayNumberOrder(a, b);
      } else {
        DayNumberOrder(b, a);
      }
    }
  }

  // ---- correctness ----

  lemma MonthDayValid(doy: nat)
    requires doy < 366
    ensures var (m, d) := MonthDay(doy);
            && 1 <= m <= 12 && 1 <= d
            && (m == 2 ==> d <= 29 && (d == 29 <==> doy == 365))
            && (m == 4 || m == 6 || m == 9 || m == 11 ==> d <= 30) && d <= 31
            && (m <= 2 <==> doy >= 306)
            && doy + 1 == d + (match m
                 case 3 => 0 case 4 => 31 case 5 => 61 case 6 => 92 case 7 => 122 case 8 => 153
                 case 9 => 184 case 10 => 214 case 11 => 245 case 12 => 275 case 1 => 306 case _ => 337)
  {
    var mp := (5 * doy + 2) / 153;
    assert mp < 12;
  }

  lemma EraYears(era: int, yoe: nat)
    requires yoe < 400
    ensures DaysBeforeYear(yoe + era * 400 + 1) == era * 146_097 + MarchStart(yoe)
  {
    var y := yoe + era * 400;
    assert y / 4 == yoe / 4 + era * 100 && y / 100 == yoe / 100 + era * 4 && y / 400 == era;
  }

  /** A day past the 365th exists only in a year whose February has 29. */
  lemma LongYear(era: int, yoe: nat, doy: nat)
    requires yoe < 400 && MarchStart(yoe) + doy < MarchStart(yoe + 1) + (if yoe == 399 then 1 else 0)
    ensures doy < 366 && (doy == 365 ==> Leap(yoe + era * 400 + 1))
  {
    var x: nat := yoe + 1;
    SameInEra(era, x);
    DivStep(x, 4);
    DivStep(x, 100);
    Multiples(x);
    LeapStep(x / 4 - yoe / 4, x / 100 - yoe / 100, x % 4 == 0, x % 100 == 0);
  }

  lemma LeapStep(by4: int, by100: int, four: bool, hundred: bool)
    requires by4 == (if four then 1 else 0) && by100 == (if hundred then 1 else 0) && (hundred ==> four)
    ensures by4 - by100 == if four && !hundred then 1 else 0
  {}

  lemma SameInEra(era: int, x: int)
    ensures (x + 400 * era) % 4 == x % 4 && (x + 400 * era) % 100 == x % 100 && (x + 400 * era) % 400 == x % 400
  {
    Mod4(x, era * 100);
    Mod100(x, era * 4);
    Mod400(x, era);
  }

  lemma Mod4(x: int, k: int)
    ensures (x + 4 * k) % 4 == x % 4
  {}

  lemma Mod100(x: int, k: int)
    ensures (x + 100 * k) % 100 == x % 100
  {}

  lemma Mod400(x: int, k: int)
    ensures (x + 400 * k) % 400 == x % 400
  {}

  lemma CivilParts(days: int) returns (era: int, yoe: nat, doy: nat)
    ensures yoe < 400 && doy < 366 && (doy == 365 ==> Leap(yoe + era * 400 + 1))
    ensures days + 719_468 == era * 146_097 + MarchStart(yoe) + doy
    ensures var (m, d) := MonthDay(doy);
            CivilFromDays(days) == Date(yoe + era * 400 + (if m <= 2 then 1 else 0), m, d)
  {
    hide YearOfEra, MarchStart, MonthDay, Era, Leap;
    var z := days + 719_468;
    EraFloors(z);
    era := Era(z);
    var doe := z - era * 146_097;
    yoe := YearOfEra(doe);
    YearOfEraBounds(doe);
    doy := doe - MarchStart(yoe);
    LongYear(era, yoe, doy);
  }

  /** Every day's date is a valid Gregorian date whose day number is that day. */
  lemma CivilCorrect(days: int)
    ensures Valid(CivilFromDays(days)) && DayNumber(CivilFromDays(days)) == days
  {
    hide CivilFromDays, MarchStart, MonthDay, DaysBeforeYear, DaysBeforeMonth, Leap;
    var era, yoe, doy := CivilParts(days);
    MonthDayValid(doy);
    EraYears(era, yoe);
    YearLength(yoe + era * 400);
    MonthTable(CivilFromDays(days).y);
  }

  /** And the only one: the date of a valid date's day number is that date. */
  lemma CivilInverse(t: Date)
    requires Valid(t)
    ensures CivilFromDays(DayNumber(t)) == t
  {
    CivilCorrect(DayNumber(t));
    hide CivilFromDays, DayNumber, Valid;
    DayNumberInjective(CivilFromDays(DayNumber(t)), t);
  }

  /** Day 0 is 1 January 1970 and consecutive days are consecutive dates. */
  lemma CivilNext(days: int)
    ensures CivilFromDays(0) == Date(1970, 1, 1)
    ensures CivilFromDays(days + 1) == NextDate(CivilFromDays(days))
  {
    assert DayNumber(Date(1970, 1, 1)) == 0;
    CivilInverse(Date(1970, 1, 1));
    CivilCorrect(days);
    CivilCorrect(days + 1);
    hide CivilFromDays, DayNumber, Valid, NextDate;
    NextDateNext(CivilFromDays(days));
    DayNumberInjective(CivilFromDays(days + 1), NextDate(CivilFromDays(days)));
  }
}
