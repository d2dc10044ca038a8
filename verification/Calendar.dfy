/**
 * Dates and timestamps: a closed form one way, loops over years and months the other.
 */
module Calendar {
  const DAY := 86400
  const HOUR := 3600
  const MINUTE := 60
  const U32: nat := 0x1_0000_0000
  const U64: nat := 0x1_0000_0000_0000_0000

  datatype Date = Date(second: nat, minute: nat, hour: nat, day: nat, month: nat, year: nat)

  // ----- the calendar

  predicate Leap(year: nat) {
    if year % 100 == 0 then year % 400 == 0 else year % 4 == 0
  }

  function YearDays(year: nat): nat {
    if Leap(year) then 366 else 365
  }

  /** Days in the first `m` months of a common year. */
  function Cumulative(m: nat): nat
    requires m <= 12
  {
    [0, 31, 59, 90, 120, 151, 181, 212, 243, 273, 304, 334, 365][m]
  }

  /** Days in the first `m` months of `year`. */
  function MonthsDays(year: nat, m: nat): nat
    requires m <= 12
  {
    Cumulative(m) + if Leap(year) && m >= 2 then 1 else 0
  }

  function MonthDays(year: nat, month: nat): nat {
    if month == 2 then (if Leap(year) then 29 else 28)
    else if month == 4 || month == 6 || month == 9 || month == 11 then 30 else 31
  }

  predicate Valid(d: Date) {
    && d.year >= 1970 && 1 <= d.month <= 12 && 1 <= d.day <= MonthDays(d.year, d.month)
    && d.hour < 24 && d.minute < 60 && d.second < 60
  }

  /** Days from 1970 up to the start of `year`, year by year. */
  function DaysBefore(year: nat): nat
    requires year >= 1970
  {
    if year == 1970 then 0 else DaysBefore(year - 1) + YearDays(year - 1)
  }

  /** Seconds since the start of 1970. */
  function Seconds(d: Date): nat
    requires Valid(d)
  {
    (DaysBefore(d.year) + DayOfYear(d)) * DAY + d.hour * HOUR + d.minute * MINUTE + d.second
  }

  function DayOfYear(d: Date): nat
    requires Valid(d)
  {
    MonthsDays(d.year, d.month - 1) + d.day - 1
  }

  lemma {:induction false} MonthStep(year: nat, month: nat)
    requires 1 <= month <= 12
    ensures MonthsDays(year, month) == MonthsDays(year, month - 1) + MonthDays(year, month)
    ensures MonthsDays(year, 12) == YearDays(year) && MonthsDays(year, 0) == 0
  {
  }

  lemma {:induction false} MonthsGrow(year: nat, i: nat, j: nat)
    requires i <= j <= 12
    ensures MonthsDays(year, i) <= MonthsDays(year, j)
    decreases j
  {
    if i < j {
      MonthStep(year, j);
      MonthsGrow(year, i, j - 1);
    }
  }

  lemma {:induction false} YearsGrow(y: nat, z: nat)
    requires 1970 <= y < z
    ensures DaysBefore(y) + YearDays(y) <= DaysBefore(z)
    decreases z
  {
    hide Leap;
    if y < z - 1 {
      YearsGrow(y, z - 1);
    }
  }

  lemma {:induction false} DayInYear(d: Date)
    requires Valid(d)
    ensures DayOfYear(d) < YearDays(d.year)
  {
    hide MonthsDays, MonthDays, YearDays;
    MonthStep(d.year, d.month);
    MonthsGrow(d.year, d.month, 12);
  }

  // ----- the closed form

  /** Unsigned 64-bit subtraction and addition. */
  function Sub64(a: nat, b: nat): nat
    requires a < U64 && b < U64
  {
    if a >= b then a - b else a + U64 - b
  }

  function Add64(a: nat, b: nat): nat
    requires a < U64 && b < U64
  {
    if a + b < U64 then a + b else a + b - U64
  }

  function DivRoundUp(n: nat, d: nat): (q: nat)
    requires n < U64 && 0 < d < U64
    ensures q < U64
  {
    QuotientFits(Add64(n, d - 1), d);
    Add64(n, d - 1) / d
  }

  lemma {:induction false} QuotientFits(n: nat, d: nat)
    requires d > 0
    ensures n / d <= n
  {
    var q := n / d;
    assert n == d * q + n % d;
    assert d * q == (d - 1) * q + q;
    Product(d - 1, q);
  }

  lemma {:induction false} Product(a: nat, b: nat)
    ensures a * b >= 0
  {
  }

  /** The number of leap days before `year`, as the code computes it. */
  function LeapDays(year: nat): nat
    requires year < U32
  {
    Add64(Sub64(DivRoundUp(Sub64(year, 1972), 4), DivRoundUp(Sub64(year, 2000), 100)), DivRoundUp(Sub64(year, 2000), 400))
  }

  /** The number of multiples of `d` from `base` up to `year`. */
  function Multiples(year: nat, base: nat, d: nat): nat
    requires d > 0
  {
    if year < base then 0 else (year - base + d - 1) / d
  }

  /** The wrap below the base is harmless: the quotient comes out as zero. */
  lemma {:induction false} RoundUpCounts(year: nat, base: nat, d: nat)
    requires year < U32 && base < year + d && base < U32 && 0 < d < U32
    ensures DivRoundUp(Sub64(year, base), d) == Multiples(year, base, d)
  {
    if year < base {
      SmallQuotient(year + d - 1 - base, d);
    }
  }

  lemma {:induction false} SmallQuotient(n: nat, d: nat)
    requires n < d
    ensures n / d == 0
  {
  }

  lemma {:induction false} Fours(year: nat)
    requires year >= 1970
    ensures Multiples(year + 1, 1972, 4) == Multiples(year, 1972, 4) + if year % 4 == 0 then 1 else 0
  {
  }

  lemma {:induction false} Hundreds(year: nat)
    requires year >= 1970
    ensures Multiples(year + 1, 2000, 100) == Multiples(year, 2000, 100) + if year % 100 == 0 then 1 else 0
  {
  }

  lemma {:induction false} FourHundreds(year: nat)
    requires year >= 1970
    ensures Multiples(year + 1, 2000, 400) == Multiples(year, 2000, 400) + if year % 400 == 0 then 1 else 0
  {
  }

  lemma {:induction false} LeapIs(year: nat)
    ensures (if Leap(year) then 1 else 0) ==
            (if year % 4 == 0 then 1 else 0) - (if year % 100 == 0 then 1 else 0) + (if year % 400 == 0 then 1 else 0)
  {
    Divides(year, 100, 4, 25);
    Divides(year, 400, 100, 4);
  }

  /** A multiple of `d * k` is a multiple of `d`. */
  lemma {:induction false} Divides(year: nat, dk: nat, d: nat, k: nat)
    requires (dk == 100 && d == 4 && k == 25) || (dk == 400 && d == 100 && k == 4)
    ensures year % dk == 0 ==> year % d == 0
  {
    if year % dk == 0 {
      var q := year / dk;
      assert year == dk * q;
      if d == 4 {
        assert year == 4 * (25 * q);
      } else {
        assert year == 100 * (4 * q);
      }
    }
  }

  /** The year-by-year loop equals the closed form. */
  lemma {:induction false} DaysBeforeCounts(year: nat)
    requires year >= 1970
    ensures DaysBefore(year) == (year - 1970) * 365
              + Multiples(year, 1972, 4) - Multiples(year, 2000, 100) + Multiples(year, 2000, 400)
  {
    hide Multiples, Leap;
    if year == 1970 {
      NoMultiples();
    } else {
      DaysBeforeCounts(year - 1);
      Fours(year - 1);
      Hundreds(year - 1);
      FourHundreds(year - 1);
      LeapIs(year - 1);
    }
  }

  /** The leap days up to the end of `year`, from year 1 on. */
  function Leaps(year: nat): int {
    year / 4 - year / 100 + year / 400
  }

  /** The day number of a date in the Gregorian calendar without any table: years are counted from March, so that
      month lengths follow (153 m + 2) / 5, and day 0 is the first of January 1970. */
  function DayNumber(year: nat, month: nat, day: nat): int
    requires year > 0
  {
    var y, m := if month <= 2 then year - 1 else year, (month + 9) % 12;
    365 * y + Leaps(y) + (153 * m + 2) / 5 + day - 1 - 719468
  }

  lemma {:induction false} LeapsStep(year: nat)
    requires year > 0
    ensures Leaps(year) == Leaps(year - 1) + if Leap(year) then 1 else 0
  {
    hide Leap;
    LeapIs(year);
    Fourth(year);
    Hundredth(year);
    FourHundredth(year);
  }

  lemma {:induction false} Fourth(year: nat)
    requires year > 0
    ensures year / 4 == (year - 1) / 4 + if year % 4 == 0 then 1 else 0
  {
  }

  lemma {:induction false} Hundredth(year: nat)
    requires year > 0
    ensures year / 100 == (year - 1) / 100 + if year % 100 == 0 then 1 else 0
  {
  }

  lemma {:induction false} FourHundredth(year: nat)
    requires year > 0
    ensures year / 400 == (year - 1) / 400 + if year % 400 == 0 then 1 else 0
  {
  }

  lemma {:induction false} YearNumber(year: nat)
    requires year >= 1970
    ensures DaysBefore(year) == 365 * (year - 1) + Leaps(year - 1) - 719162
  {
    hide Leap;
    if year == 1970 {
      assert Leaps(1969) == 477;
    } else {
      hide Leaps;
      YearNumber(year - 1);
      LeapsStep(year - 1);
    }
  }

  /** Counting year by year and month by month gives the day number. */
  lemma {:induction false} DaysAreNumbers(d: Date)
    requires Valid(d)
    ensures DaysBefore(d.year) + DayOfYear(d) == DayNumber(d.year, d.month, d.day)
  {
    hide Leap, Leaps, DaysBefore, MonthDays;
    YearNumber(d.year);
    LeapsStep(d.year);
    MonthNumbers(d.month);
  }

  lemma {:induction false} MonthNumbers(month: nat)
    requires 1 <= month <= 12
    ensures Cumulative(month - 1) == (153 * ((month + 9) % 12) + 2) / 5 + if month <= 2 then -306 else 59
  {
  }

  lemma {:induction false} NoMultiples()
    ensures Multiples(1970, 1972, 4) == Multiples(1970, 2000, 100) == Multiples(1970, 2000, 400) == 0
  {
  }

  lemma {:induction false} MultiplesSmall(year: nat)
    requires 1970 <= year < U32
    ensures Multiples(year, 2000, 400) <= Multiples(year, 2000, 100) <= Multiples(year, 1972, 4) <= year - 1970
    decreases year
  {
    hide Multiples;
    if year == 1970 {
      NoMultiples();
    } else {
      MultiplesSmall(year - 1);
      Fours(year - 1);
      Hundreds(year - 1);
      FourHundreds(year - 1);
      LeapIs(year - 1);
    }
  }

  /** Leap days and common years make up the days before `year`. */
  lemma {:induction false} LeapDaysExact(year: nat)
    requires 1970 <= year < U32
    ensures LeapDays(year) + (year - 1970) * 365 == DaysBefore(year)
  {
    hide Multiples, DivRoundUp;
    RoundUpCounts(year, 1972, 4);
    RoundUpCounts(year, 2000, 100);
    RoundUpCounts(year, 2000, 400);
    DaysBeforeCounts(year);
    MultiplesSmall(year);
  }

  /** The years for which the count of common days fits 32 bits. */
  predicate Fits(year: nat) {
    1970 <= year && (year - 1970) * 365 < U32
  }

  /** The timestamp of a date, in 32- and 64-bit arithmetic. */
  function TimeStamp(d: Date): nat
    requires d.year < U32 && 1 <= d.month <= 12 && d.day >= 1
  {
    var offset := LeapDays(d.year);
    var common := (if d.year >= 1970 then d.year - 1970 else d.year + U32 - 1970) * 365 % U32;
    var days := Cumulative(d.month - 1) + (if d.month > 2 && Leap(d.year) then 1 else 0) + (d.day - 1);
    ((common + offset + days) * DAY + d.hour * HOUR + d.minute * MINUTE + d.second) % U64
  }

  /** The closed form is the number of seconds exactly as long as the years fit. */
  lemma {:induction false} StampIsSeconds(d: Date)
    requires Valid(d) && d.year < U32
    ensures Seconds(d) < U64
    ensures TimeStamp(d) == Seconds(d) <==> Fits(d.year)
  {
    hide LeapDays, DaysBefore, Leap, MonthDays;
    LeapDaysExact(d.year);
    DaysSmall(d.year);
    SecondsSmall(d);
    var c := (d.year - 1970) * 365;
    CommonDays(c);
    assert Seconds(d) == (c + LeapDays(d.year) + DayOfYear(d)) * DAY + d.hour * HOUR + d.minute * MINUTE + d.second;
    assert TimeStamp(d) == (c % U32 + LeapDays(d.year) + DayOfYear(d)) * DAY + d.hour * HOUR + d.minute * MINUTE + d.second;
  }

  /** For instance, the first day of 11769003 has the right timestamp, and that of the next year a
      wrong one. */
  lemma {:induction false} FirstWrongYear(year: nat)
    requires year == 11769003 || year == 11769004
    ensures var d := Date(0, 0, 0, 1, 1, year);
      Valid(d) && (TimeStamp(d) == Seconds(d) <==> year == 11769003)
  {
    hide TimeStamp, Seconds;
    StampIsSeconds(Date(0, 0, 0, 1, 1, year));
  }

  lemma {:induction false} CommonDays(c: nat)
    ensures c % U32 <= c && (c % U32 == c <==> c < U32)
  {
  }

  lemma {:induction false} DaysSmall(year: nat)
    requires 1970 <= year < U32
    ensures DaysBefore(year) < 366 * U32
  {
    hide Multiples, DaysBefore;
    DaysBeforeCounts(year);
    MultiplesSmall(year);
  }

  lemma {:induction false} SecondsSmall(d: Date)
    requires Valid(d) && DaysBefore(d.year) < 366 * U32
    ensures Seconds(d) < U64
  {
    hide DaysBefore, DayOfYear, YearDays, Leap;
    DayInYear(d);
    YearBound(d.year);
  }

  lemma {:induction false} YearBound(year: nat)
    ensures YearDays(year) <= 366
  {
  }

  // ----- distinct dates have distinct timestamps

  lemma {:induction false} SameTime(a: nat, b: nat, c: nat, x: nat, y: nat, z: nat)
    requires a < 24 && b < 60 && c < 60 && x < 24 && y < 60 && z < 60
    requires a * HOUR + b * MINUTE + c == x * HOUR + y * MINUTE + z
    ensures a == x && b == y && c == z
  {
  }

  lemma {:induction false} Injective(d: Date, e: Date)
    requires Valid(d) && Valid(e) && Seconds(d) == Seconds(e)
    ensures d == e
  {
    hide DaysBefore, DayOfYear, YearDays, Leap, MonthDays;
    var i, j := DaysBefore(d.year) + DayOfYear(d), DaysBefore(e.year) + DayOfYear(e);
    SameDay(i, d.hour * HOUR + d.minute * MINUTE + d.second, j, e.hour * HOUR + e.minute * MINUTE + e.second);
    SameTime(d.hour, d.minute, d.second, e.hour, e.minute, e.second);
    DayInYear(d);
    DayInYear(e);
    if d.year < e.year {
      YearsGrow(d.year, e.year);
    }
    if e.year < d.year {
      YearsGrow(e.year, d.year);
    }
    SameMonth(d, e);
  }

  lemma {:induction false} SameDay(i: nat, s: nat, j: nat, t: nat)
    requires s < DAY && t < DAY && i * DAY + s == j * DAY + t
    ensures i == j && s == t
  {
  }

  lemma {:induction false} SameMonth(d: Date, e: Date)
    requires Valid(d) && Valid(e) && d.year == e.year && DayOfYear(d) == DayOfYear(e)
    ensures d.month == e.month && d.day == e.day
  {
    hide MonthsDays, MonthDays;
    MonthStep(d.year, d.month);
    MonthStep(e.year, e.month);
    if d.month < e.month {
      MonthsGrow(d.year, d.month, e.month - 1);
    }
    if e.month < d.month {
      MonthsGrow(d.year, e.month, d.month - 1);
    }
  }

  // ----- the range of an int

  const INT_YEARS: nat := 0x8000_0000

  /** The days before the first year that an `int` does not hold. */
  const INT_DAYS: nat := 784351576777

  lemma {:induction false} IntDays(year: nat)
    requires year == INT_YEARS
    ensures DaysBefore(year) == INT_DAYS
  {
    hide DaysBefore;
    DaysBeforeCounts(year);
    assert Multiples(year, 1972, 4) == 536870419;
    assert Multiples(year, 2000, 100) == 21474817;
    assert Multiples(year, 2000, 400) == 5368705;
  }

  /** The year fits an `int` if and only if the days are fewer than that. */
  lemma {:induction false} IntYear(year: nat, daysLeft: nat, limit: nat)
    requires year >= 1970 && daysLeft < YearDays(year) && limit == INT_YEARS
    ensures year < INT_YEARS <==> DaysBefore(year) + daysLeft < INT_DAYS
  {
    hide DaysBefore, YearDays;
    IntDays(limit);
    if year < limit {
      YearsGrow(year, limit);
    } else if year > limit {
      YearsGrow(limit, year);
    }
  }

  // ----- the loops

  /** The date of a timestamp. The year counter of the code is an `int`, so its arithmetic is
      defined exactly for the timestamps of the second clause. */
  method TimeRtctm(ts: nat) returns (d: Date)
    requires ts < U64
    ensures Valid(d) && Seconds(d) == ts
    ensures d.year < INT_YEARS <==> ts / DAY < INT_DAYS
  {
    hide Leap, MonthsDays, MonthDays, Cumulative;
    var daysTotal, inDay := ts / DAY, ts % DAY;
    var year, daysLeft := YearOf(daysTotal);
    var month, day := MonthOf(year, daysLeft);
    d := Date(inDay % HOUR % MINUTE, inDay % HOUR / MINUTE, inDay / HOUR, day, month, year);
    ClockParts(inDay);
    assert ts == daysTotal * DAY + inDay;
  }

  /** Subtracts year after year. */
  method YearOf(daysTotal: nat) returns (year: nat, daysLeft: nat)
    ensures year >= 1970 && daysTotal == DaysBefore(year) + daysLeft && daysLeft < YearDays(year)
    ensures year < INT_YEARS <==> daysTotal < INT_DAYS
  {
    hide Leap;
    year, daysLeft := 1970, daysTotal;
    while true
      invariant year >= 1970 && daysTotal == DaysBefore(year) + daysLeft
      decreases daysLeft
    {
      var yearDays := if Leap(year) then 366 else 365;
      if daysLeft < yearDays {
        break;
      }
      daysLeft := daysLeft - yearDays;
      year := year + 1;
    }
    IntYear(year, daysLeft, INT_YEARS);
  }

  /** The first month whose end lies beyond the day, and the day in it. */
  method MonthOf(year: nat, daysLeft: nat) returns (month: nat, day: nat)
    requires daysLeft < YearDays(year)
    ensures 1 <= month <= 12 && 1 <= day <= MonthDays(year, month)
    ensures MonthsDays(year, month - 1) + day - 1 == daysLeft
  {
    hide Leap, MonthDays, Cumulative;
    MonthStep(year, 12);
    var i, prev := 1, 0;
    while i <= 12
      invariant 1 <= i <= 13 && MonthsDays(year, i - 1) <= daysLeft && prev == 0
      decreases 13 - i
    {
      var cum := Cumulative(i);
      if Leap(year) && i >= 2 {
        cum := cum + 1;
      }
      if daysLeft < cum {
        prev := Cumulative(i - 1);
        if Leap(year) && i - 1 >= 2 {
          prev := prev + 1;
        }
        break;
      }
      i := i + 1;
    }
    MonthStep(year, i);
    month, day := i, daysLeft - prev + 1;
  }

  lemma {:induction false} ClockParts(s: nat)
    requires s < DAY
    ensures s / HOUR < 24 && s % HOUR / MINUTE < 60 && s % HOUR % MINUTE < 60
    ensures s == s / HOUR * HOUR + s % HOUR / MINUTE * MINUTE + s % HOUR % MINUTE
  {
  }

  /** Dates survive the way to a timestamp and back. */
  method DateBack(d: Date) returns (e: Date)
    requires Valid(d) && Fits(d.year)
    ensures e == d
  {
    FitsSmall(d.year);
    StampIsSeconds(d);
    e := TimeRtctm(TimeStamp(d));
    Injective(d, e);
  }

  lemma {:induction false} FitsSmall(year: nat)
    requires Fits(year)
    ensures year < U32
  {
  }

  /** Timestamps survive the way to a date and back, exactly for the years that fit. */
  method StampBack(ts: nat) returns (d: Date)
    requires ts < U64
    ensures Valid(d) && (d.year < U32 ==> (TimeStamp(d) == ts <==> Fits(d.year)))
    ensures ts / DAY < INT_DAYS ==> d.year < U32
  {
    d := TimeRtctm(ts);
    if d.year < U32 {
      StampIsSeconds(d);
    }
  }
}
