/** UTC timestamps as `datetime.isoformat()` prints them, compared as strings.
    The fraction is printed with six digits, or left out when it is zero. */
module Timestamps {
  import opened Prelude

  datatype DateTime = DateTime(
    year: int, month: int, day: int, hour: int, minute: int, second: int, micro: int)
  {
    predicate Valid() {
      && 1 <= year <= 9999
      && 1 <= month <= 12
      && 1 <= day <= DaysInMonth(year, month)
      && 0 <= hour < 24
      && 0 <= minute < 60
      && 0 <= second < 60
      && 0 <= micro < 1_000_000
    }
  }

  type Moment = d: DateTime | d.Valid() witness DateTime(1, 1, 1, 0, 0, 0, 0)

  // ---- The calendar ----------------------------------------------------------

  predicate IsLeap(y: int) {
    y % 4 == 0 && (y % 100 != 0 || y % 400 == 0)
  }

  function DaysInMonth(y: int, m: int): int {
    if m == 2 then (if IsLeap(y) then 29 else 28)
    else if m == 4 || m == 6 || m == 9 || m == 11 then 30
    else 31
  }

  function DaysBeforeMonth(y: int, m: int): int
    decreases m
  {
    if m <= 1 then 0 else DaysBeforeMonth(y, m - 1) + DaysInMonth(y, m - 1)
  }

  function DaysBeforeYear(y: int): int {
    (y - 1) * 365 + (y - 1) / 4 - (y - 1) / 100 + (y - 1) / 400
  }

  /** Day number in the proleptic Gregorian calendar; 1 January of year 1 is day 1. */
  function Ordinal(y: int, m: int, d: int): int {
    DaysBeforeYear(y) + DaysBeforeMonth(y, m) + d
  }

  const MICROS_PER_MINUTE := 60_000_000

  /** Microseconds since the start of year 1. */
  function Instant(t: DateTime): int {
    (((Ordinal(t.year, t.month, t.day) * 24 + t.hour) * 60 + t.minute) * 60 + t.second) * 1_000_000
    + t.micro
  }

  /** The days before each month of a common year; a leap day goes before March. */
  const COMMON_YEAR: seq<int> := [0, 31, 59, 90, 120, 151, 181, 212, 243, 273, 304, 334, 365]

  lemma {:induction false} MonthsStart(y: int, m: int)
    requires 1 <= m <= 13
    ensures DaysBeforeMonth(y, m) == COMMON_YEAR[m - 1] + (if m > 2 && IsLeap(y) then 1 else 0)
    decreases m
  {
    if m > 1 {
      MonthsStart(y, m - 1);
    }
  }

  /** Counted so, the first of January 1970 is day 719163. */
  lemma UnixEpoch()
    ensures Instant(DateTime(1970, 1, 1, 0, 0, 0, 0)) == 719_163 * 86_400_000_000
  {
    MonthsStart(1970, 1);
  }

  lemma YearLength(y: int)
    ensures DaysBeforeYear(y + 1) == DaysBeforeYear(y) + DaysBeforeMonth(y, 13)
  {
    YearLengthIs(y);
    Quotients(y, 4);
    Quotients(y, 100);
    Quotients(y, 400);
    LeapCount(y);
  }

  lemma Quotients(y: int, n: int)
    requires n > 1
    ensures y / n - (y - 1) / n == if y % n == 0 then 1 else 0
  {
    var q, r := y / n, y % n;
    assert y == q * n + r;
    if r == 0 {
      assert y - 1 == (q - 1) * n + (n - 1);
      QuotientIs(y - 1, n, q - 1, n - 1);
    } else {
      assert y - 1 == q * n + (r - 1);
      QuotientIs(y - 1, n, q, r - 1);
    }
  }

  lemma MultipleReaches(d: int, n: int)
    requires d >= 1 && n > 0
    ensures d * n >= n
  {}

  lemma QuotientIs(x: int, n: int, q: int, r: int)
    requires n > 0 && 0 <= r < n && x == q * n + r
    ensures x / n == q
  {
    var d := x / n - q;
    assert d * n == r - x % n;
    if d >= 1 {
      MultipleReaches(d, n);
    } else if d <= -1 {
      MultipleReaches(-d, n);
    }
  }

  lemma LeapCount(y: int)
    ensures (if y % 4 == 0 then 1 else 0) - (if y % 100 == 0 then 1 else 0) + (if y % 400 == 0 then 1 else 0)
         == if IsLeap(y) then 1 else 0
  {
    if y % 400 == 0 {
      var k := y / 400;
      assert y == 4 * (100 * k) && y == 100 * (4 * k);
    } else if y % 100 == 0 {
      var k := y / 100;
      assert y == 4 * (25 * k);
    }
  }

  lemma YearLengthIs(y: int)
    ensures DaysBeforeMonth(y, 13) == if IsLeap(y) then 366 else 365
  {
    assert DaysBeforeMonth(y, 4) == 31 + DaysInMonth(y, 2) + 31;
    assert DaysBeforeMonth(y, 8) == DaysBeforeMonth(y, 4) + 122;
    assert DaysBeforeMonth(y, 12) == DaysBeforeMonth(y, 8) + 122;
  }

  lemma {:induction false} MonthsAccumulate(y: int, m: int, n: int)
    requires 1 <= m < n <= 13
    ensures DaysBeforeMonth(y, m) + DaysInMonth(y, m) <= DaysBeforeMonth(y, n)
    decreases n
  {
    if m + 1 < n {
      MonthsAccumulate(y, m, n - 1);
    }
  }

  lemma {:induction false} YearsAccumulate(y: int, z: int)
    requires 1 <= y < z
    ensures DaysBeforeYear(y) + DaysBeforeMonth(y, 13) <= DaysBeforeYear(z)
    decreases z
  {
    YearLength(z - 1);
    YearLengthIs(z - 1);
    if y + 1 < z {
      YearsAccumulate(y, z - 1);
    }
  }

  /** Order of (year, month, day) as tuples. */
  predicate DateLess(a: DateTime, b: DateTime) {
    a.year < b.year || (a.year == b.year && (a.month < b.month || (a.month == b.month && a.day < b.day)))
  }

  lemma OrdinalMonotone(a: DateTime, b: DateTime)
    requires a.Valid() && b.Valid() && DateLess(a, b)
    ensures Ordinal(a.year, a.month, a.day) < Ordinal(b.year, b.month, b.day)
  {
    MonthsAccumulate(a.year, a.month, 13);
    MonthsAccumulate(b.year, b.month, 13);
    if 1 < b.month {
      MonthsAccumulate(b.year, 1, b.month);
    }
    if a.year < b.year {
      YearsAccumulate(a.year, b.year);
    } else if a.month < b.month {
      MonthsAccumulate(a.year, a.month, b.month);
    }
  }

  function SecondOfDay(t: DateTime): int { (t.hour * 60 + t.minute) * 60 + t.second }

  lemma InstantIs(t: DateTime)
    ensures Instant(t)
         == (Ordinal(t.year, t.month, t.day) * 86_400 + SecondOfDay(t)) * 1_000_000 + t.micro
  {}

  /** Order of all seven fields as a tuple. */
  predicate FieldsLess(a: DateTime, b: DateTime) {
    if (a.year, a.month, a.day) != (b.year, b.month, b.day) then DateLess(a, b)
    else if a.hour != b.hour then a.hour < b.hour
    else if a.minute != b.minute then a.minute < b.minute
    else if a.second != b.second then a.second < b.second
    else a.micro < b.micro
  }

  lemma FieldsLessImpliesInstantLess(a: DateTime, b: DateTime)
    requires a.Valid() && b.Valid() && FieldsLess(a, b)
    ensures Instant(a) < Instant(b)
  {
    InstantIs(a);
    InstantIs(b);
    if (a.year, a.month, a.day) != (b.year, b.month, b.day) {
      OrdinalMonotone(a, b);
    }
  }

  lemma FieldsLessIffInstantLess(a: DateTime, b: DateTime)
    requires a.Valid() && b.Valid()
    ensures FieldsLess(a, b) <==> Instant(a) < Instant(b)
  {
    if FieldsLess(a, b) {
      FieldsLessImpliesInstantLess(a, b);
    } else if a != b {
      assert FieldsLess(b, a);
      FieldsLessImpliesInstantLess(b, a);
    }
  }

  // ---- The printed form ------------------------------------------------------

  function Pow10(w: nat): nat { if w == 0 then 1 else 10 * Pow10(w - 1) }

  function Digit(d: int): char
    requires 0 <= d < 10
  {
    '0' + d as char
  }

  /** `n` printed with exactly `w` decimal digits, zero-padded. */
  function Digits(n: int, w: nat): string
    requires 0 <= n < Pow10(w)
  {
    if w == 0 then "" else Digits(n / 10, w - 1) + [Digit(n % 10)]
  }

  function Fraction(micro: int): string
    requires 0 <= micro < 1_000_000
  {
    assert Pow10(6) == 1_000_000;
    if micro == 0 then "" else "." + Digits(micro, 6)
  }

  lemma Widths()
    ensures Pow10(2) == 100 && Pow10(4) == 10_000
  {
    assert Pow10(3) == 1_000;
  }

  function SecondOn(t: DateTime): string
    requires t.Valid()
  {
    Widths();
    Digits(t.second, 2) + (Fraction(t.micro) + "+00:00")
  }

  function MinuteOn(t: DateTime): string
    requires t.Valid()
  {
    Widths();
    Digits(t.minute, 2) + (":" + SecondOn(t))
  }

  function HourOn(t: DateTime): string
    requires t.Valid()
  {
    Widths();
    Digits(t.hour, 2) + (":" + MinuteOn(t))
  }

  function DayOn(t: DateTime): string
    requires t.Valid()
  {
    Widths();
    Digits(t.day, 2) + ("T" + HourOn(t))
  }

  function MonthOn(t: DateTime): string
    requires t.Valid()
  {
    Widths();
    Digits(t.month, 2) + ("-" + DayOn(t))
  }

  /** YYYY-MM-DDTHH:MM:SS[.ffffff]+00:00 */
  function IsoFormat(t: DateTime): string
    requires t.Valid()
  {
    Widths();
    Digits(t.year, 4) + ("-" + MonthOn(t))
  }

  // ---- Reading it back -------------------------------------------------------

  /** The number a string of digits spells. */
  function Number(s: string): int {
    if s == "" then 0 else 10 * Number(s[..|s| - 1]) + (s[|s| - 1] as int - '0' as int)
  }

  lemma {:induction false} NumberOfDigits(n: int, w: nat)
    requires 0 <= n < Pow10(w)
    ensures |Digits(n, w)| == w && Number(Digits(n, w)) == n
  {
    if w > 0 {
      NumberOfDigits(n / 10, w - 1);
      assert Digits(n, w)[..w - 1] == Digits(n / 10, w - 1);
    }
  }

  /** A field of w digits, the separator after it, and the rest. */
  predicate Splits(s: string, w: nat, n: int, separator: string, rest: string) {
    |s| >= w + 1 && Number(s[..w]) == n && s[w..w + 1] == separator && s[w + 1..] == rest
  }

  lemma FieldSplits(n: int, w: nat, separator: string, rest: string)
    requires 0 <= n < Pow10(w) && |separator| == 1
    ensures Splits(Digits(n, w) + (separator + rest), w, n, separator, rest)
  {
    NumberOfDigits(n, w);
    var s := Digits(n, w) + (separator + rest);
    assert s[..w] == Digits(n, w) && s[w..w + 1] == separator && s[w + 1..] == rest;
  }

  /** The printed form, field by field: year, month and day between hyphens, a T, hours, minutes and
      seconds between colons, a fraction of six digits unless it is zero, and the offset of UTC. */
  lemma IsoFields(t: DateTime)
    requires t.Valid()
    ensures Splits(IsoFormat(t), 4, t.year, "-", MonthOn(t))
    ensures Splits(MonthOn(t), 2, t.month, "-", DayOn(t))
    ensures Splits(DayOn(t), 2, t.day, "T", HourOn(t))
    ensures Splits(HourOn(t), 2, t.hour, ":", MinuteOn(t))
    ensures Splits(MinuteOn(t), 2, t.minute, ":", SecondOn(t))
  {
    Widths();
    FieldSplits(t.year, 4, "-", MonthOn(t));
    FieldSplits(t.month, 2, "-", DayOn(t));
    FieldSplits(t.day, 2, "T", HourOn(t));
    FieldSplits(t.hour, 2, ":", MinuteOn(t));
    FieldSplits(t.minute, 2, ":", SecondOn(t));
  }

  lemma IsoSeconds(t: DateTime)
    requires t.Valid()
    ensures t.micro == 0 ==>
              var s := SecondOn(t);
              |s| == 8 && Number(s[..2]) == t.second && s[2..] == "+00:00"
    ensures t.micro != 0 ==>
              var s := SecondOn(t);
              |s| == 15 && Number(s[..2]) == t.second && s[2] == '.' && Number(s[3..9]) == t.micro && s[9..] == "+00:00"
  {
    Widths();
    assert Pow10(6) == 1_000_000;
    var s := SecondOn(t);
    NumberOfDigits(t.second, 2);
    NumberOfDigits(t.micro, 6);
    assert s[..2] == Digits(t.second, 2) && s[2..] == Fraction(t.micro) + "+00:00";
    if t.micro != 0 {
      assert s[2..] == "." + Digits(t.micro, 6) + "+00:00";
      assert s[3..9] == s[2..][1..7] == Digits(t.micro, 6);
      assert s[9..] == s[2..][7..] == "+00:00";
    }
  }

  /** The fields a printed timestamp shows. */
  function ReadIso(s: string): DateTime
    requires |s| >= 25
  {
    DateTime(Number(s[..4]), Number(s[5..7]), Number(s[8..10]), Number(s[11..13]), Number(s[14..16]),
             Number(s[17..19]), if |s| == 32 then Number(s[20..26]) else 0)
  }

  /** Printing and reading back is the identity. */
  lemma IsoReadsBack(t: DateTime)
    requires t.Valid()
    ensures var s := IsoFormat(t);
            && |s| == (if t.micro == 0 then 25 else 32) && ReadIso(s) == t
            && s[4] == '-' && s[7] == '-' && s[10] == 'T' && s[13] == ':' && s[16] == ':' && s[|s| - 6..] == "+00:00"
  {
    var s := IsoFormat(t);
    IsoFields(t);
    IsoSeconds(t);
    assert s[5..] == MonthOn(t);
    assert s[8..] == s[5..][3..] == DayOn(t);
    assert s[11..] == s[8..][3..] == HourOn(t);
    assert s[14..] == s[11..][3..] == MinuteOn(t);
    assert s[17..] == s[14..][3..] == SecondOn(t);
    assert s[5..7] == s[5..][..2] && s[8..10] == s[8..][..2] && s[11..13] == s[11..][..2];
    assert s[14..16] == s[14..][..2] && s[17..19] == s[17..][..2];
    assert s[|s| - 6..] == s[17..][|s| - 23..];
    if t.micro != 0 {
      assert s[20..26] == s[17..][3..9];
    }
  }

  /** Fixed-width decimals compare as numbers, whatever follows them. */
  lemma {:induction false} DigitsOrder(m: int, n: int, w: nat, x: string, y: string)
    requires 0 <= m < Pow10(w) && 0 <= n < Pow10(w)
    ensures StrLess(Digits(m, w) + x, Digits(n, w) + y) <==> m < n || (m == n && StrLess(x, y))
    decreases w
  {
    if w == 0 {
      assert Digits(m, w) + x == x && Digits(n, w) + y == y;
    } else {
      var x' := [Digit(m % 10)] + x;
      var y' := [Digit(n % 10)] + y;
      assert Digits(m, w) + x == Digits(m / 10, w - 1) + x';
      assert Digits(n, w) + y == Digits(n / 10, w - 1) + y';
      DigitsOrder(m / 10, n / 10, w - 1, x', y');
      StrLessCons(Digit(m % 10), Digit(n % 10), x, y);
    }
  }

  /** The same, with a separator after the field. */
  lemma FieldOrder(m: int, n: int, w: nat, sep: char, x: string, y: string)
    requires 0 <= m < Pow10(w) && 0 <= n < Pow10(w)
    ensures StrLess(Digits(m, w) + ([sep] + x), Digits(n, w) + ([sep] + y))
       <==> m < n || (m == n && StrLess(x, y))
  {
    DigitsOrder(m, n, w, [sep] + x, [sep] + y);
    StrLessCons(sep, sep, x, y);
  }

  /** '+' sorts before '.', so an omitted fraction sorts as zero. */
  lemma FractionOrder(a: int, b: int)
    requires 0 <= a < 1_000_000 && 0 <= b < 1_000_000
    ensures StrLess(Fraction(a) + "+00:00", Fraction(b) + "+00:00") <==> a < b
  {
    var z := "+00:00";
    StrLessIrreflexive(z);
    assert Pow10(6) == 1_000_000;
    if a != 0 && b != 0 {
      assert Fraction(a) + z == ['.'] + (Digits(a, 6) + z);
      assert Fraction(b) + z == ['.'] + (Digits(b, 6) + z);
      StrLessCons('.', '.', Digits(a, 6) + z, Digits(b, 6) + z);
      DigitsOrder(a, b, 6, z, z);
    } else if a != 0 {
      assert Fraction(a) + z == ['.'] + (Digits(a, 6) + z);
      assert Fraction(b) + z == ['+'] + z[1..];
      StrLessCons('.', '+', Digits(a, 6) + z, z[1..]);
    } else if b != 0 {
      assert Fraction(b) + z == ['.'] + (Digits(b, 6) + z);
      assert Fraction(a) + z == ['+'] + z[1..];
      StrLessCons('+', '.', z[1..], Digits(b, 6) + z);
    } else {
      assert Fraction(a) + z == z;
    }
  }

  lemma SecondOrder(a: DateTime, b: DateTime)
    requires a.Valid() && b.Valid()
    ensures StrLess(SecondOn(a), SecondOn(b)) <==>
            if a.second != b.second then a.second < b.second else a.micro < b.micro
  {
    Widths();
    DigitsOrder(a.second, b.second, 2, Fraction(a.micro) + "+00:00", Fraction(b.micro) + "+00:00");
    FractionOrder(a.micro, b.micro);
  }

  lemma ClockOrder(a: DateTime, b: DateTime)
    requires a.Valid() && b.Valid()
    ensures StrLess(HourOn(a), HourOn(b)) <==>
            if a.hour != b.hour then a.hour < b.hour
            else if a.minute != b.minute then a.minute < b.minute
            else if a.second != b.second then a.second < b.second
            else a.micro < b.micro
  {
    Widths();
    FieldOrder(a.hour, b.hour, 2, ':', MinuteOn(a), MinuteOn(b));
    FieldOrder(a.minute, b.minute, 2, ':', SecondOn(a), SecondOn(b));
    SecondOrder(a, b);
  }

  lemma DayOrder(a: DateTime, b: DateTime)
    requires a.Valid() && b.Valid()
    ensures StrLess(DayOn(a), DayOn(b)) <==> a.day < b.day || (a.day == b.day && StrLess(HourOn(a), HourOn(b)))
  {
    Widths();
    FieldOrder(a.day, b.day, 2, 'T', HourOn(a), HourOn(b));
  }

  lemma MonthOrder(a: DateTime, b: DateTime)
    requires a.Valid() && b.Valid()
    ensures StrLess(MonthOn(a), MonthOn(b)) <==>
              a.month < b.month || (a.month == b.month && StrLess(DayOn(a), DayOn(b)))
  {
    Widths();
    FieldOrder(a.month, b.month, 2, '-', DayOn(a), DayOn(b));
  }

  lemma YearOrder(a: DateTime, b: DateTime)
    requires a.Valid() && b.Valid()
    ensures StrLess(IsoFormat(a), IsoFormat(b)) <==>
              a.year < b.year || (a.year == b.year && StrLess(MonthOn(a), MonthOn(b)))
  {
    Widths();
    FieldOrder(a.year, b.year, 4, '-', MonthOn(a), MonthOn(b));
  }

  /** Comparing the printed forms as strings is comparing the instants. */
  lemma IsoOrder(a: DateTime, b: DateTime)
    requires a.Valid() && b.Valid()
    ensures StrLess(IsoFormat(a), IsoFormat(b)) <==> Instant(a) < Instant(b)
  {
    YearOrder(a, b);
    MonthOrder(a, b);
    DayOrder(a, b);
    ClockOrder(a, b);
    FieldsLessIffInstantLess(a, b);
  }

  /** The printed form determines the timestamp. */
  lemma IsoInjective(a: DateTime, b: DateTime)
    requires a.Valid() && b.Valid() && IsoFormat(a) == IsoFormat(b)
    ensures a == b
  {
    StrLessIrreflexive(IsoFormat(a));
    IsoOrder(a, b);
    IsoOrder(b, a);
    FieldsLessIffInstantLess(a, b);
    FieldsLessIffInstantLess(b, a);
  }

  // ---- Adding thirty minutes -------------------------------------------------

  function NextDay(t: DateTime): DateTime {
    if t.day < DaysInMonth(t.year, t.month) then t.(day := t.day + 1)
    else if t.month < 12 then t.(month := t.month + 1, day := 1)
    else t.(year := t.year + 1, month := 1, day := 1)
  }

  /** `t + timedelta(minutes=30)`. */
  function PlusHalfHour(t: DateTime): DateTime {
    if t.minute < 30 then t.(minute := t.minute + 30)
    else if t.hour < 23 then t.(hour := t.hour + 1, minute := t.minute - 30)
    else NextDay(t).(hour := 0, minute := t.minute - 30)
  }

  lemma NextDayIsTomorrow(t: DateTime)
    requires t.Valid()
    ensures var n := NextDay(t); Ordinal(n.year, n.month, n.day) == Ordinal(t.year, t.month, t.day) + 1
    ensures t.year < 9999 ==> NextDay(t).Valid()
  {
    if t.day == DaysInMonth(t.year, t.month) && t.month == 12 {
      YearLength(t.year);
      assert DaysBeforeMonth(t.year, 13) == DaysBeforeMonth(t.year, 12) + 31;
    }
  }

  lemma PlusHalfHourAddsThirtyMinutes(t: DateTime)
    requires t.Valid()
    ensures Instant(PlusHalfHour(t)) == Instant(t) + 30 * MICROS_PER_MINUTE
    ensures t.year < 9999 ==> PlusHalfHour(t).Valid()
  {
    InstantIs(t);
    InstantIs(PlusHalfHour(t));
    if 30 <= t.minute && t.hour == 23 {
      NextDayIsTomorrow(t);
      var n := NextDay(t);
      assert Ordinal(n.year, n.month, n.day) == Ordinal(t.year, t.month, t.day) + 1;
    }
  }
}
