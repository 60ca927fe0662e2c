/** Dates as day numbers, the way Python's `date.toordinal()` counts them:
    day 1 is 1 January of year 1 of the proleptic Gregorian calendar and
    day 3652059 is 31 December 9999. The clock read `datetime.now()` of
    core/utils.py:131 and core/utils.py:140 becomes a day number passed in. */
module Calendar {
  import opened Text

  /** `date.max.toordinal()` */
  const MaxOrdinal: int := 3652059

  /** A day `datetime` can represent. */
  type Day = n: int | 1 <= n <= MaxOrdinal witness 1

  datatype Civil = Civil(year: int, month: int, day: int)

  predicate IsLeap(y: int) {
    y % 4 == 0 && (y % 100 != 0 || y % 400 == 0)
  }

  function YearLength(y: int): int {
    if IsLeap(y) then 366 else 365
  }

  function MonthLength(y: int, m: int): int
    requires 1 <= m <= 12
  {
    if m == 2 then (if IsLeap(y) then 29 else 28)
    else if m == 4 || m == 6 || m == 9 || m == 11 then 30
    else 31
  }

  /** Days of the months of year `y` before month `m`. */
  function DaysBeforeMonth(y: int, m: int): int
    requires 1 <= m <= 13
    decreases m
  {
    if m == 1 then 0 else DaysBeforeMonth(y, m - 1) + MonthLength(y, m - 1)
  }

  /** The twelve months fill the year. */
  lemma MonthsFillYear(y: int)
    ensures DaysBeforeMonth(y, 13) == YearLength(y)
  {
  }

  /** Days of the years before year `y`, counted from year 1. */
  function DaysBeforeYear(y: int): int
    requires y >= 1
  {
    var p := y - 1;
    365 * p + p / 4 - p / 100 + p / 400
  }

  /** Each year adds its own length. */
  lemma DaysBeforeNextYear(y: int)
    requires y >= 1
    ensures DaysBeforeYear(y + 1) == DaysBeforeYear(y) + YearLength(y)
  {
    var p := y - 1;
    assert y / 4 == p / 4 + (if y % 4 == 0 then 1 else 0);
    assert y / 100 == p / 100 + (if y % 100 == 0 then 1 else 0);
    assert y / 400 == p / 400 + (if y % 400 == 0 then 1 else 0);
  }

  /** The day number of a calendar date. */
  function OrdinalOf(c: Civil): int
    requires c.year >= 1 && 1 <= c.month <= 12
  {
    DaysBeforeYear(c.year) + DaysBeforeMonth(c.year, c.month) + c.day
  }

  predicate ValidCivil(c: Civil) {
    1 <= c.year <= 9999 && 1 <= c.month <= 12 && 1 <= c.day <= MonthLength(c.year, c.month)
  }

  /** The year holding the `days`-th day (counted from 0) after 1 January of
      year `y`, and the day's place in that year. */
  function FindYear(days: nat, y: int): (r: (int, nat))
    requires y >= 1
    ensures r.0 >= y && r.1 < YearLength(r.0)
    ensures DaysBeforeYear(r.0) + r.1 == DaysBeforeYear(y) + days
    decreases days
  {
    DaysBeforeNextYear(y);
    if days < YearLength(y) then (y, days)
    else FindYear(days - YearLength(y), y + 1)
  }

  /** The month holding the `doy`-th day (counted from 0) of year `y`,
      looking from month `m` on, and the day of that month. */
  function FindMonth(y: int, doy: nat, m: int): (r: (int, int))
    requires 1 <= m <= 12 && DaysBeforeMonth(y, m) <= doy < YearLength(y)
    ensures m <= r.0 <= 12 && 1 <= r.1 <= MonthLength(y, r.0)
    ensures DaysBeforeMonth(y, r.0) + r.1 == doy + 1
    decreases 12 - m
  {
    MonthsFillYear(y);
    if doy < DaysBeforeMonth(y, m + 1) || m == 12 then (m, doy - DaysBeforeMonth(y, m) + 1)
    else FindMonth(y, doy, m + 1)
  }

  /** `date.fromordinal(n)` */
  function CivilFromOrdinal(n: Day): (c: Civil)
    ensures c.year >= 1 && 1 <= c.month <= 12 && 1 <= c.day <= MonthLength(c.year, c.month)
    ensures OrdinalOf(c) == n
  {
    var yd := FindYear(n - 1, 1);
    var md := FindMonth(yd.0, yd.1, 1);
    Civil(yd.0, md.0, md.1)
  }

  /** Years grow with their day numbers. */
  lemma {:induction false} DaysBeforeYearMonotone(a: int, b: int)
    requires 1 <= a <= b
    ensures DaysBeforeYear(a) <= DaysBeforeYear(b)
    decreases b - a
  {
    if a < b {
      DaysBeforeNextYear(a);
      DaysBeforeYearMonotone(a + 1, b);
    }
  }

  /** Every day number is a valid date of years 1 to 9999. */
  lemma CivilIsValid(n: Day)
    ensures ValidCivil(CivilFromOrdinal(n))
  {
    var c := CivilFromOrdinal(n);
    assert DaysBeforeYear(10000) == MaxOrdinal;
    if c.year >= 10000 {
      DaysBeforeYearMonotone(10000, c.year);
    }
  }

  /** `date.weekday()`: Monday is 0 and Sunday is 6. */
  function Weekday(n: int): (w: int)
    ensures 0 <= w < 7
  {
    (n + 6) % 7
  }

  // ---------------------------------------------------------------------------
  // strftime

  /** `n` written with exactly `w` decimal digits, zeros in front. */
  function Pad(n: nat, w: nat): (r: string)
    ensures |r| == w
    ensures forall i :: 0 <= i < w ==> '0' <= r[i] <= '9'
    decreases w
  {
    if w == 0 then "" else Pad(n / 10, w - 1) + [DigitChar(n % 10)]
  }

  function Power10(w: nat): (p: nat)
    ensures p >= 1
  {
    if w == 0 then 1 else 10 * Power10(w - 1)
  }

  /** Below `10^w`, the padded numbers differ when the numbers do. */
  lemma {:induction false} PadInjective(a: nat, b: nat, w: nat)
    requires a < Power10(w) && b < Power10(w) && Pad(a, w) == Pad(b, w)
    ensures a == b
    decreases w
  {
    if w > 0 {
      var ra, rb := Pad(a, w), Pad(b, w);
      assert ra[w - 1] == rb[w - 1];
      assert ra[..w - 1] == Pad(a / 10, w - 1) && rb[..w - 1] == Pad(b / 10, w - 1);
      PadInjective(a / 10, b / 10, w - 1);
    }
  }

  /** `%Y`, `%m`, `%d` of a valid date. */
  function YearText(c: Civil): string
    requires ValidCivil(c)
  {
    Pad(c.year, 4)
  }

  function MonthText(c: Civil): string
    requires ValidCivil(c)
  {
    Pad(c.month, 2)
  }

  function DayText(c: Civil): string
    requires ValidCivil(c)
  {
    Pad(c.day, 2)
  }

  /** The three formats core/utils.py:148-154 use. */
  function Chinese(n: Day): string {
    CivilIsValid(n);
    var c := CivilFromOrdinal(n);
    YearText(c) + "年" + MonthText(c) + "月" + DayText(c) + "日"
  }

  function Iso(n: Day): (r: string)
    ensures |r| == 10 && r[4] == '-' && r[7] == '-'
  {
    CivilIsValid(n);
    var c := CivilFromOrdinal(n);
    YearText(c) + "-" + MonthText(c) + "-" + DayText(c)
  }

  function Compact(n: Day): string {
    CivilIsValid(n);
    var c := CivilFromOrdinal(n);
    YearText(c) + "." + MonthText(c) + "." + DayText(c)
  }

  /** `%Y%m%d`: the ISO date with its dashes removed. */
  function Digits(n: Day): (r: string)
    ensures |r| == 8 && forall i :: 0 <= i < 8 ==> '0' <= r[i] <= '9'
  {
    CivilIsValid(n);
    var c := CivilFromOrdinal(n);
    YearText(c) + MonthText(c) + DayText(c)
  }

  /** Removing the dashes of an ISO date leaves its eight digits. */
  lemma IsoWithoutDashes(n: Day)
    ensures ReplaceAll(Iso(n), "-", "") == Digits(n)
  {
    CivilIsValid(n);
    var c := CivilFromOrdinal(n);
    var y, m, d := YearText(c), MonthText(c), DayText(c);
    assert Iso(n) == y + "-" + (m + "-" + d);
    DashJoin(y, m + "-" + d);
    DashJoin(m, d);
    KeepsAbsent(d, '-', "");
  }

  /** A dash after digits is dropped and the digits kept. */
  lemma DashJoin(a: string, b: string)
    requires forall i :: 0 <= i < |a| ==> '0' <= a[i] <= '9'
    ensures ReplaceAll(a + "-" + b, "-", "") == a + ReplaceAll(b, "-", "")
  {
    var dash := ['-'];
    calc {
      ReplaceAll(a + "-" + b, "-", "");
      { assert a + "-" + b == a + (dash + b); }
      ReplaceAll(a + (dash + b), dash, "");
      { ReplaceCharAppend(a, dash + b, '-', ""); }
      ReplaceAll(a, dash, "") + ReplaceAll(dash + b, dash, "");
      { KeepsAbsent(a, '-', ""); ReplaceCharAppend(dash, b, '-', ""); }
      a + (ReplaceAll(dash, dash, "") + ReplaceAll(b, dash, ""));
      { ReplaceCharOne('-', '-', ""); }
      a + ReplaceAll(b, "-", "");
    }
  }

  /** Two days with the same eight digits are the same day. */
  lemma DigitsInjective(a: Day, b: Day)
    requires Digits(a) == Digits(b)
    ensures a == b
  {
    CivilIsValid(a);
    CivilIsValid(b);
    var ca, cb := CivilFromOrdinal(a), CivilFromOrdinal(b);
    var da, db := Digits(a), Digits(b);
    assert da[..4] == Pad(ca.year, 4) && db[..4] == Pad(cb.year, 4);
    assert da[4..6] == Pad(ca.month, 2) && db[4..6] == Pad(cb.month, 2);
    assert da[6..] == Pad(ca.day, 2) && db[6..] == Pad(cb.day, 2);
    assert Power10(2) == 100 && Power10(4) == 10000;
    PadInjective(ca.year, cb.year, 4);
    PadInjective(ca.month, cb.month, 2);
    PadInjective(ca.day, cb.day, 2);
    assert OrdinalOf(ca) == a && OrdinalOf(cb) == b;
  }
}
