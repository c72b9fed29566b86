/** Instants in UTC and the RFC 3339 text they are stored as, so that `TEXT` columns can be
    compared. The calendar is the proleptic Gregorian one, years 0 to 9999. */
module Timestamps {
  import opened Common

  const NANOS_PER_SECOND: nat := 1_000_000_000
  const SECONDS_PER_DAY: nat := 86_400
  const NANOS_PER_DAY: nat := 86_400_000_000_000

  // ---- the calendar -----------------------------------------------------------------

  predicate IsLeap(year: nat) {
    year % 4 == 0 && (year % 100 != 0 || year % 400 == 0)
  }

  /** Days from the start of year 0 to the start of `year`. */
  function DaysBeforeYear(year: nat): nat {
    365 * year + (year + 3) / 4 - (year + 99) / 100 + (year + 399) / 400
  }

  function YearLength(year: nat): nat {
    if IsLeap(year) then 366 else 365
  }

  lemma NextYear(year: nat)
    ensures DaysBeforeYear(year + 1) == DaysBeforeYear(year) + YearLength(year)
  {
    Quotients(year, 4);
    Quotients(year, 100);
    Quotients(year, 400);
    CenturiesNest(year);
  }

  lemma CenturiesNest(year: nat)
    ensures year % 100 == 0 ==> year % 4 == 0
    ensures year % 400 == 0 ==> year % 100 == 0
  {
    if year % 100 == 0 {
      assert year == 4 * (25 * (year / 100));
    }
    if year % 400 == 0 {
      assert year == 100 * (4 * (year / 400));
    }
  }

  lemma Quotients(year: nat, period: nat)
    requires period == 4 || period == 100 || period == 400
    ensures (year + period) / period == (year + period - 1) / period + (if year % period == 0 then 1 else 0)
  {
    var q, r := year / period, year % period;
    if period == 4 {
      assert year == 4 * q + r;
    } else if period == 100 {
      assert year == 100 * q + r;
    } else {
      assert year == 400 * q + r;
    }
  }

  lemma {:induction false} YearsAscend(y: nat, z: nat)
    requires y < z
    ensures DaysBeforeYear(y) + YearLength(y) <= DaysBeforeYear(z)
    decreases z
  {
    NextYear(z - 1);
    if y < z - 1 {
      YearsAscend(y, z - 1);
    }
  }

  const DAYS_BEFORE_MONTH: seq<nat> := [0, 0, 31, 59, 90, 120, 151, 181, 212, 243, 273, 304, 334, 365]

  /** Days of the year before the first of `month`; month 13 closes the year. */
  function DaysBeforeMonth(leap: bool, month: nat): nat
    requires 1 <= month <= 13
  {
    DAYS_BEFORE_MONTH[month] + if leap && month > 2 then 1 else 0
  }

  datatype Date = Date(year: nat, month: nat, day: nat)

  predicate IsDate(d: Date) {
    && 1 <= d.month <= 12
    && 1 <= d.day
    && DaysBeforeMonth(IsLeap(d.year), d.month) + d.day <= DaysBeforeMonth(IsLeap(d.year), d.month + 1)
  }

  function DayNumber(d: Date): nat
    requires IsDate(d)
  {
    DaysBeforeYear(d.year) + DaysBeforeMonth(IsLeap(d.year), d.month) + d.day - 1
  }

  function YearOf(day: nat, from: nat): (year: nat)
    requires DaysBeforeYear(from) <= day
    ensures DaysBeforeYear(year) <= day < DaysBeforeYear(year + 1)
    decreases day - DaysBeforeYear(from)
  {
    NextYear(from);
    if day < DaysBeforeYear(from + 1) then from else YearOf(day, from + 1)
  }

  function MonthOf(leap: bool, dayOfYear: nat, from: nat): (month: nat)
    requires 1 <= from <= 12
    requires DaysBeforeMonth(leap, from) <= dayOfYear < DaysBeforeMonth(leap, 13)
    ensures from <= month <= 12
    ensures DaysBeforeMonth(leap, month) <= dayOfYear < DaysBeforeMonth(leap, month + 1)
    decreases 12 - from
  {
    if dayOfYear < DaysBeforeMonth(leap, from + 1) then from else MonthOf(leap, dayOfYear, from + 1)
  }

  /** The calendar date of a day number. */
  function DateOf(day: nat): (d: Date)
    ensures IsDate(d) && DayNumber(d) == day
  {
    var year := YearOf(day, 0);
    NextYear(year);
    var dayOfYear := day - DaysBeforeYear(year);
    var month := MonthOf(IsLeap(year), dayOfYear, 1);
    Date(year, month, dayOfYear - DaysBeforeMonth(IsLeap(year), month) + 1)
  }

  lemma DayWithinYear(d: Date)
    requires IsDate(d)
    ensures DaysBeforeYear(d.year) <= DayNumber(d) < DaysBeforeYear(d.year) + YearLength(d.year)
  {
    MonthsAscend(IsLeap(d.year), d.month + 1, 13);
  }

  lemma {:induction false} MonthsAscend(leap: bool, m: nat, n: nat)
    requires 1 <= m <= n <= 13
    ensures DaysBeforeMonth(leap, m) <= DaysBeforeMonth(leap, n)
    decreases n - m
  {
    if m < n {
      MonthsAscend(leap, m + 1, n);
    }
  }

  /** The Gregorian calendar: which numbers are a date. */
  lemma MonthLengths(year: nat, month: nat, day: nat)
    ensures IsDate(Date(year, month, day)) <==>
      1 <= day && (|| (month in {1, 3, 5, 7, 8, 10, 12} && day <= 31)
                   || (month in {4, 6, 9, 11} && day <= 30)
                   || (month == 2 && day <= 28)
                   || (month == 2 && day == 29 && year % 4 == 0 && (year % 100 != 0 || year % 400 == 0)))
  {
  }

  /** Days count from 1 January of year 0. */
  lemma FirstDay()
    ensures IsDate(Date(0, 1, 1)) && DayNumber(Date(0, 1, 1)) == 0
  {
  }

  /** The next day is the next of the month, or else the first of the next month, or else the
      first of the next year. */
  lemma NextDay(d: Date)
    requires IsDate(d)
    ensures var next := if IsDate(Date(d.year, d.month, d.day + 1)) then Date(d.year, d.month, d.day + 1)
                        else if d.month < 12 then Date(d.year, d.month + 1, 1)
                        else Date(d.year + 1, 1, 1);
            IsDate(next) && DayNumber(next) == DayNumber(d) + 1
  {
    hide DaysBeforeYear;
    NextYear(d.year);
  }

  // ---- digits and fixed-width fields --------------------------------------------------

  /** Lexicographic order on lists of numbers of one length. */
  predicate NatsLess(a: seq<nat>, b: seq<nat>)
    requires |a| == |b|
  {
    a != [] && (a[0] < b[0] || (a[0] == b[0] && NatsLess(a[1..], b[1..])))
  }

  lemma {:induction false} NatsLessTotal(a: seq<nat>, b: seq<nat>)
    requires |a| == |b| && a != b
    ensures NatsLess(a, b) || NatsLess(b, a)
  {
    if a != [] && a[0] == b[0] {
      assert a == [a[0]] + a[1..] && b == [b[0]] + b[1..];
      NatsLessTotal(a[1..], b[1..]);
    }
  }

  function Pow10(n: nat): nat {
    if n == 0 then 1 else 10 * Pow10(n - 1)
  }

  /** The low `width` decimal digits of a number, most significant first. */
  function Pad(n: nat, width: nat): (s: string)
    ensures |s| == width
  {
    if width == 0 then "" else Pad(n / 10, width - 1) + [Digit(n % 10)]
  }

  lemma DigitsAscend(a: nat, b: nat)
    requires a < b < 10
    ensures Digit(a) < Digit(b) < 'Z'
  {
  }

  /** Zero-padded numbers compare as text the way they compare as numbers. */
  lemma {:induction false} PadOrder(m: nat, n: nat, width: nat)
    requires m < n < Pow10(width)
    ensures Less(Pad(m, width), Pad(n, width))
  {
    var m', n' := m / 10, n / 10;
    LessOfConcat(Pad(m', width - 1), Pad(n', width - 1), [Digit(m % 10)], [Digit(n % 10)]);
    if m' < n' {
      PadOrder(m', n', width - 1);
    } else {
      DigitsAscend(m % 10, n % 10);
    }
  }

  /** The printed width of a number and the text that follows it. */
  datatype Column = Column(width: nat, suffix: string)

  function Render(values: seq<nat>, layout: seq<Column>): string
    requires |values| == |layout|
  {
    if values == [] then ""
    else Pad(values[0], layout[0].width) + (layout[0].suffix + Render(values[1..], layout[1..]))
  }

  ghost predicate Fits(values: seq<nat>, layout: seq<Column>)
    requires |values| == |layout|
  {
    forall i :: 0 <= i < |values| ==> values[i] < Pow10(layout[i].width)
  }

  /** Numbers in lexicographic order print in text order. */
  lemma {:induction false} RenderOrder(a: seq<nat>, b: seq<nat>, layout: seq<Column>)
    requires |a| == |b| == |layout| && Fits(a, layout) && Fits(b, layout) && NatsLess(a, b)
    ensures Less(Render(a, layout), Render(b, layout))
  {
    var w, suffix := layout[0].width, layout[0].suffix;
    var restA, restB := Render(a[1..], layout[1..]), Render(b[1..], layout[1..]);
    LessOfConcat(Pad(a[0], w), Pad(b[0], w), suffix + restA, suffix + restB);
    if a[0] < b[0] {
      PadOrder(a[0], b[0], w);
    } else {
      RenderOrder(a[1..], b[1..], layout[1..]);
      LessOfConcat(suffix, suffix, restA, restB);
    }
  }

  lemma {:induction false} RenderLength(a: seq<nat>, b: seq<nat>, layout: seq<Column>)
    requires |a| == |b| == |layout|
    ensures |Render(a, layout)| == |Render(b, layout)|
  {
    if a != [] {
      RenderLength(a[1..], b[1..], layout[1..]);
    }
  }

  // ---- instants -----------------------------------------------------------------------

  /** An instant, in nanoseconds from the start of year 0 in UTC. */
  datatype Timestamp = Timestamp(ns: int)

  const END_OF_TIME: int := DaysBeforeYear(10000) * NANOS_PER_DAY

  /** Whether the instant has an RFC 3339 text: a four-digit year. */
  predicate Printable(t: Timestamp) {
    0 <= t.ns < END_OF_TIME
  }

  function WholeSeconds(t: Timestamp): int {
    t.ns / NANOS_PER_SECOND
  }

  function SubSecond(t: Timestamp): (n: nat)
    ensures n < NANOS_PER_SECOND
  {
    t.ns % NANOS_PER_SECOND
  }

  const LAYOUT: seq<Column> :=
    [Column(4, "-"), Column(2, "-"), Column(2, "T"), Column(2, ":"), Column(2, ":"), Column(2, "")]

  function ClockValues(secondOfDay: nat): (v: seq<nat>)
    ensures |v| == 3
  {
    [secondOfDay / 3600, secondOfDay / 60 % 60, secondOfDay % 60]
  }

  function DateValues(d: Date): (v: seq<nat>)
    ensures |v| == 3
  {
    [d.year, d.month, d.day]
  }

  /** Year, month, day, hour, minute and second of a count of seconds. */
  function StampValues(seconds: nat): (v: seq<nat>)
    ensures |v| == |LAYOUT|
  {
    DateValues(DateOf(seconds / SECONDS_PER_DAY)) + ClockValues(seconds % SECONDS_PER_DAY)
  }

  function Stamp(seconds: nat): string {
    Render(StampValues(seconds), LAYOUT)
  }

  /** Drops the zeros at the end. */
  function TrimZeros(digits: string): string {
    if digits == "" then ""
    else
      var rest := TrimZeros(digits[1..]);
      if rest == "" && digits[0] == '0' then "" else [digits[0]] + rest
  }

  /** The fraction as printed: nothing for a whole second, else a point and the digits that
      matter. */
  function FractionText(nanos: nat): string {
    if nanos == 0 then "" else "." + TrimZeros(Pad(nanos, 9))
  }

  /** The RFC 3339 text (section 5.6 of RFC 3339), with a fraction only when there is one. */
  function ToRfc3339(t: Timestamp): string
    requires Printable(t)
  {
    Stamp(WholeSeconds(t)) + (FractionText(SubSecond(t)) + "Z")
  }

  lemma YearBelow(day: nat, bound: nat)
    requires day < DaysBeforeYear(bound)
    ensures DateOf(day).year < bound
  {
    var d := DateOf(day);
    DayWithinYear(d);
    if d.year > bound {
      YearsAscend(bound, d.year);
    }
  }

  lemma ClockInRange(secondOfDay: nat)
    requires secondOfDay < SECONDS_PER_DAY
    ensures secondOfDay / 3600 < 24 && secondOfDay / 60 % 60 < 60 && secondOfDay % 60 < 60
    ensures secondOfDay == secondOfDay / 3600 * 3600 + secondOfDay / 60 % 60 * 60 + secondOfDay % 60
  {
  }

  lemma DateInRange(d: Date)
    requires IsDate(d)
    ensures 1 <= d.month <= 12 && 1 <= d.day <= 31
  {
  }

  lemma SmallPowers()
    ensures Pow10(2) == 100 && Pow10(4) == 10000 && Pow10(9) == NANOS_PER_SECOND
  {
    assert Pow10(0) == 1 && Pow10(1) == 10 && Pow10(2) == 100 && Pow10(3) == 1000 && Pow10(4) == 10000;
    assert Pow10(5) == 100000 && Pow10(6) == 1000000 && Pow10(7) == 10000000 && Pow10(8) == 100000000;
  }

  predicate FourDigitYear(seconds: int) {
    0 <= seconds / SECONDS_PER_DAY < DaysBeforeYear(10000)
  }

  lemma PrintableSeconds(t: Timestamp)
    requires Printable(t)
    ensures FourDigitYear(WholeSeconds(t))
  {
  }

  lemma StampFits(seconds: nat)
    requires FourDigitYear(seconds)
    ensures Fits(StampValues(seconds), LAYOUT)
  {
    var d := DateOf(seconds / SECONDS_PER_DAY);
    YearBelow(seconds / SECONDS_PER_DAY, 10000);
    DateInRange(d);
    ClockInRange(seconds % SECONDS_PER_DAY);
    SmallPowers();
  }

  lemma {:induction false} NatsLessSplit(a: seq<nat>, b: seq<nat>, x: seq<nat>, y: seq<nat>)
    requires |a| == |b| && |x| == |y|
    ensures NatsLess(a + x, b + y) <==> (NatsLess(a, b) || (a == b && NatsLess(x, y)))
  {
    if a == [] {
      assert a + x == x && b + y == y;
    } else {
      NatsLessSplit(a[1..], b[1..], x, y);
      assert (a + x)[1..] == a[1..] + x && (b + y)[1..] == b[1..] + y;
      assert a == [a[0]] + a[1..] && b == [b[0]] + b[1..];
    }
  }

  lemma NatsLessOfThree(a: seq<nat>, b: seq<nat>)
    requires |a| == |b| == 3
    ensures NatsLess(a, b) <==> a[0] < b[0] || (a[0] == b[0] && (a[1] < b[1] || (a[1] == b[1] && a[2] < b[2])))
  {
    var a', b' := a[1..], b[1..];
    assert a'[1..] == [a[2]] && b'[1..] == [b[2]];
    assert !NatsLess([a[2]][1..], [b[2]][1..]);
    assert NatsLess([a[2]], [b[2]]) <==> a[2] < b[2];
    assert NatsLess(a', b') <==> a[1] < b[1] || (a[1] == b[1] && a[2] < b[2]);
  }

  lemma ClockOrder(s: nat, t: nat)
    requires s < SECONDS_PER_DAY && t < SECONDS_PER_DAY
    ensures NatsLess(ClockValues(s), ClockValues(t)) ==> s < t
    ensures ClockValues(s) == ClockValues(t) ==> s == t
  {
    NatsLessOfThree(ClockValues(s), ClockValues(t));
    ClockInRange(s);
    ClockInRange(t);
    assert ClockValues(s) == ClockValues(t) ==>
        ClockValues(s)[0] == ClockValues(t)[0] && ClockValues(s)[1] == ClockValues(t)[1]
        && ClockValues(s)[2] == ClockValues(t)[2];
  }

  /** Dates in calendar order have day numbers in that order. */
  lemma CalendarOrder(a: Date, b: Date)
    requires IsDate(a) && IsDate(b)
    ensures NatsLess(DateValues(a), DateValues(b)) ==> DayNumber(a) < DayNumber(b)
    ensures DateValues(a) == DateValues(b) ==> a == b
  {
    NatsLessOfThree(DateValues(a), DateValues(b));
    if a.year < b.year {
      DayWithinYear(a);
      YearsAscend(a.year, b.year);
    } else if a.year == b.year && a.month < b.month {
      MonthsAscend(IsLeap(a.year), a.month + 1, b.month);
    }
    assert DateValues(a) == DateValues(b) ==>
        DateValues(a)[0] == DateValues(b)[0] && DateValues(a)[1] == DateValues(b)[1]
        && DateValues(a)[2] == DateValues(b)[2];
  }

  /** The six numbers of an instant are in calendar order exactly when the instants are. */
  lemma StampValuesOrder(s: nat, t: nat)
    ensures NatsLess(StampValues(s), StampValues(t)) <==> s < t
  {
    StampValuesImply(s, t);
    StampValuesImply(t, s);
    if StampValues(s) != StampValues(t) {
      NatsLessTotal(StampValues(s), StampValues(t));
    } else {
      NatsLessIrreflexive(StampValues(s));
    }
  }

  lemma {:induction false} NatsLessIrreflexive(a: seq<nat>)
    ensures !NatsLess(a, a)
  {
    if a != [] {
      NatsLessIrreflexive(a[1..]);
    }
  }

  lemma StampValuesImply(s: nat, t: nat)
    ensures NatsLess(StampValues(s), StampValues(t)) ==> s < t
    ensures StampValues(s) == StampValues(t) ==> s == t
  {
    var c, d := DateOf(s / SECONDS_PER_DAY), DateOf(t / SECONDS_PER_DAY);
    var u, v := s % SECONDS_PER_DAY, t % SECONDS_PER_DAY;
    NatsLessSplit(DateValues(c), DateValues(d), ClockValues(u), ClockValues(v));
    CalendarOrder(c, d);
    ClockOrder(u, v);
    if StampValues(s) == StampValues(t) {
      assert DateValues(c) == StampValues(s)[..3] == StampValues(t)[..3] == DateValues(d);
      assert ClockValues(u) == StampValues(s)[3..] == StampValues(t)[3..] == ClockValues(v);
    }
  }

  lemma StampLength(s: nat, t: nat)
    ensures |Stamp(s)| == |Stamp(t)|
  {
    RenderLength(StampValues(s), StampValues(t), LAYOUT);
  }

  /** Seconds print in their order. */
  lemma StampOrder(s: nat, t: nat)
    requires FourDigitYear(s) && FourDigitYear(t) && s < t
    ensures Less(Stamp(s), Stamp(t))
  {
    StampFits(s);
    StampFits(t);
    StampValuesOrder(s, t);
    RenderOrder(StampValues(s), StampValues(t), LAYOUT);
  }

  // ---- fractions ------------------------------------------------------------------------

  ghost predicate ProperPrefix(a: string, b: string) {
    a < b
  }

  predicate AllDigits(s: string) {
    forall i :: 0 <= i < |s| ==> '0' <= s[i] <= '9'
  }

  lemma {:induction false} PadIsDigits(n: nat, width: nat)
    ensures AllDigits(Pad(n, width))
  {
    if width > 0 {
      PadIsDigits(n / 10, width - 1);
    }
  }

  /** A digit string above another one is not all zeros. */
  lemma {:induction false} GreaterIsNotZero(a: string, b: string)
    requires |a| == |b| && AllDigits(a) && AllDigits(b) && Less(a, b)
    ensures TrimZeros(b) != ""
  {
    if a[0] == b[0] {
      GreaterIsNotZero(a[1..], b[1..]);
    }
  }

  lemma PrefixUnderHead(c: char, a: string, b: string)
    ensures ProperPrefix([c] + a, [c] + b) <==> ProperPrefix(a, b)
  {
    assert ([c] + a)[1..] == a && ([c] + b)[1..] == b;
    if ProperPrefix(a, b) {
      assert ([c] + b)[..|a| + 1] == [c] + a;
    }
    if ProperPrefix([c] + a, [c] + b) {
      assert b[..|a|] == ([c] + b)[..|a| + 1][1..] == a;
    }
  }

  /** Trimmed digits closed by `Z` keep their numeric order exactly unless the smaller ones
      are the beginning of the larger ones. */
  lemma {:induction false} TrimmedOrder(a: string, b: string)
    requires |a| == |b| && AllDigits(a) && AllDigits(b) && Less(a, b)
    ensures Less(TrimZeros(a) + "Z", TrimZeros(b) + "Z") <==> !ProperPrefix(TrimZeros(a), TrimZeros(b))
  {
    GreaterIsNotZero(a, b);
    var p, q := TrimZeros(a), TrimZeros(b);
    var p', q' := TrimZeros(a[1..]), TrimZeros(b[1..]);
    if a[0] == b[0] {
      TrimmedOrder(a[1..], b[1..]);
      GreaterIsNotZero(a[1..], b[1..]);
      assert q == [b[0]] + q';
      if p != "" {
        assert p == [a[0]] + p';
        assert (p + "Z")[1..] == p' + "Z" && (q + "Z")[1..] == q' + "Z";
        PrefixUnderHead(a[0], p', q');
      }
    } else {
      assert q[0] == b[0];
    }
  }

  lemma FractionOrder(m: nat, n: nat)
    requires m < n < NANOS_PER_SECOND
    ensures Less(FractionText(m) + "Z", FractionText(n) + "Z")
       <==> !ProperPrefix(FractionText(m), FractionText(n))
  {
    var p, q := TrimZeros(Pad(m, 9)), TrimZeros(Pad(n, 9));
    var z := ['Z'];
    if m == 0 {
      assert FractionText(m) + z == z && (FractionText(n) + z)[0] == '.';
    } else {
      PadOrder(m, n, 9) by {
        SmallPowers();
      }
      PadIsDigits(m, 9);
      PadIsDigits(n, 9);
      TrimmedOrder(Pad(m, 9), Pad(n, 9));
      LessOfConcat(".", ".", p + z, q + z);
      assert "." + p + z == "." + (p + z) && "." + q + z == "." + (q + z);
      PrefixUnderHead('.', p, q);
    }
  }

  /** For two instants in one order, their texts are in that order exactly unless they share
      the second and the printed fraction of the earlier begins that of the later. */
  lemma TextOrder(s: Timestamp, t: Timestamp)
    requires Printable(s) && Printable(t) && s.ns < t.ns
    ensures Less(ToRfc3339(s), ToRfc3339(t))
       <==> !(WholeSeconds(s) == WholeSeconds(t)
              && ProperPrefix(FractionText(SubSecond(s)), FractionText(SubSecond(t))))
  {
    var i, j := WholeSeconds(s), WholeSeconds(t);
    StampLength(i, j);
    LessOfConcat(Stamp(i), Stamp(j), FractionText(SubSecond(s)) + "Z", FractionText(SubSecond(t)) + "Z");
    if i < j {
      PrintableSeconds(s);
      PrintableSeconds(t);
      StampOrder(i, j);
    } else {
      assert i == j && SubSecond(s) < SubSecond(t);
      LessIrreflexive(Stamp(i));
      FractionOrder(SubSecond(s), SubSecond(t));
    }
  }

  /** The instant with its fraction dropped. */
  function FloorToSeconds(t: Timestamp): Timestamp {
    Timestamp(t.ns / NANOS_PER_SECOND * NANOS_PER_SECOND)
  }

  function TextAtMost(s: Timestamp, t: Timestamp): bool
    requires Printable(s) && Printable(t)
  {
    !Less(ToRfc3339(t), ToRfc3339(s))
  }

  lemma FloorFacts(t: Timestamp)
    requires Printable(t)
    ensures Printable(FloorToSeconds(t)) && SubSecond(FloorToSeconds(t)) == 0
    ensures FloorToSeconds(t).ns <= t.ns < FloorToSeconds(t).ns + NANOS_PER_SECOND
  {
  }

  /** Whole-second instants compare as text exactly as they compare as instants. */
  lemma WholeSecondTextOrder(s: Timestamp, t: Timestamp)
    requires Printable(s) && Printable(t) && SubSecond(s) == 0 && SubSecond(t) == 0
    ensures Less(ToRfc3339(s), ToRfc3339(t)) <==> s.ns < t.ns
  {
    if s.ns < t.ns {
      TextOrder(s, t);
    } else if t.ns < s.ns {
      TextOrder(t, s);
      LessAsymmetric(ToRfc3339(t), ToRfc3339(s));
    } else {
      LessIrreflexive(ToRfc3339(s));
    }
  }

  lemma FloorsAreMultiples(k: int, ns: int)
    ensures k * NANOS_PER_SECOND <= ns <==> k * NANOS_PER_SECOND <= ns / NANOS_PER_SECOND * NANOS_PER_SECOND
  {
  }

  /** A floored due time is at or before the floored present in the text column exactly when
      it is at or before the present. */
  lemma DueComparisonIsExact(due: Timestamp, now: Timestamp)
    requires Printable(due) && Printable(now)
    ensures TextAtMost(FloorToSeconds(due), FloorToSeconds(now)) <==> FloorToSeconds(due).ns <= now.ns
  {
    var d, n := FloorToSeconds(due), FloorToSeconds(now);
    FloorFacts(due);
    FloorFacts(now);
    WholeSecondTextOrder(n, d);
    FloorsAreMultiples(due.ns / NANOS_PER_SECOND, now.ns);
  }

  lemma LessAsymmetric(a: string, b: string)
    requires Less(a, b)
    ensures !Less(b, a)
  {
    if Less(b, a) {
      LessTransitive(a, b, a);
      LessIrreflexive(a);
    }
  }

  /** A whole second sorts after every fraction of itself: without the floor, a time that is
      due now is not found. */
  lemma UnflooredComparisonFails(due: Timestamp, now: Timestamp)
    requires Printable(due) && Printable(now) && SubSecond(due) == 0
    requires due.ns < now.ns < due.ns + NANOS_PER_SECOND
    ensures !TextAtMost(due, now)
  {
    TextOrder(due, now);
    assert FractionText(SubSecond(due)) == "" && FractionText(SubSecond(now)) != "";
    LessTotal(ToRfc3339(due), ToRfc3339(now));
    StampLength(WholeSeconds(due), WholeSeconds(now));
    assert |ToRfc3339(due)| < |ToRfc3339(now)|;
  }

  // ---- reading the text back ------------------------------------------------------------

  function DigitsValue(digits: string): nat
    requires AllDigits(digits)
  {
    if digits == "" then 0
    else 10 * DigitsValue(digits[..|digits| - 1]) + (digits[|digits| - 1] - '0') as nat
  }

  lemma {:induction false} DigitsValueOfPad(n: nat, width: nat)
    requires n < Pow10(width)
    ensures AllDigits(Pad(n, width)) && DigitsValue(Pad(n, width)) == n
  {
    if width > 0 {
      DigitsValueOfPad(n / 10, width - 1);
      var s := Pad(n, width);
      assert s[..width - 1] == Pad(n / 10, width - 1);
      assert (s[width - 1] - '0') as nat == n % 10;
    }
  }

  lemma {:induction false} PadOfDigitsValue(digits: string)
    requires AllDigits(digits)
    ensures DigitsValue(digits) < Pow10(|digits|)
    ensures Pad(DigitsValue(digits), |digits|) == digits
  {
    if digits != "" {
      var init, last := digits[..|digits| - 1], digits[|digits| - 1];
      PadOfDigitsValue(init);
      var n := DigitsValue(digits);
      assert n / 10 == DigitsValue(init) && n % 10 == (last - '0') as nat;
      assert Digit(n % 10) == last;
      assert digits == init + [last];
    }
  }

  /** Reads one column, its digits and then its suffix; what is left over comes second. */
  function ParseColumn(text: string, column: Column): Option<(nat, string)> {
    var end := column.width + |column.suffix|;
    if |text| < end || !AllDigits(text[..column.width]) || text[column.width..end] != column.suffix
    then None
    else Some((DigitsValue(text[..column.width]), text[end..]))
  }

  lemma ParseOfColumn(n: nat, column: Column, rest: string)
    requires n < Pow10(column.width)
    ensures ParseColumn(Pad(n, column.width) + (column.suffix + rest), column) == Some((n, rest))
  {
    var text := Pad(n, column.width) + (column.suffix + rest);
    assert text[..column.width] == Pad(n, column.width);
    assert text[column.width..column.width + |column.suffix|] == column.suffix;
    assert text[column.width + |column.suffix|..] == rest;
    DigitsValueOfPad(n, column.width);
  }

  lemma ColumnOfParse(text: string, column: Column)
    requires ParseColumn(text, column).Some?
    ensures var (n, rest) := ParseColumn(text, column).value;
            n < Pow10(column.width) && text == Pad(n, column.width) + (column.suffix + rest)
  {
    PadOfDigitsValue(text[..column.width]);
    var end := column.width + |column.suffix|;
    assert text == text[..column.width] + (text[column.width..end] + text[end..]);
  }

  function ParseColumns(text: string, layout: seq<Column>): (r: Option<(seq<nat>, string)>)
    ensures r.Some? ==> |r.value.0| == |layout|
    decreases |layout|
  {
    if layout == [] then Some(([], text))
    else match ParseColumn(text, layout[0])
      case None => None
      case Some(first) =>
        match ParseColumns(first.1, layout[1..])
        case None => None
        case Some(more) => Some(([first.0] + more.0, more.1))
  }

  lemma {:induction false} ParseOfRender(values: seq<nat>, layout: seq<Column>, rest: string)
    requires |values| == |layout| && Fits(values, layout)
    ensures ParseColumns(Render(values, layout) + rest, layout) == Some((values, rest))
    decreases |layout|
  {
    hide ParseColumn;
    if layout == [] {
      assert Render(values, layout) + rest == rest;
    } else {
      var tail := Render(values[1..], layout[1..]) + rest;
      ParseOfRender(values[1..], layout[1..], rest);
      ParseOfColumn(values[0], layout[0], tail);
      assert Render(values, layout) + rest == Pad(values[0], layout[0].width) + (layout[0].suffix + tail);
      assert values == [values[0]] + values[1..];
    }
  }

  lemma {:induction false} RenderOfParse(text: string, layout: seq<Column>)
    requires ParseColumns(text, layout).Some?
    ensures var (values, rest) := ParseColumns(text, layout).value;
            Fits(values, layout) && text == Render(values, layout) + rest
    decreases |layout|
  {
    hide ParseColumn;
    var (values, rest) := ParseColumns(text, layout).value;
    if layout == [] {
      assert text == Render(values, layout) + rest;
    } else {
      var (n, tail) := ParseColumn(text, layout[0]).value;
      ColumnOfParse(text, layout[0]);
      RenderOfParse(tail, layout[1..]);
      assert values[0] == n && values[1..] == ParseColumns(tail, layout[1..]).value.0;
      var more := Render(values[1..], layout[1..]);
      assert text == Pad(n, layout[0].width) + (layout[0].suffix + (more + rest));
      assert text == Pad(n, layout[0].width) + (layout[0].suffix + more) + rest;
    }
  }

  /** The seconds six calendar numbers stand for, if they are a date and a time of day. */
  function SecondsOf(values: seq<nat>): Option<nat>
    requires |values| == 6
  {
    var d := Date(values[0], values[1], values[2]);
    if IsDate(d) && values[3] < 24 && values[4] < 60 && values[5] < 60
    then Some(DayNumber(d) * SECONDS_PER_DAY + values[3] * 3600 + values[4] * 60 + values[5])
    else None
  }

  /** Nanoseconds of a fraction's digits; digits after the ninth are dropped. */
  function FractionValue(digits: string): nat
    requires AllDigits(digits)
  {
    var nine := (digits + "000000000")[..9];
    DigitsValue(nine)
  }

  function ParseFraction(rest: string): Option<nat> {
    if rest == "Z" then Some(0)
    else if |rest| >= 3 && rest[0] == '.' && rest[|rest| - 1] == 'Z' && AllDigits(rest[1..|rest| - 1])
    then Some(FractionValue(rest[1..|rest| - 1]))
    else None
  }

  /** Reads a UTC timestamp text; anything else is refused. */
  function ParseRfc3339(text: string): Option<Timestamp> {
    match ParseColumns(text, LAYOUT)
    case None => None
    case Some(parsed) =>
      match (SecondsOf(parsed.0), ParseFraction(parsed.1))
      case (Some(seconds), Some(nanos)) => Some(Timestamp(seconds * NANOS_PER_SECOND + nanos))
      case _ => None
  }

  lemma DateIsUnique(d: Date)
    requires IsDate(d)
    ensures DateOf(DayNumber(d)) == d
  {
    var e := DateOf(DayNumber(d));
    CalendarOrder(d, e);
    CalendarOrder(e, d);
    if DateValues(d) != DateValues(e) {
      NatsLessTotal(DateValues(d), DateValues(e));
    }
  }

  lemma SecondsOfStamp(seconds: nat)
    ensures SecondsOf(StampValues(seconds)) == Some(seconds)
  {
    ClockInRange(seconds % SECONDS_PER_DAY);
  }

  lemma ClockRecomposed(h: nat, m: nat, s: nat)
    requires h < 24 && m < 60 && s < 60
    ensures h * 3600 + m * 60 + s < SECONDS_PER_DAY
    ensures ClockValues(h * 3600 + m * 60 + s) == [h, m, s]
  {
    var clock := h * 3600 + m * 60 + s;
    assert clock == 60 * (h * 60 + m) + s;
    assert clock / 60 == h * 60 + m && clock % 60 == s;
    assert clock == 3600 * h + (m * 60 + s) && m * 60 + s < 3600;
    assert clock / 3600 == h;
  }

  lemma StampSplit(day: nat, secondOfDay: nat)
    requires secondOfDay < SECONDS_PER_DAY
    ensures StampValues(day * SECONDS_PER_DAY + secondOfDay) == DateValues(DateOf(day)) + ClockValues(secondOfDay)
  {
    var seconds := day * SECONDS_PER_DAY + secondOfDay;
    assert seconds / SECONDS_PER_DAY == day && seconds % SECONDS_PER_DAY == secondOfDay;
  }

  lemma StampOfSeconds(values: seq<nat>)
    requires |values| == 6 && SecondsOf(values).Some?
    ensures StampValues(SecondsOf(values).value) == values
  {
    hide StampValues;
    hide ClockValues;
    hide DaysBeforeYear;
    hide YearOf;
    hide DaysBeforeMonth;
    var d := Date(values[0], values[1], values[2]);
    ClockRecomposed(values[3], values[4], values[5]);
    StampSplit(DayNumber(d), values[3] * 3600 + values[4] * 60 + values[5]);
    DateIsUnique(d);
    assert values == DateValues(d) + [values[3], values[4], values[5]];
  }

  function Zeros(n: nat): (s: string)
    ensures |s| == n
  {
    seq(n, i => '0')
  }

  /** Trimming drops only zeros, and all that matter are kept. */
  lemma {:induction false} TrimZerosKeeps(digits: string)
    ensures |TrimZeros(digits)| <= |digits|
    ensures digits == TrimZeros(digits) + Zeros(|digits| - |TrimZeros(digits)|)
  {
    if digits != "" {
      TrimZerosKeeps(digits[1..]);
      assert digits == [digits[0]] + digits[1..];
    }
  }

  lemma {:induction false} AllZeros(n: nat)
    ensures AllDigits(Zeros(n)) && DigitsValue(Zeros(n)) == 0
  {
    if n > 0 {
      AllZeros(n - 1);
      assert Zeros(n)[..n - 1] == Zeros(n - 1);
    }
  }

  lemma KeptDigits(nanos: nat)
    requires 0 < nanos < NANOS_PER_SECOND
    ensures var kept := TrimZeros(Pad(nanos, 9));
            kept != "" && AllDigits(kept) && FractionValue(kept) == nanos
  {
    var padded := Pad(nanos, 9);
    var kept := TrimZeros(padded);
    TrimZerosKeeps(padded);
    SmallPowers();
    DigitsValueOfPad(nanos, 9);
    assert kept == padded[..|kept|];
    assert "000000000" == Zeros(9);
    assert (kept + Zeros(9))[..9] == padded;
    if kept == "" {
      AllZeros(9);
    }
  }

  lemma ParseOfFraction(nanos: nat)
    requires nanos < NANOS_PER_SECOND
    ensures ParseFraction(FractionText(nanos) + "Z") == Some(nanos)
  {
    if nanos != 0 {
      KeptDigits(nanos);
      var kept := TrimZeros(Pad(nanos, 9));
      var text := "." + kept + "Z";
      assert text[1..|text| - 1] == kept;
    }
  }

  lemma ParseOfStamp(seconds: nat, nanos: nat)
    requires FourDigitYear(seconds) && nanos < NANOS_PER_SECOND
    ensures ParseRfc3339(Stamp(seconds) + (FractionText(nanos) + "Z"))
         == Some(Timestamp(seconds * NANOS_PER_SECOND + nanos))
  {
    hide ParseColumns;
    hide StampValues;
    hide Render;
    hide FractionText;
    hide SecondsOf;
    StampFits(seconds);
    ParseOfRender(StampValues(seconds), LAYOUT, FractionText(nanos) + "Z");
    SecondsOfStamp(seconds);
    ParseOfFraction(nanos);
  }

  /** Printing then reading gives the instant back. */
  lemma ParseOfPrint(t: Timestamp)
    requires Printable(t)
    ensures ParseRfc3339(ToRfc3339(t)) == Some(t)
  {
    hide Stamp;
    hide ParseRfc3339;
    hide FractionText;
    hide DaysBeforeYear;
    PrintableSeconds(t);
    ParseOfStamp(WholeSeconds(t), SubSecond(t));
  }

  lemma PrintOfWholeSecond(seconds: nat)
    requires Printable(Timestamp(seconds * NANOS_PER_SECOND))
    ensures ToRfc3339(Timestamp(seconds * NANOS_PER_SECOND)) == Stamp(seconds) + "Z"
  {
    hide Stamp;
    hide DaysBeforeYear;
    var t := Timestamp(seconds * NANOS_PER_SECOND);
    assert WholeSeconds(t) == seconds && SubSecond(t) == 0;
    assert FractionText(0) + "Z" == "Z";
  }

  /** Reading then printing gives a whole-second text back. */
  lemma PrintOfParse(text: string)
    requires ParseRfc3339(text).Some? && |text| == 20
    ensures Printable(ParseRfc3339(text).value) && ToRfc3339(ParseRfc3339(text).value) == text
  {
    hide ParseColumns;
    hide Render;
    hide StampValues;
    hide SecondsOf;
    hide FractionValue;
    hide DaysBeforeYear;
    hide ToRfc3339;
    RenderOfParse(text, LAYOUT);
    var (values, rest) := ParseColumns(text, LAYOUT).value;
    var seconds := SecondsOf(values).value;
    StampIs19(values);
    assert |rest| == 1 && rest == "Z";
    StampOfSeconds(values);
    YearFits(values);
    PrintOfWholeSecond(seconds);
  }

  lemma StampIs19(values: seq<nat>)
    requires |values| == 6
    ensures |Render(values, LAYOUT)| == 19
  {
    assert LAYOUT[1..][1..] == LAYOUT[2..] && LAYOUT[2..][1..] == LAYOUT[3..];
    assert LAYOUT[3..][1..] == LAYOUT[4..] && LAYOUT[4..][1..] == LAYOUT[5..] && LAYOUT[5..][1..] == [];
    assert values[1..][1..] == values[2..] && values[2..][1..] == values[3..];
    assert values[3..][1..] == values[4..] && values[4..][1..] == values[5..] && values[5..][1..] == [];
    assert |Render(values[5..], LAYOUT[5..])| == 2;
    assert |Render(values[4..], LAYOUT[4..])| == 5;
    assert |Render(values[3..], LAYOUT[3..])| == 8;
    assert |Render(values[2..], LAYOUT[2..])| == 11;
    assert |Render(values[1..], LAYOUT[1..])| == 14;
  }

  /** A four-digit year keeps the instant printable. */
  lemma YearFits(values: seq<nat>)
    requires |values| == 6 && Fits(values, LAYOUT) && SecondsOf(values).Some?
    ensures Printable(Timestamp(SecondsOf(values).value * NANOS_PER_SECOND))
  {
    var d := Date(values[0], values[1], values[2]);
    SmallPowers();
    assert values[0] < Pow10(LAYOUT[0].width);
    DayWithinYear(d);
    YearsAscend(d.year, 10000);
    assert DayNumber(d) + 1 <= DaysBeforeYear(10000);
  }

  // ---- the text itself ----------------------------------------------------------------------

  lemma PadOne(n: nat)
    requires n < 10
    ensures Pad(n, 1) == [Digit(n)]
  {
    assert Pad(n / 10, 0) == "";
    assert "" + [Digit(n)] == [Digit(n)];
  }

  lemma PadTwo(n: nat)
    requires n < 100
    ensures Pad(n, 2) == [Digit(n / 10), Digit(n % 10)]
  {
    PadOne(n / 10);
    hide Digit;
    assert Pad(n, 2) == Pad(n / 10, 1) + [Digit(n % 10)];
    hide Pad;
  }

  lemma PadFour(n: nat)
    requires n < 10000
    ensures Pad(n, 4) == [Digit(n / 1000), Digit(n / 100 % 10), Digit(n / 10 % 10), Digit(n % 10)]
  {
    var hundreds, tens := n / 10 / 10, n / 10;
    assert hundreds == n / 100 && hundreds / 10 == n / 1000;
    PadTwo(hundreds);
    hide Digit;
    assert Pad(n, 4) == Pad(tens, 3) + [Digit(n % 10)];
    assert Pad(tens, 3) == Pad(hundreds, 2) + [Digit(tens % 10)];
    hide Pad;
  }

  lemma RenderFirst(v: seq<nat>, k: nat)
    requires |v| == 6 && k < 6
    ensures Render(v[k..], LAYOUT[k..])
         == Pad(v[k], LAYOUT[k].width) + (LAYOUT[k].suffix + Render(v[k + 1..], LAYOUT[k + 1..]))
  {
    hide Pad;
    assert v[k..][1..] == v[k + 1..] && LAYOUT[k..][1..] == LAYOUT[k + 1..];
  }

  lemma RenderClock(v: seq<nat>)
    requires |v| == 6
    ensures Render(v[3..], LAYOUT[3..]) == Pad(v[3], 2) + ":" + Pad(v[4], 2) + ":" + Pad(v[5], 2)
  {
    RenderFirst(v, 3);
    RenderFirst(v, 4);
    RenderFirst(v, 5);
    assert Render(v[6..], LAYOUT[6..]) == "";
    hide Pad;
    hide Render;
  }

  lemma RenderSix(v: seq<nat>)
    requires |v| == 6
    ensures Render(v, LAYOUT)
         == Pad(v[0], 4) + "-" + Pad(v[1], 2) + "-" + Pad(v[2], 2) + "T"
            + Pad(v[3], 2) + ":" + Pad(v[4], 2) + ":" + Pad(v[5], 2)
  {
    hide Pad;
    hide Render;
    RenderFirst(v, 0);
    RenderFirst(v, 1);
    RenderFirst(v, 2);
    RenderClock(v);
    assert v[0..] == v && LAYOUT[0..] == LAYOUT;
    Regroup(Pad(v[0], 4), Pad(v[1], 2), Pad(v[2], 2), Pad(v[3], 2), Pad(v[4], 2), Pad(v[5], 2));
  }

  lemma Regroup(a: string, b: string, c: string, d: string, e: string, f: string)
    ensures a + ("-" + (b + ("-" + (c + ("T" + (d + ":" + e + ":" + f))))))
         == a + "-" + b + "-" + c + "T" + d + ":" + e + ":" + f
  {
  }

  /** The instant of a date and a time of day. */
  function InstantOf(d: Date, hour: nat, minute: nat, second: nat): Timestamp
    requires IsDate(d)
  {
    Timestamp((DayNumber(d) * SECONDS_PER_DAY + hour * 3600 + minute * 60 + second) * NANOS_PER_SECOND)
  }

  /** The text of a date and a time of day: its numbers with leading zeros, in the places of
      section 5.6 of RFC 3339. */
  lemma TextOfDateAndTime(d: Date, hour: nat, minute: nat, second: nat)
    requires IsDate(d) && d.year < 10000 && hour < 24 && minute < 60 && second < 60
    ensures Printable(InstantOf(d, hour, minute, second))
    ensures ToRfc3339(InstantOf(d, hour, minute, second))
         == Pad(d.year, 4) + "-" + Pad(d.month, 2) + "-" + Pad(d.day, 2) + "T"
            + Pad(hour, 2) + ":" + Pad(minute, 2) + ":" + Pad(second, 2) + "Z"
  {
    var values := [d.year, d.month, d.day, hour, minute, second];
    SixNumbers(d, hour, minute, second);
    hide DaysBeforeYear;
    hide IsDate;
    hide DayNumber;
    hide Render;
    hide Pad;
    hide StampValues;
    hide ToRfc3339;
    hide Fits;
    hide SecondsOf;
    YearFits(values);
    StampOfSeconds(values);
    PrintOfWholeSecond(SecondsOf(values).value);
    RenderSix(values);
  }

  lemma SixNumbers(d: Date, hour: nat, minute: nat, second: nat)
    requires IsDate(d) && d.year < 10000 && hour < 24 && minute < 60 && second < 60
    ensures var values := [d.year, d.month, d.day, hour, minute, second];
            && Fits(values, LAYOUT) && SecondsOf(values).Some?
            && InstantOf(d, hour, minute, second) == Timestamp(SecondsOf(values).value * NANOS_PER_SECOND)
  {
    var values := [d.year, d.month, d.day, hour, minute, second];
    assert Date(values[0], values[1], values[2]) == d;
    DateInRange(d);
    hide IsDate;
    hide DayNumber;
    SmallPowers();
  }

  /** One text, with every digit in it. */
  lemma KnownText()
    ensures ToRfc3339(Timestamp(64_232_886_539_000_000_000)) == "2035-06-17T04:28:59Z"
  {
    hide *;
    KnownDay();
    KnownInstant();
    KnownPads();
    TextOfDateAndTime(Date(2035, 6, 17), 4, 28, 59);
    assert "2035" + "-" + "06" + "-" + "17" + "T" + "04" + ":" + "28" + ":" + "59" + "Z" == "2035-06-17T04:28:59Z";
  }

  lemma KnownInstant()
    requires IsDate(Date(2035, 6, 17))
    ensures InstantOf(Date(2035, 6, 17), 4, 28, 59) == Timestamp(64_232_886_539_000_000_000)
  {
    KnownDay();
    hide IsDate;
    hide DayNumber;
  }

  lemma KnownPads()
    ensures Pad(2035, 4) == "2035" && Pad(6, 2) == "06" && Pad(17, 2) == "17"
    ensures Pad(4, 2) == "04" && Pad(28, 2) == "28" && Pad(59, 2) == "59"
  {
    PadFour(2035);
    PadTwo(6);
    PadTwo(17);
    PadTwo(4);
    PadTwo(28);
    PadTwo(59);
    hide Pad;
  }

  lemma KnownDay()
    ensures IsDate(Date(2035, 6, 17)) && DayNumber(Date(2035, 6, 17)) == 743_436
  {
    assert DaysBeforeYear(2035) == 743_269;
  }

  // ---- day arithmetic ---------------------------------------------------------------------

  function AddDays(t: Timestamp, days: int): Timestamp {
    Timestamp(t.ns + days * NANOS_PER_DAY)
  }

  /** Whole days from `earlier` to `t`, rounded toward zero. */
  function WholeDaysSince(t: Timestamp, earlier: Timestamp): int {
    var elapsed := t.ns - earlier.ns;
    if elapsed >= 0 then elapsed / NANOS_PER_DAY else -((-elapsed) / NANOS_PER_DAY)
  }

  lemma AddDaysThenCount(t: Timestamp, days: int)
    ensures WholeDaysSince(AddDays(t, days), t) == days
    ensures WholeDaysSince(t, AddDays(t, days)) == -days
  {
    assert forall n: nat :: n * NANOS_PER_DAY / NANOS_PER_DAY == n;
  }

  /** The staleness guard on whole days is a plain deadline on instants. */
  lemma StalenessIsADeadline(now: Timestamp, due: Timestamp, horizon: nat)
    ensures WholeDaysSince(now, due) <= horizon <==> now.ns < AddDays(due, horizon + 1).ns
  {
  }
}
