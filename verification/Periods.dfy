/** Years and months as the archive's rail names them, the pair of dates each is asked for with,
    and how the rail counts inside a query: `within` and `previous` of `web/src/lib/links.ts`, and
    `_dates` of `ui/archive.py`. */
module Periods {
  import opened Wrappers
  import opened Calendar
  import opened Numerals
  import opened Query
  import Pieces

  datatype Period = Year(year: nat) | Month(year: nat, month: nat)

  predicate ValidPeriod(p: Period) {
    1 <= p.year <= 9999 && (p.Month? ==> 1 <= p.month <= 12)
  }

  /** How the rail names it: `YYYY` or `YYYY-MM`. */
  function NameOf(p: Period): string
    requires ValidPeriod(p)
  {
    Digits(p.year, 10, 4) + if p.Month? then "-" + Digits(p.month, 10, 2) else ""
  }

  /** The first day of it. */
  function Since(p: Period): Date {
    Date(p.year, if p.Month? then p.month else 1, 1)
  }

  /** The first day past it. */
  function Until(p: Period): Date {
    if p.Year? then Date(p.year + 1, 1, 1)
    else if p.month == 12 then Date(p.year + 1, 1, 1)
    else Date(p.year, p.month + 1, 1)
  }

  predicate Inside(d: Date, since: Date, until: Date) {
    Rank(since) <= Rank(d) < Rank(until)
  }

  /** The half-open range is the period: the days of that year, or of that month of it. */
  lemma RangeIsPeriod(p: Period, d: Date)
    requires ValidPeriod(p) && Valid(d)
    ensures Inside(d, Since(p), Until(p)) <==> d.year == p.year && (p.Month? ==> d.month == p.month)
  {
  }

  /** The twelve months tile their year: they meet end to end from its first day to its last,
      and every day of it is in exactly one. */
  lemma MonthsTileTheYear(year: nat, d: Date)
    requires 1 <= year <= 9999 && Valid(d)
    ensures Since(Month(year, 1)) == Since(Year(year)) && Until(Month(year, 12)) == Until(Year(year))
    ensures forall m: nat :: 1 <= m < 12 ==> Until(Month(year, m)) == Since(Month(year, m + 1))
    ensures forall m: nat :: 1 <= m <= 12 ==>
      (Inside(d, Since(Month(year, m)), Until(Month(year, m))) <==> Inside(d, Since(Year(year)), Until(Year(year))) && d.month == m)
  {
    RangeIsPeriod(Year(year), d);
    forall m: nat | 1 <= m <= 12
      ensures Inside(d, Since(Month(year, m)), Until(Month(year, m))) <==> d.year == year && d.month == m
    {
      RangeIsPeriod(Month(year, m), d);
    }
  }

  // -------------------------------------------------------------------------------------
  // The words of the grammar for it.

  /** `[year, ordinal]` of a name, zero for what JavaScript finds falsy. */
  function Ordinals(name: string): (nat, nat) {
    var parts := Pieces.Split(name, '-');
    var year := Number(parts[0], 10);
    var ordinal := if |parts| > 1 then Number(parts[1], 10) else None;
    (if year.Some? then year.value else 0, if ordinal.Some? then ordinal.value else 0)
  }

  function Padded(n: nat): string {
    if n < 10 then "0" + Decimal(n) else Decimal(n)
  }

  /** The two names `within` bounds a period by. */
  function Bounds(name: string): Option<(string, string)> {
    var (year, ordinal) := Ordinals(name);
    if year == 0 then None
    else if ordinal == 0 then Some((Decimal(year), Decimal(year + 1)))
    else Some((name, MonthText(year + ordinal / 12, ordinal % 12 + 1)))
  }

  function Within(name: string): string {
    var bounds := Bounds(name);
    if bounds.None? then name else "after:" + bounds.value.0 + " before:" + bounds.value.1
  }

  /** `previous`: a year or a month less one. Of a name that spells no year it makes nothing. */
  function Previous(name: string): Option<string> {
    StepBack(Ordinals(name))
  }

  function StepBack(named: (nat, nat)): Option<string> {
    var (year, ordinal) := named;
    if year == 0 then None
    else if ordinal == 0 then Some(Decimal(year - 1))
    else if ordinal == 1 then Some(Decimal(year - 1) + "-12")
    else Some(MonthText(year, ordinal - 1))
  }

  // -------------------------------------------------------------------------------------
  // Names read back, by either language.

  predicate Digital(s: string) {
    forall c :: c in s ==> '0' <= c <= '9'
  }

  lemma SplitOne(a: string)
    requires Digital(a)
    ensures Pieces.Split(a, '-') == [a]
  {
    Pieces.SplitNone(a, '-');
  }

  lemma SplitTwo(a: string, b: string)
    requires Digital(a) && Digital(b)
    ensures Pieces.Split(a + "-" + b, '-') == [a, b]
  {
    Pieces.SplitOff(a, b, '-');
    Pieces.SplitNone(b, '-');
  }

  function Made(key: string, text: string, date: Date): Result<Date, BadQuery> {
    if Valid(date) then Success(date) else Failure(BadDate(key, text))
  }

  lemma OneNumber(key: string, a: string, y: nat)
    requires Digital(a) && 1 <= |a| <= MAX_DIGITS && Number(a, 10) == Some(y)
    ensures Ordinals(a) == (y, 0)
    ensures DateOf(key, a) == if y > MAX_INT then Failure(Overflow(key, a)) else Made(key, a, Date(y, 1, 1))
  {
    SplitOne(a);
    assert [a][1..] == [];
    assert Numbers([a]) == Some([y] + []) && [y] + [] == [y];
  }

  lemma TwoNumbers(key: string, a: string, b: string, y: nat, m: nat)
    requires Digital(a) && 1 <= |a| <= MAX_DIGITS && Number(a, 10) == Some(y) && y <= MAX_INT
    requires Digital(b) && 1 <= |b| <= MAX_DIGITS && Number(b, 10) == Some(m) && m <= MAX_INT
    ensures Ordinals(a + "-" + b) == (y, m) && DateOf(key, a + "-" + b) == Made(key, a + "-" + b, Date(y, m, 1))
  {
    SplitTwo(a, b);
    var parts := [a, b];
    assert parts[1..] == [b] && [b][1..] == [];
    assert Numbers([b]) == Some([m] + []) && [m] + [] == [m];
    assert Numbers(parts) == Some([y] + [m]) && [y] + [m] == [y, m];
  }

  lemma {:induction false} TwoDigits(n: nat)
    requires n < 100
    ensures Digits(n, 10, 2) == [Digit(n / 10)] + [Digit(n % 10)]
  {
    assert Digits(n / 10, 10, 1) == Digits(n / 10 / 10, 10, 0) + [Digit(n / 10 % 10)];
    assert Digits(n / 10 / 10, 10, 0) == "";
  }

  lemma PaddedIs(n: nat)
    requires n < 100
    ensures Padded(n) == [Digit(n / 10)] + [Digit(n % 10)]
  {
    if n >= 10 {
      assert Decimal(n / 10) == [Digit(n / 10)];
    }
  }

  lemma PaddedReads(n: nat)
    requires n < 100
    ensures Number(Padded(n), 10) == Some(n) && Padded(n) == Digits(n, 10, 2)
    ensures Digital(Padded(n)) && |Padded(n)| == 2
  {
    PaddedIs(n);
    TwoDigits(n);
    NumberStep("", 0, n / 10, 10);
    assert "" + [Digit(n / 10)] == [Digit(n / 10)];
    NumberStep([Digit(n / 10)], n / 10, n % 10, 10);
  }

  lemma YearReads(y: nat)
    requires y <= 9999
    ensures Number(Digits(y, 10, 4), 10) == Some(y)
  {
    assert Power(10, 4) == 10000;
    NumberOfDigits(y, 10, 4);
  }

  lemma NameReads(key: string, p: Period)
    requires ValidPeriod(p)
    ensures Ordinals(NameOf(p)) == (p.year, if p.Month? then p.month else 0)
    ensures DateOf(key, NameOf(p)) == Success(Since(p))
  {
    var year := Digits(p.year, 10, 4);
    YearReads(p.year);
    if p.Month? {
      var month := Digits(p.month, 10, 2);
      PaddedReads(p.month);
      TwoNumbers(key, year, month, p.year, p.month);
      assert NameOf(p) == year + "-" + month;
    } else {
      assert NameOf(p) == year;
      OneNumber(key, year, p.year);
    }
  }

  lemma {:induction false} DecimalIsShort(n: nat)
    ensures |Decimal(n)| <= 1 + n / 10
  {
    if n >= 10 {
      DecimalIsShort(n / 10);
    }
  }

  lemma DecimalReads(key: string, y: nat)
    requires y <= 10000
    ensures Ordinals(Decimal(y)) == (y, 0) && DateOf(key, Decimal(y)) == Made(key, Decimal(y), Date(y, 1, 1))
  {
    NumberOfDecimal(y);
    DecimalIsShort(y);
    OneNumber(key, Decimal(y), y);
  }

  /** A bare year is read exactly from 1 to 9999; of those that are not, one past a C int is raised
      over instead of refused, unless it is too long to be made a number at all. */
  lemma YearsRead(key: string, y: nat)
    requires |Decimal(y)| <= MAX_DIGITS
    ensures DateOf(key, Decimal(y)) == if y > MAX_INT then Failure(Overflow(key, Decimal(y)))
                                       else if 1 <= y <= 9999 then Success(Date(y, 1, 1))
                                       else Failure(BadDate(key, Decimal(y)))
  {
    NumberOfDecimal(y);
    OneNumber(key, Decimal(y), y);
  }

  function MonthText(y: nat, m: nat): string {
    Decimal(y) + "-" + Padded(m)
  }

  lemma MonthReads(key: string, y: nat, m: nat)
    requires y <= 10000 && m < 100
    ensures Ordinals(MonthText(y, m)) == (y, m) && DateOf(key, MonthText(y, m)) == Made(key, MonthText(y, m), Date(y, m, 1))
  {
    NumberOfDecimal(y);
    DecimalIsShort(y);
    PaddedReads(m);
    TwoNumbers(key, Decimal(y), Padded(m), y, m);
  }

  /** The two bounds a period comes out with. */
  function SinceText(p: Period): string
    requires ValidPeriod(p)
  {
    if p.Year? then Decimal(p.year) else NameOf(p)
  }

  function UntilOrdinals(p: Period): (nat, nat) {
    if p.Year? then (p.year + 1, 0) else (p.year + p.month / 12, p.month % 12 + 1)
  }

  function UntilText(p: Period): string {
    if p.Year? then Decimal(p.year + 1) else MonthText(UntilOrdinals(p).0, UntilOrdinals(p).1)
  }

  lemma BoundsAre(p: Period)
    requires ValidPeriod(p)
    ensures Bounds(NameOf(p)) == Some((SinceText(p), UntilText(p)))
  {
    NameReads("", p);
  }

  lemma SinceReads(key: string, p: Period)
    requires ValidPeriod(p)
    ensures DateOf(key, SinceText(p)) == Success(Since(p))
  {
    if p.Year? {
      DecimalReads(key, p.year);
    } else {
      NameReads(key, p);
    }
  }

  lemma UntilIsDate(p: Period)
    requires ValidPeriod(p)
    ensures Until(p) == Date(UntilOrdinals(p).0, if p.Year? then 1 else UntilOrdinals(p).1, 1)
    ensures Valid(Until(p)) <==> Until(p).year <= 9999
  {
  }

  /** The day past a period is refused exactly when there is no such day. */
  lemma UntilReads(key: string, p: Period)
    requires ValidPeriod(p)
    ensures DateOf(key, UntilText(p)) == Made(key, UntilText(p), Until(p))
    ensures DateOf(key, UntilText(p)).Success? <==> Until(p).year <= 9999
  {
    UntilIsDate(p);
    if p.Year? {
      DecimalReads(key, p.year + 1);
    } else {
      MonthReads(key, UntilOrdinals(p).0, UntilOrdinals(p).1);
    }
  }

  /** A period's name with its year written as a plain number. */
  function Unpadded(p: Period): string {
    if p.Month? then MonthText(p.year, p.month) else Decimal(p.year)
  }

  /** Stepping back from the bound a period is asked for with names the period again, and in the
      rail's own spelling exactly from the year 1000 on. */
  lemma PreviousUndoes(p: Period)
    requires ValidPeriod(p)
    ensures Bounds(NameOf(p)) == Some((SinceText(p), UntilText(p)))
    ensures Previous(UntilText(p)) == Some(Unpadded(p))
    ensures Unpadded(p) == NameOf(p) <==> p.year >= 1000
  {
    BoundsAre(p);
    Spellings(p);
    UntilIs(p);
    StepsBack(p);
  }

  lemma UntilIs(p: Period)
    requires ValidPeriod(p)
    ensures Ordinals(UntilText(p)) == UntilOrdinals(p)
  {
    if p.Year? {
      DecimalReads("", p.year + 1);
    } else {
      MonthReads("", UntilOrdinals(p).0, UntilOrdinals(p).1);
    }
  }

  lemma December(y: nat)
    ensures MonthText(y, 12) == Decimal(y) + "-12"
  {
    PaddedIs(12);
  }

  lemma StepsBack(p: Period)
    requires ValidPeriod(p)
    ensures StepBack(UntilOrdinals(p)) == Some(Unpadded(p))
  {
    if p.Month? && p.month == 12 {
      December(p.year);
    } else if p.Month? {
      assert UntilOrdinals(p) == (p.year, p.month + 1);
    }
  }

  lemma Spellings(p: Period)
    requires ValidPeriod(p)
    ensures Unpadded(p) == NameOf(p) <==> p.year >= 1000
  {
    SameSpelling(p.year);
    if p.Month? {
      PaddedReads(p.month);
      PaddedIs(p.month);
      SameTail(Decimal(p.year), Digits(p.year, 10, 4), "-" + Padded(p.month));
      assert Unpadded(p) == Decimal(p.year) + ("-" + Padded(p.month));
      assert NameOf(p) == Digits(p.year, 10, 4) + ("-" + Padded(p.month));
    } else {
      assert Unpadded(p) == Decimal(p.year) && NameOf(p) == Digits(p.year, 10, 4);
    }
  }

  lemma SameTail(a: string, b: string, tail: string)
    ensures a + tail == b + tail <==> a == b
  {
    if a + tail == b + tail {
      assert |a| == |b|;
      assert a == (a + tail)[..|a|] && b == (b + tail)[..|a|];
    }
  }

  lemma SameSpelling(y: nat)
    requires 1 <= y <= 9999
    ensures Decimal(y) == Digits(y, 10, 4) <==> y >= 1000
  {
    DecimalIsDigits(y, 4);
    if y < 10 {
      DecimalIsDigits(y, 1);
    } else if y < 100 {
      DecimalIsDigits(y, 2);
    } else if y < 1000 {
      DecimalIsDigits(y, 3);
    }
  }

  /** A number with exactly that many digits spells alike padded or not. */
  lemma {:induction false} DecimalIsDigits(n: nat, width: nat)
    requires width > 0
    ensures Power(10, width - 1) <= n < Power(10, width) ==> Decimal(n) == Digits(n, 10, width)
    ensures n < 10 && width == 1 ==> Decimal(n) == Digits(n, 10, width)
  {
    if width == 1 {
      assert Digits(n, 10, 1) == Digits(n / 10, 10, 0) + [Digit(n % 10)];
      assert Digits(n / 10, 10, 0) == "";
    } else {
      DecimalIsDigits(n / 10, width - 1);
      PowerStep(n, width);
    }
  }

  lemma PowerStep(n: nat, width: nat)
    requires width > 1
    ensures Power(10, width - 1) <= n < Power(10, width) ==> n >= 10 && Power(10, width - 2) <= n / 10 < Power(10, width - 1)
  {
    assert Power(10, width) == 10 * Power(10, width - 1) && Power(10, width - 1) == 10 * Power(10, width - 2);
    AtLeastOne(width - 2);
  }

  lemma {:induction false} AtLeastOne(width: nat)
    ensures Power(10, width) >= 1
  {
    if width > 0 { AtLeastOne(width - 1); }
  }

  // -------------------------------------------------------------------------------------
  // Years or months.

  /** A date outside the years one to 9999 is an exception in the source. */
  datatype Error = NoSuchDate

  /** `_dates`: `asked` with its range widened to a year or dropped, and true when widened. */
  function Dates(asked: Query): Result<(Query, bool), Error> {
    if asked.since.None? || asked.until.None? then Success((asked.(since := None, until := None), false))
    else if asked.until.value == Date(1, 1, 1) then Failure(NoSuchDate)
    else if DayBefore(asked.until.value).year != asked.since.value.year then Success((asked.(since := None, until := None), false))
    else if asked.since.value.year >= 9999 then Failure(NoSuchDate)
    else
      var year := asked.since.value.year;
      Success((asked.(since := Some(Date(year, 1, 1)), until := Some(Date(year + 1, 1, 1))), true))
  }

  /** Every day of the range is of this year. */
  ghost predicate AllOf(since: Date, until: Date, year: int) {
    forall d :: Valid(d) && Inside(d, since, until) ==> d.year == year
  }

  /** Every day a range takes in is of the year it starts in exactly when its last day is. */
  lemma AllOfItsYear(since: Date, until: Date)
    requires Valid(since) && Valid(until) && Rank(since) < Rank(until)
    ensures until != Date(1, 1, 1) && DayBefore(until).year >= since.year
    ensures forall year :: AllOf(since, until, year) <==> since.year == year && DayBefore(until).year == year
  {
    var last := DayBefore(until);
    DayBeforeIsValid(until);
    DayBeforeIsNext(until, since);
    DayBeforeIsNext(until, last);
    assert Inside(last, since, until) && Inside(since, since, until);
    forall d | Valid(d) && Inside(d, since, until) ensures since.year <= d.year <= last.year {
      DayBeforeIsNext(until, d);
    }
  }

  /** A range that takes in any day at all is counted in months exactly when every day it takes
      in is of one year, and then against all of that year; except that in the last year there is
      the widening fails, there being no January past it. */
  lemma MonthsInsideAYear(asked: Query)
    requires asked.since.Some? && Valid(asked.since.value)
    requires asked.until.Some? && Valid(asked.until.value)
    requires Rank(asked.since.value) < Rank(asked.until.value)
    ensures Dates(asked).Failure? <==> AllOf(asked.since.value, asked.until.value, 9999)
    ensures Dates(asked).Success? ==> var (widened, counted) := Dates(asked).value;
      && (counted <==> exists year :: AllOf(asked.since.value, asked.until.value, year))
      && widened == asked.(since := widened.since, until := widened.until)
      && (counted ==> forall d :: Valid(d) ==>
            (Inside(d, widened.since.value, widened.until.value) <==> d.year == asked.since.value.year))
      && (!counted ==> widened.since.None? && widened.until.None?)
  {
    var since, until := asked.since.value, asked.until.value;
    AllOfItsYear(since, until);
    var counted := DayBefore(until).year == since.year;
    assert counted <==> AllOf(since, until, since.year);
    if since.year < 9999 {
      forall d | Valid(d) ensures Inside(d, Date(since.year, 1, 1), Date(since.year + 1, 1, 1)) <==> d.year == since.year {
        RangeIsPeriod(Year(since.year), d);
      }
    }
  }

  /** A period of the rail whose end is a date at all is counted in months of the year that
      contains it, and in the last year there is cannot be. */
  lemma PeriodsCountInMonths(asked: Query, p: Period)
    requires ValidPeriod(p) && Valid(Until(p))
    requires asked.since == Some(Since(p)) && asked.until == Some(Until(p))
    ensures Dates(asked) == if p.year == 9999 then Failure(NoSuchDate)
      else Success((asked.(since := Some(Since(Year(p.year))), until := Some(Until(Year(p.year)))), true))
  {
  }
}
