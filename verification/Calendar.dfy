/** Dates and instants as Python's `datetime` keeps them, by their fields. */
module Calendar {

  datatype Date = Date(year: int, month: int, day: int)

  function Leap(year: int): bool {
    year % 4 == 0 && (year % 100 != 0 || year % 400 == 0)
  }

  function DaysIn(year: int, month: int): int {
    if month == 2 then if Leap(year) then 29 else 28
    else if month == 4 || month == 6 || month == 9 || month == 11 then 30
    else 31
  }

  /** What `datetime.date` will construct. */
  predicate Valid(d: Date) {
    1 <= d.year <= 9999 && 1 <= d.month <= 12 && 1 <= d.day <= DaysIn(d.year, d.month)
  }

  /** A place on the line of dates: later dates have higher ones. */
  function Rank(d: Date): int {
    d.year * 372 + d.month * 31 + d.day
  }

  function DayBefore(d: Date): Date {
    if d.day > 1 then Date(d.year, d.month, d.day - 1)
    else if d.month > 1 then Date(d.year, d.month - 1, DaysIn(d.year, d.month - 1))
    else Date(d.year - 1, 12, 31)
  }

  lemma RankTells(d: Date, e: Date)
    requires Valid(d) && Valid(e) && Rank(d) == Rank(e)
    ensures d == e
  {
  }

  lemma RankOrders(d: Date, e: Date)
    requires Valid(d) && Valid(e)
    ensures Rank(e) < Rank(d) <==>
      e.year < d.year || (e.year == d.year && (e.month < d.month || (e.month == d.month && e.day < d.day)))
  {
  }

  lemma DayBeforeIsValid(d: Date)
    requires Valid(d) && d != Date(1, 1, 1)
    ensures Valid(DayBefore(d))
  {
  }

  /** Nothing falls between a day and the one before it. */
  lemma DayBeforeIsNext(d: Date, e: Date)
    requires Valid(d) && Valid(e) && d != Date(1, 1, 1)
    ensures Rank(e) < Rank(d) <==> Rank(e) <= Rank(DayBefore(d))
  {
    DayBeforeIsValid(d);
    RankOrders(d, e);
    RankOrders(e, DayBefore(d));
    if d.day == 1 && d.month > 1 {
      assert e.year == d.year && e.month == d.month - 1 ==> e.day <= DaysIn(d.year, d.month - 1);
    }
  }

  // -------------------------------------------------------------------------------------
  // An instant, in UTC.

  datatype Stamp = Stamp(date: Date, hour: int, minute: int, second: int, micro: int)

  predicate ValidStamp(s: Stamp) {
    Valid(s.date) && 0 <= s.hour < 24 && 0 <= s.minute < 60 && 0 <= s.second < 60 && 0 <= s.micro < 1000000
  }

  function Micros(s: Stamp): int {
    ((s.hour * 60 + s.minute) * 60 + s.second) * 1000000 + s.micro
  }

  function Instant(s: Stamp): int {
    Rank(s.date) * 86400000000 + Micros(s)
  }

  lemma InstantTells(s: Stamp, t: Stamp)
    requires ValidStamp(s) && ValidStamp(t) && Instant(s) == Instant(t)
    ensures s == t
  {
    MicrosTell(s, t);
    RankTells(s.date, t.date);
  }

  lemma MicrosTell(s: Stamp, t: Stamp)
    requires ValidStamp(s) && ValidStamp(t) && Instant(s) == Instant(t)
    ensures Rank(s.date) == Rank(t.date) && s == t.(date := s.date)
  {
    assert 0 <= Micros(s) < 86400000000 && 0 <= Micros(t) < 86400000000;
  }

  predicate DayEarlierThan(d: Date, e: Date) {
    d.year < e.year || (d.year == e.year && (d.month < e.month || (d.month == e.month && d.day < e.day)))
  }

  predicate ClockEarlier(s: Stamp, t: Stamp) {
    || s.hour < t.hour
    || (s.hour == t.hour && (s.minute < t.minute
        || (s.minute == t.minute && (s.second < t.second || (s.second == t.second && s.micro < t.micro)))))
  }

  /** One stamp is before another, read off their parts. */
  predicate Earlier(s: Stamp, t: Stamp) {
    DayEarlierThan(s.date, t.date) || (s.date == t.date && ClockEarlier(s, t))
  }

  /** Instants are in the order of the stamps' own parts. */
  lemma InstantOrders(s: Stamp, t: Stamp)
    requires ValidStamp(s) && ValidStamp(t)
    ensures Instant(s) < Instant(t) <==> Earlier(s, t)
  {
    RankOrders(t.date, s.date);
    if Rank(s.date) == Rank(t.date) { RankTells(s.date, t.date); }
    MicrosOrder(s, t);
    assert 0 <= Micros(s) < 86400000000 && 0 <= Micros(t) < 86400000000;
  }

  lemma MicrosOrder(s: Stamp, t: Stamp)
    requires ValidStamp(s) && ValidStamp(t)
    ensures Micros(s) < Micros(t) <==> ClockEarlier(s, t)
  {
  }

  /** Twenty-four hours earlier. */
  function DayEarlier(s: Stamp): Stamp {
    s.(date := DayBefore(s.date))
  }
}
