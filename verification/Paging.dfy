/** The keyset of `ui/entries.py`: what a row of a list is sorted by, in SQL and off the row, and
    the cursors a reader follows through the list. */
module Paging {
  import opened Wrappers
  import opened Calendar
  import Cursor
  import Keyset

  /** The sort keys of a row, both clocks in UTC. */
  datatype Keys = Keys(first: Stamp, second: Stamp, id: nat)

  predicate ValidKeys(k: Keys) {
    ValidStamp(k.first) && ValidStamp(k.second) && k.id < Cursor.IDS
  }

  type Key = k: Keys | ValidKeys(k)
    witness Keys(Stamp(Date(1, 1, 1), 0, 0, 0, 0), Stamp(Date(1, 1, 1), 0, 0, 0, 0), 0)

  datatype Order = PLACED | PUBLISHED

  /** What a row of the narrowed query is sorted by; `read` stands for the columns it is not. */
  datatype Row = Row(id: nat, firstSeen: Stamp, published: Option<Stamp>, read: bool)

  /** Our own clock is past the year one, so a day can be taken off it. */
  predicate ValidRow(r: Row) {
    && r.id < Cursor.IDS
    && ValidStamp(r.firstSeen) && r.firstSeen.date.year > 1
    && (r.published.Some? ==> ValidStamp(r.published.value))
  }

  type Entry = r: Row | ValidRow(r) witness Row(0, Stamp(Date(2, 1, 1), 0, 0, 0, 0), None, false)

  const MAX_LIMIT := 100

  /** `bounded`. */
  function Limited(limit: int): (r: nat)
    ensures 1 <= r <= MAX_LIMIT
    ensures 1 <= limit <= MAX_LIMIT ==> r == limit
    ensures limit < 1 ==> r == 1
    ensures limit > MAX_LIMIT ==> r == MAX_LIMIT
  {
    var most := if limit < MAX_LIMIT then limit else MAX_LIMIT;
    if most < 1 then 1 else most
  }

  // -------------------------------------------------------------------------------------
  // The keys as SQL computes them, and as Python reads them off a row.

  /** `GREATEST`, which steps over a NULL. */
  function Greatest(a: Option<Stamp>, b: Option<Stamp>): Option<Stamp> {
    if a.None? then b
    else if b.None? then a
    else if Instant(a.value) < Instant(b.value) then b else a
  }

  function Coalesce(a: Option<Stamp>, b: Option<Stamp>): Option<Stamp> {
    if a.Some? then a else b
  }

  /** `dated` and `placed`. */
  function Placing(order: Order, r: Entry): Option<Stamp> {
    var dated := Coalesce(r.published, Some(r.firstSeen));
    if order == PLACED then Greatest(dated, Some(DayEarlier(r.firstSeen))) else dated
  }

  /** `keys`. */
  function SqlKeys(order: Order, r: Entry): Keys {
    var placing := Placing(order, r);
    Keys(if placing.Some? then placing.value else r.firstSeen, r.firstSeen, r.id)
  }

  /** `_values`: Python's `or`, and its `max`, which keeps the first of two equals. */
  function Values(order: Order, r: Entry): Key {
    var dated := if r.published.Some? then r.published.value else r.firstSeen;
    var held := DayEarlier(r.firstSeen);
    DayBeforeIsValid(r.firstSeen.date);
    Keys(if order == PLACED && Instant(held) > Instant(dated) then held else dated, r.firstSeen, r.id)
  }

  /** A cursor holds what its row was sorted by. */
  lemma ValuesAreKeys(order: Order, r: Entry)
    ensures Values(order, r) == SqlKeys(order, r)
  {
  }

  /** Where a row is placed: when it was found if no date was given, at the date if that is no more
      than a day before, and a day before it was found otherwise. */
  lemma PlacedWithinADay(r: Entry)
    ensures var placed, held := Values(PLACED, r).first, DayEarlier(r.firstSeen);
      && (r.published.None? ==> placed == r.firstSeen)
      && (r.published.Some? && Instant(r.published.value) >= Instant(held) ==> placed == r.published.value)
      && (r.published.Some? && Instant(r.published.value) < Instant(held) ==> placed == held)
  {
    DayBeforeIsNext(r.firstSeen.date, r.firstSeen.date);
    DayBeforeIsValid(r.firstSeen.date);
  }

  /** Row values compare left to right. */
  predicate KeyLess(a: Key, b: Key) {
    || Instant(a.first) < Instant(b.first)
    || (Instant(a.first) == Instant(b.first) &&
        (Instant(a.second) < Instant(b.second) || (Instant(a.second) == Instant(b.second) && a.id < b.id)))
  }

  function Sort(order: Order): Keyset.Sort<Entry, Key> {
    Keyset.Sort((r: Entry) => Values(order, r), (a: Key, b: Key) => KeyLess(a, b))
  }

  lemma KeyLessTotal(a: Key, b: Key)
    ensures a == b || KeyLess(a, b) || KeyLess(b, a)
  {
    if Instant(a.first) == Instant(b.first) && Instant(a.second) == Instant(b.second) && a.id == b.id {
      InstantTells(a.first, b.first);
      InstantTells(a.second, b.second);
    }
  }

  /** No two keys tie: an instant has one spelling, and the id settles the rest. */
  lemma SortIsLawful(order: Order)
    ensures Keyset.Lawful(Sort(order))
  {
    forall a: Key, b: Key ensures a == b || KeyLess(a, b) || KeyLess(b, a) {
      KeyLessTotal(a, b);
    }
  }

  // -------------------------------------------------------------------------------------
  // The list, as a reader asks for it.

  datatype Listing = Listing(entries: seq<Entry>, cursor: string)

  const UTC := Cursor.Offset(0)

  function InUtc(key: Key): Cursor.Key {
    Cursor.Key(Cursor.Moment(key.first, UTC), Cursor.Moment(key.second, UTC), key.id)
  }

  /** The keys a cursor holds. One that holds another clock is none this list ever gave. */
  function Held(key: Cursor.Key): Option<Key> {
    if Cursor.ValidKey(key) && key.first.zone == UTC && key.second.zone == UTC
    then Some(Keys(key.first.stamp, key.second.stamp, key.id)) else None
  }

  function CursorOf(key: Option<Key>): string {
    if key.Some? then Cursor.Encode(InUtc(key.value)) else ""
  }

  function Listed(page: Keyset.Cut<Entry, Key>): Listing {
    Listing(page.entries, CursorOf(page.next))
  }

  /** From one cursor on, with a limit somebody asked for. */
  function List(order: Order, rows: seq<Entry>, after: string, limit: int): Result<Listing, Cursor.Error> {
    if after == "" then Success(Listed(Keyset.Page(Sort(order), rows, None, Limited(limit))))
    else
      match Cursor.Decode(after)
      case Failure(e) => Failure(e)
      case Success(key) =>
        if Held(key).None? then Failure(Cursor.BadCursor(after))
        else Success(Listed(Keyset.Page(Sort(order), rows, Held(key), Limited(limit))))
  }

  /** What one request finds in the archive, and the limit it asks for. */
  datatype Visit = Visit(rows: seq<Entry>, limit: int)

  datatype Walk = Walk(entries: seq<Entry>, finished: bool)

  /** One request after another, each with the cursor the one before it gave, until the empty
      cursor or the last of the visits. */
  function Follow(order: Order, after: string, visits: seq<Visit>): Result<Walk, Cursor.Error>
    decreases |visits|
  {
    if visits == [] then Success(Walk([], false))
    else
      match List(order, visits[0].rows, after, visits[0].limit)
      case Failure(e) => Failure(e)
      case Success(listing) =>
        if listing.cursor == "" then Success(Walk(listing.entries, true))
        else
          match Follow(order, listing.cursor, visits[1..])
          case Failure(e) => Failure(e)
          case Success(rest) => Success(Walk(listing.entries + rest.entries, rest.finished))
  }

  // -------------------------------------------------------------------------------------
  // Cursors carry keys.

  function Asked(visits: seq<Visit>): (r: seq<Keyset.Visit<Entry>>)
    ensures |r| == |visits| && Keyset.Asking(r)
    ensures forall i :: 0 <= i < |visits| ==> r[i] == Keyset.Visit(visits[i].rows, Limited(visits[i].limit))
  {
    seq(|visits|, i requires 0 <= i < |visits| => Keyset.Visit(visits[i].rows, Limited(visits[i].limit)))
  }

  lemma CursorReads(key: Key)
    ensures Cursor.Decode(CursorOf(Some(key))) == Success(InUtc(key)) && Held(InUtc(key)) == Some(key)
    ensures CursorOf(Some(key)) != ""
  {
    Cursor.DecodeEncode(InUtc(key));
  }

  lemma ListIsPage(order: Order, rows: seq<Entry>, below: Option<Key>, limit: int)
    ensures List(order, rows, CursorOf(below), limit) == Success(Listed(Keyset.Page(Sort(order), rows, below, Limited(limit))))
  {
    if below.Some? { CursorReads(below.value); }
  }

  lemma LastIsEmpty(page: Keyset.Cut<Entry, Key>)
    ensures Listed(page).cursor == "" <==> page.next.None?
  {
    if page.next.Some? { CursorReads(page.next.value); }
  }

  lemma FollowStep(order: Order, below: Option<Key>, visits: seq<Visit>)
    requires visits != []
    ensures var page := Keyset.Page(Sort(order), visits[0].rows, below, Limited(visits[0].limit));
      Follow(order, CursorOf(below), visits)
      == if page.next.None? then Success(Walk(page.entries, true))
         else match Follow(order, CursorOf(page.next), visits[1..])
           case Failure(e) => Failure(e)
           case Success(rest) => Success(Walk(page.entries + rest.entries, rest.finished))
  {
    ListIsPage(order, visits[0].rows, below, visits[0].limit);
    LastIsEmpty(Keyset.Page(Sort(order), visits[0].rows, below, Limited(visits[0].limit)));
  }

  lemma AskedLater(visits: seq<Visit>)
    requires visits != []
    ensures Asked(visits)[1..] == Asked(visits[1..])
    ensures Asked(visits)[0] == Keyset.Visit(visits[0].rows, Limited(visits[0].limit))
  {
  }

  lemma KeysetStep(order: Order, below: Option<Key>, visits: seq<Visit>)
    requires visits != []
    ensures var page := Keyset.Page(Sort(order), visits[0].rows, below, Limited(visits[0].limit));
      Keyset.Follow(Sort(order), below, Asked(visits))
      == if page.next.None? then Keyset.Walk(page.entries, true)
         else
           var rest := Keyset.Follow(Sort(order), page.next, Asked(visits[1..]));
           Keyset.Walk(page.entries + rest.entries, rest.finished)
  {
    AskedLater(visits);
  }

  /** Following cursors is following keys: none of ours is ever refused. */
  lemma {:induction false} FollowIsKeyset(order: Order, below: Option<Key>, visits: seq<Visit>)
    ensures var w := Keyset.Follow(Sort(order), below, Asked(visits));
      Follow(order, CursorOf(below), visits) == Success(Walk(w.entries, w.finished))
    decreases |visits|
  {
    if visits != [] {
      FollowStep(order, below, visits);
      KeysetStep(order, below, visits);
      var page := Keyset.Page(Sort(order), visits[0].rows, below, Limited(visits[0].limit));
      if page.next.Some? {
        FollowIsKeyset(order, page.next, visits[1..]);
      }
    }
  }

  // -------------------------------------------------------------------------------------
  // The two promises.

  /** Ids are a table's primary key. */
  ghost predicate Table(rows: seq<Entry>) {
    forall i, j :: 0 <= i < j < |rows| ==> rows[i].id != rows[j].id
  }

  ghost predicate Once(entries: seq<Entry>, id: nat) {
    exists i :: 0 <= i < |entries| && entries[i].id == id && forall j :: 0 <= j < |entries| && j != i ==> entries[j].id != id
  }

  lemma TableIsDistinct(order: Order, rows: seq<Entry>)
    requires Table(rows)
    ensures Keyset.Distinct(Sort(order), rows)
  {
    var q := Sort(order);
    forall i, j | 0 <= i < j < |rows| ensures q.keyOf(rows[i]) != q.keyOf(rows[j]) {
      assert q.keyOf(rows[i]).id == rows[i].id && q.keyOf(rows[j]).id == rows[j].id;
    }
  }

  lemma OneRow(rows: seq<Entry>, e: Entry, r: Entry)
    requires Table(rows) && e in rows && r in rows && e.id == r.id
    ensures e == r
  {
    var m :| 0 <= m < |rows| && rows[m] == e;
    var n :| 0 <= n < |rows| && rows[n] == r;
  }

  /** An entry with a steady row's id carries its key. */
  lemma SameRow(order: Order, visits: seq<Visit>, key: Key, e: Entry)
    requires forall i :: 0 <= i < |visits| ==> Table(visits[i].rows)
    requires Keyset.Steady(Sort(order), Asked(visits), key) && Keyset.Read(Asked(visits), e)
    ensures e.id == key.id ==> Values(order, e) == key
  {
    var i :| 0 <= i < |Asked(visits)| && e in Asked(visits)[i].rows;
    var rows := visits[i].rows;
    assert Asked(visits)[i].rows == rows;
    assert Keyset.Has(Sort(order), rows, key);
    var r :| r in rows && Sort(order).keyOf(r) == key;
    assert r.id == key.id;
    if e.id == key.id { OneRow(rows, e, r); }
  }

  /** Whatever is added, removed or changed between two pages, and whatever limits they ask for,
      no cursor is refused, the rows come in strictly descending order, and by the time the
      cursor comes back empty every row that held still has been shown exactly once. */
  lemma TraversalIsComplete(order: Order, visits: seq<Visit>, key: Key)
    requires forall i :: 0 <= i < |visits| ==> Table(visits[i].rows)
    ensures var r := Follow(order, "", visits);
      && r.Success?
      && Keyset.Descending(Sort(order), r.value.entries)
      && (r.value.finished && Keyset.Steady(Sort(order), Asked(visits), key) ==> Once(r.value.entries, key.id))
  {
    var q := Sort(order);
    SortIsLawful(order);
    forall i | 0 <= i < |visits| ensures Keyset.Distinct(q, Asked(visits)[i].rows) {
      TableIsDistinct(order, visits[i].rows);
    }
    Keyset.FollowOwed(q, None, Asked(visits));
    FollowIsKeyset(order, None, visits);
    var w := Follow(order, "", visits).value;
    if w.finished && Keyset.Steady(q, Asked(visits), key) {
      assert Keyset.KeyUnder(q, key, None);
      assert Keyset.Has(q, w.entries, key);
      OnlyOnce(order, visits, key, w.entries);
    }
  }

  lemma OnlyOnce(order: Order, visits: seq<Visit>, key: Key, entries: seq<Entry>)
    requires forall i :: 0 <= i < |visits| ==> Table(visits[i].rows)
    requires Keyset.Steady(Sort(order), Asked(visits), key) && Keyset.Descending(Sort(order), entries)
    requires Keyset.Has(Sort(order), entries, key) && forall e :: e in entries ==> Keyset.Read(Asked(visits), e)
    ensures Once(entries, key.id)
  {
    var q := Sort(order);
    SortIsLawful(order);
    var r :| r in entries && q.keyOf(r) == key;
    var i :| 0 <= i < |entries| && entries[i] == r;
    forall j | 0 <= j < |entries| && j != i ensures entries[j].id != key.id {
      assert entries[j] in entries;
      SameRow(order, visits, key, entries[j]);
      assert Keyset.Lower(q, entries[j], entries[i]) || Keyset.Lower(q, entries[i], entries[j]);
    }
  }

  /** With nothing changing, the pages laid end to end are the whole list sorted, in at most as
      many pages as it has rows. */
  lemma StillTraversal(order: Order, rows: seq<Entry>, visits: seq<Visit>)
    requires Table(rows) && forall i :: 0 <= i < |visits| ==> visits[i].rows == rows
    ensures var r := Follow(order, "", visits);
      && r.Success?
      && (r.value.finished ==> r.value.entries == Keyset.Ordered(Sort(order), rows))
      && (|visits| > 0 && |visits| >= |rows| ==> r.value.finished)
  {
    SortIsLawful(order);
    TableIsDistinct(order, rows);
    Keyset.StillTraversal(Sort(order), rows, Asked(visits));
    FollowIsKeyset(order, None, visits);
  }

  // -------------------------------------------------------------------------------------
  // Newest first, on the rows' own columns.

  /** Where a row is placed: the publisher's date, or ours where there is none; and on a screen that
      goes by when we could have known of it, no more than a day before we found it. */
  function PlacedAt(order: Order, r: Entry): Stamp {
    var dated, held := if r.published.Some? then r.published.value else r.firstSeen, DayEarlier(r.firstSeen);
    if order == PLACED && Earlier(dated, held) then held else dated
  }

  /** A row comes before another: it is placed later, or it is placed alike and was found later, or
      was found at the same time too and has the higher id. */
  predicate Newer(order: Order, a: Entry, b: Entry) {
    || Earlier(PlacedAt(order, b), PlacedAt(order, a))
    || (PlacedAt(order, a) == PlacedAt(order, b) &&
        (Earlier(b.firstSeen, a.firstSeen) || (a.firstSeen == b.firstSeen && a.id > b.id)))
  }

  lemma PlacedAtIs(order: Order, r: Entry)
    ensures ValidStamp(PlacedAt(order, r)) && Values(order, r) == Keys(PlacedAt(order, r), r.firstSeen, r.id)
  {
    DayBeforeIsValid(r.firstSeen.date);
    InstantOrders(if r.published.Some? then r.published.value else r.firstSeen, DayEarlier(r.firstSeen));
  }

  lemma LowerIsOlder(order: Order, a: Entry, b: Entry)
    ensures Keyset.Lower(Sort(order), b, a) <==> Newer(order, a, b)
  {
    PlacedAtIs(order, a);
    PlacedAtIs(order, b);
    StampsCompare(PlacedAt(order, b), PlacedAt(order, a));
    StampsCompare(b.firstSeen, a.firstSeen);
  }

  lemma StampsCompare(s: Stamp, t: Stamp)
    requires ValidStamp(s) && ValidStamp(t)
    ensures (Instant(s) < Instant(t) <==> Earlier(s, t)) && (Instant(s) == Instant(t) <==> s == t)
  {
    InstantOrders(s, t);
    if Instant(s) == Instant(t) { InstantTells(s, t); }
  }

  /** However the archive changes between the pages, whatever a reader comes to later is older. */
  lemma NewestFirst(order: Order, visits: seq<Visit>, i: nat, j: nat)
    requires forall n :: 0 <= n < |visits| ==> Table(visits[n].rows)
    requires Follow(order, "", visits).Success? && i < j < |Follow(order, "", visits).value.entries|
    ensures var entries := Follow(order, "", visits).value.entries; Newer(order, entries[i], entries[j])
  {
    var entries := Follow(order, "", visits).value.entries;
    TraversalIsComplete(order, visits, Values(order, entries[i]));
    LowerIsOlder(order, entries[i], entries[j]);
  }

  /** The rows one request is owed: all of them, or those older than the row its cursor was cut at. */
  ghost predicate OwedAfter(order: Order, rows: seq<Entry>, after: Option<Entry>, r: Entry) {
    r in rows && (after.Some? ==> Newer(order, after.value, r))
  }

  function CursorAt(order: Order, after: Option<Entry>): string {
    if after.None? then "" else CursorOf(Some(Values(order, after.value)))
  }

  /** A page is the newest of what it is owed: only that, newest first, in full if there is as much,
      nothing left out newer than anything on it, and a cursor at its last row exactly when
      something was left out. */
  ghost predicate IsNewest(order: Order, rows: seq<Entry>, after: Option<Entry>, limit: nat, page: Listing)
    requires limit > 0
  {
    && |page.entries| <= limit
    && (forall e :: e in page.entries ==> OwedAfter(order, rows, after, e))
    && (forall i, j :: 0 <= i < j < |page.entries| ==> Newer(order, page.entries[i], page.entries[j]))
    && (forall r, e :: OwedAfter(order, rows, after, r) && r !in page.entries && e in page.entries ==> Newer(order, e, r))
    && (page.cursor == "" <==> forall r :: OwedAfter(order, rows, after, r) ==> r in page.entries)
    && (page.cursor != "" ==> |page.entries| == limit && page.cursor == CursorAt(order, Some(page.entries[limit - 1])))
  }

  lemma UnderIsOwed(order: Order, rows: seq<Entry>, after: Option<Entry>, r: Entry)
    ensures r in rows && Keyset.Under(Sort(order), r, if after.None? then None else Some(Values(order, after.value)))
       <==> OwedAfter(order, rows, after, r)
  {
    if after.Some? { LowerIsOlder(order, after.value, r); }
  }

  lemma PageIsNewest(order: Order, rows: seq<Entry>, after: Option<Entry>, limit: int)
    requires Table(rows)
    ensures var r := List(order, rows, CursorAt(order, after), limit);
      r.Success? && IsNewest(order, rows, after, Limited(limit), r.value)
  {
    var q, below := Sort(order), if after.None? then None else Some(Values(order, after.value));
    var n, rest := Limited(limit), Keyset.Rest(Sort(order), rows, below);
    SortIsLawful(order);
    TableIsDistinct(order, rows);
    ListIsPage(order, rows, below, limit);
    Keyset.RestIs(q, rows, below);
    Keyset.PageIs(q, rows, below, n);
    LastIsEmpty(Keyset.Page(q, rows, below, n));
    forall r ensures r in rest <==> OwedAfter(order, rows, after, r) {
      UnderIsOwed(order, rows, after, r);
    }
    forall i, j | 0 <= i < j < |rest| ensures Newer(order, rest[i], rest[j]) {
      LowerIsOlder(order, rest[i], rest[j]);
    }
    FirstIsNewest(order, rows, after, rest, n, Listed(Keyset.Page(q, rows, below, n)));
  }

  lemma FirstIsNewest(order: Order, rows: seq<Entry>, after: Option<Entry>, rest: seq<Entry>, limit: nat, page: Listing)
    requires limit > 0 && page.entries == Keyset.First(rest, limit)
    requires forall r :: r in rest <==> OwedAfter(order, rows, after, r)
    requires forall i, j :: 0 <= i < j < |rest| ==> Newer(order, rest[i], rest[j])
    requires page.cursor == "" <==> |rest| <= limit
    requires |rest| > limit ==> page.cursor == CursorAt(order, Some(rest[limit - 1]))
    ensures IsNewest(order, rows, after, limit, page)
  {
    if |rest| > limit {
      var top := page.entries;
      forall r, e | r in rest && r !in top && e in top ensures Newer(order, e, r) {
        var i :| 0 <= i < |top| && top[i] == e;
        var j :| 0 <= j < |rest| && rest[j] == r;
        NotBefore(rest, limit, j);
      }
      assert rest[limit] in rest && rest[limit] !in top by {
        forall i | 0 <= i < limit ensures top[i] != rest[limit] {
          Irreflexive(order, rest[i], rest[limit]);
        }
      }
      assert forall e :: e in top ==> e in rest;
    }
  }

  lemma NotBefore(rest: seq<Entry>, limit: nat, j: nat)
    requires limit <= |rest| && j < |rest| && rest[j] !in rest[..limit]
    ensures j >= limit
  {
    assert forall k :: 0 <= k < limit ==> rest[..limit][k] == rest[k];
  }

  lemma Irreflexive(order: Order, a: Entry, b: Entry)
    requires Newer(order, a, b)
    ensures a != b
  {
  }
}
