/** Reading a sorted table a page at a time, each page starting under the last key of the one
    before, while the table goes on changing. */
module Keyset {
  import opened Wrappers

  /** What a row is sorted by, and which key comes later in a list that is newest first. */
  datatype Sort<!R, !K> = Sort(keyOf: R -> K, less: (K, K) -> bool)

  ghost predicate Lawful<R, K(!new)>(q: Sort<R, K>) {
    && (forall a, b, c :: q.less(a, b) && q.less(b, c) ==> q.less(a, c))
    && (forall a :: !q.less(a, a))
    && (forall a, b :: a == b || q.less(a, b) || q.less(b, a))
  }

  predicate Lower<R, K>(q: Sort<R, K>, a: R, b: R) {
    q.less(q.keyOf(a), q.keyOf(b))
  }

  predicate Under<R, K>(q: Sort<R, K>, r: R, below: Option<K>) {
    below.None? || q.less(q.keyOf(r), below.value)
  }

  /** The keyset predicate. */
  function Before<R, K>(q: Sort<R, K>, rows: seq<R>, below: Option<K>): seq<R> {
    if rows == [] then []
    else (if Under(q, rows[0], below) then [rows[0]] else []) + Before(q, rows[1..], below)
  }

  function Inserted<R, K>(q: Sort<R, K>, row: R, rows: seq<R>): seq<R> {
    if rows == [] || Lower(q, rows[0], row) then [row] + rows
    else [rows[0]] + Inserted(q, row, rows[1..])
  }

  /** `ORDER BY` every key descending. */
  function Ordered<R, K>(q: Sort<R, K>, rows: seq<R>): seq<R> {
    if rows == [] then [] else Inserted(q, rows[0], Ordered(q, rows[1..]))
  }

  function First<T>(s: seq<T>, n: nat): seq<T> {
    if |s| <= n then s else s[..n]
  }

  datatype Cut<R, K> = Cut(entries: seq<R>, next: Option<K>)

  /** One row more than was asked for says whether there is a next page. */
  function Page<R, K>(q: Sort<R, K>, rows: seq<R>, below: Option<K>, limit: nat): Cut<R, K>
    requires limit > 0
  {
    var fetched := First(Ordered(q, Before(q, rows, below)), limit + 1);
    var entries := First(fetched, limit);
    Cut(entries, if |fetched| > limit then Some(q.keyOf(entries[|entries| - 1])) else None)
  }

  /** What one request finds in the table, and how many rows it asks for. */
  datatype Visit<R> = Visit(rows: seq<R>, limit: nat)

  datatype Walk<R> = Walk(entries: seq<R>, finished: bool)

  function Follow<R, K>(q: Sort<R, K>, below: Option<K>, visits: seq<Visit<R>>): Walk<R>
    requires Asking(visits)
    decreases |visits|
  {
    if visits == [] then Walk([], false)
    else
      var page := Page(q, visits[0].rows, below, visits[0].limit);
      if page.next.None? then Walk(page.entries, true)
      else
        var rest := Follow(q, page.next, visits[1..]);
        Walk(page.entries + rest.entries, rest.finished)
  }

  predicate Asking<R>(visits: seq<Visit<R>>) {
    forall i :: 0 <= i < |visits| ==> visits[i].limit > 0
  }

  // -------------------------------------------------------------------------------------
  // A page is sorted, and the rows between its ends are all on it.

  ghost predicate Distinct<R, K>(q: Sort<R, K>, rows: seq<R>) {
    forall i, j :: 0 <= i < j < |rows| ==> q.keyOf(rows[i]) != q.keyOf(rows[j])
  }

  ghost predicate Descending<R, K>(q: Sort<R, K>, rows: seq<R>) {
    forall i, j :: 0 <= i < j < |rows| ==> Lower(q, rows[j], rows[i])
  }

  lemma {:induction false} InsertedKeeps<R(!new), K(!new)>(q: Sort<R, K>, row: R, rows: seq<R>)
    requires Lawful(q) && Descending(q, rows) && forall r :: r in rows ==> q.keyOf(r) != q.keyOf(row)
    ensures Descending(q, Inserted(q, row, rows))
    ensures forall r :: r in Inserted(q, row, rows) <==> r == row || r in rows
  {
    if rows != [] && !Lower(q, rows[0], row) {
      var rest := Inserted(q, row, rows[1..]);
      assert rows[0] in rows && Lower(q, row, rows[0]);
      assert forall r :: r in rows <==> r == rows[0] || r in rows[1..];
      InsertedKeeps(q, row, rows[1..]);
      forall j | 0 <= j < |rest| ensures Lower(q, rest[j], rows[0]) {
        assert rest[j] in rest;
        if rest[j] != row {
          var i :| 0 <= i < |rows[1..]| && rows[1..][i] == rest[j];
          assert Lower(q, rows[i + 1], rows[0]);
        }
      }
    } else {
      assert forall j :: 0 < j < |rows| ==> Lower(q, rows[j], rows[0]);
    }
  }

  lemma {:induction false} OrderedIs<R(!new), K(!new)>(q: Sort<R, K>, rows: seq<R>)
    requires Lawful(q) && Distinct(q, rows)
    ensures Descending(q, Ordered(q, rows))
    ensures forall r :: r in Ordered(q, rows) <==> r in rows
  {
    if rows != [] {
      OrderedIs(q, rows[1..]);
      assert forall r :: r in rows <==> r == rows[0] || r in rows[1..];
      forall r | r in rows[1..] ensures q.keyOf(r) != q.keyOf(rows[0]) {
        var i :| 0 <= i < |rows[1..]| && rows[1..][i] == r;
        assert rows[i + 1] == r;
      }
      InsertedKeeps(q, rows[0], Ordered(q, rows[1..]));
    }
  }

  lemma {:induction false} BeforeIs<R(!new), K>(q: Sort<R, K>, rows: seq<R>, below: Option<K>)
    ensures forall e :: e in Before(q, rows, below) <==> e in rows && Under(q, e, below)
  {
    if rows != [] {
      BeforeIs(q, rows[1..], below);
      assert rows == [rows[0]] + rows[1..];
    }
  }

  lemma {:induction false} BeforeIsDistinct<R(!new), K>(q: Sort<R, K>, rows: seq<R>, below: Option<K>)
    requires Distinct(q, rows)
    ensures Distinct(q, Before(q, rows, below))
  {
    if rows != [] {
      BeforeIsDistinct(q, rows[1..], below);
      BeforeIs(q, rows[1..], below);
      var rest := Before(q, rows[1..], below);
      forall j | 0 <= j < |rest| ensures q.keyOf(rest[j]) != q.keyOf(rows[0]) {
        assert rest[j] in rest && rest[j] in rows[1..];
      }
    }
  }

  /** Everything under a key, sorted. */
  function Rest<R, K>(q: Sort<R, K>, rows: seq<R>, below: Option<K>): seq<R> {
    Ordered(q, Before(q, rows, below))
  }

  lemma RestIs<R(!new), K(!new)>(q: Sort<R, K>, rows: seq<R>, below: Option<K>)
    requires Lawful(q) && Distinct(q, rows)
    ensures Descending(q, Rest(q, rows, below))
    ensures forall r :: r in Rest(q, rows, below) <==> r in rows && Under(q, r, below)
  {
    BeforeIs(q, rows, below);
    BeforeIsDistinct(q, rows, below);
    OrderedIs(q, Before(q, rows, below));
  }

  lemma PageIs<R(!new), K>(q: Sort<R, K>, rows: seq<R>, below: Option<K>, limit: nat)
    requires limit > 0
    ensures var page, rest := Page(q, rows, below, limit), Rest(q, rows, below);
      && page.entries == First(rest, limit)
      && page.next == (if |rest| > limit then Some(q.keyOf(rest[limit - 1])) else None)
  {
    var rest := Rest(q, rows, below);
    assert First(First(rest, limit + 1), limit) == First(rest, limit);
  }

  // -------------------------------------------------------------------------------------
  // What a traversal owes from one key on, whatever happens to the table meanwhile.

  ghost predicate Has<R, K>(q: Sort<R, K>, rows: seq<R>, key: K) {
    exists r :: r in rows && q.keyOf(r) == key
  }

  /** A row with this key is there at every visit. */
  ghost predicate Steady<R, K>(q: Sort<R, K>, visits: seq<Visit<R>>, key: K) {
    forall i :: 0 <= i < |visits| ==> Has(q, visits[i].rows, key)
  }

  ghost predicate Read<R>(visits: seq<Visit<R>>, e: R) {
    exists i :: 0 <= i < |visits| && e in visits[i].rows
  }

  ghost predicate Tables<R, K>(q: Sort<R, K>, visits: seq<Visit<R>>) {
    Asking(visits) && forall i :: 0 <= i < |visits| ==> Distinct(q, visits[i].rows)
  }

  ghost predicate KeyUnder<R, K>(q: Sort<R, K>, key: K, below: Option<K>) {
    below.None? || q.less(key, below.value)
  }

  ghost predicate Owed<R(!new), K(!new)>(q: Sort<R, K>, below: Option<K>, visits: seq<Visit<R>>, w: Walk<R>) {
    && Descending(q, w.entries)
    && (forall e :: e in w.entries ==> Under(q, e, below) && Read(visits, e))
    && (w.finished ==> forall key :: Steady(q, visits, key) && KeyUnder(q, key, below) ==> Has(q, w.entries, key))
  }

  /** The page's rows, and nothing under `below` but lower than all of them left out of it. */
  ghost predicate Topmost<R, K>(q: Sort<R, K>, rows: seq<R>, below: Option<K>, top: seq<R>, cut: K) {
    && Descending(q, top) && top != [] && cut == q.keyOf(top[|top| - 1])
    && (forall e :: e in top ==> e in rows && Under(q, e, below))
    && (forall e :: e in rows && Under(q, e, below) ==> e in top || q.less(q.keyOf(e), cut))
  }

  lemma PageIsTopmost<R(!new), K(!new)>(q: Sort<R, K>, rows: seq<R>, below: Option<K>, limit: nat)
    requires Lawful(q) && Distinct(q, rows) && limit > 0
    ensures var page := Page(q, rows, below, limit);
      && (page.next.Some? ==> Topmost(q, rows, below, page.entries, page.next.value))
      && (page.next.None? ==>
            (Descending(q, page.entries) && forall e :: e in page.entries <==> e in rows && Under(q, e, below)))
  {
    RestIs(q, rows, below);
    PageIs(q, rows, below, limit);
    var rest := Rest(q, rows, below);
    if |rest| > limit {
      assert rest == rest[..limit] + rest[limit..];
      forall e | e in rest[limit..] ensures Lower(q, e, rest[limit - 1]) {
        var i :| 0 <= i < |rest[limit..]| && rest[limit..][i] == e;
        assert rest[limit + i] == e;
      }
    }
  }

  lemma JoinedDescend<R(!new), K(!new)>(q: Sort<R, K>, top: seq<R>, rest: seq<R>)
    requires Lawful(q) && Descending(q, top) && Descending(q, rest) && top != []
    requires forall e :: e in rest ==> Lower(q, e, top[|top| - 1])
    ensures Descending(q, top + rest)
  {
    var all := top + rest;
    forall i, j | 0 <= i < j < |all| ensures Lower(q, all[j], all[i]) {
      if i < |top| <= j {
        assert all[j] == rest[j - |top|] && rest[j - |top|] in rest;
        assert i < |top| - 1 ==> Lower(q, top[|top| - 1], top[i]);
      }
    }
  }

  lemma SteadyLater<R(!new), K>(q: Sort<R, K>, visits: seq<Visit<R>>, key: K)
    requires visits != [] && Steady(q, visits, key)
    ensures Has(q, visits[0].rows, key) && Steady(q, visits[1..], key)
  {
    forall i | 0 <= i < |visits[1..]| ensures Has(q, visits[1..][i].rows, key) {
      assert visits[1..][i] == visits[i + 1];
    }
  }

  lemma ReadLater<R(!new)>(visits: seq<Visit<R>>, e: R)
    requires visits != []
    ensures e in visits[0].rows || Read(visits[1..], e) ==> Read(visits, e)
  {
    if Read(visits[1..], e) {
      var i :| 0 <= i < |visits[1..]| && e in visits[1..][i].rows;
      assert e in visits[i + 1].rows;
    }
  }

  lemma JoinedHas<R(!new), K(!new)>(q: Sort<R, K>, below: Option<K>, visits: seq<Visit<R>>, cut: K, top: seq<R>, rest: Walk<R>, key: K)
    requires Lawful(q) && visits != [] && Topmost(q, visits[0].rows, below, top, cut)
    requires Owed(q, Some(cut), visits[1..], rest) && rest.finished
    requires Steady(q, visits, key) && KeyUnder(q, key, below)
    ensures Has(q, top + rest.entries, key)
  {
    SteadyLater(q, visits, key);
    var r :| r in visits[0].rows && q.keyOf(r) == key;
    assert Under(q, r, below);
    if r in top {
      assert r in top + rest.entries;
    } else {
      assert Has(q, rest.entries, key);
      var e :| e in rest.entries && q.keyOf(e) == key;
      assert e in top + rest.entries;
    }
  }

  lemma Joined<R(!new), K(!new)>(q: Sort<R, K>, below: Option<K>, visits: seq<Visit<R>>, cut: K, top: seq<R>, rest: Walk<R>)
    requires Lawful(q) && visits != [] && Topmost(q, visits[0].rows, below, top, cut)
    requires Owed(q, Some(cut), visits[1..], rest)
    ensures Owed(q, below, visits, Walk(top + rest.entries, rest.finished))
  {
    var all := top + rest.entries;
    assert forall e :: e in rest.entries ==> Under(q, e, Some(cut));
    JoinedDescend(q, top, rest.entries);
    assert top[|top| - 1] in top;
    forall e | e in all ensures Under(q, e, below) && Read(visits, e) {
      ReadLater(visits, e);
    }
    if rest.finished {
      forall key | Steady(q, visits, key) && KeyUnder(q, key, below) ensures Has(q, all, key) {
        JoinedHas(q, below, visits, cut, top, rest, key);
      }
    }
  }

  lemma LastPage<R(!new), K(!new)>(q: Sort<R, K>, below: Option<K>, visits: seq<Visit<R>>, entries: seq<R>)
    requires visits != [] && Descending(q, entries)
    requires forall e :: e in entries <==> e in visits[0].rows && Under(q, e, below)
    ensures Owed(q, below, visits, Walk(entries, true))
  {
    forall key | Steady(q, visits, key) && KeyUnder(q, key, below) ensures Has(q, entries, key) {
      assert Has(q, visits[0].rows, key);
      var r :| r in visits[0].rows && q.keyOf(r) == key;
      assert Under(q, r, below);
    }
  }

  /** Whatever is added, removed or changed between two pages, and however many rows each asks
      for: the rows come in strictly descending order, all of them were there when read, and a
      finished traversal has shown every row that held still. */
  lemma {:induction false} FollowOwed<R(!new), K(!new)>(q: Sort<R, K>, below: Option<K>, visits: seq<Visit<R>>)
    requires Lawful(q) && Tables(q, visits)
    ensures Owed(q, below, visits, Follow(q, below, visits))
    decreases |visits|
  {
    if visits != [] {
      var page := Page(q, visits[0].rows, below, visits[0].limit);
      PageIsTopmost(q, visits[0].rows, below, visits[0].limit);
      if page.next.Some? {
        FollowOwed(q, page.next, visits[1..]);
        Joined(q, below, visits, page.next.value, page.entries, Follow(q, page.next, visits[1..]));
      } else {
        LastPage(q, below, visits, page.entries);
      }
    }
  }

  // -------------------------------------------------------------------------------------
  // With nothing changing.

  lemma TailMembers<R(!new), K(!new)>(q: Sort<R, K>, a: seq<R>)
    requires Lawful(q) && Descending(q, a) && a != []
    ensures forall e :: e in a[1..] <==> e in a && e != a[0]
    ensures forall e :: e in a && e != a[0] ==> Lower(q, e, a[0])
  {
    assert a == [a[0]] + a[1..];
    forall e | e in a[1..] ensures Lower(q, e, a[0]) {
      var i :| 0 <= i < |a[1..]| && a[1..][i] == e;
      assert a[i + 1] == e;
    }
  }

  lemma {:induction false} SameDescending<R(!new), K(!new)>(q: Sort<R, K>, a: seq<R>, b: seq<R>)
    requires Lawful(q) && Descending(q, a) && Descending(q, b)
    requires forall e :: e in a <==> e in b
    ensures a == b
  {
    assert forall i :: 0 <= i < |a| ==> a[i] in b;
    assert forall i :: 0 <= i < |b| ==> b[i] in a;
    if a != [] {
      TailMembers(q, a);
      TailMembers(q, b);
      assert a[0] == b[0] by {
        assert a[0] in b && b[0] in a;
      }
      SameDescending(q, a[1..], b[1..]);
    }
  }

  /** Past a row of the sorted list lies the rest of the sorted list. */
  lemma RestAfter<R(!new), K(!new)>(q: Sort<R, K>, rows: seq<R>, below: Option<K>, n: nat)
    requires Lawful(q) && Distinct(q, rows) && 0 < n <= |Rest(q, rows, below)|
    ensures var rest := Rest(q, rows, below); Rest(q, rows, Some(q.keyOf(rest[n - 1]))) == rest[n..]
  {
    var rest := Rest(q, rows, below);
    var cut := q.keyOf(rest[n - 1]);
    RestIs(q, rows, below);
    RestIs(q, rows, Some(cut));
    assert rest[n - 1] in rest;
    forall e | e in rest[n..] ensures e in rows && Under(q, e, Some(cut)) {
      var i :| 0 <= i < |rest[n..]| && rest[n..][i] == e;
      assert rest[n + i] == e && Lower(q, rest[n + i], rest[n - 1]);
    }
    forall i | 0 <= i < n ensures !Lower(q, rest[i], rest[n - 1]) {
      assert i == n - 1 || Lower(q, rest[n - 1], rest[i]);
    }
    forall e | e in rows && Under(q, e, Some(cut)) ensures e in rest[n..] {
      assert e in rest;
      var i :| 0 <= i < |rest| && rest[i] == e;
      assert rest[n..][i - n] == e;
    }
    SameDescending(q, Rest(q, rows, Some(cut)), rest[n..]);
  }

  ghost predicate Still<R>(visits: seq<Visit<R>>, rows: seq<R>) {
    forall i :: 0 <= i < |visits| ==> visits[i].rows == rows
  }

  /** A walk that shows the start of a list, all of it once finished, and otherwise a row at
      least for every page. */
  ghost predicate Shows<R>(w: Walk<R>, rest: seq<R>, pages: nat) {
    && w.entries <= rest
    && (w.finished ==> w.entries == rest)
    && (!w.finished ==> pages <= |w.entries| && (if pages > 0 then |w.entries| < |rest| else w.entries == []))
  }

  lemma ShowsMore<R(!new)>(w: Walk<R>, rest: seq<R>, pages: nat, n: nat)
    requires 0 < n < |rest| && Shows(w, rest[n..], pages)
    ensures Shows(Walk(rest[..n] + w.entries, w.finished), rest, pages + 1)
  {
    assert rest == rest[..n] + rest[n..];
  }

  /** Pages laid end to end are the sorted list from its start, and all of it once finished. */
  lemma {:induction false} StillFrom<R(!new), K(!new)>(q: Sort<R, K>, rows: seq<R>, below: Option<K>, visits: seq<Visit<R>>)
    requires Lawful(q) && Distinct(q, rows) && Asking(visits) && Still(visits, rows)
    ensures Shows(Follow(q, below, visits), Rest(q, rows, below), |visits|)
    decreases |visits|
  {
    if visits != [] {
      var limit, rest := visits[0].limit, Rest(q, rows, below);
      PageIs(q, rows, below, limit);
      if |rest| > limit {
        var later := Follow(q, Some(q.keyOf(rest[limit - 1])), visits[1..]);
        RestAfter(q, rows, below, limit);
        StillFrom(q, rows, Some(q.keyOf(rest[limit - 1])), visits[1..]);
        ShowsMore(later, rest, |visits| - 1, limit);
        assert Follow(q, below, visits) == Walk(rest[..limit] + later.entries, later.finished);
      }
    }
  }

  lemma {:induction false} BeforeAll<R(!new), K>(q: Sort<R, K>, rows: seq<R>)
    ensures Before(q, rows, None) == rows
  {
    if rows != [] {
      BeforeAll(q, rows[1..]);
    }
  }

  lemma {:induction false} InsertedLength<R(!new), K>(q: Sort<R, K>, row: R, rows: seq<R>)
    ensures |Inserted(q, row, rows)| == |rows| + 1
  {
    if rows != [] {
      InsertedLength(q, row, rows[1..]);
    }
  }

  lemma {:induction false} OrderedLength<R(!new), K>(q: Sort<R, K>, rows: seq<R>)
    ensures |Ordered(q, rows)| == |rows|
  {
    if rows != [] {
      OrderedLength(q, rows[1..]);
      InsertedLength(q, rows[0], Ordered(q, rows[1..]));
    }
  }

  lemma StillTraversal<R(!new), K(!new)>(q: Sort<R, K>, rows: seq<R>, visits: seq<Visit<R>>)
    requires Lawful(q) && Distinct(q, rows) && Asking(visits) && Still(visits, rows)
    ensures var w := Follow(q, None, visits);
      && (w.finished ==> w.entries == Ordered(q, rows))
      && (|visits| > 0 && |visits| >= |rows| ==> w.finished)
  {
    StillFrom(q, rows, None, visits);
    BeforeAll(q, rows);
    OrderedLength(q, rows);
  }
}
