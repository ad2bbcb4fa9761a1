/** Runs of polls, and the shortcut every one of them takes: a body that has not changed is not
    applied again. `ingest/store.py` and `_store_poll` of `ingest/service.py`. */
module Shortcut {
  import opened Wrappers
  import opened RunLog
  import opened Normalise
  import opened Ingest

  /** The entry is what its identity's head version says. */
  predicate AtHead(t: Tables, feed: FeedId, p: ParsedItem) {
    var found := Lookup(t, feed, p.key);
    found.Some? && found.value.hash == Fingerprint(p)
  }

  predicate AllAtHead(t: Tables, feed: FeedId, ps: seq<ParsedItem>) {
    forall i :: 0 <= i < |ps| ==> AtHead(t, feed, ps[i])
  }

  ghost predicate Distinct(ps: seq<ParsedItem>) {
    forall i, j :: 0 <= i < j < |ps| ==> ps[i].key != ps[j].key
  }

  /** What `apply_items` counted, entry by entry against the tables it started from. */
  function CountNew(t: Tables, feed: FeedId, ps: seq<ParsedItem>): nat {
    if ps == [] then 0
    else CountNew(t, feed, ps[..|ps| - 1]) + if Lookup(t, feed, ps[|ps| - 1].key).None? then 1 else 0
  }

  function CountEdited(t: Tables, feed: FeedId, ps: seq<ParsedItem>): nat {
    if ps == [] then 0
    else
      var p := ps[|ps| - 1];
      CountEdited(t, feed, ps[..|ps| - 1])
      + if Lookup(t, feed, p.key).Some? && !AtHead(t, feed, p) then 1 else 0
  }

  function CountUnchanged(t: Tables, feed: FeedId, ps: seq<ParsedItem>): nat {
    if ps == [] then 0
    else CountUnchanged(t, feed, ps[..|ps| - 1]) + if AtHead(t, feed, ps[|ps| - 1]) then 1 else 0
  }

  // -------------------------------------------------------------------------------------
  // A whole document.

  lemma {:induction false} ApplyAllSound(t: Tables, feed: FeedId, document: nat, ps: seq<ParsedItem>, at: Time)
    requires Sound(t) && document < |t.documents| && t.documents[document].feed == feed
    ensures var u := ApplyAll(t, feed, document, ps, at); Sound(u) && u.documents == t.documents
  {
    if ps != [] {
      ApplyAllSound(t, feed, document, ps[..|ps| - 1], at);
      UpsertSound(ApplyAll(t, feed, document, ps[..|ps| - 1], at), feed, document, ps[|ps| - 1], at);
    }
  }

  lemma {:induction false} ApplyAllElsewhere(t: Tables, feed: FeedId, document: nat, ps: seq<ParsedItem>, at: Time,
                                             other: FeedId, key: string)
    requires Sound(t) && document < |t.documents| && t.documents[document].feed == feed
    requires other != feed || key !in KeysOf(ps)
    ensures Lookup(ApplyAll(t, feed, document, ps, at), other, key) == Lookup(t, other, key)
  {
    if ps != [] {
      var init, p := ps[..|ps| - 1], ps[|ps| - 1];
      assert ps == init + [p] && KeysOf(init) <= KeysOf(ps) && p.key in KeysOf(ps);
      ApplyAllElsewhere(t, feed, document, init, at, other, key);
      ApplyAllSound(t, feed, document, init, at);
      UpsertElsewhere(ApplyAll(t, feed, document, init, at), feed, document, p, at, other, key);
    }
  }

  lemma DistinctInit(ps: seq<ParsedItem>)
    requires ps != [] && Distinct(ps)
    ensures Distinct(ps[..|ps| - 1]) && ps[|ps| - 1].key !in KeysOf(ps[..|ps| - 1])
  {
  }

  lemma OneMoreAtHead(t: Tables, feed: FeedId, document: nat, init: seq<ParsedItem>, p: ParsedItem, at: Time)
    requires Sound(t) && AllAtHead(t, feed, init) && p.key !in KeysOf(init)
    ensures AllAtHead(Upsert(t, feed, document, p, at), feed, init + [p])
  {
    var u := Upsert(t, feed, document, p, at);
    UpsertCurrent(t, feed, document, p, at);
    forall i | 0 <= i < |init| ensures AtHead(u, feed, init[i]) {
      assert AtHead(t, feed, init[i]) && init[i].key in KeysOf(init);
      UpsertElsewhere(t, feed, document, p, at, feed, init[i].key);
    }
  }

  /** Once a document has been applied, every entry of it is at its head. */
  lemma {:induction false} ApplyAllAtHead(t: Tables, feed: FeedId, document: nat, ps: seq<ParsedItem>, at: Time)
    requires Sound(t) && document < |t.documents| && t.documents[document].feed == feed
    requires Distinct(ps)
    ensures AllAtHead(ApplyAll(t, feed, document, ps, at), feed, ps)
  {
    if ps != [] {
      var init, p := ps[..|ps| - 1], ps[|ps| - 1];
      assert ps == init + [p];
      DistinctInit(ps);
      ApplyAllAtHead(t, feed, document, init, at);
      ApplyAllSound(t, feed, document, init, at);
      OneMoreAtHead(ApplyAll(t, feed, document, init, at), feed, document, init, p, at);
    }
  }

  /** Applying what is already at its heads writes nothing, and nothing else writes nothing. */
  lemma {:induction false} ApplyAllIdle(t: Tables, feed: FeedId, document: nat, ps: seq<ParsedItem>, at: Time)
    requires Sound(t) && document < |t.documents| && t.documents[document].feed == feed
    requires Distinct(ps)
    ensures ApplyAll(t, feed, document, ps, at) == t <==> AllAtHead(t, feed, ps)
  {
    ApplyAllAtHead(t, feed, document, ps, at);
    if AllAtHead(t, feed, ps) && ps != [] {
      DistinctInit(ps);
      ApplyAllIdle(t, feed, document, ps[..|ps| - 1], at);
      assert AtHead(t, feed, ps[|ps| - 1]);
    }
  }

  /** New, edited and unchanged entries are all there are, and the first two are exactly the
      rows written. */
  lemma {:induction false} CountsAddUp(t: Tables, feed: FeedId, document: nat, ps: seq<ParsedItem>, at: Time)
    requires Sound(t) && document < |t.documents| && t.documents[document].feed == feed
    requires Distinct(ps)
    ensures CountNew(t, feed, ps) + CountEdited(t, feed, ps) + CountUnchanged(t, feed, ps) == |ps|
    ensures var u := ApplyAll(t, feed, document, ps, at);
      && |u.items| == |t.items| + CountNew(t, feed, ps)
      && |u.versions| == |t.versions| + CountNew(t, feed, ps) + CountEdited(t, feed, ps)
  {
    if ps != [] {
      var n := |ps| - 1;
      DistinctInit(ps);
      CountsAddUp(t, feed, document, ps[..n], at);
      ApplyAllElsewhere(t, feed, document, ps[..n], at, feed, ps[n].key);
    }
  }

  // -------------------------------------------------------------------------------------
  // One poll, with the shortcut and without it.

  datatype Polled = Polled(tables: Tables, newItems: nat)

  predicate Unchanged(t: Tables, feed: FeedId, body: seq<byte>) {
    var previous := PreviousDocument(t.documents, feed);
    previous.Some? && t.documents[previous.value].bodyHash == Sha256(body)
  }

  function Recorded(t: Tables, feed: FeedId, r: Response): Tables {
    t.(documents := t.documents + [Document(feed, r.url, Sha256(r.body))])
  }

  /** The tables after a poll and how many items it added. With `skip`, nothing is applied when the
      body is the one stored last; without it the last stored document is applied again. */
  function StorePoll(t: Tables, feed: FeedId, r: Response, parse: Parse, at: Time, skip: bool): (p: Polled)
  {
    var items := FirstOccurrences(parse(r.body, r.url));
    if !Unchanged(t, feed, r.body) then
      var u := Recorded(t, feed, r);
      Polled(ApplyAll(u, feed, |t.documents|, items, at), CountNew(u, feed, items))
    else if skip then Polled(t, 0)
    else
      Polled(ApplyAll(t, feed, PreviousDocument(t.documents, feed).value, items, at), CountNew(t, feed, items))
  }

  lemma RecordedSound(t: Tables, feed: FeedId, r: Response)
    requires Sound(t)
    ensures Sound(Recorded(t, feed, r))
  {
    var u := Recorded(t, feed, r);
    assert forall v :: 0 <= v < |t.versions| ==> u.documents[t.versions[v].document] == t.documents[t.versions[v].document];
    assert forall i :: 0 <= i < |t.items| ==> HasVersion(t, i) && HasVersion(u, i);
  }

  lemma StorePollSound(t: Tables, feed: FeedId, r: Response, parse: Parse, at: Time, skip: bool)
    requires Sound(t)
    ensures Sound(StorePoll(t, feed, r, parse, at, skip).tables)
  {
    var items := FirstOccurrences(parse(r.body, r.url));
    if !Unchanged(t, feed, r.body) {
      RecordedSound(t, feed, r);
      ApplyAllSound(Recorded(t, feed, r), feed, |t.documents|, items, at);
    } else if !skip {
      ApplyAllSound(t, feed, PreviousDocument(t.documents, feed).value, items, at);
    }
  }

  lemma {:induction false} NothingNew(t: Tables, feed: FeedId, ps: seq<ParsedItem>)
    requires AllAtHead(t, feed, ps)
    ensures CountNew(t, feed, ps) == 0
  {
    if ps != [] {
      NothingNew(t, feed, ps[..|ps| - 1]);
      assert AtHead(t, feed, ps[|ps| - 1]);
    }
  }

  /** On any sound tables the shortcut shows exactly when the body is unchanged and some entry
      of it is not at its head: it hides that entry. */
  lemma ShortcutShows(t: Tables, feed: FeedId, r: Response, parse: Parse, at: Time)
    requires Sound(t)
    ensures StorePoll(t, feed, r, parse, at, true) == StorePoll(t, feed, r, parse, at, false)
       <==> (Unchanged(t, feed, r.body) ==> AllAtHead(t, feed, FirstOccurrences(parse(r.body, r.url))))
  {
    var items := FirstOccurrences(parse(r.body, r.url));
    FirstOccurrencesKeys(parse(r.body, r.url));
    if Unchanged(t, feed, r.body) {
      ApplyAllIdle(t, feed, PreviousDocument(t.documents, feed).value, items, at);
      if AllAtHead(t, feed, items) {
        NothingNew(t, feed, items);
      }
    }
  }

  // -------------------------------------------------------------------------------------
  // Every run.

  /** One poll of a run: whose, what was served, and when. */
  datatype Poll = Poll(feed: FeedId, response: Response, at: Time)

  datatype Ran = Ran(tables: Tables, newItems: seq<nat>)

  function Run(t: Tables, polls: seq<Poll>, parse: Parse, skip: bool): Ran {
    if polls == [] then Ran(t, [])
    else
      var before := Run(t, polls[..|polls| - 1], parse, skip);
      var poll := polls[|polls| - 1];
      var polled := StorePoll(before.tables, poll.feed, poll.response, parse, poll.at, skip);
      Ran(polled.tables, before.newItems + [polled.newItems])
  }

  ghost predicate ServedFrom(polls: seq<Poll>, served: FeedId -> Url) {
    forall i :: 0 <= i < |polls| ==> polls[i].response.url == served(polls[i].feed)
  }

  /** Every first occurrence in the last document stored for a feed is at its head. */
  ghost predicate Settled(t: Tables, parse: Parse, served: FeedId -> Url) {
    && Sound(t)
    && (forall feed :: PreviousDocument(t.documents, feed).Some? ==> SettledFeed(t, parse, served, feed))
  }

  ghost predicate SettledFeed(t: Tables, parse: Parse, served: FeedId -> Url, feed: FeedId)
    requires PreviousDocument(t.documents, feed).Some?
  {
    var last := t.documents[PreviousDocument(t.documents, feed).value];
    AllAtHead(t, feed, FirstOccurrences(parse(last.bodyHash.of, served(feed))))
  }

  lemma StorePollSettled(t: Tables, poll: Poll, parse: Parse, served: FeedId -> Url, skip: bool)
    requires Settled(t, parse, served) && poll.response.url == served(poll.feed)
    ensures Settled(StorePoll(t, poll.feed, poll.response, parse, poll.at, skip).tables, parse, served)
  {
    var feed, r := poll.feed, poll.response;
    var items := FirstOccurrences(parse(r.body, r.url));
    var after := StorePoll(t, feed, r, parse, poll.at, skip).tables;
    StorePollSound(t, feed, r, parse, poll.at, skip);
    FirstOccurrencesKeys(parse(r.body, r.url));
    if Unchanged(t, feed, r.body) {
      assert SettledFeed(t, parse, served, feed);
      ApplyAllIdle(t, feed, PreviousDocument(t.documents, feed).value, items, poll.at);
      assert after == t;
    } else {
      var u := Recorded(t, feed, r);
      RecordedSound(t, feed, r);
      ApplyAllSound(u, feed, |t.documents|, items, poll.at);
      ApplyAllAtHead(u, feed, |t.documents|, items, poll.at);
      assert after.documents[..|t.documents|] == t.documents;
      forall other | PreviousDocument(after.documents, other).Some? ensures SettledFeed(after, parse, served, other) {
        if other != feed {
          assert PreviousDocument(after.documents, other) == PreviousDocument(t.documents, other);
          assert SettledFeed(t, parse, served, other);
          var last := FirstOccurrences(parse(t.documents[PreviousDocument(t.documents, other).value].bodyHash.of, served(other)));
          forall i | 0 <= i < |last| ensures AtHead(after, other, last[i]) {
            assert AtHead(t, other, last[i]);
            ApplyAllElsewhere(u, feed, |t.documents|, items, poll.at, other, last[i].key);
          }
        }
      }
    }
  }

  /** Over every run of polls of any feeds, as long as each feed is served from one URL, skipping
      unchanged bodies leaves the same documents, items and versions as applying every body, and
      gives the schedule the same counts to move by. */
  lemma {:induction false} ShortcutIsInvisible(t: Tables, polls: seq<Poll>, parse: Parse, served: FeedId -> Url)
    requires Settled(t, parse, served) && ServedFrom(polls, served)
    ensures Run(t, polls, parse, true) == Run(t, polls, parse, false)
    ensures Settled(Run(t, polls, parse, true).tables, parse, served)
  {
    if polls != [] {
      var init, poll := polls[..|polls| - 1], polls[|polls| - 1];
      ShortcutIsInvisible(t, init, parse, served);
      var before := Run(t, init, parse, true).tables;
      if Unchanged(before, poll.feed, poll.response.body) {
        assert SettledFeed(before, parse, served, poll.feed);
      }
      ShortcutShows(before, poll.feed, poll.response, parse, poll.at);
      StorePollSettled(before, poll, parse, served, true);
    }
  }

  lemma NothingStored(parse: Parse, served: FeedId -> Url)
    ensures Settled(Tables([], [], []), parse, served)
  {
  }

  /** So no archive that began empty can tell whether its polls skipped. */
  lemma ShortcutNeverShows(polls: seq<Poll>, parse: Parse, served: FeedId -> Url)
    requires ServedFrom(polls, served)
    ensures Run(Tables([], [], []), polls, parse, true) == Run(Tables([], [], []), polls, parse, false)
  {
    NothingStored(parse, served);
    ShortcutIsInvisible(Tables([], [], []), polls, parse, served);
  }

  /** From the empty archive, every run of polls, whatever was served from wherever, keeps one
      item per identity and one unbranched chain with one head per item. */
  lemma {:induction false} EveryRunIsSound(polls: seq<Poll>, parse: Parse, skip: bool)
    ensures Sound(Run(Tables([], [], []), polls, parse, skip).tables)
  {
    if polls != [] {
      var init, poll := polls[..|polls| - 1], polls[|polls| - 1];
      EveryRunIsSound(init, parse, skip);
      StorePollSound(Run(Tables([], [], []), init, parse, skip).tables, poll.feed, poll.response, parse, poll.at, skip);
    }
  }

  /** No version was published after it was observed. */
  ghost predicate NeverAhead(versions: seq<Version>) {
    forall v :: 0 <= v < |versions| && versions[v].publishedAt.Some? ==> versions[v].publishedAt.value <= versions[v].observedAt
  }

  lemma {:induction false} ApplyAllNeverAhead(t: Tables, feed: FeedId, document: nat, ps: seq<ParsedItem>, at: Time)
    requires NeverAhead(t.versions)
    ensures NeverAhead(ApplyAll(t, feed, document, ps, at).versions)
  {
    if ps != [] {
      ApplyAllNeverAhead(t, feed, document, ps[..|ps| - 1], at);
    }
  }

  /** Whatever dates publishers give, no run of polls stores one from the future. */
  lemma {:induction false} EveryRunIsNeverAhead(polls: seq<Poll>, parse: Parse, skip: bool)
    ensures NeverAhead(Run(Tables([], [], []), polls, parse, skip).tables.versions)
  {
    if polls != [] {
      var init, poll := polls[..|polls| - 1], polls[|polls| - 1];
      var before := Run(Tables([], [], []), init, parse, skip).tables;
      var items := FirstOccurrences(parse(poll.response.body, poll.response.url));
      EveryRunIsNeverAhead(init, parse, skip);
      var u := Recorded(before, poll.feed, poll.response);
      ApplyAllNeverAhead(u, poll.feed, |before.documents|, items, poll.at);
      if PreviousDocument(before.documents, poll.feed).Some? {
        ApplyAllNeverAhead(before, poll.feed, PreviousDocument(before.documents, poll.feed).value, items, poll.at);
      }
    }
  }

  /** The version says what an entry said when it was polled: everything fingerprinted, its link,
      and its date unless that was still to come. */
  ghost predicate Says(v: Version, p: ParsedItem, at: Time) {
    && v.hash == ContentFingerprint(p.fields) && v.canonicalUrl == p.canonicalUrl && v.observedAt == at
    && (p.publishedAt.None? ==> v.publishedAt.None?)
    && (p.publishedAt.Some? && p.publishedAt.value <= at ==> v.publishedAt == p.publishedAt)
    && (p.publishedAt.Some? && p.publishedAt.value > at ==> v.publishedAt == Some(at))
  }

  /** It is under its own identity, as one of these entries. */
  ghost predicate SaidBy(t: Tables, v: nat, feed: FeedId, ps: seq<ParsedItem>, at: Time)
    requires v < |t.versions|
  {
    exists p :: p in ps && Says(t.versions[v], p, at)
      && t.versions[v].item < |t.items| && t.items[t.versions[v].item] == Item(feed, p.key)
  }

  ghost predicate Extends(t: Tables, u: Tables) {
    && |t.items| <= |u.items| && u.items[..|t.items|] == t.items
    && |t.versions| <= |u.versions| && u.versions[..|t.versions|] == t.versions
  }

  lemma SaidStill(t: Tables, u: Tables, v: nat, feed: FeedId, ps: seq<ParsedItem>, qs: seq<ParsedItem>, at: Time)
    requires Extends(t, u) && v < |t.versions| && SaidBy(t, v, feed, ps, at) && forall p :: p in ps ==> p in qs
    ensures SaidBy(u, v, feed, qs, at)
  {
    var p :| p in ps && Says(t.versions[v], p, at)
      && t.versions[v].item < |t.items| && t.items[t.versions[v].item] == Item(feed, p.key);
    assert u.versions[v] == u.versions[..|t.versions|][v];
    assert u.items[t.versions[v].item] == u.items[..|t.items|][t.versions[v].item];
  }

  lemma UpsertSays(t: Tables, feed: FeedId, document: nat, p: ParsedItem, at: Time)
    ensures var u := Upsert(t, feed, document, p, at);
      && Extends(t, u) && |u.versions| <= |t.versions| + 1
      && (|u.versions| > |t.versions| ==> SaidBy(u, |t.versions|, feed, [p], at))
  {
    var u := Upsert(t, feed, document, p, at);
    if |u.versions| > |t.versions| {
      assert p in [p] && Says(u.versions[|t.versions|], p, at);
    }
  }

  lemma {:induction false} ApplyAllSays(t: Tables, feed: FeedId, document: nat, ps: seq<ParsedItem>, at: Time)
    ensures AllSaid(t, ApplyAll(t, feed, document, ps, at), feed, ps, at)
  {
    if ps != [] {
      var init, p := ps[..|ps| - 1], ps[|ps| - 1];
      var u := ApplyAll(t, feed, document, init, at);
      ApplyAllSays(t, feed, document, init, at);
      UpsertSays(u, feed, document, p, at);
      SaysStep(t, u, Upsert(u, feed, document, p, at), feed, init, p, at);
      assert ps == init + [p];
    }
  }

  /** Everything added is said by these entries. */
  ghost predicate AllSaid(t: Tables, u: Tables, feed: FeedId, ps: seq<ParsedItem>, at: Time) {
    Extends(t, u) && forall v :: |t.versions| <= v < |u.versions| ==> SaidBy(u, v, feed, ps, at)
  }

  lemma SaysStep(t: Tables, u: Tables, w: Tables, feed: FeedId, init: seq<ParsedItem>, p: ParsedItem, at: Time)
    requires AllSaid(t, u, feed, init, at)
    requires Extends(u, w) && |w.versions| <= |u.versions| + 1
    requires |w.versions| > |u.versions| ==> SaidBy(w, |u.versions|, feed, [p], at)
    ensures AllSaid(t, w, feed, init + [p], at)
  {
    assert w.items[..|t.items|] == u.items[..|t.items|] && w.versions[..|t.versions|] == u.versions[..|t.versions|];
    forall v | |t.versions| <= v < |w.versions| ensures SaidBy(w, v, feed, init + [p], at) {
      if v < |u.versions| { SaidStill(u, w, v, feed, init, init + [p], at); }
      else { SaidStill(w, w, v, feed, [p], init + [p], at); }
    }
  }

  lemma StorePollSays(t: Tables, poll: Poll, parse: Parse, skip: bool)
    ensures var u := StorePoll(t, poll.feed, poll.response, parse, poll.at, skip).tables;
      AllSaid(t, u, poll.feed, FirstOccurrences(parse(poll.response.body, poll.response.url)), poll.at)
  {
    var items := FirstOccurrences(parse(poll.response.body, poll.response.url));
    if !Unchanged(t, poll.feed, poll.response.body) {
      ApplyAllSays(Recorded(t, poll.feed, poll.response), poll.feed, |t.documents|, items, poll.at);
    } else if !skip {
      ApplyAllSays(t, poll.feed, PreviousDocument(t.documents, poll.feed).value, items, poll.at);
    }
  }

  /** Every version any run of polls stores is what some poll of its feed found: an entry of that
      identity, the first of it in what was served, dated as the publisher dated it or, if that
      was ahead, as we found it. */
  lemma {:induction false} EveryVersionIsFound(polls: seq<Poll>, parse: Parse, skip: bool, v: nat)
    requires v < |Run(Tables([], [], []), polls, parse, skip).tables.versions|
    ensures var t := Run(Tables([], [], []), polls, parse, skip).tables;
      exists k :: 0 <= k < |polls| && SaidBy(t, v, polls[k].feed,
        FirstOccurrences(parse(polls[k].response.body, polls[k].response.url)), polls[k].at)
  {
    if polls != [] {
      var init, poll := polls[..|polls| - 1], polls[|polls| - 1];
      var t, u := Run(Tables([], [], []), init, parse, skip).tables, Run(Tables([], [], []), polls, parse, skip).tables;
      StorePollSays(t, poll, parse, skip);
      if v < |t.versions| {
        EveryVersionIsFound(init, parse, skip, v);
        var k :| 0 <= k < |init| && SaidBy(t, v, init[k].feed,
          FirstOccurrences(parse(init[k].response.body, init[k].response.url)), init[k].at);
        var items := FirstOccurrences(parse(polls[k].response.body, polls[k].response.url));
        SaidStill(t, u, v, polls[k].feed, items, items, polls[k].at);
      }
    }
  }

  /** A feed that redirects elsewhere under the same bytes is where the shortcut shows: links
      resolved against the new address are entries it never applies. */
  lemma RedirectIsHidden(a: Url, b: Url, body: seq<byte>)
    requires a != b
    ensures var polls := [Poll(0, Response(body, a), 0.0), Poll(0, Response(body, b), 1.0)];
      var empty := Tables([], [], []);
      |Run(empty, polls, LinkOnly, true).tables.items| == 1 && |Run(empty, polls, LinkOnly, false).tables.items| == 2
  {
    var one, two := Poll(0, Response(body, a), 0.0), Poll(0, Response(body, b), 1.0);
    var empty := Tables([], [], []);
    assert [one, two][..1] == [one] && [one][..0] == [];
    AppliedOne(Recorded(empty, 0, one.response), 0, a, 0.0);
    var once := StorePoll(empty, 0, one.response, LinkOnly, 0.0, true).tables;
    assert once.items == [Item(0, a)] && once.documents == [Document(0, a, Sha256(body))];
    assert PreviousDocument(once.documents, 0) == Some(0);
    AppliedOne(once, 0, b, 1.0);
    assert once.items[..0] == [];
    assert FindItem(once.items, 0, b).None?;
    forall skip: bool ensures Run(empty, [one], LinkOnly, skip).tables == once {
      assert Run(empty, [], LinkOnly, skip).tables == empty;
    }
  }

  /** A document with one entry, whose link is relative to wherever it was served from. */
  function LinkOnly(body: seq<byte>, url: Url): seq<ParsedItem> {
    [ParsedItem(url, url, [url], None)]
  }

  lemma AppliedOne(t: Tables, document: nat, url: Url, at: Time)
    ensures var ps := LinkOnly([], url);
      FirstOccurrences(ps) == ps && ApplyAll(t, 0, document, ps, at) == Upsert(t, 0, document, ps[0], at)
  {
    var ps := LinkOnly([], url);
    assert ps[..0] == [];
    assert FirstOccurrences(ps) == FirstOccurrences([]) + ps;
    assert ApplyAll(t, 0, document, [], at) == t;
  }
}
