/** The writes of `ingest/store.py` as it makes them: rows appended to three tables, an entry at
    a time, against a snapshot of the heads taken before the first. */
module Archive {
  import opened Wrappers
  import opened RunLog
  import opened Normalise
  import opened Ingest
  import opened Shortcut

  /** Every non-empty URL some head of this feed carries. */
  function KnownUrls(t: Tables, feed: FeedId): set<string>
    requires Sound(t)
  {
    set key | key in Keys(t, feed) && CurrentOf(t, feed, key).canonicalUrl != "" :: CurrentOf(t, feed, key).canonicalUrl
  }

  /** How many entries carry an identity the feed lacks on an address one of its heads has. */
  function CountChurn(t: Tables, feed: FeedId, ps: seq<ParsedItem>): nat
    requires Sound(t)
  {
    if ps == [] then 0
    else
      var p := ps[|ps| - 1];
      CountChurn(t, feed, ps[..|ps| - 1])
      + if Lookup(t, feed, p.key).None? && p.canonicalUrl in KnownUrls(t, feed) then 1 else 0
  }

  lemma FirstOccurrencesStep(ps: seq<ParsedItem>, n: nat)
    requires n < |ps|
    ensures KeysOf(ps[..n + 1]) == if ps[n].key in KeysOf(ps[..n]) then KeysOf(ps[..n]) else KeysOf(ps[..n]) + {ps[n].key}
    ensures FirstOccurrences(ps[..n + 1])
         == FirstOccurrences(ps[..n]) + if ps[n].key in KeysOf(ps[..n]) then [] else [ps[n]]
  {
    assert ps[..n + 1][..n] == ps[..n];
    assert ps[..n + 1] == ps[..n] + [ps[n]];
  }

  /** What the loop is owed at an entry not seen before: its snapshot of that entry still holds,
      and one more entry is one more write. */
  lemma EntryStep(t: Tables, feed: FeedId, document: nat, read: seq<ParsedItem>, p: ParsedItem, at: Time)
    requires Sound(t) && document < |t.documents| && t.documents[document].feed == feed
    requires p.key !in KeysOf(read)
    ensures var firsts, found := FirstOccurrences(read), Lookup(t, feed, p.key);
      && (found.None? <==> p.key !in CurrentVersions(t, feed))
      && (found.Some? ==> found.value == CurrentVersions(t, feed)[p.key])
      && Lookup(ApplyAll(t, feed, document, firsts, at), feed, p.key) == found
      && ApplyAll(t, feed, document, firsts + [p], at) == Upsert(ApplyAll(t, feed, document, firsts, at), feed, document, p, at)
  {
    var firsts := FirstOccurrences(read);
    FirstOccurrencesKeys(read);
    ApplyAllElsewhere(t, feed, document, firsts, at, feed, p.key);
    LookupSome(t, feed, p.key);
    assert (firsts + [p])[..|firsts|] == firsts;
  }

  /** At the end: the tables are sound still, and every entry parsed was counted once. */
  lemma WholeDocument(t: Tables, feed: FeedId, document: nat, parsed: seq<ParsedItem>, at: Time)
    requires Sound(t) && document < |t.documents| && t.documents[document].feed == feed
    ensures Sound(ApplyAll(t, feed, document, FirstOccurrences(parsed), at))
    ensures var firsts := FirstOccurrences(parsed);
      CountNew(t, feed, firsts) + CountEdited(t, feed, firsts) + (|parsed| - |firsts|) + CountUnchanged(t, feed, firsts) == |parsed|
  {
    FirstOccurrencesKeys(parsed);
    ApplyAllSound(t, feed, document, FirstOccurrences(parsed), at);
    CountsAddUp(t, feed, document, FirstOccurrences(parsed), at);
  }

  /** And one more count. */
  lemma CountStep(t: Tables, feed: FeedId, firsts: seq<ParsedItem>, p: ParsedItem)
    requires Sound(t)
    ensures var found := Lookup(t, feed, p.key);
      && CountNew(t, feed, firsts + [p]) == CountNew(t, feed, firsts) + (if found.None? then 1 else 0)
      && CountEdited(t, feed, firsts + [p]) == CountEdited(t, feed, firsts)
           + (if found.Some? && found.value.hash != Fingerprint(p) then 1 else 0)
      && CountChurn(t, feed, firsts + [p]) == CountChurn(t, feed, firsts)
           + (if found.None? && p.canonicalUrl in KnownUrls(t, feed) then 1 else 0)
  {
    assert (firsts + [p])[..|firsts|] == firsts;
  }

  // -------------------------------------------------------------------------------------
  // What is counted, by the rows.

  /** The feed holds no item of this identity. */
  ghost predicate IsNew(t: Tables, feed: FeedId, p: ParsedItem) {
    forall i :: 0 <= i < |t.items| ==> t.items[i] != Item(feed, p.key)
  }

  /** A version nothing supersedes, of an item of this feed. */
  ghost predicate HeadOf(t: Tables, feed: FeedId, v: nat) {
    v < |t.versions| && (forall w :: 0 <= w < |t.versions| ==> t.versions[w].supersedes != Some(v))
    && t.versions[v].item < |t.items| && t.items[t.versions[v].item].feed == feed
  }

  /** The head it has under this identity says something else. */
  ghost predicate IsEdited(t: Tables, feed: FeedId, p: ParsedItem) {
    exists v: nat :: HeadOf(t, feed, v) && t.items[t.versions[v].item].key == p.key && t.versions[v].hash != Fingerprint(p)
  }

  /** Some head of the feed is already at this address. */
  ghost predicate IsChurn(t: Tables, feed: FeedId, p: ParsedItem) {
    IsNew(t, feed, p) && p.canonicalUrl != "" && exists v: nat :: HeadOf(t, feed, v) && t.versions[v].canonicalUrl == p.canonicalUrl
  }

  ghost function Where(ps: seq<ParsedItem>, p: ParsedItem -> bool): set<nat> {
    set i: nat | i < |ps| && p(ps[i])
  }

  lemma WhereStep(ps: seq<ParsedItem>, p: ParsedItem -> bool)
    requires ps != []
    ensures |Where(ps, p)| == |Where(ps[..|ps| - 1], p)| + if p(ps[|ps| - 1]) then 1 else 0
  {
    var n := |ps| - 1;
    if p(ps[n]) {
      assert Where(ps, p) == Where(ps[..n], p) + {n};
    } else {
      assert Where(ps, p) == Where(ps[..n], p);
    }
  }

  lemma HeadIsFound(t: Tables, feed: FeedId, v: nat)
    requires Sound(t) && HeadOf(t, feed, v)
    ensures Lookup(t, feed, t.items[t.versions[v].item].key)
         == Some(Current(t.versions[v].item, v, t.versions[v].hash, t.versions[v].canonicalUrl))
  {
    HeadIsNewest(t.versions, v);
    var i := t.versions[v].item;
    var found := FindItem(t.items, feed, t.items[i].key);
    assert found.Some? && t.items[found.value] == t.items[i];
  }

  lemma FoundIsHead(t: Tables, feed: FeedId, key: string)
    requires Sound(t) && Lookup(t, feed, key).Some?
    ensures var found := Lookup(t, feed, key).value;
      HeadOf(t, feed, found.version) && t.items[t.versions[found.version].item] == Item(feed, key)
      && found.hash == t.versions[found.version].hash && found.canonicalUrl == t.versions[found.version].canonicalUrl
  {
    LookupSome(t, feed, key);
  }

  lemma NewIs(t: Tables, feed: FeedId, p: ParsedItem)
    requires Sound(t)
    ensures Lookup(t, feed, p.key).None? <==> IsNew(t, feed, p)
  {
    if Lookup(t, feed, p.key).Some? { FoundIsHead(t, feed, p.key); }
    var item := FindItem(t.items, feed, p.key);
    if item.Some? { assert HasVersion(t, item.value); }
  }

  lemma EditedIs(t: Tables, feed: FeedId, p: ParsedItem)
    requires Sound(t)
    ensures Lookup(t, feed, p.key).Some? && !AtHead(t, feed, p) <==> IsEdited(t, feed, p)
  {
    if Lookup(t, feed, p.key).Some? { FoundIsHead(t, feed, p.key); }
    if v: nat :| HeadOf(t, feed, v) && t.items[t.versions[v].item].key == p.key && t.versions[v].hash != Fingerprint(p) {
      HeadIsFound(t, feed, v);
    }
  }

  lemma KnownIs(t: Tables, feed: FeedId, url: string)
    requires Sound(t)
    ensures url in KnownUrls(t, feed) <==> url != "" && exists v: nat :: HeadOf(t, feed, v) && t.versions[v].canonicalUrl == url
  {
    if url in KnownUrls(t, feed) {
      var key :| key in Keys(t, feed) && CurrentOf(t, feed, key).canonicalUrl == url && url != "";
      LookupSome(t, feed, key);
      FoundIsHead(t, feed, key);
    }
    if url != "" {
      if v: nat :| HeadOf(t, feed, v) && t.versions[v].canonicalUrl == url {
        var key := t.items[t.versions[v].item].key;
        HeadIsFound(t, feed, v);
        LookupSome(t, feed, key);
        assert CurrentOf(t, feed, key).canonicalUrl == url;
      }
    }
  }

  /** What a document is counted as adding: the entries of identities the feed has no item of, those
      whose head says something else, and the new ones at an address some head of it has. */
  lemma {:induction false} CountsAreRows(t: Tables, feed: FeedId, ps: seq<ParsedItem>)
    requires Sound(t)
    ensures CountNew(t, feed, ps) == |set i: nat | i < |ps| && IsNew(t, feed, ps[i])|
    ensures CountEdited(t, feed, ps) == |set i: nat | i < |ps| && IsEdited(t, feed, ps[i])|
    ensures CountChurn(t, feed, ps) == |set i: nat | i < |ps| && IsChurn(t, feed, ps[i])|
  {
    CountsAreWhere(t, feed, ps, p => IsNew(t, feed, p), p => IsEdited(t, feed, p), p => IsChurn(t, feed, p));
    assert (set i: nat | i < |ps| && IsNew(t, feed, ps[i])) == Where(ps, p => IsNew(t, feed, p));
    assert (set i: nat | i < |ps| && IsEdited(t, feed, ps[i])) == Where(ps, p => IsEdited(t, feed, p));
    assert (set i: nat | i < |ps| && IsChurn(t, feed, ps[i])) == Where(ps, p => IsChurn(t, feed, p));
  }

  lemma {:induction false} CountsAreWhere(t: Tables, feed: FeedId, ps: seq<ParsedItem>,
      new_: ParsedItem -> bool, edited: ParsedItem -> bool, churn: ParsedItem -> bool)
    requires Sound(t)
    requires forall p :: new_(p) == IsNew(t, feed, p) && edited(p) == IsEdited(t, feed, p) && churn(p) == IsChurn(t, feed, p)
    ensures CountNew(t, feed, ps) == |Where(ps, new_)| && CountEdited(t, feed, ps) == |Where(ps, edited)|
    ensures CountChurn(t, feed, ps) == |Where(ps, churn)|
  {
    if ps != [] {
      var p := ps[|ps| - 1];
      CountsAreWhere(t, feed, ps[..|ps| - 1], new_, edited, churn);
      WhereStep(ps, new_);
      WhereStep(ps, edited);
      WhereStep(ps, churn);
      NewIs(t, feed, p);
      EditedIs(t, feed, p);
      KnownIs(t, feed, p.canonicalUrl);
    }
  }

  class Store {
    var documents: seq<Document>
    var items: seq<Item>
    var versions: seq<Version>

    ghost function State(): Tables reads this {
      Tables(documents, items, versions)
    }

    constructor ()
      ensures State() == Tables([], [], [])
    {
      documents, items, versions := [], [], [];
    }

    /** Appends a document exactly when the feed's last one holds other bytes, and answers with its id. */
    method RecordDocument(feed: FeedId, r: Response) returns (document: Option<nat>)
      modifies this`documents
      ensures document.None? <==> Unchanged(old(State()), feed, r.body)
      ensures document.None? ==> State() == old(State())
      ensures document.Some? ==> document.value == |old(documents)| && State() == Recorded(old(State()), feed, r)
    {
      var hash := Sha256(r.body);
      var previous := PreviousDocument(documents, feed);
      if previous.Some? && documents[previous.value].bodyHash == hash {
        return None;
      }
      document := Some(|documents|);
      documents := documents + [Document(feed, r.url, hash)];
    }

    /** The rows one entry adds: an item and its first version, a version over the head it was
        found under, or none when the head already says as much. */
    method WriteEntry(feed: FeedId, document: nat, p: ParsedItem, found: Option<Current>, observedAt: Time)
      requires found == Lookup(State(), feed, p.key)
      modifies this`items, this`versions
      ensures State() == Upsert(old(State()), feed, document, p, observedAt)
    {
      if found.None? {
        versions := versions + [NewVersion(p, |items|, document, observedAt, None)];
        items := items + [Item(feed, p.key)];
      } else if found.value.hash != Fingerprint(p) {
        versions := versions + [NewVersion(p, found.value.item, document, observedAt, Some(found.value.version))];
      }
    }

    /** The snapshot-and-seen loop writes what looking every first occurrence up afresh would. */
    method ApplyItems(feed: FeedId, document: nat, parsed: seq<ParsedItem>, observedAt: Time) returns (applied: Applied)
      requires Sound(State()) && document < |documents| && documents[document].feed == feed
      modifies this`items, this`versions
      ensures State() == ApplyAll(old(State()), feed, document, FirstOccurrences(parsed), observedAt)
      ensures applied == Applied(CountNew(old(State()), feed, FirstOccurrences(parsed)),
                                 CountEdited(old(State()), feed, FirstOccurrences(parsed)),
                                 CountChurn(old(State()), feed, FirstOccurrences(parsed)),
                                 |parsed| - |FirstOccurrences(parsed)|)
      ensures applied.newItems + applied.newVersions + applied.duplicateIdentity
            + CountUnchanged(old(State()), feed, FirstOccurrences(parsed)) == |parsed|
      ensures Sound(State())
    {
      ghost var t := State();
      var existing := CurrentVersions(Tables(documents, items, versions), feed);
      var knownUrls := KnownUrls(Tables(documents, items, versions), feed);
      var newItems, newVersions, churn, duplicates := 0, 0, 0, 0;
      var seen: set<string> := {};
      ghost var firsts: seq<ParsedItem> := [];
      assert parsed[..0] == [];

      for n := 0 to |parsed|
        invariant firsts == FirstOccurrences(parsed[..n])
        invariant seen == KeysOf(parsed[..n])
        invariant documents == t.documents
        invariant State() == ApplyAll(t, feed, document, firsts, observedAt)
        invariant newItems == CountNew(t, feed, firsts) && newVersions == CountEdited(t, feed, firsts)
        invariant churn == CountChurn(t, feed, firsts) && duplicates == n - |firsts|
      {
        var p := parsed[n];
        FirstOccurrencesStep(parsed, n);
        if p.key in seen {
          duplicates := duplicates + 1;
          continue;
        }
        EntryStep(t, feed, document, parsed[..n], p, observedAt);
        CountStep(t, feed, firsts, p);
        seen := seen + {p.key};
        var found := if p.key in existing then Some(existing[p.key]) else None;
        if found.None? && p.canonicalUrl != "" && p.canonicalUrl in knownUrls {
          churn := churn + 1;
        }
        if found.None? {
          newItems := newItems + 1;
        } else if found.value.hash != Fingerprint(p) {
          newVersions := newVersions + 1;
        }
        WriteEntry(feed, document, p, found, observedAt);
        firsts := firsts + [p];
      }
      assert parsed[..|parsed|] == parsed;
      WholeDocument(t, feed, document, parsed, observedAt);
      applied := Applied(newItems, newVersions, churn, duplicates);
    }

    /** `_store_poll` as far as these tables go: what `Shortcut.StorePoll` makes of them, skipping. */
    method StorePoll(feed: FeedId, r: Response, parse: Parse, now: Time) returns (applied: Applied)
      requires Sound(State())
      modifies this
      ensures Sound(State())
      ensures State() == Shortcut.StorePoll(old(State()), feed, r, parse, now, true).tables
      ensures applied.newItems == Shortcut.StorePoll(old(State()), feed, r, parse, now, true).newItems
    {
      RecordedSound(State(), feed, r);
      var document := RecordDocument(feed, r);
      applied := Applied(0, 0, 0, 0);
      if document.Some? {
        applied := ApplyItems(feed, document.value, parse(r.body, r.url), now);
      }
    }
  }
}
