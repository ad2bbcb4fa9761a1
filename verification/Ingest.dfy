/** `ingest/store.py`: the document log, and the items and version chains a poll writes. */
module Ingest {
  import opened Wrappers
  import opened RunLog
  import opened Normalise

  type FeedId = nat
  type Url = string

  /** An entry as parsed. `fields` are the ten strings `fingerprint_of` digests, in order. */
  datatype ParsedItem = ParsedItem(key: string, canonicalUrl: string, fields: seq<string>, publishedAt: Option<Time>)

  type Parse = (seq<byte>, Url) -> seq<ParsedItem>

  datatype Document = Document(feed: FeedId, url: Url, bodyHash: Digest)

  datatype Item = Item(feed: FeedId, key: string)

  datatype Version = Version(
    item: nat,
    document: nat,
    supersedes: Option<nat>,
    observedAt: Time,
    canonicalUrl: string,
    publishedAt: Option<Time>,
    hash: Digest)

  /** Three insert-only tables. A row's id is its place in its table. */
  datatype Tables = Tables(documents: seq<Document>, items: seq<Item>, versions: seq<Version>)

  datatype Applied = Applied(newItems: nat, newVersions: nat, guidChurn: nat, duplicateIdentity: nat)

  datatype Current = Current(item: nat, version: nat, hash: Digest, canonicalUrl: string)

  datatype Response = Response(body: seq<byte>, url: Url)

  function Fingerprint(p: ParsedItem): Digest {
    ContentFingerprint(p.fields)
  }

  // -------------------------------------------------------------------------------------
  // Reading the tables.

  /** The version nothing supersedes. */
  predicate IsHead(versions: seq<Version>, v: nat) {
    v < |versions| && forall w :: 0 <= w < |versions| ==> versions[w].supersedes != Some(v)
  }

  function FindItem(items: seq<Item>, feed: FeedId, key: string): (r: Option<nat>)
    ensures r.Some? ==> r.value < |items| && items[r.value] == Item(feed, key)
    ensures r.None? ==> forall i :: 0 <= i < |items| ==> items[i] != Item(feed, key)
  {
    if items == [] then None
    else
      var n := |items| - 1;
      if items[n] == Item(feed, key) then Some(n) else FindItem(items[..n], feed, key)
  }

  /** The newest version of an item. */
  function Newest(versions: seq<Version>, item: nat): (r: Option<nat>)
    ensures r.Some? ==> r.value < |versions| && versions[r.value].item == item
    ensures r.Some? ==> forall v :: r.value < v < |versions| ==> versions[v].item != item
    ensures r.None? ==> forall v :: 0 <= v < |versions| ==> versions[v].item != item
  {
    if versions == [] then None
    else
      var n := |versions| - 1;
      if versions[n].item == item then Some(n) else Newest(versions[..n], item)
  }

  /** What `current_versions` holds under one key, None when the feed has no such item. */
  function Lookup(t: Tables, feed: FeedId, key: string): Option<Current> {
    var item := FindItem(t.items, feed, key);
    if item.None? then None
    else
      var head := Newest(t.versions, item.value);
      if head.None? then None
      else Some(Current(item.value, head.value, t.versions[head.value].hash, t.versions[head.value].canonicalUrl))
  }

  function Keys(t: Tables, feed: FeedId): set<string> {
    set i | 0 <= i < |t.items| && t.items[i].feed == feed :: t.items[i].key
  }

  function CurrentVersions(t: Tables, feed: FeedId): map<string, Current>
    requires Sound(t)
  {
    map key | key in Keys(t, feed) :: CurrentOf(t, feed, key)
  }

  function CurrentOf(t: Tables, feed: FeedId, key: string): Current
    requires Sound(t) && key in Keys(t, feed)
  {
    var item := FindItem(t.items, feed, key).value;
    assert HasVersion(t, item);
    Lookup(t, feed, key).value
  }

  /** `previous_document_hash`. */
  function PreviousDocument(documents: seq<Document>, feed: FeedId): (r: Option<nat>)
    ensures r.Some? ==> r.value < |documents| && documents[r.value].feed == feed
    ensures r.Some? ==> forall d :: r.value < d < |documents| ==> documents[d].feed != feed
    ensures r.None? ==> forall d :: 0 <= d < |documents| ==> documents[d].feed != feed
  {
    if documents == [] then None
    else
      var n := |documents| - 1;
      if documents[n].feed == feed then Some(n) else PreviousDocument(documents[..n], feed)
  }

  // -------------------------------------------------------------------------------------
  // What every write keeps.

  ghost predicate HasVersion(t: Tables, item: nat) {
    Newest(t.versions, item).Some?
  }

  /** Each version supersedes the newest one its item had when it was written, or nothing when
      it is the item's first, and says something that one did not. */
  ghost predicate Chained(versions: seq<Version>) {
    forall v :: 0 <= v < |versions| ==> Linked(versions, v)
  }

  ghost predicate Linked(versions: seq<Version>, v: nat)
    requires v < |versions|
  {
    && versions[v].supersedes == Newest(versions[..v], versions[v].item)
    && (versions[v].supersedes.Some? ==> versions[versions[v].supersedes.value].hash != versions[v].hash)
  }

  ghost predicate Sound(t: Tables) {
    && (forall i, j :: 0 <= i < j < |t.items| ==> t.items[i] != t.items[j])
    && (forall i :: 0 <= i < |t.items| ==> HasVersion(t, i))
    && (forall v :: 0 <= v < |t.versions| ==>
          t.versions[v].item < |t.items| && t.versions[v].document < |t.documents|
          && t.documents[t.versions[v].document].feed == t.items[t.versions[v].item].feed)
    && Chained(t.versions)
  }

  /** In a chained table a version is a head exactly when it is its item's newest: one head per
      item, whatever else the table holds. */
  lemma HeadIsNewest(versions: seq<Version>, v: nat)
    requires Chained(versions) && v < |versions|
    ensures IsHead(versions, v) <==> Newest(versions, versions[v].item) == Some(v)
  {
    var item := versions[v].item;
    if w :| v < w < |versions| && versions[w].item == item {
      var next := FirstAfter(versions, v, w);
      assert Linked(versions, next);
      assert versions[next].supersedes == Some(v);
    } else {
      forall w | 0 <= w < |versions| ensures versions[w].supersedes != Some(v) {
        assert Linked(versions, w);
      }
    }
  }

  /** The version that came right after `v` on its item, given one that came later. */
  lemma FirstAfter(versions: seq<Version>, v: nat, w: nat) returns (next: nat)
    requires v < w < |versions| && versions[w].item == versions[v].item
    ensures v < next < |versions| && versions[next].item == versions[v].item
    ensures Newest(versions[..next], versions[v].item) == Some(v)
  {
    next := v + 1;
    while versions[next].item != versions[v].item
      invariant v < next <= w
      invariant forall u :: v < u < next ==> versions[u].item != versions[v].item
      decreases w - next
    {
      next := next + 1;
    }
    NewestIs(versions[..next], versions[v].item, v);
  }

  lemma NewestIs(versions: seq<Version>, item: nat, v: nat)
    requires v < |versions| && versions[v].item == item
    requires forall u :: v < u < |versions| ==> versions[u].item != item
    ensures Newest(versions, item) == Some(v)
  {
  }

  /** The versions of one item, oldest first, as the chain walks back from the head. */
  function Chain(versions: seq<Version>, head: Option<nat>): seq<nat>
    requires Chained(versions)
    requires head.Some? ==> head.value < |versions|
    decreases if head.Some? then head.value + 1 else 0
  {
    if head.None? then []
    else
      assert Linked(versions, head.value);
      Chain(versions, versions[head.value].supersedes) + [head.value]
  }

  /** A list of one item's versions in which each supersedes the one before it and differs
      from it, starting from one that supersedes nothing. */
  ghost predicate Unbranched(versions: seq<Version>, item: nat, c: seq<nat>) {
    && (forall k :: 0 <= k < |c| ==> c[k] < |versions| && versions[c[k]].item == item)
    && (c != [] ==> versions[c[0]].supersedes == None)
    && (forall k :: 0 < k < |c| ==> Follows(versions, c[k - 1], c[k]))
  }

  ghost predicate Follows(versions: seq<Version>, v: nat, w: nat) {
    v < w < |versions| && versions[w].supersedes == Some(v) && versions[v].hash != versions[w].hash
  }

  /** Walking `supersedes` back from an item's head, oldest first, never branches and never
      finds two neighbours alike. */
  lemma {:induction false} ChainIsUnbranched(versions: seq<Version>, head: Option<nat>, item: nat)
    requires Chained(versions)
    requires head.Some? ==> head.value < |versions| && versions[head.value].item == item
    ensures Unbranched(versions, item, Chain(versions, head))
    ensures head.Some? ==> Chain(versions, head) != [] && Chain(versions, head)[|Chain(versions, head)| - 1] == head.value
    ensures head.None? ==> Chain(versions, head) == []
    decreases if head.Some? then head.value + 1 else 0
  {
    if head.Some? {
      assert Linked(versions, head.value);
      var before := versions[head.value].supersedes;
      ChainIsUnbranched(versions, before, item);
      var c := Chain(versions, before);
      assert Chain(versions, head) == c + [head.value];
      if before.Some? {
        assert Follows(versions, c[|c| - 1], head.value);
      }
    }
  }

  /** And it visits every version the item has. */
  lemma {:induction false} ChainIsWhole(versions: seq<Version>, head: Option<nat>, item: nat, v: nat)
    requires Chained(versions) && v < |versions| && versions[v].item == item
    requires head.Some? && v <= head.value < |versions| && versions[head.value].item == item
    ensures v in Chain(versions, head)
    decreases if head.Some? then head.value + 1 else 0
  {
    assert Linked(versions, head.value);
    var before := versions[head.value].supersedes;
    if v < head.value {
      assert versions[..head.value][v].item == item;
      ChainIsWhole(versions, before, item, v);
    }
  }

  // -------------------------------------------------------------------------------------
  // Writing one entry, and the reference for writing a whole document.

  function NewVersion(p: ParsedItem, item: nat, document: nat, observedAt: Time, supersedes: Option<nat>): Version {
    // No later than the poll that found it.
    var published := if p.publishedAt.Some? && p.publishedAt.value > observedAt then Some(observedAt) else p.publishedAt;
    Version(item, document, supersedes, observedAt, p.canonicalUrl, published, Fingerprint(p))
  }

  /** One entry against the tables as they are now. */
  function Upsert(t: Tables, feed: FeedId, document: nat, p: ParsedItem, at: Time): Tables {
    var found := Lookup(t, feed, p.key);
    if found.None? then
      t.(items := t.items + [Item(feed, p.key)],
         versions := t.versions + [NewVersion(p, |t.items|, document, at, None)])
    else if found.value.hash == Fingerprint(p) then t
    else t.(versions := t.versions + [NewVersion(p, found.value.item, document, at, Some(found.value.version))])
  }

  function ApplyAll(t: Tables, feed: FeedId, document: nat, ps: seq<ParsedItem>, at: Time): Tables {
    if ps == [] then t
    else Upsert(ApplyAll(t, feed, document, ps[..|ps| - 1], at), feed, document, ps[|ps| - 1], at)
  }

  function KeysOf(ps: seq<ParsedItem>): set<string> {
    set p | p in ps :: p.key
  }

  /** The entries a document is read as: each identity's first, in order. */
  function FirstOccurrences(ps: seq<ParsedItem>): (r: seq<ParsedItem>)
    ensures |r| <= |ps|
  {
    if ps == [] then []
    else
      var n := |ps| - 1;
      FirstOccurrences(ps[..n]) + if ps[n].key in KeysOf(ps[..n]) then [] else [ps[n]]
  }

  lemma {:induction false} FirstOccurrencesKeys(ps: seq<ParsedItem>)
    ensures KeysOf(FirstOccurrences(ps)) == KeysOf(ps)
    ensures forall i, j :: 0 <= i < j < |FirstOccurrences(ps)| ==> FirstOccurrences(ps)[i].key != FirstOccurrences(ps)[j].key
  {
    if ps != [] {
      var n := |ps| - 1;
      var firsts := FirstOccurrences(ps[..n]);
      FirstOccurrencesKeys(ps[..n]);
      assert ps == ps[..n] + [ps[n]];
      forall i | 0 <= i < |firsts| ensures firsts[i].key in KeysOf(ps[..n]) {
        assert firsts[i] in firsts && firsts[i].key in KeysOf(firsts);
      }
      assert KeysOf(ps) == KeysOf(ps[..n]) + {ps[n].key};
      assert KeysOf(firsts + [ps[n]]) == KeysOf(firsts) + {ps[n].key};
    }
  }

  /** The entry there is the first of its identity. */
  ghost predicate IsFirst(ps: seq<ParsedItem>, n: nat) {
    n < |ps| && forall m :: 0 <= m < n ==> ps[m].key != ps[n].key
  }

  ghost predicate SomeFirst(ps: seq<ParsedItem>, p: ParsedItem) {
    exists n: nat :: IsFirst(ps, n) && ps[n] == p
  }

  lemma LastIsFirst(init: seq<ParsedItem>, p: ParsedItem)
    ensures p.key in KeysOf(init) <==> !IsFirst(init + [p], |init|)
  {
    var ps := init + [p];
    if p.key in KeysOf(init) {
      var q :| q in init && q.key == p.key;
      var m :| 0 <= m < |init| && init[m] == q;
      assert ps[m].key == ps[|init|].key;
    }
    if m :| 0 <= m < |init| && ps[m].key == ps[|init|].key {
      assert init[m] in init;
    }
  }

  lemma {:induction false} EarlierFirst(init: seq<ParsedItem>, last: ParsedItem, n: nat)
    requires n < |init|
    ensures IsFirst(init + [last], n) <==> IsFirst(init, n)
  {
    assert forall m :: 0 <= m <= n ==> (init + [last])[m] == init[m];
  }

  lemma {:induction false} OneMoreFirst(init: seq<ParsedItem>, last: ParsedItem, p: ParsedItem)
    ensures SomeFirst(init + [last], p) <==> SomeFirst(init, p) || (IsFirst(init + [last], |init|) && p == last)
  {
    var ps := init + [last];
    if SomeFirst(init, p) {
      var n: nat :| IsFirst(init, n) && init[n] == p;
      EarlierFirst(init, last, n);
      assert ps[n] == p;
    }
    if SomeFirst(ps, p) {
      var n: nat :| IsFirst(ps, n) && ps[n] == p;
      if n < |init| {
        EarlierFirst(init, last, n);
        assert init[n] == p;
      }
    }
    assert ps[|init|] == last;
  }

  /** Each entry kept is one no earlier entry shares its identity with, and each such entry is kept. */
  lemma {:induction false} FirstOccurrencesAre(ps: seq<ParsedItem>, p: ParsedItem)
    ensures p in FirstOccurrences(ps) <==> SomeFirst(ps, p)
  {
    if ps != [] {
      var init, last := ps[..|ps| - 1], ps[|ps| - 1];
      assert ps == init + [last];
      FirstOccurrencesAre(init, p);
      LastIsFirst(init, last);
      OneMoreFirst(init, last, p);
    }
  }

  // -------------------------------------------------------------------------------------
  // What one entry does to the tables.

  lemma LookupSome(t: Tables, feed: FeedId, key: string)
    requires Sound(t)
    ensures Lookup(t, feed, key).Some? <==> key in Keys(t, feed)
    ensures Lookup(t, feed, key).Some? ==> IsHead(t.versions, Lookup(t, feed, key).value.version)
  {
    var item := FindItem(t.items, feed, key);
    if item.Some? {
      assert HasVersion(t, item.value);
      HeadIsNewest(t.versions, Newest(t.versions, item.value).value);
      assert t.items[item.value].key in Keys(t, feed);
    }
  }

  /** A write keeps the tables sound: one item per identity, one chain per item. */
  lemma UpsertSound(t: Tables, feed: FeedId, document: nat, p: ParsedItem, at: Time)
    requires Sound(t) && document < |t.documents| && t.documents[document].feed == feed
    ensures Sound(Upsert(t, feed, document, p, at))
  {
    var found := Lookup(t, feed, p.key);
    LookupSome(t, feed, p.key);
    var u := Upsert(t, feed, document, p, at);
    if u != t {
      VersionAppended(t.versions, u.versions[|t.versions|]);
      forall i | 0 <= i < |u.items| ensures HasVersion(u, i) {
        assert u.versions[..|t.versions|] == t.versions;
        if i < |t.items| { assert HasVersion(t, i); }
      }
    }
  }

  lemma VersionAppended(versions: seq<Version>, version: Version)
    requires Chained(versions)
    requires version.supersedes == Newest(versions, version.item)
    requires version.supersedes.Some? ==> versions[version.supersedes.value].hash != version.hash
    ensures Chained(versions + [version])
  {
    var longer := versions + [version];
    assert longer[..|versions|] == versions;
    forall v | 0 <= v < |longer| ensures Linked(longer, v) {
      if v < |versions| {
        assert Linked(versions, v);
        assert longer[..v] == versions[..v];
      }
    }
  }

  /** Afterwards the entry is what its item's head says. */
  lemma UpsertCurrent(t: Tables, feed: FeedId, document: nat, p: ParsedItem, at: Time)
    requires Sound(t)
    ensures var found := Lookup(Upsert(t, feed, document, p, at), feed, p.key);
      found.Some? && found.value.hash == Fingerprint(p)
  {
    LookupSome(t, feed, p.key);
    var u := Upsert(t, feed, document, p, at);
    if u != t {
      assert u.versions[..|t.versions|] == t.versions;
      if Lookup(t, feed, p.key).None? {
        assert u.items[..|t.items|] == t.items;
        assert FindItem(u.items, feed, p.key) == Some(|t.items|);
      }
    }
  }

  lemma {:induction false} VersionElsewhere(versions: seq<Version>, added: Version, item: nat)
    requires added.item != item
    ensures Newest(versions + [added], item) == Newest(versions, item)
  {
    assert (versions + [added])[..|versions|] == versions;
  }

  lemma {:induction false} ItemElsewhere(items: seq<Item>, added: Item, feed: FeedId, key: string)
    requires added != Item(feed, key)
    ensures FindItem(items + [added], feed, key) == FindItem(items, feed, key)
  {
    assert (items + [added])[..|items|] == items;
  }

  /** Every other identity, of this feed or another, looks as it did. */
  lemma {:induction false} UpsertElsewhere(t: Tables, feed: FeedId, document: nat, p: ParsedItem, at: Time, other: FeedId, key: string)
    requires Sound(t)
    requires other != feed || key != p.key
    ensures Lookup(Upsert(t, feed, document, p, at), other, key) == Lookup(t, other, key)
  {
    LookupSome(t, feed, p.key);
    LookupSome(t, other, key);
    var u := Upsert(t, feed, document, p, at);
    if u != t {
      var added, item := u.versions[|t.versions|], FindItem(t.items, other, key);
      assert u.versions == t.versions + [added];
      if u.items != t.items { ItemElsewhere(t.items, Item(feed, p.key), other, key); }
      if item.Some? { VersionElsewhere(t.versions, added, item.value); }
    }
  }
}
