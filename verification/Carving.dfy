/** `extract/feed.py`: a table of texts, one row for each a version was ever read as, and the sweep
    that re-reads documents until every head has a row the current parser has stamped. */
module Carving {
  import opened Wrappers
  import opened RunLog
  import opened Normalise
  import opened Ingest
  import Shortcut

  type Parser = string

  /** `body` is the text's bytes, whatever they are stored as: their hash is what is unique for
      a version, and a hash is told by its bytes. Rows are in the order they were inserted. */
  datatype FeedCapture = FeedCapture(version: nat, document: nat, body: seq<byte>, parser: Parser)

  // The places of the summary and of the content among the ten fields of an entry.
  const SUMMARY := 3
  const CONTENT := 4

  function Field(p: ParsedItem, n: nat): string {
    if n < |p.fields| then p.fields[n] else ""
  }

  function TextOf(p: ParsedItem): string {
    if Field(p, CONTENT) != "" then Field(p, CONTENT) else Field(p, SUMMARY)
  }

  /** What the document says under one identity, the first time it says it. */
  function TextFor(ps: seq<ParsedItem>, key: string): string {
    if ps == [] then ""
    else
      var init, p := ps[..|ps| - 1], ps[|ps| - 1];
      if key in KeysOf(init) then TextFor(init, key) else if p.key == key then TextOf(p) else ""
  }

  // -------------------------------------------------------------------------------------
  // The queries.

  /** `_carved`. */
  predicate Carved(rows: seq<FeedCapture>, version: nat, parser: Parser) {
    exists i :: 0 <= i < |rows| && rows[i].version == version && rows[i].parser == parser
  }

  /** The bodies one version holds, oldest first. */
  function Bodies(rows: seq<FeedCapture>, version: nat): seq<seq<byte>> {
    if rows == [] then []
    else
      var n := |rows| - 1;
      Bodies(rows[..n], version) + if rows[n].version == version then [rows[n].body] else []
  }

  /** The newest of them: what `_held` finds and what a reader is shown. */
  function Held(bodies: seq<seq<byte>>): seq<byte> {
    if bodies == [] then [] else bodies[|bodies| - 1]
  }

  ghost predicate Distinct(vs: seq<nat>) {
    forall i, j :: 0 <= i < j < |vs| ==> vs[i] < vs[j]
  }

  predicate IsWanted(t: Tables, rows: seq<FeedCapture>, document: nat, parser: Parser, v: nat) {
    v < |t.versions| && t.versions[v].document == document && IsHead(t.versions, v) && !Carved(rows, v, parser)
  }

  function WantedAmong(t: Tables, rows: seq<FeedCapture>, document: nat, parser: Parser, n: nat): seq<nat> {
    if n == 0 then []
    else WantedAmong(t, rows, document, parser, n - 1) + if IsWanted(t, rows, document, parser, n - 1) then [n - 1] else []
  }

  /** `_wanted`, in the order of the table: what `IsWanted` holds of. */
  function Wanted(t: Tables, rows: seq<FeedCapture>, document: nat, parser: Parser): seq<nat> {
    WantedAmong(t, rows, document, parser, |t.versions|)
  }

  lemma {:induction false} WantedAmongIs(t: Tables, rows: seq<FeedCapture>, document: nat, parser: Parser, n: nat)
    ensures var r := WantedAmong(t, rows, document, parser, n);
      (forall v: nat :: v in r <==> v < n && IsWanted(t, rows, document, parser, v)) && Distinct(r)
  {
    if n > 0 {
      WantedAmongIs(t, rows, document, parser, n - 1);
      var rest := WantedAmong(t, rows, document, parser, n - 1);
      assert forall i :: 0 <= i < |rest| ==> rest[i] in rest;
    }
  }

  lemma WantedIs(t: Tables, rows: seq<FeedCapture>, document: nat, parser: Parser)
    ensures var r := Wanted(t, rows, document, parser);
      && (forall v: nat :: v in r <==> IsWanted(t, rows, document, parser, v))
      && Distinct(r)
      && (r == [] || IsWanted(t, rows, document, parser, r[0]))
  {
    WantedAmongIs(t, rows, document, parser, |t.versions|);
    var r := Wanted(t, rows, document, parser);
    assert r == [] || r[0] in r;
  }

  /** The numbers below `n` that pass, highest first. */
  function Below(p: nat -> bool, n: nat): (r: seq<nat>)
    ensures forall d :: d in r ==> d < n
  {
    if n == 0 then [] else (if p(n - 1) then [n - 1] else []) + Below(p, n - 1)
  }

  /** Every document `due_feed_captures` would offer, newest first. */
  function Due(t: Tables, rows: seq<FeedCapture>, parser: Parser): seq<nat> {
    Below((d: nat) => Wanted(t, rows, d, parser) != [], |t.documents|)
  }

  // -------------------------------------------------------------------------------------
  // The writes.

  function FindRow(rows: seq<FeedCapture>, version: nat, body: seq<byte>): (r: Option<nat>)
    ensures r.Some? ==> r.value < |rows| && rows[r.value].version == version && rows[r.value].body == body
    ensures r.None? ==> forall i :: 0 <= i < |rows| ==> rows[i].version != version || rows[i].body != body
  {
    if rows == [] then None
    else
      var n := |rows| - 1;
      if rows[n].version == version && rows[n].body == body then Some(n) else FindRow(rows[..n], version, body)
  }

  /** An insert that on conflict moves the stamp alone. */
  function Put(rows: seq<FeedCapture>, row: FeedCapture): seq<FeedCapture> {
    var found := FindRow(rows, row.version, row.body);
    if found.None? then rows + [row] else rows[found.value := rows[found.value].(parser := row.parser)]
  }

  /** What is kept for one version: the text just found, or what it holds already. */
  function Kept(held: seq<byte>, text: string): seq<byte> {
    if text != "" then Encode(text) else held
  }

  function KeyOf(t: Tables, v: nat): string {
    if v < |t.versions| && t.versions[v].item < |t.items| then t.items[t.versions[v].item].key else ""
  }

  function RowFor(t: Tables, rows: seq<FeedCapture>, document: nat, ps: seq<ParsedItem>, parser: Parser): nat -> FeedCapture {
    (v: nat) => FeedCapture(v, document, Kept(Held(Bodies(rows, v)), TextFor(ps, KeyOf(t, v))), parser)
  }

  function PutAll(rows: seq<FeedCapture>, rowFor: nat -> FeedCapture, wanted: seq<nat>): seq<FeedCapture> {
    if wanted == [] then rows
    else
      var n := |wanted| - 1;
      Put(PutAll(rows, rowFor, wanted[..n]), rowFor(wanted[n]))
  }

  /** What one `capture_feed` leaves of the table. */
  function Captured(t: Tables, rows: seq<FeedCapture>, document: nat, ps: seq<ParsedItem>, parser: Parser): seq<FeedCapture> {
    PutAll(rows, RowFor(t, rows, document, ps, parser), Wanted(t, rows, document, parser))
  }

  function Carrying(t: Tables, ps: seq<ParsedItem>, wanted: seq<nat>): nat {
    if wanted == [] then 0
    else Carrying(t, ps, wanted[..|wanted| - 1]) + if TextFor(ps, KeyOf(t, wanted[|wanted| - 1])) != "" then 1 else 0
  }

  /** `setdefault` over the entries in order. */
  method TextsOf(ps: seq<ParsedItem>) returns (texts: map<string, string>)
    ensures forall key :: key in texts <==> key in KeysOf(ps)
    ensures forall key :: key in texts ==> texts[key] == TextFor(ps, key)
  {
    texts := map[];
    for n := 0 to |ps|
      invariant forall key :: key in texts <==> key in KeysOf(ps[..n])
      invariant forall key :: key in texts ==> texts[key] == TextFor(ps[..n], key)
    {
      assert ps[..n + 1][..n] == ps[..n];
      assert ps[..n + 1] == ps[..n] + [ps[n]];
      if ps[n].key !in texts {
        texts := texts[ps[n].key := TextOf(ps[n])];
      }
    }
    assert ps[..|ps|] == ps;
  }

  class Captures {
    var rows: seq<FeedCapture>

    constructor ()
      ensures rows == []
    {
      rows := [];
    }

    method PutRow(row: FeedCapture)
      modifies this
      ensures rows == Put(old(rows), row)
    {
      var found := FindRow(rows, row.version, row.body);
      if found.None? {
        rows := rows + [row];
      } else {
        rows := rows[found.value := rows[found.value].(parser := row.parser)];
      }
    }

    /** `_store`. */
    method Store(t: Tables, document: nat, ps: seq<ParsedItem>, parser: Parser) returns (stored: nat, carried: nat)
      modifies this
      ensures rows == Captured(t, old(rows), document, ps, parser)
      ensures stored == |Wanted(t, old(rows), document, parser)|
      ensures carried == Carrying(t, ps, Wanted(t, old(rows), document, parser)) <= stored
    {
      var before := rows;
      var wanted := Wanted(t, rows, document, parser);
      stored, carried := |wanted|, 0;
      var texts := TextsOf(ps);
      ghost var rowFor := RowFor(t, before, document, ps, parser);
      for n := 0 to |wanted|
        invariant rows == PutAll(before, rowFor, wanted[..n])
        invariant carried == Carrying(t, ps, wanted[..n]) <= n
      {
        var key := KeyOf(t, wanted[n]);
        var text := if key in texts then texts[key] else "";
        if key !in texts {
          AbsentIsEmpty(ps, key);
        }
        StoreStep(t, ps, before, rowFor, wanted, n);
        if text != "" {
          carried := carried + 1;
        }
        PutRow(FeedCapture(wanted[n], document, Kept(Held(Bodies(before, wanted[n])), text), parser));
      }
      assert wanted[..|wanted|] == wanted;
    }
  }

  lemma StoreStep(t: Tables, ps: seq<ParsedItem>, rows: seq<FeedCapture>, rowFor: nat -> FeedCapture, wanted: seq<nat>, n: nat)
    requires n < |wanted|
    ensures PutAll(rows, rowFor, wanted[..n + 1]) == Put(PutAll(rows, rowFor, wanted[..n]), rowFor(wanted[n]))
    ensures Carrying(t, ps, wanted[..n + 1])
         == Carrying(t, ps, wanted[..n]) + if TextFor(ps, KeyOf(t, wanted[n])) != "" then 1 else 0
  {
    assert wanted[..n + 1][..n] == wanted[..n];
  }

  lemma {:induction false} AbsentIsEmpty(ps: seq<ParsedItem>, key: string)
    requires key !in KeysOf(ps)
    ensures TextFor(ps, key) == ""
  {
    if ps != [] {
      var n := |ps| - 1;
      assert ps == ps[..n] + [ps[n]];
      assert ps[n].key in KeysOf(ps);
      assert forall p :: p in ps[..n] ==> p in ps;
    }
  }

  // -------------------------------------------------------------------------------------
  // First wins, as it did when the version was made.

  lemma {:induction false} FirstTextWins(ps: seq<ParsedItem>, p: ParsedItem)
    requires p in FirstOccurrences(ps)
    ensures TextFor(ps, p.key) == TextOf(p)
  {
    var n := |ps| - 1;
    FirstOccurrencesKeys(ps[..n]);
    if p in FirstOccurrences(ps[..n]) {
      assert p.key in KeysOf(FirstOccurrences(ps[..n]));
      FirstTextWins(ps[..n], p);
    }
  }

  /** Read by the parser that stored it, a document gives each of its heads the text of the very
      entry the head was made from, however often that entry's identity is repeated. */
  lemma TextIsTheHeads(t: Tables, feed: FeedId, document: nat, ps: seq<ParsedItem>, at: Time, p: ParsedItem)
    requires Sound(t) && document < |t.documents| && t.documents[document].feed == feed
    requires p in FirstOccurrences(ps)
    ensures var head := Lookup(ApplyAll(t, feed, document, FirstOccurrences(ps), at), feed, p.key);
      head.Some? && head.value.hash == Fingerprint(p) && TextFor(ps, p.key) == TextOf(p)
  {
    FirstOccurrencesKeys(ps);
    Shortcut.ApplyAllAtHead(t, feed, document, FirstOccurrences(ps), at);
    FirstTextWins(ps, p);
  }

  // -------------------------------------------------------------------------------------
  // What a write does to what a version holds, and to what is carved.

  function Added(bodies: seq<seq<byte>>, body: seq<byte>): seq<seq<byte>> {
    if body in bodies then bodies else bodies + [body]
  }

  lemma {:induction false} BodiesHas(rows: seq<FeedCapture>, version: nat, body: seq<byte>)
    ensures body in Bodies(rows, version) <==> exists i :: 0 <= i < |rows| && rows[i].version == version && rows[i].body == body
  {
    if rows != [] {
      var n := |rows| - 1;
      BodiesHas(rows[..n], version, body);
      assert forall i :: 0 <= i < n ==> rows[..n][i] == rows[i];
    }
  }

  lemma {:induction false} StampKeepsBodies(rows: seq<FeedCapture>, i: nat, parser: Parser, version: nat)
    requires i < |rows|
    ensures Bodies(rows[i := rows[i].(parser := parser)], version) == Bodies(rows, version)
  {
    var n := |rows| - 1;
    var stamped := rows[i := rows[i].(parser := parser)];
    if i < n {
      StampKeepsBodies(rows[..n], i, parser, version);
      assert stamped[..n] == rows[..n][i := rows[..n][i].(parser := parser)];
    } else {
      assert stamped[..n] == rows[..n];
    }
  }

  lemma PutBodies(rows: seq<FeedCapture>, row: FeedCapture, version: nat)
    ensures Bodies(Put(rows, row), version)
         == if version == row.version then Added(Bodies(rows, version), row.body) else Bodies(rows, version)
  {
    var found := FindRow(rows, row.version, row.body);
    BodiesHas(rows, row.version, row.body);
    if found.None? {
      assert (rows + [row])[..|rows|] == rows;
    } else {
      StampKeepsBodies(rows, found.value, row.parser, version);
    }
  }

  lemma PutCarves(rows: seq<FeedCapture>, row: FeedCapture, version: nat, parser: Parser)
    ensures Carved(Put(rows, row), row.version, row.parser)
    ensures version != row.version || (parser == row.parser && Carved(rows, version, parser)) ==>
      (Carved(Put(rows, row), version, parser) <==> Carved(rows, version, parser))
  {
    var found := FindRow(rows, row.version, row.body);
    var after := Put(rows, row);
    var at := if found.None? then |rows| else found.value;
    assert after[at].version == row.version && after[at].parser == row.parser;
    if i :| 0 <= i < |rows| && rows[i].version == version && rows[i].parser == parser {
      assert after[i].version == version && (i != at ==> after[i].parser == parser);
    }
  }

  lemma LastWanted(wanted: seq<nat>, version: nat)
    requires wanted != []
    ensures version in wanted <==> version in wanted[..|wanted| - 1] || version == wanted[|wanted| - 1]
    ensures Distinct(wanted) ==> Distinct(wanted[..|wanted| - 1]) && wanted[|wanted| - 1] !in wanted[..|wanted| - 1]
  {
    assert wanted == wanted[..|wanted| - 1] + [wanted[|wanted| - 1]];
  }

  /** Each wanted version gets its own row's body; no other version is touched. */
  lemma {:induction false} PutAllBodies(rows: seq<FeedCapture>, rowFor: nat -> FeedCapture, wanted: seq<nat>, version: nat)
    requires Distinct(wanted) && forall v: nat :: rowFor(v).version == v
    ensures Bodies(PutAll(rows, rowFor, wanted), version)
         == if version in wanted then Added(Bodies(rows, version), rowFor(version).body) else Bodies(rows, version)
  {
    if wanted != [] {
      var n := |wanted| - 1;
      PutAllBodies(rows, rowFor, wanted[..n], version);
      PutBodies(PutAll(rows, rowFor, wanted[..n]), rowFor(wanted[n]), version);
      LastWanted(wanted, version);
    }
  }

  lemma {:induction false} PutAllCarves(rows: seq<FeedCapture>, rowFor: nat -> FeedCapture, wanted: seq<nat>, version: nat, parser: Parser)
    requires forall v: nat :: rowFor(v).version == v && rowFor(v).parser == parser
    ensures Carved(PutAll(rows, rowFor, wanted), version, parser) <==> Carved(rows, version, parser) || version in wanted
  {
    if wanted != [] {
      var n := |wanted| - 1;
      PutAllCarves(rows, rowFor, wanted[..n], version, parser);
      PutCarves(PutAll(rows, rowFor, wanted[..n]), rowFor(wanted[n]), version, parser);
      LastWanted(wanted, version);
    }
  }

  /** Each version a document wants gets its own text, from what it held when the pass began. */
  lemma CapturedBodies(t: Tables, rows: seq<FeedCapture>, document: nat, ps: seq<ParsedItem>, parser: Parser, version: nat)
    ensures Bodies(Captured(t, rows, document, ps, parser), version)
         == if IsWanted(t, rows, document, parser, version)
            then Added(Bodies(rows, version), Kept(Held(Bodies(rows, version)), TextFor(ps, KeyOf(t, version))))
            else Bodies(rows, version)
  {
    WantedIs(t, rows, document, parser);
    PutAllBodies(rows, RowFor(t, rows, document, ps, parser), Wanted(t, rows, document, parser), version);
  }

  lemma {:induction false} FirstTextFor(ps: seq<ParsedItem>, n: nat)
    requires n < |ps| && forall m :: 0 <= m < n ==> ps[m].key != ps[n].key
    ensures TextFor(ps, ps[n].key) == TextOf(ps[n])
  {
    var last := |ps| - 1;
    if n < last {
      FirstTextFor(ps[..last], n);
      assert ps[n] in ps[..last] && ps[n].key in KeysOf(ps[..last]);
    } else {
      assert ps[n].key !in KeysOf(ps[..last]);
    }
  }

  /** What a wanted version gains is what the first entry of its identity says: its content, its
      summary where there is no content, and where there is neither what it held already. */
  lemma ContentIsShown(t: Tables, rows: seq<FeedCapture>, document: nat, ps: seq<ParsedItem>, parser: Parser, version: nat, n: nat)
    requires IsWanted(t, rows, document, parser, version)
    requires n < |ps| && ps[n].key == KeyOf(t, version) && forall m :: 0 <= m < n ==> ps[m].key != ps[n].key
    requires |ps[n].fields| == 10
    ensures var before, after := Bodies(rows, version), Bodies(Captured(t, rows, document, ps, parser), version);
      var summary, content := ps[n].fields[3], ps[n].fields[4];
      && (content != "" ==> Encode(content) in after && forall b :: b in after ==> b in before || b == Encode(content))
      && (content == "" && summary != "" ==> Encode(summary) in after && forall b :: b in after ==> b in before || b == Encode(summary))
      && (content == "" && summary == "" ==> after == if before == [] then [[]] else before)
  {
    FirstTextFor(ps, n);
    CapturedBodies(t, rows, document, ps, parser, version);
    if Bodies(rows, version) != [] { assert Held(Bodies(rows, version)) in Bodies(rows, version); }
  }

  // -------------------------------------------------------------------------------------
  // What is looked at.

  /** A version is carved from its own document, while nothing supersedes it, until a row of its own
      bears the parser's stamp. */
  ghost predicate ToCarve(t: Tables, rows: seq<FeedCapture>, document: nat, parser: Parser, v: nat) {
    && v < |t.versions| && t.versions[v].document == document
    && (forall w :: 0 <= w < |t.versions| ==> t.versions[w].supersedes != Some(v))
    && (forall i :: 0 <= i < |rows| && rows[i].version == v ==> rows[i].parser != parser)
  }

  /** A pass over a document writes rows for exactly these, and leaves every other version the
      texts it had. */
  lemma OnlyTheseAreCarved(t: Tables, rows: seq<FeedCapture>, document: nat, ps: seq<ParsedItem>, parser: Parser, v: nat)
    ensures v in Wanted(t, rows, document, parser) <==> ToCarve(t, rows, document, parser, v)
    ensures !ToCarve(t, rows, document, parser, v) ==> Bodies(Captured(t, rows, document, ps, parser), v) == Bodies(rows, v)
  {
    WantedIs(t, rows, document, parser);
    CapturedBodies(t, rows, document, ps, parser, v);
    assert IsWanted(t, rows, document, parser, v) <==> ToCarve(t, rows, document, parser, v);
  }

  lemma {:induction false} BelowIs(p: nat -> bool, n: nat)
    ensures forall d: nat :: d in Below(p, n) <==> d < n && p(d)
    ensures forall i, j :: 0 <= i < j < |Below(p, n)| ==> Below(p, n)[i] > Below(p, n)[j]
  {
    if n > 0 {
      BelowIs(p, n - 1);
      var rest := Below(p, n - 1);
      forall j | 0 <= j < |rest| ensures rest[j] < n - 1 {
        assert rest[j] in rest;
      }
    }
  }

  /** The sweep's documents are those with a version to carve, the newest first. */
  lemma DueAreTheNewest(t: Tables, rows: seq<FeedCapture>, parser: Parser)
    ensures forall d: nat ::
      d in Due(t, rows, parser) <==> d < |t.documents| && exists v :: ToCarve(t, rows, d, parser, v)
    ensures forall i, j :: 0 <= i < j < |Due(t, rows, parser)| ==> Due(t, rows, parser)[i] > Due(t, rows, parser)[j]
  {
    BelowIs((d: nat) => Wanted(t, rows, d, parser) != [], |t.documents|);
    forall d: nat ensures Wanted(t, rows, d, parser) != [] <==> exists v :: ToCarve(t, rows, d, parser, v) {
      SomeToCarve(t, rows, d, parser);
    }
  }

  lemma SomeToCarve(t: Tables, rows: seq<FeedCapture>, document: nat, parser: Parser)
    ensures Wanted(t, rows, document, parser) != [] <==> exists v :: ToCarve(t, rows, document, parser, v)
  {
    var wanted := Wanted(t, rows, document, parser);
    forall v: nat ensures v in wanted <==> ToCarve(t, rows, document, parser, v) {
      OnlyTheseAreCarved(t, rows, document, [], parser, v);
    }
    if wanted != [] { assert wanted[0] in wanted; }
  }

  lemma {:induction false} PutAllGrows(rows: seq<FeedCapture>, rowFor: nat -> FeedCapture, wanted: seq<nat>)
    ensures |rows| <= |PutAll(rows, rowFor, wanted)|
    ensures forall i :: 0 <= i < |rows| ==> PutAll(rows, rowFor, wanted)[i] == rows[i].(parser := PutAll(rows, rowFor, wanted)[i].parser)
    ensures forall i :: |rows| <= i < |PutAll(rows, rowFor, wanted)| ==> exists v :: v in wanted && SameButStamp(PutAll(rows, rowFor, wanted)[i], rowFor(v))
  {
    if wanted != [] {
      var n := |wanted| - 1;
      var before := PutAll(rows, rowFor, wanted[..n]);
      PutAllGrows(rows, rowFor, wanted[..n]);
      PutGrows(before, rowFor(wanted[n]));
      forall i | |rows| <= i < |Put(before, rowFor(wanted[n]))|
        ensures exists v :: v in wanted && SameButStamp(Put(before, rowFor(wanted[n]))[i], rowFor(v))
      {
        if i < |before| {
          var v :| v in wanted[..n] && SameButStamp(before[i], rowFor(v));
          assert v in wanted;
        } else {
          assert wanted[n] in wanted;
        }
      }
    }
  }

  /** The same row but for the parser that last read it. */
  ghost predicate SameButStamp(a: FeedCapture, b: FeedCapture) {
    a.version == b.version && a.document == b.document && a.body == b.body
  }

  lemma PutGrows(rows: seq<FeedCapture>, row: FeedCapture)
    ensures var after := Put(rows, row);
      && |rows| <= |after| <= |rows| + 1 && (|after| > |rows| ==> after[|rows|] == row)
      && forall i :: 0 <= i < |rows| ==> after[i] == rows[i].(parser := after[i].parser)
  {
  }

  /** A pass moves nothing of an older row but its stamp, and each row it adds is of a version it took,
      under the document it was read from. */
  lemma RowsAreAdded(t: Tables, rows: seq<FeedCapture>, document: nat, ps: seq<ParsedItem>, parser: Parser)
    ensures var after := Captured(t, rows, document, ps, parser);
      && |rows| <= |after|
      && (forall i :: 0 <= i < |rows| ==> after[i] == rows[i].(parser := after[i].parser))
      && (forall i :: |rows| <= i < |after| ==> after[i].document == document && ToCarve(t, rows, document, parser, after[i].version))
  {
    var rowFor, wanted := RowFor(t, rows, document, ps, parser), Wanted(t, rows, document, parser);
    PutAllGrows(rows, rowFor, wanted);
    var after := Captured(t, rows, document, ps, parser);
    forall i | |rows| <= i < |after| ensures after[i].document == document && ToCarve(t, rows, document, parser, after[i].version) {
      var v :| v in wanted && SameButStamp(after[i], rowFor(v));
      OnlyTheseAreCarved(t, rows, document, ps, parser, v);
    }
  }

  // -------------------------------------------------------------------------------------
  // The sweep drains.

  lemma {:induction false} SameWanted(t: Tables, rows: seq<FeedCapture>, after: seq<FeedCapture>, document: nat, parser: Parser, n: nat)
    requires forall v: nat :: v < n ==> (IsWanted(t, after, document, parser, v) <==> IsWanted(t, rows, document, parser, v))
    ensures WantedAmong(t, after, document, parser, n) == WantedAmong(t, rows, document, parser, n)
  {
    if n > 0 {
      SameWanted(t, rows, after, document, parser, n - 1);
    }
  }

  /** Re-reading a document leaves it wanting nothing, found or not, and leaves what every other
      document wants as it was. */
  lemma CapturedIsDone(t: Tables, rows: seq<FeedCapture>, document: nat, ps: seq<ParsedItem>, parser: Parser, other: nat)
    ensures var after := Captured(t, rows, document, ps, parser);
      Wanted(t, after, other, parser) == if other == document then [] else Wanted(t, rows, other, parser)
  {
    var wanted, after := Wanted(t, rows, document, parser), Captured(t, rows, document, ps, parser);
    WantedIs(t, rows, document, parser);
    WantedIs(t, after, other, parser);
    forall v: nat ensures Carved(after, v, parser) <==> Carved(rows, v, parser) || v in wanted {
      PutAllCarves(rows, RowFor(t, rows, document, ps, parser), wanted, v, parser);
    }
    if other != document {
      SameWanted(t, rows, after, other, parser, |t.versions|);
    }
  }

  /** A batch of documents, each re-read with one parser. */
  function CapturedAll(t: Tables, rows: seq<FeedCapture>, batch: seq<nat>, parse: nat -> seq<ParsedItem>, parser: Parser): seq<FeedCapture> {
    if batch == [] then rows
    else
      var n := |batch| - 1;
      Captured(t, CapturedAll(t, rows, batch[..n], parse, parser), batch[n], parse(batch[n]), parser)
  }

  lemma InBatch(batch: seq<nat>, d: nat)
    requires batch != []
    ensures d in batch <==> d in batch[..|batch| - 1] || d == batch[|batch| - 1]
  {
    assert batch == batch[..|batch| - 1] + [batch[|batch| - 1]];
  }

  lemma {:induction false} BatchIsDone(t: Tables, rows: seq<FeedCapture>, batch: seq<nat>, parse: nat -> seq<ParsedItem>, parser: Parser, other: nat)
    ensures Wanted(t, CapturedAll(t, rows, batch, parse, parser), other, parser)
         == if other in batch then [] else Wanted(t, rows, other, parser)
  {
    if batch != [] {
      var init, d := batch[..|batch| - 1], batch[|batch| - 1];
      var earlier := CapturedAll(t, rows, init, parse, parser);
      BatchIsDone(t, rows, init, parse, parser, other);
      InBatch(batch, other);
      CapturedIsDone(t, earlier, d, parse(d), parser, other);
      assert CapturedAll(t, rows, batch, parse, parser) == Captured(t, earlier, d, parse(d), parser);
    }
  }

  /** The newest `limit` due documents, and a re-reading of each. */
  function Swept(t: Tables, rows: seq<FeedCapture>, limit: nat, parse: nat -> seq<ParsedItem>, parser: Parser): seq<FeedCapture> {
    var due := Due(t, rows, parser);
    CapturedAll(t, rows, if |due| <= limit then due else due[..limit], parse, parser)
  }

  /** Taking the first `k` that pass leaves the rest, in order. */
  lemma {:induction false} BelowWithout(p: nat -> bool, q: nat -> bool, n: nat, k: nat)
    requires k <= |Below(p, n)|
    requires forall d: nat :: d < n ==> (q(d) <==> p(d) && d !in Below(p, n)[..k])
    ensures Below(q, n) == Below(p, n)[k..]
  {
    if n > 0 {
      var due, rest := Below(p, n), Below(p, n - 1);
      if p(n - 1) && k > 0 {
        assert due[..k] == [n - 1] + rest[..k - 1];
        assert n - 1 in due[..k];
        BelowWithout(p, q, n - 1, k - 1);
      } else {
        assert due[..k] == rest[..k];
        BelowWithout(p, q, n - 1, k);
      }
    }
  }

  function Drop(s: seq<nat>, k: nat): seq<nat> {
    if |s| <= k then [] else s[k..]
  }

  /** How many `times` batches hold. */
  function Batches(limit: nat, times: nat): nat {
    if times == 0 then 0 else Batches(limit, times - 1) + limit
  }

  lemma DropsAdd(s: seq<nat>, j: nat, k: nat)
    ensures Drop(Drop(s, j), k) == Drop(s, j + k)
  {
    if |s| > j + k {
      assert s[j..][k..] == s[j + k..];
    }
  }

  /** One sweep takes exactly its batch off what is due. */
  lemma SweepTakesItsBatch(t: Tables, rows: seq<FeedCapture>, limit: nat, parse: nat -> seq<ParsedItem>, parser: Parser)
    ensures var due := Due(t, rows, parser);
      Due(t, Swept(t, rows, limit, parse, parser), parser) == Drop(due, limit)
  {
    var due := Due(t, rows, parser);
    var k := if |due| <= limit then |due| else limit;
    assert due[..|due|] == due;
    forall d: nat
      ensures Wanted(t, Swept(t, rows, limit, parse, parser), d, parser)
           == if d in due[..k] then [] else Wanted(t, rows, d, parser)
    {
      BatchIsDone(t, rows, due[..k], parse, parser, d);
    }
    var after := Swept(t, rows, limit, parse, parser);
    BelowWithout((d: nat) => Wanted(t, rows, d, parser) != [], (d: nat) => Wanted(t, after, d, parser) != [], |t.documents|, k);
  }

  function SweptTimes(t: Tables, rows: seq<FeedCapture>, limit: nat, parse: nat -> seq<ParsedItem>, parser: Parser, times: nat): seq<FeedCapture>
    decreases times
  {
    if times == 0 then rows else SweptTimes(t, Swept(t, rows, limit, parse, parser), limit, parse, parser, times - 1)
  }

  /** What is due is what is left of this once so many were taken. */
  ghost predicate Left(t: Tables, rows: seq<FeedCapture>, parser: Parser, due: seq<nat>, taken: nat) {
    Due(t, rows, parser) == Drop(due, taken)
  }

  lemma DrainStep(t: Tables, rows: seq<FeedCapture>, limit: nat, parse: nat -> seq<ParsedItem>, parser: Parser, due: seq<nat>, taken: nat)
    requires Left(t, rows, parser, due, taken)
    ensures Left(t, Swept(t, rows, limit, parse, parser), parser, due, taken + limit)
  {
    SweepTakesItsBatch(t, rows, limit, parse, parser);
    DropsAdd(due, taken, limit);
  }

  lemma {:induction false} SweepsLeave(t: Tables, rows: seq<FeedCapture>, limit: nat, parse: nat -> seq<ParsedItem>, parser: Parser, times: nat, due: seq<nat>, taken: nat, all: nat)
    requires Left(t, rows, parser, due, taken) && all == taken + Batches(limit, times)
    ensures Left(t, SweptTimes(t, rows, limit, parse, parser, times), parser, due, all)
    decreases times
  {
    if times > 0 {
      DrainStep(t, rows, limit, parse, parser, due, taken);
      SweepsLeave(t, Swept(t, rows, limit, parse, parser), limit, parse, parser, times - 1, due, taken + limit, all);
    }
  }

  /** With nothing new arriving, every sweep brings what is due down by the batch size until
      nothing is, whether or not any text was found. */
  lemma SweepsDrain(t: Tables, rows: seq<FeedCapture>, limit: nat, parse: nat -> seq<ParsedItem>, parser: Parser, times: nat)
    ensures var due := Due(t, rows, parser);
      Due(t, SweptTimes(t, rows, limit, parse, parser, times), parser) == Drop(due, Batches(limit, times))
  {
    SweepsLeave(t, rows, limit, parse, parser, times, Due(t, rows, parser), 0, Batches(limit, times));
  }

  // -------------------------------------------------------------------------------------
  // Nothing found is never hidden.

  /** Only a version's first carving can be empty, and it holds no text twice. */
  ghost predicate Shown(bodies: seq<seq<byte>>) {
    && (forall i :: 0 < i < |bodies| ==> bodies[i] != [])
    && (forall i, j :: 0 <= i < j < |bodies| ==> bodies[i] != bodies[j])
  }

  lemma EncodedIsSomething(text: string)
    requires text != ""
    ensures Encode(text) != []
  {
    assert Utf8(text[0]) != [];
  }

  lemma AddedIsShown(bodies: seq<seq<byte>>, text: string)
    requires Shown(bodies)
    ensures Shown(Added(bodies, Kept(Held(bodies), text)))
    ensures Held(bodies) != [] ==> Held(Added(bodies, Kept(Held(bodies), text))) != []
  {
    if text != "" {
      EncodedIsSomething(text);
    }
  }

  /** One visit to a document, at some state of the archive and under some parser. */
  datatype Visit = Visit(tables: Tables, document: nat, ps: seq<ParsedItem>, parser: Parser)

  function Visited(rows: seq<FeedCapture>, visits: seq<Visit>): seq<FeedCapture> {
    if visits == [] then rows
    else
      var v := visits[|visits| - 1];
      Captured(v.tables, Visited(rows, visits[..|visits| - 1]), v.document, v.ps, v.parser)
  }

  /** Through any run of visits, parsers going forward or back, a version once shown some text is
      never shown none. */
  lemma {:induction false} TextStaysShown(rows: seq<FeedCapture>, visits: seq<Visit>, version: nat)
    requires Shown(Bodies(rows, version))
    ensures var after := Bodies(Visited(rows, visits), version);
      Shown(after) && Bodies(rows, version) <= after && (Held(Bodies(rows, version)) != [] ==> Held(after) != [])
  {
    if visits != [] {
      var v, earlier := visits[|visits| - 1], Visited(rows, visits[..|visits| - 1]);
      TextStaysShown(rows, visits[..|visits| - 1], version);
      CapturedBodies(v.tables, earlier, v.document, v.ps, v.parser, version);
      AddedIsShown(Bodies(earlier, version), TextFor(v.ps, KeyOf(v.tables, version)));
    }
  }

  /** The `n`th visit wanted this version and found it some text. */
  ghost predicate Finds(visits: seq<Visit>, n: nat, version: nat)
    requires n < |visits|
  {
    var v := visits[n];
    && IsWanted(v.tables, Visited([], visits[..n]), v.document, v.parser, version)
    && TextFor(v.ps, KeyOf(v.tables, version)) != ""
  }

  lemma AddedShows(bodies: seq<seq<byte>>, text: string)
    requires Shown(bodies)
    ensures Held(Added(bodies, Kept(Held(bodies), text))) != [] <==> Held(bodies) != [] || text != ""
  {
    AddedIsShown(bodies, text);
    if text != "" {
      EncodedIsSomething(text);
      var added := Added(bodies, Encode(text));
      assert Encode(text) in added;
      assert |added| > 1 ==> added[|added| - 1] != [];
    }
  }

  lemma LastVisitShows(visits: seq<Visit>, version: nat)
    requires visits != []
    ensures var n := |visits| - 1;
      Held(Bodies(Visited([], visits), version)) != []
      <==> Held(Bodies(Visited([], visits[..n]), version)) != [] || Finds(visits, n, version)
  {
    var n := |visits| - 1;
    var v, earlier := visits[n], Visited([], visits[..n]);
    TextStaysShown([], visits[..n], version);
    CapturedBodies(v.tables, earlier, v.document, v.ps, v.parser, version);
    AddedShows(Bodies(earlier, version), TextFor(v.ps, KeyOf(v.tables, version)));
  }

  ghost predicate EverFound(visits: seq<Visit>, version: nat) {
    exists n: nat :: n < |visits| && Finds(visits, n, version)
  }

  lemma FindsEarlier(visits: seq<Visit>, n: nat, version: nat)
    requires n < |visits| - 1
    ensures Finds(visits[..|visits| - 1], n, version) <==> Finds(visits, n, version)
  {
    assert visits[..|visits| - 1][..n] == visits[..n];
  }

  lemma EverFoundStep(visits: seq<Visit>, version: nat)
    requires visits != []
    ensures EverFound(visits, version) <==> EverFound(visits[..|visits| - 1], version) || Finds(visits, |visits| - 1, version)
  {
    var init := visits[..|visits| - 1];
    forall n: nat | n < |init| ensures Finds(init, n, version) <==> Finds(visits, n, version) {
      FindsEarlier(visits, n, version);
    }
  }

  lemma NothingVisited(version: nat)
    ensures Held(Bodies(Visited([], []), version)) == [] && !EverFound([], version)
  {
  }

  /** A version is shown text exactly when some visit found it some: no visit that came up empty
      takes the place of one that did not, and nothing but a visit gives it any. */
  lemma {:induction false} NothingIsHidden(visits: seq<Visit>, version: nat)
    ensures Held(Bodies(Visited([], visits), version)) != [] <==> EverFound(visits, version)
  {
    if visits == [] {
      NothingVisited(version);
    } else {
      NothingIsHidden(visits[..|visits| - 1], version);
      LastVisitShows(visits, version);
      EverFoundStep(visits, version);
    }
  }

  /** The text a parse finds is what the version is shown afterwards exactly when it was never
      carved from it before the newest: a text that comes back only has its stamp moved. */
  lemma NewestIsLatestParse(t: Tables, rows: seq<FeedCapture>, document: nat, ps: seq<ParsedItem>, parser: Parser, version: nat)
    requires IsWanted(t, rows, document, parser, version) && TextFor(ps, KeyOf(t, version)) != ""
    ensures var bodies := Bodies(rows, version);
      var found := Encode(TextFor(ps, KeyOf(t, version)));
      Held(Bodies(Captured(t, rows, document, ps, parser), version)) == found <==> found !in bodies || found == Held(bodies)
  {
    CapturedBodies(t, rows, document, ps, parser, version);
  }

  /** A parser that finds a text another already carved takes over that row's stamp, so the other
      has not read the version any more: exactly when it read it nowhere else. */
  lemma StampIsTaken(rows: seq<FeedCapture>, row: FeedCapture, earlier: Parser)
    requires earlier != row.parser
    ensures Carved(Put(rows, row), row.version, earlier)
       <==> exists i :: 0 <= i < |rows| && rows[i].version == row.version && rows[i].parser == earlier
              && FindRow(rows, row.version, row.body) != Some(i)
  {
    var found, after := FindRow(rows, row.version, row.body), Put(rows, row);
    if i :| 0 <= i < |rows| && rows[i].version == row.version && rows[i].parser == earlier && found != Some(i) {
      assert after[i] == rows[i];
    }
    if i :| 0 <= i < |after| && after[i].version == row.version && after[i].parser == earlier {
      assert i < |rows| && found != Some(i) && after[i] == rows[i];
    }
  }
}
