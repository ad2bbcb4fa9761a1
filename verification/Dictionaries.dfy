/** `db/dictionaries.py` and `db/bytes.py`, with `_held_body` of `extract/capture.py`: how bodies
    are stored under dictionaries that keep being retrained, and read back. */
module Dictionaries {
  import opened Wrappers
  import opened RunLog
  import opened Normalise

  type Bytes = seq<byte>

  const ZSTD_MAGIC: Bytes := [0x28, 0xb5, 0x2f, 0xfd]
  const NO_DICTIONARY: nat := 0
  const MIN_TRAINABLE_SAMPLES := 8

  /** The library at one level: what it writes and reads under a dictionary's bytes or none, the
      dictionary a frame names (section 3.1.1.1.3 of RFC 8878), and the name of a dictionary. */
  datatype Zstd = Zstd(
    compress: (Bytes, Option<Bytes>) -> Bytes,
    decompress: (Bytes, Option<Bytes>) -> Option<Bytes>,
    frameDictionary: Bytes -> nat,
    nameOf: Bytes -> nat)

  predicate HasMagic(body: Bytes) {
    |body| >= 4 && body[..4] == ZSTD_MAGIC
  }

  function NameFor(z: Zstd, dictionary: Option<Bytes>): nat {
    if dictionary.None? then NO_DICTIONARY else z.nameOf(dictionary.value)
  }

  /** A frame opens with the magic, names its dictionary, and reads back under it. */
  ghost predicate Lawful(z: Zstd) {
    forall body, dictionary: Option<Bytes> ::
      var frame := z.compress(body, dictionary);
      HasMagic(frame) && z.frameDictionary(frame) == NameFor(z, dictionary) && z.decompress(frame, dictionary) == Some(body)
  }

  /** Trained dictionaries have names, and a name is a digest of the bytes it names. */
  ghost predicate Names(z: Zstd, trained: set<Bytes>) {
    && (forall d :: d in trained ==> z.nameOf(d) != NO_DICTIONARY)
    && (forall d, e :: d in trained && e in trained && z.nameOf(d) == z.nameOf(e) ==> d == e)
  }

  // -------------------------------------------------------------------------------------
  // `db/bytes.py`.

  function DictionaryId(z: Zstd, body: Bytes): nat {
    if HasMagic(body) then z.frameDictionary(body) else NO_DICTIONARY
  }

  /** Uncompressed bodies pass through. */
  function Decompress(z: Zstd, body: Bytes, dictionary: Option<Bytes>): Option<Bytes> {
    if HasMagic(body) then z.decompress(body, dictionary) else Some(body)
  }

  // -------------------------------------------------------------------------------------
  // The tables, and one process's cache.

  datatype Scope = FEED_DOCUMENT | FEED_ITEM | HOST_PAGE

  datatype Row = Row(dictId: nat, scope: Scope, key: nat, content: Bytes, trainedAt: Time)

  /** `served` is what came over the wire; only its digest is beside the stored bytes. */
  datatype Body = Body(url: string, hash: Digest, served: Bytes, stored: Bytes, dictionary: Option<nat>)

  datatype State = State(rows: seq<Row>, loaded: map<nat, Bytes>, bodies: seq<Body>)

  datatype Error = NoSuchDictionary(dictId: nat) | BadFrame

  function Named(rows: seq<Row>, dictId: nat): (r: Option<Bytes>)
    ensures r.Some? ==> exists i :: 0 <= i < |rows| && rows[i].dictId == dictId && rows[i].content == r.value
    ensures r.None? ==> forall i :: 0 <= i < |rows| ==> rows[i].dictId != dictId
  {
    if rows == [] then None
    else if rows[|rows| - 1].dictId == dictId then Some(rows[|rows| - 1].content)
    else Named(rows[..|rows| - 1], dictId)
  }

  /** The newest dictionary of one scope and key. */
  function Newest(rows: seq<Row>, scope: Scope, key: nat): (r: Option<nat>)
    ensures r.Some? ==> r.value < |rows| && rows[r.value].scope == scope && rows[r.value].key == key
    ensures r.Some? ==> forall i :: 0 <= i < |rows| && rows[i].scope == scope && rows[i].key == key ==>
      rows[i].trainedAt <= rows[r.value].trainedAt
    ensures r.None? ==> forall i :: 0 <= i < |rows| ==> rows[i].scope != scope || rows[i].key != key
  {
    if rows == [] then None
    else
      var n := |rows| - 1;
      var before := Newest(rows[..n], scope, key);
      if rows[n].scope == scope && rows[n].key == key && (before.None? || rows[before.value].trainedAt <= rows[n].trainedAt)
      then Some(n) else before
  }

  /** The bytes `_cached` answers with. */
  function Cached(loaded: map<nat, Bytes>, dictId: nat, content: Bytes): Bytes {
    if dictId in loaded then loaded[dictId] else content
  }

  function Caching(s: State, dictId: nat, content: Bytes): State {
    s.(loaded := s.loaded[dictId := Cached(s.loaded, dictId, content)])
  }

  /** `expand`, and what it leaves cached. */
  function Expanded(z: Zstd, s: State, stored: Bytes): Result<Bytes, Error> {
    var dictId := DictionaryId(z, stored);
    if dictId == NO_DICTIONARY then Opened(Decompress(z, stored, None))
    else if dictId in s.loaded then Opened(Decompress(z, stored, Some(s.loaded[dictId])))
    else
      var content := Named(s.rows, dictId);
      if content.None? then Failure(NoSuchDictionary(dictId)) else Opened(Decompress(z, stored, content))
  }

  function Opened(body: Option<Bytes>): Result<Bytes, Error> {
    if body.None? then Failure(BadFrame) else Success(body.value)
  }

  /** What `expand` may answer: its lookup takes one row of the name, with no order among them. */
  ghost predicate MayAnswer(z: Zstd, s: State, stored: Bytes, r: Result<Bytes, Error>) {
    var dictId := DictionaryId(z, stored);
    if dictId == NO_DICTIONARY then r == Opened(Decompress(z, stored, None))
    else if dictId in s.loaded then r == Opened(Decompress(z, stored, Some(s.loaded[dictId])))
    else if forall i :: 0 <= i < |s.rows| ==> s.rows[i].dictId != dictId then r == Failure(NoSuchDictionary(dictId))
    else exists i ::
      0 <= i < |s.rows| && s.rows[i].dictId == dictId && r == Opened(Decompress(z, stored, Some(s.rows[i].content)))
  }

  function AfterExpand(z: Zstd, s: State, stored: Bytes): State {
    var dictId := DictionaryId(z, stored);
    var content := Named(s.rows, dictId);
    if dictId == NO_DICTIONARY || dictId in s.loaded || content.None? then s else Caching(s, dictId, content.value)
  }

  /** What `_current` finds, out of the cache when it is there. */
  function Current(s: State, scope: Scope, key: nat): Option<(nat, Bytes)> {
    var row := Newest(s.rows, scope, key);
    if row.None? then None else Some((row.value, Cached(s.loaded, s.rows[row.value].dictId, s.rows[row.value].content)))
  }

  function AfterCurrent(s: State, scope: Scope, key: nat): State {
    var row := Newest(s.rows, scope, key);
    if row.None? then s else Caching(s, s.rows[row.value].dictId, s.rows[row.value].content)
  }

  /** The first body held for a URL under one hash. */
  function HeldBody(bodies: seq<Body>, url: string, hash: Digest): (r: Option<nat>)
    ensures r.Some? ==> r.value < |bodies| && bodies[r.value].url == url && bodies[r.value].hash == hash
    ensures r.None? ==> forall i :: 0 <= i < |bodies| ==> bodies[i].url != url || bodies[i].hash != hash
  {
    if bodies == [] then None
    else
      var before := HeldBody(bodies[..|bodies| - 1], url, hash);
      if before.Some? then before
      else if bodies[|bodies| - 1].url == url && bodies[|bodies| - 1].hash == hash then Some(|bodies| - 1)
      else None
  }

  function Compressed(z: Zstd, s: State, scope: Scope, key: nat, url: string, served: Bytes): Body {
    var current := Current(s, scope, key);
    Body(url, Sha256(served), served,
         z.compress(served, if current.Some? then Some(current.value.1) else None),
         if current.Some? then Some(current.value.0) else None)
  }

  /** A body compressed against whatever is current. */
  function Saved(z: Zstd, s: State, scope: Scope, key: nat, url: string, served: Bytes): State {
    AfterCurrent(s, scope, key).(bodies := s.bodies + [Compressed(z, s, scope, key, url, served)])
  }

  /** A page's body: nothing stored for an empty one, one already held pointed at again. */
  function SavedPage(z: Zstd, s: State, host: nat, url: string, served: Bytes): State {
    var held := HeldBody(s.bodies, url, Sha256(served));
    if served == [] then s.(bodies := s.bodies + [Body(url, Sha256(served), served, [], None)])
    else if held.Some? then
      var b := s.bodies[held.value];
      s.(bodies := s.bodies + [Body(url, Sha256(served), served, b.stored, b.dictionary)])
    else Saved(z, s, HOST_PAGE, host, url, served)
  }

  function FindRow(rows: seq<Row>, dictId: nat, scope: Scope, key: nat): (r: Option<nat>)
    ensures r.Some? ==> r.value < |rows| && rows[r.value].dictId == dictId && rows[r.value].scope == scope && rows[r.value].key == key
    ensures r.None? ==> forall i :: 0 <= i < |rows| ==> rows[i].dictId != dictId || rows[i].scope != scope || rows[i].key != key
  {
    if rows == [] then None
    else
      var n := |rows| - 1;
      if rows[n].dictId == dictId && rows[n].scope == scope && rows[n].key == key then Some(n)
      else FindRow(rows[..n], dictId, scope, key)
  }

  /** `store`: one row for each name, scope and key, and a later one of the same three only restamps it. */
  function Trained(z: Zstd, s: State, scope: Scope, key: nat, content: Bytes, now: Time): State {
    var found := FindRow(s.rows, z.nameOf(content), scope, key);
    if found.None? then s.(rows := s.rows + [Row(z.nameOf(content), scope, key, content, now)])
    else s.(rows := s.rows[found.value := s.rows[found.value].(trainedAt := now)])
  }

  // -------------------------------------------------------------------------------------
  // What every step keeps.

  ghost predicate IsStored(rows: seq<Row>, content: Bytes) {
    exists i :: 0 <= i < |rows| && rows[i].content == content
  }

  /** How a body can come to be stored: as it was, if it does not pass for a frame, or compressed
      against nothing or against a dictionary some row still holds. */
  ghost predicate Recoverable(z: Zstd, rows: seq<Row>, b: Body) {
    && b.hash == Sha256(b.served)
    && (|| (b.stored == b.served && !HasMagic(b.stored))
        || b.stored == z.compress(b.served, None)
        || exists content :: IsStored(rows, content) && b.stored == z.compress(b.served, Some(content)))
  }

  ghost predicate Kept(z: Zstd, s: State) {
    && (forall i :: 0 <= i < |s.rows| ==> s.rows[i].dictId == z.nameOf(s.rows[i].content))
    && Names(z, Contents(s.rows))
    && (forall dictId :: dictId in s.loaded ==> Named(s.rows, dictId) == Some(s.loaded[dictId]))
    && (forall i :: 0 <= i < |s.bodies| ==> Recoverable(z, s.rows, s.bodies[i]))
  }

  ghost function Contents(rows: seq<Row>): set<Bytes> {
    set i | 0 <= i < |rows| :: rows[i].content
  }

  lemma StoredIsNamed(z: Zstd, s: State, content: Bytes)
    requires Kept(z, s) && IsStored(s.rows, content)
    ensures Named(s.rows, z.nameOf(content)) == Some(content) && z.nameOf(content) != NO_DICTIONARY
  {
    var i :| 0 <= i < |s.rows| && s.rows[i].content == content;
    assert content in Contents(s.rows);
    var found := Named(s.rows, z.nameOf(content));
    assert found.Some?;
    var j :| 0 <= j < |s.rows| && s.rows[j].dictId == z.nameOf(content) && s.rows[j].content == found.value;
    assert s.rows[j].content in Contents(s.rows);
  }

  /** A body that can be recovered is: whatever is cached and whatever has been trained since, it
      expands to the bytes that were served. */
  lemma Expands(z: Zstd, s: State, b: Body)
    requires Lawful(z) && Kept(z, s) && Recoverable(z, s.rows, b)
    ensures Expanded(z, s, b.stored) == Success(b.served)
  {
    if !(b.stored == b.served && !HasMagic(b.stored)) && b.stored != z.compress(b.served, None) {
      var content :| IsStored(s.rows, content) && b.stored == z.compress(b.served, Some(content));
      StoredIsNamed(z, s, content);
    }
  }

  /** Whichever row of a name the lookup takes, the answer is the same. */
  lemma AnyRowWillDo(z: Zstd, s: State, stored: Bytes, r: Result<Bytes, Error>)
    requires Kept(z, s)
    ensures MayAnswer(z, s, stored, r) <==> r == Expanded(z, s, stored)
  {
    var dictId := DictionaryId(z, stored);
    if dictId != NO_DICTIONARY && dictId !in s.loaded {
      forall i | 0 <= i < |s.rows| && s.rows[i].dictId == dictId
        ensures Named(s.rows, dictId) == Some(s.rows[i].content)
      {
        assert IsStored(s.rows, s.rows[i].content);
        StoredIsNamed(z, s, s.rows[i].content);
      }
    }
  }

  lemma CachingKept(z: Zstd, s: State, dictId: nat, content: Bytes)
    requires Kept(z, s) && Named(s.rows, dictId) == Some(content)
    ensures Kept(z, Caching(s, dictId, content))
  {
  }

  lemma CurrentIsStored(z: Zstd, s: State, scope: Scope, key: nat)
    requires Kept(z, s)
    ensures Kept(z, AfterCurrent(s, scope, key))
    ensures var current := Current(s, scope, key);
      current.Some? ==> current.value.1 == s.rows[current.value.0].content && IsStored(s.rows, current.value.1)
  {
    var row := Newest(s.rows, scope, key);
    if row.Some? {
      var content := s.rows[row.value].content;
      assert IsStored(s.rows, content);
      StoredIsNamed(z, s, content);
      CachingKept(z, s, s.rows[row.value].dictId, content);
    }
  }

  ghost predicate NoneTrained(rows: seq<Row>, scope: Scope, key: nat) {
    forall i :: 0 <= i < |rows| ==> rows[i].scope != scope || rows[i].key != key
  }

  ghost predicate LastTrained(rows: seq<Row>, scope: Scope, key: nat, n: nat) {
    && n < |rows| && rows[n].scope == scope && rows[n].key == key
    && forall i :: 0 <= i < |rows| && rows[i].scope == scope && rows[i].key == key ==> rows[i].trainedAt <= rows[n].trainedAt
  }

  /** A body is stored under the dictionary last trained for its scope and key, and under none exactly
      when there is none. */
  lemma SavedUnderTheNewest(z: Zstd, s: State, scope: Scope, key: nat, url: string, served: Bytes)
    requires Kept(z, s)
    ensures var t, n := Saved(z, s, scope, key, url, served), |s.bodies|;
      && |t.bodies| == n + 1 && t.bodies[..n] == s.bodies && t.bodies[n].served == served && t.bodies[n].url == url
      && (if t.bodies[n].dictionary.None? then t.bodies[n].stored == z.compress(served, None) && NoneTrained(s.rows, scope, key)
          else
            && LastTrained(s.rows, scope, key, t.bodies[n].dictionary.value)
            && t.bodies[n].stored == z.compress(served, Some(s.rows[t.bodies[n].dictionary.value].content)))
  {
    CurrentIsStored(z, s, scope, key);
  }

  lemma SavedKept(z: Zstd, s: State, scope: Scope, key: nat, url: string, served: Bytes)
    requires Kept(z, s)
    ensures Kept(z, Saved(z, s, scope, key, url, served))
  {
    CurrentIsStored(z, s, scope, key);
    var t := Saved(z, s, scope, key, url, served);
    assert Recoverable(z, t.rows, Compressed(z, s, scope, key, url, served));
  }

  lemma SavedPageKept(z: Zstd, s: State, host: nat, url: string, served: Bytes)
    requires Kept(z, s)
    ensures Kept(z, SavedPage(z, s, host, url, served))
  {
    var t := SavedPage(z, s, host, url, served);
    var held := HeldBody(s.bodies, url, Sha256(served));
    if served == [] {
      assert Recoverable(z, t.rows, t.bodies[|s.bodies|]);
    } else if held.Some? {
      assert Recoverable(z, s.rows, s.bodies[held.value]);
      assert Recoverable(z, t.rows, t.bodies[|s.bodies|]);
    } else {
      SavedKept(z, s, HOST_PAGE, host, url, served);
    }
  }

  lemma ExpandKept(z: Zstd, s: State, stored: Bytes)
    requires Kept(z, s)
    ensures Kept(z, AfterExpand(z, s, stored))
  {
    var dictId := DictionaryId(z, stored);
    if Named(s.rows, dictId).Some? {
      CachingKept(z, s, dictId, Named(s.rows, dictId).value);
    }
  }

  /** Once a body has been read, the process can read it again with no row to look its dictionary up
      in, and gets the same. */
  lemma ReadsAreCached(z: Zstd, s: State, stored: Bytes)
    requires Expanded(z, s, stored).Success?
    ensures Expanded(z, AfterExpand(z, s, stored).(rows := []), stored) == Expanded(z, s, stored)
  {
  }

  /** The same rows but for when they were trained. */
  ghost predicate Restamped(rows: seq<Row>, after: seq<Row>) {
    |rows| == |after| && forall i :: 0 <= i < |rows| ==> after[i] == rows[i].(trainedAt := after[i].trainedAt)
  }

  lemma {:induction false} RestampedNamed(rows: seq<Row>, after: seq<Row>, dictId: nat)
    requires Restamped(rows, after)
    ensures Named(after, dictId) == Named(rows, dictId)
  {
    if rows != [] {
      var n := |rows| - 1;
      assert Restamped(rows[..n], after[..n]);
      RestampedNamed(rows[..n], after[..n], dictId);
    }
  }

  lemma StillRecoverable(z: Zstd, rows: seq<Row>, after: seq<Row>, b: Body)
    requires Recoverable(z, rows, b) && forall content :: IsStored(rows, content) ==> IsStored(after, content)
    ensures Recoverable(z, after, b)
  {
  }

  /** Training only ever adds a dictionary, so nothing stored or cached before it goes stale. */
  lemma TrainedKept(z: Zstd, s: State, scope: Scope, key: nat, content: Bytes, now: Time)
    requires Kept(z, s) && Names(z, Contents(s.rows) + {content})
    ensures Kept(z, Trained(z, s, scope, key, content, now))
  {
    var t := Trained(z, s, scope, key, content, now);
    var found := FindRow(s.rows, z.nameOf(content), scope, key);
    if found.Some? {
      assert Restamped(s.rows, t.rows);
      forall dictId ensures Named(t.rows, dictId) == Named(s.rows, dictId) {
        RestampedNamed(s.rows, t.rows, dictId);
      }
      assert Contents(t.rows) == Contents(s.rows);
    } else {
      AddedKept(z, s, t.rows[|s.rows|]);
    }
    forall other | IsStored(s.rows, other) ensures IsStored(t.rows, other) {
      var i :| 0 <= i < |s.rows| && s.rows[i].content == other;
      assert t.rows[i].content == other;
    }
    forall i | 0 <= i < |t.bodies| ensures Recoverable(z, t.rows, t.bodies[i]) {
      StillRecoverable(z, s.rows, t.rows, s.bodies[i]);
    }
  }

  lemma ContentsAdded(rows: seq<Row>, row: Row)
    ensures Contents(rows + [row]) == Contents(rows) + {row.content}
  {
    var after := rows + [row];
    assert after[|rows|] == row && forall i :: 0 <= i < |rows| ==> after[i] == rows[i];
    forall c | c in Contents(rows) + {row.content} ensures c in Contents(after) {
      if c != row.content {
        var i :| 0 <= i < |rows| && rows[i].content == c;
        assert after[i].content == c;
      }
    }
  }

  lemma AddedKept(z: Zstd, s: State, row: Row)
    requires Kept(z, s) && row.dictId == z.nameOf(row.content) && Names(z, Contents(s.rows) + {row.content})
    ensures Names(z, Contents(s.rows + [row]))
    ensures forall dictId :: dictId in s.loaded ==> Named(s.rows + [row], dictId) == Some(s.loaded[dictId])
  {
    var after := s.rows + [row];
    ContentsAdded(s.rows, row);
    forall dictId | dictId in s.loaded ensures Named(after, dictId) == Some(s.loaded[dictId]) {
      assert after[..|s.rows|] == s.rows;
      var i :| 0 <= i < |s.rows| && s.rows[i].dictId == dictId && s.rows[i].content == s.loaded[dictId];
      assert s.rows[i].content in Contents(s.rows);
    }
  }

  // -------------------------------------------------------------------------------------
  // Every run.

  datatype Event =
    | SaveBody(scope: Scope, key: nat, served: Bytes)
    | SavePage(host: nat, url: string, page: Bytes)
    // A row written before compression began.
    | Legacy(raw: Bytes)
    // A row pointing at bytes another row already holds.
    | Copy(source: nat)
    | Read(body: nat)
    | Train(trainedFor: Scope, trainedKey: nat, content: Bytes, now: Time)
    | Restart

  ghost predicate Enabled(z: Zstd, s: State, e: Event) {
    match e
    case Legacy(raw) => !HasMagic(raw)
    case Copy(i) => i < |s.bodies|
    case Read(i) => i < |s.bodies|
    case Train(_, _, content, _) => Names(z, Contents(s.rows) + {content})
    case _ => true
  }

  ghost function Next(z: Zstd, s: State, e: Event): State
    requires Enabled(z, s, e)
  {
    match e
    case SaveBody(scope, key, served) => Saved(z, s, scope, key, "", served)
    case SavePage(host, url, page) => SavedPage(z, s, host, url, page)
    case Legacy(raw) => s.(bodies := s.bodies + [Body("", Sha256(raw), raw, raw, None)])
    case Copy(i) => s.(bodies := s.bodies + [s.bodies[i]])
    case Read(i) => AfterExpand(z, s, s.bodies[i].stored)
    case Train(scope, key, content, now) => Trained(z, s, scope, key, content, now)
    case Restart => s.(loaded := map[])
  }

  ghost function Play(z: Zstd, events: seq<Event>): Option<State> {
    if events == [] then Some(State([], map[], []))
    else
      var before, e := Play(z, events[..|events| - 1]), events[|events| - 1];
      if before.Some? && Enabled(z, before.value, e) then Some(Next(z, before.value, e)) else None
  }

  lemma KeptStep(z: Zstd, s: State, e: Event)
    requires Kept(z, s) && Enabled(z, s, e)
    ensures Kept(z, Next(z, s, e))
  {
    match e
    case SaveBody(scope, key, served) => SavedKept(z, s, scope, key, "", served);
    case SavePage(host, url, page) => SavedPageKept(z, s, host, url, page);
    case Legacy(raw) => assert Recoverable(z, s.rows, Body("", Sha256(raw), raw, raw, None));
    case Copy(i) =>
    case Read(i) => ExpandKept(z, s, s.bodies[i].stored);
    case Train(scope, key, content, now) => TrainedKept(z, s, scope, key, content, now);
    case Restart =>
  }

  lemma {:induction false} EveryRunKept(z: Zstd, events: seq<Event>)
    requires Play(z, events).Some?
    ensures Kept(z, Play(z, events).value)
  {
    if events != [] {
      var n := |events| - 1;
      EveryRunKept(z, events[..n]);
      KeptStep(z, Play(z, events[..n]).value, events[n]);
    }
  }

  lemma ServedStays(z: Zstd, s: State, e: Event, i: nat)
    requires Enabled(z, s, e) && i < |s.bodies|
    ensures i < |Next(z, s, e).bodies| && Next(z, s, e).bodies[i] == s.bodies[i]
  {
  }

  /** In every state any run of saves, reads, retrains and restarts can reach, every body there
      expands to the bytes that were served. */
  lemma EveryBodyReadsBack(z: Zstd, events: seq<Event>, i: nat)
    requires Lawful(z) && Play(z, events).Some? && i < |Play(z, events).value.bodies|
    ensures var s := Play(z, events).value; Expanded(z, s, s.bodies[i].stored) == Success(s.bodies[i].served)
    ensures var s := Play(z, events).value;
      forall r :: MayAnswer(z, s, s.bodies[i].stored, r) ==> r == Success(s.bodies[i].served)
  {
    EveryRunKept(z, events);
    var s := Play(z, events).value;
    Expands(z, s, s.bodies[i]);
    forall r | MayAnswer(z, s, s.bodies[i].stored, r) ensures r == Success(s.bodies[i].served) {
      AnyRowWillDo(z, s, s.bodies[i].stored, r);
    }
  }

  /** And a body once stored is never rewritten, whatever is trained after it. */
  lemma {:induction false} BodiesAreNotRewritten(z: Zstd, events: seq<Event>, n: nat, i: nat)
    requires n <= |events| && Play(z, events).Some?
    ensures Play(z, events[..n]).Some?
    ensures i < |Play(z, events[..n]).value.bodies| ==>
      i < |Play(z, events).value.bodies| && Play(z, events).value.bodies[i] == Play(z, events[..n]).value.bodies[i]
    decreases |events|
  {
    if n == |events| {
      assert events[..n] == events;
    } else {
      var last := |events| - 1;
      assert events[..last][..n] == events[..n];
      BodiesAreNotRewritten(z, events[..last], n, i);
      if i < |Play(z, events[..n]).value.bodies| {
        ServedStays(z, Play(z, events[..last]).value, events[last], i);
      }
    }
  }

  // -------------------------------------------------------------------------------------
  // Two dictionaries under one name.

  /** Two feeds, each with a dictionary of its own and one body saved under it, by processes that
      each start with nothing cached. */
  function SharedName(z: Zstd, first: Bytes, second: Bytes, served: Bytes, other: Bytes): State {
    var one := Trained(z, State([], map[], []), FEED_DOCUMENT, 0, first, 0.0);
    var saved := Saved(z, one, FEED_DOCUMENT, 0, "", served).(loaded := map[]);
    var both := Trained(z, saved, FEED_DOCUMENT, 1, second, 1.0);
    Saved(z, both, FEED_DOCUMENT, 1, "", other).(loaded := map[])
  }

  /** Every body reads back, when this row is the one that answers for its name. */
  ghost predicate AllReadUnder(z: Zstd, s: State, row: nat)
    requires row < |s.rows|
  {
    forall b :: b in s.bodies ==> Opened(Decompress(z, b.stored, Some(s.rows[row].content))) == Success(b.served)
  }

  lemma SharedNameIs(z: Zstd, first: Bytes, second: Bytes, served: Bytes, other: Bytes)
    ensures var s := SharedName(z, first, second, served, other);
      && s.rows == [Row(z.nameOf(first), FEED_DOCUMENT, 0, first, 0.0), Row(z.nameOf(second), FEED_DOCUMENT, 1, second, 1.0)]
      && s.loaded == map[]
      && s.bodies == [
           Body("", Sha256(served), served, z.compress(served, Some(first)), Some(0)),
           Body("", Sha256(other), other, z.compress(other, Some(second)), Some(1))]
  {
    var one := Trained(z, State([], map[], []), FEED_DOCUMENT, 0, first, 0.0);
    assert one.rows == [Row(z.nameOf(first), FEED_DOCUMENT, 0, first, 0.0)] && one.rows[..0] == [];
    var saved := Saved(z, one, FEED_DOCUMENT, 0, "", served).(loaded := map[]);
    assert saved.bodies == [Body("", Sha256(served), served, z.compress(served, Some(first)), Some(0))];
    var both := Trained(z, saved, FEED_DOCUMENT, 1, second, 1.0);
    assert both.rows == one.rows + [Row(z.nameOf(second), FEED_DOCUMENT, 1, second, 1.0)];
    assert both.rows[..1] == one.rows;
  }

  /** When the two share their name, either row may answer for both bodies, and whichever does
      reads both back exactly when its dictionary makes of the other's frame what was served. */
  lemma SharedNameReads(z: Zstd, first: Bytes, second: Bytes, served: Bytes, other: Bytes)
    requires Lawful(z) && z.nameOf(first) == z.nameOf(second) != NO_DICTIONARY
    ensures var s := SharedName(z, first, second, served, other);
      && |s.rows| == 2 && |s.bodies| == 2 && s.bodies[0].served == served && s.bodies[1].served == other
      && (forall b, r :: b in s.bodies ==> (MayAnswer(z, s, b.stored, r)
            <==> exists row :: 0 <= row < 2 && r == Opened(Decompress(z, b.stored, Some(s.rows[row].content)))))
      && (AllReadUnder(z, s, 0) <==> z.decompress(z.compress(other, Some(second)), Some(first)) == Some(other))
      && (AllReadUnder(z, s, 1) <==> z.decompress(z.compress(served, Some(first)), Some(second)) == Some(served))
  {
    var s, name := SharedName(z, first, second, served, other), z.nameOf(first);
    var frame, frame' := z.compress(served, Some(first)), z.compress(other, Some(second));
    SharedNameIs(z, first, second, served, other);
    assert HasMagic(frame) && z.frameDictionary(frame) == name && HasMagic(frame') && z.frameDictionary(frame') == name;
    forall b, r | b in s.bodies
      ensures MayAnswer(z, s, b.stored, r)
        <==> exists row :: 0 <= row < 2 && r == Opened(Decompress(z, b.stored, Some(s.rows[row].content)))
    {
      EitherAnswers(z, s, b.stored, name, r);
    }
    TwoRead(z, s, 0);
    TwoRead(z, s, 1);
    assert z.decompress(frame, Some(first)) == Some(served) && z.decompress(frame', Some(second)) == Some(other);
  }

  lemma EitherAnswers(z: Zstd, s: State, stored: Bytes, name: nat, r: Result<Bytes, Error>)
    requires |s.rows| == 2 && s.rows[0].dictId == name && s.rows[1].dictId == name && s.loaded == map[]
    requires HasMagic(stored) && z.frameDictionary(stored) == name != NO_DICTIONARY
    ensures MayAnswer(z, s, stored, r)
       <==> exists row :: 0 <= row < 2 && r == Opened(Decompress(z, stored, Some(s.rows[row].content)))
  {
  }

  lemma TwoRead(z: Zstd, s: State, row: nat)
    requires row < |s.rows| && |s.bodies| == 2
    ensures AllReadUnder(z, s, row)
       <==> && Opened(Decompress(z, s.bodies[0].stored, Some(s.rows[row].content))) == Success(s.bodies[0].served)
            && Opened(Decompress(z, s.bodies[1].stored, Some(s.rows[row].content))) == Success(s.bodies[1].served)
  {
    assert s.bodies == [s.bodies[0], s.bodies[1]];
  }

  /** A library that tags a frame with the first byte of its dictionary, refuses one with another
      tag, and names every dictionary alike. */
  const TAGGING := Zstd(
    (body: Bytes, d: Option<Bytes>) => ZSTD_MAGIC + Tag(d) + body,
    (frame: Bytes, d: Option<Bytes>) =>
      if |frame| >= 4 && Tag(d) <= frame[4..] then Some(frame[4 + |Tag(d)|..]) else None,
    (frame: Bytes) => if |frame| > 4 && frame[4] == 1 then 1 else NO_DICTIONARY,
    (d: Bytes) => 1)

  function Tag(d: Option<Bytes>): (r: Bytes)
    ensures 1 <= |r| <= 2
  {
    if d.None? then [0] else [1, if d.value == [] then 0 else d.value[0]]
  }

  lemma TaggingIsLawful()
    ensures Lawful(TAGGING)
  {
    forall body: Bytes, d: Option<Bytes>
      ensures var frame := TAGGING.compress(body, d);
        HasMagic(frame) && TAGGING.frameDictionary(frame) == NameFor(TAGGING, d) && TAGGING.decompress(frame, d) == Some(body)
    {
      var frame := ZSTD_MAGIC + Tag(d) + body;
      assert frame[..4] == ZSTD_MAGIC && frame[4..] == Tag(d) + body;
      assert frame[4 + |Tag(d)|..] == body;
    }
  }

  /** What the naming assumption rules out: with a lawful library and two dictionaries of one
      name, neither row reads back both of two bodies, one saved under each. */
  lemma SharedNameMisreads(served: Bytes, other: Bytes)
    ensures Lawful(TAGGING) && TAGGING.nameOf([1]) == TAGGING.nameOf([2]) != NO_DICTIONARY
    ensures var s := SharedName(TAGGING, [1], [2], served, other);
      |s.rows| == 2 && !AllReadUnder(TAGGING, s, 0) && !AllReadUnder(TAGGING, s, 1)
  {
    var first: Bytes, second: Bytes := [1], [2];
    TaggingIsLawful();
    SharedNameReads(TAGGING, first, second, served, other);
    var frame, frame' := ZSTD_MAGIC + Tag(Some(first)) + served, ZSTD_MAGIC + Tag(Some(second)) + other;
    assert frame[4..][1] == 1 && Tag(Some(second))[1] == 2;
    assert frame'[4..][1] == 2 && Tag(Some(first))[1] == 1;
  }

  // -------------------------------------------------------------------------------------
  // The process that does it.

  class Library {
    const zstd: Zstd
    var rows: seq<Row>
    var loaded: map<nat, Bytes>
    var bodies: seq<Body>

    ghost function Everything(): State reads this {
      State(rows, loaded, bodies)
    }

    constructor (zstd: Zstd)
      ensures this.zstd == zstd && Everything() == State([], map[], [])
    {
      this.zstd := zstd;
      rows, loaded, bodies := [], map[], [];
    }

    /** `_cached`. */
    method Cache(dictId: nat, content: Bytes) returns (r: Bytes)
      modifies this`loaded
      ensures r == Cached(old(loaded), dictId, content)
      ensures Everything() == Caching(old(Everything()), dictId, content)
    {
      if dictId !in loaded {
        loaded := loaded[dictId := content];
      }
      assert loaded == old(loaded)[dictId := loaded[dictId]];
      r := loaded[dictId];
    }

    /** `expand`, over `_load`. */
    method Expand(stored: Bytes) returns (r: Result<Bytes, Error>)
      modifies this`loaded
      ensures r == Expanded(zstd, old(Everything()), stored)
      ensures Everything() == AfterExpand(zstd, old(Everything()), stored)
    {
      var dictId := DictionaryId(zstd, stored);
      if dictId == NO_DICTIONARY {
        return Opened(Decompress(zstd, stored, None));
      }
      var dictionary;
      if dictId in loaded {
        dictionary := loaded[dictId];
      } else {
        var content := Named(rows, dictId);
        if content.None? {
          return Failure(NoSuchDictionary(dictId));
        }
        dictionary := Cache(dictId, content.value);
      }
      r := Opened(Decompress(zstd, stored, Some(dictionary)));
    }

    /** `_current`. */
    method CurrentFor(scope: Scope, key: nat) returns (r: Option<(nat, Bytes)>)
      modifies this`loaded
      ensures r == Current(old(Everything()), scope, key)
      ensures Everything() == AfterCurrent(old(Everything()), scope, key)
    {
      var row := Newest(rows, scope, key);
      if row.None? {
        return None;
      }
      var content := Cache(rows[row.value].dictId, rows[row.value].content);
      r := Some((row.value, content));
    }

    method Save(scope: Scope, key: nat, url: string, served: Bytes)
      modifies this`loaded, this`bodies
      ensures Everything() == Saved(zstd, old(Everything()), scope, key, url, served)
    {
      var current := CurrentFor(scope, key);
      var stored := zstd.compress(served, if current.Some? then Some(current.value.1) else None);
      bodies := bodies + [Body(url, Sha256(served), served, stored, if current.Some? then Some(current.value.0) else None)];
    }

    /** The body half of a page capture's `_store`. */
    method SavePage(host: nat, url: string, served: Bytes)
      modifies this`loaded, this`bodies
      ensures Everything() == SavedPage(zstd, old(Everything()), host, url, served)
    {
      var held := HeldBody(bodies, url, Sha256(served));
      if served == [] {
        bodies := bodies + [Body(url, Sha256(served), served, [], None)];
      } else if held.None? {
        Save(HOST_PAGE, host, url, served);
      } else {
        bodies := bodies + [Body(url, Sha256(served), served, bodies[held.value].stored, bodies[held.value].dictionary)];
      }
    }

    /** `store`. */
    method StoreDictionary(scope: Scope, key: nat, content: Bytes, now: Time)
      modifies this`rows
      ensures Everything() == Trained(zstd, old(Everything()), scope, key, content, now)
    {
      var found := FindRow(rows, zstd.nameOf(content), scope, key);
      if found.None? {
        rows := rows + [Row(zstd.nameOf(content), scope, key, content, now)];
      } else {
        rows := rows[found.value := rows[found.value].(trainedAt := now)];
      }
    }

    method ReadBack(body: nat) returns (served: Bytes)
      requires Lawful(zstd) && Kept(zstd, Everything()) && body < |bodies|
      modifies this`loaded
      ensures rows == old(rows) && bodies == old(bodies) && Kept(zstd, Everything())
      ensures served == bodies[body].served
    {
      Expands(zstd, Everything(), bodies[body]);
      ExpandKept(zstd, Everything(), bodies[body].stored);
      var r := Expand(bodies[body].stored);
      served := r.value;
    }

    /** `samples`: what a dictionary is trained on is what was served, not what was stored. */
    method Samples(chosen: seq<nat>) returns (r: seq<Bytes>)
      requires Lawful(zstd) && Kept(zstd, Everything()) && forall k :: 0 <= k < |chosen| ==> chosen[k] < |bodies|
      modifies this`loaded
      ensures rows == old(rows) && bodies == old(bodies) && Kept(zstd, Everything())
      ensures |r| == |chosen| && forall k :: 0 <= k < |chosen| ==> r[k] == bodies[chosen[k]].served
    {
      r := [];
      for k := 0 to |chosen|
        invariant rows == old(rows) && bodies == old(bodies) && Kept(zstd, Everything())
        invariant |r| == k && forall j :: 0 <= j < k ==> r[j] == bodies[chosen[j]].served
      {
        var served := ReadBack(chosen[k]);
        r := r + [served];
      }
    }
  }

  // -------------------------------------------------------------------------------------
  // Training.

  datatype Training = Training(content: Bytes, dictId: nat, sampleCount: nat, sampleBytes: nat)

  function TotalBytes(samples: seq<Bytes>): nat {
    if samples == [] then 0 else TotalBytes(samples[..|samples| - 1]) + |samples[|samples| - 1]|
  }

  function Described(z: Zstd, content: Bytes, training: seq<Bytes>): Training {
    Training(content, z.nameOf(content), |training|, TotalBytes(training))
  }

  function SizeUnder(z: Zstd, held: Bytes, dictionary: Option<Bytes>): nat {
    |z.compress(held, dictionary)|
  }

  /** The size on the ladder whose dictionary does best: smaller than plain zstd, no larger than
      any other, and smaller than any before it. */
  ghost predicate Wins(z: Zstd, held: Bytes, candidates: seq<Option<Bytes>>, n: nat) {
    && n < |candidates| && candidates[n].Some?
    && SizeUnder(z, held, candidates[n]) < SizeUnder(z, held, None)
    && (forall m :: 0 <= m < |candidates| && candidates[m].Some? ==>
          SizeUnder(z, held, candidates[n]) <= SizeUnder(z, held, candidates[m]))
    && (forall m :: 0 <= m < n && candidates[m].Some? ==> SizeUnder(z, held, candidates[n]) < SizeUnder(z, held, candidates[m]))
  }

  ghost predicate NoneBeatsPlain(z: Zstd, held: Bytes, candidates: seq<Option<Bytes>>) {
    forall m :: 0 <= m < |candidates| && candidates[m].Some? ==> SizeUnder(z, held, candidates[m]) >= SizeUnder(z, held, None)
  }

  /** What the library trains for each size, None where it refuses. */
  function Candidates(training: seq<Bytes>, ladder: seq<nat>, trainDict: (seq<Bytes>, nat) -> Option<Bytes>): (r: seq<Option<Bytes>>)
    ensures |r| == |ladder| && forall n :: 0 <= n < |ladder| ==> r[n] == trainDict(training, ladder[n])
  {
    seq(|ladder|, n requires 0 <= n < |ladder| => trainDict(training, ladder[n]))
  }

  /** `train`: the winner among the dictionaries the other samples train, measured on the newest,
      or none exactly when too few samples are there or none of them beats plain zstd. */
  method Train(z: Zstd, samples: seq<Bytes>, minSamples: int, ladder: seq<nat>, trainDict: (seq<Bytes>, nat) -> Option<Bytes>)
    returns (best: Option<Training>)
    ensures best.Some? ==> |samples| >= MIN_TRAINABLE_SAMPLES
    ensures best.Some? ==>
      exists n: nat :: Wins(z, samples[0], Candidates(samples[1..], ladder, trainDict), n)
        && best == Some(Described(z, trainDict(samples[1..], ladder[n]).value, samples[1..]))
    ensures best.None? <==>
      || |samples| < MIN_TRAINABLE_SAMPLES || |samples| < minSamples
      || NoneBeatsPlain(z, samples[0], Candidates(samples[1..], ladder, trainDict))
  {
    if |samples| < MIN_TRAINABLE_SAMPLES || |samples| < minSamples {
      return None;
    }
    var held, training := samples[0], samples[1..];
    ghost var candidates := Candidates(training, ladder, trainDict);
    var smallest := |z.compress(held, None)|;
    best := None;
    ghost var at := 0;
    for n := 0 to |ladder|
      invariant best.None? ==> smallest == SizeUnder(z, held, None)
      invariant best.Some? ==> at < n && candidates[at].Some? && best.value == Described(z, candidates[at].value, training)
      invariant best.Some? ==> smallest == SizeUnder(z, held, candidates[at]) < SizeUnder(z, held, None)
      invariant best.Some? ==> forall m :: 0 <= m < at && candidates[m].Some? ==> smallest < SizeUnder(z, held, candidates[m])
      invariant forall m :: 0 <= m < n && candidates[m].Some? ==> smallest <= SizeUnder(z, held, candidates[m])
    {
      var candidate := trainDict(training, ladder[n]);
      if candidate.None? {
        continue;
      }
      var stored := |z.compress(held, candidate)|;
      if stored >= smallest {
        continue;
      }
      smallest := stored;
      at := n;
      best := Some(Described(z, candidate.value, training));
    }
    assert best.Some? ==> Wins(z, held, candidates, at);
  }
}
