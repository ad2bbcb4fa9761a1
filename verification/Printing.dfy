/** The two languages of one query: what `web/src/lib/links.ts` prints, `ui/query.py` reads, and
    both cut into the same terms. */
module Printing {
  import opened Wrappers
  import opened Query
  import opened Periods
  import Links

  // -------------------------------------------------------------------------------------
  // What the client prints.

  function Quoteless(value: string): string {
    if value == "" then "" else (if value[0] == '"' then "" else [value[0]]) + Quoteless(value[1..])
  }

  /** A name with the quotes taken out of it and the space from around it. */
  function Plain(title: string): string {
    Links.Trim(Quoteless(title))
  }

  predicate HasClientSpace(s: string) {
    exists i :: 0 <= i < |s| && Links.Space(s[i])
  }

  /** `named`. */
  function NamedText(title: string): string {
    if HasClientSpace(Plain(title)) then "\"" + Plain(title) + "\"" else Plain(title)
  }

  /** One thing a rail or a byline narrows by. */
  datatype Narrowing = Publication(title: string) | State(state: string) | Dated(period: Period)

  ghost predicate Sane(n: Narrowing) {
    n.Dated? ==> ValidPeriod(n.period)
  }

  function KeyText(key: string, value: string): string {
    key + ":" + value
  }

  const FROM := "from"
  const IS := "is"
  const AFTER := "after"
  const BEFORE := "before"

  /** The terms a narrowing is spelled with. */
  function Spelled(n: Narrowing): seq<string>
    requires Sane(n)
  {
    match n
    case Publication(title) => [KeyText(FROM, NamedText(title))]
    case State(state) => [KeyText(IS, state)]
    case Dated(p) => [KeyText(AFTER, SinceText(p)), KeyText(BEFORE, UntilText(p))]
  }

  /** Read as it was meant: a name with something left of it, whose spaces both languages know
      for spaces, or which is quoted and on one line. */
  ghost predicate Readable(n: Narrowing) {
    match n
    case Publication(title) => ReadableName(Plain(title))
    case State(state) => state in STATES
    case Dated(p) => ValidPeriod(p) && Until(p).year <= 9999
  }

  ghost predicate ReadableName(plain: string) {
    plain != "" && if HasClientSpace(plain) then '\n' !in plain else forall i :: 0 <= i < |plain| ==> !Space(plain[i])
  }

  ghost predicate AllReadable(ns: seq<Narrowing>) {
    forall i :: 0 <= i < |ns| ==> Readable(ns[i])
  }

  function AllSpelled(ns: seq<Narrowing>): seq<string>
    requires AllReadable(ns)
  {
    if ns == [] then [] else AllSpelled(ns[..|ns| - 1]) + Spelled(ns[|ns| - 1])
  }

  /** What a narrowing is meant to do to a query. */
  function Meant(q: Query, n: Narrowing): Query {
    match n
    case Publication(title) => q.(publications := q.publications + [Named(Plain(title), false)])
    case State(state) => q.(states := q.states + [state])
    case Dated(p) => q.(since := Some(Since(p)), until := Some(Until(p)))
  }

  function AllMeant(ns: seq<Narrowing>): Query {
    if ns == [] then EVERYTHING else Meant(AllMeant(ns[..|ns| - 1]), ns[|ns| - 1])
  }

  // -------------------------------------------------------------------------------------
  // Runs.

  lemma {:induction false} RunOver(a: string, b: string, p: char -> bool)
    requires forall i :: 0 <= i < |a| ==> p(a[i])
    ensures Run(a + b, p) == |a| + Run(b, p)
  {
    if a == "" {
      assert a + b == b;
    } else {
      assert (a + b)[0] == a[0] && (a + b)[1..] == a[1..] + b;
      RunOver(a[1..], b, p);
    }
  }

  lemma RunStops(a: string, c: char, b: string, p: char -> bool)
    requires (forall i :: 0 <= i < |a| ==> p(a[i])) && !p(c)
    ensures Run(a + [c] + b, p) == |a|
  {
    RunOver(a, [c] + b, p);
    assert a + [c] + b == a + ([c] + b);
  }

  lemma RunWhole(a: string, p: char -> bool)
    requires forall i :: 0 <= i < |a| ==> p(a[i])
    ensures Run(a, p) == |a|
  {
    RunOver(a, "", p);
    assert a + "" == a;
  }

  ghost predicate IsKey(key: string) {
    key != "" && forall i :: 0 <= i < |key| ==> Letter(key[i])
  }

  lemma KeyIs(key: string, rest: string)
    requires IsKey(key)
    ensures KeyLength(key + ":" + rest) == |key| + 1
  {
    RunStops(key, ':', rest, Letter);
  }

  // -------------------------------------------------------------------------------------
  // One term is one token, whatever follows it.

  /** The scanner takes `t` off the front whether it ends the query or a space follows. */
  ghost predicate Whole(t: string) {
    Tokens(t) == [t] && forall rest :: Tokens(t + " " + rest) == [t] + Tokens(rest)
  }

  lemma NotQuoted(s: string, n: nat)
    requires 0 < n <= |s| && (forall i :: 0 <= i < n ==> s[i] != '"' && !Space(s[i]))
    requires n < |s| ==> Space(s[n])
    ensures QuotedLength(s) == 0
  {
    var minus := if s[0] == '-' then 1 else 0;
    var tail := s[minus..];
    var k, m := KeyLength(tail), Run(tail, Letter);
    assert n < |s| ==> tail[n - minus] == s[n] && !Letter(s[n]) && s[n] != '"' && s[n] != ':';
    assert m <= n - minus;
    assert k > 0 ==> tail[m] == ':';
  }

  /** No quotes and no whitespace: taken to the next space. */
  lemma {:induction false} BareIsWhole(t: string)
    requires t != "" && forall i :: 0 <= i < |t| ==> t[i] != '"' && !Space(t[i])
    ensures Whole(t)
  {
    BareToken(t);
    forall rest ensures Tokens(t + " " + rest) == [t] + Tokens(rest) {
      CutToken(t, ' ', rest);
    }
  }

  lemma BareToken(t: string)
    requires t != "" && forall i :: 0 <= i < |t| ==> t[i] != '"' && !Space(t[i])
    ensures Tokens(t) == [t]
  {
    NotQuoted(t, |t|);
    RunWhole(t, (c: char) => !Space(c));
    assert t[..|t|] == t && t[|t|..] == "";
    assert Tokens(t[|t|..]) == [];
  }

  lemma SpaceSkipped(space: char, rest: string)
    requires Space(space)
    ensures Tokens([space] + rest) == Tokens(rest)
  {
    var s := [space] + rest;
    assert s[0] == space && s[1..] == rest;
    assert s[0..] == s;
    assert Run(s, Letter) == 0;
    assert QuotedLength(s) == 0;
  }

  /** A token ends at the first whitespace, whatever it is. */
  lemma {:induction false} CutToken(t: string, space: char, rest: string)
    requires t != "" && (forall i :: 0 <= i < |t| ==> t[i] != '"' && !Space(t[i])) && Space(space)
    ensures Tokens(t + [space] + rest) == [t] + Tokens(rest)
  {
    var s := t + [space] + rest;
    NotQuoted(s, |t|);
    RunStops(t, space, rest, (c: char) => !Space(c));
    assert s[..|t|] == t && s[|t|..] == [space] + rest;
    SpaceSkipped(space, rest);
  }

  lemma QuotedRun(key: string, plain: string, rest: string)
    requires IsKey(key) && '"' !in plain
    ensures var t := KeyText(key, "\"" + plain + "\"");
      QuotedLength(t + rest) == |t|
  {
    var t := KeyText(key, "\"" + plain + "\"");
    var s := t + rest;
    var after := plain + "\"" + rest;
    assert s[0..] == s;
    assert s == key + ":" + ("\"" + after);
    KeyIs(key, "\"" + after);
    assert s[|key| + 1] == '"' && s[|key| + 2..] == after;
    RunStops(plain, '"', rest, (c: char) => c != '"');
    assert s[0] == key[0] && Letter(key[0]);
  }

  /** A quoted run is taken whole, whatever whitespace is in it. */
  lemma {:induction false} QuotedIsWhole(key: string, plain: string)
    requires IsKey(key) && '"' !in plain
    ensures Whole(KeyText(key, "\"" + plain + "\""))
  {
    var t := KeyText(key, "\"" + plain + "\"");
    QuotedRun(key, plain, "");
    assert t + "" == t && t[..|t|] == t && t[|t|..] == "";
    assert Tokens(t[|t|..]) == [];
    forall rest ensures Tokens(t + " " + rest) == [t] + Tokens(rest) {
      QuotedTokenThen(t, rest, key, plain);
    }
  }

  lemma QuotedTokenThen(t: string, rest: string, key: string, plain: string)
    requires IsKey(key) && '"' !in plain && t == KeyText(key, "\"" + plain + "\"")
    ensures Tokens(t + " " + rest) == [t] + Tokens(rest)
  {
    var s := t + " " + rest;
    QuotedRun(key, plain, " " + rest);
    assert s == t + (" " + rest);
    assert s[..|t|] == t && s[|t|..] == " " + rest;
    SpaceSkipped(' ', rest);
  }

  /** A query joined from whole terms is cut back into them. */
  lemma {:induction false} JoinedTokens(ts: seq<string>)
    requires forall t :: t in ts ==> Whole(t)
    ensures Tokens(Links.Join(ts)) == ts
  {
    if |ts| == 1 {
      assert ts[0] in ts;
    } else if |ts| > 1 {
      assert ts[0] in ts && forall t :: t in ts[1..] ==> t in ts;
      JoinedTokens(ts[1..]);
      assert ts == [ts[0]] + ts[1..];
    }
  }

  // -------------------------------------------------------------------------------------
  // What a spelled term is read as.

  lemma LineIs(value: string)
    ensures '\n' !in value ==> Line(value) == |value|
    ensures Line(value) == |value| ==> '\n' !in value
  {
    if '\n' !in value {
      RunWhole(value, (c: char) => c != '\n');
    }
  }

  lemma BodyOf(key: string, value: string)
    requires IsKey(key)
    ensures var t := KeyText(key, value); t != "" && t[0] != '-' && KeyLength(t) == |key| + 1 && t[..|key|] == key && t[|key| + 1..] == value
  {
    KeyIs(key, value);
    var t := KeyText(key, value);
    assert t[0] == key[0] && Letter(key[0]);
  }

  lemma ReadsAs(key: string, value: string)
    requires IsKey(key) && key in OPERATORS && '\n' !in value
    ensures SplitToken(KeyText(key, value)) == Opened(false, key, value)
  {
    BodyOf(key, value);
    LineIs(value);
    assert value[..|value|] == value;
  }

  /** A value that goes on past the end of its line is no operator's, and its term is read as
      words. */
  lemma ReadsAsWords(key: string, value: string)
    requires IsKey(key) && |value| - Line(value) > 1
    ensures SplitToken(KeyText(key, value)).key == ""
  {
    BodyOf(key, value);
  }

  lemma OpenedPlain(key: string, plain: string)
    requires '"' !in plain
    ensures Opened(false, key, plain) == Token(false, key, plain, false)
    ensures Opened(false, key, "\"" + plain + "\"") == Token(false, key, plain, true)
  {
    var raw := "\"" + plain + "\"";
    assert raw[1..|raw| - 1] == plain;
    assert plain != "" ==> plain[0] in plain;
  }

  lemma {:induction false} QuotelessIs(value: string)
    ensures '"' !in Quoteless(value)
  {
    if value != "" {
      QuotelessIs(value[1..]);
    }
  }

  lemma {:induction false} TrimKeeps(s: string)
    ensures forall c :: c in Links.Trim(s) ==> c in s
    decreases |s|
  {
    if s != "" {
      if Links.Space(s[0]) {
        TrimKeeps(s[1..]);
      } else if Links.Space(s[|s| - 1]) {
        TrimKeeps(s[..|s| - 1]);
      }
    }
  }

  lemma PlainIs(title: string)
    ensures '"' !in Plain(title)
  {
    QuotelessIs(title);
    TrimKeeps(Quoteless(title));
  }

  lemma KeysAreKeys()
    ensures IsKey(FROM) && IsKey(IS) && IsKey(AFTER) && IsKey(BEFORE)
    ensures FROM in OPERATORS && IS in OPERATORS && AFTER in OPERATORS && BEFORE in OPERATORS
  {
    assert OPERATORS[0] == FROM && OPERATORS[2] == AFTER && OPERATORS[3] == BEFORE && OPERATORS[4] == IS;
  }

  lemma OneParsed(q: Query, t: string, isWord: char -> bool)
    ensures Parsed(q, [t], isWord) == Absorbed(q, SplitToken(t), isWord)
  {
    assert [t][..0] == [];
    assert Parsed(q, [], isWord) == Success(q);
  }

  lemma TwoParsed(q: Query, t: string, u: string, isWord: char -> bool)
    ensures Parsed(q, [t, u], isWord) == match Absorbed(q, SplitToken(t), isWord) {
      case Failure(e) => Failure(e)
      case Success(so) => Absorbed(so, SplitToken(u), isWord)
    }
  {
    assert [t, u] == [t] + [u];
    ParsedJoins(q, [t], [u], isWord);
    OneParsed(q, t, isWord);
    if Absorbed(q, SplitToken(t), isWord).Success? {
      OneParsed(Absorbed(q, SplitToken(t), isWord).value, u, isWord);
    }
  }

  lemma NameParses(q: Query, title: string, isWord: char -> bool)
    requires ReadableName(Plain(title))
    ensures Parsed(q, [KeyText(FROM, NamedText(title))], isWord) == Success(Meant(q, Publication(title)))
    ensures Whole(KeyText(FROM, NamedText(title)))
  {
    var plain := Plain(title);
    PlainIs(title);
    KeysAreKeys();
    OpenedPlain(FROM, plain);
    OneParsed(q, KeyText(FROM, NamedText(title)), isWord);
    if HasClientSpace(plain) {
      assert '\n' !in "\"" + plain + "\"";
      ReadsAs(FROM, "\"" + plain + "\"");
      QuotedIsWhole(FROM, plain);
    } else {
      assert '\n' !in plain by {
        assert Space('\n');
      }
      ReadsAs(FROM, plain);
      BareKeyIsWhole(FROM, plain);
    }
  }

  lemma BareKeyIsWhole(key: string, value: string)
    requires IsKey(key) && '"' !in value && forall i :: 0 <= i < |value| ==> !Space(value[i])
    ensures Whole(KeyText(key, value))
  {
    var t := KeyText(key, value);
    forall i | 0 <= i < |t| ensures t[i] != '"' && !Space(t[i]) {
      if i < |key| {
        assert t[i] == key[i] && Letter(key[i]);
      } else if i > |key| {
        assert t[i] == value[i - |key| - 1] && t[i] in value;
      }
    }
    BareIsWhole(t);
  }

  /** No quotes, no whitespace in either language, and something there. */
  ghost predicate Wordlike(s: string) {
    s != "" && forall i :: 0 <= i < |s| ==> s[i] != '"' && !Space(s[i]) && !Links.Space(s[i])
  }

  lemma WordlikeParses(q: Query, key: string, value: string, isWord: char -> bool)
    requires IsKey(key) && key in OPERATORS && Wordlike(value)
    ensures Parsed(q, [KeyText(key, value)], isWord) == Absorbed(q, Token(false, key, value, false), isWord)
    ensures SplitToken(KeyText(key, value)) == Token(false, key, value, false)
    ensures Whole(KeyText(key, value))
  {
    assert '\n' !in value by {
      assert Space('\n');
    }
    assert '"' !in value;
    ReadsAs(key, value);
    OpenedPlain(key, value);
    OneParsed(q, KeyText(key, value), isWord);
    BareKeyIsWhole(key, value);
  }

  lemma StateIsWordlike(state: string)
    requires state in STATES
    ensures Wordlike(state)
  {
    assert STATES == ["read", "unread", "finished", "unfinished", "saved"];
    var i :| 0 <= i < |STATES| && STATES[i] == state;
    assert forall k :: 0 <= k < |state| ==> Letter(state[k]);
  }

  lemma PeriodIsWordlike(p: Period)
    requires ValidPeriod(p)
    ensures Wordlike(SinceText(p)) && Wordlike(UntilText(p))
  {
    var digits := p.Month? ==> Digital(Padded(p.month));
    if p.Month? {
      PaddedReads(p.month);
      PaddedReads(UntilOrdinals(p).1);
      DatesAreWordlike(SinceText(p));
      DatesAreWordlike(UntilText(p));
    } else {
      DatesAreWordlike(SinceText(p));
      DatesAreWordlike(UntilText(p));
    }
  }

  lemma DatesAreWordlike(s: string)
    requires s != "" && forall c :: c in s ==> '0' <= c <= '9' || c == '-'
    ensures Wordlike(s)
  {
    forall i | 0 <= i < |s| ensures s[i] != '"' && !Space(s[i]) && !Links.Space(s[i]) {
      assert s[i] in s;
    }
  }

  lemma PeriodParses(q: Query, p: Period, isWord: char -> bool)
    requires ValidPeriod(p)
    ensures Parsed(q, Spelled(Dated(p)), isWord)
         == if Until(p).year <= 9999 then Success(Meant(q, Dated(p))) else Failure(BadDate(BEFORE, UntilText(p)))
  {
    KeysAreKeys();
    PeriodIsWordlike(p);
    SinceReads(AFTER, p);
    UntilReads(BEFORE, p);
    WordlikeParses(q, AFTER, SinceText(p), isWord);
    WordlikeParses(q, BEFORE, UntilText(p), isWord);
    TwoParsed(q, KeyText(AFTER, SinceText(p)), KeyText(BEFORE, UntilText(p)), isWord);
  }

  lemma WordlikeIsWhole(key: string, value: string)
    requires IsKey(key) && Wordlike(value)
    ensures Whole(KeyText(key, value))
  {
    assert '"' !in value;
    BareKeyIsWhole(key, value);
  }

  lemma PeriodIsWhole(p: Period)
    requires ValidPeriod(p)
    ensures forall t :: t in Spelled(Dated(p)) ==> Whole(t)
  {
    KeysAreKeys();
    PeriodIsWordlike(p);
    WordlikeIsWhole(AFTER, SinceText(p));
    WordlikeIsWhole(BEFORE, UntilText(p));
    var since, until := KeyText(AFTER, SinceText(p)), KeyText(BEFORE, UntilText(p));
    assert forall t :: t in [since, until] ==> t == since || t == until;
  }

  /** What the client spells is cut into the terms it was spelled with and does to the query what
      was meant. */
  lemma NarrowingParses(q: Query, n: Narrowing, isWord: char -> bool)
    requires Readable(n)
    ensures Parsed(q, Spelled(n), isWord) == Success(Meant(q, n))
    ensures forall t :: t in Spelled(n) ==> Whole(t)
  {
    match n
    case Publication(title) => NameParses(q, title, isWord);
    case State(state) =>
      KeysAreKeys();
      StateIsWordlike(state);
      WordlikeParses(q, IS, state, isWord);
    case Dated(p) =>
      PeriodParses(q, p, isWord);
      PeriodIsWhole(p);
  }

  lemma {:induction false} AllParse(ns: seq<Narrowing>, isWord: char -> bool)
    requires AllReadable(ns)
    ensures Parsed(EVERYTHING, AllSpelled(ns), isWord) == Success(AllMeant(ns))
    ensures forall t :: t in AllSpelled(ns) ==> Whole(t)
  {
    if ns != [] {
      var init, n := ns[..|ns| - 1], ns[|ns| - 1];
      AllParse(init, isWord);
      NarrowingParses(AllMeant(init), n, isWord);
      ParsedJoins(EVERYTHING, AllSpelled(init), Spelled(n), isWord);
    }
  }

  /** Printed, joined and parsed, any list of narrowings is exactly the query they mean: the
      names, the states, and the half-open range of the last period. */
  lemma PrintThenParse(ns: seq<Narrowing>, isWord: char -> bool)
    requires AllReadable(ns)
    ensures Tokens(Links.Join(AllSpelled(ns))) == AllSpelled(ns)
    ensures Asked(Links.Join(AllSpelled(ns)), isWord) == Success(AllMeant(ns))
  {
    AllParse(ns, isWord);
    JoinedTokens(AllSpelled(ns));
  }

  /** What the rail's own name for a period is turned into is its two terms. */
  lemma WithinIsSpelled(p: Period)
    requires ValidPeriod(p)
    ensures Within(NameOf(p)) == Links.Join(Spelled(Dated(p)))
  {
    BoundsAre(p);
    var terms := Spelled(Dated(p));
    assert terms[1..] == [terms[1]] && Links.Join([terms[1]]) == terms[1];
    WithinText(SinceText(p), UntilText(p));
  }

  lemma WithinText(since: string, until: string)
    ensures "after:" + since + " before:" + until == KeyText(AFTER, since) + " " + KeyText(BEFORE, until)
  {
    var a, b := "after:" + since + " before:" + until, KeyText(AFTER, since) + " " + KeyText(BEFORE, until);
    assert |a| == |b| && forall i :: 0 <= i < |a| ==> a[i] == b[i];
  }

  // -------------------------------------------------------------------------------------
  // Names that do not come through.

  /** Where the name would be the only thing the query holds. */
  function JustName(plain: string): Query {
    EVERYTHING.(publications := [Named(plain, false)])
  }

  lemma EmptyNameFails(title: string, isWord: char -> bool)
    requires Plain(title) == ""
    ensures Asked(KeyText(FROM, NamedText(title)), isWord) == Failure(Bare(FROM))
  {
    var t := KeyText(FROM, "");
    KeysAreKeys();
    ReadsAs(FROM, "");
    BareKeyIsWhole(FROM, "");
    OneParsed(EVERYTHING, t, isWord);
    assert t == KeyText(FROM, NamedText(title));
  }

  lemma BrokenLineIsWords(title: string, isWord: char -> bool)
    requires HasClientSpace(Plain(title)) && '\n' in Plain(title)
    ensures var r := Asked(KeyText(FROM, NamedText(title)), isWord);
      r.Success? && r.value.publications == []
  {
    var plain := Plain(title);
    var value := "\"" + plain + "\"";
    PlainIs(title);
    KeysAreKeys();
    QuotedIsWhole(FROM, plain);
    LineInside(plain);
    ReadsAsWords(FROM, value);
    OneParsed(EVERYTHING, KeyText(FROM, value), isWord);
  }

  lemma LineInside(plain: string)
    requires '\n' in plain
    ensures var value := "\"" + plain + "\""; |value| - Line(value) > 1
  {
    var value := "\"" + plain + "\"";
    var i :| 0 <= i < |plain| && plain[i] == '\n';
    assert value[i + 1] == '\n';
    assert Line(value) <= i + 1;
  }

  /** A space only the server knows cuts the name short. */
  lemma CutShort(title: string, k: nat, isWord: char -> bool)
    requires var plain := Plain(title);
      !HasClientSpace(plain) && k < |plain| && Space(plain[k]) && forall i :: 0 <= i < k ==> !Space(plain[i])
    ensures var r := Asked(KeyText(FROM, NamedText(title)), isWord);
      r.Success? ==> |r.value.publications| > 0 && r.value.publications[0] == Named(Plain(title)[..k], false)
  {
    var plain := Plain(title);
    var head, rest := KeyText(FROM, plain[..k]), plain[k + 1..];
    var s := KeyText(FROM, plain);
    PlainIs(title);
    KeysAreKeys();
    assert plain == plain[..k] + [plain[k]] + rest;
    assert s == head + [plain[k]] + rest;
    forall i | 0 <= i < |head| ensures head[i] != '"' && !Space(head[i]) {
      if i < |FROM| {
        assert head[i] == FROM[i] && Letter(FROM[i]);
      } else if i > |FROM| {
        assert head[i] == plain[i - |FROM| - 1] && plain[i - |FROM| - 1] in plain;
      }
    }
    CutToken(head, plain[k], rest);
    ServerLine(plain, k);
    assert '"' !in plain[..k];
    ReadsAs(FROM, plain[..k]);
    OpenedPlain(FROM, plain[..k]);
    var so := Absorbed(EVERYTHING, SplitToken(head), isWord);
    OneParsed(EVERYTHING, head, isWord);
    ParsedJoins(EVERYTHING, [head], Tokens(rest), isWord);
    if so.Success? {
      ParsedGrows(so.value, Tokens(rest), isWord);
    }
  }

  lemma ServerLine(plain: string, k: nat)
    requires k <= |plain| && forall i :: 0 <= i < k ==> !Space(plain[i])
    ensures '\n' !in plain[..k]
  {
    assert Space('\n');
  }

  lemma FirstServerSpace(plain: string) returns (k: nat)
    requires exists i :: 0 <= i < |plain| && Space(plain[i])
    ensures k < |plain| && Space(plain[k]) && forall i :: 0 <= i < k ==> !Space(plain[i])
  {
    k := 0;
    while !Space(plain[k])
      invariant k < |plain|
      invariant forall i :: 0 <= i < k ==> !Space(plain[i])
      invariant exists i :: k <= i < |plain| && Space(plain[i])
      decreases |plain| - k
    {
      k := k + 1;
    }
  }

  function OneName(title: string, isWord: char -> bool): Result<Query, BadQuery> {
    Asked(KeyText(FROM, NamedText(title)), isWord)
  }

  lemma UnreadableName(title: string, isWord: char -> bool)
    requires !ReadableName(Plain(title))
    ensures var r := OneName(title, isWord); r.Success? ==> r.value.publications != [Named(Plain(title), false)]
  {
    var plain := Plain(title);
    if plain == "" {
      EmptyNameFails(title, isWord);
    } else if HasClientSpace(plain) {
      BrokenLineIsWords(title, isWord);
    } else {
      var k := FirstServerSpace(plain);
      CutShort(title, k, isWord);
      assert |plain[..k]| < |plain|;
    }
  }

  lemma ReadableNameParses(title: string, isWord: char -> bool)
    requires ReadableName(Plain(title))
    ensures OneName(title, isWord) == Success(JustName(Plain(title)))
  {
    NameTokensParse(EVERYTHING, title, isWord);
    assert EVERYTHING.publications + [Named(Plain(title), false)] == [Named(Plain(title), false)];
  }

  lemma NameTokensParse(q: Query, title: string, isWord: char -> bool)
    requires ReadableName(Plain(title))
    ensures Parsed(q, Tokens(KeyText(FROM, NamedText(title))), isWord) == Success(Meant(q, Publication(title)))
  {
    NameParses(q, title, isWord);
  }

  /** A publication's own link asks for that publication exactly when its name is readable: when
      something is left of it, and, quoted, it is on one line, or, bare, it holds no space that
      only the server knows for one. */
  lemma OneNameParses(title: string, isWord: char -> bool)
    ensures OneName(title, isWord) == Success(JustName(Plain(title))) <==> ReadableName(Plain(title))
  {
    if ReadableName(Plain(title)) {
      ReadableNameParses(title, isWord);
    } else {
      UnreadableName(title, isWord);
    }
  }

  // -------------------------------------------------------------------------------------
  // The client's own reading of what it prints.

  lemma SpelledIsClean(n: Narrowing)
    requires Readable(n)
    ensures forall t :: t in Spelled(n) ==> Links.CleanAt(t, false)
  {
    match n
    case Publication(title) =>
      PlainIs(title);
      if HasClientSpace(Plain(title)) {
        QuotedIsClean(FROM, Plain(title));
      } else {
        BareIsClean(KeyText(FROM, Plain(title)));
      }
    case State(state) =>
      StateIsWordlike(state);
      BareIsClean(KeyText(IS, state));
    case Dated(p) =>
      PeriodIsWordlike(p);
      BareIsClean(KeyText(AFTER, SinceText(p)));
      BareIsClean(KeyText(BEFORE, UntilText(p)));
  }

  lemma BareIsClean(t: string)
    requires t != "" && forall i :: 0 <= i < |t| ==> t[i] != '"' && !Links.Space(t[i])
    ensures Links.CleanAt(t, false)
  {
    Links.Quoteless(t);
  }

  lemma QuotedIsClean(key: string, plain: string)
    requires IsKey(key) && '"' !in plain
    ensures Links.CleanAt(KeyText(key, "\"" + plain + "\""), false)
  {
    var head, tail := key + ":\"", plain + "\"";
    var t := KeyText(key, "\"" + plain + "\"");
    assert t == head + tail;
    Links.Quoteless(key + ":");
    Links.OddJoins(key + ":", "\"");
    assert Links.Odd("\"");
    assert head == (key + ":") + "\"";
    OddTail(plain);
    Links.OddJoins(head, tail);
    assert forall c :: c in head ==> !Links.Space(c);
    QuotedIsClosed(plain);
    Links.ClosedAfter(head, tail);
    assert t[0] == key[0] && Letter(key[0]);
  }

  lemma OddTail(plain: string)
    requires '"' !in plain
    ensures Links.Odd(plain + "\"")
  {
    Links.Quoteless(plain);
    Links.OddJoins(plain, "\"");
    assert Links.Odd("\"");
  }

  lemma {:induction false} QuotedIsClosed(plain: string)
    requires '"' !in plain
    ensures Links.Closed(plain + "\"")
  {
    if plain == "" {
      assert plain + "\"" == "\"";
    } else {
      assert plain[0] in plain && forall c :: c in plain[1..] ==> c in plain;
      QuotedIsClosed(plain[1..]);
      OddTail(plain[1..]);
      Links.ClosedMore(plain[0], plain[1..] + "\"");
      assert plain + "\"" == [plain[0]] + (plain[1..] + "\"");
    }
  }

  lemma {:induction false} AllSpelledClean(ns: seq<Narrowing>)
    requires AllReadable(ns)
    ensures forall t :: t in AllSpelled(ns) ==> Links.CleanAt(t, false)
  {
    if ns != [] {
      AllSpelledClean(ns[..|ns| - 1]);
      SpelledIsClean(ns[|ns| - 1]);
    }
  }

  lemma CleanList(ts: seq<string>)
    requires forall t :: t in ts ==> Links.CleanAt(t, false)
    ensures Links.Clean(ts)
  {
    assert forall i :: 0 <= i < |ts| ==> ts[i] in ts;
  }

  lemma ClientTerms(ns: seq<Narrowing>)
    requires AllReadable(ns)
    ensures Links.Terms(Links.Join(AllSpelled(ns))) == Links.Unique(AllSpelled(ns))
    ensures Links.Distinct(AllSpelled(ns)) ==> Links.Terms(Links.Join(AllSpelled(ns))) == AllSpelled(ns)
  {
    AllSpelledClean(ns);
    CleanList(AllSpelled(ns));
    Links.TermsOfJoined(AllSpelled(ns));
    if Links.Distinct(AllSpelled(ns)) {
      Links.UniqueOfDistinct(AllSpelled(ns));
    }
  }

  lemma ServerTokens(ns: seq<Narrowing>)
    requires AllReadable(ns)
    ensures Tokens(Links.Join(AllSpelled(ns))) == AllSpelled(ns)
  {
    AllParse(ns, Letter);
    JoinedTokens(AllSpelled(ns));
  }

  /** The client cuts what it printed into the very tokens the server does, each kept once. */
  lemma BothCutAlike(ns: seq<Narrowing>)
    requires AllReadable(ns)
    ensures var q := Links.Join(AllSpelled(ns)); Links.Terms(q) == Links.Unique(Tokens(q))
  {
    ServerTokens(ns);
    ClientTerms(ns);
  }

  // -------------------------------------------------------------------------------------
  // Clicking a narrowing, end to end.

  ghost predicate Undated(ns: seq<Narrowing>) {
    forall i :: 0 <= i < |ns| ==> !ns[i].Dated?
  }

  lemma AppendSpelled(ns: seq<Narrowing>, n: Narrowing)
    requires AllReadable(ns) && Readable(n)
    ensures AllReadable(ns + [n]) && AllSpelled(ns + [n]) == AllSpelled(ns) + Spelled(n)
    ensures AllMeant(ns + [n]) == Meant(AllMeant(ns), n)
  {
    assert (ns + [n])[..|ns|] == ns;
  }

  lemma SpelledDates(n: Narrowing)
    requires Sane(n)
    ensures forall t :: t in Spelled(n) ==> (Links.IsDate(t) <==> n.Dated?)
  {
    match n
    case Publication(title) => assert KeyText(FROM, NamedText(title))[0] == 'f';
    case State(state) => assert KeyText(IS, state)[0] == 'i';
    case Dated(p) =>
      var since, until := KeyText(AFTER, SinceText(p)), KeyText(BEFORE, UntilText(p));
      assert since[..6] == "after:";
      assert until[..7] == "before:";
  }

  lemma SpelledTerms(n: Narrowing)
    requires Readable(n)
    ensures Links.Terms(Links.Join(Spelled(n))) == Spelled(n)
  {
    SpelledIsClean(n);
    CleanList(Spelled(n));
    Links.TermsOfJoined(Spelled(n));
    if n.Dated? { PairIsDistinct(n.period); }
    Links.UniqueOfDistinct(Spelled(n));
  }

  lemma NarrowedText(ns: seq<Narrowing>, n: Narrowing)
    requires AllReadable(ns) && Readable(n)
    requires Links.Distinct(AllSpelled(ns)) && !n.Dated?
    requires forall t :: t in Spelled(n) ==> t !in AllSpelled(ns)
    ensures AllReadable(ns + [n])
    ensures Links.Toggled(Links.Join(AllSpelled(ns)), Links.Join(Spelled(n))) == Links.Join(AllSpelled(ns + [n]))
  {
    ClientTerms(ns);
    SpelledTerms(n);
    SpelledDates(n);
    Links.SwitchesOn(Links.Join(AllSpelled(ns)), Links.Join(Spelled(n)));
    AppendSpelled(ns, n);
  }

  /** Switching on something that is in no term of the query yet asks for all it asked for before
      and for that besides. */
  lemma ClickNarrows(ns: seq<Narrowing>, n: Narrowing, isWord: char -> bool)
    requires AllReadable(ns) && Readable(n)
    requires Links.Distinct(AllSpelled(ns)) && !n.Dated?
    requires forall t :: t in Spelled(n) ==> t !in AllSpelled(ns)
    ensures var q := Links.Toggled(Links.Join(AllSpelled(ns)), Links.Join(Spelled(n)));
      Asked(q, isWord) == Success(Meant(AllMeant(ns), n))
  {
    NarrowedText(ns, n);
    AppendSpelled(ns, n);
    PrintThenParse(ns + [n], isWord);
  }

  lemma DatedText(ns: seq<Narrowing>, before: seq<Narrowing>, n: Narrowing)
    requires AllReadable(ns) && Undated(ns) && |before| <= 1 && (forall i :: 0 <= i < |before| ==> before[i].Dated?)
    requires AllReadable(ns + before)
    requires Readable(n) && n.Dated? && Links.Distinct(AllSpelled(ns + before))
    requires !Links.Carries(Links.Join(AllSpelled(ns + before)), Links.Join(Spelled(n)))
    ensures AllReadable(ns + [n])
    ensures Links.Toggled(Links.Join(AllSpelled(ns + before)), Links.Join(Spelled(n))) == Links.Join(AllSpelled(ns + [n]))
  {
    ClientTerms(ns + before);
    SpelledTerms(n);
    SpelledDates(n);
    DatesDropped(ns, before);
    assert Spelled(n)[0] in Spelled(n);
    AppendSpelled(ns, n);
  }

  /** Switching a period on asks for what an undated query did, within that period alone: whichever
      period was on before is gone. */
  lemma ClickDates(ns: seq<Narrowing>, before: seq<Narrowing>, n: Narrowing, isWord: char -> bool)
    requires AllReadable(ns) && Undated(ns) && |before| <= 1 && (forall i :: 0 <= i < |before| ==> before[i].Dated?)
    requires AllReadable(ns + before)
    requires Readable(n) && n.Dated? && Links.Distinct(AllSpelled(ns + before))
    requires !Links.Carries(Links.Join(AllSpelled(ns + before)), Links.Join(Spelled(n)))
    ensures var q := Links.Toggled(Links.Join(AllSpelled(ns + before)), Links.Join(Spelled(n)));
      Asked(q, isWord) == Success(Meant(AllMeant(ns), n))
  {
    DatedText(ns, before, n);
    AppendSpelled(ns, n);
    PrintThenParse(ns + [n], isWord);
  }

  lemma PairIsDistinct(p: Period)
    requires ValidPeriod(p)
    ensures Links.Distinct(Spelled(Dated(p)))
  {
    assert KeyText(AFTER, SinceText(p))[0] == 'a' && KeyText(BEFORE, UntilText(p))[0] == 'b';
  }

  lemma {:induction false} NoDates(ns: seq<Narrowing>)
    requires AllReadable(ns) && Undated(ns)
    ensures forall t :: t in AllSpelled(ns) ==> !Links.IsDate(t)
  {
    if ns != [] {
      NoDates(ns[..|ns| - 1]);
      SpelledDates(ns[|ns| - 1]);
    }
  }

  lemma {:induction false} DatesDropped(ns: seq<Narrowing>, before: seq<Narrowing>)
    requires AllReadable(ns) && Undated(ns) && |before| <= 1 && AllReadable(ns + before)
    requires forall i :: 0 <= i < |before| ==> before[i].Dated?
    ensures Links.Keep(AllSpelled(ns + before), (t: string) => !Links.IsDate(t)) == AllSpelled(ns)
  {
    NoDates(ns);
    var undated := (t: string) => !Links.IsDate(t);
    if before == [] {
      assert ns + before == ns;
      Links.KeepAll(AllSpelled(ns), undated);
    } else {
      assert (ns + before)[|ns|] == before[0];
      assert ns + before == ns + [before[0]];
      AppendSpelled(ns, before[0]);
      SpelledDates(before[0]);
      KeepFront(AllSpelled(ns), Spelled(before[0]), undated);
    }
  }

  lemma {:induction false} KeepFront(ts: seq<string>, tail: seq<string>, p: string -> bool)
    requires (forall t :: t in ts ==> p(t)) && forall t :: t in tail ==> !p(t)
    ensures Links.Keep(ts + tail, p) == ts
    decreases |tail|
  {
    if tail == [] {
      assert ts + tail == ts;
      Links.KeepAll(ts, p);
    } else {
      var n := |tail| - 1;
      assert (ts + tail)[..|ts + tail| - 1] == ts + tail[..n];
      assert tail[n] in tail;
      KeepFront(ts, tail[..n], p);
    }
  }

  // -------------------------------------------------------------------------------------
  // What an operator is.

  lemma OpensWith(u: string, key: string)
    requires IsKey(key) && '\n' !in u
    ensures Links.StartsWith(u, key + ":") <==> Operator(u).Some? && Operator(u).value.0 == key
  {
    if Links.StartsWith(u, key + ":") {
      var value := u[|key| + 1..];
      assert u == KeyText(key, value);
      BodyOf(key, value);
      LineIs(value);
    }
    var n := KeyLength(u);
    if n > 0 && u[..n - 1] == key {
      assert u[..n] == key + ":";
    }
  }

  /** The client calls a term an operator, and a date, exactly when the server reads it as one: a
      minus in front is none of it, but a date takes none. */
  lemma BothKnowOperators(t: string)
    requires '\n' !in t
    ensures Links.IsOperator(t) <==> SplitToken(t).key != ""
    ensures Links.IsDate(t) <==> !SplitToken(t).negated && (SplitToken(t).key == AFTER || SplitToken(t).key == BEFORE)
  {
    var negated := t != "" && t[0] == '-';
    var u := if negated then t[1..] else t;
    assert '\n' !in u;
    OperatorsOpen(u);
    KeyRead(t, u, negated);
    ClientReads(t, u, negated);
    ClientDates(t, u, negated);
  }

  lemma ClientReads(t: string, u: string, negated: bool)
    requires negated <==> t != "" && t[0] == '-'
    requires u == if negated then t[1..] else t
    ensures Links.IsOperator(t)
       <==> Opens(u, "from") || Opens(u, "by") || Opens(u, "is") || Opens(u, "after") || Opens(u, "before")
  {
    assert Links.StartsWith(t, "-") <==> negated;
    Literals();
  }

  lemma ClientDates(t: string, u: string, negated: bool)
    requires negated <==> t != "" && t[0] == '-'
    requires u == if negated then t[1..] else t
    ensures Links.IsDate(t) <==> !negated && (Opens(u, "after") || Opens(u, "before"))
  {
    Literals();
    assert forall s: string, k: string :: k != "" && Links.StartsWith(s, k) ==> s[..|k|][0] == s[0];
  }

  lemma Literals()
    ensures "from" + ":" == "from:" && "by" + ":" == "by:" && "is" + ":" == "is:"
    ensures "after" + ":" == "after:" && "before" + ":" == "before:"
  {
  }

  /** The key the client's patterns see. */
  predicate Opens(u: string, key: string) {
    Links.StartsWith(u, key + ":")
  }

  lemma OperatorsOpen(u: string)
    requires '\n' !in u
    ensures Opens(u, "from") || Opens(u, "by") || Opens(u, "is") || Opens(u, "after") || Opens(u, "before")
       <==> Operator(u).Some? && Operator(u).value.0 in OPERATORS
    ensures Opens(u, "after") || Opens(u, "before") <==> Operator(u).Some? && Operator(u).value.0 in [AFTER, BEFORE]
  {
    OpensWith(u, "from");
    OpensWith(u, "by");
    OpensWith(u, "is");
    OpensWith(u, "after");
    OpensWith(u, "before");
  }

  lemma KeyRead(t: string, u: string, negated: bool)
    requires negated <==> t != "" && t[0] == '-'
    requires u == if negated then t[1..] else t
    ensures SplitToken(t).negated == negated
    ensures SplitToken(t).key == if Operator(u).Some? && Operator(u).value.0 in OPERATORS then Operator(u).value.0 else ""
  {
  }

  // -------------------------------------------------------------------------------------
  // Quotes under a key, under a minus, and by themselves.

  function QuotedText(negated: bool, key: string, inner: string): string {
    (if negated then "-" else "") + ((if key == "" then "" else key + ":") + ("\"" + inner + "\""))
  }

  /** What a reader put in quotes stays one token, spaces and all, with its key and its
      minus; and on one line, under an operator or none, it means what is between the quotes. */
  lemma {:induction false} QuotesHold(negated: bool, key: string, inner: string, rest: string)
    requires (key == "" || IsKey(key)) && '"' !in inner
    ensures Tokens(QuotedText(negated, key, inner) + rest) == [QuotedText(negated, key, inner)] + Tokens(rest)
    ensures (key == "" || key in OPERATORS) && '\n' !in inner ==>
      SplitToken(QuotedText(negated, key, inner)) == Token(negated, key, inner, true)
  {
    var t := QuotedText(negated, key, inner);
    var s := t + rest;
    QuotedLengthIs(negated, key, inner, rest);
    assert s[..|t|] == t && s[|t|..] == rest;
    if (key == "" || key in OPERATORS) && '\n' !in inner {
      QuotedReads(negated, key, inner);
    }
  }

  lemma {:induction false} QuotedLengthIs(negated: bool, key: string, inner: string, rest: string)
    requires (key == "" || IsKey(key)) && '"' !in inner
    ensures QuotedLength(QuotedText(negated, key, inner) + rest) == |QuotedText(negated, key, inner)|
  {
    var t, tail := QuotedText(negated, key, inner), "\"" + (inner + "\"" + rest);
    var head := if key == "" then "" else key + ":";
    var s, minus := t + rest, if negated then 1 else 0;
    AfterMinus(negated, head, inner, rest);
    HeadLength(key, inner + "\"" + rest);
    AfterHead(head, tail);
    assert s[minus..][|head|..] == s[minus + |head|..];
    QuoteOpens(s, minus, |head|, inner, rest);
  }

  lemma {:induction false} AfterMinus(negated: bool, head: string, inner: string, rest: string)
    requires head != "" ==> Letter(head[0])
    ensures var s := (if negated then "-" else "") + (head + ("\"" + inner + "\"")) + rest;
      var minus := if negated then 1 else 0;
      s[minus..] == head + ("\"" + (inner + "\"" + rest)) && s != "" && (s[0] == '-' <==> negated)
  {
    var body := head + ("\"" + inner + "\"");
    assert body + rest == head + ("\"" + (inner + "\"" + rest));
    assert body[0] == if head == "" then '"' else head[0];
    if negated {
      assert ("-" + body + rest)[1..] == body + rest;
    } else {
      assert "" + body + rest == body + rest && (body + rest)[0..] == body + rest;
    }
  }

  lemma {:induction false} AfterHead(head: string, tail: string)
    ensures (head + tail)[|head|..] == tail
  {
  }

  lemma {:induction false} QuoteOpens(s: string, minus: nat, k: nat, inner: string, rest: string)
    requires s != "" && minus == (if s[0] == '-' then 1 else 0) && KeyLength(s[minus..]) == k
    requires minus + k < |s| && s[minus + k..] == "\"" + (inner + "\"" + rest) && '"' !in inner
    ensures QuotedLength(s) == minus + k + 2 + |inner|
  {
    var after := inner + "\"" + rest;
    assert s[minus + k] == s[minus + k..][0] == '"';
    assert s[minus + k + 1..] == s[minus + k..][1..] == after;
    RunStops(inner, '"', rest, (c: char) => c != '"');
  }

  lemma {:induction false} HeadLength(key: string, after: string)
    requires key == "" || IsKey(key)
    ensures KeyLength((if key == "" then "" else key + ":") + ("\"" + after)) == if key == "" then 0 else |key| + 1
  {
    var tail := "\"" + after;
    if key == "" {
      assert "" + tail == tail && tail[0] == '"';
    } else {
      KeyIs(key, tail);
    }
  }

  lemma {:induction false} QuotedReads(negated: bool, key: string, inner: string)
    requires key == "" || (IsKey(key) && key in OPERATORS)
    requires '"' !in inner && '\n' !in inner
    ensures SplitToken(QuotedText(negated, key, inner)) == Token(negated, key, inner, true)
  {
    var quoted, head := "\"" + inner + "\"", if key == "" then "" else key + ":";
    var t, body := QuotedText(negated, key, inner), head + quoted;
    AfterMinus(negated, head, inner, "");
    assert t + "" == t && "\"" + (inner + "\"" + "") == quoted;
    assert t[if negated then 1 else 0..] == body;
    OperatorOf(key, inner);
    KeyRead(t, body, negated);
    OpenedQuotes(negated, key, inner);
    SplitIs(t, body, negated);
  }

  lemma {:induction false} SplitIs(t: string, u: string, negated: bool)
    requires negated <==> t != "" && t[0] == '-'
    requires u == if negated then t[1..] else t
    ensures SplitToken(t) == if Operator(u).Some? && Operator(u).value.0 in OPERATORS
      then Opened(negated, Operator(u).value.0, Operator(u).value.1) else Opened(negated, "", u)
  {
  }

  lemma {:induction false} OperatorOf(key: string, inner: string)
    requires (key == "" || IsKey(key)) && '\n' !in inner
    ensures var quoted := "\"" + inner + "\"";
      Operator((if key == "" then "" else key + ":") + quoted) == if key == "" then None else Some((key, quoted))
  {
    var quoted := "\"" + inner + "\"";
    HeadLength(key, inner + "\"");
    assert "\"" + (inner + "\"") == quoted;
    if key != "" {
      BodyOf(key, quoted);
      LineIs(quoted);
      assert key + ":" + quoted == KeyText(key, quoted) && quoted[..|quoted|] == quoted;
    }
  }

  lemma {:induction false} OpenedQuotes(negated: bool, key: string, inner: string)
    ensures Opened(negated, key, "\"" + inner + "\"") == Token(negated, key, inner, true)
  {
    var quoted := "\"" + inner + "\"";
    assert quoted[1..|quoted| - 1] == inner;
  }
}
