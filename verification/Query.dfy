/** `ui/query.py`: text to tokens, tokens to a query, and what a query is of its tokens. */
module Query {
  import opened Wrappers
  import opened Calendar
  import opened Numerals
  import Normalise
  import Pieces

  // -------------------------------------------------------------------------------------
  // `TOKENS`, alternative by alternative, from the left.

  predicate Space(c: char) {
    Normalise.Space(c)
  }

  predicate Letter(c: char) {
    'a' <= c <= 'z'
  }

  /** How far a run goes from the start of `s`: of letters, of anything but a quote, of anything
      but whitespace, of anything but a line feed. */
  function Run(s: string, p: char -> bool): (n: nat)
    ensures n <= |s|
    ensures forall i :: 0 <= i < n ==> p(s[i])
    ensures n < |s| ==> !p(s[n])
  {
    if s == "" || !p(s[0]) then 0 else 1 + Run(s[1..], p)
  }

  function Unquoted(s: string): (n: nat)
    ensures n <= |s|
  {
    Run(s, (c: char) => c != '"')
  }

  function Word(s: string): (n: nat)
    ensures n <= |s|
  {
    Run(s, (c: char) => !Space(c))
  }

  function Line(s: string): (n: nat)
    ensures n <= |s|
  {
    Run(s, (c: char) => c != '\n')
  }

  /** How long `[a-z]+:` is at the start of `s`, zero when it is not there. */
  function KeyLength(s: string): (n: nat)
    ensures n <= |s|
  {
    var n := Run(s, Letter);
    if 0 < n < |s| && s[n] == ':' then n + 1 else 0
  }

  /** How long a quoted run with its key and its minus is at the start of `s`, zero when it is
      not there. */
  function QuotedLength(s: string): (n: nat)
    ensures n <= |s|
  {
    var minus := if s != "" && s[0] == '-' then 1 else 0;
    var open := minus + KeyLength(s[minus..]);
    if open < |s| && s[open] == '"' then
      var close := open + 1 + Unquoted(s[open + 1..]);
      if close < |s| then close + 1 else 0
    else 0
  }

  function Tokens(s: string): seq<string>
    decreases |s|
  {
    if s == "" then []
    else if QuotedLength(s) > 0 then [s[..QuotedLength(s)]] + Tokens(s[QuotedLength(s)..])
    else if Space(s[0]) then Tokens(s[1..])
    else [s[..Word(s)]] + Tokens(s[Word(s)..])
  }

  // -------------------------------------------------------------------------------------
  // `_split`.

  const OPERATORS := ["from", "by", "after", "before", "is"]

  datatype Token = Token(negated: bool, key: string, value: string, quoted: bool)

  /** `OPERATOR`: a dot stops at a line feed, and the end may only have one line feed after it. */
  function Operator(body: string): Option<(string, string)> {
    var n := KeyLength(body);
    var value := body[n..];
    var m := Line(value);
    if n > 0 && |value| - m <= 1 then Some((body[..n - 1], value[..m])) else None
  }

  function Opened(negated: bool, key: string, raw: string): Token {
    var quoted := |raw| >= 2 && raw[0] == '"' && raw[|raw| - 1] == '"';
    Token(negated, key, if quoted then raw[1..|raw| - 1] else raw, quoted)
  }

  /** `_split`. */
  function SplitToken(token: string): Token {
    var negated := token != "" && token[0] == '-';
    var body := if negated then token[1..] else token;
    var found := Operator(body);
    if found.Some? && found.value.0 in OPERATORS then Opened(negated, found.value.0, found.value.1)
    else Opened(negated, "", body)
  }

  // -------------------------------------------------------------------------------------
  // The query.

  datatype Term = Term(words: seq<string>, excluded: bool)

  datatype Named = Named(value: string, excluded: bool)

  datatype Query = Query(
    terms: seq<Term>,
    publications: seq<Named>,
    authors: seq<Named>,
    since: Option<Date>,
    until: Option<Date>,
    states: seq<string>)

  const EVERYTHING := Query([], [], [], None, None, [])

  /** The four things `parse` finds wrong with a query, and the one it does not: a number of more
      than a C int, which `datetime.date` raises an OverflowError over that nothing here catches. */
  datatype BadQuery =
    | Bare(key: string)
    | Negated(key: string)
    | BadState(state: string)
    | BadDate(key: string, date: string)
    | Overflow(key: string, date: string)

  const STATES := ["read", "unread", "finished", "unfinished", "saved"]

  // The longest run of digits `int` reads, and the largest number `datetime.date` is handed.
  const MAX_DIGITS := 4300
  const MAX_INT := 0x7fff_ffff

  function Numbers(parts: seq<string>): Option<seq<nat>> {
    if parts == [] then Some([])
    else
      var first :- if parts[0] == "" || |parts[0]| > MAX_DIGITS then None else Number(parts[0], 10);
      var rest :- Numbers(parts[1..]);
      Some([first] + rest)
  }

  /** The first instant of what one, two or three numbers name. */
  function FirstDay(ns: seq<nat>): Date
    requires 1 <= |ns| <= 3
  {
    Date(ns[0], if |ns| > 1 then ns[1] else 1, if |ns| > 2 then ns[2] else 1)
  }

  /** `_date`. */
  function DateOf(key: string, value: string): Result<Date, BadQuery> {
    var parts := Pieces.Split(value, '-');
    var numbers := if |parts| <= 3 then Numbers(parts) else None;
    if numbers.None? || !(1 <= |numbers.value| <= 3) then Failure(BadDate(key, value))
    else if exists n :: n in numbers.value && n > MAX_INT then Failure(Overflow(key, value))
    else if Valid(FirstDay(numbers.value)) then Success(FirstDay(numbers.value))
    else Failure(BadDate(key, value))
  }

  /** `WORD.findall`, whatever counts as a word character. */
  function Words(value: string, isWord: char -> bool): seq<string>
    decreases |value|
  {
    if value == "" then []
    else
      var n := Run(value, isWord);
      if n == 0 then Words(value[1..], isWord) else [value[..n]] + Words(value[n..], isWord)
  }

  function Each(words: seq<string>, excluded: bool): seq<Term> {
    if words == [] then [] else [Term([words[0]], excluded)] + Each(words[1..], excluded)
  }

  function TermsOf(t: Token, isWord: char -> bool): seq<Term> {
    var words := Words(t.value, isWord);
    if words == [] then []
    else if t.quoted || |words| == 1 then [Term(words, t.negated)]
    else Each(words, t.negated)
  }

  /** What one token makes of the query so far. */
  function Absorbed(q: Query, t: Token, isWord: char -> bool): Result<Query, BadQuery> {
    if t.key == "" then Success(q.(terms := q.terms + TermsOf(t, isWord)))
    else if t.value == "" then Failure(Bare(t.key))
    else if t.negated && t.key != "from" && t.key != "by" then Failure(Negated(t.key))
    else if t.key == "from" then Success(q.(publications := q.publications + [Named(t.value, t.negated)]))
    else if t.key == "by" then Success(q.(authors := q.authors + [Named(t.value, t.negated)]))
    else if t.key == "is" then
      if t.value in STATES then Success(q.(states := q.states + [t.value])) else Failure(BadState(t.value))
    else
      match DateOf(t.key, t.value)
      case Failure(e) => Failure(e)
      case Success(date) => Success(if t.key == "after" then q.(since := Some(date)) else q.(until := Some(date)))
  }

  function Parsed(q: Query, tokens: seq<string>, isWord: char -> bool): Result<Query, BadQuery> {
    if tokens == [] then Success(q)
    else
      match Parsed(q, tokens[..|tokens| - 1], isWord)
      case Failure(e) => Failure(e)
      case Success(so) => Absorbed(so, SplitToken(tokens[|tokens| - 1]), isWord)
  }

  lemma {:induction false} ParsedFails(q: Query, tokens: seq<string>, n: nat, isWord: char -> bool)
    requires n <= |tokens| && Parsed(q, tokens[..n], isWord).Failure?
    ensures Parsed(q, tokens, isWord) == Parsed(q, tokens[..n], isWord)
    decreases |tokens|
  {
    if n == |tokens| {
      assert tokens[..n] == tokens;
    } else {
      assert tokens[..|tokens| - 1][..n] == tokens[..n];
      ParsedFails(q, tokens[..|tokens| - 1], n, isWord);
    }
  }

  lemma ParsedStep(q: Query, tokens: seq<string>, n: nat, isWord: char -> bool)
    requires n < |tokens| && Parsed(q, tokens[..n], isWord).Success?
    ensures var next := Absorbed(Parsed(q, tokens[..n], isWord).value, SplitToken(tokens[n]), isWord);
      Parsed(q, tokens[..n + 1], isWord) == next && (next.Failure? ==> Parsed(q, tokens, isWord) == next)
  {
    assert tokens[..n + 1][..n] == tokens[..n];
    if Parsed(q, tokens[..n + 1], isWord).Failure? {
      ParsedFails(q, tokens, n + 1, isWord);
    }
  }

  /** What a text asks for. */
  function Asked(text: string, isWord: char -> bool): Result<Query, BadQuery> {
    Parsed(EVERYTHING, Tokens(text), isWord)
  }

  /** `parse`: the first token that cannot be read decides the error. */
  method Parse(text: string, isWord: char -> bool) returns (r: Result<Query, BadQuery>)
    ensures r == Asked(text, isWord)
  {
    var tokens := Tokens(text);
    var terms: seq<Term> := [];
    var publications: seq<Named> := [];
    var authors: seq<Named> := [];
    var states: seq<string> := [];
    var since: Option<Date>, until: Option<Date> := None, None;
    for n := 0 to |tokens|
      invariant Parsed(EVERYTHING, tokens[..n], isWord)
             == Success(Query(terms, publications, authors, since, until, states))
    {
      var t := SplitToken(tokens[n]);
      ParsedStep(EVERYTHING, tokens, n, isWord);
      if t.key == "" {
        terms := terms + TermsOf(t, isWord);
      } else if t.value == "" {
        return Failure(Bare(t.key));
      } else if t.negated && t.key != "from" && t.key != "by" {
        return Failure(Negated(t.key));
      } else if t.key == "from" {
        publications := publications + [Named(t.value, t.negated)];
      } else if t.key == "by" {
        authors := authors + [Named(t.value, t.negated)];
      } else if t.key == "is" {
        if t.value !in STATES {
          return Failure(BadState(t.value));
        }
        states := states + [t.value];
      } else {
        var date := DateOf(t.key, t.value);
        if date.Failure? {
          return Failure(date.error);
        }
        if t.key == "after" {
          since := Some(date.value);
        } else {
          until := Some(date.value);
        }
      }
    }
    assert tokens[..|tokens|] == tokens;
    r := Success(Query(terms, publications, authors, since, until, states));
  }

  // -------------------------------------------------------------------------------------
  // Queries one after the other.

  lemma {:induction false} ParsedJoins(q: Query, a: seq<string>, b: seq<string>, isWord: char -> bool)
    ensures Parsed(q, a + b, isWord)
         == match Parsed(q, a, isWord) {
              case Failure(e) => Failure(e)
              case Success(so) => Parsed(so, b, isWord)
            }
    decreases |b|
  {
    if b == [] {
      assert a + b == a;
    } else {
      var n := |b| - 1;
      ParsedJoins(q, a, b[..n], isWord);
      assert a + b == (a + b[..n]) + [b[n]] && b == b[..n] + [b[n]];
      ParsedOneMore(q, a + b[..n], b[n], isWord);
      if Parsed(q, a, isWord).Success? { ParsedOneMore(Parsed(q, a, isWord).value, b[..n], b[n], isWord); }
    }
  }

  ghost predicate Grew(q: Query, r: Query) {
    q.terms <= r.terms && q.publications <= r.publications && q.authors <= r.authors && q.states <= r.states
  }

  lemma AbsorbedGrows(q: Query, t: Token, isWord: char -> bool)
    ensures Absorbed(q, t, isWord).Success? ==> Grew(q, Absorbed(q, t, isWord).value)
  {
  }

  /** What has been read stays read: later tokens only add to it. */
  lemma {:induction false} ParsedGrows(q: Query, tokens: seq<string>, isWord: char -> bool)
    ensures Parsed(q, tokens, isWord).Success? ==> Grew(q, Parsed(q, tokens, isWord).value)
  {
    if tokens != [] {
      var so := Parsed(q, tokens[..|tokens| - 1], isWord);
      ParsedGrows(q, tokens[..|tokens| - 1], isWord);
      if so.Success? {
        AbsorbedGrows(so.value, SplitToken(tokens[|tokens| - 1]), isWord);
      }
    }
  }

  // -------------------------------------------------------------------------------------
  // A query is what its tokens say, each in its own place.

  /** What a token has to be for the query it is in not to be an error. */
  predicate Readable(t: Token) {
    t.key == "" ||
    (&& t.value != ""
     && (t.negated ==> t.key == "from" || t.key == "by")
     && (t.key == "is" ==> t.value in STATES)
     && (t.key == "after" || t.key == "before" ==> DateOf(t.key, t.value).Success?))
  }

  /** The tokens under one key, in order; ordinary words are under none. */
  function Under(tokens: seq<string>, key: string): seq<Token> {
    if tokens == [] then []
    else
      var t := SplitToken(tokens[|tokens| - 1]);
      Under(tokens[..|tokens| - 1], key) + if t.key == key then [t] else []
  }

  function NamesOf(ts: seq<Token>): seq<Named> {
    if ts == [] then [] else NamesOf(ts[..|ts| - 1]) + [Named(ts[|ts| - 1].value, ts[|ts| - 1].negated)]
  }

  function StatesOf(ts: seq<Token>): seq<string> {
    if ts == [] then [] else StatesOf(ts[..|ts| - 1]) + [ts[|ts| - 1].value]
  }

  function AllTerms(ts: seq<Token>, isWord: char -> bool): seq<Term> {
    if ts == [] then [] else AllTerms(ts[..|ts| - 1], isWord) + TermsOf(ts[|ts| - 1], isWord)
  }

  function LastDate(ts: seq<Token>): Option<Date> {
    if ts == [] then None
    else
      match DateOf(ts[|ts| - 1].key, ts[|ts| - 1].value)
      case Failure(_) => None
      case Success(date) => Some(date)
  }

  /** The query that six lists of tokens make, each list being what stands under one key. */
  datatype Sorted = Sorted(plain: seq<Token>, from: seq<Token>, by_: seq<Token>, after: seq<Token>, before: seq<Token>, is_: seq<Token>)

  function Gathered(s: Sorted, isWord: char -> bool): Query {
    Query(AllTerms(s.plain, isWord), NamesOf(s.from), NamesOf(s.by_), LastDate(s.after), LastDate(s.before), StatesOf(s.is_))
  }

  function Added(s: Sorted, t: Token): Sorted {
    if t.key == "" then s.(plain := s.plain + [t])
    else if t.key == "from" then s.(from := s.from + [t])
    else if t.key == "by" then s.(by_ := s.by_ + [t])
    else if t.key == "after" then s.(after := s.after + [t])
    else if t.key == "before" then s.(before := s.before + [t])
    else s.(is_ := s.is_ + [t])
  }

  function AllSorted(tokens: seq<string>): Sorted {
    Sorted(Under(tokens, ""), Under(tokens, "from"), Under(tokens, "by"), Under(tokens, "after"), Under(tokens, "before"),
           Under(tokens, "is"))
  }

  function Collected(tokens: seq<string>, isWord: char -> bool): Query {
    Gathered(AllSorted(tokens), isWord)
  }

  lemma KeyIsKnown(token: string)
    ensures SplitToken(token).key == "" || SplitToken(token).key in OPERATORS
  {
  }

  lemma AbsorbedWhenReadable(q: Query, t: Token, isWord: char -> bool)
    requires t.key == "" || t.key in OPERATORS
    ensures Absorbed(q, t, isWord).Success? <==> Readable(t)
  {
    assert t.key in OPERATORS ==> t.key == "from" || t.key == "by" || t.key == "after" || t.key == "before" || t.key == "is";
  }

  lemma UnderGrows(tokens: seq<string>, token: string, key: string)
    ensures Under(tokens + [token], key)
         == if SplitToken(token).key == key then Under(tokens, key) + [SplitToken(token)] else Under(tokens, key)
  {
    assert (tokens + [token])[..|tokens|] == tokens;
  }

  lemma PlacesGrow(ts: seq<Token>, t: Token, isWord: char -> bool)
    ensures NamesOf(ts + [t]) == NamesOf(ts) + [Named(t.value, t.negated)]
    ensures StatesOf(ts + [t]) == StatesOf(ts) + [t.value]
    ensures AllTerms(ts + [t], isWord) == AllTerms(ts, isWord) + TermsOf(t, isWord)
    ensures DateOf(t.key, t.value).Success? ==> LastDate(ts + [t]) == Some(DateOf(t.key, t.value).value)
  {
    assert (ts + [t])[..|ts|] == ts;
  }

  lemma GatheredGrows(s: Sorted, t: Token, isWord: char -> bool)
    requires t.key == "" || t.key in OPERATORS
    requires Absorbed(Gathered(s, isWord), t, isWord).Success?
    ensures Absorbed(Gathered(s, isWord), t, isWord).value == Gathered(Added(s, t), isWord)
  {
    if t.key == "" {
      PlacesGrow(s.plain, t, isWord);
    } else if t.key == "from" {
      PlacesGrow(s.from, t, isWord);
    } else if t.key == "by" {
      PlacesGrow(s.by_, t, isWord);
    } else if t.key == "after" {
      PlacesGrow(s.after, t, isWord);
    } else if t.key == "before" {
      PlacesGrow(s.before, t, isWord);
    } else {
      assert t.key == "is";
      PlacesGrow(s.is_, t, isWord);
    }
  }

  lemma SortedGrows(tokens: seq<string>, token: string)
    requires SplitToken(token).key == "" || SplitToken(token).key in OPERATORS
    ensures AllSorted(tokens + [token]) == Added(AllSorted(tokens), SplitToken(token))
  {
    var key := SplitToken(token).key;
    assert key in OPERATORS ==> key == "from" || key == "by" || key == "after" || key == "before" || key == "is";
    UnderGrows(tokens, token, "");
    UnderGrows(tokens, token, "from");
    UnderGrows(tokens, token, "by");
    UnderGrows(tokens, token, "after");
    UnderGrows(tokens, token, "before");
    UnderGrows(tokens, token, "is");
  }

  lemma CollectedGrows(tokens: seq<string>, token: string, isWord: char -> bool)
    ensures Absorbed(Collected(tokens, isWord), SplitToken(token), isWord).Success? <==> Readable(SplitToken(token))
    ensures Readable(SplitToken(token)) ==>
      Absorbed(Collected(tokens, isWord), SplitToken(token), isWord).value == Collected(tokens + [token], isWord)
  {
    KeyIsKnown(token);
    AbsorbedWhenReadable(Collected(tokens, isWord), SplitToken(token), isWord);
    if Readable(SplitToken(token)) {
      GatheredGrows(AllSorted(tokens), SplitToken(token), isWord);
      SortedGrows(tokens, token);
    }
  }

  ghost predicate AllReadable(tokens: seq<string>) {
    forall i :: 0 <= i < |tokens| ==> Readable(SplitToken(tokens[i]))
  }

  lemma ParsedOneMore(q: Query, tokens: seq<string>, token: string, isWord: char -> bool)
    ensures Parsed(q, tokens + [token], isWord) == match Parsed(q, tokens, isWord) {
      case Failure(e) => Failure(e)
      case Success(so) => Absorbed(so, SplitToken(token), isWord)
    }
  {
    assert (tokens + [token])[..|tokens|] == tokens;
  }

  lemma NothingCollected(isWord: char -> bool)
    ensures Collected([], isWord) == EVERYTHING
  {
  }

  lemma ReadableGrows(tokens: seq<string>, token: string)
    ensures AllReadable(tokens + [token]) <==> AllReadable(tokens) && Readable(SplitToken(token))
  {
    assert (tokens + [token])[|tokens|] == token;
    assert forall i :: 0 <= i < |tokens| ==> (tokens + [token])[i] == tokens[i];
  }

  /** A query is read exactly when each of its tokens is, and then every name, state and word is
      where its own key puts it, in the order typed, and the last of each bound stands. */
  lemma {:induction false} ParsedCollects(tokens: seq<string>, isWord: char -> bool)
    ensures Parsed(EVERYTHING, tokens, isWord).Success? <==> AllReadable(tokens)
    ensures AllReadable(tokens) ==> Parsed(EVERYTHING, tokens, isWord).value == Collected(tokens, isWord)
  {
    if tokens == [] {
      NothingCollected(isWord);
    } else {
      var init, token := tokens[..|tokens| - 1], tokens[|tokens| - 1];
      assert tokens == init + [token];
      ParsedCollects(init, isWord);
      ParsedOneMore(EVERYTHING, init, token, isWord);
      CollectedGrows(init, token, isWord);
      ReadableGrows(init, token);
    }
  }

  function Flat(terms: seq<Term>): seq<string> {
    if terms == [] then [] else terms[0].words + Flat(terms[1..])
  }

  lemma {:induction false} EachIs(words: seq<string>, excluded: bool)
    ensures Flat(Each(words, excluded)) == words
    ensures forall t :: t in Each(words, excluded) ==> |t.words| == 1 && t.excluded == excluded
  {
    if words != [] {
      EachIs(words[1..], excluded);
      assert words == [words[0]] + words[1..];
    }
  }

  // -------------------------------------------------------------------------------------
  // What words are.

  ghost predicate AllWord(s: string, isWord: char -> bool) {
    forall i :: 0 <= i < |s| ==> isWord(s[i])
  }

  ghost predicate NoneWord(s: string, isWord: char -> bool) {
    forall i :: 0 <= i < |s| ==> !isWord(s[i])
  }

  /** A text put together: what is before each word, the word, and what is after the last. */
  function Woven(gaps: seq<string>, words: seq<string>): string
    requires |gaps| == |words| + 1
  {
    if words == [] then gaps[0] else gaps[0] + (words[0] + Woven(gaps[1..], words[1..]))
  }

  /** Words of nothing but word characters, apart by something that holds none. */
  ghost predicate Apart(gaps: seq<string>, words: seq<string>, isWord: char -> bool) {
    && |gaps| == |words| + 1
    && (forall k :: 0 <= k < |words| ==> words[k] != "" && AllWord(words[k], isWord))
    && (forall k :: 0 <= k < |gaps| ==> NoneWord(gaps[k], isWord) && (0 < k < |words| ==> gaps[k] != ""))
  }

  lemma WiderGap(gaps: seq<string>, words: seq<string>, isWord: char -> bool, c: char)
    requires Apart(gaps, words, isWord) && !isWord(c)
    ensures var wider := gaps[0 := [c] + gaps[0]];
      Apart(wider, words, isWord) && Woven(wider, words) == [c] + Woven(gaps, words)
  {
    var wider := gaps[0 := [c] + gaps[0]];
    assert wider[1..] == gaps[1..];
    if words != [] {
      var rest := words[0] + Woven(gaps[1..], words[1..]);
      assert ([c] + gaps[0]) + rest == [c] + (gaps[0] + rest);
    }
  }

  lemma OpensWithWord(gaps: seq<string>, words: seq<string>, isWord: char -> bool)
    requires Apart(gaps, words, isWord) && words != [] && gaps[0] == ""
    ensures Woven(gaps, words) != "" && isWord(Woven(gaps, words)[0])
  {
    assert Woven(gaps, words)[0] == words[0][0];
  }

  lemma WordFirst(gaps: seq<string>, words: seq<string>, isWord: char -> bool, word: string)
    requires Apart(gaps, words, isWord) && word != "" && AllWord(word, isWord)
    requires Woven(gaps, words) != "" ==> !isWord(Woven(gaps, words)[0])
    ensures Apart([""] + gaps, [word] + words, isWord) && Woven([""] + gaps, [word] + words) == word + Woven(gaps, words)
  {
    var more, longer := [""] + gaps, [word] + words;
    assert more[1..] == gaps && longer[1..] == words;
    assert "" + (word + Woven(gaps, words)) == word + Woven(gaps, words);
    if words != [] && gaps[0] == "" { OpensWithWord(gaps, words, isWord); }
    forall k | 0 <= k < |more| ensures NoneWord(more[k], isWord) && (0 < k < |longer| ==> more[k] != "") {
      if k > 0 { assert more[k] == gaps[k - 1]; }
    }
    forall k | 0 <= k < |longer| ensures longer[k] != "" && AllWord(longer[k], isWord) {
      if k > 0 { assert longer[k] == words[k - 1]; }
    }
  }

  /** A text is these words and what stands between them. */
  ghost predicate Parted(value: string, words: seq<string>, isWord: char -> bool) {
    exists gaps :: Apart(gaps, words, isWord) && value == Woven(gaps, words)
  }

  lemma PartedGap(c: char, rest: string, words: seq<string>, isWord: char -> bool)
    requires Parted(rest, words, isWord) && !isWord(c)
    ensures Parted([c] + rest, words, isWord)
  {
    var gaps :| Apart(gaps, words, isWord) && rest == Woven(gaps, words);
    WiderGap(gaps, words, isWord, c);
  }

  lemma PartedWord(word: string, rest: string, words: seq<string>, isWord: char -> bool)
    requires Parted(rest, words, isWord) && word != "" && AllWord(word, isWord) && (rest != "" ==> !isWord(rest[0]))
    ensures Parted(word + rest, [word] + words, isWord)
  {
    var gaps :| Apart(gaps, words, isWord) && rest == Woven(gaps, words);
    WordFirst(gaps, words, isWord, word);
  }

  /** The words of a text are all its word characters, in order, parted where others stand between
      them and nowhere else. */
  lemma {:induction false} WordsAreRuns(value: string, isWord: char -> bool)
    ensures Parted(value, Words(value, isWord), isWord)
    decreases |value|
  {
    var n := Run(value, isWord);
    if value == "" {
      assert Apart([""], [], isWord) && Woven([""], []) == "";
    } else if n == 0 {
      WordsAreRuns(value[1..], isWord);
      PartedGap(value[0], value[1..], Words(value[1..], isWord), isWord);
      assert value == [value[0]] + value[1..];
    } else {
      WordsAreRuns(value[n..], isWord);
      PartedWord(value[..n], value[n..], Words(value[n..], isWord), isWord);
      assert value == value[..n] + value[n..];
    }
  }

  /** And no other words would do. */
  lemma {:induction false} WordsAreTheOnly(value: string, words: seq<string>, isWord: char -> bool)
    requires Parted(value, words, isWord)
    ensures words == Words(value, isWord)
    decreases |value|
  {
    var gaps :| Apart(gaps, words, isWord) && value == Woven(gaps, words);
    if gaps[0] != "" {
      Narrower(gaps, words, isWord);
      WordsAreTheOnly(value[1..], words, isWord);
    } else if words != [] {
      FirstRun(gaps, words, isWord);
      WordsAreTheOnly(Woven(gaps[1..], words[1..]), words[1..], isWord);
    }
  }

  lemma Narrower(gaps: seq<string>, words: seq<string>, isWord: char -> bool)
    requires Apart(gaps, words, isWord) && gaps[0] != ""
    ensures Woven(gaps, words) != "" && !isWord(Woven(gaps, words)[0]) && Parted(Woven(gaps, words)[1..], words, isWord)
  {
    var narrow := gaps[0 := gaps[0][1..]];
    assert narrow[1..] == gaps[1..] && gaps[0] == [gaps[0][0]] + narrow[0];
    assert Woven(narrow, words) == Woven(gaps, words)[1..];
    assert Apart(narrow, words, isWord);
  }

  lemma FirstRun(gaps: seq<string>, words: seq<string>, isWord: char -> bool)
    requires Apart(gaps, words, isWord) && gaps[0] == "" && words != []
    ensures var value, rest := Woven(gaps, words), Woven(gaps[1..], words[1..]);
      && Run(value, isWord) == |words[0]| && value[..|words[0]|] == words[0] && value[|words[0]|..] == rest
      && Parted(rest, words[1..], isWord)
  {
    var value, rest := Woven(gaps, words), Woven(gaps[1..], words[1..]);
    assert value == words[0] + rest;
    assert Apart(gaps[1..], words[1..], isWord);
    if rest != "" { AfterWord(gaps[1..], words[1..], isWord); }
    RunOver(words[0], rest, isWord);
  }

  lemma AfterWord(gaps: seq<string>, words: seq<string>, isWord: char -> bool)
    requires Apart(gaps, words, isWord) && Woven(gaps, words) != "" && (words != [] ==> gaps[0] != "")
    ensures !isWord(Woven(gaps, words)[0])
  {
  }

  lemma RunOver(word: string, rest: string, isWord: char -> bool)
    requires AllWord(word, isWord) && (rest != "" ==> !isWord(rest[0]))
    ensures Run(word + rest, isWord) == |word|
  {
    assert rest != "" ==> (word + rest)[|word|] == rest[0];
    assert forall i :: 0 <= i < |word| ==> (word + rest)[i] == word[i];
  }

  /** A token's terms are its words, all of them and in order: one phrase of them in quotes, and each
      by itself otherwise. */
  lemma TermsAreWords(t: Token, isWord: char -> bool)
    ensures Flat(TermsOf(t, isWord)) == Words(t.value, isWord)
    ensures forall term :: term in TermsOf(t, isWord) ==> term.words != [] && term.excluded == t.negated
    ensures t.quoted ==> |TermsOf(t, isWord)| <= 1
    ensures !t.quoted ==> forall term :: term in TermsOf(t, isWord) ==> |term.words| == 1
  {
    var words := Words(t.value, isWord);
    EachIs(words, t.negated);
    if words != [] && (t.quoted || |words| == 1) {
      assert [Term(words, t.negated)][1..] == [];
    }
  }

  // -------------------------------------------------------------------------------------
  // What is said of a query that cannot be read.

  /** What was wrong with an operator: nothing after it, a minus where none means anything, a state
      or a date that is none. */
  ghost predicate IsFault(t: Token, e: BadQuery) {
    match e
    case Bare(key) => key == t.key && t.value == ""
    case Negated(key) => key == t.key && t.value != "" && t.negated && key in ["after", "before", "is"]
    case BadState(state) => t.key == "is" && !t.negated && t.value != "" && state == t.value && state !in STATES
    case BadDate(key, date) => IsDateFault(t, key, date, e)
    case Overflow(key, date) => IsDateFault(t, key, date, e)
  }

  ghost predicate IsDateFault(t: Token, key: string, date: string, e: BadQuery) {
    key == t.key && key in ["after", "before"] && !t.negated && date == t.value != "" && DateOf(key, date) == Failure(e)
  }

  lemma AbsorbedFault(q: Query, t: Token, isWord: char -> bool)
    requires t.key in OPERATORS && Absorbed(q, t, isWord).Failure?
    ensures IsFault(t, Absorbed(q, t, isWord).error)
  {
    assert t.key == "from" || t.key == "by" || t.key == "after" || t.key == "before" || t.key == "is";
    if t.key == "after" || t.key == "before" { DateFault(t.key, t.value); }
  }

  lemma DateFault(key: string, value: string)
    ensures DateOf(key, value).Failure? ==> DateOf(key, value).error in [BadDate(key, value), Overflow(key, value)]
  {
  }

  /** The error a query comes back with is what is wrong with the first of its tokens that cannot be
      read. */
  lemma {:induction false} FaultIsTheFirst(tokens: seq<string>, isWord: char -> bool)
    requires Parsed(EVERYTHING, tokens, isWord).Failure?
    ensures exists n ::
      && 0 <= n < |tokens| && AllReadable(tokens[..n]) && !Readable(SplitToken(tokens[n]))
      && IsFault(SplitToken(tokens[n]), Parsed(EVERYTHING, tokens, isWord).error)
  {
    var last := |tokens| - 1;
    var init := tokens[..last];
    if Parsed(EVERYTHING, init, isWord).Failure? {
      FaultIsTheFirst(init, isWord);
      var n :| 0 <= n < |init| && AllReadable(init[..n]) && !Readable(SplitToken(init[n]))
        && IsFault(SplitToken(init[n]), Parsed(EVERYTHING, init, isWord).error);
      assert tokens[..n] == init[..n];
    } else {
      var q, t := Parsed(EVERYTHING, init, isWord).value, SplitToken(tokens[last]);
      ParsedCollects(init, isWord);
      KeyIsKnown(tokens[last]);
      AbsorbedWhenReadable(q, t, isWord);
      AbsorbedFault(q, t, isWord);
    }
  }
}
