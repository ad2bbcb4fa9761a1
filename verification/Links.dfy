/** `web/src/lib/links.ts`: how a query is cut into terms, and what clicking does to them. */
module Links {

  /** What `\s` matches and `trim` takes off in JavaScript. */
  predicate Space(c: char) {
    var i := c as int;
    || 0x09 <= i <= 0x0d || i == 0x20 || i == 0xa0 || i == 0x1680 || 0x2000 <= i <= 0x200a
    || i == 0x2028 || i == 0x2029 || i == 0x202f || i == 0x205f || i == 0x3000 || i == 0xfeff
  }

  /** Whether an odd number of quotes is in it. */
  predicate Odd(s: string) {
    s != "" && ((s[0] == '"') != Odd(s[1..]))
  }

  function Trim(s: string): string {
    if s == "" then ""
    else if Space(s[0]) then Trim(s[1..])
    else if Space(s[|s| - 1]) then Trim(s[..|s| - 1])
    else s
  }

  /** Split at each space with an even number of quotes after it. A run of spaces is cut at every
      one of them, which only adds empty pieces. */
  function Pieces(s: string): (r: seq<string>)
    ensures r != []
  {
    if s == "" then [""]
    else
      var rest := Pieces(s[1..]);
      if Space(s[0]) && !Odd(s[1..]) then [""] + rest else [[s[0]] + rest[0]] + rest[1..]
  }

  function Keep(ts: seq<string>, p: string -> bool): seq<string> {
    if ts == [] then []
    else Keep(ts[..|ts| - 1], p) + if p(ts[|ts| - 1]) then [ts[|ts| - 1]] else []
  }

  /** A `Set` of an array, in the order things were first added. */
  function Unique(ts: seq<string>): seq<string> {
    if ts == [] then []
    else Unique(ts[..|ts| - 1]) + if ts[|ts| - 1] in ts[..|ts| - 1] then [] else [ts[|ts| - 1]]
  }

  lemma {:induction false} KeepIs(ts: seq<string>, p: string -> bool)
    ensures forall t :: t in Keep(ts, p) <==> t in ts && p(t)
  {
    if ts != [] {
      KeepIs(ts[..|ts| - 1], p);
      assert ts == ts[..|ts| - 1] + [ts[|ts| - 1]];
    }
  }

  lemma {:induction false} UniqueIs(ts: seq<string>)
    ensures forall t :: t in Unique(ts) <==> t in ts
  {
    if ts != [] {
      UniqueIs(ts[..|ts| - 1]);
      assert ts == ts[..|ts| - 1] + [ts[|ts| - 1]];
    }
  }

  function NonEmpty(ts: seq<string>): seq<string> {
    Keep(ts, (t: string) => t != "")
  }

  function Terms(q: string): seq<string> {
    Unique(NonEmpty(Pieces(Trim(q))))
  }

  function Join(ts: seq<string>): string {
    if |ts| == 0 then "" else if |ts| == 1 then ts[0] else ts[0] + " " + Join(ts[1..])
  }

  function StartsWith(s: string, prefix: string): bool {
    |prefix| <= |s| && s[..|prefix|] == prefix
  }

  predicate IsDate(t: string) {
    StartsWith(t, "after:") || StartsWith(t, "before:")
  }

  predicate IsOperator(t: string) {
    var u := if StartsWith(t, "-") then t[1..] else t;
    StartsWith(u, "from:") || StartsWith(u, "by:") || StartsWith(u, "is:") || IsDate(u)
  }

  function Carries(q: string, term: string): bool {
    forall t :: t in Terms(term) ==> t in Terms(q)
  }

  /** What stays of a query when these terms are switched on. */
  function Kept(q: string, adding: seq<string>): seq<string> {
    if exists t :: t in adding && IsDate(t) then Keep(Terms(q), (t: string) => !IsDate(t)) else Terms(q)
  }

  function Without(ts: seq<string>, some: seq<string>): seq<string> {
    Keep(ts, (t: string) => t !in some)
  }

  /** `toggled`, as the query it searches for. */
  function Toggled(q: string, term: string): string {
    var adding := Terms(term);
    if Carries(q, term) then Join(Without(Terms(q), adding)) else Join(Kept(q, adding) + adding)
  }

  // -------------------------------------------------------------------------------------
  // What terms look like.

  /** Every space in it is inside a quote that closes later. */
  ghost predicate Closed(p: string) {
    forall i :: 0 <= i < |p| && Space(p[i]) ==> Odd(p[i + 1..])
  }

  /** Only the first of a list of terms can hold an odd quote. */
  ghost predicate Clean(ts: seq<string>) {
    forall i :: 0 <= i < |ts| ==> CleanAt(ts[i], i == 0)
  }

  ghost predicate CleanAt(t: string, first: bool) {
    t != "" && Closed(t) && !Space(t[0]) && (first || !Odd(t))
  }

  ghost predicate Distinct(ts: seq<string>) {
    forall i, j :: 0 <= i < j < |ts| ==> ts[i] != ts[j]
  }

  lemma {:induction false} OddJoins(a: string, b: string)
    ensures Odd(a + b) <==> (Odd(a) != Odd(b))
  {
    if a == "" {
      assert a + b == b;
    } else {
      OddJoins(a[1..], b);
      assert (a + b)[0] == a[0] && (a + b)[1..] == a[1..] + b;
    }
  }

  lemma ClosedMore(c: char, p: string)
    requires Closed(p) && (Space(c) ==> Odd(p))
    ensures Closed([c] + p)
  {
    var s := [c] + p;
    assert s[1..] == p;
    forall i | 0 <= i < |s| && Space(s[i]) ensures Odd(s[i + 1..]) {
      if i > 0 {
        assert s[i + 1..] == p[i..];
      }
    }
  }

  /** Cutting leaves closed pieces, all of them balanced but the first, which is as odd as the
      whole. */
  lemma {:induction false} PiecesShape(s: string)
    ensures var r := Pieces(s);
      && (forall i :: 0 <= i < |r| ==> Closed(r[i]))
      && (forall i :: 0 < i < |r| ==> !Odd(r[i]))
      && (Odd(r[0]) <==> Odd(s))
  {
    if s != "" {
      PiecesShape(s[1..]);
      var rest := Pieces(s[1..]);
      if !(Space(s[0]) && !Odd(s[1..])) {
        ClosedMore(s[0], rest[0]);
        assert ([s[0]] + rest[0])[1..] == rest[0];
      }
    }
  }

  lemma ClosedEnd(p: string)
    requires Closed(p) && p != ""
    ensures !Space(p[|p| - 1])
  {
    assert p[|p| - 1 + 1..] == "";
  }

  lemma {:induction false} TrimIs(s: string)
    ensures Trim(s) == "" || (!Space(Trim(s)[0]) && !Space(Trim(s)[|Trim(s)| - 1]))
    decreases |s|
  {
    if s != "" {
      if Space(s[0]) {
        TrimIs(s[1..]);
      } else if Space(s[|s| - 1]) {
        TrimIs(s[..|s| - 1]);
      }
    }
  }

  /** A balanced closed piece does not open with a space, nor does the first of a trimmed text. */
  lemma PiecesStart(s: string)
    requires s != "" && !Space(s[0])
    ensures Pieces(s)[0] != "" && Pieces(s)[0][0] == s[0]
    ensures forall i :: 0 <= i < |Pieces(s)| && Pieces(s)[i] != "" ==> CleanAt(Pieces(s)[i], i == 0)
  {
    PiecesShape(s);
    var r := Pieces(s);
    forall i | 0 <= i < |r| && r[i] != "" ensures CleanAt(r[i], i == 0) {
      if i > 0 {
        assert Closed(r[i]) && !Odd(r[i]);
        assert r[i][0 + 1..] == r[i][1..];
      }
    }
  }

  lemma {:induction false} KeepClean(ts: seq<string>, p: string -> bool)
    requires forall i :: 0 <= i < |ts| && p(ts[i]) ==> CleanAt(ts[i], i == 0)
    ensures Clean(Keep(ts, p))
    ensures Distinct(ts) ==> Distinct(Keep(ts, p))
  {
    if ts != [] {
      var init := ts[..|ts| - 1];
      KeepClean(init, p);
      KeepIs(init, p);
      assert Distinct(ts) ==> forall t :: t in init ==> t != ts[|ts| - 1];
    }
  }

  lemma {:induction false} UniqueClean(ts: seq<string>)
    requires Clean(ts)
    ensures Clean(Unique(ts)) && Distinct(Unique(ts))
  {
    if ts != [] {
      var n := |ts| - 1;
      UniqueClean(ts[..n]);
      UniqueIs(ts[..n]);
      assert CleanAt(ts[n], n == 0);
    }
  }

  lemma TermsAreClean(q: string)
    ensures Clean(Terms(q)) && Distinct(Terms(q))
  {
    var s := Trim(q);
    TrimIs(q);
    if s == "" {
      assert Pieces(s) == [""] && [""][..0] == [];
    } else {
      PiecesStart(s);
      KeepClean(Pieces(s), (t: string) => t != "");
      UniqueClean(NonEmpty(Pieces(s)));
    }
  }

  // -------------------------------------------------------------------------------------
  // Joining and cutting again.

  lemma {:induction false} PiecesApart(p: string, r: string)
    requires Closed(p) && !Odd(r)
    ensures Pieces(p + " " + r) == [p] + Pieces(r)
  {
    var s := p + " " + r;
    if p == "" {
      assert s[0] == ' ' && s[1..] == r;
    } else {
      var tail := p[1..] + " " + r;
      assert s[0] == p[0] && s[1..] == tail;
      OddJoins(p[1..], " " + r);
      assert tail == p[1..] + (" " + r) && (" " + r)[1..] == r;
      assert p[0 + 1..] == p[1..];
      ClosedTail(p);
      PiecesApart(p[1..], r);
      assert ([p[1..]] + Pieces(r))[1..] == Pieces(r);
      assert [p[0]] + p[1..] == p;
    }
  }

  lemma ClosedTail(p: string)
    requires Closed(p) && p != ""
    ensures Closed(p[1..]) && (Space(p[0]) ==> Odd(p[1..]))
  {
    forall i | 0 <= i < |p[1..]| && Space(p[1..][i]) ensures Odd(p[1..][i + 1..]) {
      assert p[1..][i] == p[i + 1] && p[1..][i + 1..] == p[i + 1 + 1..];
    }
  }

  lemma {:induction false} PiecesAlone(p: string)
    requires Closed(p)
    ensures Pieces(p) == [p]
  {
    if p != "" {
      ClosedTail(p);
      PiecesAlone(p[1..]);
      assert [p[0]] + p[1..] == p;
    }
  }

  lemma {:induction false} PiecesJoined(ts: seq<string>)
    requires Clean(ts) && ts != []
    ensures Pieces(Join(ts)) == ts
    ensures Odd(Join(ts)) <==> Odd(ts[0])
    ensures Join(ts) != "" && !Space(Join(ts)[0]) && !Space(Join(ts)[|Join(ts)| - 1])
  {
    assert CleanAt(ts[0], true);
    if |ts| == 1 {
      PiecesAlone(ts[0]);
      ClosedEnd(ts[0]);
    } else {
      var rest := ts[1..];
      forall i | 0 <= i < |rest| ensures CleanAt(rest[i], i == 0) && !Odd(rest[i]) {
        assert CleanAt(ts[i + 1], false);
      }
      PiecesJoined(rest);
      PiecesApart(ts[0], Join(rest));
      JoinedEnds(ts[0], Join(rest));
      assert ts == [ts[0]] + rest;
    }
  }

  lemma JoinedEnds(a: string, b: string)
    requires a != "" && b != "" && !Space(a[0]) && !Space(b[|b| - 1]) && !Odd(b)
    ensures var s := a + " " + b; s != "" && !Space(s[0]) && !Space(s[|s| - 1]) && (Odd(s) <==> Odd(a))
  {
    var s := a + " " + b;
    assert s[|s| - 1] == b[|b| - 1];
    OddJoins(a, " " + b);
    assert s == a + (" " + b) && (" " + b)[1..] == b;
  }

  lemma {:induction false} KeepAll(ts: seq<string>, p: string -> bool)
    requires forall t :: t in ts ==> p(t)
    ensures Keep(ts, p) == ts
  {
    if ts != [] {
      var init, last := ts[..|ts| - 1], ts[|ts| - 1];
      assert last in ts && forall t :: t in init ==> t in ts;
      KeepAll(init, p);
      assert ts == init + [last];
    }
  }

  lemma {:induction false} UniqueOfDistinct(ts: seq<string>)
    requires Distinct(ts)
    ensures Unique(ts) == ts
  {
    if ts != [] {
      var init := ts[..|ts| - 1];
      UniqueOfDistinct(init);
      assert ts == init + [ts[|ts| - 1]];
    }
  }

  /** A clean list is what its own spelling is cut back into, each term once. */
  lemma TermsOfJoined(ts: seq<string>)
    requires Clean(ts)
    ensures Terms(Join(ts)) == Unique(ts)
  {
    if ts == [] {
      assert Pieces(Trim("")) == [""];
      assert NonEmpty([""]) == [];
    } else {
      PiecesJoined(ts);
      assert Trim(Join(ts)) == Join(ts);
      forall t | t in ts ensures t != "" {
        var i :| 0 <= i < |ts| && ts[i] == t;
        assert CleanAt(ts[i], i == 0);
      }
      KeepAll(ts, (t: string) => t != "");
    }
  }

  /** Printing a query's terms and cutting them again gives the same terms, for every query there
      is, quotes left open included. */
  lemma TermsAreStable(q: string)
    ensures Terms(Join(Terms(q))) == Terms(q)
  {
    TermsAreClean(q);
    TermsOfJoined(Terms(q));
    UniqueOfDistinct(Terms(q));
  }

  /** Any of the terms, in their order, read back as just those. */
  lemma SomeTermsRead(q: string, p: string -> bool)
    ensures Clean(Keep(Terms(q), p)) && Distinct(Keep(Terms(q), p))
    ensures Terms(Join(Keep(Terms(q), p))) == Keep(Terms(q), p)
  {
    TermsAreClean(q);
    assert forall i :: 0 <= i < |Terms(q)| ==> CleanAt(Terms(q)[i], i == 0);
    KeepClean(Terms(q), p);
    TermsOfJoined(Keep(Terms(q), p));
    UniqueOfDistinct(Keep(Terms(q), p));
  }

  // -------------------------------------------------------------------------------------
  // Switching.

  /** What is added can follow what is kept: its quotes are balanced, or nothing is before it. */
  ghost predicate Fits(kept: seq<string>, adding: seq<string>) {
    kept == [] || adding == [] || !Odd(adding[0])
  }

  lemma CleanJoins(a: seq<string>, b: seq<string>)
    requires Clean(a) && Clean(b) && Fits(a, b)
    ensures Clean(a + b)
  {
    forall i | 0 <= i < |a + b| ensures CleanAt((a + b)[i], i == 0) {
      if i >= |a| {
        assert CleanAt(b[i - |a|], i == |a|);
      } else {
        assert CleanAt(a[i], i == 0);
      }
    }
  }

  lemma KeptIsClean(q: string, adding: seq<string>)
    ensures Clean(Kept(q, adding)) && Distinct(Kept(q, adding))
  {
    TermsAreClean(q);
    SomeTermsRead(q, (t: string) => !IsDate(t));
  }

  /** Switched off, a narrowing's terms are gone and every other one stays where it was. Switched
      on, the query's terms are those kept and then those added, each once. */
  lemma ToggledReads(q: string, term: string)
    ensures Carries(q, term) ==> Terms(Toggled(q, term)) == Without(Terms(q), Terms(term))
    ensures !Carries(q, term) && Fits(Kept(q, Terms(term)), Terms(term)) ==>
      Terms(Toggled(q, term)) == Unique(Kept(q, Terms(term)) + Terms(term)) && Carries(Toggled(q, term), term)
  {
    var adding := Terms(term);
    if Carries(q, term) {
      SomeTermsRead(q, (t: string) => t !in adding);
    } else {
      KeptIsClean(q, adding);
      TermsAreClean(term);
      if Fits(Kept(q, adding), adding) {
        CleanJoins(Kept(q, adding), adding);
        TermsOfJoined(Kept(q, adding) + adding);
        UniqueIs(Kept(q, adding) + adding);
      }
    }
  }

  lemma {:induction false} WithoutAdded(ts: seq<string>, adding: seq<string>)
    requires forall t :: t in adding ==> t !in ts
    ensures Without(ts + adding, adding) == ts
    decreases |adding|
  {
    DropsTail(ts, adding, adding);
  }

  lemma {:induction false} DropsTail(ts: seq<string>, tail: seq<string>, some: seq<string>)
    requires (forall t :: t in ts ==> t !in some) && forall t :: t in tail ==> t in some
    ensures Without(ts + tail, some) == ts
    decreases |tail|
  {
    if tail == [] {
      assert ts + tail == ts;
      KeepAll(ts, (t: string) => t !in some);
    } else {
      var n := |tail| - 1;
      assert (ts + tail)[..|ts + tail| - 1] == ts + tail[..n];
      assert tail[n] in tail;
      DropsTail(ts, tail[..n], some);
    }
  }

  lemma DistinctJoins(a: seq<string>, b: seq<string>)
    requires Distinct(a) && Distinct(b) && forall t :: t in b ==> t !in a
    ensures Distinct(a + b)
  {
    forall i, j | 0 <= i < j < |a + b| ensures (a + b)[i] != (a + b)[j] {
      if i < |a| <= j {
        assert b[j - |a|] in b && a[i] in a;
      }
    }
  }

  /** A narrowing with no date in it, none of whose terms were there, comes off again and leaves
      its terms joined by spaces: wherever its first term's quotes are balanced, or there was
      nothing else. */
  lemma OnAndOff(q: string, term: string)
    requires Terms(term) != [] && forall t :: t in Terms(term) ==> t !in Terms(q) && !IsDate(t)
    requires Fits(Terms(q), Terms(term))
    ensures Toggled(Toggled(q, term), term) == Join(Terms(q))
  {
    var adding := Terms(term);
    ToggledReads(q, term);
    NothingKeptOut(q, term);
    TermsAreClean(q);
    TermsAreClean(term);
    DistinctJoins(Terms(q), adding);
    UniqueOfDistinct(Terms(q) + adding);
    SwitchesOff(Toggled(q, term), term);
    WithoutAdded(Terms(q), adding);
  }

  lemma SwitchesOff(q: string, term: string)
    requires Carries(q, term)
    ensures Toggled(q, term) == Join(Without(Terms(q), Terms(term)))
  {
  }

  /** Switching a period on leaves exactly its own dates, whatever dates were there, and every
      other term where it was. */
  lemma PeriodReplaces(q: string, term: string)
    requires Terms(term) != [] && forall t :: t in Terms(term) ==> IsDate(t) && !Odd(t)
    requires !Carries(q, term)
    ensures Terms(Toggled(q, term)) == Keep(Terms(q), (t: string) => !IsDate(t)) + Terms(term)
    ensures forall t :: t in Terms(Toggled(q, term)) && IsDate(t) <==> t in Terms(term)
  {
    var adding, kept := Terms(term), Keep(Terms(q), (t: string) => !IsDate(t));
    assert adding[0] in adding;
    assert Kept(q, adding) == kept;
    ToggledReads(q, term);
    KeptIsClean(q, adding);
    TermsAreClean(term);
    KeepIs(Terms(q), (t: string) => !IsDate(t));
    DistinctJoins(kept, adding);
    UniqueOfDistinct(kept + adding);
    assert Terms(Toggled(q, term)) == kept + adding;
  }

  // -------------------------------------------------------------------------------------
  // What the query carries, as chips that come off.

  function Dates(all: seq<string>): seq<string> {
    Keep(all, (t: string) => IsDate(t))
  }

  function Named(all: seq<string>): seq<string> {
    Keep(all, (t: string) => IsOperator(t) && !IsDate(t))
  }

  function Words(all: seq<string>): seq<string> {
    Keep(all, (t: string) => !IsOperator(t))
  }

  function Each(ts: seq<string>): seq<seq<string>> {
    seq(|ts|, i requires 0 <= i < |ts| => [ts[i]])
  }

  function IfAny(ts: seq<string>): seq<seq<string>> {
    if ts == [] then [] else [ts]
  }

  /** `applied`: the terms of each narrowing, the dates as one, the words as one, and every other
      operator by itself. */
  function Chips(q: string): seq<seq<string>> {
    IfAny(Dates(Terms(q))) + Each(Named(Terms(q))) + IfAny(Words(Terms(q)))
  }

  /** The query a chip leaves when it comes off. */
  function Dropping(q: string, chip: seq<string>): string {
    Join(Without(Terms(q), chip))
  }

  lemma ADateIsAnOperator(t: string)
    requires IsDate(t)
    ensures IsOperator(t)
  {
    assert t[0] == 'a' || t[0] == 'b';
  }

  /** Taking a chip off leaves exactly the terms that are not on it. */
  lemma ChipComesOff(q: string, chip: seq<string>)
    ensures Terms(Dropping(q, chip)) == Without(Terms(q), chip)
  {
    SomeTermsRead(q, (t: string) => t !in chip);
  }

  /** Where a term's chip is. */
  function ChipOf(q: string, t: string): (i: int) {
    var dated := |IfAny(Dates(Terms(q)))|;
    if IsDate(t) then 0
    else if IsOperator(t) then dated + PlaceOf(Named(Terms(q)), t)
    else dated + |Named(Terms(q))|
  }

  function PlaceOf(ts: seq<string>, t: string): (i: nat)
    ensures t in ts ==> i < |ts| && ts[i] == t
  {
    if ts == [] || ts[0] == t then 0 else 1 + PlaceOf(ts[1..], t)
  }

  lemma ChipAt(dates: seq<string>, named: seq<string>, words: seq<string>, i: nat)
    requires i < |IfAny(dates) + Each(named) + IfAny(words)|
    ensures var chips, a := IfAny(dates) + Each(named) + IfAny(words), |IfAny(dates)|;
      && |chips| == a + |named| + |IfAny(words)|
      && chips[i] == (if i < a then dates else if i < a + |named| then [named[i - a]] else words)
  {
  }

  lemma Sorted(q: string, t: string)
    requires t in Terms(q)
    ensures t in Dates(Terms(q)) <==> IsDate(t)
    ensures t in Named(Terms(q)) <==> IsOperator(t) && !IsDate(t)
    ensures t in Words(Terms(q)) <==> !IsOperator(t) && !IsDate(t)
  {
    if IsDate(t) { ADateIsAnOperator(t); }
    KeepIs(Terms(q), (t: string) => IsDate(t));
    KeepIs(Terms(q), (t: string) => IsOperator(t) && !IsDate(t));
    KeepIs(Terms(q), (t: string) => !IsOperator(t));
  }

  lemma OnlyPlace(ts: seq<string>, t: string, k: nat)
    requires Distinct(ts) && k < |ts|
    ensures ts[k] == t <==> t in ts && k == PlaceOf(ts, t)
  {
  }

  /** Every term is on exactly one chip. */
  lemma OneChipEach(q: string, t: string, i: nat)
    requires t in Terms(q) && i < |Chips(q)|
    ensures 0 <= ChipOf(q, t) < |Chips(q)|
    ensures t in Chips(q)[i] <==> i == ChipOf(q, t)
  {
    Sorted(q, t);
    NamedAreDistinct(q);
    PlaceOnChips(Dates(Terms(q)), Named(Terms(q)), Words(Terms(q)), t, i, IsDate(t), IsOperator(t));
  }

  lemma PlaceOnChips(dates: seq<string>, named: seq<string>, words: seq<string>, t: string, i: nat, isDate: bool, isOperator: bool)
    requires Distinct(named) && i < |IfAny(dates) + Each(named) + IfAny(words)|
    requires (t in dates <==> isDate) && (t in named <==> isOperator && !isDate) && (t in words <==> !isOperator && !isDate)
    ensures var chips, a := IfAny(dates) + Each(named) + IfAny(words), |IfAny(dates)|;
      var place := if isDate then 0 else if isOperator then a + PlaceOf(named, t) else a + |named|;
      0 <= place < |chips| && (t in chips[i] <==> i == place)
  {
    ChipAt(dates, named, words, i);
    var a := |IfAny(dates)|;
    if a <= i < a + |named| {
      OnlyPlace(named, t, i - a);
    }
  }

  lemma NamedAreDistinct(q: string)
    ensures Distinct(Named(Terms(q)))
  {
    SomeTermsRead(q, (t: string) => IsOperator(t) && !IsDate(t));
  }

  // -------------------------------------------------------------------------------------
  // Quotes left open.

  ghost predicate IsWord(s: string) {
    forall c :: c in s ==> !Space(c)
  }

  lemma {:induction false} JoinMore(ts: seq<string>, w: string)
    requires ts != []
    ensures Join(ts + [w]) == Join(ts) + " " + w
  {
    assert (ts + [w])[1..] == ts[1..] + [w];
    if |ts| > 1 { JoinMore(ts[1..], w); }
  }

  /** Words and then one with an odd quote: every space between them has an odd number of quotes
      after it, so there is nowhere to cut. */
  lemma {:induction false} OddCloses(ts: seq<string>, w: string)
    requires forall i :: 0 <= i < |ts| ==> IsWord(ts[i]) && (i > 0 ==> !Odd(ts[i]))
    requires IsWord(w) && Odd(w)
    ensures Closed(Join(ts + [w])) && (ts == [] || !Odd(ts[0]) ==> Odd(Join(ts + [w])))
  {
    if ts == [] {
      Spaceless(w);
    } else {
      var rest := Join(ts[1..] + [w]);
      OddCloses(ts[1..], w);
      assert (ts + [w])[1..] == ts[1..] + [w];
      ClosedMore(' ', rest);
      ClosedAfter(ts[0], [' '] + rest);
      OddJoins(ts[0], [' '] + rest);
      assert ([' '] + rest)[1..] == rest;
      assert Join(ts + [w]) == ts[0] + ([' '] + rest);
    }
  }

  /** A word whose quotes are not balanced, switched on in a query without a quoted phrase, comes off
      again exactly when there was nothing else in it: otherwise it runs into all that is before
      it, and is no term of the query it made. */
  lemma OpenQuoteStays(q: string, w: string)
    requires forall t :: t in Terms(q) ==> IsWord(t)
    requires IsWord(w) && Odd(w) && !IsDate(w) && !Carries(q, w)
    ensures Terms(w) == [w]
    ensures Toggled(Toggled(q, w), w) == Join(Terms(q)) <==> Terms(q) == []
  {
    Spaceless(w);
    OneTerm(w);
    SwitchesOn(q, w);
    var ts, on := Terms(q), Toggled(q, w);
    if ts == [] {
      assert on == w;
      SwitchesOff(w, w);
      WithoutAdded([], [w]);
    } else {
      TermsAreClean(q);
      forall i | 0 <= i < |ts| ensures IsWord(ts[i]) && (i > 0 ==> !Odd(ts[i])) {
        assert CleanAt(ts[i], i == 0);
      }
      JoinMore(ts, w);
      PiecesJoined(ts);
      OddCloses(ts, w);
      assert on[0] == Join(ts)[0];
      OneTerm(on);
      assert on[|Join(ts)|] == ' ' && ' ' in on;
      Added(on, w);
    }
  }

  /** Balanced quotes are enough for a narrowing to come off, and not needed: an unbalanced word
      comes off again from itself said twice. */
  lemma OpenQuoteMayComeOff(w: string)
    requires IsWord(w) && Odd(w) && !IsDate(w)
    ensures var q := w + " " + w; Toggled(Toggled(q, w), w) == Join(Terms(q))
  {
    var q := w + " " + w;
    Spaceless(w);
    OneTerm(w);
    TwiceIsOneTerm(w);
    Added(q, w);
    Apart(w);
    FirstComesOff(q + " " + w, w, q);
    assert Join([q]) == q;
  }

  lemma FirstComesOff(on: string, w: string, q: string)
    requires Terms(on) == [w, q] && Terms(w) == [w] && q != w
    ensures Toggled(on, w) == Join([q])
  {
    assert w in [w, q];
    SwitchesOff(on, w);
    DropsFirst(w, q);
  }

  lemma DropsFirst(w: string, q: string)
    requires q != w
    ensures Without([w, q], [w]) == [q]
  {
    var others := (t: string) => t !in [w];
    assert w in [w] && q !in [w];
    assert [w][..0] == [] && [w, q][..1] == [w];
    assert Keep([w], others) == Keep([], others) + [];
    assert Keep([w, q], others) == Keep([w], others) + [q];
  }

  lemma TwiceIsOneTerm(w: string)
    requires IsWord(w) && Odd(w)
    ensures var q := w + " " + w; Terms(q) == [q] && !Odd(q) && Closed(q) && q != w
  {
    var q := w + " " + w;
    Spaceless(w);
    ClosedMore(' ', w);
    ClosedAfter(w, [' '] + w);
    assert q == w + ([' '] + w) && q[0] == w[0];
    OddJoins(w, [' '] + w);
    assert ([' '] + w)[1..] == w;
    OneTerm(q);
  }

  lemma Apart(w: string)
    requires IsWord(w) && Odd(w)
    ensures var q := w + " " + w; Terms(q + " " + w) == [w, q]
  {
    var q := w + " " + w;
    Spaceless(w);
    TwiceIsOneTerm(w);
    assert q[0] == w[0];
    PairReads(w, q);
    assert q + " " + w == w + " " + q;
  }

  lemma PairReads(w: string, q: string)
    requires CleanAt(w, true) && CleanAt(q, false) && w != q
    ensures Terms(w + " " + q) == [w, q]
  {
    var pair := [w, q];
    assert Clean(pair);
    TermsOfJoined(pair);
    UniqueOfDistinct(pair);
    assert pair[1..] == [q] && Join([q]) == q;
  }

  lemma Spaceless(s: string)
    requires forall c :: c in s ==> !Space(c)
    ensures Closed(s) && (s != "" ==> !Space(s[0]))
  {
  }

  lemma {:induction false} Quoteless(s: string)
    requires forall c :: c in s ==> c != '"'
    ensures !Odd(s)
  {
    if s != "" {
      assert s[0] in s && forall c :: c in s[1..] ==> c in s;
      Quoteless(s[1..]);
    }
  }

  lemma {:induction false} ClosedAfter(a: string, p: string)
    requires Closed(p) && forall c :: c in a ==> !Space(c)
    ensures Closed(a + p)
  {
    if a == "" {
      assert a + p == p;
    } else {
      assert a[0] in a && forall c :: c in a[1..] ==> c in a;
      ClosedAfter(a[1..], p);
      ClosedMore(a[0], a[1..] + p);
      assert a + p == [a[0]] + (a[1..] + p);
    }
  }

  lemma NothingKeptOut(q: string, term: string)
    requires Terms(term) != [] && forall t :: t in Terms(term) ==> t !in Terms(q) && !IsDate(t)
    ensures Kept(q, Terms(term)) == Terms(q) && !Carries(q, term)
  {
    assert Terms(term)[0] in Terms(term);
  }

  lemma SwitchesOn(q: string, term: string)
    requires Terms(term) != [] && forall t :: t in Terms(term) ==> t !in Terms(q) && !IsDate(t)
    ensures Toggled(q, term) == Join(Terms(q) + Terms(term))
  {
    NothingKeptOut(q, term);
  }

  lemma Added(q: string, t: string)
    requires Terms(q) == [q] && Terms(t) == [t] && q != t && !IsDate(t)
    ensures Toggled(q, t) == q + " " + t
  {
    SwitchesOn(q, t);
    assert [q] + [t] == [q, t] && [q, t][1..] == [t];
    assert Join([t]) == t;
  }

  lemma OneTerm(s: string)
    requires Closed(s) && s != "" && !Space(s[0])
    ensures Terms(s) == [s]
  {
    assert Clean([s]);
    TermsOfJoined([s]);
    UniqueOfDistinct([s]);
  }
}
