/** What `normalise_text` of `ingest/normalise.py` keeps of a text: its words, and nothing of its
    comments. */
module PlainText {
  import opened Normalise

  /** How far a stretch without whitespace goes. */
  function WordLength(s: string): (n: nat)
    ensures n <= |s| && (forall i :: 0 <= i < n ==> !Space(s[i])) && (n < |s| ==> Space(s[n]))
  {
    if s == "" || Space(s[0]) then 0 else 1 + WordLength(s[1..])
  }

  /** The stretches without whitespace, in order. */
  function Words(s: string): seq<string>
    decreases |s|
  {
    if s == "" then []
    else if Space(s[0]) then Words(s[1..])
    else [s[..WordLength(s)]] + Words(s[WordLength(s)..])
  }

  function Sentence(words: seq<string>): string {
    if words == [] then "" else if |words| == 1 then words[0] else words[0] + " " + Sentence(words[1..])
  }

  predicate EndsOpen(s: string) {
    s != "" && Space(s[|s| - 1])
  }

  lemma {:induction false} CollapsedWord(s: string, open: bool)
    requires s != "" && !Space(s[0])
    ensures Collapsed(s, open) == s[..WordLength(s)] + Collapsed(s[WordLength(s)..], false)
  {
    var n := WordLength(s);
    assert s[..n] == [s[0]] + s[1..][..n - 1] && s[1..][n - 1..] == s[n..];
    if n > 1 {
      CollapsedWord(s[1..], false);
      Associates([s[0]], s[1..][..n - 1], Collapsed(s[n..], false));
    } else {
      assert s[..1] == [s[0]];
    }
  }

  lemma {:induction false} Associates(a: string, b: string, c: string)
    ensures a + (b + c) == (a + b) + c
  {
  }

  /** What collapsing makes of the rest of a text, once whitespace before it is accounted for. */
  lemma {:induction false} CollapsedIs(s: string)
    ensures Collapsed(s, true) == Sentence(Words(s)) + if Words(s) != [] && EndsOpen(s) then " " else ""
    decreases |s|
  {
    if s == "" {
    } else if Space(s[0]) {
      CollapsedIs(s[1..]);
      if |s| == 1 { assert Words(s[1..]) == []; }
    } else {
      var n := WordLength(s);
      if n < |s| { CollapsedIs(s[n..][1..]); }
      CollapsedFromWord(s, n);
    }
  }

  lemma {:induction false} CollapsedFromWord(s: string, n: nat)
    requires s != "" && !Space(s[0]) && n == WordLength(s)
    requires n < |s| ==> var rest := s[n..][1..];
      Collapsed(rest, true) == Sentence(Words(rest)) + if Words(rest) != [] && EndsOpen(rest) then " " else ""
    ensures Collapsed(s, true) == Sentence(Words(s)) + if Words(s) != [] && EndsOpen(s) then " " else ""
  {
    CollapsedWord(s, true);
    if n == |s| {
      assert s[..n] == s && s[n..] == "" && Words("") == [];
    } else {
      OneMoreWord(s[..n], s[n..]);
    }
  }

  lemma {:induction false} OneMoreWord(word: string, rest: string)
    requires rest != "" && Space(rest[0])
    requires Collapsed(rest[1..], true) == Sentence(Words(rest[1..])) + if Words(rest[1..]) != [] && EndsOpen(rest[1..]) then " " else ""
    ensures word + Collapsed(rest, false) == Sentence([word] + Words(rest)) + if EndsOpen(rest) then " " else ""
  {
    var words := Words(rest[1..]);
    assert Words(rest) == words && ([word] + words)[1..] == words;
    if words == [] {
      NoWords(rest[1..]);
      assert EndsOpen(rest);
    } else {
      assert rest[1..] != "" && (EndsOpen(rest) <==> EndsOpen(rest[1..]));
      Spaced(word, Sentence(words), if EndsOpen(rest) then " " else "");
    }
  }

  lemma {:induction false} Spaced(word: string, rest: string, end: string)
    ensures word + (" " + (rest + end)) == (word + " " + rest) + end
  {
  }

  lemma {:induction false} NoWords(s: string)
    requires Words(s) == []
    ensures forall i :: 0 <= i < |s| ==> Space(s[i])
  {
    if s != "" {
      NoWords(s[1..]);
    }
  }

  ghost predicate AllWords(words: seq<string>) {
    forall k :: 0 <= k < |words| ==> words[k] != "" && forall i :: 0 <= i < |words[k]| ==> !Space(words[k][i])
  }

  lemma {:induction false} WordsAre(s: string)
    ensures AllWords(Words(s))
    decreases |s|
  {
    if s != "" {
      if Space(s[0]) { WordsAre(s[1..]); } else { WordsAre(s[WordLength(s)..]); }
    }
  }

  lemma {:induction false} SentenceEnds(words: seq<string>)
    requires AllWords(words) && words != []
    ensures var s := Sentence(words); s != "" && !Space(s[0]) && !Space(s[|s| - 1])
  {
    if |words| > 1 { SentenceEnds(words[1..]); }
  }

  lemma {:induction false} StrippedTrims(words: seq<string>, before: string, after: string)
    requires AllWords(words) && before in {"", " "} && after in {"", " "} && (words == [] ==> after == "")
    ensures Stripped(before + Sentence(words) + after) == Sentence(words)
  {
    var s := Sentence(words);
    if words == [] {
      assert before + s + after == before && " "[1..] == "";
      assert Stripped("") == "" && Stripped(" ") == Stripped("");
    } else {
      SentenceEnds(words);
      var trailing := s + after;
      if after == " " { assert trailing[..|trailing| - 1] == s; } else { assert trailing == s; }
      assert Stripped(trailing) == s;
      assert before + s + after == before + trailing;
      if before == " " {
        assert (before + trailing)[1..] == trailing;
      } else {
        assert before + trailing == trailing;
      }
    }
  }

  /** A normalised text is the words of what is left of it without its comments, one space between
      each and the next: nothing else is lost and nothing gained. */
  lemma {:induction false} NormalisedIsWords(value: string)
    ensures NormaliseText(value) == Sentence(Words(Uncommented(value)))
  {
    var s := Uncommented(value);
    WordsAre(s);
    if s == "" {
      StrippedTrims([], "", "");
    } else if Space(s[0]) {
      CollapsedIs(s[1..]);
      StrippedTrims(Words(s), " ", if Words(s) != [] && EndsOpen(s[1..]) then " " else "");
      Associates(" ", Sentence(Words(s)), if Words(s) != [] && EndsOpen(s[1..]) then " " else "");
    } else {
      CollapsedIs(s);
      CollapsedWord(s, true);
      CollapsedWord(s, false);
      StrippedTrims(Words(s), "", if Words(s) != [] && EndsOpen(s) then " " else "");
      assert "" + Sentence(Words(s)) == Sentence(Words(s));
    }
  }

  // -------------------------------------------------------------------------------------
  // Comments.

  const OPENS := "<!--"
  const CLOSES := "-->"

  /** `mark` stands in `s` at `i`. */
  predicate StandsAt(s: string, mark: string, i: nat) {
    i + |mark| <= |s| && s[i..i + |mark|] == mark
  }

  lemma {:induction false} FirstClose(s: string, i: nat)
    requires StandsAt(s, CLOSES, i) && forall j :: 0 <= j < i ==> !StandsAt(s, CLOSES, j)
    ensures Closes(s) == i + 3
  {
    if i > 0 {
      assert !StandsAt(s, CLOSES, 0);
      assert s[1..][i - 1..i + 2] == s[i..i + 3];
      forall j | 0 <= j < i - 1 ensures !StandsAt(s[1..], CLOSES, j) {
        assert !StandsAt(s, CLOSES, j + 1);
        assert j + 3 <= |s[1..]| ==> s[1..][j..j + 3] == s[j + 1..j + 4];
      }
      FirstClose(s[1..], i - 1);
    }
  }

  lemma {:induction false} NoClose(s: string)
    requires forall j :: 0 <= j < |s| ==> !StandsAt(s, CLOSES, j)
    ensures Closes(s) == -1
  {
    if s != "" {
      assert !StandsAt(s, CLOSES, 0);
      forall j | 0 <= j < |s[1..]| ensures !StandsAt(s[1..], CLOSES, j) {
        assert !StandsAt(s, CLOSES, j + 1);
        assert j + 3 <= |s[1..]| ==> s[1..][j..j + 3] == s[j + 1..j + 4];
      }
      NoClose(s[1..]);
    }
  }

  /** A comment comes out, up to the first place it closes at. */
  lemma {:induction false} CommentComesOut(inside: string, rest: string)
    requires forall j :: 0 <= j < |inside| ==> !StandsAt(inside + CLOSES, CLOSES, j)
    ensures Uncommented(OPENS + inside + CLOSES + rest) == Uncommented(rest)
  {
    var s, body := OPENS + inside + CLOSES + rest, inside + CLOSES + rest;
    assert s[..4] == OPENS && s[4..] == body;
    assert body[|inside|..|inside| + 3] == CLOSES;
    forall j | 0 <= j < |inside| ensures !StandsAt(body, CLOSES, j) {
      assert !StandsAt(inside + CLOSES, CLOSES, j);
      assert (inside + CLOSES)[j..j + 3] == body[j..j + 3];
    }
    FirstClose(body, |inside|);
    assert s[4 + (|inside| + 3)..] == rest;
  }

  /** Everything else stays: a character where no comment opens, or opens and never closes. */
  lemma {:induction false} OthersStay(c: char, rest: string)
    requires !StandsAt([c] + rest, OPENS, 0) || forall j :: 0 <= j < |rest[3..]| ==> !StandsAt(rest[3..], CLOSES, j)
    ensures Uncommented([c] + rest) == [c] + Uncommented(rest)
  {
    var s := [c] + rest;
    assert s[1..] == rest;
    if StandsAt(s, OPENS, 0) {
      assert s[4..] == rest[3..];
      NoClose(rest[3..]);
    }
  }
}
