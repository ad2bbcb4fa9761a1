/** Search fragments: the words that matched, wrapped by `ui/search.py` in two control characters,
    and unwrapped again by `web/src/lib/snippet.ts`. */
module Snippet {
  import Pieces

  const OPEN := 2 as char
  const CLOSE := 3 as char

  const SNIPPET_CHARS := 220
  const LEAD_IN := 60

  /** `\w` and `casefold` as Python knows them, and the words asked for. */
  datatype Matcher = Matcher(isWord: char -> bool, fold: string -> string, wanted: seq<string>)

  const ELLIPSIS := 0x2026 as char

  /** Neither marker, nor a space, nor an ellipsis is a word character. */
  ghost predicate Sensible(m: Matcher) {
    !m.isWord(OPEN) && !m.isWord(CLOSE) && !m.isWord(' ') && !m.isWord(ELLIPSIS)
  }

  predicate StartsWith(s: string, prefix: string) {
    |prefix| <= |s| && s[..|prefix|] == prefix
  }

  predicate Hits(m: Matcher, word: string) {
    exists i :: 0 <= i < |m.wanted| && StartsWith(m.fold(word), m.wanted[i])
  }

  /** Where the run of word characters that starts at `at` ends. */
  function WordEnd(m: Matcher, s: string, at: nat): (end: nat)
    requires at <= |s|
    ensures at <= end <= |s|
    ensures forall i :: at <= i < end ==> m.isWord(s[i])
    ensures end < |s| ==> !m.isWord(s[end])
    decreases |s| - at
  {
    if at < |s| && m.isWord(s[at]) then WordEnd(m, s, at + 1) else at
  }

  // -------------------------------------------------------------------------------------
  // Marking.

  /** Each matching word from `at` on, wrapped, and everything else as it is. */
  function Marked(m: Matcher, s: string, at: nat): string
    requires at <= |s|
    decreases |s| - at
  {
    var end := WordEnd(m, s, at);
    if at == |s| then ""
    else if end == at then [s[at]] + Marked(m, s, at + 1)
    else (if Hits(m, s[at..end]) then [OPEN] + s[at..end] + [CLOSE] else s[at..end]) + Marked(m, s, end)
  }

  /** `WORD.finditer`, from `at` on. */
  function Words(m: Matcher, s: string, at: nat): seq<(nat, nat)>
    requires at <= |s|
    decreases |s| - at
  {
    var end := WordEnd(m, s, at);
    if at == |s| then []
    else if end == at then Words(m, s, at + 1)
    else [(at, end)] + Words(m, s, end)
  }

  /** Words come in order, each inside the text and none empty. */
  ghost predicate Spans(s: string, at: nat, words: seq<(nat, nat)>) {
    && (forall i :: 0 <= i < |words| ==> at <= words[i].0 < words[i].1 <= |s|)
    && (forall i, j :: 0 <= i < j < |words| ==> words[i].1 <= words[j].0)
  }

  lemma {:induction false} WordsAreSpans(m: Matcher, s: string, at: nat)
    requires at <= |s|
    ensures Spans(s, at, Words(m, s, at))
    decreases |s| - at
  {
    var end := WordEnd(m, s, at);
    if at < |s| {
      WordsAreSpans(m, s, if end == at then at + 1 else end);
    }
  }

  /** A word as it is written out. */
  function Written(m: Matcher, word: string): string {
    if Hits(m, word) then [OPEN] + word + [CLOSE] else word
  }

  /** Up to the next word nothing is marked. */
  lemma {:induction false} UpToWord(m: Matcher, s: string, at: nat, start: nat, end: nat)
    requires at <= |s| && Words(m, s, at) != [] && Words(m, s, at)[0] == (start, end)
    ensures at <= start < end <= |s| && Words(m, s, at)[1..] == Words(m, s, end)
    ensures Marked(m, s, at) == s[at..start] + (Written(m, s[start..end]) + Marked(m, s, end))
    decreases |s| - at
  {
    if WordEnd(m, s, at) == at {
      UpToWord(m, s, at + 1, start, end);
      var c, word, rest := [s[at]], Written(m, s[start..end]), Marked(m, s, end);
      assert s[at..start] == c + s[at + 1..start];
      assert Marked(m, s, at) == c + Marked(m, s, at + 1);
      Regrouped(c, s[at + 1..start], word + rest);
    } else {
      AtWord(m, s, at, end);
      assert s[at..at] == "";
    }
  }

  lemma AtWord(m: Matcher, s: string, at: nat, end: nat)
    requires at < |s| && end == WordEnd(m, s, at) && end > at
    ensures Words(m, s, at)[1..] == Words(m, s, end)
    ensures Marked(m, s, at) == Written(m, s[at..end]) + Marked(m, s, end)
  {
  }

  lemma {:induction false} NoWordLeft(m: Matcher, s: string, at: nat)
    requires at <= |s| && Words(m, s, at) == []
    ensures Marked(m, s, at) == s[at..]
    decreases |s| - at
  {
    if at < |s| {
      NoWordLeft(m, s, at + 1);
      assert s[at..] == [s[at]] + s[at + 1..];
    }
  }

  lemma Regrouped(a: string, b: string, c: string)
    ensures a + (b + c) == (a + b) + c
  {
  }

  /** One turn of the loop: what is passed over either is written out before a marked word, or
      goes on with one that is not marked. */
  lemma Turned(out: string, passed: string, gap: string, word: string, rest: string)
    ensures out + passed + (gap + (word + rest)) == out + (passed + gap) + word + "" + rest
    ensures out + passed + (gap + (word + rest)) == out + (passed + gap + word) + rest
  {
    Regrouped(out + passed, gap, word + rest);
    Regrouped(out, passed, gap);
    Regrouped(out + (passed + gap), word, rest);
    Regrouped(out, passed + gap, word);
    assert out + (passed + gap) + word + "" == out + (passed + gap) + word;
  }

  lemma Slices(s: string, at: nat, past: nat, start: nat, end: nat)
    requires at <= past <= start <= end <= |s|
    ensures s[at..start] == s[at..past] + s[past..start]
    ensures s[at..end] == s[at..past] + s[past..start] + s[start..end]
    ensures s[end..end] == ""
  {
  }

  /** `_marked`. */
  method MarkedText(m: Matcher, window: string) returns (r: string)
    ensures r == Marked(m, window, 0)
  {
    var words := Words(m, window, 0);
    var out, at := "", 0;
    ghost var past := 0;
    for n := 0 to |words|
      invariant at <= past <= |window|
      invariant words[n..] == Words(m, window, past)
      invariant Marked(m, window, 0) == out + window[at..past] + Marked(m, window, past)
    {
      var start, end := words[n].0, words[n].1;
      UpToWord(m, window, past, start, end);
      assert words[n..][1..] == words[n + 1..];
      Turned(out, window[at..past], window[past..start], Written(m, window[start..end]), Marked(m, window, end));
      Slices(window, at, past, start, end);
      if Hits(m, window[start..end]) {
        out := out + window[at..start] + ([OPEN] + window[start..end] + [CLOSE]);
        at := end;
      }
      past := end;
    }
    NoWordLeft(m, window, past);
    Slices(window, at, past, |window|, |window|);
    r := out + window[at..];
  }

  // -------------------------------------------------------------------------------------
  // Unmarking.

  datatype Run = Run(text: string, hit: bool)

  function Index(s: string, c: char): (i: nat)
    ensures i <= |s| && (forall j :: 0 <= j < i ==> s[j] != c) && (i < |s| ==> s[i] == c)
  {
    if s == "" || s[0] == c then 0 else 1 + Index(s[1..], c)
  }

  /** `split`: a hit up to the first closing marker, or to the end, and text after it. */
  function SplitPart(part: string): seq<Run> {
    var close := Index(part, CLOSE);
    if close == |part| then [Run(part, true)] else [Run(part[..close], true), Run(part[close + 1..], false)]
  }

  function SplitParts(parts: seq<string>): seq<Run> {
    if parts == [] then [] else SplitPart(parts[0]) + SplitParts(parts[1..])
  }

  function NonEmpty(runs: seq<Run>): seq<Run> {
    if runs == [] then [] else (if runs[0].text != "" then [runs[0]] else []) + NonEmpty(runs[1..])
  }

  function Unfiltered(snippet: string): seq<Run> {
    var parts := Pieces.Split(snippet, OPEN);
    [Run(parts[0], false)] + SplitParts(parts[1..])
  }

  /** `marked`. */
  function Runs(snippet: string): seq<Run> {
    NonEmpty(Unfiltered(snippet))
  }

  function Text(runs: seq<Run>): string {
    if runs == [] then "" else runs[0].text + Text(runs[1..])
  }

  /** What a reader sees highlighted. */
  function HitTexts(runs: seq<Run>): seq<string> {
    if runs == [] then []
    else (if runs[0].hit && runs[0].text != "" then [runs[0].text] else []) + HitTexts(runs[1..])
  }

  /** Text put at the front of the first run. */
  function Onto(text: string, runs: seq<Run>): (r: seq<Run>)
    requires runs != []
    ensures r != []
  {
    [Run(text + runs[0].text, runs[0].hit)] + runs[1..]
  }

  /** The same reading a character at a time: a marker ends one run and starts the next. */
  function Walk(s: string, hit: bool): (r: seq<Run>)
    ensures r != []
  {
    if s == "" then [Run("", hit)]
    else if s[0] == OPEN then [Run("", hit)] + Walk(s[1..], true)
    else if s[0] == CLOSE && hit then [Run("", hit)] + Walk(s[1..], false)
    else Onto([s[0]], Walk(s[1..], hit))
  }

  lemma WalkStep(c: char, s: string, hit: bool)
    ensures Walk([c] + s, hit)
         == if c == OPEN then [Run("", hit)] + Walk(s, true)
            else if c == CLOSE && hit then [Run("", hit)] + Walk(s, false)
            else Onto([c], Walk(s, hit))
  {
    assert ([c] + s)[1..] == s;
  }

  lemma OntoTwice(a: string, b: string, r: seq<Run>)
    requires r != []
    ensures Onto(a, Onto(b, r)) == Onto(a + b, r)
  {
    Regrouped(a, b, r[0].text);
    assert Onto(b, r)[1..] == r[1..];
  }

  lemma OntoJoins(a: string, r: seq<Run>, t: seq<Run>)
    requires r != []
    ensures Onto(a, r + t) == Onto(a, r) + t
  {
    assert (r + t)[1..] == r[1..] + t;
  }

  lemma SplitPartStep(c: char, p: string)
    ensures SplitPart([c] + p) == if c == CLOSE then [Run("", true), Run(p, false)] else Onto([c], SplitPart(p))
  {
    var s, close := [c] + p, Index(p, CLOSE);
    assert s[1..] == p;
    if c == CLOSE {
      assert Index(s, CLOSE) == 0 && s[..0] == "";
    } else {
      assert Index(s, CLOSE) == close + 1;
      assert s[..close + 1] == [c] + p[..close];
      if close < |p| {
        assert s[close + 2..] == p[close + 1..];
        assert SplitPart(p)[1..] == [Run(p[close + 1..], false)];
      }
    }
  }

  lemma {:induction false} WalkIsPlain(part: string)
    requires OPEN !in part
    ensures Walk(part, false) == [Run(part, false)]
  {
    if part != "" {
      assert part[0] in part && forall c :: c in part[1..] ==> c in part;
      WalkIsPlain(part[1..]);
      WalkStep(part[0], part[1..], false);
      assert part == [part[0]] + part[1..];
    }
  }

  lemma {:induction false} WalkIsSplit(part: string)
    requires OPEN !in part
    ensures Walk(part, true) == SplitPart(part)
  {
    if part != "" {
      assert part[0] in part && forall c :: c in part[1..] ==> c in part;
      var c, rest := part[0], part[1..];
      assert part == [c] + rest;
      WalkStep(c, rest, true);
      SplitPartStep(c, rest);
      if c == CLOSE {
        WalkIsPlain(rest);
      } else {
        WalkIsSplit(rest);
      }
    }
  }

  lemma RunsRegrouped(a: seq<Run>, b: seq<Run>, c: seq<Run>)
    ensures a + (b + c) == (a + b) + c
  {
  }

  lemma {:induction false} WalkJoins(a: string, b: string, hit: bool)
    requires OPEN !in a
    ensures Walk(a + [OPEN] + b, hit) == Walk(a, hit) + Walk(b, true)
  {
    if a == "" {
      WalkStep(OPEN, b, hit);
      assert a + [OPEN] + b == [OPEN] + b;
    } else {
      var c, rest := a[0], a[1..];
      assert c in a && forall d :: d in rest ==> d in a;
      assert a == [c] + rest && a + [OPEN] + b == [c] + (rest + [OPEN] + b);
      WalkStep(c, rest + [OPEN] + b, hit);
      WalkStep(c, rest, hit);
      if c == CLOSE && hit {
        WalkJoins(rest, b, false);
        RunsRegrouped([Run("", hit)], Walk(rest, false), Walk(b, true));
      } else {
        WalkJoins(rest, b, hit);
        OntoJoins([c], Walk(rest, hit), Walk(b, true));
      }
    }
  }

  /** The text up to a character and from it on. */
  lemma {:induction false} SplitFirst(s: string, sep: char) returns (head: string, tail: string)
    requires sep in s
    ensures sep !in head && s == head + [sep] + tail
    ensures Pieces.Split(s, sep) == [head] + Pieces.Split(tail, sep)
  {
    var i := Index(s, sep);
    head, tail := s[..i], s[i + 1..];
    Pieces.SplitOff(head, tail, sep);
  }

  lemma {:induction false} PartsWalk(s: string)
    ensures SplitParts(Pieces.Split(s, OPEN)) == Walk(s, true)
    decreases |s|
  {
    if OPEN in s {
      var head, tail := SplitFirst(s, OPEN);
      PartsWalk(tail);
      WalkJoins(head, tail, true);
      WalkIsSplit(head);
    } else {
      Pieces.SplitNone(s, OPEN);
      WalkIsSplit(s);
      assert [s][1..] == [];
      assert SplitParts([s]) == SplitPart(s) + [];
    }
  }

  /** Splitting on the markers is reading them off one by one. */
  lemma UnfilteredIsWalk(s: string)
    ensures Unfiltered(s) == Walk(s, false)
  {
    if OPEN in s {
      var head, tail := SplitFirst(s, OPEN);
      PartsWalk(tail);
      WalkJoins(head, tail, false);
      WalkIsPlain(head);
    } else {
      Pieces.SplitNone(s, OPEN);
      WalkIsPlain(s);
    }
  }

  lemma {:induction false} FilterKeeps(runs: seq<Run>)
    ensures Text(NonEmpty(runs)) == Text(runs) && HitTexts(NonEmpty(runs)) == HitTexts(runs)
  {
    if runs != [] {
      FilterKeeps(runs[1..]);
      var rest := NonEmpty(runs[1..]);
      assert [] + rest == rest && [] + HitTexts(rest) == HitTexts(rest);
      assert ([runs[0]] + rest)[1..] == rest;
    }
  }

  // -------------------------------------------------------------------------------------
  // Marking and unmarking.

  function HitWords(m: Matcher, s: string, at: nat): seq<string>
    requires at <= |s|
    decreases |s| - at
  {
    var end := WordEnd(m, s, at);
    if at == |s| then []
    else if end == at then HitWords(m, s, at + 1)
    else (if Hits(m, s[at..end]) then [s[at..end]] else []) + HitWords(m, s, end)
  }

  function Count(s: string, c: char): nat {
    if s == "" then 0 else (if s[0] == c then 1 else 0) + Count(s[1..], c)
  }

  lemma {:induction false} CountIn(s: string, c: char)
    ensures Count(s, c) > 0 <==> c in s
  {
    if s != "" {
      CountIn(s[1..], c);
      assert s == [s[0]] + s[1..];
    }
  }

  /** A run with neither marker in it goes through whole, onto whatever run follows. */
  lemma {:induction false} WalkOver(a: string, b: string, hit: bool)
    requires OPEN !in a && CLOSE !in a
    ensures Walk(a + b, hit) == Onto(a, Walk(b, hit))
  {
    if a == "" {
      assert a + b == b && a + Walk(b, hit)[0].text == Walk(b, hit)[0].text;
    } else {
      var c, rest := a[0], a[1..];
      assert c in a && forall d :: d in rest ==> d in a;
      assert a == [c] + rest && a + b == [c] + (rest + b);
      WalkOver(rest, b, hit);
      WalkStep(c, rest + b, hit);
      OntoTwice([c], rest, Walk(b, hit));
    }
  }

  lemma OntoEmpty(a: string, r: seq<Run>)
    ensures Onto(a, [Run("", true)] + r) == [Run(a, true)] + r
  {
    assert ([Run("", true)] + r)[1..] == r && a + "" == a;
  }

  lemma Prepended(first: Run, second: Run, r: seq<Run>)
    ensures [first] + ([second] + r) == [first, second] + r
  {
  }

  lemma {:induction false} WalkHit(a: string, b: string, hit: bool)
    requires OPEN !in a && CLOSE !in a
    ensures Walk([OPEN] + a + [CLOSE] + b, hit) == [Run("", hit), Run(a, true)] + Walk(b, false)
  {
    var rest := Walk(b, false);
    assert [OPEN] + a + [CLOSE] + b == [OPEN] + (a + ([CLOSE] + b));
    WalkStep(OPEN, a + ([CLOSE] + b), hit);
    WalkOver(a, [CLOSE] + b, true);
    WalkStep(CLOSE, b, true);
    OntoEmpty(a, rest);
    Prepended(Run("", hit), Run(a, true), rest);
  }

  lemma WordHasNoMarkers(m: Matcher, s: string, at: nat)
    requires at <= |s| && Sensible(m)
    ensures OPEN !in s[at..WordEnd(m, s, at)] && CLOSE !in s[at..WordEnd(m, s, at)]
  {
  }

  lemma TextFirst(r: seq<Run>, a: string)
    requires r != []
    ensures Text(Onto(a, r)) == a + Text(r)
    ensures !r[0].hit ==> HitTexts(Onto(a, r)) == HitTexts(r)
  {
    assert Onto(a, r)[1..] == r[1..];
    Regrouped(a, r[0].text, Text(r[1..]));
  }

  lemma {:induction false} WalkHitFirst(s: string, hit: bool)
    ensures Walk(s, hit)[0].hit == hit
  {
    if s != "" && s[0] != OPEN && !(s[0] == CLOSE && hit) {
      WalkHitFirst(s[1..], hit);
    }
  }

  /** With no opening marker of its own, a window comes back whole, its matching words the hits. */
  lemma {:induction false} WalkMarked(m: Matcher, s: string, at: nat)
    requires at <= |s| && Sensible(m) && OPEN !in s[at..]
    ensures Text(Walk(Marked(m, s, at), false)) == s[at..]
    ensures HitTexts(Walk(Marked(m, s, at), false)) == HitWords(m, s, at)
    decreases |s| - at
  {
    var end := WordEnd(m, s, at);
    if at < |s| {
      var next := if end == at then at + 1 else end;
      var word, rest := s[at..next], Marked(m, s, next);
      assert s[at..] == word + s[next..];
      WalkMarked(m, s, next);
      WalkHitFirst(rest, false);
      WordHasNoMarkers(m, s, at);
      if end == at {
        assert word == [s[at]] && s[at] in s[at..];
        PlainStep(s[at], rest);
      } else if Hits(m, word) {
        HitStep(word, rest);
      } else {
        WalkOver(word, rest, false);
        TextFirst(Walk(rest, false), word);
      }
    }
  }

  lemma PlainStep(c: char, rest: string)
    requires c != OPEN
    ensures Text(Walk([c] + rest, false)) == [c] + Text(Walk(rest, false))
    ensures HitTexts(Walk([c] + rest, false)) == HitTexts(Walk(rest, false))
  {
    WalkHitFirst(rest, false);
    TextFirst(Walk(rest, false), [c]);
    WalkStep(c, rest, false);
  }

  lemma HitStep(word: string, rest: string)
    requires OPEN !in word && CLOSE !in word && word != ""
    ensures Text(Walk([OPEN] + word + [CLOSE] + rest, false)) == word + Text(Walk(rest, false))
    ensures HitTexts(Walk([OPEN] + word + [CLOSE] + rest, false)) == [word] + HitTexts(Walk(rest, false))
  {
    WalkHit(word, rest, false);
    var r := Walk(rest, false);
    var all := [Run("", false), Run(word, true)] + r;
    assert all[1..] == [Run(word, true)] + r && all[1..][1..] == r;
  }

  /** Every opening marker of its own is lost, and perhaps a closing one after it. */
  lemma {:induction false} MarkersAreLost(m: Matcher, s: string, at: nat, hit: bool)
    requires at <= |s| && Sensible(m)
    ensures |Text(Walk(Marked(m, s, at), hit))| <= |s| - at - Count(s[at..], OPEN)
    decreases |s| - at
  {
    var end := WordEnd(m, s, at);
    if at < |s| {
      var next := if end == at then at + 1 else end;
      var word, rest := s[at..next], Marked(m, s, next);
      assert s[at..] == word + s[next..];
      MarkersAreLost(m, s, next, hit);
      MarkersAreLost(m, s, next, false);
      MarkersAreLost(m, s, next, true);
      WordHasNoMarkers(m, s, at);
      if end == at {
        assert s[at..][1..] == s[at + 1..];
        CharLost(s[at], rest, hit);
      } else {
        CountOver(word, s[next..], OPEN);
        if Hits(m, word) {
          WalkHit(word, rest, hit);
          HitLength(word, Walk(rest, false), hit);
        } else {
          WalkOver(word, rest, hit);
          TextFirst(Walk(rest, hit), word);
        }
      }
    } else {
      assert s[at..] == "";
    }
  }

  lemma HitLength(word: string, r: seq<Run>, hit: bool)
    ensures |Text([Run("", hit), Run(word, true)] + r)| == |word| + |Text(r)|
  {
    var all := [Run("", hit), Run(word, true)] + r;
    assert all[1..] == [Run(word, true)] + r && all[1..][1..] == r;
  }

  lemma CharLost(c: char, rest: string, hit: bool)
    ensures c == OPEN ==> |Text(Walk([c] + rest, hit))| == |Text(Walk(rest, true))|
    ensures c == CLOSE && hit ==> |Text(Walk([c] + rest, hit))| == |Text(Walk(rest, false))|
    ensures c != OPEN && !(c == CLOSE && hit) ==> |Text(Walk([c] + rest, hit))| == 1 + |Text(Walk(rest, hit))|
  {
    WalkStep(c, rest, hit);
    TextFirst(Walk(rest, hit), [c]);
    assert ([Run("", hit)] + Walk(rest, true))[1..] == Walk(rest, true);
    assert ([Run("", hit)] + Walk(rest, false))[1..] == Walk(rest, false);
  }

  lemma {:induction false} CountOver(a: string, b: string, c: char)
    requires c !in a
    ensures Count(a + b, c) == Count(b, c)
  {
    if a == "" {
      assert a + b == b;
    } else {
      assert a[0] in a && forall d :: d in a[1..] ==> d in a;
      CountOver(a[1..], b, c);
      assert (a + b)[0] == a[0] && (a + b)[1..] == a[1..] + b;
    }
  }

  /** The runs the client shows, laid end to end, are the window the server marked, exactly when
      the window held no opening marker of its own. A closing one does no harm. */
  lemma RunsAreTheWindow(m: Matcher, window: string)
    requires Sensible(m)
    ensures Text(Runs(Marked(m, window, 0))) == window <==> OPEN !in window
  {
    var s := Marked(m, window, 0);
    UnfilteredIsWalk(s);
    FilterKeeps(Unfiltered(s));
    assert window[0..] == window;
    if OPEN in window {
      MarkersAreLost(m, window, 0, false);
      CountIn(window, OPEN);
    } else {
      WalkMarked(m, window, 0);
    }
  }

  /** And what it highlights is every word with a wanted prefix, in order, and nothing else. */
  lemma HitsAreTheWords(m: Matcher, window: string)
    requires Sensible(m) && OPEN !in window
    ensures HitTexts(Runs(Marked(m, window, 0))) == HitWords(m, window, 0)
  {
    var s := Marked(m, window, 0);
    UnfilteredIsWalk(s);
    FilterKeeps(Unfiltered(s));
    assert window[0..] == window;
    WalkMarked(m, window, 0);
  }

  // -------------------------------------------------------------------------------------
  // The window.

  /** What `rsplit` on one space leaves on its left. */
  function BeforeLastSpace(s: string): string {
    if ' ' !in s then s else if s[|s| - 1] == ' ' then s[..|s| - 1] else BeforeLastSpace(s[..|s| - 1])
  }

  /** `clipped`: the whole of a text that fits, and otherwise `BeforeLastSpace` of what would. */
  function Clipped(text: string, chars: nat): string {
    if |text| <= chars then text else BeforeLastSpace(text[..chars]) + [ELLIPSIS]
  }

  /** `_boundary`: just after the first space from `start` on, if that is still before the match. */
  function Boundary(flat: string, start: nat, before: nat): nat
    requires start <= |flat|
  {
    if start == 0 then 0
    else
      var space := start + Index(flat[start..], ' ');
      if space < |flat| && space < before then space + 1 else start
  }

  /** The first matching word, as where it starts and ends. */
  function FirstHit(m: Matcher, s: string, words: seq<(nat, nat)>): (r: seq<(nat, nat)>)
    requires Spans(s, 0, words)
    ensures |r| <= 1 && forall w :: w in r ==> w in words && w.0 < w.1 <= |s| && Hits(m, s[w.0..w.1])
    ensures r == [] ==> forall w :: w in words ==> w.0 < w.1 <= |s| && !Hits(m, s[w.0..w.1])
  {
    if words == [] then []
    else if Hits(m, s[words[0].0..words[0].1]) then [words[0]]
    else FirstHit(m, s, words[1..])
  }

  function Start(flat: string, first: nat): nat
    requires first <= |flat|
  {
    Boundary(flat, if first > LEAD_IN then first - LEAD_IN else 0, first)
  }

  /** `fragment`, of a reading already flattened. */
  function Fragment(m: Matcher, flat: string): string {
    WordsAreSpans(m, flat, 0);
    var first := FirstHit(m, flat, Words(m, flat, 0));
    if flat == "" || m.wanted == [] || first == [] then ""
    else
      var start := Start(flat, first[0].0);
      StartIsBefore(flat, first[0].0);
      Shown(m, flat, start)
  }

  lemma StartIsBefore(flat: string, first: nat)
    requires first <= |flat|
    ensures Start(flat, first) <= first
  {
  }

  /** Where the space-delimited token that holds a place ends. */
  function TokenEnd(s: string, at: nat): nat
    requires at <= |s|
  {
    at + Index(s[at..], ' ')
  }

  /** A maximal run of word characters. */
  ghost predicate IsWord(m: Matcher, s: string, start: nat, end: nat) {
    && start < end <= |s| && (forall i :: start <= i < end ==> m.isWord(s[i]))
    && (start == 0 || !m.isWord(s[start - 1])) && (end == |s| || !m.isWord(s[end]))
  }

  lemma {:induction false} RunEnds(m: Matcher, s: string, start: nat, end: nat)
    requires start <= end <= |s| && (forall i :: start <= i < end ==> m.isWord(s[i])) && (end == |s| || !m.isWord(s[end]))
    ensures WordEnd(m, s, start) == end
    decreases end - start
  {
    if start < end {
      RunEnds(m, s, start + 1, end);
    }
  }

  lemma {:induction false} WordsAreWords(m: Matcher, s: string, at: nat, w: (nat, nat))
    requires at <= |s| && w in Words(m, s, at) && (at == 0 || !m.isWord(s[at - 1]) || at == |s| || !m.isWord(s[at]))
    ensures at <= w.0 && IsWord(m, s, w.0, w.1)
    decreases |s| - at
  {
    var end := WordEnd(m, s, at);
    if at < |s| && end == at {
      WordsAreWords(m, s, at + 1, w);
    } else if at < |s| && w != (at, end) {
      WordsAreWords(m, s, end, w);
    }
  }

  lemma {:induction false} HitWordIsFound(m: Matcher, s: string, at: nat, start: nat, end: nat)
    requires at <= start && IsWord(m, s, start, end) && Hits(m, s[start..end])
    requires at == 0 || at == start || !m.isWord(s[at - 1]) || !m.isWord(s[at])
    ensures s[start..end] in HitWords(m, s, at)
    decreases |s| - at
  {
    if at == start {
      RunEnds(m, s, start, end);
    } else {
      var next := WordEnd(m, s, at);
      if next == at {
        HitWordIsFound(m, s, at + 1, start, end);
      } else {
        assert !m.isWord(s[start - 1]);
        HitWordIsFound(m, s, next, start, end);
      }
    }
  }

  lemma {:induction false} LastSpaceIsLast(s: string, k: nat)
    requires k < |s| && s[k] == ' '
    ensures k <= |BeforeLastSpace(s)| && BeforeLastSpace(s) <= s
    ensures |BeforeLastSpace(s)| < |s| && s[|BeforeLastSpace(s)|] == ' '
  {
    if s[|s| - 1] != ' ' {
      assert s[..|s| - 1][k] == ' ';
      LastSpaceIsLast(s[..|s| - 1], k);
    }
  }

  /** A word stays a word when its text is cut after the token that holds it. */
  lemma ClippedKeepsWord(m: Matcher, s: string, chars: nat, start: nat, end: nat)
    requires Sensible(m) && IsWord(m, s, start, end) && TokenEnd(s, start) < chars
    ensures var c := Clipped(s, chars); IsWord(m, c, start, end) && c[start..end] == s[start..end]
  {
    var e, c := TokenEnd(s, start), Clipped(s, chars);
    assert end <= e by {
      assert forall i :: start <= i < end ==> s[i] != ' ';
      assert e < |s| ==> s[start..][e - start] == ' ';
    }
    if |s| > chars {
      assert s[start..][e - start] == ' ' && s[..chars][e] == ' ';
      LastSpaceIsLast(s[..chars], e);
      var kept := BeforeLastSpace(s[..chars]);
      assert kept == s[..|kept|];
      assert c[start..end] == s[start..end];
      assert c[end] == if end < |kept| then s[end] else ELLIPSIS;
    }
  }

  lemma SlicedWord(m: Matcher, s: string, from: nat, start: nat, end: nat)
    requires IsWord(m, s, start, end) && from <= start
    ensures IsWord(m, s[from..], start - from, end - from) && s[from..][start - from..end - from] == s[start..end]
    ensures TokenEnd(s[from..], start - from) == TokenEnd(s, start) - from
  {
    assert s[from..][start - from..] == s[start..];
  }

  lemma WindowShowsTheMatch(m: Matcher, flat: string, from: nat, start: nat, end: nat)
    requires Sensible(m) && from <= start && IsWord(m, flat, start, end) && Hits(m, flat[start..end])
    requires TokenEnd(flat, start) - from < SNIPPET_CHARS
    ensures flat[start..end] in HitWords(m, Clipped(flat[from..], SNIPPET_CHARS), 0)
  {
    SlicedWord(m, flat, from, start, end);
    TextShows(m, flat[from..], start - from, end - from);
  }

  lemma TextShows(m: Matcher, text: string, start: nat, end: nat)
    requires Sensible(m) && IsWord(m, text, start, end) && Hits(m, text[start..end])
    requires TokenEnd(text, start) < SNIPPET_CHARS
    ensures text[start..end] in HitWords(m, Clipped(text, SNIPPET_CHARS), 0)
  {
    ClippedKeepsWord(m, text, SNIPPET_CHARS, start, end);
    HitWordIsFound(m, Clipped(text, SNIPPET_CHARS), 0, start, end);
  }

  lemma FirstHitIsAHit(m: Matcher, flat: string, start: nat, end: nat)
    requires FirstMatch(m, flat) == Found(start, end)
    ensures IsWord(m, flat, start, end) && Hits(m, flat[start..end])
  {
    WordsAreSpans(m, flat, 0);
    var first := FirstHit(m, flat, Words(m, flat, 0));
    assert first[0] in first;
    WordsAreWords(m, flat, 0, first[0]);
  }

  /** What the reader is shown of a reading that matched: when the token holding the first match
      ends inside the window, that match is among what is highlighted. */
  lemma FragmentShowsTheMatch(m: Matcher, flat: string, start: nat, end: nat)
    requires Sensible(m) && OPEN !in flat && FirstMatch(m, flat) == Found(start, end)
    requires start <= |flat| && TokenEnd(flat, start) - Start(flat, start) < SNIPPET_CHARS
    ensures start < end <= |flat| && flat[start..end] in HitTexts(Runs(Fragment(m, flat)))
  {
    FirstHitIsAHit(m, flat, start, end);
    StartIsBefore(flat, start);
    WindowShowsTheMatch(m, flat, Start(flat, start), start, end);
    FragmentIs(m, flat, start, end);
    WindowHasNoMarker(flat, Start(flat, start));
    FragmentHits(m, flat, Start(flat, start));
  }

  lemma FragmentIs(m: Matcher, flat: string, start: nat, end: nat)
    requires FirstMatch(m, flat) == Found(start, end) && start <= |flat|
    ensures Start(flat, start) <= |flat|
    ensures Fragment(m, flat) == Shown(m, flat, Start(flat, start))
  {
    StartIsBefore(flat, start);
  }

  function Shown(m: Matcher, flat: string, from: nat): string
    requires from <= |flat|
  {
    (if from > 0 then [ELLIPSIS] else "") + Marked(m, Clipped(flat[from..], SNIPPET_CHARS), 0)
  }

  lemma FragmentHits(m: Matcher, flat: string, from: nat)
    requires Sensible(m) && from <= |flat| && OPEN !in Clipped(flat[from..], SNIPPET_CHARS)
    ensures HitTexts(Runs(Shown(m, flat, from))) == HitWords(m, Clipped(flat[from..], SNIPPET_CHARS), 0)
  {
    var window := Clipped(flat[from..], SNIPPET_CHARS);
    HitsAreTheWords(m, window);
    LeadingEllipsis(Marked(m, window, 0));
  }

  datatype Match = Nothing | Found(start: nat, end: nat)

  /** The first matching word of a reading. */
  function FirstMatch(m: Matcher, flat: string): Match {
    WordsAreSpans(m, flat, 0);
    var first := FirstHit(m, flat, Words(m, flat, 0));
    if first == [] then Nothing else Found(first[0].0, first[0].1)
  }

  lemma {:induction false} BeforeLastSpaceIn(s: string)
    ensures forall c :: c in BeforeLastSpace(s) ==> c in s
  {
    if ' ' in s && s[|s| - 1] != ' ' {
      BeforeLastSpaceIn(s[..|s| - 1]);
    }
  }

  lemma WindowHasNoMarker(flat: string, from: nat)
    requires OPEN !in flat && from <= |flat|
    ensures OPEN !in Clipped(flat[from..], SNIPPET_CHARS)
  {
    var text := flat[from..];
    if |text| > SNIPPET_CHARS {
      BeforeLastSpaceIn(text[..SNIPPET_CHARS]);
    }
  }

  lemma LeadingEllipsis(s: string)
    ensures HitTexts(Runs([ELLIPSIS] + s)) == HitTexts(Runs(s))
    ensures HitTexts(Runs("" + s)) == HitTexts(Runs(s))
  {
    UnfilteredIsWalk(s);
    UnfilteredIsWalk([ELLIPSIS] + s);
    FilterKeeps(Unfiltered(s));
    FilterKeeps(Unfiltered([ELLIPSIS] + s));
    PlainStep(ELLIPSIS, s);
    assert "" + s == s;
  }

  // -------------------------------------------------------------------------------------
  // Where the window opens and closes.

  /** The run-up is no longer than it may be and as long as it can be: it opens on a word wherever there
      is a space to open after, the first such, and at the most there may be where there is none. */
  lemma WindowOpensOnAWord(flat: string, first: nat)
    requires first <= |flat|
    ensures var start := Start(flat, first);
      && start <= first <= start + LEAD_IN
      && (start == 0 || flat[start - 1] == ' ' || forall i :: start <= i < first ==> flat[i] != ' ')
    ensures first <= LEAD_IN ==> Start(flat, first) == 0
    ensures first > LEAD_IN ==> var start, lead := Start(flat, first), first - LEAD_IN;
      if forall i :: lead <= i < first ==> flat[i] != ' ' then start == lead
      else start > lead && flat[start - 1] == ' ' && forall i :: lead <= i < start - 1 ==> flat[i] != ' '
  {
    var lead := if first > LEAD_IN then first - LEAD_IN else 0;
    assert forall i :: 0 <= i < |flat[lead..]| ==> flat[lead..][i] == flat[lead + i];
  }

  lemma {:induction false} CutAtASpace(s: string)
    ensures BeforeLastSpace(s) <= s
    ensures ' ' in s ==> |BeforeLastSpace(s)| < |s| && s[|BeforeLastSpace(s)|] == ' '
    ensures ' ' !in s ==> BeforeLastSpace(s) == s
    ensures forall i :: |BeforeLastSpace(s)| < i < |s| ==> s[i] != ' '
  {
    if ' ' in s && s[|s| - 1] != ' ' {
      assert s == s[..|s| - 1] + [s[|s| - 1]];
      CutAtASpace(s[..|s| - 1]);
    }
  }

  /** A text that fits is left alone; a longer one is cut at its last space that fits, or where it
      stops fitting when there is none, and says so. */
  lemma CutOnAWord(text: string, chars: nat)
    ensures var r := Clipped(text, chars);
      if |text| <= chars then r == text
      else
        && r != [] && r[|r| - 1] == ELLIPSIS && r[..|r| - 1] <= text && |r| - 1 <= chars
        && (text[|r| - 1] == ' ' || (|r| - 1 == chars && forall i :: 0 <= i < chars ==> text[i] != ' '))
        && forall i :: |r| - 1 < i < chars ==> text[i] != ' '
  {
    if |text| > chars {
      var room := text[..chars];
      CutAtASpace(room);
      assert forall i :: 0 <= i < chars ==> room[i] == text[i];
      assert BeforeLastSpace(room) <= text;
    }
  }

  // -------------------------------------------------------------------------------------
  // What is highlighted.

  /** A word of a text, folded, begins with one of the words asked for. */
  ghost predicate IsHit(m: Matcher, s: string, word: string) {
    && (exists start: nat, end: nat :: IsWord(m, s, start, end) && word == s[start..end])
    && exists wanted, rest :: wanted in m.wanted && m.fold(word) == wanted + rest
  }

  lemma HitsAPrefix(m: Matcher, word: string)
    ensures Hits(m, word) <==> exists wanted, rest :: wanted in m.wanted && m.fold(word) == wanted + rest
  {
    if i :| 0 <= i < |m.wanted| && StartsWith(m.fold(word), m.wanted[i]) {
      assert m.fold(word) == m.wanted[i] + m.fold(word)[|m.wanted[i]|..];
    }
    if wanted, rest :| wanted in m.wanted && m.fold(word) == wanted + rest {
      var i :| 0 <= i < |m.wanted| && m.wanted[i] == wanted;
      assert (wanted + rest)[..|wanted|] == wanted;
    }
  }

  lemma {:induction false} HitWordIsAWord(m: Matcher, s: string, at: nat, word: string) returns (start: nat, end: nat)
    requires at <= |s| && word in HitWords(m, s, at) && (at == 0 || !m.isWord(s[at - 1]) || at == |s| || !m.isWord(s[at]))
    ensures IsWord(m, s, start, end) && word == s[start..end] && Hits(m, word)
    decreases |s| - at
  {
    var next := WordEnd(m, s, at);
    if next == at {
      start, end := HitWordIsAWord(m, s, at + 1, word);
    } else if Hits(m, s[at..next]) && word == s[at..next] {
      start, end := at, next;
    } else {
      start, end := HitWordIsAWord(m, s, next, word);
    }
  }

  /** Of a text with no marker of its own, what is highlighted is each whole word that begins, folded,
      with a word asked for, and nothing else. */
  lemma HighlightsAreTheHits(m: Matcher, window: string, word: string)
    requires Sensible(m) && OPEN !in window
    ensures word in HitTexts(Runs(Marked(m, window, 0))) <==> IsHit(m, window, word)
  {
    HitsAreTheWords(m, window);
    if word in HitWords(m, window, 0) {
      var start, end := HitWordIsAWord(m, window, 0, word);
      HitsAPrefix(m, word);
    }
    if IsHit(m, window, word) {
      var start: nat, end: nat :| IsWord(m, window, start, end) && word == window[start..end];
      HitsAPrefix(m, word);
      HitWordIsFound(m, window, 0, start, end);
    }
  }

  lemma {:induction false} EveryWordIsListed(m: Matcher, s: string, at: nat, start: nat, end: nat)
    requires at <= start && IsWord(m, s, start, end)
    ensures (start, end) in Words(m, s, at)
    decreases |s| - at
  {
    var next := WordEnd(m, s, at);
    if start == at {
      RunEnds(m, s, start, end);
    } else if next == at {
      EveryWordIsListed(m, s, at + 1, start, end);
    } else {
      assert next <= start;
      EveryWordIsListed(m, s, next, start, end);
    }
  }

  lemma {:induction false} FirstHitIsFirst(m: Matcher, s: string, words: seq<(nat, nat)>, start: nat, end: nat)
    requires Spans(s, 0, words) && (start, end) in words && Hits(m, s[start..end])
    ensures FirstHit(m, s, words) != [] && FirstHit(m, s, words)[0].0 <= start
  {
    if !Hits(m, s[words[0].0..words[0].1]) {
      assert words == [words[0]] + words[1..];
      FirstHitIsFirst(m, s, words[1..], start, end);
    } else {
      var k :| 0 <= k < |words| && words[k] == (start, end);
    }
  }

  /** The match a fragment opens on is the first: whenever a whole word is one there is a match, and
      it starts no later. */
  lemma FirstMatchIsFirst(m: Matcher, flat: string, start: nat, end: nat)
    requires IsWord(m, flat, start, end) && Hits(m, flat[start..end])
    ensures FirstMatch(m, flat).Found? && FirstMatch(m, flat).start <= start
  {
    WordsAreSpans(m, flat, 0);
    EveryWordIsListed(m, flat, 0, start, end);
    FirstHitIsFirst(m, flat, Words(m, flat, 0), start, end);
  }
}
