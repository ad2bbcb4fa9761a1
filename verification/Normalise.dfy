/** `ingest/normalise.py`: the bytes an item's fingerprint is a digest of. */
module Normalise {

  type byte = b: int | 0 <= b < 256

  /** A SHA-256, told apart by what went in: the one thing the archive relies on it for. */
  datatype Digest = Sha256(of: seq<byte>)

  const SEPARATOR: byte := 0x1f

  /** What Python's `\s` matches in a `str`, and so what `normalise_text` turns into a space. */
  predicate Space(c: char) {
    var i := c as int;
    || 0x09 <= i <= 0x0d || 0x1c <= i <= 0x20 || i == 0x85 || i == 0xa0 || i == 0x1680
    || 0x2000 <= i <= 0x200a || i == 0x2028 || i == 0x2029 || i == 0x202f || i == 0x205f || i == 0x3000
  }

  // -------------------------------------------------------------------------------------
  // `str.encode()`, section 3 of RFC 3629.

  function Utf8(c: char): (r: seq<byte>)
    ensures 1 <= |r| <= 4
  {
    var i := c as int;
    if i < 0x80 then [i]
    else if i < 0x800 then [0xc0 + i / 64, 0x80 + i % 64]
    else if i < 0x10000 then [0xe0 + i / 4096, 0x80 + i / 64 % 64, 0x80 + i % 64]
    else [0xf0 + i / 262144, 0x80 + i / 4096 % 64, 0x80 + i / 64 % 64, 0x80 + i % 64]
  }

  function Encode(s: string): seq<byte> {
    if s == [] then [] else Utf8(s[0]) + Encode(s[1..])
  }

  function DigestFields(fields: seq<string>): seq<byte> {
    if fields == [] then [] else Encode(fields[0]) + [SEPARATOR] + DigestFields(fields[1..])
  }

  lemma DigestStep(fields: seq<string>, n: nat)
    requires n < |fields|
    ensures DigestFields(fields[n..]) == Encode(fields[n]) + [SEPARATOR] + DigestFields(fields[n + 1..])
  {
    assert fields[n..][1..] == fields[n + 1..];
  }

  lemma FieldRegrouped(a: seq<byte>, b: seq<byte>, c: seq<byte>, d: seq<byte>)
    ensures a + (b + c + d) == ((a + b) + c) + d
  {
  }

  /** `digest_fields`, which feeds one running digest field by field. */
  method Digested(fields: seq<string>) returns (r: Digest)
    ensures r == Sha256(DigestFields(fields))
  {
    var fed: seq<byte> := [];
    for n := 0 to |fields|
      invariant DigestFields(fields) == fed + DigestFields(fields[n..])
    {
      ghost var before := fed;
      fed := fed + Encode(fields[n]);
      fed := fed + [SEPARATOR];
      DigestStep(fields, n);
      FieldRegrouped(before, Encode(fields[n]), [SEPARATOR], DigestFields(fields[n + 1..]));
    }
    r := Sha256(fed);
  }

  // -------------------------------------------------------------------------------------
  // `normalise_text`.

  function StartsWith(s: string, prefix: string): bool {
    |prefix| <= |s| && s[..|prefix|] == prefix
  }

  /** Where a comment opened before `s` closes, None when it never does. */
  function Closes(s: string): (r: int)
    ensures r == -1 || 3 <= r <= |s|
  {
    if StartsWith(s, "-->") then 3
    else if s == [] then -1
    else
      var later := Closes(s[1..]);
      if later == -1 then -1 else later + 1
  }

  /** Every `<!-- ... -->` taken out, the earliest opening and its earliest close first. */
  function Uncommented(s: string): (r: string)
    ensures forall c :: c in r ==> c in s
    decreases |s|
  {
    if s == [] then []
    else if StartsWith(s, "<!--") && Closes(s[4..]) != -1 then Uncommented(s[4 + Closes(s[4..])..])
    else [s[0]] + Uncommented(s[1..])
  }

  /** Runs of whitespace as one space each; `open` says whether a run is already under way. */
  function Collapsed(s: string, open: bool): string {
    if s == [] then []
    else if Space(s[0]) then (if open then [] else " ") + Collapsed(s[1..], true)
    else [s[0]] + Collapsed(s[1..], false)
  }

  function Stripped(s: string): string {
    if s == [] then []
    else if Space(s[0]) then Stripped(s[1..])
    else if Space(s[|s| - 1]) then Stripped(s[..|s| - 1])
    else s
  }

  function NormaliseText(value: string): string {
    Stripped(Collapsed(Uncommented(value), false))
  }

  function Normalised(fields: seq<string>): (r: seq<string>)
    ensures |r| == |fields|
    ensures forall i :: 0 <= i < |fields| ==> r[i] == NormaliseText(fields[i])
  {
    if fields == [] then [] else [NormaliseText(fields[0])] + Normalised(fields[1..])
  }

  function ContentFingerprint(fields: seq<string>): Digest {
    Sha256(DigestFields(Normalised(fields)))
  }

  // -------------------------------------------------------------------------------------
  // One character at a time: the separator byte is one character's, and no character's
  // bytes open another's.

  predicate Separable(s: string) {
    forall i :: 0 <= i < |s| ==> s[i] != SEPARATOR as char
  }

  lemma Utf8HasSeparator(c: char)
    ensures SEPARATOR in Utf8(c) <==> c == SEPARATOR as char
    ensures SEPARATOR in Utf8(c) ==> Utf8(c) == [SEPARATOR]
  {
    var i := c as int;
    if i >= 0x80 {
      assert forall b :: b in Utf8(c) ==> b >= 0x80;
    }
  }

  /** The width of a character's encoding is written in its first byte. */
  function Width(first: byte): nat {
    if first < 0x80 then 1 else if first < 0xe0 then 2 else if first < 0xf0 then 3 else 4
  }

  lemma Utf8Width(c: char)
    ensures Width(Utf8(c)[0]) == |Utf8(c)|
  {
  }

  /** The number a well-formed encoding spells, read back off its bytes. */
  function Decoded(r: seq<byte>): int
    requires 1 <= |r| <= 4
  {
    var head: int := r[0];
    if |r| == 1 then head
    else if |r| == 2 then Digits(head - 0xc0, r[1..])
    else if |r| == 3 then Digits(head - 0xe0, r[1..])
    else Digits(head - 0xf0, r[1..])
  }

  function Digits(high: int, rest: seq<byte>): int
    decreases |rest|
  {
    if rest == [] then high
    else
      var low: int := rest[0];
      Digits(high * 64 + (low - 0x80), rest[1..])
  }

  lemma Utf8Decodes(c: char)
    ensures Decoded(Utf8(c)) == c as int
  {
    var i := c as int;
    var r := Utf8(c);
    if i >= 0x80 {
      assert Digits(i / 64, [0x80 + i % 64]) == i;
    }
    if 0x800 <= i {
      assert i / 4096 == i / 64 / 64;
      assert r[|r| - 2..] == [0x80 + i / 64 % 64, 0x80 + i % 64];
      assert r[|r| - 2..][1..] == [0x80 + i % 64];
      assert Digits(i / 4096, r[|r| - 2..]) == Digits(i / 64, [0x80 + i % 64]);
    }
    if 0x10000 <= i {
      assert i / 262144 == i / 4096 / 64;
      assert r[1..][1..] == r[2..];
      assert Digits(i / 262144, r[1..]) == Digits(i / 4096, r[2..]);
    }
  }

  lemma Utf8Injective(c: char, d: char)
    requires Utf8(c) == Utf8(d)
    ensures c == d
  {
    Utf8Decodes(c);
    Utf8Decodes(d);
  }

  lemma Utf8Prefix(c: char, rest: seq<byte>, d: char, rest': seq<byte>)
    requires Utf8(c) + rest == Utf8(d) + rest'
    ensures c == d && rest == rest'
  {
    Utf8Width(c);
    Utf8Width(d);
    assert (Utf8(c) + rest)[0] == (Utf8(d) + rest')[0];
    assert (Utf8(c) + rest)[..|Utf8(c)|] == Utf8(c) && (Utf8(d) + rest')[..|Utf8(c)|] == Utf8(d);
    Utf8Injective(c, d);
    assert (Utf8(c) + rest)[|Utf8(c)|..] == rest && (Utf8(d) + rest')[|Utf8(c)|..] == rest';
  }

  lemma FieldOpens(f: string, rest: seq<byte>)
    requires f != []
    ensures Encode(f) + [SEPARATOR] + rest == Utf8(f[0]) + (Encode(f[1..]) + [SEPARATOR] + rest)
  {
  }

  lemma FieldOpensApart(f: string, rest: seq<byte>)
    requires f != [] && Separable(f)
    ensures (Encode(f) + [SEPARATOR] + rest)[0] != SEPARATOR
  {
    Utf8HasSeparator(f[0]);
    assert Utf8(f[0])[0] in Utf8(f[0]);
    assert (Encode(f) + [SEPARATOR] + rest)[0] == Utf8(f[0])[0];
  }

  /** A separator-free field, and the separator after it, can be read back off the front. */
  lemma {:induction false} FieldPrefix(f: string, rest: seq<byte>, g: string, rest': seq<byte>)
    requires Separable(f) && Separable(g)
    requires Encode(f) + [SEPARATOR] + rest == Encode(g) + [SEPARATOR] + rest'
    ensures f == g && rest == rest'
  {
    var left, right := Encode(f) + [SEPARATOR] + rest, Encode(g) + [SEPARATOR] + rest';
    if f == [] && g == [] {
      assert left[1..] == rest && right[1..] == rest';
    } else if f == [] {
      FieldOpensApart(g, rest');
    } else if g == [] {
      FieldOpensApart(f, rest);
    } else {
      var l, r := Encode(f[1..]) + [SEPARATOR] + rest, Encode(g[1..]) + [SEPARATOR] + rest';
      FieldOpens(f, rest);
      FieldOpens(g, rest');
      Utf8Prefix(f[0], l, g[0], r);
      FieldPrefix(f[1..], rest, g[1..], rest');
      assert f == [f[0]] + f[1..] && g == [g[0]] + g[1..];
    }
  }

  /** Separator-free fields can be read back off the bytes digested, however many there are:
      not only the boundaries count, so does their number. */
  lemma {:induction false} FieldsInjective(fs: seq<string>, gs: seq<string>)
    requires forall i :: 0 <= i < |fs| ==> Separable(fs[i])
    requires forall i :: 0 <= i < |gs| ==> Separable(gs[i])
    requires DigestFields(fs) == DigestFields(gs)
    ensures fs == gs
  {
    if fs != [] && gs != [] {
      FieldPrefix(fs[0], DigestFields(fs[1..]), gs[0], DigestFields(gs[1..]));
      FieldsInjective(fs[1..], gs[1..]);
      assert fs == [fs[0]] + fs[1..] && gs == [gs[0]] + gs[1..];
    }
  }

  // -------------------------------------------------------------------------------------
  // What normalising leaves.

  /** No whitespace but single spaces, none of them at either end. */
  ghost predicate Plain(s: string) {
    && (forall i :: 0 <= i < |s| && Space(s[i]) ==> s[i] == ' ' && 0 < i < |s| - 1 && !Space(s[i + 1]))
  }

  lemma {:induction false} CollapsedIsSingle(s: string, open: bool)
    ensures forall i :: 0 <= i < |Collapsed(s, open)| && Space(Collapsed(s, open)[i]) ==>
      Collapsed(s, open)[i] == ' ' && (i + 1 < |Collapsed(s, open)| ==> !Space(Collapsed(s, open)[i + 1]))
    ensures open && Collapsed(s, open) != [] ==> !Space(Collapsed(s, open)[0])
  {
    if s != [] {
      CollapsedIsSingle(s[1..], Space(s[0]));
    }
  }

  lemma {:induction false} StrippedIsPlain(s: string)
    requires forall i :: 0 <= i < |s| && Space(s[i]) ==> s[i] == ' ' && (i + 1 < |s| ==> !Space(s[i + 1]))
    ensures Plain(Stripped(s))
    decreases |s|
  {
    if s != [] {
      if Space(s[0]) {
        StrippedIsPlain(s[1..]);
      } else if Space(s[|s| - 1]) {
        StrippedIsPlain(s[..|s| - 1]);
      }
    }
  }

  lemma NormalisedIsPlain(value: string)
    ensures Plain(NormaliseText(value))
    ensures Separable(NormaliseText(value))
  {
    CollapsedIsSingle(Uncommented(value), false);
    StrippedIsPlain(Collapsed(Uncommented(value), false));
    assert Space(SEPARATOR as char);
  }

  /** Two items fingerprint alike exactly when every normalised field of one is the other's. */
  lemma FingerprintIsFields(fs: seq<string>, gs: seq<string>)
    ensures ContentFingerprint(fs) == ContentFingerprint(gs) <==> Normalised(fs) == Normalised(gs)
  {
    forall i | 0 <= i < |fs| ensures Separable(Normalised(fs)[i]) { NormalisedIsPlain(fs[i]); }
    forall i | 0 <= i < |gs| ensures Separable(Normalised(gs)[i]) { NormalisedIsPlain(gs[i]); }
    if ContentFingerprint(fs) == ContentFingerprint(gs) {
      FieldsInjective(Normalised(fs), Normalised(gs));
    }
  }

  // -------------------------------------------------------------------------------------
  // Fields nobody normalised.

  lemma {:induction false} EncodeJoins(a: string, b: string)
    ensures Encode(a + b) == Encode(a) + Encode(b)
  {
    if a == [] {
      assert a + b == b;
    } else {
      EncodeJoins(a[1..], b);
      assert (a + b)[1..] == a[1..] + b && (a + b)[0] == a[0];
      assert Encode(a + b) == Utf8(a[0]) + Encode(a[1..] + b);
    }
  }

  lemma {:induction false} EncodeInjective(f: string, g: string)
    requires Encode(f) == Encode(g)
    ensures f == g
  {
    if f != [] && g != [] {
      Utf8Prefix(f[0], Encode(f[1..]), g[0], Encode(g[1..]));
      EncodeInjective(f[1..], g[1..]);
      assert f == [f[0]] + f[1..] && g == [g[0]] + g[1..];
    }
  }

  function Separators(bytes: seq<byte>): nat {
    if bytes == [] then 0 else (if bytes[0] == SEPARATOR then 1 else 0) + Separators(bytes[1..])
  }

  lemma {:induction false} SeparatorsJoin(a: seq<byte>, b: seq<byte>)
    ensures Separators(a + b) == Separators(a) + Separators(b)
  {
    if a == [] {
      assert a + b == b;
    } else {
      SeparatorsJoin(a[1..], b);
      assert (a + b)[0] == a[0] && (a + b)[1..] == a[1..] + b;
    }
  }

  lemma {:induction false} NoSeparators(bytes: seq<byte>)
    requires SEPARATOR !in bytes
    ensures Separators(bytes) == 0
  {
    if bytes != [] {
      assert bytes[0] in bytes && forall b :: b in bytes[1..] ==> b in bytes;
      NoSeparators(bytes[1..]);
    }
  }

  lemma {:induction false} EncodeSeparators(f: string)
    ensures Separators(Encode(f)) == 0 <==> Separable(f)
  {
    if f != [] {
      EncodeSeparators(f[1..]);
      SeparatorsJoin(Utf8(f[0]), Encode(f[1..]));
      Utf8HasSeparator(f[0]);
      if f[0] != SEPARATOR as char {
        NoSeparators(Utf8(f[0]));
      }
      assert Separable(f) <==> f[0] != SEPARATOR as char && Separable(f[1..]);
    }
  }

  ghost predicate AllSeparable(fs: seq<string>) {
    forall i :: 0 <= i < |fs| ==> Separable(fs[i])
  }

  /** There is a separator for each field, and more exactly when some field holds one. */
  lemma {:induction false} DigestSeparators(fs: seq<string>)
    ensures Separators(DigestFields(fs)) >= |fs|
    ensures Separators(DigestFields(fs)) == |fs| <==> AllSeparable(fs)
  {
    if fs != [] {
      DigestSeparators(fs[1..]);
      EncodeSeparators(fs[0]);
      SeparatorsJoin(Encode(fs[0]) + [SEPARATOR], DigestFields(fs[1..]));
      SeparatorsJoin(Encode(fs[0]), [SEPARATOR]);
      assert Separators([SEPARATOR]) == 1 + Separators([]);
      assert AllSeparable(fs) <==> Separable(fs[0]) && AllSeparable(fs[1..]) by {
        assert forall i :: 0 < i < |fs| ==> fs[i] == fs[1..][i - 1];
      }
    }
  }

  lemma Associates(a: seq<byte>, b: seq<byte>, c: seq<byte>)
    ensures a + (b + c) == (a + b) + c
  {
  }

  lemma {:induction false} DigestJoins(a: seq<string>, b: seq<string>)
    ensures DigestFields(a + b) == DigestFields(a) + DigestFields(b)
  {
    if a == [] {
      assert a + b == b;
    } else {
      DigestJoins(a[1..], b);
      assert (a + b)[0] == a[0] && (a + b)[1..] == a[1..] + b;
      Associates(Encode(a[0]) + [SEPARATOR], DigestFields(a[1..]), DigestFields(b));
    }
  }

  const SEPARATED: string := [SEPARATOR as char]

  lemma EncodeBetween(a: string, b: string)
    ensures Encode(a + SEPARATED + b) == Encode(a) + [SEPARATOR] + Encode(b)
  {
    Utf8HasSeparator(SEPARATOR as char);
    EncodeJoins(a + SEPARATED, b);
    EncodeJoins(a, SEPARATED);
    assert SEPARATED[1..] == [] && Encode(SEPARATED) == [SEPARATOR] + [];
  }

  lemma PairDigest(x: string, y: string)
    ensures DigestFields([x, y]) == Encode(x) + [SEPARATOR] + Encode(y) + [SEPARATOR]
  {
    assert [x, y][1..] == [y] && [y][1..] == [];
    assert DigestFields([y]) == Encode(y) + [SEPARATOR] + [];
  }

  /** A separator inside either of two neighbours is as good a boundary as the one between. */
  lemma PairShifts(a: string, b: string, c: string)
    ensures DigestFields([a + SEPARATED + b, c]) == DigestFields([a, b + SEPARATED + c])
  {
    PairDigest(a + SEPARATED + b, c);
    PairDigest(a, b + SEPARATED + c);
    EncodeBetween(a, b);
    EncodeBetween(b, c);
  }

  lemma PairInside(fs: seq<string>, i: nat, x: string, y: string)
    requires i + 1 < |fs| && DigestFields([fs[i], fs[i + 1]]) == DigestFields([x, y])
    ensures DigestFields(fs[i := x][i + 1 := y]) == DigestFields(fs)
  {
    var gs := fs[i := x][i + 1 := y];
    assert fs == fs[..i] + ([fs[i], fs[i + 1]] + fs[i + 2..]);
    assert gs == fs[..i] + ([x, y] + fs[i + 2..]);
    DigestJoins(fs[..i], [fs[i], fs[i + 1]] + fs[i + 2..]);
    DigestJoins(fs[..i], [x, y] + fs[i + 2..]);
    DigestJoins([fs[i], fs[i + 1]], fs[i + 2..]);
    DigestJoins([x, y], fs[i + 2..]);
  }

  /** With a separator inside a field, and another field beside it, other fields digest alike. */
  lemma BoundaryMoves(fs: seq<string>, i: nat, j: nat) returns (gs: seq<string>)
    requires |fs| >= 2 && i < |fs| && j < |fs[i]| && fs[i][j] == SEPARATOR as char
    ensures |gs| == |fs| && gs != fs && DigestFields(gs) == DigestFields(fs)
  {
    var a, b := fs[i][..j], fs[i][j + 1..];
    assert fs[i] == a + SEPARATED + b;
    if i + 1 < |fs| {
      PairShifts(a, b, fs[i + 1]);
      assert [fs[i], fs[i + 1]] == [a + SEPARATED + b, fs[i + 1]];
      PairInside(fs, i, a, b + SEPARATED + fs[i + 1]);
      gs := fs[i := a][i + 1 := b + SEPARATED + fs[i + 1]];
    } else {
      PairShifts(fs[i - 1], a, b);
      assert [fs[i - 1], fs[i - 1 + 1]] == [fs[i - 1], a + SEPARATED + b];
      PairInside(fs, i - 1, fs[i - 1] + SEPARATED + a, b);
      gs := fs[i - 1 := fs[i - 1] + SEPARATED + a][i := b];
    }
  }

  /** Nothing else with as many fields digests to the same. */
  ghost predicate Alone(fs: seq<string>) {
    forall gs: seq<string> :: |gs| == |fs| && DigestFields(gs) == DigestFields(fs) ==> gs == fs
  }

  /** The boundaries of raw fields count exactly when there are none to count, or no field holds
      the separator: what normalising sees to, and what an identity digests without. */
  lemma BoundariesCount(fs: seq<string>)
    ensures Alone(fs) <==> |fs| < 2 || AllSeparable(fs)
  {
    if AllSeparable(fs) {
      forall gs: seq<string> | |gs| == |fs| && DigestFields(gs) == DigestFields(fs) ensures gs == fs {
        DigestSeparators(fs);
        DigestSeparators(gs);
        FieldsInjective(gs, fs);
      }
    } else if |fs| < 2 {
      forall gs: seq<string> | |gs| == |fs| && DigestFields(gs) == DigestFields(fs) ensures gs == fs {
        if fs != [] {
          assert fs == [fs[0]] && gs == [gs[0]];
          OneFieldAlone(fs[0], gs[0]);
        }
      }
    } else {
      var i :| 0 <= i < |fs| && !Separable(fs[i]);
      var j :| 0 <= j < |fs[i]| && fs[i][j] == SEPARATOR as char;
      var gs := BoundaryMoves(fs, i, j);
    }
  }

  lemma OneFieldAlone(f: string, g: string)
    requires DigestFields([f]) == DigestFields([g])
    ensures f == g
  {
    assert [f][1..] == [] && [g][1..] == [];
    assert DigestFields([f]) == Encode(f) + [SEPARATOR] + [] && DigestFields([g]) == Encode(g) + [SEPARATOR] + [];
    assert DigestFields([f])[..|Encode(f)|] == Encode(f) && DigestFields([g])[..|Encode(g)|] == Encode(g);
    EncodeInjective(f, g);
  }
}
