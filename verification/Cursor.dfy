/** `ui/cursor.py`: three sort keys to text and back, through isoformat, UUIDs and base64. */
module Cursor {
  import opened Wrappers
  import Normalise
  import opened Numerals
  import opened Calendar
  import Pieces

  type byte = Normalise.byte

  const SEPARATOR := '|'
  const VERSION := "2"

  /** A datetime as Python keeps it: its fields, and what its clock is ahead of UTC by, if it says. */
  datatype Zone = Naive | Offset(micros: int)

  datatype Moment = Moment(stamp: Stamp, zone: Zone)

  const DAY := 86400000000

  predicate ValidMoment(m: Moment) {
    ValidStamp(m.stamp) && (m.zone.Offset? ==> -DAY < m.zone.micros < DAY)
  }

  /** The sort keys of a row, in the order its list is sorted by. An id is a UUID's 128 bits. */
  datatype Key = Key(first: Moment, second: Moment, id: nat)

  const IDS := 0x1_0000_0000_0000_0000_0000_0000_0000_0000

  predicate ValidKey(k: Key) {
    ValidMoment(k.first) && ValidMoment(k.second) && k.id < IDS
  }

  datatype Error = BadCursor(cursor: string)

  // -------------------------------------------------------------------------------------
  // `isoformat`, and `fromisoformat` of what it writes.

  datatype Read = Read(value: nat, rest: string)

  /** `width` decimal digits and the punctuation after them. */
  function Taken(t: string, width: nat, next: string): Option<Read> {
    if |t| >= width + |next| && t[width..width + |next|] == next && Number(t[..width], 10).Some?
    then Some(Read(Number(t[..width], 10).value, t[width + |next|..]))
    else None
  }

  function Two(n: int, next: string, rest: string): string
    requires 0 <= n
  {
    Digits(n, 10, 2) + next + rest
  }

  /** Microseconds are written only when there are some. */
  function Fraction(micro: int, rest: string): string
    requires 0 <= micro
  {
    if micro == 0 then rest else "." + (Digits(micro, 10, 6) + "" + rest)
  }

  /** The seconds of an offset, written only when there are some. */
  function OffsetTail(second: int, micro: int): string
    requires 0 <= second && 0 <= micro
  {
    if second == 0 && micro == 0 then "" else ":" + Two(second, "", Fraction(micro, ""))
  }

  function Magnitude(micros: int): nat {
    if micros < 0 then -micros else micros
  }

  function OffsetText(hour: int, minute: int, second: int, micro: int): string
    requires 0 <= hour && 0 <= minute && 0 <= second && 0 <= micro
  {
    Two(hour, ":", Two(minute, "", OffsetTail(second, micro)))
  }

  function AheadText(a: nat): string {
    OffsetText(a / 3600000000, a / 60000000 % 60, a / 1000000 % 60, a % 1000000)
  }

  function ZoneText(z: Zone): string {
    match z
    case Naive => ""
    case Offset(micros) => [if micros < 0 then '-' else '+'] + AheadText(Magnitude(micros))
  }

  function Iso(m: Moment): string
    requires ValidMoment(m)
  {
    var s := m.stamp;
    Digits(s.date.year, 10, 4) + "-" + Two(s.date.month, "-", Two(s.date.day, "T",
      Two(s.hour, ":", Two(s.minute, ":", Two(s.second, "", Fraction(s.micro, ZoneText(m.zone)))))))
  }

  function ParseFraction(t: string): Option<Read> {
    if t != "" && t[0] == '.' then Taken(t[1..], 6, "") else Some(Read(0, t))
  }

  function ParseOffsetTail(t: string): Option<nat> {
    if t == "" then Some(0)
    else if t[0] != ':' then None
    else
      var second :- Taken(t[1..], 2, "");
      var micro :- ParseFraction(second.rest);
      if second.value < 60 && micro.value < 1000000 && micro.rest == "" then Some(second.value * 1000000 + micro.value) else None
  }

  /** An offset without its sign. */
  function ParseOffset(t: string): (r: Option<nat>)
    ensures r.Some? ==> r.value < DAY
  {
    var hour :- Taken(t, 2, ":");
    var minute :- Taken(hour.rest, 2, "");
    var tail :- ParseOffsetTail(minute.rest);
    if hour.value < 24 && minute.value < 60 && tail < 60000000
    then Some((hour.value * 60 + minute.value) * 60000000 + tail) else None
  }

  function ParseZone(t: string): (r: Option<Zone>)
    ensures r.Some? && r.value.Offset? ==> -DAY < r.value.micros < DAY
  {
    if t == "" then Some(Naive)
    else if t[0] != '+' && t[0] != '-' then None
    else
      var a: int :- ParseOffset(t[1..]);
      Some(Offset(if t[0] == '-' then -a else a))
  }

  function ParseIso(t: string): (r: Option<Moment>)
    ensures r.Some? ==> ValidMoment(r.value)
  {
    var year :- Taken(t, 4, "-");
    var month :- Taken(year.rest, 2, "-");
    var day :- Taken(month.rest, 2, "T");
    var hour :- Taken(day.rest, 2, ":");
    var minute :- Taken(hour.rest, 2, ":");
    var second :- Taken(minute.rest, 2, "");
    var micro :- ParseFraction(second.rest);
    var zone :- ParseZone(micro.rest);
    var stamp := Stamp(Date(year.value, month.value, day.value), hour.value, minute.value, second.value, micro.value);
    if ValidStamp(stamp) then Some(Moment(stamp, zone)) else None
  }

  // -------------------------------------------------------------------------------------
  // The text of a UUID.

  function IdText(id: nat): string {
    var hex := Digits(id, 16, 32);
    hex[..8] + "-" + (hex[8..12] + "-" + (hex[12..16] + "-" + (hex[16..20] + "-" + hex[20..])))
  }

  function Undashed(t: string): string {
    if t == "" then "" else (if t[0] == '-' then "" else [t[0]]) + Undashed(t[1..])
  }

  function ParseId(t: string): (r: Option<nat>)
    ensures r.Some? ==> r.value < IDS
  {
    NumberFits(Undashed(t), 16);
    IdsAreHex();
    if |Undashed(t)| == 32 then Number(Undashed(t), 16) else None
  }

  // -------------------------------------------------------------------------------------
  // URL-safe base64, sections 4 and 5 of RFC 4648, and Python's lenient reading of it.

  function Symbol(v: nat): char
    requires v < 64
  {
    if v < 26 then 'A' + v as char
    else if v < 52 then 'a' + (v - 26) as char
    else if v < 62 then '0' + (v - 52) as char
    else if v == 62 then '-' else '_'
  }

  function Sextet(c: char): (r: Option<nat>)
    ensures r.Some? ==> r.value < 64
  {
    if 'A' <= c <= 'Z' then Some((c - 'A') as nat)
    else if 'a' <= c <= 'z' then Some((c - 'a') as nat + 26)
    else if '0' <= c <= '9' then Some((c - '0') as nat + 52)
    else if c == '-' || c == '+' then Some(62)
    else if c == '_' || c == '/' then Some(63)
    else None
  }

  /** Three bytes at a time, four symbols each; one byte over makes two symbols, two make three. */
  function Symbols(b: seq<byte>): string {
    if b == [] then ""
    else
      var x: int := b[0];
      if |b| == 1 then [Symbol(x / 4), Symbol(x % 4 * 16)]
      else
        var y: int := b[1];
        if |b| == 2 then [Symbol(x / 4), Symbol(x % 4 * 16 + y / 16), Symbol(y % 16 * 4)]
        else
          var z: int := b[2];
          [Symbol(x / 4), Symbol(x % 4 * 16 + y / 16), Symbol(y % 16 * 4 + z / 64), Symbol(z % 64)] + Symbols(b[3..])
  }

  function PadsFor(length: nat): nat {
    (3 - length % 3) % 3
  }

  function Base64(b: seq<byte>): string {
    Symbols(b) + Pads(PadsFor(|b|))
  }

  function RStrip(s: string): string {
    if s != "" && s[|s| - 1] == '=' then RStrip(s[..|s| - 1]) else s
  }

  function Pads(n: nat): (r: string)
    ensures |r| == n
    ensures forall i :: 0 <= i < n ==> r[i] == '='
  {
    if n == 0 then "" else "=" + Pads(n - 1)
  }

  /** `binascii.a2b_base64` from one place on: `quad` symbols of the group read, `left` their bits
      not yet written, `pads` the padding just seen. What is no symbol is stepped over. */
  function A2b(s: string, at: nat, quad: nat, left: nat, pads: nat): Option<seq<byte>>
    requires at <= |s| && quad < 4
    decreases |s| - at
  {
    if at == |s| then if quad == 0 then Some([]) else None
    else if s[at] == '=' then
      if quad >= 2 && quad + pads + 1 >= 4 then Some([])
      else A2b(s, at + 1, quad, left, if quad >= 2 then pads + 1 else pads)
    else if Sextet(s[at]).None? then A2b(s, at + 1, quad, left, pads)
    else
      var v := Sextet(s[at]).value;
      if quad == 0 then A2b(s, at + 1, 1, v, 0)
      else
        var rest :- A2b(s, at + 1, if quad == 3 then 0 else quad + 1, Kept(quad, v), 0);
        Some([Written(quad, left, v)] + rest)
  }

  /** The bits of a symbol that wait for the next one. */
  function Kept(quad: nat, v: nat): nat {
    if quad == 1 then v % 16 else if quad == 2 then v % 4 else 0
  }

  function Written(quad: nat, left: nat, v: nat): byte
    requires v < 64
  {
    if quad == 1 then (left * 4 + v / 16) % 256
    else if quad == 2 then (left * 16 + v / 4) % 256
    else (left * 64 + v) % 256
  }

  // -------------------------------------------------------------------------------------
  // The cursor.

  predicate Ascii(s: string) {
    forall c :: c in s ==> c < 128 as char
  }

  /** Bytes as text. What does not decode as ASCII is no stamp and no id either. */
  function Text(b: seq<byte>): Option<string> {
    if b == [] then Some("")
    else
      var x: int := b[0];
      var rest :- Text(b[1..]);
      if x < 128 then Some([x as char] + rest) else None
  }

  function Raw(version: string, k: Key): string
    requires ValidKey(k)
  {
    version + [SEPARATOR] + (Iso(k.first) + [SEPARATOR] + (Iso(k.second) + [SEPARATOR] + IdText(k.id)))
  }

  function Encoded(version: string, k: Key): string
    requires ValidKey(k)
  {
    RStrip(Base64(Normalise.Encode(Raw(version, k))))
  }

  function Encode(k: Key): string
    requires ValidKey(k)
  {
    Encoded(VERSION, k)
  }

  /** The text between the base64 and the fields. */
  function Unpacked(cursor: string): Option<string> {
    if !Ascii(cursor) then None
    else
      var bytes :- A2b(cursor + Pads(-|cursor| % 4), 0, 0, 0, 0);
      Text(bytes)
  }

  function Fields(parts: seq<string>): (r: Option<Key>)
    ensures r.Some? ==> ValidKey(r.value)
  {
    if |parts| != 4 || parts[0] != VERSION then None
    else
      var first :- ParseIso(parts[1]);
      var second :- ParseIso(parts[2]);
      var id :- ParseId(parts[3]);
      Some(Key(first, second, id))
  }

  /** A key anyone could have cut a cursor on, or the one error there is. */
  function Decode(cursor: string): (r: Result<Key, Error>)
    ensures r.Success? ==> ValidKey(r.value)
    ensures r.Failure? ==> r.error == BadCursor(cursor)
  {
    var text := Unpacked(cursor);
    var key := if text.Some? then Fields(Pieces.Split(text.value, SEPARATOR)) else None;
    if key.Some? then Success(key.value) else Failure(BadCursor(cursor))
  }

  // -------------------------------------------------------------------------------------
  // The fields read back.

  lemma TakenReads(n: nat, width: nat, next: string, rest: string)
    requires n < Power(10, width)
    ensures Taken(Digits(n, 10, width) + next + rest, width, next) == Some(Read(n, rest))
  {
    NumberOfDigits(n, 10, width);
    var d := Digits(n, 10, width);
    var t := d + next + rest;
    assert t[..width] == d;
    assert t[width..width + |next|] == next;
    assert t[width + |next|..] == rest;
  }

  lemma TwoReads(n: int, next: string, rest: string)
    requires 0 <= n < 100
    ensures Taken(Two(n, next, rest), 2, next) == Some(Read(n, rest))
  {
    assert Power(10, 2) == 100;
    TakenReads(n, 2, next, rest);
  }

  lemma FractionReads(micro: int, rest: string)
    requires 0 <= micro < 1000000 && (rest == "" || rest[0] != '.')
    ensures ParseFraction(Fraction(micro, rest)) == Some(Read(micro, rest))
  {
    if micro != 0 {
      assert Power(10, 3) == 1000 && Power(10, 6) == 1000000;
      TakenReads(micro, 6, "", rest);
      assert Fraction(micro, rest)[1..] == Digits(micro, 10, 6) + "" + rest;
    }
  }

  lemma OffsetTailReads(second: int, micro: int)
    requires 0 <= second < 60 && 0 <= micro < 1000000
    ensures ParseOffsetTail(OffsetTail(second, micro)) == Some(second * 1000000 + micro)
  {
    if second != 0 || micro != 0 {
      TwoReads(second, "", Fraction(micro, ""));
      FractionReads(micro, "");
      assert OffsetTail(second, micro)[1..] == Two(second, "", Fraction(micro, ""));
    }
  }

  lemma ClockSplits(a: nat) returns (hour: nat, minute: nat, second: nat, micro: nat)
    requires a < DAY
    ensures hour == a / 3600000000 < 24 && minute == a / 60000000 % 60 && second == a / 1000000 % 60 && micro == a % 1000000
    ensures (hour * 60 + minute) * 60000000 + (second * 1000000 + micro) == a
  {
    hour, minute, second, micro := a / 3600000000, a / 60000000 % 60, a / 1000000 % 60, a % 1000000;
    assert a / 1000000 == a / 60000000 * 60 + second;
    assert a / 60000000 == hour * 60 + minute;
  }

  lemma OffsetIs(t: string, hour: Read, minute: Read, tail: nat)
    requires Taken(t, 2, ":") == Some(hour) && Taken(hour.rest, 2, "") == Some(minute)
    requires ParseOffsetTail(minute.rest) == Some(tail)
    requires hour.value < 24 && minute.value < 60 && tail < 60000000
    ensures ParseOffset(t) == Some((hour.value * 60 + minute.value) * 60000000 + tail)
  {
  }

  lemma {:induction false} ClockReads(hour: int, minute: int, tail: string, rest: nat, a: nat)
    requires 0 <= hour < 24 && 0 <= minute < 60 && rest < 60000000 && ParseOffsetTail(tail) == Some(rest)
    requires (hour * 60 + minute) * 60000000 + rest == a
    ensures ParseOffset(Two(hour, ":", Two(minute, "", tail))) == Some(a)
  {
    var later := Two(minute, "", tail);
    TwoReads(hour, ":", later);
    TwoReads(minute, "", tail);
    OffsetIs(Two(hour, ":", later), Read(hour, later), Read(minute, tail), rest);
  }

  lemma {:induction false} OffsetReads(hour: int, minute: int, second: int, micro: int, a: nat)
    requires 0 <= hour < 24 && 0 <= minute < 60 && 0 <= second < 60 && 0 <= micro < 1000000
    requires (hour * 60 + minute) * 60000000 + (second * 1000000 + micro) == a
    ensures ParseOffset(OffsetText(hour, minute, second, micro)) == Some(a)
  {
    var tail := OffsetTail(second, micro);
    OffsetTailReads(second, micro);
    ClockReads(hour, minute, tail, second * 1000000 + micro, a);
  }

  lemma AheadReads(a: nat)
    requires a < DAY
    ensures ParseOffset(AheadText(a)) == Some(a)
  {
    var hour, minute, second, micro := ClockSplits(a);
    OffsetReads(hour, minute, second, micro, a);
  }

  lemma {:induction false} ZoneReads(z: Zone)
    requires z.Offset? ==> -DAY < z.micros < DAY
    ensures ParseZone(ZoneText(z)) == Some(z) && (ZoneText(z) == "" || ZoneText(z)[0] != '.')
  {
    if z.Offset? {
      AheadReads(Magnitude(z.micros));
      SignReads(AheadText(Magnitude(z.micros)), z.micros);
    }
  }

  lemma {:induction false} SignReads(text: string, micros: int)
    requires ParseOffset(text) == Some(Magnitude(micros))
    ensures ParseZone([if micros < 0 then '-' else '+'] + text) == Some(Offset(micros))
  {
    assert ([if micros < 0 then '-' else '+'] + text)[1..] == text;
  }

  lemma IsoReads(m: Moment)
    requires ValidMoment(m)
    ensures ParseIso(Iso(m)) == Some(m)
  {
    var s := m.stamp;
    var tail := Fraction(s.micro, ZoneText(m.zone));
    var second := Two(s.second, "", tail);
    var minute := Two(s.minute, ":", second);
    var hour := Two(s.hour, ":", minute);
    var day := Two(s.date.day, "T", hour);
    var month := Two(s.date.month, "-", day);
    assert Power(10, 4) == 10000;
    TakenReads(s.date.year, 4, "-", month);
    TwoReads(s.date.month, "-", day);
    TwoReads(s.date.day, "T", hour);
    TwoReads(s.hour, ":", minute);
    TwoReads(s.minute, ":", second);
    TwoReads(s.second, "", tail);
    ZoneReads(m.zone);
    FractionReads(s.micro, ZoneText(m.zone));
  }

  lemma {:induction false} UndashedJoins(a: string, b: string)
    ensures Undashed(a + b) == Undashed(a) + Undashed(b)
  {
    if a == "" {
      assert a + b == b;
    } else {
      UndashedJoins(a[1..], b);
      assert (a + b)[0] == a[0] && (a + b)[1..] == a[1..] + b;
      Regrouped(if a[0] == '-' then "" else [a[0]], Undashed(a[1..]), Undashed(b));
    }
  }

  lemma Regrouped(a: string, b: string, c: string)
    ensures a + b + c == a + (b + c)
  {
  }

  lemma {:induction false} UndashedKeeps(a: string)
    requires '-' !in a
    ensures Undashed(a) == a
  {
    if a != "" {
      assert a[0] in a && forall c :: c in a[1..] ==> c in a;
      UndashedKeeps(a[1..]);
    }
  }

  lemma DashBetween(a: string, b: string)
    requires '-' !in a
    ensures Undashed(a + "-" + b) == a + Undashed(b)
  {
    UndashedKeeps(a);
    UndashedJoins(a, "-" + b);
    assert a + "-" + b == a + ("-" + b);
    assert ("-" + b)[1..] == b;
  }

  lemma HexSlice(id: nat, i: nat, j: nat)
    requires i <= j <= 32
    ensures '-' !in Digits(id, 16, 32)[i..j] && Plain(Digits(id, 16, 32)[i..j])
  {
    var hex := Digits(id, 16, 32);
    assert forall c :: c in hex[i..j] ==> c in hex;
  }

  /** Every character is a digit, a lower-case hex digit, or one of `-:.+T`. */
  predicate Plain(s: string) {
    forall c :: c in s ==> PlainChar(c)
  }

  predicate PlainChar(c: char) {
    '0' <= c <= '9' || 'a' <= c <= 'f' || c == '-' || c == ':' || c == '.' || c == '+' || c == 'T'
  }

  lemma DashesBetween(a: string, b: string, c: string, d: string, e: string)
    requires '-' !in a && '-' !in b && '-' !in c && '-' !in d && '-' !in e
    ensures Undashed(a + "-" + (b + "-" + (c + "-" + (d + "-" + e)))) == a + (b + (c + (d + e)))
  {
    DashBetween(a, b + "-" + (c + "-" + (d + "-" + e)));
    DashBetween(b, c + "-" + (d + "-" + e));
    DashBetween(c, d + "-" + e);
    DashBetween(d, e);
    UndashedKeeps(e);
  }

  lemma Hyphenated(id: nat)
    ensures Undashed(IdText(id)) == Digits(id, 16, 32)
  {
    var hex := Digits(id, 16, 32);
    HexSlice(id, 0, 8);
    HexSlice(id, 8, 12);
    HexSlice(id, 12, 16);
    HexSlice(id, 16, 20);
    HexSlice(id, 20, 32);
    DashesBetween(hex[..8], hex[8..12], hex[12..16], hex[16..20], hex[20..]);
    assert hex == hex[..8] + (hex[8..12] + (hex[12..16] + (hex[16..20] + hex[20..])));
  }

  lemma {:induction false} PowersAdd(a: nat, b: nat)
    ensures Power(16, a + b) == Power(16, a) * Power(16, b)
  {
    if a > 0 {
      PowersAdd(a - 1, b);
    }
  }

  lemma IdsAreHex()
    ensures Power(16, 32) == IDS
  {
    PowersAdd(4, 4);
    PowersAdd(8, 8);
    PowersAdd(16, 16);
    assert Power(16, 4) == 0x1_0000;
    assert Power(16, 8) == 0x1_0000_0000;
    assert Power(16, 16) == 0x1_0000_0000_0000_0000;
  }

  lemma IdReads(id: nat)
    requires id < IDS
    ensures ParseId(IdText(id)) == Some(id)
  {
    IdsAreHex();
    NumberOfDigits(id, 16, 32);
    Hyphenated(id);
  }

  // -------------------------------------------------------------------------------------
  // The separator.

  lemma TwoIsPlain(n: int, next: string, rest: string)
    requires 0 <= n && Plain(next) && Plain(rest)
    ensures Plain(Two(n, next, rest))
  {
  }

  lemma FractionIsPlain(micro: int, rest: string)
    requires 0 <= micro && Plain(rest)
    ensures Plain(Fraction(micro, rest))
  {
    assert PlainChar('.');
  }

  lemma OffsetIsPlain(hour: int, minute: int, second: int, micro: int)
    requires 0 <= hour && 0 <= minute && 0 <= second && 0 <= micro
    ensures Plain(OffsetText(hour, minute, second, micro))
  {
    var tail := OffsetTail(second, micro);
    assert Plain("") && Plain(":");
    FractionIsPlain(micro, "");
    TwoIsPlain(second, "", Fraction(micro, ""));
    TwoIsPlain(minute, "", tail);
    TwoIsPlain(hour, ":", Two(minute, "", tail));
  }

  lemma ZoneIsPlain(z: Zone)
    ensures Plain(ZoneText(z))
  {
    if z.Offset? {
      var a := Magnitude(z.micros);
      assert PlainChar('+') && PlainChar('-');
      OffsetIsPlain(a / 3600000000, a / 60000000 % 60, a / 1000000 % 60, a % 1000000);
    }
  }

  lemma IsoIsPlain(m: Moment)
    requires ValidMoment(m)
    ensures Plain(Iso(m))
  {
    var s := m.stamp;
    var tail := Fraction(s.micro, ZoneText(m.zone));
    var second := Two(s.second, "", tail);
    var minute := Two(s.minute, ":", second);
    var hour := Two(s.hour, ":", minute);
    var day := Two(s.date.day, "T", hour);
    assert Plain("") && Plain(":") && Plain("T") && Plain("-");
    ZoneIsPlain(m.zone);
    FractionIsPlain(s.micro, ZoneText(m.zone));
    TwoIsPlain(s.second, "", tail);
    TwoIsPlain(s.minute, ":", second);
    TwoIsPlain(s.hour, ":", minute);
    TwoIsPlain(s.date.day, "T", hour);
    TwoIsPlain(s.date.month, "-", day);
  }

  lemma IdIsPlain(id: nat)
    ensures Plain(IdText(id))
  {
    HexSlice(id, 0, 8);
    HexSlice(id, 8, 12);
    HexSlice(id, 12, 16);
    HexSlice(id, 16, 20);
    HexSlice(id, 20, 32);
  }

  lemma FieldsArePlain(k: Key)
    requires ValidKey(k)
    ensures Plain(Iso(k.first)) && Plain(Iso(k.second)) && Plain(IdText(k.id))
  {
    IsoIsPlain(k.first);
    IsoIsPlain(k.second);
    IdIsPlain(k.id);
  }

  /** The four fields come apart as they went in: no field can hold the separator. */
  lemma RawSplits(version: string, k: Key)
    requires ValidKey(k) && SEPARATOR !in version
    ensures Pieces.Split(Raw(version, k), SEPARATOR) == [version, Iso(k.first), Iso(k.second), IdText(k.id)]
  {
    FieldsArePlain(k);
    var second := Iso(k.second) + [SEPARATOR] + IdText(k.id);
    Pieces.SplitOff(version, Iso(k.first) + [SEPARATOR] + second, SEPARATOR);
    Pieces.SplitOff(Iso(k.first), second, SEPARATOR);
    Pieces.SplitOff(Iso(k.second), IdText(k.id), SEPARATOR);
    Pieces.SplitNone(IdText(k.id), SEPARATOR);
  }

  // -------------------------------------------------------------------------------------
  // The bytes.

  lemma {:induction false} TextOfAscii(s: string)
    requires Ascii(s)
    ensures Text(Normalise.Encode(s)) == Some(s)
  {
    if s != "" {
      assert s[0] in s && forall c :: c in s[1..] ==> c in s;
      TextOfAscii(s[1..]);
      assert Normalise.Utf8(s[0]) == [s[0] as int];
      assert Normalise.Encode(s)[1..] == Normalise.Encode(s[1..]);
      assert [s[0]] + s[1..] == s;
    }
  }

  lemma SymbolReads(v: nat)
    requires v < 64
    ensures Symbol(v) != '=' && Symbol(v) < 128 as char && Sextet(Symbol(v)) == Some(v)
  {
  }

  lemma One(s: string, at: nat, quad: nat, left: nat, pads: nat, v: nat)
    requires v < 64 && quad < 4 && at < |s| && s[at] == Symbol(v)
    ensures quad == 0 ==> A2b(s, at, 0, left, pads) == A2b(s, at + 1, 1, v, 0)
    ensures quad > 0 ==>
      var r := A2b(s, at + 1, if quad == 3 then 0 else quad + 1, Kept(quad, v), 0);
      A2b(s, at, quad, left, pads) == if r.Some? then Some([Written(quad, left, v)] + r.value) else None
  {
    SymbolReads(v);
  }

  lemma FirstBits(x: nat, y: nat)
    requires x < 256 && y < 256
    ensures Written(1, x / 4, x % 4 * 16 + y / 16) == x
  {
    assert (x % 4 * 16 + y / 16) / 16 == x % 4;
  }

  lemma SecondBits(x: nat, y: nat, z: nat)
    requires x < 256 && y < 256 && z < 256
    ensures Written(2, (x % 4 * 16 + y / 16) % 16, y % 16 * 4 + z / 64) == y
  {
    assert (x % 4 * 16 + y / 16) % 16 == y / 16;
    assert (y % 16 * 4 + z / 64) / 4 == y % 16;
  }

  lemma ThirdBits(y: nat, z: nat)
    requires y < 256 && z < 256
    ensures Written(3, (y % 16 * 4 + z / 64) % 4, z % 64) == z
  {
    assert (y % 16 * 4 + z / 64) % 4 == z / 64;
  }

  /** Four symbols are read as the three bytes they were cut from. */
  lemma GroupReads(s: string, at: nat, x: nat, y: nat, z: nat)
    requires x < 256 && y < 256 && z < 256 && at + 4 <= |s|
    requires s[at] == Symbol(x / 4) && s[at + 1] == Symbol(x % 4 * 16 + y / 16)
    requires s[at + 2] == Symbol(y % 16 * 4 + z / 64) && s[at + 3] == Symbol(z % 64)
    ensures var r := A2b(s, at + 4, 0, 0, 0);
      A2b(s, at, 0, 0, 0) == if r.Some? then Some([x] + ([y] + ([z] + r.value))) else None
  {
    var b, c := x % 4 * 16 + y / 16, y % 16 * 4 + z / 64;
    One(s, at, 0, 0, 0, x / 4);
    One(s, at + 1, 1, x / 4, 0, b);
    FirstBits(x, y);
    One(s, at + 2, 2, b % 16, 0, c);
    SecondBits(x, y, z);
    One(s, at + 3, 3, c % 4, 0, z % 64);
    ThirdBits(y, z);
  }

  lemma OneByteReads(s: string, at: nat, x: nat)
    requires x < 256 && |s| == at + 4 && s[at + 2] == '=' && s[at + 3] == '='
    requires s[at] == Symbol(x / 4) && s[at + 1] == Symbol(x % 4 * 16)
    ensures A2b(s, at, 0, 0, 0) == Some([x])
  {
    One(s, at, 0, 0, 0, x / 4);
    One(s, at + 1, 1, x / 4, 0, x % 4 * 16);
    FirstBits(x, 0);
    assert A2b(s, at + 2, 2, Kept(1, x % 4 * 16), 0) == Some([]);
    assert [x] + [] == [x];
  }

  lemma TwoBytesRead(s: string, at: nat, x: nat, y: nat)
    requires x < 256 && y < 256 && |s| == at + 4 && s[at + 3] == '='
    requires s[at] == Symbol(x / 4) && s[at + 1] == Symbol(x % 4 * 16 + y / 16) && s[at + 2] == Symbol(y % 16 * 4)
    ensures A2b(s, at, 0, 0, 0) == Some([x] + [y])
  {
    var b := x % 4 * 16 + y / 16;
    One(s, at, 0, 0, 0, x / 4);
    One(s, at + 1, 1, x / 4, 0, b);
    FirstBits(x, y);
    One(s, at + 2, 2, b % 16, 0, y % 16 * 4);
    SecondBits(x, y, 0);
    assert A2b(s, at + 3, 3, Kept(2, y % 16 * 4), 0) == Some([]);
    assert [x] + ([y] + []) == [x] + [y];
  }

  lemma {:induction false} Base64Reads(s: string, at: nat, b: seq<byte>)
    requires at <= |s| && s[at..] == Base64(b)
    ensures A2b(s, at, 0, 0, 0) == Some(b)
    decreases |b|
  {
    if |b| >= 3 {
      GroupAt(s, at, b);
      Base64Reads(s, at + 4, b[3..]);
      GroupReads(s, at, b[0], b[1], b[2]);
      assert b == [b[0]] + ([b[1]] + ([b[2]] + b[3..]));
    } else {
      LastReads(s, at, b);
    }
  }

  lemma LastReads(s: string, at: nat, b: seq<byte>)
    requires at <= |s| && s[at..] == Base64(b) && |b| < 3
    ensures A2b(s, at, 0, 0, 0) == Some(b)
  {
    var r := Base64(b);
    assert |s| == at + |r| && forall i :: 0 <= i < |r| ==> s[at + i] == r[i];
    if |b| == 2 {
      TwoBytesRead(s, at, b[0], b[1]);
      assert b == [b[0]] + [b[1]];
    } else if |b| == 1 {
      OneByteReads(s, at, b[0]);
      assert b == [b[0]];
    }
  }

  /** The symbols of the first three bytes, where they are. */
  lemma GroupAt(s: string, at: nat, b: seq<byte>)
    requires at <= |s| && s[at..] == Base64(b) && |b| >= 3
    ensures var x, y, z: int := b[0], b[1], b[2];
      && |s| >= at + 4 && s[at] == Symbol(x / 4) && s[at + 1] == Symbol(x % 4 * 16 + y / 16)
      && s[at + 2] == Symbol(y % 16 * 4 + z / 64) && s[at + 3] == Symbol(z % 64)
      && s[at + 4..] == Base64(b[3..])
  {
    var r := Base64(b);
    assert |s| == at + |r| && forall i :: 0 <= i < |r| ==> s[at + i] == r[i];
    SamePads(|b|);
    assert r[4..] == Base64(b[3..]);
    assert s[at + 4..] == s[at..][4..];
  }

  predicate Bare(s: string) {
    forall i :: 0 <= i < |s| ==> s[i] != '=' && s[i] < 128 as char
  }

  lemma {:induction false} SymbolsAreBare(b: seq<byte>)
    ensures Bare(Symbols(b))
    ensures b != [] ==> Symbols(b) != ""
  {
    if |b| >= 3 {
      SymbolsAreBare(b[3..]);
    }
  }

  lemma {:induction false} WholeGroups(b: seq<byte>)
    ensures (|Symbols(b)| + PadsFor(|b|)) % 4 == 0
  {
    if |b| >= 3 {
      WholeGroups(b[3..]);
      SamePads(|b|);
      FourMore(|Symbols(b[3..])| + PadsFor(|b|));
      assert |Symbols(b)| == |Symbols(b[3..])| + 4;
    }
  }

  lemma FourMore(n: nat)
    ensures (n + 4) % 4 == n % 4
  {
  }

  lemma SamePads(length: nat)
    requires length >= 3
    ensures PadsFor(length - 3) == PadsFor(length)
  {
    assert (length - 3) % 3 == length % 3;
  }

  lemma {:induction false} PadsStrip(s: string, n: nat)
    requires Bare(s)
    ensures RStrip(s + Pads(n)) == s
  {
    var padded := s + Pads(n);
    if n > 0 {
      assert padded[|padded| - 1] == '=';
      assert padded[..|padded| - 1] == s + Pads(n - 1);
      PadsStrip(s, n - 1);
    } else {
      assert padded == s;
    }
  }

  lemma PadCount(length: int, n: int)
    requires 0 <= n < 4 && (length + n) % 4 == 0
    ensures -length % 4 == n
  {
    assert -length == n - (length + n);
  }

  /** The padding `encode` strips is what `-len % 4` puts back, for bytes of every length. */
  lemma PaddingRestored(b: seq<byte>)
    ensures RStrip(Base64(b)) + Pads(-|RStrip(Base64(b))| % 4) == Base64(b)
    ensures Bare(RStrip(Base64(b)))
    ensures b != [] ==> RStrip(Base64(b)) != ""
  {
    SymbolsAreBare(b);
    WholeGroups(b);
    PadsStrip(Symbols(b), PadsFor(|b|));
    PadCount(|Symbols(b)|, PadsFor(|b|));
  }

  // -------------------------------------------------------------------------------------
  // Out and back.

  lemma Unpacks(version: string, k: Key)
    requires ValidKey(k) && Ascii(version)
    ensures Unpacked(Encoded(version, k)) == Some(Raw(version, k))
    ensures Encoded(version, k) != ""
  {
    var raw := Raw(version, k);
    RawIsAscii(version, k);
    TextOfAscii(raw);
    BytesUnpack(Normalise.Encode(raw));
  }

  lemma RawIsAscii(version: string, k: Key)
    requires ValidKey(k) && Ascii(version)
    ensures Ascii(Raw(version, k)) && Raw(version, k) != ""
  {
    FieldsArePlain(k);
  }

  lemma BytesUnpack(bytes: seq<byte>)
    requires bytes != []
    ensures var s := RStrip(Base64(bytes));
      s != "" && Ascii(s) && A2b(s + Pads(-|s| % 4), 0, 0, 0, 0) == Some(bytes)
  {
    PaddingRestored(bytes);
    Base64Reads(Base64(bytes), 0, bytes);
  }

  /** A cursor reads back as the triple it was cut on. */
  lemma {:induction false} DecodeEncode(k: Key)
    requires ValidKey(k)
    ensures Decode(Encode(k)) == Success(k)
    ensures Encode(k) != ""
  {
    Unpacks(VERSION, k);
    RawSplits(VERSION, k);
    FieldsRead(k);
  }

  lemma FieldsRead(k: Key)
    requires ValidKey(k)
    ensures Fields([VERSION, Iso(k.first), Iso(k.second), IdText(k.id)]) == Some(k)
  {
    IsoReads(k.first);
    IsoReads(k.second);
    IdReads(k.id);
  }

  /** A cursor is read exactly when it was cut under this version: whatever the fields are, a
      deploy that moves the version retires every cursor before it. */
  lemma OnlyThisVersion(version: string, k: Key)
    requires ValidKey(k) && Ascii(version) && SEPARATOR !in version
    ensures Decode(Encoded(version, k)).Success? <==> version == VERSION
    ensures version != VERSION ==> Decode(Encoded(version, k)) == Failure(BadCursor(Encoded(version, k)))
  {
    Unpacks(version, k);
    RawSplits(version, k);
    if version == VERSION {
      DecodeEncode(k);
    }
  }
}
