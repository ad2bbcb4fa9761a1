/** Python's `str.split` on one character. */
module Pieces {

  function Split(s: string, sep: char): (r: seq<string>)
    ensures r != []
  {
    if s == "" then [""]
    else
      var rest := Split(s[1..], sep);
      if s[0] == sep then [""] + rest else [[s[0]] + rest[0]] + rest[1..]
  }

  lemma {:induction false} SplitOff(field: string, rest: string, sep: char)
    requires sep !in field
    ensures Split(field + [sep] + rest, sep) == [field] + Split(rest, sep)
  {
    var s := field + [sep] + rest;
    if field == "" {
      assert s[0] == sep && s[1..] == rest;
    } else {
      assert field[0] in field && forall c :: c in field[1..] ==> c in field;
      SplitOff(field[1..], rest, sep);
      assert s[0] == field[0] && s[1..] == field[1..] + [sep] + rest;
      assert [field[0]] + field[1..] == field;
      assert ([field[1..]] + Split(rest, sep))[1..] == Split(rest, sep);
    }
  }

  lemma {:induction false} SplitNone(field: string, sep: char)
    requires sep !in field
    ensures Split(field, sep) == [field]
  {
    if field != "" {
      assert field[0] in field && forall c :: c in field[1..] ==> c in field;
      SplitNone(field[1..], sep);
      assert [field[0]] + field[1..] == field;
    }
  }
}
