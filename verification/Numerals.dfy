/** Numbers as digits: fixed-width fields, plain decimals, and what reads them back. */
module Numerals {
  import opened Wrappers

  function Digit(d: nat): char
    requires d < 16
  {
    if d < 10 then '0' + d as char else 'a' + (d - 10) as char
  }

  function DigitValue(c: char): (r: Option<nat>)
    ensures r.Some? ==> r.value < 16
  {
    if '0' <= c <= '9' then Some((c - '0') as nat)
    else if 'a' <= c <= 'f' then Some((c - 'a') as nat + 10)
    else if 'A' <= c <= 'F' then Some((c - 'A') as nat + 10)
    else None
  }

  function Power(base: nat, width: nat): nat {
    if width == 0 then 1 else base * Power(base, width - 1)
  }

  /** The last `width` digits of `n`. */
  function Digits(n: nat, base: nat, width: nat): (r: string)
    requires 2 <= base <= 16
    ensures |r| == width
    ensures forall c :: c in r ==> '0' <= c <= '9' || 'a' <= c <= 'f'
    ensures base == 10 ==> forall c :: c in r ==> '0' <= c <= '9'
  {
    if width == 0 then "" else Digits(n / base, base, width - 1) + [Digit(n % base)]
  }

  /** The digits of `n`, as many as it has. */
  function Decimal(n: nat): (r: string)
    ensures r != "" && (forall c :: c in r ==> '0' <= c <= '9')
  {
    if n < 10 then [Digit(n)] else Decimal(n / 10) + [Digit(n % 10)]
  }

  /** The number a run of digits spells, None when something in it is not one. */
  function Number(s: string, base: nat): Option<nat> {
    if s == "" then Some(0)
    else
      var high, d := Number(s[..|s| - 1], base), DigitValue(s[|s| - 1]);
      if high.Some? && d.Some? && d.value < base then Some(high.value * base + d.value) else None
  }

  lemma {:induction false} NumberFits(s: string, base: nat)
    ensures Number(s, base).Some? ==> Number(s, base).value < Power(base, |s|)
  {
    if s != "" && Number(s, base).Some? {
      var high, d := Number(s[..|s| - 1], base).value, DigitValue(s[|s| - 1]).value;
      NumberFits(s[..|s| - 1], base);
      Fits(high, d, base, Power(base, |s| - 1));
    }
  }

  lemma Fits(high: nat, d: nat, base: nat, room: nat)
    requires high < room && d < base
    ensures high * base + d < base * room
  {
    assert (high + 1) * base <= room * base;
  }

  lemma Shifted(n: nat, base: nat, room: nat)
    requires base == 10 || base == 16
    requires n < base * room
    ensures n / base * base + n % base == n && n / base < room
  {
    if base == 10 {
      assert n / 10 * 10 + n % 10 == n;
    } else {
      assert n / 16 * 16 + n % 16 == n;
    }
  }

  lemma NumberStep(high: string, h: nat, d: nat, base: nat)
    requires Number(high, base) == Some(h) && d < base <= 16
    ensures Number(high + [Digit(d)], base) == Some(h * base + d)
  {
    assert (high + [Digit(d)])[..|high|] == high;
  }

  lemma {:induction false} NumberOfDigits(n: nat, base: nat, width: nat)
    requires base == 10 || base == 16
    requires n < Power(base, width)
    ensures Number(Digits(n, base, width), base) == Some(n)
  {
    if width > 0 {
      Shifted(n, base, Power(base, width - 1));
      var high, d := n / base, n % base;
      NumberOfDigits(high, base, width - 1);
      NumberStep(Digits(high, base, width - 1), high, d, base);
    }
  }

  lemma {:induction false} NumberOfDecimal(n: nat)
    ensures Number(Decimal(n), 10) == Some(n)
  {
    if n < 10 {
      NumberStep("", 0, n, 10);
      assert "" + [Digit(n)] == [Digit(n)];
    } else {
      NumberOfDecimal(n / 10);
      NumberStep(Decimal(n / 10), n / 10, n % 10, 10);
    }
  }
}
