/** `politeness/backoff.py`: one wait in its two spellings, `interval` in whole seconds and
    `due_at` with their fraction. Seconds are reals; `int(...)` truncates toward zero and is spelt out. */
module Backoff {
  import Numerals

  datatype Policy = Policy(minimumSeconds: int, maximumSeconds: int, factor: real, maxFailures: int)

  /** The policies every default configuration amounts to: bounds that bound, waits that grow. */
  ghost predicate Ordered(p: Policy) {
    0 < p.minimumSeconds <= p.maximumSeconds && p.factor >= 1.0
  }

  function Trunc(x: real): int {
    if x >= 0.0 then x.Floor else -(-x).Floor
  }

  function MinOf(a: real, b: real): real { if b < a then b else a }

  function MaxOf(a: real, b: real): real { if a < b then b else a }

  /** `base * factor ** failures`, one multiplication a failure. */
  function Grown(base: real, factor: real, failures: nat): real {
    if failures == 0 then base else factor * Grown(base, factor, failures - 1)
  }

  /** The nearest wait to `seconds` the policy allows, before anything is cut off it. */
  function Held(seconds: real, p: Policy): real {
    MinOf(MaxOf(seconds, p.minimumSeconds as real), p.maximumSeconds as real)
  }

  function Clamp(seconds: real, p: Policy): (r: int)
    ensures r <= p.maximumSeconds
    ensures 0 <= p.minimumSeconds <= p.maximumSeconds ==> p.minimumSeconds <= r <= p.maximumSeconds
    ensures p.minimumSeconds as real <= seconds <= p.maximumSeconds as real ==> r == Trunc(seconds)
  {
    Trunc(Held(seconds, p))
  }

  function Interval(p: Policy, failures: nat, base: real): int {
    Clamp(Grown(base, p.factor, failures), p)
  }

  /** The seconds `due_at` adds to the last attempt. SQL keeps the fraction Python drops. */
  function Seconds(p: Policy, failures: nat): real {
    Held(Grown(p.minimumSeconds as real, p.factor, failures), p)
  }

  function DueAt(lastAttempt: real, p: Policy, failures: nat): real {
    lastAttempt + Seconds(p, failures)
  }

  lemma {:induction false} GrownGrows(base: real, factor: real, fewer: nat, more: nat)
    requires base >= 0.0 && factor >= 1.0 && fewer <= more
    ensures 0.0 <= Grown(base, factor, fewer) <= Grown(base, factor, more)
  {
    if fewer < more {
      GrownGrows(base, factor, fewer, more - 1);
      AtLeastOnce(factor, Grown(base, factor, more - 1));
    } else if more > 0 {
      GrownGrows(base, factor, fewer - 1, more - 1);
      AtLeastOnce(factor, Grown(base, factor, more - 1));
    }
  }

  lemma AtLeastOnce(factor: real, x: real)
    requires factor >= 1.0 && x >= 0.0
    ensures factor * x >= x
  {
    assert (factor - 1.0) * x >= 0.0;
  }

  lemma HeldGrows(a: real, b: real, p: Policy)
    requires a <= b && 0 < p.minimumSeconds <= p.maximumSeconds
    ensures p.minimumSeconds as real <= Held(a, p) <= Held(b, p) <= p.maximumSeconds as real
    ensures p.minimumSeconds <= Clamp(a, p) <= Clamp(b, p) <= p.maximumSeconds
    ensures Clamp(a, p) as real <= Held(a, p) < (Clamp(a, p) + 1) as real
    ensures a >= p.maximumSeconds as real ==> Held(a, p) == p.maximumSeconds as real && Clamp(a, p) == p.maximumSeconds
  {
  }

  /** A longer run never waits less, in Python or in SQL, and both stay inside the bounds. */
  lemma WaitGrows(p: Policy, fewer: nat, more: nat, base: real)
    requires Ordered(p) && base >= 0.0 && fewer <= more
    ensures p.minimumSeconds <= Interval(p, fewer, base) <= Interval(p, more, base) <= p.maximumSeconds
    ensures p.minimumSeconds as real <= Seconds(p, fewer) <= Seconds(p, more) <= p.maximumSeconds as real
  {
    var minimum := p.minimumSeconds as real;
    GrownGrows(base, p.factor, fewer, more);
    GrownGrows(minimum, p.factor, fewer, more);
    HeldGrows(Grown(base, p.factor, fewer), Grown(base, p.factor, more), p);
    HeldGrows(Grown(minimum, p.factor, fewer), Grown(minimum, p.factor, more), p);
  }

  /** The two spellings of one wait agree to the second: Python's is SQL's, cut. */
  lemma PythonIsSqlCut(p: Policy, failures: nat)
    requires Ordered(p)
    ensures var cut := Interval(p, failures, p.minimumSeconds as real);
      cut as real <= Seconds(p, failures) < (cut + 1) as real
  {
    var wait := Grown(p.minimumSeconds as real, p.factor, failures);
    HeldGrows(wait, wait, p);
  }

  /** From this many failures on, either spelling waits the longest there is. */
  ghost predicate AtTheCeiling(p: Policy, failures: nat) {
    forall n: nat :: n >= failures ==>
      Seconds(p, n) == p.maximumSeconds as real && Interval(p, n, p.minimumSeconds as real) == p.maximumSeconds
  }

  /** Enough failures bring every wait to the ceiling, and keep it there, exactly when waits grow at
      all or there is no room for them to. */
  lemma CeilingReached(p: Policy)
    requires 0 < p.minimumSeconds <= p.maximumSeconds
    ensures (exists failures: nat :: AtTheCeiling(p, failures)) <==> p.factor > 1.0 || p.minimumSeconds == p.maximumSeconds
  {
    var base := p.minimumSeconds as real;
    if p.factor > 1.0 {
      var enough := GrowthReaches(base, p.factor, p.maximumSeconds as real);
      forall n: nat | n >= enough
        ensures Seconds(p, n) == p.maximumSeconds as real && Interval(p, n, base) == p.maximumSeconds
      {
        GrownGrows(base, p.factor, enough, n);
        HeldGrows(Grown(base, p.factor, n), Grown(base, p.factor, n), p);
      }
      assert AtTheCeiling(p, enough);
    } else if p.minimumSeconds == p.maximumSeconds {
      assert AtTheCeiling(p, 0);
    } else {
      forall failures: nat ensures !AtTheCeiling(p, failures) {
        GrowthFalters(base, p.factor, failures);
        var later: nat := if Grown(base, p.factor, failures) <= base then failures else failures + 1;
        assert Seconds(p, later) == base;
      }
    }
  }

  lemma GrowthReaches(base: real, factor: real, goal: real) returns (failures: nat)
    requires base > 0.0 && factor > 1.0
    ensures Grown(base, factor, failures) >= goal
  {
    var gain := base * (factor - 1.0);
    Gains(base, factor - 1.0);
    var steps := if goal > 0.0 then goal / gain else 0.0;
    failures := steps.Floor + 1;
    LinearAtLeast(base, factor, failures);
    AtLeast(failures as real, steps, gain);
    Shares(goal, gain);
  }

  lemma Gains(a: real, b: real)
    requires a > 0.0 && b > 0.0
    ensures a * b > 0.0
  {
  }

  lemma Shares(goal: real, gain: real)
    requires gain > 0.0
    ensures goal / gain * gain == goal
  {
  }

  lemma AtLeast(a: real, b: real, gain: real)
    requires a >= b && gain > 0.0
    ensures a * gain >= b * gain
  {
    assert (a - b) * gain >= 0.0;
  }

  /** Compound growth outruns simple growth. */
  lemma {:induction false} LinearAtLeast(base: real, factor: real, failures: nat)
    requires base > 0.0 && factor > 1.0
    ensures Grown(base, factor, failures) >= base + failures as real * (base * (factor - 1.0))
  {
    if failures > 0 {
      var before := Grown(base, factor, failures - 1);
      LinearAtLeast(base, factor, failures - 1);
      GrownGrows(base, factor, 0, failures - 1);
      AtLeast(before, base, factor - 1.0);
      OneMore(failures, base * (factor - 1.0));
    }
  }

  lemma OneMore(n: int, gain: real)
    ensures n as real * gain == (n - 1) as real * gain + gain
  {
  }

  /** Without growth, a wait or the one after it is no longer than the first. */
  lemma {:induction false} GrowthFalters(base: real, factor: real, failures: nat)
    requires base > 0.0 && factor <= 1.0
    ensures Grown(base, factor, failures) <= base || Grown(base, factor, failures + 1) <= base
    ensures factor >= 0.0 ==> Grown(base, factor, failures) <= base
  {
    var now := Grown(base, factor, failures);
    if factor < 0.0 {
      if now > base { assert factor * now <= 0.0; }
    } else if failures > 0 {
      var before := Grown(base, factor, failures - 1);
      GrowthFalters(base, factor, failures - 1);
      NotPast(factor, before, base);
    }
  }

  lemma NotPast(factor: real, x: real, base: real)
    requires 0.0 <= factor <= 1.0 && x <= base && base > 0.0
    ensures factor * x <= base
  {
    if x >= 0.0 {
      assert (1.0 - factor) * x >= 0.0;
    } else {
      assert factor * (-x) >= 0.0;
    }
  }

  // -------------------------------------------------------------------------------------
  // Whole factors.

  lemma {:induction false} WholeGrowth(base: int, factor: nat, failures: nat)
    ensures Grown(base as real, factor as real, failures) == (base * Numerals.Power(factor, failures)) as real
  {
    if failures > 0 {
      var before := base * Numerals.Power(factor, failures - 1);
      WholeGrowth(base, factor, failures - 1);
      WholeProduct(factor, before);
      Reordered(base, factor, Numerals.Power(factor, failures - 1));
    }
  }

  lemma WholeProduct(a: int, b: int)
    ensures a as real * b as real == (a * b) as real
  {
  }

  lemma Reordered(a: int, b: int, c: int)
    ensures b * (a * c) == a * (b * c)
  {
  }

  function Whole(wait: int, p: Policy): int {
    if wait > p.maximumSeconds then p.maximumSeconds else if wait < p.minimumSeconds then p.minimumSeconds else wait
  }

  /** With a whole factor both spellings are one count of seconds: the base times the factor once
      for each failure, held inside the bounds. */
  lemma WholeWaits(p: Policy, factor: nat, base: int, failures: nat)
    requires p.factor == factor as real && p.minimumSeconds <= p.maximumSeconds
    ensures Interval(p, failures, base as real) == Whole(base * Numerals.Power(factor, failures), p)
    ensures Seconds(p, failures) == Whole(p.minimumSeconds * Numerals.Power(factor, failures), p) as real
  {
    WholeGrowth(base, factor, failures);
    WholeGrowth(p.minimumSeconds, factor, failures);
  }
}
