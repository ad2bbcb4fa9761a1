/** How long a feed that keeps failing is left alone: `ingest/schedule.py` and `politeness/backoff.py`
    over whole runs of failed polls. */
module Failing {
  import opened Wrappers
  import opened RunLog
  import opened Backoff
  import opened Schedule
  import Numerals

  /** Every poll of the run failed, and none was told how long to wait. */
  ghost predicate AllFail(visits: seq<Visit>, s: IngestSettings) {
    forall i :: 0 <= i < |visits| ==> FailsUnnamed(visits[i].event, s)
  }

  /** The failures a feed has run up, off its log: those with nothing else at or after them. */
  ghost function Run(f: FeedState): set<nat> {
    set i: nat | i < |f.polls| && StillFailing(f, i)
  }

  ghost predicate StillFailing(f: FeedState, i: nat)
    requires i < |f.polls|
  {
    && f.polls[i].feed == f.id && f.polls[i].outcome == FAILED
    && forall j :: 0 <= j < |f.polls| && f.polls[j].feed == f.id && f.polls[j].outcome != FAILED ==> f.polls[j].at < f.polls[i].at
  }

  lemma {:induction false} RunIsConsecutive(f: FeedState)
    ensures |Run(f)| == ConsecutiveFailures(f.polls, f.id)
  {
    var q := PollReading(f.id);
    forall i: nat | i < |f.polls| ensures StillFailing(f, i) <==> Stands(f.polls, q, i) {
      if Stands(f.polls, q, i) {
        forall j | 0 <= j < |f.polls| && f.polls[j].feed == f.id && f.polls[j].outcome != FAILED
          ensures f.polls[j].at < f.polls[i].at
        {
          assert q.scope(f.polls[j]) && q.resets(f.polls[j]);
        }
      }
    }
    assert Run(f) == Standing(f.polls, q);
    RunIsStanding(f.polls, q);
  }

  lemma {:induction false} FailuresAddUp(f: FeedState, s: IngestSettings, visits: seq<Visit>)
    requires AllFail(visits, s) && Chronological(Visited(f, s, visits).polls, PollReading(f.id))
    ensures var g := Visited(f, s, visits);
      && g.id == f.id && g.ttlSeconds == f.ttlSeconds
      && ConsecutiveFailures(g.polls, f.id) == ConsecutiveFailures(f.polls, f.id) + |visits|
  {
    if visits != [] {
      var n := |visits| - 1;
      var v, before := visits[n], Visited(f, s, visits[..n]);
      SameFeed(f, s, visits[..n]);
      AfterUnnamed(before, v.event, s, v.now, v.at);
      EarlierChronological(before.polls, Visited(f, s, visits).polls, f.id);
      FailuresAddUp(f, s, visits[..n]);
      RunAfterPoll(before, v.event, s, v.now, v.at);
    }
  }

  lemma {:induction false} SameFeed(f: FeedState, s: IngestSettings, visits: seq<Visit>)
    requires AllFail(visits, s)
    ensures Visited(f, s, visits).id == f.id && Visited(f, s, visits).ttlSeconds == f.ttlSeconds
  {
    if visits != [] {
      var v := visits[|visits| - 1];
      SameFeed(f, s, visits[..|visits| - 1]);
      AfterUnnamed(Visited(f, s, visits[..|visits| - 1]), v.event, s, v.now, v.at);
    }
  }

  /** What a run of failures leaves a feed waiting, in whole seconds. */
  function Wait(s: IngestSettings, failures: nat): int {
    Interval(WaitingOut(s), failures, s.defaultIntervalSeconds as real)
  }

  /** A feed is left alone this many seconds. */
  ghost predicate LeftFor(f: FeedState, wait: int) {
    f.lastPolledAt.Some? && f.nextPollAt == f.lastPolledAt.value + wait as real
  }

  lemma {:induction false} OneFailureWaits(f: FeedState, s: IngestSettings, v: Visit, failures: nat)
    requires FailsUnnamed(v.event, s) && Undemanding(f.ttlSeconds)
    requires ConsecutiveFailures(After(f, v.event, s, v.now, v.at).polls, f.id) == failures > 0
    ensures LeftFor(After(f, v.event, s, v.now, v.at), Wait(s, failures))
  {
    AfterUnnamed(f, v.event, s, v.now, v.at);
    AfterWaits(f, v.event, s, v.now, v.at);
  }

  /** After any run of failures that named no wait the feed waits what its whole run amounts to:
      the failures before it, off the log, and these. */
  lemma {:induction false} FailuresWait(f: FeedState, s: IngestSettings, visits: seq<Visit>, failures: nat, wait: int)
    requires visits != [] && AllFail(visits, s) && Undemanding(f.ttlSeconds)
    requires Chronological(Visited(f, s, visits).polls, PollReading(f.id))
    requires failures == |Run(f)| + |visits| && wait == Wait(s, failures)
    ensures LeftFor(Visited(f, s, visits), wait)
  {
    var n := |visits| - 1;
    RunIsConsecutive(f);
    FailuresAddUp(f, s, visits);
    SameFeed(f, s, visits[..n]);
    OneFailureWaits(Visited(f, s, visits[..n]), s, visits[n], failures);
  }

  /** As shipped, a feed's n-th failure in a row leaves it waiting nine hundred seconds doubled n
      times, or a day. */
  lemma {:induction false} DefaultFailures(f: FeedState, visits: seq<Visit>, n: nat)
    requires visits != [] && AllFail(visits, DEFAULTS) && Undemanding(f.ttlSeconds)
    requires Chronological(Visited(f, DEFAULTS, visits).polls, PollReading(f.id))
    requires n == |Run(f)| + |visits|
    ensures LeftFor(Visited(f, DEFAULTS, visits), Lesser(900 * Numerals.Power(2, n), 86400))
  {
    DefaultWait(n);
    FailuresWait(f, DEFAULTS, visits, n, Lesser(900 * Numerals.Power(2, n), 86400));
  }

  lemma {:induction false} DefaultWait(failures: nat)
    ensures Wait(DEFAULTS, failures) == Lesser(900 * Numerals.Power(2, failures), 86400)
  {
    WholeWaits(WaitingOut(DEFAULTS), 2, 900, failures);
    Positive(failures);
  }

  lemma {:induction false} Positive(n: nat)
    ensures Numerals.Power(2, n) >= 1
  {
    if n > 0 { Positive(n - 1); }
  }

  // -------------------------------------------------------------------------------------
  // Longer each time.

  /** A failed wait below the ceiling is followed by a longer one exactly when one more factor
      takes what it was cut from past the next whole second. */
  lemma {:induction false} NextIsLonger(s: IngestSettings, failures: nat)
    requires 0 < s.minIntervalSeconds <= s.maxBackoffSeconds && Wait(s, failures) < s.maxBackoffSeconds
    ensures Wait(s, failures + 1) > Wait(s, failures)
       <==> Grown(s.defaultIntervalSeconds as real, s.backoffFactor, failures + 1) >= (Wait(s, failures) + 1) as real
  {
    var x := Grown(s.defaultIntervalSeconds as real, s.backoffFactor, failures + 1);
    HeldIs(x, WaitingOut(s));
    HeldIs(Grown(s.defaultIntervalSeconds as real, s.backoffFactor, failures), WaitingOut(s));
  }

  lemma {:induction false} HeldIs(x: real, p: Policy)
    requires 0 < p.minimumSeconds <= p.maximumSeconds
    ensures Clamp(x, p) == if x >= p.maximumSeconds as real then p.maximumSeconds
      else if x < p.minimumSeconds as real then p.minimumSeconds else x.Floor
  {
  }

  /** Where the factor is two or more and the default interval inside its bounds, each failure at
      least doubles the wait of the one before it, until they wait the ceiling. */
  lemma {:induction false} FailuresDouble(f: FeedState, s: IngestSettings, visits: seq<Visit>, n: nat, once: int, twice: int)
    requires 0 < s.minIntervalSeconds <= s.defaultIntervalSeconds && s.backoffFactor >= 2.0
    requires s.minIntervalSeconds <= s.maxBackoffSeconds
    requires AllFail(visits, s) && Undemanding(f.ttlSeconds) && 0 < n < |visits|
    requires Chronological(Visited(f, s, visits).polls, PollReading(f.id))
    requires LeftFor(Visited(f, s, visits[..n]), once) && LeftFor(Visited(f, s, visits[..n + 1]), twice)
    ensures twice >= 2 * once || twice == s.maxBackoffSeconds
  {
    var failures := |Run(f)| + n;
    OneWait(f, s, visits, n, once, failures);
    OneWait(f, s, visits, n + 1, twice, failures + 1);
    Doubled(s, failures, once, twice);
  }

  lemma {:induction false} OneWait(f: FeedState, s: IngestSettings, visits: seq<Visit>, n: nat, wait: int, failures: nat)
    requires 0 < n <= |visits| && AllFail(visits, s) && Undemanding(f.ttlSeconds)
    requires Chronological(Visited(f, s, visits).polls, PollReading(f.id))
    requires LeftFor(Visited(f, s, visits[..n]), wait) && failures == |Run(f)| + n
    ensures wait == Wait(s, failures)
  {
    PrefixChronological(f, s, visits, n);
    FailuresWait(f, s, visits[..n], failures, Wait(s, failures));
    OnlyWait(Visited(f, s, visits[..n]), wait, Wait(s, failures));
  }

  lemma {:induction false} OnlyWait(f: FeedState, wait: int, other: int)
    requires LeftFor(f, wait) && LeftFor(f, other)
    ensures wait == other
  {
  }

  lemma {:induction false} Doubled(s: IngestSettings, failures: nat, once: int, twice: int)
    requires once == Wait(s, failures) && twice == Wait(s, failures + 1)
    requires 0 < s.minIntervalSeconds <= s.defaultIntervalSeconds && s.backoffFactor >= 2.0
    requires s.minIntervalSeconds <= s.maxBackoffSeconds
    ensures twice >= 2 * once || twice == s.maxBackoffSeconds
  {
    var base := s.defaultIntervalSeconds as real;
    GrownDoubles(base, s.backoffFactor, failures);
    ClampDoubles(Grown(base, s.backoffFactor, failures), Grown(base, s.backoffFactor, failures + 1), WaitingOut(s));
  }

  lemma {:induction false} GrownDoubles(base: real, factor: real, failures: nat)
    requires base >= 0.0 && factor >= 2.0
    ensures Grown(base, factor, failures) >= base
    ensures Grown(base, factor, failures + 1) >= Grown(base, factor, failures) + Grown(base, factor, failures)
  {
    GrownGrows(base, factor, 0, failures);
    TwiceOver(factor, Grown(base, factor, failures));
  }

  lemma {:induction false} TwiceOver(factor: real, x: real)
    requires factor >= 2.0 && x >= 0.0
    ensures factor * x >= x + x
  {
    assert (factor - 2.0) * x >= 0.0;
  }

  lemma {:induction false} ClampDoubles(x: real, y: real, p: Policy)
    requires 0 < p.minimumSeconds <= p.maximumSeconds && x >= p.minimumSeconds as real && y >= x + x
    ensures Clamp(y, p) >= 2 * Clamp(x, p) || Clamp(y, p) == p.maximumSeconds
  {
    HeldIs(x, p);
    HeldIs(y, p);
    assert y.Floor >= 2 * x.Floor;
  }

  lemma {:induction false} PrefixChronological(f: FeedState, s: IngestSettings, visits: seq<Visit>, n: nat)
    requires n <= |visits| && AllFail(visits, s) && Chronological(Visited(f, s, visits).polls, PollReading(f.id))
    ensures Chronological(Visited(f, s, visits[..n]).polls, PollReading(f.id))
  {
    var last := |visits| - 1;
    if n <= last {
      var v, before := visits[last], Visited(f, s, visits[..last]);
      AfterUnnamed(before, v.event, s, v.now, v.at);
      EarlierChronological(before.polls, Visited(f, s, visits).polls, f.id);
      PrefixChronological(f, s, visits[..last], n);
      assert visits[..last][..n] == visits[..n];
    } else {
      assert visits[..n] == visits;
    }
  }

  // -------------------------------------------------------------------------------------
  // To the ceiling.

  /** It multiplies away from nothing. */
  predicate Grows(base: int, factor: real) {
    (base > 0 && factor > 1.0) || (base != 0 && factor < -1.0)
  }

  /** A failing feed comes to wait the ceiling exactly when the bounds leave nothing else, the waits
      grow, or one of the first two failures is there already. */
  lemma {:induction false} FailingFeedsReachTheCeiling(s: IngestSettings)
    requires s.maxBackoffSeconds > 0
    ensures var base, factor, most := s.defaultIntervalSeconds as real, s.backoffFactor, s.maxBackoffSeconds as real;
      (exists failures: nat :: failures > 0 && Wait(s, failures) == s.maxBackoffSeconds)
      <==> s.minIntervalSeconds >= s.maxBackoffSeconds || Grows(s.defaultIntervalSeconds, factor)
           || factor * base >= most || factor * (factor * base) >= most
  {
    var base, factor, most := s.defaultIntervalSeconds, s.backoffFactor, s.maxBackoffSeconds as real;
    forall failures: nat ensures Wait(s, failures) == s.maxBackoffSeconds
      <==> s.minIntervalSeconds >= s.maxBackoffSeconds || Passes(base, factor, most, failures)
    {
      HeldAtMost(Grown(base as real, factor, failures), WaitingOut(s));
    }
    if s.minIntervalSeconds >= s.maxBackoffSeconds {
      assert Wait(s, 1) == s.maxBackoffSeconds;
    } else {
      SomePasses(base, factor, most);
      if failures: nat :| failures > 0 && Passes(base, factor, most, failures) {
        assert Wait(s, failures) == s.maxBackoffSeconds;
      }
    }
  }

  predicate Passes(base: int, factor: real, goal: real, failures: nat) {
    Grown(base as real, factor, failures) >= goal
  }

  lemma {:induction false} SomePasses(base: int, factor: real, goal: real)
    requires goal > 0.0
    ensures (exists failures: nat :: failures > 0 && Passes(base, factor, goal, failures))
       <==> Grows(base, factor) || factor * base as real >= goal || factor * (factor * base as real) >= goal
  {
    FirstTwo(base as real, factor);
    if factor * base as real >= goal {
      assert Passes(base, factor, goal, 1);
    } else if factor * (factor * base as real) >= goal {
      assert Passes(base, factor, goal, 2);
    } else if Grows(base, factor) {
      var failures := SomeReach(base, factor, goal);
      assert Passes(base, factor, goal, failures);
    } else {
      forall failures: nat | failures > 0 ensures !Passes(base, factor, goal, failures) {
        NoneReaches(base, factor, goal, failures);
      }
    }
  }

  lemma {:induction false} FirstTwo(base: real, factor: real)
    ensures Grown(base, factor, 1) == factor * base && Grown(base, factor, 2) == factor * (factor * base)
  {
    assert Grown(base, factor, 0) == base;
  }

  lemma {:induction false} HeldAtMost(x: real, p: Policy)
    requires p.maximumSeconds > 0
    ensures Clamp(x, p) == p.maximumSeconds <==> p.minimumSeconds >= p.maximumSeconds || x >= p.maximumSeconds as real
  {
  }

  lemma {:induction false} SomeReach(base: int, factor: real, goal: real) returns (failures: nat)
    requires Grows(base, factor)
    ensures failures > 0 && Grown(base as real, factor, failures) >= goal
  {
    var x := base as real;
    if factor > 1.0 {
      failures := LaterReach(x, factor, goal);
    } else {
      SquareGrows(factor);
      Signs(factor, x);
      if base > 0 {
        failures := TwiceReach(x, factor, goal);
      } else {
        failures := TwiceReach(factor * x, factor, goal);
        Shifted(x, factor, failures);
        failures := failures + 1;
      }
    }
  }

  lemma {:induction false} TwiceReach(base: real, factor: real, goal: real) returns (failures: nat)
    requires base > 0.0 && factor * factor > 1.0
    ensures failures > 0 && Grown(base, factor, failures) >= goal
  {
    var n := LaterReach(base, factor * factor, goal);
    Squared(base, factor, n);
    failures := 2 * n;
  }

  lemma {:induction false} LaterReach(base: real, factor: real, goal: real) returns (failures: nat)
    requires base > 0.0 && factor > 1.0
    ensures failures > 0 && Grown(base, factor, failures) >= goal
  {
    var n := GrowthReaches(base, factor, goal);
    GrownGrows(base, factor, n, n + 1);
    failures := n + 1;
  }

  lemma {:induction false} SquareGrows(factor: real)
    requires factor < -1.0
    ensures factor * factor > 1.0
  {
    assert (-factor - 1.0) * (-factor + 1.0) > 0.0;
  }

  lemma {:induction false} Signs(factor: real, x: real)
    ensures factor < 0.0 && x < 0.0 ==> factor * x > 0.0
    ensures factor < 0.0 && x > 0.0 ==> factor * x < 0.0
    ensures factor >= 0.0 && x >= 0.0 ==> factor * x >= 0.0
  {
  }

  lemma {:induction false} Squared(base: real, factor: real, n: nat)
    ensures Grown(base, factor, 2 * n) == Grown(base, factor * factor, n)
  {
    if n > 0 {
      Squared(base, factor, n - 1);
      TwoMore(base, factor, 2 * n);
    }
  }

  lemma {:induction false} Associates(factor: real, x: real)
    ensures factor * (factor * x) == (factor * factor) * x
  {
  }

  lemma {:induction false} Shifted(base: real, factor: real, n: nat)
    ensures Grown(factor * base, factor, n) == Grown(base, factor, n + 1)
  {
    if n > 0 { Shifted(base, factor, n - 1); }
  }

  /** Waits that do not grow are never longer than one of the first two. */
  lemma {:induction false} NoneReaches(base: int, factor: real, goal: real, failures: nat)
    requires !Grows(base, factor) && goal > 0.0 && failures > 0
    requires factor * base as real < goal && factor * (factor * base as real) < goal
    ensures Grown(base as real, factor, failures) < goal
  {
    FirstTwo(base as real, factor);
    if failures > 2 {
      var before := Grown(base as real, factor, failures - 2);
      NoneReaches(base, factor, goal, failures - 2);
      TwoMore(base as real, factor, failures);
      if -1.0 <= factor <= 1.0 {
        Square(factor);
        Smaller(factor * factor, before, goal);
      } else {
        NeverPositive(base, factor, failures);
      }
    }
  }

  lemma {:induction false} TwoMore(base: real, factor: real, failures: nat)
    requires failures >= 2
    ensures Grown(base, factor, failures) == (factor * factor) * Grown(base, factor, failures - 2)
  {
    var before := Grown(base, factor, failures - 2);
    assert Grown(base, factor, failures - 1) == factor * before;
    Associates(factor, before);
  }

  lemma {:induction false} Square(factor: real)
    requires -1.0 <= factor <= 1.0
    ensures 0.0 <= factor * factor <= 1.0
  {
    Product(1.0 - factor, 1.0 + factor);
    if factor >= 0.0 { Product(factor, factor); } else { Product(-factor, -factor); }
  }

  lemma {:induction false} Product(a: real, b: real)
    requires a >= 0.0 && b >= 0.0
    ensures a * b >= 0.0
  {
  }

  lemma {:induction false} Smaller(square: real, x: real, goal: real)
    requires 0.0 <= square <= 1.0 && x < goal && goal > 0.0
    ensures square * x < goal
  {
    if x > 0.0 { Product(1.0 - square, x); } else { Product(square, -x); }
  }

  lemma {:induction false} NeverPositive(base: int, factor: real, failures: nat)
    requires (base <= 0 && factor > 1.0) || base == 0
    ensures Grown(base as real, factor, failures) <= 0.0
    ensures base == 0 ==> Grown(base as real, factor, failures) == 0.0
  {
    if failures > 0 {
      NeverPositive(base, factor, failures - 1);
      NotPositive(factor, Grown(base as real, factor, failures - 1));
    }
  }

  lemma {:induction false} NotPositive(factor: real, x: real)
    ensures factor > 1.0 && x <= 0.0 ==> factor * x <= 0.0
    ensures x == 0.0 ==> factor * x == 0.0
  {
    if factor > 1.0 && x <= 0.0 { assert factor * (-x) >= 0.0; }
  }

  // -------------------------------------------------------------------------------------
  // Told to wait.

  /** A rate limit is waited out as long as it asks for, inside the bounds, and for the ceiling when it
      asks in words nobody can read; any other answer that is no document, and one that asks for
      nothing, is waited out like no answer at all. */
  lemma {:induction false} RateLimitsAreObeyed(f: FeedState, s: IngestSettings, now: Time, at: Time, status: int, header: RetryHeader)
    requires 0 < s.minIntervalSeconds <= s.maxBackoffSeconds
    ensures var g, limited := After(f, Answered(status, header), s, now, at), status == 429 || status == 503;
      && (limited && header.Whole? ==> LeftFor(g, Backoff.Whole(header.seconds, WaitingOut(s))))
      && (limited && header.Unreadable? ==> LeftFor(g, s.maxBackoffSeconds))
      && (!limited || header.Absent? ==> g.nextPollAt == After(f, Broken, s, now, at).nextPollAt)
  {
    AfterWaits(f, Answered(status, header), s, now, at);
    AfterWaits(f, Broken, s, now, at);
    if header.Whole? { HeldIs(header.seconds as real, WaitingOut(s)); }
    SameRun(f, at, status);
  }

  /** What a failed poll was answered is nothing to its run. */
  lemma {:induction false} SameRun(f: FeedState, at: Time, status: int)
    ensures ConsecutiveFailures(f.polls + [FeedPoll(f.id, at, FAILED, status, 0)], f.id)
         == ConsecutiveFailures(f.polls + [FeedPoll(f.id, at, FAILED, 0, 0)], f.id)
  {
    var a, b := f.polls + [FeedPoll(f.id, at, FAILED, status, 0)], f.polls + [FeedPoll(f.id, at, FAILED, 0, 0)];
    assert a[..|f.polls|] == f.polls && b[..|f.polls|] == f.polls;
  }
}
