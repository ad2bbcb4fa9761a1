/** When `max_consecutive_failures` and one bounds a feed's failure run, and how far past it the run
    can go: `Polling.FailureRunIsBounded` is exact under every configuration that polls at all. */
module ExactRun {
  import opened Wrappers
  import opened RunLog
  import opened Jobs
  import opened Polling
  import ExactBound
  import Schedule

  const EVERYONE: FeedId -> bool := (feed: FeedId) => true

  const SUBSCRIBED: FeedId -> Columns := (feed: FeedId) => Columns(None, None, 0.0, None)

  /** Every enabled step from a state of it leads to a state of it. */
  ghost predicate Closed(c: Config, reached: State -> bool) {
    forall s, step :: reached(s) && Enabled(c, s, step) ==> reached(Next(c, s, step))
  }

  ghost predicate Begun(c: Config, reached: State -> bool) {
    Closed(c, reached) && reached(Initial(0.0, SUBSCRIBED))
  }

  /** Longer than any wait a poll sets a feed that asked for no ttl. */
  function Pause(c: Config): Time {
    Max(Schedule.MostWait(c.settings) as real, 0.0) + 1.0
  }

  // -------------------------------------------------------------------------------------
  // A log of failures and nothing else.

  /** Every row is a fetch of the one feed that raised, and none is later than `last`. */
  ghost predicate AllFailed(polls: seq<Schedule.FeedPoll>, feed: FeedId, last: Time) {
    forall i :: 0 <= i < |polls| ==>
      polls[i].feed == feed && polls[i].outcome == Schedule.FAILED && polls[i].status == 0 && polls[i].at <= last
  }

  lemma {:induction false} NoReset(polls: seq<Schedule.FeedPoll>, feed: FeedId, last: Time)
    requires AllFailed(polls, feed, last)
    ensures ResetAt(polls, Schedule.PollReading(feed)) == None
  {
    if polls != [] { NoReset(polls[..|polls| - 1], feed, last); }
  }

  lemma {:induction false} AllInTail(polls: seq<Schedule.FeedPoll>, feed: FeedId, last: Time)
    requires AllFailed(polls, feed, last)
    ensures |Tail(polls, Schedule.PollReading(feed), None)| == |polls|
  {
    if polls != [] { AllInTail(polls[..|polls| - 1], feed, last); }
  }

  lemma AllCounted(polls: seq<Schedule.FeedPoll>, feed: FeedId, last: Time)
    requires AllFailed(polls, feed, last)
    ensures Schedule.ConsecutiveFailures(polls, feed) == |polls|
  {
    NoReset(polls, feed, last);
    AllInTail(polls, feed, last);
  }

  /** The feed asked for no ttl, and its next poll is due within a pause. */
  ghost predicate Undemanding(c: Config, s: State, feed: FeedId) {
    s.feeds(feed).nextPollAt <= s.now + Pause(c) && s.feeds(feed).ttlSeconds == None
  }

  /** Its next poll is due, and it has polls left. */
  ghost predicate Ready(c: Config, s: State, feed: FeedId) {
    && AllFailed(s.polls, feed, s.now - 1.0) && |s.polls| < c.settings.maxConsecutiveFailures
    && s.feeds(feed).nextPollAt <= s.now
  }

  ghost predicate Waits(s: State, feed: FeedId) {
    feed in s.queue.waiting && s.queue.waiting[feed] <= s.now
  }

  // -------------------------------------------------------------------------------------
  // One step each.

  lemma Pauses(c: Config, reached: State -> bool, s: State)
    requires Closed(c, reached) && reached(s)
    ensures reached(s.(now := s.now + Pause(c)))
  {
    assert Enabled(c, s, Tick(s.now + Pause(c)));
  }

  lemma StillDue(c: Config, s: State, feed: FeedId)
    requires Ready(c, s, feed)
    ensures AllDue(c, s, EVERYONE, [feed])
  {
    AllCounted(s.polls, feed, s.now - 1.0);
  }

  lemma Sweeps(c: Config, reached: State -> bool, feed: FeedId, s: State)
    requires Closed(c, reached) && reached(s) && Ready(c, s, feed) && feed !in s.queue.waiting
    ensures reached(s.(queue := s.queue.(waiting := s.queue.waiting[feed := s.now])))
  {
    StillDue(c, s, feed);
    var w := s.queue.waiting;
    assert [feed][..0] == [] && [s.now][..0] == [];
    assert DeferAll(w, [feed][..0], [s.now][..0]) == w;
    assert DeferAll(w, [feed], [s.now]) == w[feed := s.now];
    assert Enabled(c, s, Sweep(EVERYONE, [feed], [s.now]));
  }

  lemma Chooses(c: Config, reached: State -> bool, feed: FeedId, s: State, sweep: nat)
    requires Closed(c, reached) && reached(s) && Ready(c, s, feed)
    requires sweep !in s.queue.claims && |s.queue.claims| < c.sweeps
    ensures reached(s.(queue := s.queue.(claims := s.queue.claims[sweep := [feed]])))
  {
    StillDue(c, s, feed);
    assert Enabled(c, s, Choose(sweep, EVERYONE, [feed]));
  }

  lemma Begins(c: Config, reached: State -> bool, feed: FeedId, s: State)
    requires Closed(c, reached) && reached(s) && Waits(s, feed) && c.hostOf(feed) !in s.queue.running
    ensures reached(s.(queue := Start(s.queue, feed, c.hostOf(feed)), began := s.began[c.hostOf(feed) := s.now]))
  {
    assert Enabled(c, s, Begin(feed));
  }

  /** A fetch that raises is logged and puts the next poll within a pause of when the job began. */
  lemma Raised(c: Config, f: Schedule.FeedState, began: Time, at: Time)
    requires f.ttlSeconds == None && AllFailed(f.polls, f.id, at)
    ensures var g := Schedule.After(f, Schedule.Broken, c.settings, began, at);
      && g.nextPollAt <= began + Pause(c) && g.ttlSeconds == None && g.id == f.id
      && AllFailed(g.polls, f.id, at) && |g.polls| == |f.polls| + 1
  {
    Schedule.WaitWithinBounds(f, Schedule.Broken, c.settings, began, at);
  }

  /** The feed's own job runs, begun no later than now. */
  ghost predicate Running(c: Config, s: State, feed: FeedId) {
    var host := c.hostOf(feed);
    && host in s.queue.running && s.queue.running[host] == feed && host in s.began && s.began[host] <= s.now
    && AllFailed(s.polls, feed, s.now - 1.0) && s.feeds(feed).ttlSeconds == None
  }

  lemma Fails(c: Config, reached: State -> bool, feed: FeedId, s: State) returns (t: State)
    requires Closed(c, reached) && reached(s) && Running(c, s, feed)
    ensures reached(t) && t.queue == Finish(s.queue, c.hostOf(feed)) && t.now == s.now && |t.polls| == |s.polls| + 1
    ensures AllFailed(t.polls, feed, t.now) && Undemanding(c, t, feed)
  {
    var host := c.hostOf(feed);
    assert Enabled(c, s, Record(host, Schedule.Broken));
    t := Next(c, s, Record(host, Schedule.Broken));
    Raised(c, RowOf(s, feed), s.began[host], s.now);
  }

  // -------------------------------------------------------------------------------------
  // The interleaving.

  /** The feed's host is idle, `j` sweeps hold the feed, and its `n` polls have all failed. */
  ghost predicate Holding(c: Config, s: State, feed: FeedId, j: nat, n: nat) {
    && s.queue.claims == ExactBound.Claimed(feed, j) && c.hostOf(feed) !in s.queue.running
    && |s.polls| == n && AllFailed(s.polls, feed, s.now) && Undemanding(c, s, feed)
  }

  /** A pause on, the job that waits runs and fails. */
  lemma PollFails(c: Config, reached: State -> bool, feed: FeedId, s: State, j: nat, n: nat) returns (t: State)
    requires Closed(c, reached) && reached(s) && Holding(c, s, feed, j, n) && Waits(s, feed)
    ensures reached(t) && Holding(c, t, feed, j, n + 1) && feed !in t.queue.waiting
  {
    Pauses(c, reached, s);
    t := s.(now := s.now + Pause(c));
    Begins(c, reached, feed, t);
    t := t.(queue := Start(t.queue, feed, c.hostOf(feed)), began := t.began[c.hostOf(feed) := t.now]);
    t := Fails(c, reached, feed, t);
  }

  /** A pause on, a sweep that chooses and queues at once finds it due, and it fails again. */
  lemma FailsAgain(c: Config, reached: State -> bool, feed: FeedId, s: State, n: nat) returns (t: State)
    requires Closed(c, reached) && reached(s) && Holding(c, s, feed, 0, n) && feed !in s.queue.waiting
    requires n < c.settings.maxConsecutiveFailures
    ensures reached(t) && Holding(c, t, feed, 0, n + 1) && feed !in t.queue.waiting
  {
    Pauses(c, reached, s);
    t := s.(now := s.now + Pause(c));
    Sweeps(c, reached, feed, t);
    t := t.(queue := t.queue.(waiting := t.queue.waiting[feed := t.now]));
    t := PollFails(c, reached, feed, t, 0, n);
  }

  lemma {:induction false} FailsTimes(c: Config, reached: State -> bool, feed: FeedId, n: nat) returns (s: State)
    requires Begun(c, reached) && n <= c.settings.maxConsecutiveFailures
    ensures reached(s) && Holding(c, s, feed, 0, n) && feed !in s.queue.waiting
  {
    if n == 0 {
      s := Initial(0.0, SUBSCRIBED);
    } else {
      s := FailsTimes(c, reached, feed, n - 1);
      s := FailsAgain(c, reached, feed, s, n - 1);
    }
  }

  /** The job of the last poll before the limit runs, a second job waits, and `j` sweeps have
      chosen the feed besides. */
  ghost predicate Asking(c: Config, s: State, feed: FeedId, j: nat) {
    && s.queue.claims == ExactBound.Claimed(feed, j) && Waits(s, feed) && Running(c, s, feed) && Ready(c, s, feed)
    && |s.polls| == c.settings.maxConsecutiveFailures - 1
  }

  lemma LastPollRuns(c: Config, reached: State -> bool, feed: FeedId) returns (s: State)
    requires Begun(c, reached) && c.settings.maxConsecutiveFailures > 0
    ensures reached(s) && Asking(c, s, feed, 0)
  {
    s := FailsTimes(c, reached, feed, c.settings.maxConsecutiveFailures - 1);
    Pauses(c, reached, s);
    s := s.(now := s.now + Pause(c));
    Sweeps(c, reached, feed, s);
    s := s.(queue := s.queue.(waiting := s.queue.waiting[feed := s.now]));
    Begins(c, reached, feed, s);
    s := s.(queue := Start(s.queue, feed, c.hostOf(feed)), began := s.began[c.hostOf(feed) := s.now]);
    Sweeps(c, reached, feed, s);
    s := s.(queue := s.queue.(waiting := s.queue.waiting[feed := s.now]));
  }

  lemma OneMoreChooses(c: Config, reached: State -> bool, feed: FeedId, s: State, j: nat) returns (t: State)
    requires Closed(c, reached) && reached(s) && Asking(c, s, feed, j) && j < c.sweeps
    ensures reached(t) && Asking(c, t, feed, j + 1)
  {
    ExactBound.ClaimedIs(feed, j);
    ExactBound.ClaimedCount(feed, j);
    Chooses(c, reached, feed, s, j);
    t := s.(queue := s.queue.(claims := s.queue.claims[j := [feed]]));
  }

  lemma {:induction false} SweepsChoose(c: Config, reached: State -> bool, feed: FeedId, j: nat) returns (s: State)
    requires Begun(c, reached) && c.settings.maxConsecutiveFailures > 0 && j <= c.sweeps
    ensures reached(s) && Asking(c, s, feed, j)
    decreases j
  {
    if j == 0 {
      s := LastPollRuns(c, reached, feed);
    } else {
      s := SweepsChoose(c, reached, feed, j - 1);
      s := OneMoreChooses(c, reached, feed, s, j - 1);
    }
  }

  lemma LastPollFails(c: Config, reached: State -> bool, feed: FeedId, s: State, j: nat) returns (t: State)
    requires Closed(c, reached) && reached(s) && Asking(c, s, feed, j)
    ensures reached(t) && Holding(c, t, feed, j, |s.polls| + 1) && Waits(t, feed)
  {
    t := Fails(c, reached, feed, s);
  }

  lemma SweepQueues(c: Config, reached: State -> bool, feed: FeedId, s: State, j: nat, n: nat) returns (t: State)
    requires Closed(c, reached) && reached(s) && Holding(c, s, feed, j, n) && j > 0 && feed !in s.queue.waiting
    ensures reached(t) && Holding(c, t, feed, j - 1, n) && Waits(t, feed)
  {
    ExactBound.ClaimedLess(feed, j);
    assert Enabled(c, s, Enqueue(j - 1, s.now));
    t := s.(queue := Queue(ExactBound.Claimed(feed, j - 1), s.queue.waiting[feed := s.now], s.queue.running));
  }

  lemma Round(c: Config, reached: State -> bool, feed: FeedId, s: State, j: nat, n: nat) returns (t: State)
    requires Closed(c, reached) && reached(s) && Holding(c, s, feed, j, n) && Waits(s, feed) && j > 0
    ensures reached(t) && Holding(c, t, feed, j - 1, n + 1) && Waits(t, feed)
  {
    t := PollFails(c, reached, feed, s, j, n);
    t := SweepQueues(c, reached, feed, t, j, n + 1);
  }

  /** Each sweep still holding the feed queues it once the job before it is out of the way. */
  lemma {:induction false} SweepsPayOut(c: Config, reached: State -> bool, feed: FeedId, s: State, j: nat, n: nat) returns (t: State)
    requires Closed(c, reached) && reached(s) && Holding(c, s, feed, j, n) && Waits(s, feed)
    ensures reached(t) && Holding(c, t, feed, 0, n + 1 + j)
    decreases j
  {
    if j == 0 {
      t := PollFails(c, reached, feed, s, 0, n);
    } else {
      t := Round(c, reached, feed, s, j, n);
      t := SweepsPayOut(c, reached, feed, t, j - 1, n + 1);
    }
  }

  lemma RunReached(c: Config, reached: State -> bool, feed: FeedId) returns (s: State)
    requires Begun(c, reached) && c.settings.maxConsecutiveFailures > 0
    ensures reached(s) && Failures(s, feed) == Cap(c) + 1 + c.sweeps
  {
    s := SweepsChoose(c, reached, feed, c.sweeps);
    s := LastPollFails(c, reached, feed, s, c.sweeps);
    s := SweepsPayOut(c, reached, feed, s, c.sweeps, Cap(c));
    AllCounted(s.polls, feed, s.now);
  }

  ghost predicate Reaches(c: Config, s: State) {
    exists steps :: Play(c, Initial(0.0, SUBSCRIBED), steps) == Some(s)
  }

  lemma RunsAreClosed(c: Config)
    ensures Begun(c, (s: State) => Reaches(c, s))
  {
    var start := Initial(0.0, SUBSCRIBED);
    assert Play(c, start, []) == Some(start);
    forall s, step | Reaches(c, s) && Enabled(c, s, step) ensures Reaches(c, Next(c, s, step)) {
      var steps :| Play(c, start, steps) == Some(s);
      assert (steps + [step])[..|steps|] == steps;
      assert Play(c, start, steps + [step]) == Some(Next(c, s, step));
    }
  }

  /** Under every configuration that polls at all, backoff and ceilings and all, some interleaving
      takes any feed's run to the bound exactly, every poll chosen while its time had come. */
  lemma TheRunIsReached(c: Config, feed: FeedId) returns (steps: seq<Step>)
    requires c.settings.maxConsecutiveFailures > 0
    ensures var r := Play(c, Initial(0.0, SUBSCRIBED), steps);
      r.Some? && Failures(r.value, feed) == Cap(c) + 1 + c.sweeps
  {
    RunsAreClosed(c);
    var s := RunReached(c, (s: State) => Reaches(c, s), feed);
    steps :| Play(c, Initial(0.0, SUBSCRIBED), steps) == Some(s);
  }

  // -------------------------------------------------------------------------------------
  // The smaller bound.

  ghost predicate Untouched(s: State) {
    s.queue == Idle() && s.polls == []
  }

  lemma NobodyIsDue(c: Config, s: State, subscribed: FeedId -> bool, batch: seq<FeedId>)
    requires c.settings.maxConsecutiveFailures < 1 && AllDue(c, s, subscribed, batch)
    ensures batch == []
  {
    ExactBound.EmptyIsMemberless(batch);
  }

  lemma NobodyStep(c: Config, s: State, step: Step)
    requires c.settings.maxConsecutiveFailures < 1 && Untouched(s) && Enabled(c, s, step)
    ensures Untouched(Next(c, s, step))
  {
    match step
    case Sweep(subscribed, batch, ready) =>
      NobodyIsDue(c, s, subscribed, batch);
      assert DeferAll(s.queue.waiting, [], []) == s.queue.waiting;
    case Choose(sweep, subscribed, batch) => NobodyIsDue(c, s, subscribed, batch);
    case _ =>
  }

  lemma {:induction false} NobodyIsPolled(c: Config, start: State, steps: seq<Step>)
    requires c.settings.maxConsecutiveFailures < 1 && Untouched(start) && Play(c, start, steps).Some?
    ensures Untouched(Play(c, start, steps).value)
  {
    if steps != [] {
      var n := |steps| - 1;
      NobodyIsPolled(c, start, steps[..n]);
      NobodyStep(c, Play(c, start, steps[..n]).value, steps[n]);
    }
  }

  /** No interleaving, from any feeds' rows, takes a feed's run past its limit and one. */
  ghost predicate OneOver(c: Config) {
    forall now: Time, feeds: FeedId -> Columns, steps: seq<Step>, feed: FeedId ::
      Play(c, Initial(now, feeds), steps).Some? ==> Failures(Play(c, Initial(now, feeds), steps).value, feed) <= Cap(c) + 1
  }

  /** `max_consecutive_failures` and one is the bound exactly when no sweep can be caught between
      choosing and queueing, or no feed is ever polled. */
  lemma OneOverWhenAtomic(c: Config)
    ensures OneOver(c) <==> c.sweeps == 0 || c.settings.maxConsecutiveFailures < 1
  {
    if c.sweeps == 0 || c.settings.maxConsecutiveFailures < 1 {
      forall now: Time, feeds: FeedId -> Columns, steps: seq<Step>, feed: FeedId | Play(c, Initial(now, feeds), steps).Some?
        ensures Failures(Play(c, Initial(now, feeds), steps).value, feed) <= Cap(c) + 1
      {
        if c.sweeps == 0 {
          FailureRunIsBounded(c, now, feeds, steps, feed);
        } else {
          NobodyIsPolled(c, Initial(now, feeds), steps);
          AllCounted([], feed, now);
        }
      }
    } else {
      var steps := TheRunIsReached(c, 0);
    }
  }
}
