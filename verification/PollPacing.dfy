/** What a feed's own log and row show of when it is polled, over whole runs of sweeps and polls. */
module PollPacing {
  import opened Wrappers
  import opened RunLog
  import opened Jobs
  import opened Polling
  import Schedule
  import Failing

  /** No poll of it was ever answered 410, fewer have failed since the last that did not than the
      limit, and the time its last poll set has come. */
  ghost predicate MayBePolled(c: Config, s: State, feed: FeedId) {
    && (forall i :: 0 <= i < |s.polls| && s.polls[i].feed == feed ==> s.polls[i].status != 410)
    && |Failing.Run(RowOf(s, feed))| < c.settings.maxConsecutiveFailures
    && s.now >= s.feeds(feed).nextPollAt
  }

  /** A sweep can take exactly the feeds subscribed to that may be polled. */
  lemma DueWhenTimely(c: Config, s: State, subscribed: FeedId -> bool, feed: FeedId)
    ensures IsDue(c, s, subscribed, feed) <==> subscribed(feed) && MayBePolled(c, s, feed)
  {
    Failing.RunIsConsecutive(RowOf(s, feed));
  }

  lemma {:induction false} PrefixPlays(c: Config, s: State, steps: seq<Step>, n: nat)
    requires n < |steps| && Play(c, s, steps).Some?
    ensures Play(c, s, steps[..n]).Some? && Enabled(c, Play(c, s, steps[..n]).value, steps[n])
  {
    var last := |steps| - 1;
    if n < last {
      PrefixPlays(c, s, steps[..last], n);
      assert steps[..last][..n] == steps[..n];
    }
  }

  /** This sweep takes the feed. */
  predicate Takes(step: Step, feed: FeedId) {
    (step.Sweep? || step.Choose?) && feed in step.batch
  }

  /** In every run, whatever a sweep takes may be polled then. */
  lemma ChosenMayBePolled(c: Config, start: State, steps: seq<Step>, n: nat, feed: FeedId)
    requires Play(c, start, steps).Some? && n < |steps| && Takes(steps[n], feed)
    ensures Play(c, start, steps[..n]).Some?
    ensures steps[n].subscribed(feed) && MayBePolled(c, Play(c, start, steps[..n]).value, feed)
  {
    PrefixPlays(c, start, steps, n);
    var s := Play(c, start, steps[..n]).value;
    assert IsDue(c, s, steps[n].subscribed, feed);
    DueWhenTimely(c, s, steps[n].subscribed, feed);
  }

  // -------------------------------------------------------------------------------------
  // From one poll to the next.

  ghost predicate Polls(s: State, step: Step, feed: FeedId) {
    step.Record? && step.host in s.queue.running && s.queue.running[step.host] == feed
  }

  /** No step of the run is a poll of this feed. */
  ghost predicate Unpolled(c: Config, s: State, steps: seq<Step>, feed: FeedId)
    requires Play(c, s, steps).Some?
  {
    forall n :: 0 <= n < |steps| ==>
      var before := Play(c, s, steps[..n]); before.Some? ==> !Polls(before.value, steps[n], feed)
  }

  lemma {:induction false} RowStays(c: Config, s: State, steps: seq<Step>, feed: FeedId)
    requires Play(c, s, steps).Some? && Unpolled(c, s, steps, feed)
    ensures Play(c, s, steps).value.feeds(feed) == s.feeds(feed) && Play(c, s, steps).value.now >= s.now
  {
    if steps != [] {
      var n := |steps| - 1;
      var before := Play(c, s, steps[..n]).value;
      forall k | 0 <= k < n ensures
        var at := Play(c, s, steps[..n][..k]); at.Some? ==> !Polls(at.value, steps[..n][k], feed)
      {
        assert steps[..n][..k] == steps[..k];
      }
      RowStays(c, s, steps[..n], feed);
      OneStepStays(c, before, steps[n], feed);
    }
  }

  lemma OneStepStays(c: Config, s: State, step: Step, feed: FeedId)
    requires Enabled(c, s, step) && !Polls(s, step, feed)
    ensures Next(c, s, step).feeds(feed) == s.feeds(feed) && Next(c, s, step).now >= s.now
  {
    if step.Record? {
      var row := RowAdded(c, s, step.host, step.event);
    }
  }

  /** Once a poll of a feed has been recorded, no sweep takes that feed again before the whole of
      the wait the poll set is over, counted from when the poll began; and that wait is never
      shorter than the least the settings allow. */
  lemma PollsAreSpaced(c: Config, s: State, poll: Step, steps: seq<Step>, sweep: Step, feed: FeedId)
    requires Enabled(c, s, poll) && Polls(s, poll, feed)
    requires Play(c, Next(c, s, poll), steps).Some? && Unpolled(c, Next(c, s, poll), steps, feed)
    requires Enabled(c, Play(c, Next(c, s, poll), steps).value, sweep) && Takes(sweep, feed)
    ensures poll.host in s.began
    ensures var taken := Play(c, Next(c, s, poll), steps).value.now;
      && taken >= s.began[poll.host] + Schedule.WaitAfter(RowOf(s, feed), poll.event, c.settings, s.now) as real
      && taken >= s.began[poll.host] + Schedule.LeastWait(c.settings) as real
  {
    var t := Next(c, s, poll);
    var began := s.began[poll.host];
    var u := Play(c, t, steps).value;
    Schedule.AfterWaits(RowOf(s, feed), poll.event, c.settings, began, s.now);
    Schedule.WaitWithinBounds(RowOf(s, feed), poll.event, c.settings, began, s.now);
    var row := RowAdded(c, s, poll.host, poll.event);
    RowStays(c, t, steps, feed);
    assert IsDue(c, u, sweep.subscribed, feed);
  }

  // -------------------------------------------------------------------------------------
  // Gone.

  lemma GoneStays(c: Config, s: State, step: Step, feed: FeedId)
    requires Enabled(c, s, step) && Gone(s, feed)
    ensures Gone(Next(c, s, step), feed) && PollsOf(Next(c, s, step).polls, feed) == PollsOf(s.polls, feed)
  {
    var t := Next(c, s, step);
    var i :| 0 <= i < |s.polls| && s.polls[i].feed == feed && s.polls[i].status == PERMANENTLY_GONE;
    if step.Record? {
      var row := RowAdded(c, s, step.host, step.event);
      assert (s.polls + [row])[..|s.polls|] == s.polls;
    }
    assert t.polls[i] == s.polls[i];
  }

  /** A feed that was once answered 410 is never polled again, in any run, whatever was queued. */
  lemma {:induction false} GoneForGood(c: Config, s: State, steps: seq<Step>, i: nat)
    requires Play(c, s, steps).Some? && i < |s.polls| && s.polls[i].status == 410
    ensures PollsOf(Play(c, s, steps).value.polls, s.polls[i].feed) == PollsOf(s.polls, s.polls[i].feed)
    ensures Gone(Play(c, s, steps).value, s.polls[i].feed)
  {
    if steps != [] {
      var n := |steps| - 1;
      GoneForGood(c, s, steps[..n], i);
      GoneStays(c, Play(c, s, steps[..n]).value, steps[n], s.polls[i].feed);
    }
  }

  /** And an answer of 410 is what makes a feed such. */
  lemma GoneWhenAnswered(c: Config, s: State, host: Host, header: Schedule.RetryHeader)
    requires Enabled(c, s, Record(host, Schedule.Answered(410, header)))
    ensures Gone(Next(c, s, Record(host, Schedule.Answered(410, header))), s.queue.running[host])
  {
    var t := Next(c, s, Record(host, Schedule.Answered(410, header)));
    assert t.polls[|s.polls|].status == PERMANENTLY_GONE && t.polls[|s.polls|].feed == s.queue.running[host];
  }

  /** A host is free for its next poll exactly when the one it had has been recorded or cut off. */
  lemma HostsAreFreed(c: Config, s: State, step: Step, host: Host)
    requires Enabled(c, s, step) && host in s.queue.running
    ensures host !in Next(c, s, step).queue.running <==> step == Abort(host) || (step.Record? && step.host == host)
  {
  }

  /** A job that waits keeps its time until it starts, whatever sweeps choose its feed again. */
  lemma WaitingKeepsItsTime(c: Config, s: State, step: Step, feed: FeedId)
    requires Enabled(c, s, step) && feed in s.queue.waiting && step != Begin(feed)
    ensures feed in Next(c, s, step).queue.waiting && Next(c, s, step).queue.waiting[feed] == s.queue.waiting[feed]
  {
    if step.Sweep? { StillWaiting(s.queue.waiting, step.batch, step.ready, feed); }
  }

  lemma {:induction false} StillWaiting(waiting: map<FeedId, Time>, batch: seq<FeedId>, ready: seq<Time>, feed: FeedId)
    requires |ready| == |batch| && feed in waiting
    ensures feed in DeferAll(waiting, batch, ready) && DeferAll(waiting, batch, ready)[feed] == waiting[feed]
  {
    if batch != [] { StillWaiting(waiting, batch[..|batch| - 1], ready[..|batch| - 1], feed); }
  }

  /** Every job running has its own clock: the time it started, whatever happens meanwhile. */
  lemma ClocksAreTheirOwn(c: Config, s: State, step: Step, host: Host)
    requires Enabled(c, s, step) && host in Next(c, s, step).queue.running && s.queue.running.Keys <= s.began.Keys
    ensures var t := Next(c, s, step);
      && t.queue.running.Keys <= t.began.Keys
      && t.began[host] == if host in s.queue.running then s.began[host] else s.now
  {
  }
}
