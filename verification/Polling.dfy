/** Poll sweeps, the queue and poll jobs as interleaved steps: `due_polls` and `poll_feed` of
    `ingest/service.py`, over `tasks/ingest.py` and `tasks/sweep.py`. */
module Polling {
  import opened Wrappers
  import opened RunLog
  import opened Jobs
  import Schedule

  type FeedId = Schedule.FeedId

  datatype Config = Config(settings: Schedule.IngestSettings, hostOf: FeedId -> Host, sweeps: nat)

  /** The columns of a feed's row that a poll writes. */
  datatype Columns = Columns(lastPolledAt: Option<Time>, lastSuccessAt: Option<Time>, nextPollAt: Time, ttlSeconds: Option<int>)

  /** `began` is when each running job read its clock. */
  datatype State = State(now: Time, polls: seq<Schedule.FeedPoll>, feeds: FeedId -> Columns, queue: Queue<FeedId>, began: map<Host, Time>)

  datatype Step =
    | Tick(to: Time)
    | Sweep(subscribed: FeedId -> bool, batch: seq<FeedId>, ready: seq<Time>)
    | Choose(sweep: nat, subscribed: FeedId -> bool, batch: seq<FeedId>)
    | Enqueue(sweep: nat, readyAt: Time)
    | Begin(feed: FeedId)
    | Record(host: Host, event: Schedule.PollEvent)
    | Abort(host: Host)

  function RowOf(s: State, feed: FeedId): Schedule.FeedState {
    var c := s.feeds(feed);
    Schedule.FeedState(feed, c.lastPolledAt, c.lastSuccessAt, c.nextPollAt, c.ttlSeconds, s.polls)
  }

  function ColumnsOf(f: Schedule.FeedState): Columns {
    Columns(f.lastPolledAt, f.lastSuccessAt, f.nextPollAt, f.ttlSeconds)
  }

  function Failures(s: State, feed: FeedId): nat {
    Schedule.ConsecutiveFailures(s.polls, feed)
  }

  const PERMANENTLY_GONE := 410

  /** Some poll of the feed was answered 410. */
  predicate Gone(s: State, feed: FeedId) {
    exists i :: 0 <= i < |s.polls| && s.polls[i].feed == feed && s.polls[i].status == PERMANENTLY_GONE
  }

  /** What `due_polls` asks of each feed it chooses. */
  predicate IsDue(c: Config, s: State, subscribed: FeedId -> bool, feed: FeedId) {
    && subscribed(feed) && !Gone(s, feed)
    && Failures(s, feed) < c.settings.maxConsecutiveFailures
    && s.feeds(feed).nextPollAt <= s.now
  }

  ghost predicate AllDue(c: Config, s: State, subscribed: FeedId -> bool, batch: seq<FeedId>) {
    NoRepeats(batch) && forall feed :: feed in batch ==> IsDue(c, s, subscribed, feed)
  }

  ghost predicate NewestOf(polls: seq<Schedule.FeedPoll>, feed: FeedId, at: Time) {
    forall i :: 0 <= i < |polls| && polls[i].feed == feed ==> polls[i].at < at
  }

  ghost predicate Enabled(c: Config, s: State, step: Step) {
    match step
    case Tick(to) => s.now < to
    case Sweep(subscribed, batch, ready) => AllDue(c, s, subscribed, batch) && |ready| == |batch|
    case Choose(sweep, subscribed, batch) =>
      AllDue(c, s, subscribed, batch) && batch != [] && sweep !in s.queue.claims && |s.queue.claims| < c.sweeps
    case Enqueue(sweep, readyAt) => sweep in s.queue.claims && s.queue.claims[sweep] != []
    case Begin(feed) => feed in s.queue.waiting && s.queue.waiting[feed] <= s.now && c.hostOf(feed) !in s.queue.running
    case Record(host, _) =>
      host in s.queue.running && host in s.began
      && !Gone(s, s.queue.running[host]) && NewestOf(s.polls, s.queue.running[host], s.now)
    case Abort(host) => host in s.queue.running
  }

  /** The row as the job's poll leaves it. */
  function Polled(c: Config, s: State, host: Host, event: Schedule.PollEvent): Schedule.FeedState
    requires host in s.queue.running && host in s.began
  {
    Schedule.After(RowOf(s, s.queue.running[host]), event, c.settings, s.began[host], s.now)
  }

  ghost function Next(c: Config, s: State, step: Step): State
    requires Enabled(c, s, step)
  {
    match step
    case Tick(to) => s.(now := to)
    case Sweep(_, batch, ready) => s.(queue := s.queue.(waiting := DeferAll(s.queue.waiting, batch, ready)))
    case Choose(sweep, _, batch) => s.(queue := Select(s.queue, sweep, batch))
    case Enqueue(sweep, readyAt) => s.(queue := Defer(s.queue, sweep, readyAt))
    case Begin(feed) => s.(queue := Start(s.queue, feed, c.hostOf(feed)), began := s.began[c.hostOf(feed) := s.now])
    case Record(host, event) =>
      var row := Polled(c, s, host, event);
      s.(polls := row.polls, feeds := (f: FeedId) => if f == row.id then ColumnsOf(row) else s.feeds(f),
         queue := Finish(s.queue, host))
    case Abort(host) => s.(queue := Finish(s.queue, host))
  }

  ghost function Play(c: Config, s: State, steps: seq<Step>): Option<State> {
    if steps == [] then Some(s)
    else
      var before, step := Play(c, s, steps[..|steps| - 1]), steps[|steps| - 1];
      if before.Some? && Enabled(c, before.value, step) then Some(Next(c, before.value, step)) else None
  }

  // -------------------------------------------------------------------------------------
  // What every step keeps.

  function Cap(c: Config): nat {
    if c.settings.maxConsecutiveFailures < 1 then 1 else c.settings.maxConsecutiveFailures
  }

  ghost predicate Ordered(s: State) {
    forall feed :: Chronological(s.polls, Schedule.PollReading(feed))
  }

  ghost predicate FailuresKept(c: Config, s: State) {
    forall feed: FeedId :: Bounded(Failures(s, feed), Pending(s.queue, c.hostOf, feed), Cap(c), c.sweeps)
  }

  ghost predicate Kept(c: Config, s: State) {
    Locked(s.queue, c.hostOf, c.sweeps) && Ordered(s) && FailuresKept(c, s)
  }

  lemma LockedStep(c: Config, s: State, step: Step)
    requires Locked(s.queue, c.hostOf, c.sweeps) && Enabled(c, s, step)
    ensures Locked(Next(c, s, step).queue, c.hostOf, c.sweeps)
  {
    match step
    case Choose(sweep, _, batch) => SelectStep(s.queue, c.hostOf, sweep, batch, 0);
    case Enqueue(sweep, readyAt) => DeferStep(s.queue, c.hostOf, sweep, readyAt, 0);
    case _ => assert Next(c, s, step).queue.claims == s.queue.claims;
  }

  /** A poll's row is the newest of its feed, so it grows that feed's run, or ends it, and
      leaves every other feed's alone. */
  lemma RecordStep(c: Config, s: State, step: Step, feed: FeedId)
    requires Ordered(s) && Enabled(c, s, step) && step.Record?
    ensures var t, polled := Next(c, s, step), s.queue.running[step.host];
      && Chronological(t.polls, Schedule.PollReading(feed))
      && Failures(t, feed) == if feed != polled then Failures(s, feed)
                              else if Schedule.OutcomeOf(step.event) == Schedule.FAILED then Failures(s, feed) + 1
                              else 0
  {
    var row := RowAdded(c, s, step.host, step.event);
    StillOrdered(s.polls, row, feed);
    RowCounted(s.polls, row, feed);
  }

  /** A poll logs one row, of its own feed, stamped as it commits. */
  lemma RowAdded(c: Config, s: State, host: Host, event: Schedule.PollEvent) returns (row: Schedule.FeedPoll)
    requires host in s.queue.running && host in s.began
    ensures Polled(c, s, host, event).polls == s.polls + [row] && Polled(c, s, host, event).id == s.queue.running[host]
    ensures row.feed == s.queue.running[host] && row.at == s.now && row.outcome == Schedule.OutcomeOf(event)
  {
    row := Polled(c, s, host, event).polls[|s.polls|];
  }

  lemma RowCounted(polls: seq<Schedule.FeedPoll>, row: Schedule.FeedPoll, feed: FeedId)
    requires Chronological(polls + [row], Schedule.PollReading(feed))
    ensures var failures := Schedule.ConsecutiveFailures(polls, feed);
      Schedule.ConsecutiveFailures(polls + [row], feed) == if feed != row.feed then failures
        else if row.outcome == Schedule.FAILED then failures + 1
        else 0
  {
    var q, longer := Schedule.PollReading(feed), polls + [row];
    LaterThanAll(longer, q);
    assert longer[..|polls|] == polls;
    ChronologicalAppend(polls, q, row);
  }

  lemma StillOrdered(polls: seq<Schedule.FeedPoll>, row: Schedule.FeedPoll, feed: FeedId)
    requires Chronological(polls, Schedule.PollReading(feed)) && NewestOf(polls, row.feed, row.at)
    ensures Chronological(polls + [row], Schedule.PollReading(feed))
  {
    var q, longer := Schedule.PollReading(feed), polls + [row];
    forall i, j | 0 <= i < j < |longer| && q.scope(longer[i]) && q.scope(longer[j])
      ensures q.at(longer[i]) < q.at(longer[j])
    {
      if j < |polls| {
        assert q.scope(polls[i]) && q.scope(polls[j]);
      }
    }
  }

  /** Away from the log, only being chosen adds to what is pending. */
  lemma PendingStep(c: Config, s: State, step: Step, feed: FeedId)
    requires Locked(s.queue, c.hostOf, c.sweeps) && Enabled(c, s, step) && !step.Record?
    ensures Pending(Next(c, s, step).queue, c.hostOf, feed) <= Pending(s.queue, c.hostOf, feed)
         || Failures(s, feed) < c.settings.maxConsecutiveFailures
  {
    match step
    case Sweep(_, batch, ready) =>
      DeferAllKeys(s.queue.waiting, batch, ready);
      assert Claiming(Next(c, s, step).queue, feed) == Claiming(s.queue, feed);
    case Choose(sweep, _, batch) => SelectStep(s.queue, c.hostOf, sweep, batch, feed);
    case Enqueue(sweep, readyAt) => DeferStep(s.queue, c.hostOf, sweep, readyAt, feed);
    case Begin(started) => StartStep(s.queue, c.hostOf, started, feed);
    case Abort(host) => FinishStep(s.queue, c.hostOf, host, feed);
    case _ =>
  }

  lemma FailuresStep(c: Config, s: State, step: Step, feed: FeedId)
    requires Kept(c, s) && Enabled(c, s, step)
    ensures Bounded(Failures(Next(c, s, step), feed), Pending(Next(c, s, step).queue, c.hostOf, feed), Cap(c), c.sweeps)
  {
    assert Bounded(Failures(s, feed), Pending(s.queue, c.hostOf, feed), Cap(c), c.sweeps);
    if step.Record? {
      RecordStep(c, s, step, feed);
      FinishStep(s.queue, c.hostOf, step.host, feed);
      ClaimingFits(s.queue, feed);
    } else {
      PendingStep(c, s, step, feed);
    }
  }

  lemma KeptStep(c: Config, s: State, step: Step)
    requires Kept(c, s) && Enabled(c, s, step)
    ensures Kept(c, Next(c, s, step))
  {
    var t := Next(c, s, step);
    LockedStep(c, s, step);
    forall feed: FeedId
      ensures Bounded(Failures(t, feed), Pending(t.queue, c.hostOf, feed), Cap(c), c.sweeps)
      ensures Chronological(t.polls, Schedule.PollReading(feed))
    {
      FailuresStep(c, s, step, feed);
      if step.Record? { RecordStep(c, s, step, feed); }
    }
  }

  // -------------------------------------------------------------------------------------
  // Every run.

  lemma {:induction false} EveryRunKept(c: Config, start: State, steps: seq<Step>)
    requires Kept(c, start) && Play(c, start, steps).Some?
    ensures Kept(c, Play(c, start, steps).value)
  {
    if steps != [] {
      var n := |steps| - 1;
      EveryRunKept(c, start, steps[..n]);
      KeptStep(c, Play(c, start, steps[..n]).value, steps[n]);
    }
  }

  /** Nothing polled yet and nothing queued. */
  function Initial(now: Time, feeds: FeedId -> Columns): State {
    State(now, [], feeds, Idle(), map[])
  }

  /** In every interleaving a feed's failure run stays within `max_consecutive_failures`, one
      more for the job that was running when a sweep last chose the feed, and one for each sweep
      that can be between choosing and queueing. */
  lemma FailureRunIsBounded(c: Config, now: Time, feeds: FeedId -> Columns, steps: seq<Step>, feed: FeedId)
    requires Play(c, Initial(now, feeds), steps).Some?
    ensures Failures(Play(c, Initial(now, feeds), steps).value, feed) <= Cap(c) + 1 + c.sweeps
  {
    EveryRunKept(c, Initial(now, feeds), steps);
    var s := Play(c, Initial(now, feeds), steps).value;
    assert Bounded(Failures(s, feed), Pending(s.queue, c.hostOf, feed), Cap(c), c.sweeps);
  }

  ghost predicate GivenUp(c: Config, s: State, feed: FeedId) {
    Failures(s, feed) >= c.settings.maxConsecutiveFailures && Pending(s.queue, c.hostOf, feed) == 0
  }

  function PollsOf(polls: seq<Schedule.FeedPoll>, feed: FeedId): seq<Schedule.FeedPoll> {
    if polls == [] then []
    else PollsOf(polls[..|polls| - 1], feed) + if polls[|polls| - 1].feed == feed then [polls[|polls| - 1]] else []
  }

  lemma GivenUpStep(c: Config, s: State, step: Step, feed: FeedId)
    requires Kept(c, s) && GivenUp(c, s, feed) && Enabled(c, s, step)
    ensures GivenUp(c, Next(c, s, step), feed) && PollsOf(Next(c, s, step).polls, feed) == PollsOf(s.polls, feed)
  {
    if step.Record? {
      RecordStep(c, s, step, feed);
      FinishStep(s.queue, c.hostOf, step.host, feed);
      var row := RowAdded(c, s, step.host, step.event);
      assert (s.polls + [row])[..|s.polls|] == s.polls;
    } else {
      PendingStep(c, s, step, feed);
    }
  }

  /** Giving up is for good though nothing stores it: once a feed's run has reached the limit and
      its jobs are through, no run of sweeps and jobs ever polls it again. */
  lemma {:induction false} GivenUpForGood(c: Config, s: State, steps: seq<Step>, feed: FeedId)
    requires Kept(c, s) && GivenUp(c, s, feed) && Play(c, s, steps).Some?
    ensures var t := Play(c, s, steps).value; GivenUp(c, t, feed) && PollsOf(t.polls, feed) == PollsOf(s.polls, feed)
  {
    if steps != [] {
      var n := |steps| - 1;
      EveryRunKept(c, s, steps[..n]);
      GivenUpForGood(c, s, steps[..n], feed);
      GivenUpStep(c, Play(c, s, steps[..n]).value, steps[n], feed);
    }
  }
}
