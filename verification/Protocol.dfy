/** Sweeps, queue, jobs and breaker together, as interleaved steps: `schedule_captures` and
    `capture_page` of `tasks/extract.py`, over `extract/due.py`, `extract/capture.py` and
    `tasks/sweep.py`. Each transaction is one step. */
module Protocol {
  import opened Wrappers
  import opened RunLog
  import opened Backoff
  import opened Capture
  import opened Jobs

  /** `hostOf` is the politeness group of a version's page; `sweeps` is how many sweeps may be
      between choosing a batch and having queued it. */
  datatype Config = Config(settings: ExtractSettings, hostOf: Version -> Host, sweeps: nat)

  /** A running job has read the rules, has been let past the breaker, or has sent its request. */
  datatype Phase = Checking | Cleared | Sent

  /** A request that left: to whom, when, and how much of the log there was. */
  datatype Request = Request(host: Host, at: Time, logLength: nat)

  datatype State = State(
    now: Time,
    log: seq<PageCapture>,
    queue: Queue<Version>,
    phase: map<Host, Phase>,
    requests: seq<Request>)

  datatype Step =
    | Tick(to: Time)
    | Sweep(facts: Version -> Facts, batch: seq<Version>, ready: seq<Time>)
    | Choose(sweep: nat, facts: Version -> Facts, batch: seq<Version>)
    | Enqueue(sweep: nat, readyAt: Time)
    | Begin(version: Version)
    | Decline(host: Host, declined: CaptureOutcome)
    | Check(host: Host)
    | Send(host: Host)
    // A response's status, or none from a fetch that raised.
    | Answer(host: Host, status: Option<int>)
    // It led to a host whose rules refuse the page.
    | Redirected(host: Host)
    | Abort(host: Host)

  function Initial(now: Time): State {
    State(now, [], Idle(), map[], [])
  }

  ghost predicate AllDue(c: Config, s: State, facts: Version -> Facts, batch: seq<Version>) {
    NoRepeats(batch) && forall v :: v in batch ==> c.hostOf(v) != "" && Due(s.log, v, c.hostOf(v), facts(v), c.settings, s.now)
  }

  predicate InPhase(s: State, host: Host, phase: Phase) {
    host in s.queue.running && host in s.phase && s.phase[host] == phase
  }

  ghost predicate Enabled(c: Config, s: State, step: Step) {
    match step
    case Tick(to) => s.now < to
    case Sweep(facts, batch, ready) => AllDue(c, s, facts, batch) && |ready| == |batch|
    case Choose(sweep, facts, batch) =>
      AllDue(c, s, facts, batch) && batch != [] && sweep !in s.queue.claims && |s.queue.claims| < c.sweeps
    case Enqueue(sweep, readyAt) => sweep in s.queue.claims && s.queue.claims[sweep] != []
    case Begin(v) => v in s.queue.waiting && s.queue.waiting[v] <= s.now && c.hostOf(v) !in s.queue.running
    case Decline(host, declined) =>
      InPhase(s, host, Checking) && declined in {UNKNOWN_RULES, DISALLOWED} && OlderThan(s.log, host, s.now)
    case Check(host) => InPhase(s, host, Checking) && OlderThan(s.log, host, s.now)
    case Send(host) => InPhase(s, host, Cleared)
    case Answer(host, _) => InPhase(s, host, Sent) && OlderThan(s.log, host, s.now)
    case Redirected(host) => InPhase(s, host, Sent) && OlderThan(s.log, host, s.now)
    case Abort(host) => host in s.queue.running
  }

  /** One row for the visit, and the job is over. */
  function Stored(s: State, host: Host, outcome: CaptureOutcome): State
    requires host in s.queue.running
  {
    s.(log := s.log + [PageCapture(s.queue.running[host], host, s.now, outcome, CAPTURE_POLICY)],
       queue := Finish(s.queue, host), phase := s.phase - {host})
  }

  ghost function Next(c: Config, s: State, step: Step): State
    requires Enabled(c, s, step)
  {
    match step
    case Tick(to) => s.(now := to)
    case Sweep(_, batch, ready) => s.(queue := s.queue.(waiting := DeferAll(s.queue.waiting, batch, ready)))
    case Choose(sweep, _, batch) => s.(queue := Select(s.queue, sweep, batch))
    case Enqueue(sweep, readyAt) => s.(queue := Defer(s.queue, sweep, readyAt))
    case Begin(v) => s.(queue := Start(s.queue, v, c.hostOf(v)), phase := s.phase[c.hostOf(v) := Checking])
    case Decline(host, declined) => Stored(s, host, declined)
    case Check(host) =>
      if Refusing(s.log, host, c.settings, s.now) then Stored(s, host, REFUSED) else s.(phase := s.phase[host := Cleared])
    case Send(host) =>
      s.(phase := s.phase[host := Sent], requests := s.requests + [Request(host, s.now, |s.log|)])
    case Answer(host, status) => Stored(s, host, OutcomeFor(status))
    case Redirected(host) => Stored(s, host, DISALLOWED)
    case Abort(host) => s.(queue := Finish(s.queue, host), phase := s.phase - {host})
  }

  /** Where a list of steps leads, None when some step of it is not enabled. */
  ghost function Play(c: Config, s: State, steps: seq<Step>): Option<State> {
    if steps == [] then Some(s)
    else
      var before, step := Play(c, s, steps[..|steps| - 1]), steps[|steps| - 1];
      if before.Some? && Enabled(c, before.value, step) then Some(Next(c, before.value, step)) else None
  }

  /** Some interleaving leads here from an empty log. */
  ghost predicate Reachable(c: Config, s: State) {
    exists start, steps :: Play(c, Initial(start), steps) == Some(s)
  }

  // -------------------------------------------------------------------------------------
  // What every step keeps: the queue and the log.

  ghost predicate QueueKept(c: Config, s: State) {
    && Locked(s.queue, c.hostOf, c.sweeps)
    && s.phase.Keys == s.queue.running.Keys
  }

  ghost predicate LogKept(s: State) {
    && (forall i :: 0 <= i < |s.log| ==> s.log[i].at <= s.now)
    && (forall host :: Chronological(s.log, HostReading(host)))
  }

  lemma QueueStep(c: Config, s: State, step: Step)
    requires QueueKept(c, s) && Enabled(c, s, step)
    ensures QueueKept(c, Next(c, s, step))
  {
    match step
    case Choose(sweep, _, batch) => SelectStep(s.queue, c.hostOf, sweep, batch, 0);
    case Enqueue(sweep, readyAt) =>
      DeferStep(s.queue, c.hostOf, sweep, readyAt, 0);
      EnqueueKeeps(c, s, sweep, readyAt);
    case Begin(v) => BeginKeeps(c, s, v);
    case _ => OthersKeep(c, s, step);
  }

  lemma OthersKeep(c: Config, s: State, step: Step)
    requires QueueKept(c, s) && Enabled(c, s, step)
    requires !step.Choose? && !step.Enqueue? && !step.Begin?
    ensures QueueKept(c, Next(c, s, step))
  {
    assert Next(c, s, step).queue.claims == s.queue.claims;
  }

  lemma EnqueueKeeps(c: Config, s: State, sweep: nat, readyAt: Time)
    requires QueueKept(c, s) && sweep in s.queue.claims && s.queue.claims[sweep] != []
    ensures var claims := Defer(s.queue, sweep, readyAt).claims;
      forall id :: id in claims ==> claims[id] != [] && NoRepeats(claims[id])
  {
  }

  lemma BeginKeeps(c: Config, s: State, v: Version)
    requires QueueKept(c, s) && v in s.queue.waiting
    ensures var q := Start(s.queue, v, c.hostOf(v));
      && (forall host :: host in q.running ==> c.hostOf(q.running[host]) == host)
      && s.phase[c.hostOf(v) := Checking].Keys == q.running.Keys
  {
  }

  /** A step either leaves the log alone or appends one row, of a job that was running. */
  ghost predicate Appends(s: State, t: State, host: Host, outcome: CaptureOutcome) {
    && host in s.queue.running
    && OlderThan(s.log, host, s.now)
    && t.log == s.log + [PageCapture(s.queue.running[host], host, s.now, outcome, CAPTURE_POLICY)]
  }

  function Recording(c: Config, s: State, step: Step): Option<(Host, CaptureOutcome)> {
    match step
    case Decline(host, declined) => Some((host, declined))
    case Check(host) => if Refusing(s.log, host, c.settings, s.now) then Some((host, REFUSED)) else None
    case Answer(host, status) => Some((host, OutcomeFor(status)))
    case Redirected(host) => Some((host, DISALLOWED))
    case _ => None
  }

  lemma RecordingIs(c: Config, s: State, step: Step)
    requires Enabled(c, s, step)
    ensures var r := Recording(c, s, step);
      if r.Some? then Appends(s, Next(c, s, step), r.value.0, r.value.1) && Next(c, s, step) == Stored(s, r.value.0, r.value.1)
      else Next(c, s, step).log == s.log
  {
  }

  lemma OtherHost(log: seq<PageCapture>, row: PageCapture, host: Host)
    requires Chronological(log, HostReading(host)) && row.host != host
    ensures Chronological(log + [row], HostReading(host))
  {
    var q, longer := HostReading(host), log + [row];
    forall i, j | 0 <= i < j < |longer| && q.scope(longer[i]) && q.scope(longer[j])
      ensures q.at(longer[i]) < q.at(longer[j])
    {
      assert q.scope(log[i]) && q.scope(log[j]);
    }
  }

  lemma LogStep(c: Config, s: State, step: Step)
    requires LogKept(s) && Enabled(c, s, step)
    ensures LogKept(Next(c, s, step))
  {
    RecordingIs(c, s, step);
    var t, r := Next(c, s, step), Recording(c, s, step);
    if r.Some? {
      var row := t.log[|s.log|];
      forall host ensures Chronological(t.log, HostReading(host)) {
        if host == row.host { ChronologicalHost(s.log, host, row); } else { OtherHost(s.log, row, host); }
      }
    }
  }

  // -------------------------------------------------------------------------------------
  // The breaker.

  /** When this request left, its host was open, or the probe's wait was over. */
  ghost predicate Paced(c: Config, log: seq<PageCapture>, r: Request)
    requires r.logLength <= |log|
  {
    !Refusing(log[..r.logLength], r.host, c.settings, r.at)
  }

  ghost predicate RequestsKept(c: Config, s: State) {
    && (forall host :: host in s.phase && s.phase[host] == Cleared ==> !Refusing(s.log, host, c.settings, s.now))
    && (forall i :: 0 <= i < |s.requests| ==> RequestKept(c, s, s.requests[i]))
  }

  ghost predicate RequestKept(c: Config, s: State, r: Request) {
    && r.logLength <= |s.log| && r.at <= s.now
    && Paced(c, s.log, r)
    && (forall n :: r.logLength <= n < |s.log| ==> r.at <= s.log[n].at)
  }

  lemma RequestStays(c: Config, s: State, t: State, r: Request)
    requires RequestKept(c, s, r) && s.now <= t.now
    requires t.log == s.log || (|t.log| == |s.log| + 1 && t.log[..|s.log|] == s.log && t.log[|s.log|].at == s.now)
    ensures RequestKept(c, t, r)
  {
    assert t.log[..r.logLength] == s.log[..r.logLength];
  }

  lemma RequestsStep(c: Config, s: State, step: Step)
    requires QueueKept(c, s) && RequestsKept(c, s) && Enabled(c, s, step)
    ensures RequestsKept(c, Next(c, s, step))
  {
    RecordingIs(c, s, step);
    var t := Next(c, s, step);
    forall i | 0 <= i < |t.requests| ensures RequestKept(c, t, t.requests[i]) {
      if i < |s.requests| {
        RequestStays(c, s, t, s.requests[i]);
      } else {
        assert s.log[..|s.log|] == s.log;
      }
    }
    forall host | host in t.phase && t.phase[host] == Cleared ensures !Refusing(t.log, host, c.settings, t.now) {
      ClearedStays(c, s, step, host);
    }
  }

  /** Only this host's running job appends rows of this host, so what the breaker answered that
      job still holds when it sends. */
  lemma ClearedStays(c: Config, s: State, step: Step, host: Host)
    requires RequestsKept(c, s) && Enabled(c, s, step)
    requires host in Next(c, s, step).phase && Next(c, s, step).phase[host] == Cleared
    ensures !Refusing(Next(c, s, step).log, host, c.settings, Next(c, s, step).now)
  {
    var t, r := Next(c, s, step), Recording(c, s, step);
    RecordingIs(c, s, step);
    ClearedBefore(c, s, step, host);
    if r.Some? {
      DeclinesMoveNothing(s.log, t.log[|s.log|], host);
    } else {
      WaitOnlyShortens(s.log, host, c.settings, s.now, t.now);
    }
  }

  lemma ClearedBefore(c: Config, s: State, step: Step, host: Host)
    requires RequestsKept(c, s) && Enabled(c, s, step)
    requires host in Next(c, s, step).phase && Next(c, s, step).phase[host] == Cleared
    ensures !Refusing(s.log, host, c.settings, s.now)
    ensures s.now <= Next(c, s, step).now && (Recording(c, s, step).Some? ==>
      Recording(c, s, step).value.0 != host && Next(c, s, step).now == s.now)
  {
  }

  // -------------------------------------------------------------------------------------
  // The bound on tries.

  function Cap(s: ExtractSettings): nat {
    if s.captureRetry.maxFailures < 1 then 1 else s.captureRetry.maxFailures
  }

  ghost predicate TriesKept(c: Config, s: State) {
    forall v: Version ::
      Bounded(|Tries(s.log, v)|, Pending(s.queue, c.hostOf, v), Cap(c.settings), c.sweeps)
  }

  lemma TriesAppend(log: seq<PageCapture>, row: PageCapture, v: Version)
    requires row.policy == CAPTURE_POLICY
    ensures |Tries(log + [row], v)| == |Tries(log, v)| + if row.version == v && row.outcome == FAILED then 1 else 0
  {
    assert (log + [row])[..|log|] == log;
  }

  lemma PendingFits(c: Config, s: State, v: Version)
    requires QueueKept(c, s)
    ensures Pending(s.queue, c.hostOf, v) <= c.sweeps + 2
  {
    ClaimingFits(s.queue, v);
  }

  lemma TriesStep(c: Config, s: State, step: Step)
    requires QueueKept(c, s) && TriesKept(c, s) && Enabled(c, s, step)
    ensures TriesKept(c, Next(c, s, step))
  {
    var t, r := Next(c, s, step), Recording(c, s, step);
    RecordingIs(c, s, step);
    forall v: Version
      ensures Bounded(|Tries(t.log, v)|, Pending(t.queue, c.hostOf, v), Cap(c.settings), c.sweeps)
    {
      assert Bounded(|Tries(s.log, v)|, Pending(s.queue, c.hostOf, v), Cap(c.settings), c.sweeps);
      if r.Some? {
        PendingFits(c, s, v);
        TriesAppend(s.log, t.log[|s.log|], v);
        FinishStep(s.queue, c.hostOf, r.value.0, v);
      } else {
        PendingStep(c, s, step, v);
        if Choosable(c, s, v) { ChoosableHasTries(c, s, v); }
      }
    }
  }

  /** Some sweep could choose this version now. */
  ghost predicate Choosable(c: Config, s: State, v: Version) {
    exists facts :: Due(s.log, v, c.hostOf(v), facts, c.settings, s.now)
  }

  lemma ChoosableHasTries(c: Config, s: State, v: Version)
    requires Choosable(c, s, v)
    ensures |Tries(s.log, v)| < Cap(c.settings)
    ensures forall i :: 0 <= i < |s.log| && s.log[i].version == v ==> s.log[i].outcome != OK
  {
  }

  lemma InBatch(c: Config, s: State, facts: Version -> Facts, batch: seq<Version>, v: Version)
    requires AllDue(c, s, facts, batch) && v in batch
    ensures Choosable(c, s, v)
  {
    assert Due(s.log, v, c.hostOf(v), facts(v), c.settings, s.now);
  }

  /** Away from the log, only being chosen adds to what is pending. */
  lemma PendingStep(c: Config, s: State, step: Step, v: Version)
    requires QueueKept(c, s) && Enabled(c, s, step) && Recording(c, s, step).None?
    ensures Pending(Next(c, s, step).queue, c.hostOf, v) <= Pending(s.queue, c.hostOf, v) || Choosable(c, s, v)
  {
    match step
    case Sweep(facts, batch, ready) =>
      DeferAllKeys(s.queue.waiting, batch, ready);
      assert Claiming(Next(c, s, step).queue, v) == Claiming(s.queue, v);
      if v in batch { InBatch(c, s, facts, batch, v); }
    case Choose(sweep, facts, batch) =>
      SelectStep(s.queue, c.hostOf, sweep, batch, v);
      if v in batch { InBatch(c, s, facts, batch, v); }
    case Enqueue(sweep, readyAt) => DeferStep(s.queue, c.hostOf, sweep, readyAt, v);
    case Begin(started) => StartStep(s.queue, c.hostOf, started, v);
    case Abort(host) => FinishStep(s.queue, c.hostOf, host, v);
    case _ =>
  }

  // -------------------------------------------------------------------------------------
  // Every run.

  ghost predicate Kept(c: Config, s: State) {
    QueueKept(c, s) && LogKept(s) && RequestsKept(c, s) && TriesKept(c, s)
  }

  lemma {:induction false} EveryRunKept(c: Config, start: Time, steps: seq<Step>)
    requires Play(c, Initial(start), steps).Some?
    ensures Kept(c, Play(c, Initial(start), steps).value)
  {
    if steps != [] {
      var init, step := steps[..|steps| - 1], steps[|steps| - 1];
      EveryRunKept(c, start, init);
      var s := Play(c, Initial(start), init).value;
      QueueStep(c, s, step);
      LogStep(c, s, step);
      RequestsStep(c, s, step);
      TriesStep(c, s, step);
    }
  }

  lemma ReachableKept(c: Config, s: State)
    requires Reachable(c, s)
    ensures Kept(c, s)
  {
    var start, steps :| Play(c, Initial(start), steps) == Some(s);
    EveryRunKept(c, start, steps);
  }

  /** In every interleaving, a version collects at most `max_failures` FAILED visits, one more
      for the job that was running when a sweep last chose it, and one for each sweep that can be
      between choosing and queueing. */
  lemma TriesAreBounded(c: Config, s: State, v: Version)
    requires Reachable(c, s)
    ensures |Tries(s.log, v)| <= Cap(c.settings) + 1 + c.sweeps
  {
    ReachableKept(c, s);
  }

  /** In every interleaving, every request to a host whose failures have reached the threshold
      left at least the probe's wait after the last of them. */
  lemma RequestsArePaced(c: Config, s: State, i: nat)
    requires Reachable(c, s) && i < |s.requests|
    ensures var r := s.requests[i];
      && r.logLength <= |s.log|
      && var run := HostRun(s.log[..r.logLength], r.host);
         run.length >= c.settings.hostFailureThreshold && run.latest.Some? ==>
           r.at >= run.latest.value + Seconds(c.settings.hostProbe, run.length - c.settings.hostFailureThreshold)
  {
    ReachableKept(c, s);
    assert RequestKept(c, s, s.requests[i]);
  }

  lemma PrefixChronological(log: seq<PageCapture>, host: Host, n: nat)
    requires Chronological(log, HostReading(host)) && n <= |log|
    ensures Chronological(log[..n], HostReading(host))
  {
    var q := HostReading(host);
    forall i, j | 0 <= i < j < n && q.scope(log[..n][i]) && q.scope(log[..n][j])
      ensures q.at(log[..n][i]) < q.at(log[..n][j])
    {
      assert q.scope(log[i]) && q.scope(log[j]);
    }
  }

  lemma LeftBefore(c: Config, s: State, r: Request, k: nat)
    requires Reachable(c, s) && r in s.requests && r.logLength <= k < |s.log|
    ensures r.at <= s.log[k].at
  {
    ReachableKept(c, s);
    var i :| 0 <= i < |s.requests| && s.requests[i] == r;
    assert RequestKept(c, s, s.requests[i]);
  }

  lemma ClockIsBehind(c: Config, s: State, host: Host, k: nat, n: nat)
    requires Reachable(c, s) && k < n <= |s.log| && HostRun(s.log[..n], host).length > 0
    requires s.log[k].host == host && s.log[k].policy == CAPTURE_POLICY && s.log[k].outcome == FAILED
    ensures HostRun(s.log[..n], host).latest.Some? && s.log[k].at <= HostRun(s.log[..n], host).latest.value
  {
    ReachableKept(c, s);
    PrefixChronological(s.log, host, n);
    FailureIsBehind(s.log[..n], host, k);
  }

  /** So two requests to a shut host, with a FAILED visit recorded between them, are at least
      that wait apart, whatever else was queued for the host. */
  lemma FailedProbesAreApart(c: Config, s: State, first: Request, second: Request, k: nat)
    requires Reachable(c, s) && first in s.requests && second in s.requests && first.host == second.host
    requires c.settings.hostFailureThreshold > 0
    requires first.logLength <= k < second.logLength <= |s.log|
    requires s.log[k].host == first.host && s.log[k].policy == CAPTURE_POLICY && s.log[k].outcome == FAILED
    requires HostRun(s.log[..second.logLength], first.host).length >= c.settings.hostFailureThreshold
    ensures second.at - first.at >= Seconds(c.settings.hostProbe,
      HostRun(s.log[..second.logLength], first.host).length - c.settings.hostFailureThreshold)
  {
    var j :| 0 <= j < |s.requests| && s.requests[j] == second;
    LeftBefore(c, s, first, k);
    ClockIsBehind(c, s, first.host, k, second.logLength);
    RequestsArePaced(c, s, j);
  }

  // -------------------------------------------------------------------------------------
  // When a version is done with.

  /** Its page was captured, or its tries are spent, and no job for it is left. */
  ghost predicate Over(c: Config, s: State, v: Version) {
    && Pending(s.queue, c.hostOf, v) == 0
    && (|Tries(s.log, v)| >= Cap(c.settings) || exists i :: 0 <= i < |s.log| && s.log[i].version == v && s.log[i].outcome == OK)
  }

  function Visits(log: seq<PageCapture>, v: Version): seq<PageCapture> {
    if log == [] then []
    else Visits(log[..|log| - 1], v) + if log[|log| - 1].version == v then [log[|log| - 1]] else []
  }

  lemma OverIsNotChosen(c: Config, s: State, v: Version)
    requires Over(c, s, v)
    ensures !Choosable(c, s, v)
  {
    if Choosable(c, s, v) { ChoosableHasTries(c, s, v); }
  }

  lemma OverStep(c: Config, s: State, step: Step, v: Version)
    requires QueueKept(c, s) && Enabled(c, s, step) && Over(c, s, v)
    ensures Over(c, Next(c, s, step), v) && Visits(Next(c, s, step).log, v) == Visits(s.log, v)
  {
    var t, r := Next(c, s, step), Recording(c, s, step);
    RecordingIs(c, s, step);
    if r.Some? {
      RecordOver(c, s, r.value.0, t.log[|s.log|], v);
      FinishStep(s.queue, c.hostOf, r.value.0, v);
    } else {
      PendingStep(c, s, step, v);
      OverIsNotChosen(c, s, v);
    }
  }

  /** A row is its host's running job's, and that job is not for this version. */
  lemma RecordOver(c: Config, s: State, host: Host, row: PageCapture, v: Version)
    requires QueueKept(c, s) && Over(c, s, v) && host in s.queue.running
    requires row.version == s.queue.running[host] && row.policy == CAPTURE_POLICY
    ensures row.version != v
    ensures Visits(s.log + [row], v) == Visits(s.log, v) && |Tries(s.log + [row], v)| == |Tries(s.log, v)|
    ensures forall i :: 0 <= i < |s.log| ==> (s.log + [row])[i] == s.log[i]
  {
    assert c.hostOf(s.queue.running[host]) == host;
    assert (s.log + [row])[..|s.log|] == s.log;
    TriesAppend(s.log, row, v);
  }

  /** Once a version's page is captured or its tries are spent, and its jobs are through, no run
      of sweeps and jobs visits it again. */
  lemma {:induction false} OverForGood(c: Config, s: State, steps: seq<Step>, v: Version)
    requires QueueKept(c, s) && Over(c, s, v) && Play(c, s, steps).Some?
    ensures var t := Play(c, s, steps).value;
      QueueKept(c, t) && Over(c, t, v) && Visits(t.log, v) == Visits(s.log, v)
  {
    if steps != [] {
      var init, step := steps[..|steps| - 1], steps[|steps| - 1];
      OverForGood(c, s, init, v);
      var t := Play(c, s, init).value;
      QueueStep(c, t, step);
      OverStep(c, t, step, v);
    }
  }
}
