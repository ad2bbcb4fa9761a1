/** What the log of visits itself shows of the two waits: a page's after its failures, and a host's
    once it has refused too often. */
module Politeness {
  import opened Wrappers
  import opened RunLog
  import opened Backoff
  import opened Capture
  import opened Protocol
  import Numerals
  import Jobs

  // -------------------------------------------------------------------------------------
  // A host.

  /** The visits to a host that failed, with none that succeeded at or after them. */
  ghost function HostFailures(log: seq<PageCapture>, host: Host): set<nat> {
    set i: nat | i < |log| && StillFailing(log, host, i)
  }

  ghost predicate StillFailing(log: seq<PageCapture>, host: Host, i: nat)
    requires i < |log|
  {
    && log[i].host == host && log[i].policy == CAPTURE_POLICY && log[i].outcome == FAILED
    && forall j :: 0 <= j < |log| && log[j].host == host && log[j].policy == CAPTURE_POLICY && log[j].outcome == OK ==>
         log[j].at < log[i].at
  }

  /** Enough of them, and the wait after one of them not over. */
  ghost predicate Shut(log: seq<PageCapture>, host: Host, s: ExtractSettings, now: Time) {
    var failed := HostFailures(log, host);
    && |failed| >= s.hostFailureThreshold
    && exists i :: i in failed && now < log[i].at + Seconds(s.hostProbe, |failed| - s.hostFailureThreshold)
  }

  lemma HostFailuresStand(log: seq<PageCapture>, host: Host)
    ensures HostFailures(log, host) == Standing(log, HostReading(host))
  {
    var q := HostReading(host);
    forall i: nat | i < |log| ensures StillFailing(log, host, i) <==> Stands(log, q, i) {
      if StillFailing(log, host, i) {
        forall j | 0 <= j < |log| && q.scope(log[j]) && q.resets(log[j]) ensures q.at(log[j]) < q.at(log[i]) {
        }
      }
      if Stands(log, q, i) {
        forall j | 0 <= j < |log| && log[j].host == host && log[j].policy == CAPTURE_POLICY && log[j].outcome == OK
          ensures log[j].at < log[i].at
        {
          assert q.scope(log[j]) && q.resets(log[j]);
        }
      }
    }
  }

  /** A host refuses exactly while it is shut: its failures since it last succeeded have reached the
      threshold, and the probe's wait, one step longer for each past it, is not over. */
  lemma RefusingIsShut(log: seq<PageCapture>, host: Host, s: ExtractSettings, now: Time)
    ensures Refusing(log, host, s, now) <==> Shut(log, host, s, now)
  {
    HostFailuresStand(log, host);
    RunIsStanding(log, HostReading(host));
  }

  // -------------------------------------------------------------------------------------
  // A page.

  /** The visits to one version that failed. */
  ghost function Failures(log: seq<PageCapture>, version: Version): set<nat> {
    set i: nat | i < |log| && log[i].version == version && log[i].policy == CAPTURE_POLICY && log[i].outcome == FAILED
  }

  /** Tries are left, and the wait after each of those there were is over. */
  ghost predicate Waited(log: seq<PageCapture>, version: Version, s: ExtractSettings, now: Time) {
    var failed := Failures(log, version);
    && (failed != {} ==> |failed| < s.captureRetry.maxFailures)
    && forall i :: i in failed ==> now >= log[i].at + Seconds(s.captureRetry, |failed|)
  }

  /** No visit to it succeeded, went to a host that is shut, was refused by rules not read again
      since, or found rules never read. */
  ghost predicate Unsettled(log: seq<PageCapture>, version: Version, facts: Facts, s: ExtractSettings, now: Time) {
    forall i :: 0 <= i < |log| && log[i].version == version ==>
      && log[i].outcome != OK
      && !Shut(log, log[i].host, s, now)
      && (log[i].outcome == DISALLOWED && log[i].host in facts.rulesRead ==> log[i].at <= facts.rulesRead[log[i].host])
      && (log[i].outcome == UNKNOWN_RULES ==> log[i].host in facts.rulesRead)
  }

  /** Everything there is to say for asking, but for how earlier visits failed. */
  ghost predicate Eligible(log: seq<PageCapture>, version: Version, host: Host, facts: Facts, s: ExtractSettings, now: Time) {
    && facts.subscribed && facts.isHead && !facts.blocked && host in facts.rulesRead
    && facts.versionCount <= s.maxVersionsPerItem
    && (facts.first || now - facts.observedAt >= s.settleSeconds as real)
    && Unsettled(log, version, facts, s, now)
  }

  lemma TriesAreFailures(log: seq<PageCapture>, version: Version)
    ensures var tries, failed := Tries(log, version), Failures(log, version);
      var latest := Latest(tries, TriedReading(version));
      && |tries| == |failed| && (latest.Some? <==> failed != {})
      && (forall i :: i in failed ==> log[i].at <= latest.value)
      && (failed != {} ==> exists i :: i in failed && log[i].at == latest.value)
  {
    PlacesBound(log, TriedReading(version), None);
    assert Failures(log, version) == Places(log, TriedReading(version), None);
  }

  lemma WaitedIs(log: seq<PageCapture>, version: Version, s: ExtractSettings, now: Time)
    requires Tries(log, version) != []
    ensures Failures(log, version) != {}
    ensures var tries := Tries(log, version);
      Waited(log, version, s, now) <==>
        && |tries| < s.captureRetry.maxFailures
        && DueAt(Latest(tries, TriedReading(version)).value, s.captureRetry, |tries|) <= now
  {
    TriesAreFailures(log, version);
  }

  lemma UnsettledIs(log: seq<PageCapture>, version: Version, facts: Facts, s: ExtractSettings, now: Time)
    ensures Unsettled(log, version, facts, s, now)
       <==> forall i :: 0 <= i < |log| && log[i].version == version ==> !SettledBy(log[i], log, facts, s, now)
  {
    forall i | 0 <= i < |log| ensures Refusing(log, log[i].host, s, now) <==> Shut(log, log[i].host, s, now) {
      RefusingIsShut(log, log[i].host, s, now);
    }
  }

  /** A page is due exactly when it is eligible, tries are left, and every failed visit to it is
      behind it by the backoff for as many as there were. */
  lemma DueWhenWaited(log: seq<PageCapture>, version: Version, host: Host, facts: Facts, s: ExtractSettings, now: Time)
    ensures Due(log, version, host, facts, s, now)
       <==> Eligible(log, version, host, facts, s, now) && Waited(log, version, s, now)
  {
    UnsettledIs(log, version, facts, s, now);
    TriesAreFailures(log, version);
    if Tries(log, version) != [] { WaitedIs(log, version, s, now); }
  }

  /** As shipped: nine hundred seconds tripled for each failed visit to a page, eighteen hundred
      doubled for each failure of a host past the fifth, neither past a day. */
  lemma ShippedWaits(failures: nat)
    ensures Seconds(SHIPPED.captureRetry, failures) == Lesser(900 * Numerals.Power(3, failures), 86400) as real
    ensures Seconds(SHIPPED.hostProbe, failures) == Lesser(1800 * Numerals.Power(2, failures), 86400) as real
  {
    WholeWaits(SHIPPED.captureRetry, 3, 900, failures);
    WholeWaits(SHIPPED.hostProbe, 2, 1800, failures);
    Positive(3, failures);
    Positive(2, failures);
  }

  function Lesser(a: int, b: int): int {
    if b < a then b else a
  }

  lemma {:induction false} Positive(base: nat, n: nat)
    requires base > 0
    ensures Numerals.Power(base, n) >= 1
  {
    if n > 0 { Positive(base, n - 1); }
  }

  // -------------------------------------------------------------------------------------
  // Every run.

  lemma {:induction false} PrefixPlays(c: Config, s: State, steps: seq<Step>, n: nat)
    requires n < |steps| && Play(c, s, steps).Some?
    ensures Play(c, s, steps[..n]).Some? && Enabled(c, Play(c, s, steps[..n]).value, steps[n])
    ensures Play(c, s, steps[..n + 1]) == Some(Next(c, Play(c, s, steps[..n]).value, steps[n]))
  {
    var last := |steps| - 1;
    if n < last {
      PrefixPlays(c, s, steps[..last], n);
      assert steps[..last][..n] == steps[..n] && steps[..last][..n + 1] == steps[..n + 1];
    } else {
      assert steps[..n + 1] == steps;
    }
  }

  /** In every run, whatever a sweep takes has waited out the backoff since each of its failed
      visits, and has tries left. */
  lemma ChosenHaveWaited(c: Config, start: Time, steps: seq<Step>, n: nat, v: Version)
    requires Play(c, Initial(start), steps).Some? && n < |steps|
    requires (steps[n].Sweep? || steps[n].Choose?) && v in steps[n].batch
    ensures Play(c, Initial(start), steps[..n]).Some?
    ensures var s := Play(c, Initial(start), steps[..n]).value;
      && c.hostOf(v) != "" && Eligible(s.log, v, c.hostOf(v), steps[n].facts(v), c.settings, s.now)
      && Waited(s.log, v, c.settings, s.now)
  {
    PrefixPlays(c, Initial(start), steps, n);
    var s := Play(c, Initial(start), steps[..n]).value;
    assert AllDue(c, s, steps[n].facts, steps[n].batch);
    DueWhenWaited(s.log, v, c.hostOf(v), steps[n].facts(v), c.settings, s.now);
  }

  /** In every run, the check before a request to a host lets it past, and writes nothing, exactly
      when the host is not shut: below the threshold, always. */
  lemma OpenHostsAreAsked(c: Config, start: Time, steps: seq<Step>, n: nat, host: Host)
    requires Play(c, Initial(start), steps).Some? && n < |steps| && steps[n] == Check(host)
    ensures Play(c, Initial(start), steps[..n]).Some? && Play(c, Initial(start), steps[..n + 1]).Some?
    ensures var s, t := Play(c, Initial(start), steps[..n]).value, Play(c, Initial(start), steps[..n + 1]).value;
      && (InPhase(t, host, Cleared) && t.log == s.log <==> !Shut(s.log, host, c.settings, s.now))
      && (|HostFailures(s.log, host)| < c.settings.hostFailureThreshold ==> InPhase(t, host, Cleared) && t.log == s.log)
  {
    PrefixPlays(c, Initial(start), steps, n);
    var s := Play(c, Initial(start), steps[..n]).value;
    RefusingIsShut(s.log, host, c.settings, s.now);
  }

  ghost predicate RefusalsJustified(c: Config, log: seq<PageCapture>) {
    forall k :: 0 <= k < |log| && log[k].outcome == REFUSED ==> Shut(log[..k], log[k].host, c.settings, log[k].at)
  }

  lemma RefusalsStep(c: Config, s: State, step: Step)
    requires RefusalsJustified(c, s.log) && Enabled(c, s, step)
    ensures RefusalsJustified(c, Next(c, s, step).log)
  {
    RecordingIs(c, s, step);
    var t := Next(c, s, step);
    forall k | 0 <= k < |t.log| && t.log[k].outcome == REFUSED
      ensures Shut(t.log[..k], t.log[k].host, c.settings, t.log[k].at)
    {
      assert t.log[..k] == s.log[..k];
      if k == |s.log| {
        assert s.log[..k] == s.log;
        RefusingIsShut(s.log, t.log[k].host, c.settings, s.now);
      }
    }
  }

  lemma {:induction false} RefusalsInRun(c: Config, start: Time, steps: seq<Step>)
    requires Play(c, Initial(start), steps).Some?
    ensures RefusalsJustified(c, Play(c, Initial(start), steps).value.log)
  {
    if steps != [] {
      var n := |steps| - 1;
      RefusalsInRun(c, start, steps[..n]);
      RefusalsStep(c, Play(c, Initial(start), steps[..n]).value, steps[n]);
    }
  }

  /** In every reachable state, whenever a visit was refused its host was shut at the time, and so
      had run up the threshold in failures. */
  lemma RefusalsAreJustified(c: Config, s: State, k: nat)
    requires Reachable(c, s) && k < |s.log| && s.log[k].outcome == REFUSED
    ensures Shut(s.log[..k], s.log[k].host, c.settings, s.log[k].at)
  {
    var start, steps :| Play(c, Initial(start), steps) == Some(s);
    RefusalsInRun(c, start, steps);
  }

  /** And whenever a request left its host was not: past the threshold, each failure then standing
      was behind it by the probe's wait. */
  lemma RequestsWaitOut(c: Config, s: State, i: nat)
    requires Reachable(c, s) && i < |s.requests|
    ensures var r := s.requests[i];
      r.logLength <= |s.log| && !Shut(s.log[..r.logLength], r.host, c.settings, r.at)
  {
    ReachableKept(c, s);
    var r := s.requests[i];
    assert RequestKept(c, s, r);
    RefusingIsShut(s.log[..r.logLength], r.host, c.settings, r.at);
  }

  /** A request to this host had left by then, when no more of the log was there. */
  ghost predicate HadAsked(s: State, host: Host, rows: nat, at: Time) {
    exists i :: 0 <= i < |s.requests| && s.requests[i].host == host && s.requests[i].logLength <= rows && s.requests[i].at <= at
  }

  ghost predicate VisitsAsked(s: State) {
    && (forall host :: host in s.phase && s.phase[host] == Sent ==> HadAsked(s, host, |s.log|, s.now))
    && (forall k :: 0 <= k < |s.log| && s.log[k].outcome in {OK, GONE, FAILED} ==> HadAsked(s, s.log[k].host, k, s.log[k].at))
  }

  lemma HadAskedStill(s: State, t: State, host: Host, rows: nat, at: Time, later: nat, then_: Time)
    requires HadAsked(s, host, rows, at) && |s.requests| <= |t.requests| && t.requests[..|s.requests|] == s.requests
    requires rows <= later && at <= then_
    ensures HadAsked(t, host, later, then_)
  {
    var i :| 0 <= i < |s.requests| && s.requests[i].host == host && s.requests[i].logLength <= rows && s.requests[i].at <= at;
    assert t.requests[i] == t.requests[..|s.requests|][i];
  }

  lemma VisitsStep(c: Config, s: State, step: Step)
    requires VisitsAsked(s) && Enabled(c, s, step)
    ensures VisitsAsked(Next(c, s, step))
  {
    RecordingIs(c, s, step);
    var t, r := Next(c, s, step), Recording(c, s, step);
    forall host | host in t.phase && t.phase[host] == Sent ensures HadAsked(t, host, |t.log|, t.now) {
      if step == Send(host) {
        assert t.requests[|s.requests|] == Request(host, s.now, |s.log|);
      } else {
        HadAskedStill(s, t, host, |s.log|, s.now, |t.log|, t.now);
      }
    }
    forall k | 0 <= k < |t.log| && t.log[k].outcome in {OK, GONE, FAILED} ensures HadAsked(t, t.log[k].host, k, t.log[k].at) {
      if k < |s.log| {
        assert t.log[k] == s.log[k];
        HadAskedStill(s, t, s.log[k].host, k, s.log[k].at, k, s.log[k].at);
      } else {
        HadAskedStill(s, t, r.value.0, |s.log|, s.now, k, t.log[k].at);
      }
    }
  }

  lemma {:induction false} VisitsInRun(c: Config, start: Time, steps: seq<Step>)
    requires Play(c, Initial(start), steps).Some?
    ensures VisitsAsked(Play(c, Initial(start), steps).value)
  {
    if steps != [] {
      var n := |steps| - 1;
      VisitsInRun(c, start, steps[..n]);
      VisitsStep(c, Play(c, Initial(start), steps[..n]).value, steps[n]);
    }
  }

  /** In every reachable state, each visit that was answered or failed had a request to its host go
      before it, one the breaker let past. */
  lemma VisitsWereRequested(c: Config, s: State, k: nat)
    requires Reachable(c, s) && k < |s.log| && s.log[k].outcome in {OK, GONE, FAILED}
    ensures exists i ::
      && 0 <= i < |s.requests| && s.requests[i].host == s.log[k].host
      && s.requests[i].logLength <= k && s.requests[i].at <= s.log[k].at
      && !Shut(s.log[..s.requests[i].logLength], s.requests[i].host, c.settings, s.requests[i].at)
  {
    var start, steps :| Play(c, Initial(start), steps) == Some(s);
    VisitsInRun(c, start, steps);
    assert HadAsked(s, s.log[k].host, k, s.log[k].at);
    var i :| 0 <= i < |s.requests| && s.requests[i].host == s.log[k].host && s.requests[i].logLength <= k
      && s.requests[i].at <= s.log[k].at;
    RequestsWaitOut(c, s, i);
  }

  // -------------------------------------------------------------------------------------
  // What a job leaves.

  /** An answer spends one of its version's tries unless it is a page or says there is none: it is a
      page from 200 to 299, and there is none at 404 and 410. No other step spends any. */
  lemma TriesAreSpent(c: Config, s: State, step: Step, v: Version)
    requires Enabled(c, s, step)
    ensures var spent := step.Answer? && s.queue.running[step.host] == v
        && (step.status.None? || !(200 <= step.status.value < 300 || step.status.value in {404, 410}));
      |Failures(Next(c, s, step).log, v)| == |Failures(s.log, v)| + if spent then 1 else 0
  {
    RecordingIs(c, s, step);
    var t, r := Next(c, s, step), Recording(c, s, step);
    TriesAreFailures(s.log, v);
    TriesAreFailures(t.log, v);
    if r.Some? { TriesAppend(s.log, t.log[|s.log|], v); }
  }

  /** A page is captured by an answer from 200 to 299, and by nothing else. */
  lemma CapturedByAnswers(c: Config, s: State, step: Step)
    requires Enabled(c, s, step)
    ensures var t := Next(c, s, step);
      (exists n :: |s.log| <= n < |t.log| && t.log[n].outcome == OK)
      <==> step.Answer? && step.status.Some? && 200 <= step.status.value < 300
  {
    RecordingIs(c, s, step);
    var t, r := Next(c, s, step), Recording(c, s, step);
    if r.Some? { assert t.log[|s.log|].outcome == r.value.1; }
  }

  /** A job that waits keeps its time until it starts, whatever sweeps choose its version again. */
  lemma WaitingKeepsItsTime(c: Config, s: State, step: Step, v: Version)
    requires Enabled(c, s, step) && v in s.queue.waiting && step != Begin(v)
    ensures v in Next(c, s, step).queue.waiting && Next(c, s, step).queue.waiting[v] == s.queue.waiting[v]
  {
    if step.Sweep? { StillWaiting(s.queue.waiting, step.batch, step.ready, v); }
  }

  lemma {:induction false} StillWaiting(waiting: map<Version, Time>, batch: seq<Version>, ready: seq<Time>, v: Version)
    requires |ready| == |batch| && v in waiting
    ensures v in Jobs.DeferAll(waiting, batch, ready) && Jobs.DeferAll(waiting, batch, ready)[v] == waiting[v]
  {
    if batch != [] { StillWaiting(waiting, batch[..|batch| - 1], ready[..|batch| - 1], v); }
  }

  /** And it does not start before it. */
  lemma JobsAreOnTime(c: Config, start: Time, steps: seq<Step>, n: nat, v: Version)
    requires Play(c, Initial(start), steps).Some? && n < |steps| && steps[n] == Begin(v)
    ensures Play(c, Initial(start), steps[..n]).Some?
    ensures var s := Play(c, Initial(start), steps[..n]).value;
      v in s.queue.waiting && s.queue.waiting[v] <= s.now && c.hostOf(v) !in s.queue.running
  {
    PrefixPlays(c, Initial(start), steps, n);
  }

  /** A host is free for its next job exactly when the one it had has written its row or been cut off. */
  lemma HostsAreFreed(c: Config, s: State, step: Step, host: Host)
    requires Enabled(c, s, step) && host in s.queue.running
    ensures var t := Next(c, s, step);
      host !in t.queue.running <==> step == Abort(host) || (|t.log| > |s.log| && t.log[|s.log|].host == host)
  {
    RecordingIs(c, s, step);
  }
}
