/** When `max_failures` and one bounds the tries of a version, and how far past it they can go:
    `Protocol.TriesAreBounded` is exact under every configuration. */
module ExactBound {
  import opened Wrappers
  import opened RunLog
  import opened Backoff
  import opened Capture
  import opened Jobs
  import opened Protocol

  /** The claims of `j` sweeps, each still to queue the one subject. */
  function Claimed(v: nat, j: nat): map<nat, seq<nat>> {
    if j == 0 then map[] else Claimed(v, j - 1)[j - 1 := [v]]
  }

  lemma {:induction false} ClaimedIs(v: nat, j: nat)
    ensures forall id: nat :: id in Claimed(v, j) <==> id < j
    ensures forall id: nat :: id in Claimed(v, j) ==> Claimed(v, j)[id] == [v]
  {
    if j > 0 { ClaimedIs(v, j - 1); }
  }

  lemma {:induction false} ClaimedCount(v: nat, j: nat)
    ensures |Claimed(v, j)| == j
  {
    if j > 0 {
      ClaimedCount(v, j - 1);
      ClaimedIs(v, j - 1);
      assert Claimed(v, j).Keys == Claimed(v, j - 1).Keys + {j - 1};
    }
  }

  lemma ClaimedLess(v: nat, j: nat)
    requires j > 0
    ensures j - 1 in Claimed(v, j) && Claimed(v, j)[j - 1] == [v] && Claimed(v, j) - {j - 1} == Claimed(v, j - 1)
  {
    ClaimedIs(v, j - 1);
  }

  /** Every enabled step from a state of it leads to a state of it. */
  ghost predicate Closed(c: Config, reached: State -> bool) {
    forall s, step :: reached(s) && Enabled(c, s, step) ==> reached(Next(c, s, step))
  }

  // -------------------------------------------------------------------------------------
  // Long enough for every wait there is.

  /** Longer than any backoff and any probe's wait. */
  function Pause(c: Config): Time {
    var longest := Max(c.settings.captureRetry.maximumSeconds as real, c.settings.hostProbe.maximumSeconds as real);
    Max(longest, 0.0) + 1.0
  }

  /** Every row is a failure of the one version, none of them later than `last`. */
  ghost predicate AllFailed(log: seq<PageCapture>, v: Version, last: Time) {
    forall i :: 0 <= i < |log| ==> log[i].version == v && log[i].outcome == FAILED && log[i].at <= last
  }

  lemma {:induction false} LatestIsOld(rows: seq<PageCapture>, q: Reading<PageCapture>, last: Time)
    requires forall i :: 0 <= i < |rows| ==> q.at(rows[i]) <= last
    ensures rows != [] ==> Latest(rows, q).value <= last
    ensures rows == [] ==> Latest(rows, q) == None
  {
    if rows != [] {
      LatestIsOld(rows[..|rows| - 1], q, last);
    }
  }

  /** A tail of old rows has an old latest. */
  lemma TailIsOld(log: seq<PageCapture>, q: Reading<PageCapture>, reset: Option<Time>, v: Version, last: Time)
    requires AllFailed(log, v, last) && forall row :: q.at(row) == row.at
    ensures var rows := Tail(log, q, reset); Latest(rows, q).Some? ==> rows != [] && Latest(rows, q).value <= last
  {
    var rows := Tail(log, q, reset);
    TailMembers(log, q, reset);
    forall i | 0 <= i < |rows| ensures q.at(rows[i]) <= last {
      assert rows[i] in rows && rows[i] in log;
    }
    LatestIsOld(rows, q, last);
  }

  lemma WaitIsOver(c: Config, last: Time, now: Time, n: nat)
    requires last <= now - Pause(c)
    ensures DueAt(last, c.settings.captureRetry, n) <= now && DueAt(last, c.settings.hostProbe, n) <= now
  {
  }

  /** A pause after its failures no host is refusing, shut or not. */
  lemma NotRefusing(c: Config, log: seq<PageCapture>, v: Version, host: Host, now: Time)
    requires AllFailed(log, v, now - Pause(c))
    ensures !Refusing(log, host, c.settings, now)
  {
    var run := HostRun(log, host);
    TailIsOld(log, HostReading(host), ResetAt(log, HostReading(host)), v, now - Pause(c));
    if run.latest.Some? && run.length >= c.settings.hostFailureThreshold {
      WaitIsOver(c, run.latest.value, now, run.length - c.settings.hostFailureThreshold);
    }
  }

  // -------------------------------------------------------------------------------------
  // One version that keeps failing.

  function FactsOf(c: Config, v: Version): Facts {
    Facts(true, true, c.settings.maxVersionsPerItem, false, true, 0.0, map[c.hostOf(v) := 0.0])
  }

  function Alike(c: Config, v: Version): Version -> Facts {
    (u: Version) => FactsOf(c, v)
  }

  lemma {:induction false} AllTried(log: seq<PageCapture>, v: Version)
    ensures |Tries(log, v)| <= |log|
  {
    if log != [] {
      assert Tries(log[..|log| - 1], v) == Tail(log[..|log| - 1], TriedReading(v), None);
      AllTried(log[..|log| - 1], v);
    }
  }

  /** Some tries are left, and a pause has gone by since the last. */
  ghost predicate Ready(c: Config, v: Version, s: State) {
    AllFailed(s.log, v, s.now - Pause(c)) && |s.log| < Cap(c.settings)
  }

  lemma TriesOver(c: Config, v: Version, s: State)
    requires Ready(c, v, s)
    ensures var tries := Tries(s.log, v);
      tries == []
      || (|tries| < c.settings.captureRetry.maxFailures
          && DueAt(Latest(tries, TriedReading(v)).value, c.settings.captureRetry, |tries|) <= s.now)
  {
    var tries := Tries(s.log, v);
    AllTried(s.log, v);
    if tries != [] {
      LatestBounds(tries, TriedReading(v));
      TailIsOld(s.log, TriedReading(v), None, v, s.now - Pause(c));
      WaitIsOver(c, Latest(tries, TriedReading(v)).value, s.now, |tries|);
    }
  }

  lemma StillDue(c: Config, v: Version, s: State)
    requires Ready(c, v, s) && c.hostOf(v) != ""
    ensures AllDue(c, s, Alike(c, v), [v])
  {
    TriesOver(c, v, s);
    forall i | 0 <= i < |s.log| && s.log[i].version == v
      ensures !SettledBy(s.log[i], s.log, FactsOf(c, v), c.settings, s.now)
    {
      NotRefusing(c, s.log, v, s.log[i].host, s.now);
    }
    assert Due(s.log, v, c.hostOf(v), FactsOf(c, v), c.settings, s.now);
  }

  // -------------------------------------------------------------------------------------
  // One step each.

  lemma Pauses(c: Config, reached: State -> bool, s: State)
    requires Closed(c, reached) && reached(s)
    ensures reached(s.(now := s.now + Pause(c)))
  {
    assert Enabled(c, s, Tick(s.now + Pause(c)));
  }

  lemma Sweeps(c: Config, reached: State -> bool, v: Version, s: State)
    requires Closed(c, reached) && reached(s) && c.hostOf(v) != ""
    requires Ready(c, v, s) && v !in s.queue.waiting
    ensures reached(s.(queue := s.queue.(waiting := s.queue.waiting[v := s.now])))
  {
    StillDue(c, v, s);
    var w := s.queue.waiting;
    assert [v][..0] == [] && [s.now][..0] == [];
    assert DeferAll(w, [v][..0], [s.now][..0]) == w;
    assert DeferAll(w, [v], [s.now]) == w[v := s.now];
    assert Enabled(c, s, Sweep(Alike(c, v), [v], [s.now]));
  }

  lemma Chooses(c: Config, reached: State -> bool, v: Version, s: State, sweep: nat)
    requires Closed(c, reached) && reached(s) && c.hostOf(v) != ""
    requires Ready(c, v, s) && sweep !in s.queue.claims && |s.queue.claims| < c.sweeps
    ensures reached(s.(queue := s.queue.(claims := s.queue.claims[sweep := [v]])))
  {
    StillDue(c, v, s);
    assert Enabled(c, s, Choose(sweep, Alike(c, v), [v]));
  }

  ghost predicate Waits(s: State, v: Version) {
    v in s.queue.waiting && s.queue.waiting[v] <= s.now
  }

  /** A waiting job begins, is let past the breaker, and asks. */
  lemma VisitAsks(c: Config, reached: State -> bool, v: Version, s: State) returns (t: State)
    requires Closed(c, reached) && reached(s) && AllFailed(s.log, v, s.now - Pause(c))
    requires Waits(s, v) && c.hostOf(v) !in s.queue.running
    ensures reached(t) && InPhase(t, c.hostOf(v), Sent) && t.queue == Start(s.queue, v, c.hostOf(v))
    ensures t.log == s.log && t.now == s.now
  {
    var host := c.hostOf(v);
    assert Enabled(c, s, Begin(v));
    t := s.(queue := Start(s.queue, v, host), phase := s.phase[host := Checking]);
    t := CheckedAndSent(c, reached, v, t);
  }

  lemma CheckedAndSent(c: Config, reached: State -> bool, v: Version, s: State) returns (t: State)
    requires Closed(c, reached) && reached(s) && AllFailed(s.log, v, s.now - Pause(c)) && InPhase(s, c.hostOf(v), Checking)
    ensures reached(t) && InPhase(t, c.hostOf(v), Sent) && t.queue == s.queue && t.log == s.log && t.now == s.now
  {
    var host := c.hostOf(v);
    NotRefusing(c, s.log, v, host, s.now);
    assert Enabled(c, s, Check(host));
    t := s.(phase := s.phase[host := Cleared]);
    assert Enabled(c, t, Send(host));
    t := Next(c, t, Send(host));
  }

  lemma Fails(c: Config, reached: State -> bool, v: Version, s: State) returns (t: State)
    requires Closed(c, reached) && reached(s) && AllFailed(s.log, v, s.now - Pause(c))
    requires InPhase(s, c.hostOf(v), Sent) && s.queue.running[c.hostOf(v)] == v
    ensures reached(t) && t.queue == Finish(s.queue, c.hostOf(v)) && t.now == s.now
    ensures t.log == s.log + [PageCapture(v, c.hostOf(v), s.now, FAILED, CAPTURE_POLICY)]
    ensures |Tries(t.log, v)| == |Tries(s.log, v)| + 1
  {
    assert Enabled(c, s, Answer(c.hostOf(v), None));
    t := Next(c, s, Answer(c.hostOf(v), None));
    TriesAppend(s.log, PageCapture(v, c.hostOf(v), s.now, FAILED, CAPTURE_POLICY), v);
  }

  // -------------------------------------------------------------------------------------
  // The interleaving.

  /** The version's host is idle, `j` sweeps hold the version, and it has failed `n` times and
      nothing else has happened. */
  ghost predicate Holding(c: Config, v: Version, s: State, j: nat, n: nat) {
    && s.queue.claims == Claimed(v, j) && c.hostOf(v) !in s.queue.running
    && |s.log| == n == |Tries(s.log, v)| && AllFailed(s.log, v, s.now)
  }

  lemma VisitFails(c: Config, reached: State -> bool, v: Version, s: State, j: nat, n: nat) returns (t: State)
    requires Closed(c, reached) && reached(s) && Holding(c, v, s, j, n) && Waits(s, v)
    ensures reached(t) && Holding(c, v, t, j, n + 1) && v !in t.queue.waiting
  {
    Pauses(c, reached, s);
    t := VisitAsks(c, reached, v, s.(now := s.now + Pause(c)));
    t := Fails(c, reached, v, t);
  }

  /** A pause on, a sweep that chooses and queues at once finds it due, and it fails again. */
  lemma FailsAgain(c: Config, reached: State -> bool, v: Version, s: State, n: nat) returns (t: State)
    requires Closed(c, reached) && reached(s) && Holding(c, v, s, 0, n) && v !in s.queue.waiting
    requires n < Cap(c.settings) && c.hostOf(v) != ""
    ensures reached(t) && Holding(c, v, t, 0, n + 1) && v !in t.queue.waiting
  {
    Pauses(c, reached, s);
    t := s.(now := s.now + Pause(c));
    Sweeps(c, reached, v, t);
    t := t.(queue := t.queue.(waiting := t.queue.waiting[v := t.now]));
    t := VisitFails(c, reached, v, t, 0, n);
  }

  lemma {:induction false} FailsTimes(c: Config, reached: State -> bool, v: Version, n: nat) returns (s: State)
    requires Closed(c, reached) && reached(Initial(0.0)) && n <= Cap(c.settings) && c.hostOf(v) != ""
    ensures reached(s) && Holding(c, v, s, 0, n) && v !in s.queue.waiting
  {
    if n == 0 {
      s := Initial(0.0);
    } else {
      s := FailsTimes(c, reached, v, n - 1);
      s := FailsAgain(c, reached, v, s, n - 1);
    }
  }

  /** The job of the last try has asked, a second job waits, and `j` sweeps have chosen besides. */
  ghost predicate Asking(c: Config, v: Version, s: State, j: nat) {
    && s.queue.claims == Claimed(v, j) && Waits(s, v) && InPhase(s, c.hostOf(v), Sent) && s.queue.running[c.hostOf(v)] == v
    && Ready(c, v, s) && |s.log| == |Tries(s.log, v)| == Cap(c.settings) - 1
  }

  lemma LastTryAsks(c: Config, reached: State -> bool, v: Version) returns (s: State)
    requires Closed(c, reached) && reached(Initial(0.0)) && c.hostOf(v) != ""
    ensures reached(s) && Asking(c, v, s, 0)
  {
    s := FailsTimes(c, reached, v, Cap(c.settings) - 1);
    Pauses(c, reached, s);
    s := s.(now := s.now + Pause(c));
    Sweeps(c, reached, v, s);
    s := s.(queue := s.queue.(waiting := s.queue.waiting[v := s.now]));
    s := VisitAsks(c, reached, v, s);
    Sweeps(c, reached, v, s);
    s := s.(queue := s.queue.(waiting := s.queue.waiting[v := s.now]));
  }

  lemma OneMoreChooses(c: Config, reached: State -> bool, v: Version, s: State, j: nat) returns (t: State)
    requires Closed(c, reached) && reached(s) && c.hostOf(v) != "" && Asking(c, v, s, j) && j < c.sweeps
    ensures reached(t) && Asking(c, v, t, j + 1)
  {
    ClaimedIs(v, j);
    ClaimedCount(v, j);
    Chooses(c, reached, v, s, j);
    t := s.(queue := s.queue.(claims := s.queue.claims[j := [v]]));
  }

  lemma {:induction false} SweepsChoose(c: Config, reached: State -> bool, v: Version, j: nat) returns (s: State)
    requires Closed(c, reached) && reached(Initial(0.0)) && c.hostOf(v) != "" && j <= c.sweeps
    ensures reached(s) && Asking(c, v, s, j)
    decreases j
  {
    if j == 0 {
      s := LastTryAsks(c, reached, v);
    } else {
      s := SweepsChoose(c, reached, v, j - 1);
      s := OneMoreChooses(c, reached, v, s, j - 1);
    }
  }

  lemma LastTryFails(c: Config, reached: State -> bool, v: Version, s: State, j: nat) returns (t: State)
    requires Closed(c, reached) && reached(s) && Asking(c, v, s, j)
    ensures reached(t) && Holding(c, v, t, j, Cap(c.settings)) && Waits(t, v)
  {
    t := Fails(c, reached, v, s);
  }

  lemma SweepQueues(c: Config, reached: State -> bool, v: Version, s: State, j: nat, n: nat) returns (t: State)
    requires Closed(c, reached) && reached(s) && Holding(c, v, s, j, n) && j > 0 && v !in s.queue.waiting
    ensures reached(t) && Holding(c, v, t, j - 1, n) && Waits(t, v)
  {
    ClaimedLess(v, j);
    assert Enabled(c, s, Enqueue(j - 1, s.now));
    t := s.(queue := Queue(Claimed(v, j - 1), s.queue.waiting[v := s.now], s.queue.running));
  }

  lemma Round(c: Config, reached: State -> bool, v: Version, s: State, j: nat, n: nat) returns (t: State)
    requires Closed(c, reached) && reached(s) && Holding(c, v, s, j, n) && Waits(s, v) && j > 0
    ensures reached(t) && Holding(c, v, t, j - 1, n + 1) && Waits(t, v)
  {
    t := VisitFails(c, reached, v, s, j, n);
    t := SweepQueues(c, reached, v, t, j, n + 1);
  }

  /** Each sweep still holding the version queues it once the job before it is out of the way. */
  lemma {:induction false} SweepsPayOut(c: Config, reached: State -> bool, v: Version, s: State, j: nat, n: nat) returns (t: State)
    requires Closed(c, reached) && reached(s) && Holding(c, v, s, j, n) && Waits(s, v)
    ensures reached(t) && |Tries(t.log, v)| == n + 1 + j
    decreases j
  {
    if j == 0 {
      t := VisitFails(c, reached, v, s, 0, n);
    } else {
      t := Round(c, reached, v, s, j, n);
      t := SweepsPayOut(c, reached, v, t, j - 1, n + 1);
    }
  }

  lemma BoundReached(c: Config, reached: State -> bool, v: Version) returns (s: State)
    requires Closed(c, reached) && reached(Initial(0.0)) && c.hostOf(v) != ""
    ensures reached(s) && |Tries(s.log, v)| == Cap(c.settings) + 1 + c.sweeps
  {
    s := SweepsChoose(c, reached, v, c.sweeps);
    s := LastTryFails(c, reached, v, s, c.sweeps);
    s := SweepsPayOut(c, reached, v, s, c.sweeps, Cap(c.settings));
  }

  lemma RunsAreClosed(c: Config)
    ensures Closed(c, (s: State) => Reachable(c, s)) && Reachable(c, Initial(0.0))
  {
    assert Play(c, Initial(0.0), []) == Some(Initial(0.0));
    forall s, step | Reachable(c, s) && Enabled(c, s, step) ensures Reachable(c, Next(c, s, step)) {
      var start, steps :| Play(c, Initial(start), steps) == Some(s);
      assert (steps + [step])[..|steps|] == steps;
      assert Play(c, Initial(start), steps + [step]) == Some(Next(c, s, step));
    }
  }

  /** Under every configuration, breaker and backoff and all, some interleaving takes any version
      with a host to the bound exactly. */
  lemma TheBoundIsReached(c: Config, v: Version)
    requires c.hostOf(v) != ""
    ensures exists s :: Reachable(c, s) && |Tries(s.log, v)| == Cap(c.settings) + 1 + c.sweeps
  {
    RunsAreClosed(c);
    var s := BoundReached(c, (s: State) => Reachable(c, s), v);
  }

  // -------------------------------------------------------------------------------------
  // The smaller bound.

  ghost predicate Hostless(c: Config) {
    forall v: Version :: c.hostOf(v) == ""
  }

  ghost predicate Untouched(s: State) {
    s.queue == Idle() && s.phase == map[] && s.log == []
  }

  lemma NobodyStep(c: Config, s: State, step: Step)
    requires Hostless(c) && Untouched(s) && Enabled(c, s, step)
    ensures Untouched(Next(c, s, step))
  {
    match step
    case Sweep(facts, batch, ready) =>
      NobodyIsDue(c, s, facts, batch);
      assert DeferAll(s.queue.waiting, [], []) == s.queue.waiting;
    case Choose(sweep, facts, batch) => NobodyIsDue(c, s, facts, batch);
    case _ =>
  }

  lemma NobodyIsDue(c: Config, s: State, facts: Version -> Facts, batch: seq<Version>)
    requires Hostless(c) && AllDue(c, s, facts, batch)
    ensures batch == []
  {
    EmptyIsMemberless(batch);
  }

  lemma EmptyIsMemberless(batch: seq<nat>)
    ensures batch == [] <==> forall v :: v !in batch
  {
    if batch != [] {
      assert batch[0] in batch;
    }
  }

  lemma {:induction false} NobodyIsVisited(c: Config, start: Time, steps: seq<Step>)
    requires Hostless(c) && Play(c, Initial(start), steps).Some?
    ensures Untouched(Play(c, Initial(start), steps).value)
  {
    if steps != [] {
      var n := |steps| - 1;
      NobodyIsVisited(c, start, steps[..n]);
      NobodyStep(c, Play(c, Initial(start), steps[..n]).value, steps[n]);
    }
  }

  /** No interleaving takes a version past its cap and one. */
  ghost predicate OneOver(c: Config) {
    forall s, v :: Reachable(c, s) ==> |Tries(s.log, v)| <= Cap(c.settings) + 1
  }

  /** `max_failures` and one is the bound exactly when no sweep can be caught between choosing and
      queueing, or there is no host to visit. */
  lemma OneOverWhenAtomic(c: Config)
    ensures OneOver(c) <==> c.sweeps == 0 || Hostless(c)
  {
    if c.sweeps == 0 {
      forall s, v | Reachable(c, s) ensures |Tries(s.log, v)| <= Cap(c.settings) + 1 {
        TriesAreBounded(c, s, v);
      }
    } else if Hostless(c) {
      forall s, v | Reachable(c, s) ensures |Tries(s.log, v)| <= Cap(c.settings) + 1 {
        var start, steps :| Play(c, Initial(start), steps) == Some(s);
        NobodyIsVisited(c, start, steps);
        AllTried(s.log, v);
      }
    } else {
      var v: Version :| c.hostOf(v) != "";
      TheBoundIsReached(c, v);
    }
  }
}
