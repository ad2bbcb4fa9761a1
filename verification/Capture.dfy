/** Which pages are asked for and when: `extract/due.py`, `extract/breaker.py` and
    `extract/capture.py`, with the log of visits they all read and append to. */
module Capture {
  import opened Wrappers
  import opened RunLog
  import opened Backoff
  import Jobs

  type Version = nat
  type Host = Jobs.Host

  datatype CaptureOutcome = OK | GONE | FAILED | DISALLOWED | REFUSED | UNKNOWN_RULES

  const CAPTURE_POLICY := "2"

  /** One visit to the page behind one version, or the decision not to make one. */
  datatype PageCapture = PageCapture(version: Version, host: Host, at: Time, outcome: CaptureOutcome, policy: string)

  datatype ExtractSettings = ExtractSettings(
    settleSeconds: int,
    maxVersionsPerItem: int,
    captureRetry: Policy,
    hostProbe: Policy,
    hostFailureThreshold: nat)

  /** The shipped settings. */
  const SHIPPED := ExtractSettings(3600, 5, Policy(900, 86400, 3.0, 5), Policy(1800, 86400, 2.0, 0), 5)

  /** What an answer amounts to; no response is a fetch that raised. */
  function OutcomeFor(status: Option<int>): CaptureOutcome {
    if status.None? then FAILED
    else if 200 <= status.value < 300 then OK
    else if status.value == 404 || status.value == 410 then GONE
    else FAILED
  }

  // -------------------------------------------------------------------------------------
  // The breaker.

  /** `failure_run`: FAILED lengthens the run, OK ends it, and the other four outcomes are stepped over. */
  function HostReading(host: Host): Reading<PageCapture> {
    Reading((c: PageCapture) => c.at, (c: PageCapture) => c.host == host && c.policy == CAPTURE_POLICY,
            (c: PageCapture) => c.outcome == FAILED, (c: PageCapture) => c.outcome == OK)
  }

  function HostRun(log: seq<PageCapture>, host: Host): Run {
    RunOf(log, HostReading(host))
  }

  /** Shut, and its probe not yet due. No failure at all is a NULL, which refuses nobody. */
  predicate Refusing(log: seq<PageCapture>, host: Host, s: ExtractSettings, now: Time) {
    var run := HostRun(log, host);
    run.length >= s.hostFailureThreshold && run.latest.Some?
    && DueAt(run.latest.value, s.hostProbe, run.length - s.hostFailureThreshold) > now
  }

  // -------------------------------------------------------------------------------------
  // The sweep's query.

  /** What the query reads that is not the log of visits. */
  datatype Facts = Facts(
    subscribed: bool,
    isHead: bool,
    versionCount: int,
    blocked: bool,
    first: bool,
    observedAt: Time,
    // When each host's robots.txt was last read, for the hosts where it has been.
    rulesRead: map<Host, Time>)

  function TriedReading(version: Version): Reading<PageCapture> {
    Reading((c: PageCapture) => c.at, (c: PageCapture) => c.version == version && c.policy == CAPTURE_POLICY,
            (c: PageCapture) => c.outcome == FAILED, (c: PageCapture) => false)
  }

  /** The visits to one version that were sent, answered, and refused. */
  function Tries(log: seq<PageCapture>, version: Version): seq<PageCapture> {
    Tail(log, TriedReading(version), None)
  }

  predicate SettledBy(c: PageCapture, log: seq<PageCapture>, facts: Facts, s: ExtractSettings, now: Time) {
    || c.outcome == OK
    || Refusing(log, c.host, s, now)
    || (c.outcome == DISALLOWED && c.host in facts.rulesRead && c.at > facts.rulesRead[c.host])
    || (c.outcome == UNKNOWN_RULES && c.host !in facts.rulesRead)
  }

  predicate Due(log: seq<PageCapture>, version: Version, host: Host, facts: Facts, s: ExtractSettings, now: Time) {
    var tries := Tries(log, version);
    && facts.subscribed && facts.isHead
    && (forall i :: 0 <= i < |log| && log[i].version == version ==> !SettledBy(log[i], log, facts, s, now))
    && facts.versionCount <= s.maxVersionsPerItem
    && !facts.blocked
    && (facts.first || facts.observedAt <= now - s.settleSeconds as real)
    && (tries == []
        || (|tries| < s.captureRetry.maxFailures
            && DueAt(Latest(tries, TriedReading(version)).value, s.captureRetry, |tries|) <= now))
    && host in facts.rulesRead
  }

  /** Which of a batch `due_captures` keeps: those whose host has been asked for its rules. */
  method KeepKnown(rows: seq<(Version, Host)>, known: set<Host>) returns (due: seq<(Version, Host)>)
    ensures due == Known(rows, known)
  {
    due := [];
    for n := 0 to |rows|
      invariant due == Known(rows[..n], known)
    {
      assert rows[..n + 1][..n] == rows[..n];
      if rows[n].1 != "" && rows[n].1 in known {
        due := due + [rows[n]];
      }
    }
    assert rows[..|rows|] == rows;
  }

  function Known(rows: seq<(Version, Host)>, known: set<Host>): (r: seq<(Version, Host)>)
    ensures forall row :: row in r <==> row in rows && row.1 != "" && row.1 in known
  {
    if rows == [] then []
    else
      var init, row := rows[..|rows| - 1], rows[|rows| - 1];
      assert forall other :: other in rows <==> other in init || other == row;
      Known(init, known) + if row.1 != "" && row.1 in known then [row] else []
  }

  // -------------------------------------------------------------------------------------
  // What a row does to the breaker.

  /** The visits we chose not to make, and a dead link, move neither the run nor its clock. */
  lemma DeclinesMoveNothing(log: seq<PageCapture>, row: PageCapture, host: Host)
    requires row.host != host || (row.outcome != FAILED && row.outcome != OK)
    ensures HostRun(log + [row], host) == HostRun(log, host)
  {
    SteppedOver(log, HostReading(host), row);
  }

  /** A host that is not refusing does not start to as time passes with nothing recorded. */
  lemma WaitOnlyShortens(log: seq<PageCapture>, host: Host, s: ExtractSettings, now: Time, later: Time)
    requires !Refusing(log, host, s, now) && now <= later
    ensures !Refusing(log, host, s, later)
  {
  }

  /** However many failures a host has run up, it can be probed again one maximum wait after
      the last of them. */
  lemma AlwaysProbeableAgain(log: seq<PageCapture>, host: Host, s: ExtractSettings, now: Time)
    requires Ordered(s.hostProbe)
    requires HostRun(log, host).latest.Some? ==> now >= HostRun(log, host).latest.value + s.hostProbe.maximumSeconds as real
    ensures !Refusing(log, host, s, now)
  {
    var run := HostRun(log, host);
    if run.length >= s.hostFailureThreshold {
      WaitGrows(s.hostProbe, run.length - s.hostFailureThreshold, run.length - s.hostFailureThreshold, 0.0);
    }
  }

  /** Every row of this host is older than `at`. */
  ghost predicate OlderThan(log: seq<PageCapture>, host: Host, at: Time) {
    forall i :: 0 <= i < |log| && log[i].host == host ==> log[i].at < at
  }

  lemma ChronologicalHost(log: seq<PageCapture>, host: Host, row: PageCapture)
    requires Chronological(log, HostReading(host)) && row.host == host && OlderThan(log, host, row.at)
    ensures Chronological(log + [row], HostReading(host))
    ensures HostRun(log + [row], host)
         == if row.policy != CAPTURE_POLICY then HostRun(log, host)
            else if row.outcome == OK then Run(0, None)
            else if row.outcome == FAILED then Run(HostRun(log, host).length + 1, Some(row.at))
            else HostRun(log, host)
  {
    var q := HostReading(host);
    var longer := log + [row];
    assert Chronological(longer, q) by {
      forall i, j | 0 <= i < j < |longer| && q.scope(longer[i]) && q.scope(longer[j])
        ensures q.at(longer[i]) < q.at(longer[j])
      {
        if j < |log| {
          assert q.scope(log[i]) && q.scope(log[j]);
        }
      }
    }
    LaterThanAll(longer, q);
    assert longer[..|log|] == log;
    ChronologicalAppend(log, q, row);
  }

  /** A probe of a shut host decides the next wait by its answer: the host is refused throughout
      the following wait exactly when the probe FAILED. A dead link or a refused redirect leaves
      the probe due, so nothing paces the requests after it until one fails or succeeds. */
  lemma ProbeDecides(log: seq<PageCapture>, row: PageCapture, s: ExtractSettings)
    requires Ordered(s.hostProbe)
    requires Chronological(log, HostReading(row.host)) && OlderThan(log, row.host, row.at)
    requires row.policy == CAPTURE_POLICY
    requires HostRun(log, row.host).length >= s.hostFailureThreshold > 0
    requires !Refusing(log, row.host, s, row.at)
    ensures var run := HostRun(log, row.host);
      var wait := Seconds(s.hostProbe, run.length + 1 - s.hostFailureThreshold);
      (forall t: Time :: row.at <= t < row.at + wait ==> Refusing(log + [row], row.host, s, t)) <==> row.outcome == FAILED
    ensures row.outcome != FAILED ==> forall t: Time :: t >= row.at ==> !Refusing(log + [row], row.host, s, t)
  {
    var run := HostRun(log, row.host);
    var wait := Seconds(s.hostProbe, run.length + 1 - s.hostFailureThreshold);
    ChronologicalHost(log, row.host, row);
    WaitGrows(s.hostProbe, run.length + 1 - s.hostFailureThreshold, run.length + 1 - s.hostFailureThreshold, 0.0);
    if row.outcome != FAILED {
      assert row.at <= row.at < row.at + wait;
      assert !Refusing(log + [row], row.host, s, row.at);
    }
  }

  /** A dead link ends nothing: at any time at all, the version it was found at is due with it in
      the log exactly when it is due without it and the host that answered is not refusing. */
  lemma DeadLinksStayDue(log: seq<PageCapture>, row: PageCapture, version: Version, host: Host, facts: Facts, s: ExtractSettings,
      now: Time)
    requires row.version == version && row.outcome == GONE
    ensures Due(log + [row], version, host, facts, s, now)
       <==> Due(log, version, host, facts, s, now) && !Refusing(log, row.host, s, now)
  {
    var longer := log + [row];
    assert longer[..|log|] == log && longer[|log|] == row;
    assert Tries(longer, version) == Tries(log, version);
    forall c: PageCapture ensures SettledBy(c, longer, facts, s, now) <==> SettledBy(c, log, facts, s, now) {
      DeclinesMoveNothing(log, row, c.host);
    }
    forall i | 0 <= i < |log| ensures longer[i] == log[i] {
    }
  }

  /** A failure in a chronological log is never later than the run's own clock. */
  lemma FailureIsBehind(log: seq<PageCapture>, host: Host, n: nat)
    requires Chronological(log, HostReading(host)) && n < |log|
    requires log[n].host == host && log[n].policy == CAPTURE_POLICY && log[n].outcome == FAILED
    requires HostRun(log, host).length > 0
    ensures HostRun(log, host).latest.Some? && log[n].at <= HostRun(log, host).latest.value
  {
    var q := HostReading(host);
    var reset := ResetAt(log, q);
    var rows := Tail(log, q, reset);
    LatestBounds(rows, q);
    TailMembers(log, q, reset);
    if !Counted(log[n], q, reset) {
      assert rows[0] in rows && Counted(rows[0], q, reset);
    } else {
      assert log[n] in rows;
    }
  }
}
