/** When a feed is polled next: `ingest/schedule.py` and the writes in `ingest/service.py` that
    move a feed's clock after each kind of poll. */
module Schedule {
  import opened Wrappers
  import opened RunLog
  import opened Backoff

  type FeedId = nat

  datatype IngestSettings = IngestSettings(
    defaultIntervalSeconds: int,
    minIntervalSeconds: int,
    maxIntervalSeconds: int,
    backoffFactor: real,
    maxBackoffSeconds: int,
    maxConsecutiveFailures: int,
    busyMultiplier: real,
    idleMultiplier: real,
    honourFeedTtl: bool)

  const DEFAULTS := IngestSettings(900, 300, 21600, 2.0, 86400, 10, 0.5, 1.25, true)

  datatype PollOutcome = OK | NOT_MODIFIED | DISALLOWED | FAILED

  datatype FeedPoll = FeedPoll(feed: FeedId, at: Time, outcome: PollOutcome, status: int, newItems: nat)

  /** What `retry-after` held: nothing, a whole number of seconds, or something else. */
  datatype RetryHeader = Absent | Whole(seconds: int) | Unreadable

  /** The columns a poll writes on the feed row, and the log it appends to. */
  datatype FeedState = FeedState(
    id: FeedId,
    lastPolledAt: Option<Time>,
    lastSuccessAt: Option<Time>,
    nextPollAt: Time,
    ttlSeconds: Option<int>,
    polls: seq<FeedPoll>)

  /** The ways a poll ends. `Broken` is a fetch or a parse that raised. */
  datatype PollEvent =
    | Stored(newItems: nat, ttlSeconds: Option<int>, status: int)
    | NotModified
    | Answered(status: int, header: RetryHeader)
    | Broken
    | Disallowed

  /** Bounds that bound: what the defaults satisfy and any sane configuration does. */
  ghost predicate Sound(s: IngestSettings) {
    0 < s.minIntervalSeconds <= s.maxIntervalSeconds <= s.maxBackoffSeconds
  }

  function Bounds(s: IngestSettings, ceiling: int): Policy {
    Policy(s.minIntervalSeconds, ceiling, s.backoffFactor, s.maxConsecutiveFailures)
  }

  function WaitingOut(s: IngestSettings): Policy {
    Bounds(s, s.maxBackoffSeconds)
  }

  function ClampInterval(seconds: int, s: IngestSettings): int {
    Clamp(seconds as real, WaitingOut(s))
  }

  /** A healthy feed's next interval, from the one it was on and whether its poll found something. */
  function HealthyInterval(s: IngestSettings, current: Option<int>, busy: bool): int {
    // `current_seconds or default`: zero is as good as nothing.
    var base := if current.Some? && current.value != 0 then current.value else s.defaultIntervalSeconds;
    Clamp(if busy then base as real * s.busyMultiplier else base as real * s.idleMultiplier, Bounds(s, s.maxIntervalSeconds))
  }

  /** A wait raised to the ttl a feed asked for. */
  function Raised(clamped: int, s: IngestSettings, ttl: Option<int>): int {
    if s.honourFeedTtl && ttl.Some? && ttl.value != 0 && clamped < ttl.value then ttl.value else clamped
  }

  function NextInterval(s: IngestSettings, current: Option<int>, failures: nat, newItems: nat, ttl: Option<int>): int {
    var clamped :=
      if failures > 0 then Interval(WaitingOut(s), failures, s.defaultIntervalSeconds as real)
      else HealthyInterval(s, current, newItems > 0);
    Raised(clamped, s, ttl)
  }

  function RetryAfter(status: int, header: RetryHeader, s: IngestSettings): Option<int> {
    if status != 429 && status != 503 then None
    else
      match header
      case Absent => None
      case Whole(seconds) => Some(ClampInterval(seconds, s))
      case Unreadable => Some(s.maxBackoffSeconds)
  }

  function PollReading(feed: FeedId): Reading<FeedPoll> {
    Reading((p: FeedPoll) => p.at, (p: FeedPoll) => p.feed == feed,
            (p: FeedPoll) => p.outcome == FAILED, (p: FeedPoll) => p.outcome != FAILED)
  }

  function ConsecutiveFailures(polls: seq<FeedPoll>, feed: FeedId): nat {
    RunOf(polls, PollReading(feed)).length
  }

  function Previous(f: FeedState): Option<int> {
    if f.lastPolledAt.Some? then Some(Trunc(f.nextPollAt - f.lastPolledAt.value)) else None
  }

  function Rescheduled(f: FeedState, s: IngestSettings, now: Time, newItems: nat): FeedState {
    f.(lastPolledAt := Some(now), lastSuccessAt := Some(now),
       nextPollAt := now + NextInterval(s, Previous(f), 0, newItems, f.ttlSeconds) as real)
  }

  function Logged(f: FeedState, at: Time, outcome: PollOutcome, status: int, newItems: nat): FeedState {
    f.(polls := f.polls + [FeedPoll(f.id, at, outcome, status, newItems)])
  }

  function Failed(f: FeedState, s: IngestSettings, now: Time, at: Time, status: int, retryAfter: Option<int>): FeedState {
    var logged := Logged(f, at, FAILED, status, 0);
    var wait :=
      if retryAfter.Some? then retryAfter.value
      else NextInterval(s, None, ConsecutiveFailures(logged.polls, f.id), 0, f.ttlSeconds);
    logged.(lastPolledAt := Some(now), nextPollAt := now + wait as real)
  }

  /** A poll started at `now` whose transaction committed at `at`. */
  function After(f: FeedState, e: PollEvent, s: IngestSettings, now: Time, at: Time): FeedState {
    match e
    case Stored(newItems, ttl, status) =>
      var kept := if ttl.Some? && ttl.value != 0 then ttl else f.ttlSeconds;
      Rescheduled(Logged(f, at, OK, status, newItems).(ttlSeconds := kept), s, now, newItems)
    case NotModified => Rescheduled(Logged(f, at, NOT_MODIFIED, 304, 0), s, now, 0)
    case Answered(status, header) => Failed(f, s, now, at, status, RetryAfter(status, header, s))
    case Broken => Failed(f, s, now, at, 0, None)
    case Disallowed =>
      Logged(f, at, DISALLOWED, 0, 0).(lastPolledAt := Some(now), nextPollAt := now + s.maxBackoffSeconds as real)
  }

  function OutcomeOf(e: PollEvent): PollOutcome {
    match e
    case Stored(_, _, _) => OK
    case NotModified => NOT_MODIFIED
    case Answered(_, _) => FAILED
    case Broken => FAILED
    case Disallowed => DISALLOWED
  }

  function Asked(ttl: Option<int>): int {
    if ttl.Some? then ttl.value else 0
  }

  /** `feeds`, the one table a poll updates in place. */
  class Feed {
    const id: FeedId
    var lastPolledAt: Option<Time>
    var lastSuccessAt: Option<Time>
    var nextPollAt: Time
    var ttlSeconds: Option<int>
    var polls: seq<FeedPoll>

    ghost function State(): FeedState reads this {
      FeedState(id, lastPolledAt, lastSuccessAt, nextPollAt, ttlSeconds, polls)
    }

    /** A feed just subscribed to is due at once and has been asked nothing. */
    constructor (id: FeedId, created: Time)
      ensures State() == FeedState(id, None, None, created, None, [])
    {
      this.id := id;
      lastPolledAt, lastSuccessAt, nextPollAt := None, None, created;
      ttlSeconds, polls := None, [];
    }

    method Log(at: Time, outcome: PollOutcome, status: int, newItems: nat)
      modifies this`polls
      ensures State() == Logged(old(State()), at, outcome, status, newItems)
    {
      polls := polls + [FeedPoll(id, at, outcome, status, newItems)];
    }

    method Reschedule(s: IngestSettings, now: Time, newItems: nat)
      modifies this
      ensures State() == Rescheduled(old(State()), s, now, newItems)
    {
      var previous: Option<int> := None;
      if lastPolledAt.Some? {
        previous := Some(Trunc(nextPollAt - lastPolledAt.value));
      }
      lastPolledAt := Some(now);
      lastSuccessAt := Some(now);
      nextPollAt := now + NextInterval(s, previous, 0, newItems, ttlSeconds) as real;
    }

    method StorePoll(s: IngestSettings, now: Time, at: Time, newItems: nat, ttl: Option<int>, status: int)
      modifies this
      ensures State() == After(old(State()), Stored(newItems, ttl, status), s, now, at)
    {
      Log(at, OK, status, newItems);
      if ttl.Some? && ttl.value != 0 {
        ttlSeconds := ttl;
      }
      Reschedule(s, now, newItems);
    }

    method RecordNotModified(s: IngestSettings, now: Time, at: Time)
      modifies this
      ensures State() == After(old(State()), NotModified, s, now, at)
    {
      Log(at, NOT_MODIFIED, 304, 0);
      Reschedule(s, now, 0);
    }

    method RecordDisallowed(s: IngestSettings, now: Time, at: Time)
      modifies this
      ensures State() == After(old(State()), Disallowed, s, now, at)
    {
      Log(at, DISALLOWED, 0, 0);
      lastPolledAt := Some(now);
      nextPollAt := now + s.maxBackoffSeconds as real;
    }

    method RecordFailure(s: IngestSettings, now: Time, at: Time, status: int, retryAfter: Option<int>)
      modifies this
      ensures State() == Failed(old(State()), s, now, at, status, retryAfter)
    {
      Log(at, FAILED, status, 0);
      var failures := ConsecutiveFailures(polls, id);
      lastPolledAt := Some(now);
      if retryAfter.Some? {
        nextPollAt := now + retryAfter.value as real;
        return;
      }
      nextPollAt := now + NextInterval(s, None, failures, 0, ttlSeconds) as real;
    }

    method RecordAnswer(s: IngestSettings, now: Time, at: Time, status: int, header: RetryHeader)
      modifies this
      ensures State() == After(old(State()), Answered(status, header), s, now, at)
    {
      RecordFailure(s, now, at, status, RetryAfter(status, header, s));
    }
  }

  // -------------------------------------------------------------------------------------
  // The wait, after any poll whatever.

  /** The least a poll can leave a feed waiting, and the most it can without a ttl. */
  function LeastWait(s: IngestSettings): int {
    Lesser(s.minIntervalSeconds, Lesser(s.maxIntervalSeconds, s.maxBackoffSeconds))
  }

  function Lesser(a: int, b: int): int {
    if b < a then b else a
  }

  function MostWait(s: IngestSettings): int {
    if s.maxIntervalSeconds > s.maxBackoffSeconds then s.maxIntervalSeconds else s.maxBackoffSeconds
  }

  /** The wait a poll sets, in whole seconds. */
  function WaitAfter(f: FeedState, e: PollEvent, s: IngestSettings, at: Time): int {
    match e
    case Stored(newItems, ttl, _) => NextInterval(s, Previous(f), 0, newItems, if ttl.Some? && ttl.value != 0 then ttl else f.ttlSeconds)
    case NotModified => NextInterval(s, Previous(f), 0, 0, f.ttlSeconds)
    case Answered(status, header) =>
      if RetryAfter(status, header, s).Some? then RetryAfter(status, header, s).value else FailedWait(f, s, at, status)
    case Broken => FailedWait(f, s, at, 0)
    case Disallowed => s.maxBackoffSeconds
  }

  function FailedWait(f: FeedState, s: IngestSettings, at: Time, status: int): int {
    NextInterval(s, None, ConsecutiveFailures(f.polls + [FeedPoll(f.id, at, FAILED, status, 0)], f.id), 0, f.ttlSeconds)
  }

  lemma AfterWaits(f: FeedState, e: PollEvent, s: IngestSettings, now: Time, at: Time)
    ensures var g := After(f, e, s, now, at);
      g.lastPolledAt == Some(now) && g.nextPollAt == now + WaitAfter(f, e, s, at) as real
  {
  }

  lemma AfterTtl(f: FeedState, e: PollEvent, s: IngestSettings, now: Time, at: Time)
    ensures After(f, e, s, now, at).ttlSeconds
         == if e.Stored? && e.ttlSeconds.Some? && e.ttlSeconds.value != 0 then e.ttlSeconds else f.ttlSeconds
  {
  }

  /** Whatever the settings, whatever came before and however this poll ended, the feed is
      left waiting at least the smallest bound there is, and no longer than the larger ceiling
      or its own ttl. With bounds in order those are the minimum interval and the backoff ceiling. */
  lemma WaitWithinBounds(f: FeedState, e: PollEvent, s: IngestSettings, now: Time, at: Time)
    ensures var g := After(f, e, s, now, at);
      && g.lastPolledAt == Some(now)
      && LeastWait(s) as real <= g.nextPollAt - now
      && g.nextPollAt - now <= MaxOf(MostWait(s) as real, Asked(g.ttlSeconds) as real)
    ensures s.minIntervalSeconds <= s.maxIntervalSeconds <= s.maxBackoffSeconds ==>
      LeastWait(s) == s.minIntervalSeconds && MostWait(s) == s.maxBackoffSeconds
  {
    AfterWaits(f, e, s, now, at);
    AfterTtl(f, e, s, now, at);
    match e
    case Stored(newItems, _, _) => HealthyBetween(Previous(f), newItems, After(f, e, s, now, at).ttlSeconds, s);
    case NotModified => HealthyBetween(Previous(f), 0, f.ttlSeconds, s);
    case Answered(status, header) =>
      NamedBetween(status, header, s);
      FailedBetween(f, s, at, status);
    case Broken => FailedBetween(f, s, at, 0);
    case Disallowed =>
  }

  lemma FailedBetween(f: FeedState, s: IngestSettings, at: Time, status: int)
    ensures var wait := FailedWait(f, s, at, status);
      LeastWait(s) <= wait && wait as real <= MaxOf(MostWait(s) as real, Asked(f.ttlSeconds) as real)
  {
    var failures := ConsecutiveFailures(f.polls + [FeedPoll(f.id, at, FAILED, status, 0)], f.id);
    if failures > 0 {
      HeldBetween(Grown(s.defaultIntervalSeconds as real, s.backoffFactor, failures), WaitingOut(s));
    } else {
      HealthyBetween(None, 0, f.ttlSeconds, s);
    }
  }

  /** A clamped wait lies between its bounds, or is the ceiling when they are out of order. */
  lemma HeldBetween(x: real, p: Policy)
    ensures Lesser(p.minimumSeconds, p.maximumSeconds) <= Clamp(x, p) <= p.maximumSeconds
  {
  }

  lemma HealthyBetween(current: Option<int>, newItems: nat, ttl: Option<int>, s: IngestSettings)
    ensures var wait := NextInterval(s, current, 0, newItems, ttl);
      LeastWait(s) <= wait && wait as real <= MaxOf(MostWait(s) as real, Asked(ttl) as real)
  {
    HealthyHeld(current, newItems > 0, s);
  }

  lemma HealthyHeld(current: Option<int>, busy: bool, s: IngestSettings)
    ensures Lesser(s.minIntervalSeconds, s.maxIntervalSeconds) <= HealthyInterval(s, current, busy) <= s.maxIntervalSeconds
  {
    var base := if current.Some? && current.value != 0 then current.value else s.defaultIntervalSeconds;
    var grown := if busy then base as real * s.busyMultiplier else base as real * s.idleMultiplier;
    HeldBetween(grown, Bounds(s, s.maxIntervalSeconds));
  }

  lemma NamedBetween(status: int, header: RetryHeader, s: IngestSettings)
    ensures var wait := RetryAfter(status, header, s);
      wait.Some? ==> LeastWait(s) <= wait.value <= s.maxBackoffSeconds
  {
    if header.Whole? { HeldBetween(header.seconds as real, WaitingOut(s)); }
  }

  /** The ttl a publisher asked for is a floor under every wait but two: a refusal by robots.txt
      and a rate limit that named its own wait ignore it, and it holds after those exactly when
      what they set was no shorter. */
  lemma TtlIsFloor(f: FeedState, e: PollEvent, s: IngestSettings, now: Time, at: Time)
    requires s.honourFeedTtl
    ensures var g := After(f, e, s, now, at);
      var ignoring := match e {
        case Disallowed => Some(s.maxBackoffSeconds)
        case Answered(status, header) => RetryAfter(status, header, s)
        case _ => None
      };
      g.ttlSeconds.Some? && g.ttlSeconds.value != 0 ==>
        (g.nextPollAt - now >= g.ttlSeconds.value as real <==> (ignoring.Some? ==> ignoring.value >= g.ttlSeconds.value))
  {
  }

  /** Failing is what grows the run, and any other outcome ends it, as long as the log's clock
      moves between two polls of one feed. */
  lemma RunAfterPoll(f: FeedState, e: PollEvent, s: IngestSettings, now: Time, at: Time)
    requires Chronological(After(f, e, s, now, at).polls, PollReading(f.id))
    ensures ConsecutiveFailures(After(f, e, s, now, at).polls, f.id)
         == if OutcomeOf(e) == FAILED then ConsecutiveFailures(f.polls, f.id) + 1 else 0
  {
    var q := PollReading(f.id);
    var polls := After(f, e, s, now, at).polls;
    assert polls[..|f.polls|] == f.polls;
    LaterThanAll(polls, q);
    ChronologicalAppend(f.polls, q, polls[|f.polls|]);
  }

  /** What a poll was answered: nothing came back from one that raised or was not allowed. */
  function StatusOf(e: PollEvent): int {
    match e
    case Stored(_, _, status) => status
    case NotModified => 304
    case Answered(status, _) => status
    case Broken => 0
    case Disallowed => 0
  }

  /** Every poll logs one row, of its own feed, with how it ended and what was answered; it leaves the
      rows before it, and the feed has succeeded at it exactly when it reached the document. */
  lemma EveryPollIsLogged(f: FeedState, e: PollEvent, s: IngestSettings, now: Time, at: Time)
    ensures var g := After(f, e, s, now, at);
      && g.id == f.id && g.polls == f.polls + [FeedPoll(f.id, at, OutcomeOf(e), StatusOf(e), if e.Stored? then e.newItems else 0)]
      && g.lastSuccessAt == if OutcomeOf(e) in {OK, NOT_MODIFIED} then Some(now) else f.lastSuccessAt
  {
  }

  /** A feed never polled, or left no time at all, starts from the default interval: halved where the
      first poll finds something and lengthened by a quarter where it does not, as shipped. */
  lemma FirstPoll(f: FeedState, v: Visit, busy: bool)
    requires Previous(f) in {None, Some(0)} && Healthily(v, busy) && Undemanding(f.ttlSeconds)
    ensures After(f, v.event, DEFAULTS, v.now, v.at).nextPollAt == v.now + if busy then 450.0 else 1125.0
  {
    HealthyStep(f, DEFAULTS, v, busy);
    assert (900.0 * 0.5).Floor == 450 && (900.0 * 1.25).Floor == 1125;
  }

  /** A failure that names no wait of its own: nothing came back, or nothing that says how long. */
  predicate FailsUnnamed(e: PollEvent, s: IngestSettings) {
    e.Broken? || (e.Answered? && RetryAfter(e.status, e.header, s) == None)
  }

  /** While a feed keeps failing without naming a wait, each wait is at least the one before. */
  lemma FailingWaitsLonger(f: FeedState, s: IngestSettings, e: PollEvent, now: Time, at: Time, e': PollEvent, now': Time, at': Time)
    requires Sound(s) && s.backoffFactor >= 1.0 && s.defaultIntervalSeconds >= 0
    requires FailsUnnamed(e, s) && FailsUnnamed(e', s)
    requires var once := After(f, e, s, now, at);
      Chronological(After(once, e', s, now', at').polls, PollReading(f.id))
    ensures var once := After(f, e, s, now, at);
      var twice := After(once, e', s, now', at');
      once.nextPollAt - now <= twice.nextPollAt - now'
  {
    var once := After(f, e, s, now, at);
    var twice := After(once, e', s, now', at');
    AfterUnnamed(f, e, s, now, at);
    AfterUnnamed(once, e', s, now', at');
    EarlierChronological(once.polls, twice.polls, f.id);
    RunAfterPoll(once, e', s, now', at');
    RunAfterPoll(f, e, s, now, at);
    var run := ConsecutiveFailures(once.polls, f.id);
    FailedGrows(s, run, f.ttlSeconds);
  }

  lemma AfterUnnamed(f: FeedState, e: PollEvent, s: IngestSettings, now: Time, at: Time)
    requires FailsUnnamed(e, s)
    ensures var g := After(f, e, s, now, at);
      && g.nextPollAt - now == NextInterval(s, None, ConsecutiveFailures(g.polls, f.id), 0, f.ttlSeconds) as real
      && g.id == f.id && g.ttlSeconds == f.ttlSeconds && OutcomeOf(e) == FAILED
      && |g.polls| == |f.polls| + 1 && g.polls[..|f.polls|] == f.polls
  {
  }

  lemma EarlierChronological(polls: seq<FeedPoll>, longer: seq<FeedPoll>, feed: FeedId)
    requires |polls| <= |longer| && longer[..|polls|] == polls && Chronological(longer, PollReading(feed))
    ensures Chronological(polls, PollReading(feed))
  {
    var q := PollReading(feed);
    forall i, j | 0 <= i < j < |polls| && q.scope(polls[i]) && q.scope(polls[j]) ensures q.at(polls[i]) < q.at(polls[j]) {
      assert polls[i] == longer[i] && polls[j] == longer[j];
      assert q.scope(longer[i]) && q.scope(longer[j]);
    }
  }

  lemma FailedGrows(s: IngestSettings, run: nat, ttl: Option<int>)
    requires Sound(s) && s.backoffFactor >= 1.0 && s.defaultIntervalSeconds >= 0 && run > 0
    ensures NextInterval(s, None, run, 0, ttl) <= NextInterval(s, None, run + 1, 0, ttl)
  {
    WaitGrows(WaitingOut(s), run, run + 1, s.defaultIntervalSeconds as real);
  }

  // -------------------------------------------------------------------------------------
  // Where a healthy feed's interval goes, truncation and all.

  /** The interval after `n` polls that all found something, or all found nothing. */
  function Drift(s: IngestSettings, seconds: int, busy: bool, n: nat): int {
    if n == 0 then seconds
    else NextInterval(s, Some(Drift(s, seconds, busy, n - 1)), 0, if busy then 1 else 0, None)
  }

  ghost predicate Healthy(s: IngestSettings, seconds: int) {
    s.minIntervalSeconds <= seconds <= s.maxIntervalSeconds
  }

  ghost predicate Reaches(s: IngestSettings, seconds: int, busy: bool, goal: int) {
    exists n: nat :: Drift(s, seconds, busy, n) == goal
  }

  lemma {:induction false} DriftStaysHealthy(s: IngestSettings, seconds: int, busy: bool, n: nat)
    requires 0 < s.minIntervalSeconds && Healthy(s, seconds)
    ensures Healthy(s, Drift(s, seconds, busy, n))
  {
    if n > 0 {
      DriftStaysHealthy(s, seconds, busy, n - 1);
    }
  }

  lemma MultipliedGains(low: int, x: int, multiplier: real)
    requires 0 < low <= x && low as real * multiplier >= (low + 1) as real
    ensures x as real * multiplier >= (x + 1) as real
  {
    assert multiplier > 1.0;
    assert (x - low) as real * (multiplier - 1.0) >= 0.0;
  }

  /** One quiet poll lengthens a healthy interval, unless it is at the ceiling already. */
  lemma QuietStep(s: IngestSettings, x: int)
    requires 0 < s.minIntervalSeconds && Healthy(s, x)
    requires s.minIntervalSeconds as real * s.idleMultiplier >= (s.minIntervalSeconds + 1) as real
    ensures var y := NextInterval(s, Some(x), 0, 0, None); y > x || y == s.maxIntervalSeconds
  {
    MultipliedGains(s.minIntervalSeconds, x, s.idleMultiplier);
    var grown := x as real * s.idleMultiplier;
    HeldGrows((x + 1) as real, grown, Bounds(s, s.maxIntervalSeconds));
  }

  lemma MultipliedLoses(x: int, multiplier: real)
    requires x > 0 && multiplier < 1.0
    ensures x as real * multiplier < x as real
  {
    assert x as real * (1.0 - multiplier) > 0.0;
  }

  lemma MultipliedKeeps(x: int, multiplier: real)
    requires x > 0 && multiplier >= 1.0
    ensures x as real * multiplier >= x as real
  {
    assert x as real * (multiplier - 1.0) >= 0.0;
  }

  lemma CutShortens(x: int, cut: real, bounds: Policy)
    requires 0 < bounds.minimumSeconds <= x <= bounds.maximumSeconds && cut < x as real
    ensures Clamp(cut, bounds) < x || Clamp(cut, bounds) == bounds.minimumSeconds
  {
    HeldGrows(cut, x as real, bounds);
  }

  lemma BusyStep(s: IngestSettings, x: int)
    requires 0 < s.minIntervalSeconds && Healthy(s, x) && s.busyMultiplier < 1.0
    ensures var y := NextInterval(s, Some(x), 0, 1, None); y < x || y == s.minIntervalSeconds
  {
    MultipliedLoses(x, s.busyMultiplier);
    CutShortens(x, x as real * s.busyMultiplier, Bounds(s, s.maxIntervalSeconds));
  }

  lemma {:induction false} QuietReaches(s: IngestSettings, x: int, n: nat)
    requires 0 < s.minIntervalSeconds && Healthy(s, x)
    requires s.minIntervalSeconds as real * s.idleMultiplier >= (s.minIntervalSeconds + 1) as real
    ensures Drift(s, x, false, n) >= x + n || Drift(s, x, false, n) == s.maxIntervalSeconds
  {
    if n > 0 {
      QuietReaches(s, x, n - 1);
      DriftStaysHealthy(s, x, false, n - 1);
      DriftStaysHealthy(s, x, false, n);
      QuietStep(s, Drift(s, x, false, n - 1));
    }
  }

  lemma {:induction false} BusyReaches(s: IngestSettings, x: int, n: nat)
    requires 0 < s.minIntervalSeconds && Healthy(s, x) && s.busyMultiplier < 1.0
    ensures Drift(s, x, true, n) <= x - n || Drift(s, x, true, n) == s.minIntervalSeconds
  {
    if n > 0 {
      BusyReaches(s, x, n - 1);
      DriftStaysHealthy(s, x, true, n - 1);
      DriftStaysHealthy(s, x, true, n);
      BusyStep(s, Drift(s, x, true, n - 1));
    }
  }

  lemma {:induction false} Stuck(s: IngestSettings, x: int, busy: bool, n: nat)
    requires NextInterval(s, Some(x), 0, if busy then 1 else 0, None) == x
    ensures Drift(s, x, busy, n) == x
  {
    if n > 0 {
      Stuck(s, x, busy, n - 1);
    }
  }

  lemma ClampKeeps(kept: real, x: int, bounds: Policy)
    requires 0 < bounds.minimumSeconds <= x <= bounds.maximumSeconds && kept >= x as real
    ensures Clamp(kept, bounds) >= x
  {
    HeldGrows(x as real, kept, bounds);
  }

  lemma StuckAtTheCeiling(s: IngestSettings)
    requires 0 < s.minIntervalSeconds <= s.maxIntervalSeconds && s.busyMultiplier >= 1.0
    ensures NextInterval(s, Some(s.maxIntervalSeconds), 0, 1, None) == s.maxIntervalSeconds
  {
    HealthyHeld(Some(s.maxIntervalSeconds), true, s);
    BusyKeeps(s, s.maxIntervalSeconds);
  }

  lemma BusyKeeps(s: IngestSettings, x: int)
    requires 0 < s.minIntervalSeconds <= x <= s.maxIntervalSeconds && s.busyMultiplier >= 1.0
    ensures HealthyInterval(s, Some(x), true) >= x
  {
    MultipliedKeeps(x, s.busyMultiplier);
    ClampKeeps(x as real * s.busyMultiplier, x, Bounds(s, s.maxIntervalSeconds));
  }

  /** Quiet polls take every healthy interval to the ceiling exactly when one quiet poll
      lengthens the shortest of them by a whole second: below that, truncation holds it still. */
  lemma QuietFeedsReachTheCeiling(s: IngestSettings)
    requires 0 < s.minIntervalSeconds <= s.maxIntervalSeconds
    ensures (forall x :: Healthy(s, x) ==> Reaches(s, x, false, s.maxIntervalSeconds))
       <==> s.minIntervalSeconds == s.maxIntervalSeconds
            || s.minIntervalSeconds as real * s.idleMultiplier >= (s.minIntervalSeconds + 1) as real
  {
    var low, high := s.minIntervalSeconds, s.maxIntervalSeconds;
    if low == high {
      forall x | Healthy(s, x) ensures Reaches(s, x, false, high) {
        assert Drift(s, x, false, 0) == high;
      }
    } else if low as real * s.idleMultiplier >= (low + 1) as real {
      forall x | Healthy(s, x) ensures Reaches(s, x, false, high) {
        QuietReaches(s, x, high - x);
        DriftStaysHealthy(s, x, false, high - x);
      }
    } else {
      var grown := low as real * s.idleMultiplier;
      HeldGrows(grown, grown, Bounds(s, high));
      assert NextInterval(s, Some(low), 0, 0, None) == low;
      forall n: nat ensures Drift(s, low, false, n) == low {
        Stuck(s, low, false, n);
      }
      assert Healthy(s, low) && !Reaches(s, low, false, high);
    }
  }

  /** A busy feed comes down to the floor from every healthy interval exactly when the busy
      multiplier shortens at all. Truncation only ever helps it down. */
  lemma BusyFeedsReachTheFloor(s: IngestSettings)
    requires 0 < s.minIntervalSeconds <= s.maxIntervalSeconds
    ensures (forall x :: Healthy(s, x) ==> Reaches(s, x, true, s.minIntervalSeconds))
       <==> s.minIntervalSeconds == s.maxIntervalSeconds || s.busyMultiplier < 1.0
  {
    var low, high := s.minIntervalSeconds, s.maxIntervalSeconds;
    if low == high {
      forall x | Healthy(s, x) ensures Reaches(s, x, true, low) {
        assert Drift(s, x, true, 0) == low;
      }
    } else if s.busyMultiplier < 1.0 {
      forall x | Healthy(s, x) ensures Reaches(s, x, true, low) {
        BusyReaches(s, x, x - low);
        DriftStaysHealthy(s, x, true, x - low);
      }
    } else {
      StuckAtTheCeiling(s);
      forall n: nat ensures Drift(s, high, true, n) == high {
        Stuck(s, high, true, n);
      }
      assert Healthy(s, high) && !Reaches(s, high, true, low);
    }
  }

  /** A longer interval stays longer, poll for poll. */
  lemma {:induction false} DriftGrows(x: int, y: int, busy: bool, n: nat)
    requires Healthy(DEFAULTS, x) && Healthy(DEFAULTS, y) && x <= y
    ensures Drift(DEFAULTS, x, busy, n) <= Drift(DEFAULTS, y, busy, n)
  {
    if n > 0 {
      DriftGrows(x, y, busy, n - 1);
      DriftStaysHealthy(DEFAULTS, x, busy, n - 1);
      DriftStaysHealthy(DEFAULTS, y, busy, n - 1);
      DefaultStep(Drift(DEFAULTS, x, busy, n - 1), busy);
      DefaultStep(Drift(DEFAULTS, y, busy, n - 1), busy);
    }
  }

  lemma DefaultDrift(x: int)
    requires Healthy(DEFAULTS, x)
    ensures Drift(DEFAULTS, x, false, 20) == 21600 && Drift(DEFAULTS, 300, false, 19) == 20721
    ensures Drift(DEFAULTS, x, true, 7) == 300 && Drift(DEFAULTS, 21600, true, 6) == 337
  {
    QuietFromTheFloor();
    FromTheFloor(x, 20);
    BusyFromTheCeiling();
    FromTheCeiling(x, 7);
  }

  /** What the shortest interval reaches, every other has reached by then. */
  lemma FromTheFloor(x: int, n: nat)
    requires Healthy(DEFAULTS, x) && Drift(DEFAULTS, 300, false, n) == 21600
    ensures Drift(DEFAULTS, x, false, n) == 21600
  {
    DriftGrows(300, x, false, n);
    DriftStaysHealthy(DEFAULTS, x, false, n);
  }

  lemma FromTheCeiling(x: int, n: nat)
    requires Healthy(DEFAULTS, x) && Drift(DEFAULTS, 21600, true, n) == 300
    ensures Drift(DEFAULTS, x, true, n) == 300
  {
    DriftGrows(x, 21600, true, n);
    DriftStaysHealthy(DEFAULTS, x, true, n);
  }

  /** One poll of a feed: how it ended, when its job began, and when it committed. */
  datatype Visit = Visit(event: PollEvent, now: Time, at: Time)

  /** It went well, found something or found nothing as `busy` says, and asked for no ttl. */
  predicate Healthily(v: Visit, busy: bool) {
    match v.event
    case NotModified => !busy
    case Stored(newItems, ttl, _) => (newItems > 0 <==> busy) && (ttl == None || ttl == Some(0))
    case _ => false
  }

  function Visited(f: FeedState, s: IngestSettings, visits: seq<Visit>): FeedState {
    if visits == [] then f
    else
      var v := visits[|visits| - 1];
      After(Visited(f, s, visits[..|visits| - 1]), v.event, s, v.now, v.at)
  }

  predicate Undemanding(ttl: Option<int>) {
    ttl == None || ttl == Some(0)
  }

  lemma CutWhole(now: Time, wait: int)
    ensures Trunc(now + wait as real - now) == wait
  {
    assert now + wait as real - now == wait as real;
  }

  lemma UndemandingInterval(s: IngestSettings, current: Option<int>, newItems: nat, ttl: Option<int>, busy: bool)
    requires Undemanding(ttl) && (newItems > 0 <==> busy)
    ensures NextInterval(s, current, 0, newItems, ttl) == NextInterval(s, current, 0, if busy then 1 else 0, None)
  {
    assert (newItems > 0) == busy;
  }

  lemma HealthyWait(f: FeedState, s: IngestSettings, v: Visit, busy: bool)
    requires Healthily(v, busy) && Undemanding(f.ttlSeconds)
    ensures WaitAfter(f, v.event, s, v.at) == NextInterval(s, Previous(f), 0, if busy then 1 else 0, None)
  {
    match v.event
    case Stored(newItems, ttl, _) => UndemandingInterval(s, Previous(f), newItems, f.ttlSeconds, busy);
    case NotModified => UndemandingInterval(s, Previous(f), 0, f.ttlSeconds, busy);
  }

  lemma HealthyStep(f: FeedState, s: IngestSettings, v: Visit, busy: bool)
    requires Healthily(v, busy) && Undemanding(f.ttlSeconds)
    ensures var g := After(f, v.event, s, v.now, v.at);
      var next := NextInterval(s, Previous(f), 0, if busy then 1 else 0, None);
      && Undemanding(g.ttlSeconds) && g.lastPolledAt == Some(v.now) && g.nextPollAt == v.now + next as real
      && Previous(g) == Some(next)
  {
    AfterWaits(f, v.event, s, v.now, v.at);
    AfterTtl(f, v.event, s, v.now, v.at);
    HealthyWait(f, s, v, busy);
    CutWhole(v.now, WaitAfter(f, v.event, s, v.at));
  }

  /** Read back off the row each time, the interval goes where the drift says, poll for poll. */
  lemma {:induction false} PollsDrift(f: FeedState, s: IngestSettings, visits: seq<Visit>, busy: bool)
    requires Previous(f).Some? && Undemanding(f.ttlSeconds) && forall i :: 0 <= i < |visits| ==> Healthily(visits[i], busy)
    ensures var g := Visited(f, s, visits);
      && Undemanding(g.ttlSeconds)
      && Previous(g) == Some(Drift(s, Previous(f).value, busy, |visits|))
      && (visits != [] ==> g.lastPolledAt.Some? && g.nextPollAt == g.lastPolledAt.value + Previous(g).value as real)
  {
    if visits != [] {
      var n := |visits| - 1;
      PollsDrift(f, s, visits[..n], busy);
      HealthyStep(Visited(f, s, visits[..n]), s, visits[n], busy);
    }
  }

  /** Under the shipped settings and with no ttl, twenty quiet polls leave any healthy feed waiting
      the six-hour ceiling and seven busy ones the five-minute floor, truncation and all; and from
      the other end neither count can be one smaller. */
  lemma DefaultPolls(f: FeedState, visits: seq<Visit>, busy: bool)
    requires Previous(f).Some? && Healthy(DEFAULTS, Previous(f).value) && Undemanding(f.ttlSeconds)
    requires forall i :: 0 <= i < |visits| ==> Healthily(visits[i], busy)
    ensures var g := Visited(f, DEFAULTS, visits);
      && (!busy && |visits| == 20 ==> g.nextPollAt == g.lastPolledAt.value + 21600.0)
      && (busy && |visits| == 7 ==> g.nextPollAt == g.lastPolledAt.value + 300.0)
      && (!busy && |visits| == 19 && Previous(f) == Some(300) ==> g.nextPollAt == g.lastPolledAt.value + 20721.0)
      && (busy && |visits| == 6 && Previous(f) == Some(21600) ==> g.nextPollAt == g.lastPolledAt.value + 337.0)
  {
    PollsDrift(f, DEFAULTS, visits, busy);
    DefaultDrift(Previous(f).value);
  }

  /** One poll under the shipped settings, in whole seconds. */
  lemma DefaultStep(x: int, busy: bool)
    requires Healthy(DEFAULTS, x)
    ensures NextInterval(DEFAULTS, Some(x), 0, if busy then 1 else 0, None)
         == if busy then if x / 2 < 300 then 300 else x / 2
            else if 5 * x / 4 > 21600 then 21600 else 5 * x / 4
  {
    var next := if busy then x as real * 0.5 else x as real * 1.25;
    assert next.Floor == if busy then x / 2 else 5 * x / 4;
  }

  /** `Drift` under the shipped settings, in integers alone. */
  function WholeDrift(x: int, busy: bool, n: nat): int {
    if n == 0 then x
    else
      var before := WholeDrift(x, busy, n - 1);
      if busy then if before / 2 < 300 then 300 else before / 2
      else if 5 * before / 4 > 21600 then 21600 else 5 * before / 4
  }

  lemma {:induction false} DriftIsWhole(x: int, busy: bool, n: nat)
    requires Healthy(DEFAULTS, x)
    ensures Drift(DEFAULTS, x, busy, n) == WholeDrift(x, busy, n)
  {
    if n > 0 {
      DriftIsWhole(x, busy, n - 1);
      DriftStaysHealthy(DEFAULTS, x, busy, n - 1);
      DefaultStep(Drift(DEFAULTS, x, busy, n - 1), busy);
    }
  }

  lemma QuietFromTheFloor()
    ensures Drift(DEFAULTS, 300, false, 19) == 20721 && Drift(DEFAULTS, 300, false, 20) == 21600
  {
    assert WholeDrift(300, false, 1) == 375;
    assert WholeDrift(300, false, 2) == 468;
    assert WholeDrift(300, false, 3) == 585;
    assert WholeDrift(300, false, 4) == 731;
    assert WholeDrift(300, false, 5) == 913;
    assert WholeDrift(300, false, 6) == 1141;
    assert WholeDrift(300, false, 7) == 1426;
    assert WholeDrift(300, false, 8) == 1782;
    assert WholeDrift(300, false, 9) == 2227;
    assert WholeDrift(300, false, 10) == 2783;
    assert WholeDrift(300, false, 11) == 3478;
    assert WholeDrift(300, false, 12) == 4347;
    assert WholeDrift(300, false, 13) == 5433;
    assert WholeDrift(300, false, 14) == 6791;
    assert WholeDrift(300, false, 15) == 8488;
    assert WholeDrift(300, false, 16) == 10610;
    assert WholeDrift(300, false, 17) == 13262;
    assert WholeDrift(300, false, 18) == 16577;
    assert WholeDrift(300, false, 19) == 20721;
    assert WholeDrift(300, false, 20) == 21600;
    DriftIsWhole(300, false, 19);
    DriftIsWhole(300, false, 20);
  }

  lemma BusyFromTheCeiling()
    ensures Drift(DEFAULTS, 21600, true, 6) == 337 && Drift(DEFAULTS, 21600, true, 7) == 300
  {
    assert WholeDrift(21600, true, 1) == 10800;
    assert WholeDrift(21600, true, 2) == 5400;
    assert WholeDrift(21600, true, 3) == 2700;
    assert WholeDrift(21600, true, 4) == 1350;
    assert WholeDrift(21600, true, 5) == 675;
    assert WholeDrift(21600, true, 6) == 337;
    assert WholeDrift(21600, true, 7) == 300;
    DriftIsWhole(21600, true, 6);
    DriftIsWhole(21600, true, 7);
  }
}
