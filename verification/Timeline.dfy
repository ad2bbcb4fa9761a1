/** Whole polls: what each does to the tables and to its feed's row at once, as `poll_feed` of
    `ingest/service.py` has it, with and without the skip of an unchanged body. */
module Timeline {
  import opened Wrappers
  import opened RunLog
  import opened Ingest
  import Schedule
  import Shortcut

  /** What a poll met: a document that was read, or one of the ways there was none to read. */
  datatype Answer = Served(response: Response, ttl: Option<int>, status: int) | Nothing(event: Schedule.PollEvent)

  /** Whose poll, what it met, when its job began and when it committed. */
  datatype Visit = Visit(feed: FeedId, answer: Answer, now: Time, at: Time)

  datatype World = World(tables: Tables, feeds: FeedId -> Schedule.FeedState)

  function Step(w: World, v: Visit, parse: Parse, s: Schedule.IngestSettings, skip: bool): World {
    match v.answer
    case Served(response, ttl, status) =>
      var polled := Shortcut.StorePoll(w.tables, v.feed, response, parse, v.now, skip);
      Moved(w.(tables := polled.tables), v, Schedule.Stored(polled.newItems, ttl, status), s)
    case Nothing(event) => Moved(w, v, event, s)
  }

  /** The row of the feed polled, moved as its ending moves it. */
  function Moved(w: World, v: Visit, event: Schedule.PollEvent, s: Schedule.IngestSettings): World {
    var row := Schedule.After(w.feeds(v.feed), event, s, v.now, v.at);
    w.(feeds := (feed: FeedId) => if feed == v.feed then row else w.feeds(feed))
  }

  function Play(w: World, visits: seq<Visit>, parse: Parse, s: Schedule.IngestSettings, skip: bool): World {
    if visits == [] then w
    else Step(Play(w, visits[..|visits| - 1], parse, s, skip), visits[|visits| - 1], parse, s, skip)
  }

  ghost predicate ServedFrom(visits: seq<Visit>, served: FeedId -> Url) {
    forall i :: 0 <= i < |visits| && visits[i].answer.Served? ==> visits[i].answer.response.url == served(visits[i].feed)
  }

  /** The skip changes neither the tables nor any feed's row, and leaves every last document at
      its heads for the next. */
  lemma StepIsTheSame(w: World, v: Visit, parse: Parse, s: Schedule.IngestSettings, served: FeedId -> Url)
    requires Shortcut.Settled(w.tables, parse, served)
    requires v.answer.Served? ==> v.answer.response.url == served(v.feed)
    ensures Step(w, v, parse, s, true) == Step(w, v, parse, s, false)
    ensures Shortcut.Settled(Step(w, v, parse, s, true).tables, parse, served)
  {
    if v.answer.Served? {
      var response := v.answer.response;
      if Shortcut.Unchanged(w.tables, v.feed, response.body) {
        assert Shortcut.SettledFeed(w.tables, parse, served, v.feed);
      }
      Shortcut.ShortcutShows(w.tables, v.feed, response, parse, v.now);
      Shortcut.StorePollSettled(w.tables, Shortcut.Poll(v.feed, response, v.now), parse, served, true);
    }
  }

  /** Over every run of polls of any feeds, whatever each of them met, skipping unchanged bodies
      leaves the same items, the same versions and every feed due at the same time as applying
      every body, as long as each feed is served from one URL. */
  lemma {:induction false} ScheduleIsTheSame(w: World, visits: seq<Visit>, parse: Parse, s: Schedule.IngestSettings, served: FeedId -> Url)
    requires Shortcut.Settled(w.tables, parse, served) && ServedFrom(visits, served)
    ensures Play(w, visits, parse, s, true) == Play(w, visits, parse, s, false)
    ensures Shortcut.Settled(Play(w, visits, parse, s, true).tables, parse, served)
  {
    if visits != [] {
      var init := visits[..|visits| - 1];
      ScheduleIsTheSame(w, init, parse, s, served);
      StepIsTheSame(Play(w, init, parse, s, true), visits[|visits| - 1], parse, s, served);
    }
  }

  /** And so for every archive that began empty, whatever its feeds' rows were. */
  lemma ScheduleFromNothing(feeds: FeedId -> Schedule.FeedState, visits: seq<Visit>, parse: Parse, s: Schedule.IngestSettings,
      served: FeedId -> Url)
    requires ServedFrom(visits, served)
    ensures var w := World(Tables([], [], []), feeds); Play(w, visits, parse, s, true) == Play(w, visits, parse, s, false)
  {
    Shortcut.NothingStored(parse, served);
    ScheduleIsTheSame(World(Tables([], [], []), feeds), visits, parse, s, served);
  }
}
