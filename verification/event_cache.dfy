/** The process-wide event cache of `services/calendar_service.py` (`EVENT_CACHE`,
    `get_upcoming_events`, `create_event`) and the finder reading through it.
    The calendar backend is an input: what its list call returns (or `None` when the call
    raises) and what its insert call returns. Clock readings are local wall-clock
    microseconds, as `datetime.now()` gives them. */
module EventCache {
  import opened Wrappers
  import opened Dates
  import opened Events
  import Availability

  /** Cached events are reused for this many seconds. */
  const FreshSeconds: int := 30
  const MicrosPerSecond: int := 1000000
  const SecondsPerDay: int := 86400

  datatype Cache = Cache(lastFetched: Option<int>, events: seq<Event>)

  /** The cache as the module starts: never fetched, no events. */
  const InitialCache: Cache := Cache(None, [])

  /** `(now - earlier).seconds`: the seconds field of a normalised `timedelta`, which leaves
      whole days out (and wraps a negative difference into the previous day). */
  function SecondsField(earlier: int, now: int): (s: int)
    ensures 0 <= s < SecondsPerDay
  {
    ((now - earlier) / MicrosPerSecond) % SecondsPerDay
  }

  predicate IsFresh(c: Cache, now: int) {
    c.lastFetched.Some? && SecondsField(c.lastFetched.value, now) < FreshSeconds
  }

  /** The cache counts as fresh in a 30-second window after the fetch and in the same
      window shifted by every whole number of days, before or after. */
  lemma FreshWindows(c: Cache, now: int)
    requires c.lastFetched.Some?
    ensures IsFresh(c, now) <==>
      var day := SecondsPerDay * MicrosPerSecond;
      var k := (now - c.lastFetched.value) / day;
      c.lastFetched.value + k * day <= now < c.lastFetched.value + k * day + FreshSeconds * MicrosPerSecond
  {
    var delta := now - c.lastFetched.value;
    var day := SecondsPerDay * MicrosPerSecond;
    var secs := delta / MicrosPerSecond;
    var k := delta / day;
    assert secs / SecondsPerDay == k by {
      SecondsThenDays(delta);
    }
    assert secs % SecondsPerDay == secs - k * SecondsPerDay;
    assert delta - k * day == (secs - k * SecondsPerDay) * MicrosPerSecond + delta % MicrosPerSecond;
  }

  /** Whole seconds, then whole days, is whole days. */
  lemma SecondsThenDays(a: int)
    ensures (a / MicrosPerSecond) / SecondsPerDay == a / (SecondsPerDay * MicrosPerSecond)
  {
    var q := (a / MicrosPerSecond) / SecondsPerDay;
    var r := (a / MicrosPerSecond) % SecondsPerDay;
    assert a / MicrosPerSecond == q * SecondsPerDay + r;
    assert a == q * (SecondsPerDay * MicrosPerSecond) + (r * MicrosPerSecond + a % MicrosPerSecond);
  }

  /** What one read of the event list produced. `events` is `None` when the backend call
      raised; the exception then reaches the caller and the cache stays as it was. */
  datatype Read = Read(events: Option<seq<Event>>, cache: Cache, calledBackend: bool)

  /** `get_upcoming_events(force_refresh=force)` at clock reading `now`. On a backend call
      `listing` is what the call returns and `fetchedAt` is the clock reading taken when
      the cache is updated. */
  function GetUpcomingEvents(c: Cache, force: bool, now: int,
                             listing: Option<seq<Event>>, fetchedAt: int): (r: Read)
    ensures r.calledBackend <==> force || !IsFresh(c, now)
    ensures !r.calledBackend ==> r.events == Some(c.events) && r.cache == c
    ensures r.calledBackend ==> r.events == listing
    ensures r.calledBackend && listing.Some? ==> r.cache == Cache(Some(fetchedAt), listing.value)
    ensures listing.None? ==> r.cache == c
  {
    if !force && IsFresh(c, now) then Read(Some(c.events), c, false)
    else match listing
      case Some(evs) => Read(Some(evs), Cache(Some(fetchedAt), evs), true)
      case None => Read(None, c, true)
  }

  /** The quirk of the freshness test: a cache fetched a day and ten seconds ago still
      counts as fresh. */
  lemma StaleByDaysStillFresh(fetched: int, events: seq<Event>)
    ensures IsFresh(Cache(Some(fetched), events), fetched + (SecondsPerDay + 10) * MicrosPerSecond)
  {}

  /** A clock reading one second before the fetch makes the cache stale. */
  lemma EarlierClockIsStale(fetched: int, events: seq<Event>)
    ensures !IsFresh(Cache(Some(fetched), events), fetched - MicrosPerSecond)
  {}

  /** A second read inside the window of the fetch behind a successful read returns the
      same events without calling the backend, whatever the backend would have answered. */
  lemma ReadWithinWindowRepeats(c: Cache, force: bool, now1: int, listing1: Option<seq<Event>>, fetchedAt: int,
                                now2: int, listing2: Option<seq<Event>>, fetchedAt2: int)
    requires var r1 := GetUpcomingEvents(c, force, now1, listing1, fetchedAt);
      && r1.events.Some? && r1.cache.lastFetched.Some?
      && 0 <= now2 - r1.cache.lastFetched.value < FreshSeconds * MicrosPerSecond
    ensures var r1 := GetUpcomingEvents(c, force, now1, listing1, fetchedAt);
      var r2 := GetUpcomingEvents(r1.cache, false, now2, listing2, fetchedAt2);
      !r2.calledBackend && r2.events == r1.events && r2.cache == r1.cache
  {}

  /** What the backend's insert call returned. */
  datatype Insert = Inserted(link: string) | InsertFailed(message: string)

  /** What `create_event` gave its caller: the event link, or the exception it raised
      (from the insert, or from the forced refresh after a successful insert). */
  datatype Created = Created(link: string) | InsertError(message: string) | RefreshError

  datatype Booking = Booking(summary: string, start: int, end: int)

  /** `create_event`: insert, then force a refresh of the cache. `request` is the event
      sent to the insert call; what the calendar answers is the input `insert`, so the
      request only names, at each call, the booking being made; it does not change the result. */
  function CreateEvent(c: Cache, request: Booking, insert: Insert,
                       listing: Option<seq<Event>>, fetchedAt: int): (r: (Created, Cache))
    ensures r.0.Created? <==> insert.Inserted? && listing.Some?
    ensures r.0.Created? ==> r.0.link == insert.link && r.1 == Cache(Some(fetchedAt), listing.value)
    ensures !r.0.Created? ==> r.1 == c
  {
    match insert
    case InsertFailed(m) => (InsertError(m), c)
    case Inserted(link) =>
      var read := GetUpcomingEvents(c, true, fetchedAt, listing, fetchedAt);
      if read.events.Some? then (Created(link), read.cache) else (RefreshError, c)
  }

  /** After a booking, a read inside the window returns the listing fetched after the
      insert, never the events cached before it. */
  lemma BookingRefreshesCache(c: Cache, request: Booking, insert: Insert, listing: Option<seq<Event>>,
                              fetchedAt: int, now: int, later: Option<seq<Event>>, laterAt: int)
    requires CreateEvent(c, request, insert, listing, fetchedAt).0.Created?
    requires 0 <= now - fetchedAt < FreshSeconds * MicrosPerSecond
    ensures GetUpcomingEvents(CreateEvent(c, request, insert, listing, fetchedAt).1, false, now, later, laterAt).events
         == listing
  {}

  /** `find_available_slots` reading its events through the cache. `None` stands for the
      exception a failed backend call raises. */
  function FindAvailableSlotsCached(c: Cache, now: int, listing: Option<seq<Event>>, fetchedAt: int,
                                    duration: int, daysAhead: int, today: Date,
                                    preferred: Option<Date>, range: Option<string>): (r: (Option<seq<int>>, Cache))
    ensures r.1 == GetUpcomingEvents(c, false, now, listing, fetchedAt).cache
    ensures r.0.Some? <==> GetUpcomingEvents(c, false, now, listing, fetchedAt).events.Some?
    ensures r.0.Some? ==>
      r.0.value == Availability.FindAvailableSlots(GetUpcomingEvents(c, false, now, listing, fetchedAt).events.value,
                                                   duration, daysAhead, today, preferred, range)
  {
    var read := GetUpcomingEvents(c, false, now, listing, fetchedAt);
    match read.events
    case Some(evs) => (Some(Availability.FindAvailableSlots(evs, duration, daysAhead, today, preferred, range)), read.cache)
    case None => (None, read.cache)
  }

  /** Searching twice inside the staleness window with no booking in between gives the
      same answer, even if the calendar changed meanwhile. */
  lemma FindWithinWindowRepeats(c: Cache, now1: int, listing1: Option<seq<Event>>, fetchedAt: int,
                                now2: int, listing2: Option<seq<Event>>, fetchedAt2: int,
                                duration: int, daysAhead: int, today: Date,
                                preferred: Option<Date>, range: Option<string>)
    requires var r1 := FindAvailableSlotsCached(c, now1, listing1, fetchedAt, duration, daysAhead, today, preferred, range);
      && r1.0.Some? && r1.1.lastFetched.Some?
      && 0 <= now2 - r1.1.lastFetched.value < FreshSeconds * MicrosPerSecond
    ensures var r1 := FindAvailableSlotsCached(c, now1, listing1, fetchedAt, duration, daysAhead, today, preferred, range);
      FindAvailableSlotsCached(r1.1, now2, listing2, fetchedAt2, duration, daysAhead, today, preferred, range) == r1
  {
    ReadWithinWindowRepeats(c, false, now1, listing1, fetchedAt, now2, listing2, fetchedAt2);
  }
}
