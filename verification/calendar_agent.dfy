/** `CalendarAgent` of `agents/calendar_agent.py`: the layer in front of the availability
    engine that reads a free-text date and a free-text constraint before searching, proposes
    alternatives when nothing is free, and books hour-long meetings. Every search and every
    booking goes through the event cache, so each one threads it. */
module CalendarAgent {
  import opened Wrappers
  import opened Text
  import opened Dates
  import opened Events
  import Availability
  import opened EventCache
  import TimeParsing
  import TimeConstraints

  /** The `preferred_date` argument: absent, free text for the relative-date parser, or a
      date. The empty text behaves as absent (it is falsy for the finder). */
  datatype DateArg = NoDate | DateText(text: string) | OnDate(date: Date)

  /** What one read of the event list meets: the clock reading, what the backend would
      list (`None`: the call raises), and the clock reading when the cache is updated. */
  datatype Backend = Backend(now: int, listing: Option<seq<Event>>, fetchedAt: int)

  /** The dates the agent reads off the machine: the local date (relative dates and
      weekday names), the date in the calendar's time zone (the finder's horizon), and what
      `dateutil`'s `parse` (not fuzzy, defaults from the machine's clock) makes of the date text. */
  datatype Clocks = Clocks(today: Date, calendarToday: Date, generic: Option<Date>)

  /** One call of the service's finder over the default horizon, through the cache. */
  function Search(c: Cache, b: Backend, duration: int, today: Date,
                  preferred: Option<Date>, range: Option<string>): (r: (Option<seq<int>>, Cache))
    ensures r.0.Some? <==> GetUpcomingEvents(c, false, b.now, b.listing, b.fetchedAt).events.Some?
    ensures r.1 == GetUpcomingEvents(c, false, b.now, b.listing, b.fetchedAt).cache
    ensures r.0.Some? ==>
      r.0.value == Availability.FindAvailableSlots(GetUpcomingEvents(c, false, b.now, b.listing, b.fetchedAt).events.value,
                                                   duration, Availability.DefaultDaysAhead, today, preferred, range)
  {
    FindAvailableSlotsCached(c, b.now, b.listing, b.fetchedAt, duration,
                             Availability.DefaultDaysAhead, today, preferred, range)
  }

  /** The date the finder receives before any constraint is applied. */
  function ParsedDate(arg: DateArg, k: Clocks): (r: Option<Date>)
    ensures arg.NoDate? ==> r.None?
    ensures arg.OnDate? ==> r == Some(arg.date)
    ensures arg == DateText("") ==> r.None?
    ensures arg.DateText? && arg.text != "" ==> r == TimeParsing.ParseRelativeDate(Some(arg.text), k.today, k.generic)
  {
    match arg
    case NoDate => None
    case DateText(s) => TimeParsing.ParseRelativeDate(Some(s), k.today, k.generic)
    case OnDate(d) => Some(d)
  }

  /** A constraint counts only when it is a non-empty text. */
  predicate HasConstraint(constraints: Option<string>) {
    constraints.Some? && constraints.value != ""
  }

  /** `find_available_slots` of the agent. With a constraint, the agent first reads the
      event list itself (`first`) and lets the constraint parser override date and range;
      the finder then reads it again (`second`). Without one the finder's read is `first`.
      `None` is the exception a failed read raises. */
  function Find(c: Cache, duration: int, date: DateArg, range: Option<string>,
                constraints: Option<string>, k: Clocks, first: Backend, second: Backend): (r: (Option<seq<int>>, Cache))
    ensures !HasConstraint(constraints) ==>
      (r.0.Some? <==> GetUpcomingEvents(c, false, first.now, first.listing, first.fetchedAt).events.Some?)
    ensures HasConstraint(constraints) && GetUpcomingEvents(c, false, first.now, first.listing, first.fetchedAt).events.None?
      ==> r == (None, c)
    ensures !HasConstraint(constraints) && r.0.Some? ==>
      r.0.value == Availability.FindAvailableSlots(GetUpcomingEvents(c, false, first.now, first.listing, first.fetchedAt).events.value,
                                                   duration, Availability.DefaultDaysAhead, k.calendarToday, ParsedDate(date, k), range)
    ensures !HasConstraint(constraints) ==> r.1 == GetUpcomingEvents(c, false, first.now, first.listing, first.fetchedAt).cache
  {
    var parsed := ParsedDate(date, k);
    if !HasConstraint(constraints) then
      Search(c, first, duration, k.calendarToday, parsed, range)
    else
      var read := GetUpcomingEvents(c, false, first.now, first.listing, first.fetchedAt);
      match read.events
      case None => (None, read.cache)
      case Some(evs) =>
        var p := TimeConstraints.ParseTimeConstraint(constraints, evs, k.today, parsed, range);
        Search(read.cache, second, duration, k.calendarToday, p.0, p.1)
  }

  /** With a constraint and a successful first read, the finder searches exactly the date
      and range the constraint parser returns, over the second read. */
  lemma FindWithConstraint(c: Cache, duration: int, date: DateArg, range: Option<string>,
                           s: string, k: Clocks, first: Backend, second: Backend)
    requires s != ""
    requires GetUpcomingEvents(c, false, first.now, first.listing, first.fetchedAt).events.Some?
    ensures var read := GetUpcomingEvents(c, false, first.now, first.listing, first.fetchedAt);
      var p := TimeConstraints.ParseTimeConstraint(Some(s), read.events.value, k.today, ParsedDate(date, k), range);
      Find(c, duration, date, range, Some(s), k, first, second)
        == Search(read.cache, second, duration, k.calendarToday, p.0, p.1)
  {}

  /** Without a constraint, a date the text names is the only date searched: a start time is
      offered exactly when it is free on that date for the given part of the day. */
  lemma TextDateIsSearched(c: Cache, duration: int, s: string, range: Option<string>,
                           constraints: Option<string>, k: Clocks, first: Backend, second: Backend,
                           d: Date, x: int)
    requires !HasConstraint(constraints)
    requires TimeParsing.ParseRelativeDate(Some(s), k.today, k.generic) == Some(d)
    requires GetUpcomingEvents(c, false, first.now, first.listing, first.fetchedAt).events.Some?
    ensures var evs := GetUpcomingEvents(c, false, first.now, first.listing, first.fetchedAt).events.value;
      var r := Find(c, duration, DateText(s), range, constraints, k, first, second);
      r.0.Some? && (x in r.0.value <==> Availability.FreeStartOn(evs, duration, d, range, x))
  {
    var evs := GetUpcomingEvents(c, false, first.now, first.listing, first.fetchedAt).events.value;
    Availability.FindAvailableSlotsMembership(evs, duration, Availability.DefaultDaysAhead, k.calendarToday,
                                              Some(d), range, x);
  }

  /** A constraint naming a weekday decides the searched date whatever date argument came
      with it: the next such day, one to seven days after the local date, is the only date
      searched, with the range the constraint parser left. */
  lemma ConstraintWeekdayDecides(c: Cache, duration: int, date: DateArg, range: Option<string>,
                                 s: string, k: Clocks, first: Backend, second: Backend, i: nat, x: int)
    requires s != "" && i < 7 && Contains(Lower(s), WeekdayNames[i])
    requires forall j :: i < j < 7 ==> !Contains(Lower(s), WeekdayNames[j])
    requires GetUpcomingEvents(c, false, first.now, first.listing, first.fetchedAt).events.Some?
    ensures var read := GetUpcomingEvents(c, false, first.now, first.listing, first.fetchedAt);
      var p := TimeConstraints.ParseTimeConstraint(Some(s), read.events.value, k.today, ParsedDate(date, k), range);
      var again := GetUpcomingEvents(read.cache, false, second.now, second.listing, second.fetchedAt);
      var r := Find(c, duration, date, range, Some(s), k, first, second);
      && p.0.Some? && Weekday(p.0.value) == i && 1 <= Ordinal(p.0.value) - Ordinal(k.today) <= 7
      && (r.0.Some? <==> again.events.Some?)
      && (r.0.Some? ==> (x in r.0.value <==> Availability.FreeStartOn(again.events.value, duration, p.0.value, p.1, x)))
  {
    var read := GetUpcomingEvents(c, false, first.now, first.listing, first.fetchedAt);
    var parsed := ParsedDate(date, k);
    var p := TimeConstraints.ParseTimeConstraint(Some(s), read.events.value, k.today, parsed, range);
    assert p.0.Some? && Weekday(p.0.value) == i && 1 <= Ordinal(p.0.value) - Ordinal(k.today) <= 7 by {
      TimeConstraints.WeekdayDecidesDate(Lower(s), read.events.value, k.today, parsed, range, i);
    }
    assert Find(c, duration, date, range, Some(s), k, first, second)
        == Search(read.cache, second, duration, k.calendarToday, p.0, p.1);
    SearchOneDate(read.cache, second, duration, k.calendarToday, p.0.value, p.1, x);
  }

  /** A search for one date finds, when the read succeeds, exactly the free starts of that
      date in the events read. */
  lemma SearchOneDate(c: Cache, b: Backend, duration: int, today: Date, d: Date, range: Option<string>, x: int)
    ensures var read := GetUpcomingEvents(c, false, b.now, b.listing, b.fetchedAt);
      var r := Search(c, b, duration, today, Some(d), range);
      r.0.Some? ==> (x in r.0.value <==> Availability.FreeStartOn(read.events.value, duration, d, range, x))
  {
    var read := GetUpcomingEvents(c, false, b.now, b.listing, b.fetchedAt);
    if read.events.Some? {
      Availability.FindAvailableSlotsMembership(read.events.value, duration, Availability.DefaultDaysAhead,
                                                today, Some(d), range, x);
    }
  }

  // ---------------------------------------------------------------------------
  // Alternatives when nothing is free

  /** One suggestion of `handle_no_slots`: the next day, or a part of the original day. */
  datatype Alternative = NextDay(date: Date, slots: seq<int>) | SameDay(range: string, slots: seq<int>)

  /** Alternatives are always searched for an hour-long meeting. */
  const AlternativeDuration: int := 60

  /** At most this many start times are suggested per alternative. */
  const MaxSuggested: nat := 2

  /** The parts of the day tried on the original date, in this order. */
  const PartsOfDay: seq<string> := ["morning", "afternoon", "evening"]

  /** `handle_no_slots` makes this many searches: the next day, then each part of the day. */
  const Probes: nat := 4

  /** The date of search `i`: the day after `original` first, then `original` itself. */
  function ProbeDate(original: Date, i: nat): (d: Date)
    ensures i == 0 ==> Ordinal(d) == Ordinal(original) + 1
    ensures i != 0 ==> d == original
  {
    if i == 0 then AddDays(original, 1) else original
  }

  /** The part of the day of search `i`: none for the next day, then the parts in order. */
  function ProbeRange(i: nat): (r: Option<string>)
    requires i < Probes
    ensures i == 0 <==> r.None?
  {
    if i == 0 then None else Some(PartsOfDay[i - 1])
  }

  /** The alternative search `i` yields when it found `slots`. */
  function AlternativeFor(original: Date, i: nat, slots: seq<int>): (a: Alternative)
    requires i < Probes
    ensures a.slots == slots
    ensures a.NextDay? <==> i == 0
    ensures a.NextDay? ==> a.date == ProbeDate(original, 0)
    ensures a.SameDay? ==> a.range == PartsOfDay[i - 1]
  {
    if i == 0 then NextDay(ProbeDate(original, 0), slots) else SameDay(PartsOfDay[i - 1], slots)
  }

  /** `slots[:2]`. */
  function FirstFew(slots: seq<int>): (r: seq<int>)
    ensures |r| == if |slots| < MaxSuggested then |slots| else MaxSuggested
    ensures r == slots[..|r|]
  {
    if |slots| <= MaxSuggested then slots else slots[..MaxSuggested]
  }

  /** An alternative holds between one and two start times. */
  predicate Sized(a: Alternative) {
    1 <= |a.slots| <= MaxSuggested
  }

  /** Search `i` of `handle_no_slots` from cache `c`, its read served by `at(i)`. */
  function ProbeSearch(c: Cache, original: Date, calendarToday: Date, at: nat -> Backend, i: nat)
    : (Option<seq<int>>, Cache)
    requires i < Probes
  {
    Search(c, at(i), AlternativeDuration, calendarToday, Some(ProbeDate(original, i)), ProbeRange(i))
  }

  /** The cache search `j` reads when the searches start at `i` from cache `c`: each search
      hands on the cache its read left. */
  function CacheAtSearch(c: Cache, original: Date, calendarToday: Date, at: nat -> Backend, i: nat, j: nat): Cache
    requires i <= j <= Probes
    decreases j - i
  {
    if i == j then c
    else CacheAtSearch(ProbeSearch(c, original, calendarToday, at, i).1, original, calendarToday, at, i + 1, j)
  }

  /** What search `j` finds when the searches start at `i` from cache `c`. */
  function SearchFrom(c: Cache, original: Date, calendarToday: Date, at: nat -> Backend, i: nat, j: nat)
    : Option<seq<int>>
    requires i <= j < Probes
  {
    ProbeSearch(CacheAtSearch(c, original, calendarToday, at, i, j), original, calendarToday, at, j).0
  }

  /** Search `i` is the first of the run; later searches see the cache search `i` left. */
  lemma SearchFromStep(c: Cache, original: Date, calendarToday: Date, at: nat -> Backend, i: nat, j: nat)
    requires i <= j < Probes
    ensures i == j ==> SearchFrom(c, original, calendarToday, at, i, j) == ProbeSearch(c, original, calendarToday, at, i).0
    ensures i < j ==> SearchFrom(c, original, calendarToday, at, i, j)
                      == SearchFrom(ProbeSearch(c, original, calendarToday, at, i).1, original, calendarToday, at, i + 1, j)
  {}

  /** Every search from `i` on reads successfully, each from the cache the previous left. */
  predicate ReadsSucceedFrom(c: Cache, original: Date, calendarToday: Date, at: nat -> Backend, i: nat)
    requires i <= Probes
  {
    forall j :: i <= j < Probes ==> SearchFrom(c, original, calendarToday, at, i, j).Some?
  }

  /** `found[k]` is what search `i + k` finds, for every search from `i` on. */
  predicate ResultsFrom(c: Cache, original: Date, calendarToday: Date, at: nat -> Backend, i: nat,
                        found: seq<seq<int>>)
    requires i <= Probes
  {
    && |found| == Probes - i
    && forall k :: 0 <= k < |found| ==> SearchFrom(c, original, calendarToday, at, i, i + k) == Some(found[k])
  }

  /** The searches from `i` on succeed exactly when search `i` does and so do those after it,
      from the cache search `i` left. */
  lemma ReadsSucceedStep(c: Cache, original: Date, calendarToday: Date, at: nat -> Backend, i: nat)
    requires i < Probes
    ensures var f := ProbeSearch(c, original, calendarToday, at, i);
      ReadsSucceedFrom(c, original, calendarToday, at, i) <==> f.0.Some? && ReadsSucceedFrom(f.1, original, calendarToday, at, i + 1)
  {
    var f := ProbeSearch(c, original, calendarToday, at, i);
    SearchFromStep(c, original, calendarToday, at, i, i);
    var next, i' := f.1, i + 1;
    if ReadsSucceedFrom(c, original, calendarToday, at, i) {
      forall j | i' <= j < Probes
        ensures SearchFrom(next, original, calendarToday, at, i', j).Some?
      {
        SearchFromStep(c, original, calendarToday, at, i, j);
      }
    }
    if f.0.Some? && ReadsSucceedFrom(next, original, calendarToday, at, i + 1) {
      forall j | i <= j < Probes
        ensures SearchFrom(c, original, calendarToday, at, i, j).Some?
      {
        SearchFromStep(c, original, calendarToday, at, i, j);
      }
    }
  }

  /** Search `i`'s result followed by the results from `i + 1` on are the results from `i`. */
  lemma ResultsStep(c: Cache, original: Date, calendarToday: Date, at: nat -> Backend, i: nat, more: seq<seq<int>>)
    requires i < Probes
    requires ProbeSearch(c, original, calendarToday, at, i).0.Some?
    requires ResultsFrom(ProbeSearch(c, original, calendarToday, at, i).1, original, calendarToday, at, i + 1, more)
    ensures ResultsFrom(c, original, calendarToday, at, i, [ProbeSearch(c, original, calendarToday, at, i).0.value] + more)
  {
    var f := ProbeSearch(c, original, calendarToday, at, i);
    var found := [f.0.value] + more;
    forall k | 0 <= k < |found|
      ensures SearchFrom(c, original, calendarToday, at, i, i + k) == Some(found[k])
    {
      SearchFromStep(c, original, calendarToday, at, i, i + k);
      if k > 0 {
        assert SearchFrom(f.1, original, calendarToday, at, i + 1, (i + 1) + (k - 1)) == Some(more[k - 1]);
      }
    }
  }

  /** The searches from `i` on, each reading the cache the previous one left; read `at(i)`
      serves search `i`. The first read that raises ends the run. */
  function ProbeAll(c: Cache, original: Date, calendarToday: Date, at: nat -> Backend, i: nat)
    : (r: (Option<seq<seq<int>>>, Cache))
    requires i <= Probes
    ensures r.0.Some? ==> |r.0.value| == Probes - i
    ensures r.0.Some? <==> ReadsSucceedFrom(c, original, calendarToday, at, i)
    ensures r.0.Some? ==> ResultsFrom(c, original, calendarToday, at, i, r.0.value)
    decreases Probes - i
  {
    if i == Probes then (Some([]), c)
    else
      var found := ProbeSearch(c, original, calendarToday, at, i);
      ReadsSucceedStep(c, original, calendarToday, at, i);
      match found.0
      case None => (None, found.1)
      case Some(slots) =>
        var rest := ProbeAll(found.1, original, calendarToday, at, i + 1);
        match rest.0
        case None => (None, rest.1)
        case Some(more) =>
          ResultsStep(c, original, calendarToday, at, i, more);
          (Some([slots] + more), rest.1)
  }

  /** The alternatives of searches `i` onwards: one per search that found something, with
      its first two start times, in search order. */
  function Alternatives(original: Date, found: seq<seq<int>>, i: nat): (r: seq<Alternative>)
    requires |found| == Probes && i <= Probes
    ensures |r| <= Probes - i
    ensures forall n :: 0 <= n < |r| ==> Sized(r[n])
    ensures forall n :: 0 <= n < |r| ==>
      exists j :: i <= j < Probes && |found[j]| > 0 && r[n] == AlternativeFor(original, j, FirstFew(found[j]))
    ensures forall n :: 0 < n < |r| ==> r[n].SameDay?
    ensures 0 < i ==> forall n :: 0 <= n < |r| ==> r[n].SameDay?
    decreases Probes - i
  {
    if i == Probes then []
    else
      (if |found[i]| > 0 then [AlternativeFor(original, i, FirstFew(found[i]))] else [])
      + Alternatives(original, found, i + 1)
  }

  /** `handle_no_slots(original_date)`: the next day over full working hours, then the
      morning, afternoon and evening of the original day, each kept only when it has a
      free hour. `None` is the exception a failed read raises. */
  function HandleNoSlots(c: Cache, original: Date, calendarToday: Date, at: nat -> Backend)
    : (r: (Option<seq<Alternative>>, Cache))
    ensures r.0.Some? <==> ProbeAll(c, original, calendarToday, at, 0).0.Some?
    ensures r.0.Some? <==> ReadsSucceedFrom(c, original, calendarToday, at, 0)
    ensures r.0.Some? ==> |r.0.value| <= Probes
    ensures r.0.Some? ==> forall n :: 0 <= n < |r.0.value| ==> Sized(r.0.value[n])
    ensures r.0.Some? ==> forall n :: 0 < n < |r.0.value| ==> r.0.value[n].SameDay?
  {
    var probed := ProbeAll(c, original, calendarToday, at, 0);
    match probed.0
    case None => (None, probed.1)
    case Some(found) => (Some(Alternatives(original, found, 0)), probed.1)
  }

  /** A search is suggested exactly when it found a free hour. */
  lemma {:induction false} SuggestedIffFound(original: Date, found: seq<seq<int>>, i: nat, j: nat)
    requires |found| == Probes && i <= j < Probes
    ensures AlternativeFor(original, j, FirstFew(found[j])) in Alternatives(original, found, i) <==> |found[j]| > 0
    decreases Probes - i
  {
    var want := AlternativeFor(original, j, FirstFew(found[j]));
    var head: seq<Alternative> := if |found[i]| > 0 then [AlternativeFor(original, i, FirstFew(found[i]))] else [];
    var rest := Alternatives(original, found, i + 1);
    assert Alternatives(original, found, i) == head + rest;
    if j == i {
      if want in rest {
        var n :| 0 <= n < |rest| && rest[n] == want;
        var k :| i + 1 <= k < Probes && |found[k]| > 0 && rest[n] == AlternativeFor(original, k, FirstFew(found[k]));
        assert PartsOfDay[0] != PartsOfDay[1] && PartsOfDay[0] != PartsOfDay[2] && PartsOfDay[1] != PartsOfDay[2] by {
          assert PartsOfDay[0][0] == 'm' && PartsOfDay[1][0] == 'a' && PartsOfDay[2][0] == 'e';
        }
      }
    } else {
      SuggestedIffFound(original, found, i + 1, j);
      if want in head {
        assert want.slots == FirstFew(found[j]);
        assert |FirstFew(found[j])| > 0;
      }
    }
  }

  /** Which search an alternative came from: 0 for the next day, then 1, 2, 3 for the
      morning, afternoon and evening. */
  function SearchIndex(a: Alternative): nat {
    if a.NextDay? then 0
    else if a.range == PartsOfDay[0] then 1
    else if a.range == PartsOfDay[1] then 2
    else 3
  }

  lemma SearchIndexOf(original: Date, j: nat, slots: seq<int>)
    requires j < Probes
    ensures SearchIndex(AlternativeFor(original, j, slots)) == j
  {
    assert PartsOfDay[0] != PartsOfDay[1] && PartsOfDay[0] != PartsOfDay[2] && PartsOfDay[1] != PartsOfDay[2] by {
      assert PartsOfDay[0][0] == 'm' && PartsOfDay[1][0] == 'a' && PartsOfDay[2][0] == 'e';
    }
  }

  /** The alternatives come in search order: the next day before the morning, the morning
      before the afternoon, the afternoon before the evening. */
  lemma {:induction false} AlternativesInSearchOrder(original: Date, found: seq<seq<int>>, i: nat)
    requires |found| == Probes && i <= Probes
    ensures InSearchOrder(Alternatives(original, found, i), i)
    decreases Probes - i
  {
    var r := Alternatives(original, found, i);
    if i == Probes {
      assert r == [];
    } else {
      var rest := Alternatives(original, found, i + 1);
      AlternativesInSearchOrder(original, found, i + 1);
      if |found[i]| > 0 {
        var a := AlternativeFor(original, i, FirstFew(found[i]));
        assert r == [a] + rest;
        SearchIndexOf(original, i, FirstFew(found[i]));
        OrderedCons(a, rest, i);
      } else {
        assert r == rest;
        OrderedFrom(rest, i + 1, i);
      }
    }
  }

  /** `handle_no_slots` lists what it found in the order it searched. */
  lemma HandleNoSlotsInSearchOrder(c: Cache, original: Date, calendarToday: Date, at: nat -> Backend)
    ensures var r := HandleNoSlots(c, original, calendarToday, at);
      r.0.Some? ==> InSearchOrder(r.0.value, 0)
  {
    var probed := ProbeAll(c, original, calendarToday, at, 0);
    if probed.0.Some? {
      AlternativesInSearchOrder(original, probed.0.value, 0);
    }
  }

  /** Search indices from `i` on, strictly increasing. */
  predicate InSearchOrder(r: seq<Alternative>, i: nat) {
    && (forall n :: 0 <= n < |r| ==> i <= SearchIndex(r[n]) < Probes)
    && (forall n, m :: 0 <= n < m < |r| ==> SearchIndex(r[n]) < SearchIndex(r[m]))
  }

  lemma OrderedFrom(r: seq<Alternative>, j: nat, i: nat)
    requires i <= j && InSearchOrder(r, j)
    ensures InSearchOrder(r, i)
  {}

  lemma OrderedCons(a: Alternative, rest: seq<Alternative>, i: nat)
    requires SearchIndex(a) == i < Probes && InSearchOrder(rest, i + 1)
    ensures InSearchOrder([a] + rest, i)
  {
    var r := [a] + rest;
    forall n, m | 0 <= n < m < |r|
      ensures SearchIndex(r[n]) < SearchIndex(r[m])
    {
      assert r[m] == rest[m - 1];
      if n > 0 { assert r[n] == rest[n - 1]; }
    }
  }

  /** Every read in the run is inside the cache's freshness window. */
  predicate FreshForAll(c: Cache, at: nat -> Backend) {
    forall n: nat :: n < Probes ==> IsFresh(c, at(n).now)
  }

  /** What the searches find over a fixed event list. */
  function Reference(events: seq<Event>, original: Date): (r: seq<seq<int>>)
    ensures |r| == Probes
  {
    seq(Probes, i requires 0 <= i < Probes =>
      Availability.SlotsOnDate(events, AlternativeDuration, ProbeDate(original, i), ProbeRange(i)))
  }

  /** A search for one date from a fresh cache finds that date's free starts in the cached
      events and leaves the cache as it was. */
  lemma FreshSearchOneDate(c: Cache, b: Backend, duration: int, today: Date, d: Date, range: Option<string>)
    requires IsFresh(c, b.now)
    ensures Search(c, b, duration, today, Some(d), range)
         == (Some(Availability.SlotsOnDate(c.events, duration, d, range)), c)
  {
    var s := Availability.SlotsOnDate(c.events, duration, d, range);
    assert Availability.SlotsOnDates(c.events, duration, [d], range) == s + [];
    assert s + [] == s;
  }

  lemma {:induction false} FreshProbeAll(c: Cache, original: Date, calendarToday: Date, at: nat -> Backend, i: nat)
    requires i <= Probes && FreshForAll(c, at)
    ensures ProbeAll(c, original, calendarToday, at, i) == (Some(Reference(c.events, original)[i..]), c)
    decreases Probes - i
  {
    var ref := Reference(c.events, original);
    if i < Probes {
      assert IsFresh(c, at(i).now);
      FreshSearchOneDate(c, at(i), AlternativeDuration, calendarToday, ProbeDate(original, i), ProbeRange(i));
      FreshProbeAll(c, original, calendarToday, at, i + 1);
      assert [ref[i]] + ref[i + 1..] == ref[i..];
    } else {
      assert ref[i..] == [];
    }
  }

  /** From a fresh cache `handle_no_slots` suggests exactly the reference alternatives for
      the cached events and leaves the cache as it was. */
  lemma FreshHandleNoSlots(c: Cache, original: Date, calendarToday: Date, at: nat -> Backend)
    requires FreshForAll(c, at)
    ensures HandleNoSlots(c, original, calendarToday, at)
         == (Some(Alternatives(original, Reference(c.events, original), 0)), c)
  {
    FreshProbeAll(c, original, calendarToday, at, 0);
    assert Reference(c.events, original)[0..] == Reference(c.events, original);
  }

  /** The date an alternative stands for. */
  function AltDate(original: Date, a: Alternative): Date {
    if a.NextDay? then a.date else original
  }

  /** The part of the day an alternative stands for. */
  function AltRange(a: Alternative): Option<string> {
    if a.NextDay? then None else Some(a.range)
  }

  /** From a fresh cache, a date and part of the day are suggested exactly when they have a
      free hour. */
  lemma FreshSuggestedIffFree(c: Cache, original: Date, calendarToday: Date, at: nat -> Backend, j: nat)
    requires FreshForAll(c, at) && j < Probes
    ensures var alts := HandleNoSlots(c, original, calendarToday, at).0;
      var free := Availability.SlotsOnDate(c.events, AlternativeDuration, ProbeDate(original, j), ProbeRange(j));
      alts.Some? && (AlternativeFor(original, j, FirstFew(free)) in alts.value <==> |free| > 0)
  {
    assert HandleNoSlots(c, original, calendarToday, at).0
        == Some(Alternatives(original, Reference(c.events, original), 0)) by {
      FreshHandleNoSlots(c, original, calendarToday, at);
    }
    ReferenceSuggestedIffFree(c.events, original, j);
  }

  lemma ReferenceSuggestedIffFree(events: seq<Event>, original: Date, j: nat)
    requires j < Probes
    ensures var free := Availability.SlotsOnDate(events, AlternativeDuration, ProbeDate(original, j), ProbeRange(j));
      AlternativeFor(original, j, FirstFew(free)) in Alternatives(original, Reference(events, original), 0) <==> |free| > 0
  {
    var ref := Reference(events, original);
    assert ref[j] == Availability.SlotsOnDate(events, AlternativeDuration, ProbeDate(original, j), ProbeRange(j));
    SuggestedIffFound(original, ref, 0, j);
  }

  /** From a fresh cache, every suggestion holds the first one or two free hour-long starts
      of its date and part of the day, and each of them is free there. */
  lemma FreshSuggestionsAreFree(c: Cache, original: Date, calendarToday: Date, at: nat -> Backend, n: nat, x: int)
    requires FreshForAll(c, at)
    requires var alts := HandleNoSlots(c, original, calendarToday, at).0; alts.Some? && n < |alts.value|
    ensures var a := HandleNoSlots(c, original, calendarToday, at).0.value[n];
      var free := Availability.SlotsOnDate(c.events, AlternativeDuration, AltDate(original, a), AltRange(a));
      && a.slots == FirstFew(free)
      && (x in a.slots ==> Availability.FreeStartOn(c.events, AlternativeDuration, AltDate(original, a), AltRange(a), x))
  {
    assert HandleNoSlots(c, original, calendarToday, at).0
        == Some(Alternatives(original, Reference(c.events, original), 0)) by {
      FreshHandleNoSlots(c, original, calendarToday, at);
    }
    ReferenceSuggestionsAreFree(c.events, original, n, x);
  }

  lemma ReferenceSuggestionsAreFree(events: seq<Event>, original: Date, n: nat, x: int)
    requires n < |Alternatives(original, Reference(events, original), 0)|
    ensures var a := Alternatives(original, Reference(events, original), 0)[n];
      var free := Availability.SlotsOnDate(events, AlternativeDuration, AltDate(original, a), AltRange(a));
      && a.slots == FirstFew(free)
      && (x in a.slots ==> Availability.FreeStartOn(events, AlternativeDuration, AltDate(original, a), AltRange(a), x))
  {
    var ref := Reference(events, original);
    var alts := Alternatives(original, ref, 0);
    var k :| 0 <= k < Probes && |ref[k]| > 0 && alts[n] == AlternativeFor(original, k, FirstFew(ref[k]));
    var a := alts[n];
    assert AltDate(original, a) == ProbeDate(original, k) && AltRange(a) == ProbeRange(k);
    if x in a.slots {
      Availability.SlotsOnDateMembership(events, AlternativeDuration, AltDate(original, a), AltRange(a), x);
    }
  }

  // ---------------------------------------------------------------------------
  // Booking

  /** The meeting `schedule_event` books: an hour from `slot`, whatever length was asked. */
  function ScheduledMeeting(summary: string, slot: int): (b: Booking)
    ensures b.summary == summary && b.start == slot && b.end - b.start == AlternativeDuration
  {
    Booking(summary, slot, slot + AlternativeDuration)
  }

  /** `schedule_event(summary, slot)`: create the hour-long event and refresh the cache. */
  function ScheduleEvent(c: Cache, summary: string, slot: int, insert: Insert,
                         listing: Option<seq<Event>>, fetchedAt: int): (r: (Created, Cache))
    ensures r.0.Created? <==> insert.Inserted? && listing.Some?
    ensures r.0.Created? ==> r.0.link == insert.link && r.1 == Cache(Some(fetchedAt), listing.value)
    ensures !r.0.Created? ==> r.1 == c
  {
    CreateEvent(c, ScheduledMeeting(summary, slot), insert, listing, fetchedAt)
  }

  /** No double booking: once the booked hour is in the calendar, a search inside the
      freshness window never offers a start on a date the meeting touches that overlaps it. */
  lemma BookedHourNotOfferedAgain(c: Cache, summary: string, slot: int, insert: Insert,
                                  listing: Option<seq<Event>>, fetchedAt: int, e: Event,
                                  b: Backend, duration: int, today: Date, d: Date,
                                  range: Option<string>, x: int)
    requires ScheduleEvent(c, summary, slot, insert, listing, fetchedAt).0.Created?
    requires 0 <= b.now - fetchedAt < FreshSeconds * MicrosPerSecond
    requires e in listing.value && Instant(e.start) == slot && Instant(e.end) == slot + AlternativeDuration
    requires Availability.Touches(e, d) && duration > 0
    ensures var after := ScheduleEvent(c, summary, slot, insert, listing, fetchedAt).1;
      var r := Search(after, b, duration, today, Some(d), range);
      && r.0.Some?
      && (x in r.0.value ==> x + duration <= slot || slot + AlternativeDuration <= x)
  {
    var after := ScheduleEvent(c, summary, slot, insert, listing, fetchedAt).1;
    var evs := listing.value;
    BookingRefreshesCache(c, ScheduledMeeting(summary, slot), insert, listing, fetchedAt, b.now, b.listing, b.fetchedAt);
    Availability.FindAvailableSlotsMembership(evs, duration, Availability.DefaultDaysAhead, today, Some(d), range, x);
  }
}
