/** The availability engine of `services/calendar_service.py`: free start times on a
    15-minute grid inside working hours, avoiding every busy interval of the day. */
module Availability {
  import opened Wrappers
  import opened Dates
  import opened Events
  import Config

  /** The hours a named part of the day stands for; any other preference means none. */
  function RangeHours(range: Option<string>): (h: Option<(int, int)>)
    ensures h.Some? <==> range == Some("morning") || range == Some("afternoon") || range == Some("evening")
    ensures range == Some("morning") ==> h == Some((6, 12))
    ensures range == Some("afternoon") ==> h == Some((12, 17))
    ensures range == Some("evening") ==> h == Some((17, 21))
  {
    if range == Some("morning") then Some((6, 12))
    else if range == Some("afternoon") then Some((12, 17))
    else if range == Some("evening") then Some((17, 21))
    else None
  }

  function Max(a: int, b: int): int { if a >= b then a else b }
  function Min(a: int, b: int): int { if a <= b then a else b }

  /** Start and end of the search window on `d`: working hours, narrowed to the
      preferred part of the day when there is one. */
  function Window(d: Date, range: Option<string>): (w: (int, int))
    ensures AtHour(d, Config.WorkStartHour) <= w.0 <= w.1 <= AtHour(d, Config.WorkEndHour)
    ensures RangeHours(range).None? ==> w == (AtHour(d, 9), AtHour(d, 18))
    ensures range == Some("morning") ==> w == (AtHour(d, 9), AtHour(d, 12))
    ensures range == Some("afternoon") ==> w == (AtHour(d, 12), AtHour(d, 17))
    ensures range == Some("evening") ==> w == (AtHour(d, 17), AtHour(d, 18))
  {
    var workStart := AtHour(d, Config.WorkStartHour);
    var workEnd := AtHour(d, Config.WorkEndHour);
    match RangeHours(range)
    case None => (workStart, workEnd)
    case Some((lo, hi)) => (Max(workStart, AtHour(d, lo)), Min(workEnd, AtHour(d, hi)))
  }

  /** An event counts for a date when the date lies between its start and end dates. */
  predicate Touches(e: Event, d: Date) {
    Ordinal(e.start.date) <= Ordinal(d) <= Ordinal(e.end.date)
  }

  /** The events counted for `d`, in their original order. */
  function BusyOn(events: seq<Event>, d: Date): (busy: seq<Event>)
    ensures forall e :: e in busy <==> e in events && Touches(e, d)
  {
    if |events| == 0 then []
    else (if Touches(events[0], d) then [events[0]] else []) + BusyOn(events[1..], d)
  }

  /** The half-open overlap test: a meeting on [s, s + duration) clashes with `e`. */
  predicate Blocks(e: Event, s: int, duration: int) {
    s < Instant(e.end) && s + duration > Instant(e.start)
  }

  predicate Conflicts(busy: seq<Event>, s: int, duration: int) {
    exists i :: 0 <= i < |busy| && Blocks(busy[i], s, duration)
  }

  /** `s` is a grid point counted from `start`. */
  predicate OnGrid(start: int, s: int) {
    start <= s && (s - start) % Config.SlotInterval == 0
  }

  /** The loop of `find_available_slots`: walk from `cur` in grid steps while a meeting
      starting there still ends by `workEnd`, keeping the starts no busy interval blocks. */
  function Walk(cur: int, workEnd: int, duration: int, busy: seq<Event>): seq<int>
    decreases workEnd - duration - cur
  {
    if cur > workEnd - duration then []
    else
      (if Conflicts(busy, cur, duration) then [] else [cur])
        + Walk(cur + Config.SlotInterval, workEnd, duration, busy)
  }

  /** A start time is offered exactly when it is a grid point of the window, the meeting
      fits before the window ends, and no busy interval overlaps it. */
  lemma {:induction false} WalkMembership(cur: int, workEnd: int, duration: int, busy: seq<Event>, x: int)
    ensures x in Walk(cur, workEnd, duration, busy)
        <==> OnGrid(cur, x) && x + duration <= workEnd && !Conflicts(busy, x, duration)
    decreases workEnd - duration - cur
  {
    if cur <= workEnd - duration {
      WalkMembership(cur + Config.SlotInterval, workEnd, duration, busy, x);
      assert OnGrid(cur, x) && x != cur <==> OnGrid(cur + Config.SlotInterval, x);
    }
  }

  predicate StrictlyIncreasing(s: seq<int>) {
    forall i, j :: 0 <= i < j < |s| ==> s[i] < s[j]
  }

  /** Offered start times come out in increasing order. */
  lemma {:induction false} WalkIncreasing(cur: int, workEnd: int, duration: int, busy: seq<Event>)
    ensures StrictlyIncreasing(Walk(cur, workEnd, duration, busy))
    decreases workEnd - duration - cur
  {
    if cur <= workEnd - duration {
      var rest := Walk(cur + Config.SlotInterval, workEnd, duration, busy);
      WalkIncreasing(cur + Config.SlotInterval, workEnd, duration, busy);
      forall k | 0 <= k < |rest|
        ensures cur < rest[k]
      {
        WalkMembership(cur + Config.SlotInterval, workEnd, duration, busy, rest[k]);
      }
    }
  }

  /** With nothing busy, the grid points from `cur` on are all offered: their number is
      ⌊(window − duration) / 15⌋ + 1 when the meeting fits, and the k-th is `cur + 15k`. */
  lemma {:induction false} WalkFreeCount(cur: int, workEnd: int, duration: int)
    ensures var w := Walk(cur, workEnd, duration, []);
      && |w| == (if cur + duration <= workEnd then (workEnd - cur - duration) / Config.SlotInterval + 1 else 0)
      && forall k :: 0 <= k < |w| ==> w[k] == cur + Config.SlotInterval * k
    decreases workEnd - duration - cur
  {
    if cur <= workEnd - duration {
      WalkFreeCount(cur + Config.SlotInterval, workEnd, duration);
      assert !Conflicts([], cur, duration);
    }
  }

  /** Default search horizon of `find_available_slots`, in days. */
  const DefaultDaysAhead: int := 7

  /** The dates searched: only the preferred date when one is given, otherwise
      today and the following days of the horizon, in order. */
  function CandidateDates(today: Date, daysAhead: int, preferred: Option<Date>): (ds: seq<Date>)
    ensures preferred.Some? ==> ds == [preferred.value]
    ensures preferred.None? ==> |ds| == Max(daysAhead, 0)
    ensures preferred.None? ==> forall k :: 0 <= k < |ds| ==> Ordinal(ds[k]) == Ordinal(today) + k
  {
    if preferred.Some? then [preferred.value]
    else if daysAhead <= 0 then []
    else seq(daysAhead, k requires 0 <= k => AddDays(today, k))
  }

  /** The free start times on one date. */
  function SlotsOnDate(events: seq<Event>, duration: int, d: Date, range: Option<string>): seq<int> {
    var w := Window(d, range);
    Walk(w.0, w.1, duration, BusyOn(events, d))
  }

  /** Free start times of every date in `dates`, date by date. */
  function SlotsOnDates(events: seq<Event>, duration: int, dates: seq<Date>, range: Option<string>): seq<int> {
    if |dates| == 0 then []
    else SlotsOnDate(events, duration, dates[0], range) + SlotsOnDates(events, duration, dates[1..], range)
  }

  /** `find_available_slots(duration, days_ahead, preferred_date, preferred_time_range)`
      over the events the busy-interval source returned. `today` is the current date in
      the calendar's time zone. */
  function FindAvailableSlots(events: seq<Event>, duration: int, daysAhead: int, today: Date,
                              preferred: Option<Date>, range: Option<string>): seq<int>
  {
    SlotsOnDates(events, duration, CandidateDates(today, daysAhead, preferred), range)
  }

  /** A start time is offered on a date exactly when it lies on that date's grid inside the
      window, the meeting ends by the window end, and no event of that date overlaps it. */
  lemma SlotsOnDateMembership(events: seq<Event>, duration: int, d: Date, range: Option<string>, x: int)
    ensures var w := Window(d, range);
      x in SlotsOnDate(events, duration, d, range) <==>
        (OnGrid(w.0, x) && x + duration <= w.1 &&
         forall e :: e in events && Touches(e, d) ==> !Blocks(e, x, duration))
  {
    var w := Window(d, range);
    WalkMembership(w.0, w.1, duration, BusyOn(events, d), x);
    BusyConflicts(events, duration, d, x);
  }

  /** A start clashes with the busy list of a date exactly when some event of that date
      overlaps it. */
  lemma BusyConflicts(events: seq<Event>, duration: int, d: Date, x: int)
    ensures Conflicts(BusyOn(events, d), x, duration)
        <==> exists e :: e in events && Touches(e, d) && Blocks(e, x, duration)
  {
    var busy := BusyOn(events, d);
    if Conflicts(busy, x, duration) {
      BusyConflictWitness(busy, events, duration, d, x);
    }
    if exists e :: e in events && Touches(e, d) && Blocks(e, x, duration) {
      var e :| e in events && Touches(e, d) && Blocks(e, x, duration);
      BusyConflictFromEvent(busy, e, duration, x);
    }
  }

  lemma BusyConflictWitness(busy: seq<Event>, events: seq<Event>, duration: int, d: Date, x: int)
    requires busy == BusyOn(events, d) && Conflicts(busy, x, duration)
    ensures exists e :: e in events && Touches(e, d) && Blocks(e, x, duration)
  {
    var i :| 0 <= i < |busy| && Blocks(busy[i], x, duration);
    assert busy[i] in busy;
  }

  lemma BusyConflictFromEvent(busy: seq<Event>, e: Event, duration: int, x: int)
    requires e in busy && Blocks(e, x, duration)
    ensures Conflicts(busy, x, duration)
  {
    var i :| 0 <= i < |busy| && busy[i] == e;
  }

  /** Events that do not touch a date never change the slots of that date. */
  lemma OtherDaysIgnored(events: seq<Event>, e: Event, duration: int, d: Date, range: Option<string>)
    requires !Touches(e, d)
    ensures SlotsOnDate(events + [e], duration, d, range) == SlotsOnDate(events, duration, d, range)
  {
    BusyOnAppend(events, e, d);
  }

  lemma {:induction false} BusyOnAppend(events: seq<Event>, e: Event, d: Date)
    requires !Touches(e, d)
    ensures BusyOn(events + [e], d) == BusyOn(events, d)
    decreases |events|
  {
    if |events| == 0 {
      assert BusyOn([e], d) == [] + BusyOn([], d);
    } else {
      assert (events + [e])[1..] == events[1..] + [e];
      BusyOnAppend(events[1..], e, d);
    }
  }

  /** `x` is a free start time on date `d`: the condition `SlotsOnDateMembership` gives. */
  predicate FreeStartOn(events: seq<Event>, duration: int, d: Date, range: Option<string>, x: int) {
    var w := Window(d, range);
    OnGrid(w.0, x) && x + duration <= w.1 &&
    forall e :: e in events && Touches(e, d) ==> !Blocks(e, x, duration)
  }

  lemma {:induction false} SlotsOnDatesMembership(events: seq<Event>, duration: int, dates: seq<Date>,
                                                  range: Option<string>, x: int)
    ensures x in SlotsOnDates(events, duration, dates, range)
        <==> exists k :: 0 <= k < |dates| && x in SlotsOnDate(events, duration, dates[k], range)
    decreases |dates|
  {
    if |dates| > 0 {
      SlotsOnDatesMembership(events, duration, dates[1..], range, x);
      if exists k :: 0 <= k < |dates[1..]| && x in SlotsOnDate(events, duration, dates[1..][k], range) {
        var k :| 0 <= k < |dates[1..]| && x in SlotsOnDate(events, duration, dates[1..][k], range);
        assert dates[1..][k] == dates[k + 1];
      }
      if exists k :: 0 <= k < |dates| && x in SlotsOnDate(events, duration, dates[k], range) {
        var k :| 0 <= k < |dates| && x in SlotsOnDate(events, duration, dates[k], range);
        if k > 0 {
          assert dates[1..][k - 1] == dates[k];
        }
      }
    }
  }

  /** The finder returns exactly the free start times of the candidate dates. */
  lemma FindAvailableSlotsMembership(events: seq<Event>, duration: int, daysAhead: int, today: Date,
                                     preferred: Option<Date>, range: Option<string>, x: int)
    ensures var dates := CandidateDates(today, daysAhead, preferred);
      x in FindAvailableSlots(events, duration, daysAhead, today, preferred, range) <==>
        exists k :: 0 <= k < |dates| && FreeStartOn(events, duration, dates[k], range, x)
  {
    var dates := CandidateDates(today, daysAhead, preferred);
    SlotsOnDatesMembership(events, duration, dates, range, x);
    forall k | 0 <= k < |dates|
      ensures x in SlotsOnDate(events, duration, dates[k], range) <==> FreeStartOn(events, duration, dates[k], range, x)
    {
      SlotsOnDateMembership(events, duration, dates[k], range, x);
    }
  }

  /** Every start time offered for a date lies inside that date's window. */
  lemma SlotWithinWindow(events: seq<Event>, duration: int, d: Date, range: Option<string>, x: int)
    requires x in SlotsOnDate(events, duration, d, range)
    ensures var w := Window(d, range);
      w.0 <= x && x + duration <= w.1 && (x - w.0) % Config.SlotInterval == 0
    ensures 0 < duration ==> AtHour(d, Config.WorkStartHour) <= x < AtHour(d, Config.WorkEndHour)
    ensures 0 <= duration ==> AtHour(d, Config.WorkStartHour) <= x <= AtHour(d, Config.WorkEndHour)
  {
    SlotsOnDateMembership(events, duration, d, range, x);
  }

  lemma ConcatIncreasing(a: seq<int>, b: seq<int>)
    requires StrictlyIncreasing(a) && StrictlyIncreasing(b)
    requires forall i, j :: 0 <= i < |a| && 0 <= j < |b| ==> a[i] < b[j]
    ensures StrictlyIncreasing(a + b)
  {}

  predicate DatesIncreasing(dates: seq<Date>) {
    forall i, j :: 0 <= i < j < |dates| ==> Ordinal(dates[i]) < Ordinal(dates[j])
  }

  /** Slots of dates in calendar order come out in time order. */
  lemma {:induction false} SlotsOnDatesIncreasing(events: seq<Event>, duration: int, dates: seq<Date>,
                                                  range: Option<string>)
    requires 0 <= duration
    requires DatesIncreasing(dates)
    ensures StrictlyIncreasing(SlotsOnDates(events, duration, dates, range))
    decreases |dates|
  {
    if |dates| > 0 {
      var head := SlotsOnDate(events, duration, dates[0], range);
      var tail := SlotsOnDates(events, duration, dates[1..], range);
      var w := Window(dates[0], range);
      WalkIncreasing(w.0, w.1, duration, BusyOn(events, dates[0]));
      SlotsOnDatesIncreasing(events, duration, dates[1..], range);
      forall i, j | 0 <= i < |head| && 0 <= j < |tail|
        ensures head[i] < tail[j]
      {
        SlotWithinWindow(events, duration, dates[0], range, head[i]);
        SlotsOnDatesMembership(events, duration, dates[1..], range, tail[j]);
        var k :| 0 <= k < |dates[1..]| && tail[j] in SlotsOnDate(events, duration, dates[1..][k], range);
        SlotWithinWindow(events, duration, dates[1..][k], range, tail[j]);
        assert Ordinal(dates[0]) < Ordinal(dates[1..][k]);
      }
      ConcatIncreasing(head, tail);
    }
  }

  /** For a duration of zero or more the finder's output is in strictly increasing time order:
      grouped by candidate date in date order, and increasing within each date. */
  lemma FindAvailableSlotsIncreasing(events: seq<Event>, duration: int, daysAhead: int, today: Date,
                                     preferred: Option<Date>, range: Option<string>)
    requires 0 <= duration
    ensures StrictlyIncreasing(FindAvailableSlots(events, duration, daysAhead, today, preferred, range))
  {
    SlotsOnDatesIncreasing(events, duration, CandidateDates(today, daysAhead, preferred), range);
  }

  /** A preference other than morning, afternoon or evening changes nothing. */
  lemma UnknownRangeIgnored(events: seq<Event>, duration: int, daysAhead: int, today: Date,
                            preferred: Option<Date>, range: Option<string>)
    requires RangeHours(range).None?
    ensures FindAvailableSlots(events, duration, daysAhead, today, preferred, range)
         == FindAvailableSlots(events, duration, daysAhead, today, preferred, None)
  {
    var dates := CandidateDates(today, daysAhead, preferred);
    SameWindowSameSlots(events, duration, dates, range, None);
  }

  lemma {:induction false} SameWindowSameSlots(events: seq<Event>, duration: int, dates: seq<Date>,
                                               r1: Option<string>, r2: Option<string>)
    requires RangeHours(r1) == RangeHours(r2)
    ensures SlotsOnDates(events, duration, dates, r1) == SlotsOnDates(events, duration, dates, r2)
    decreases |dates|
  {
    if |dates| > 0 {
      SameWindowSameSlots(events, duration, dates[1..], r1, r2);
    }
  }

  /** A date no event touches offers ⌊(window − duration) / 15⌋ + 1 start times when the
      meeting fits in the window, evenly spaced from the window start. */
  lemma FreeDateCount(events: seq<Event>, duration: int, d: Date, range: Option<string>)
    requires forall e :: e in events ==> !Touches(e, d)
    ensures var w := Window(d, range);
      var slots := SlotsOnDate(events, duration, d, range);
      && |slots| == (if duration <= w.1 - w.0 then (w.1 - w.0 - duration) / Config.SlotInterval + 1 else 0)
      && forall k :: 0 <= k < |slots| ==> slots[k] == w.0 + Config.SlotInterval * k
  {
    var w := Window(d, range);
    NothingBusy(events, d);
    assert SlotsOnDate(events, duration, d, range) == Walk(w.0, w.1, duration, []);
    WalkFreeCount(w.0, w.1, duration);
  }

  lemma {:induction false} NothingBusy(events: seq<Event>, d: Date)
    requires forall e :: e in events ==> !Touches(e, d)
    ensures BusyOn(events, d) == []
    decreases |events|
  {
    if |events| > 0 {
      NothingBusy(events[1..], d);
    }
  }

  /** A busy interval that ends exactly at a start, or begins exactly when the meeting
      would end, does not block it. */
  lemma TouchingIntervalsDoNotBlock(e: Event, s: int, duration: int)
    requires Instant(e.end) == s || Instant(e.start) == s + duration
    ensures !Blocks(e, s, duration)
  {}

  /** A busy interval covering exactly one grid slot [s0, s0 + duration), with a duration of
      at most one grid step, removes that slot and no other. */
  lemma ExactBusySlotRemovesOnlyIt(duration: int, d: Date, range: Option<string>, e: Event, s0: int, x: int)
    requires 0 < duration <= Config.SlotInterval
    requires Touches(e, d) && Instant(e.start) == s0 && Instant(e.end) == s0 + duration
    requires OnGrid(Window(d, range).0, s0)
    ensures x in SlotsOnDate([e], duration, d, range) <==> x in SlotsOnDate([], duration, d, range) && x != s0
  {
    SlotsOnDateMembership([e], duration, d, range, x);
    SlotsOnDateMembership([], duration, d, range, x);
    var w0 := Window(d, range).0;
    if OnGrid(w0, x) && Blocks(e, x, duration) {
      GridPointsApart(w0, x, s0);
    }
  }

  /** Two grid points closer than one grid step are the same point. */
  lemma GridPointsApart(start: int, x: int, y: int)
    requires OnGrid(start, x) && OnGrid(start, y)
    requires -Config.SlotInterval < x - y < Config.SlotInterval
    ensures x == y
  {
    var a := (x - start) / Config.SlotInterval;
    var b := (y - start) / Config.SlotInterval;
    assert x == start + Config.SlotInterval * a;
    assert y == start + Config.SlotInterval * b;
  }

  /** The finder accepts a zero duration and then offers the end of working hours itself
      as a start time. */
  lemma ZeroDurationOffersWorkEnd(events: seq<Event>, d: Date)
    requires forall e :: e in events ==> !Touches(e, d)
    ensures AtHour(d, Config.WorkEndHour) in SlotsOnDate(events, 0, d, None)
  {
    SlotsOnDateMembership(events, 0, d, None, AtHour(d, Config.WorkEndHour));
  }
}
