/** The voice dialogue of `main.py`: `ConversationState` and the state machine of
    `SmartScheduler.parse_command`, which walks START → DURATION → PREFERENCE →
    OFFER_SLOTS → CONFIRM and back to START. One call of `Step` is one recognised
    utterance. Slots are instants (minutes, see `Events.Instant`); the speech, printing and
    response wording are left out, and each reply keeps only the data it reports. */
module Dialogue {
  import opened Wrappers
  import opened Text
  import opened Dates
  import opened Events
  import Config
  import Availability
  import opened EventCache
  import TimeParsing
  import TimeConstraints

  datatype Stage = Start | Duration | Preference | OfferSlots | Confirm

  /** `ConversationState`: the stage, the meeting length in minutes, the preferences, the
      slots last offered and the slot the user chose. */
  datatype State = State(stage: Stage, duration: int, preferredDate: Option<Date>,
                         preferredRange: Option<string>, slots: seq<int>, selected: Option<int>)

  /** The meeting length before the user gives one. */
  const DefaultDuration: int := 60

  /** The summary every booked meeting gets. */
  const MeetingSummary: string := "Scheduled Meeting"

  /** `ConversationState.reset()`, also the state `__init__` builds. */
  function Reset(): (s: State)
    ensures s.stage == Start && s.duration == DefaultDuration
    ensures s.preferredDate.None? && s.preferredRange.None? && s.slots == [] && s.selected.None?
  {
    State(Start, DefaultDuration, None, None, [], None)
  }

  /** What the assistant says, reduced to the data it carries. `TurnFailed` is the apology
      of the main loop when an exception escapes `parse_command`. */
  datatype Reply =
    | Silent
    | AskDuration
    | DurationSet(minutes: int)
    | DurationRetry
    | Offer(shown: seq<int>, dayNamed: Option<int>)
    | NoSlots
    | AskConfirm(slot: int)
    | ChoiceRetry
    | Scheduled(link: string)
    | BookingFailed
    | StartOver
    | YesNoRetry
    | TurnFailed

  /** The world a turn sees: the machine's date, the date in the calendar's zone, the clock
      readings the cache takes, and what the calendar backend answers. */
  datatype Env = Env(today: Date, calendarToday: Date, now: int, fetchedAt: int,
                     listing: Option<seq<Event>>, insert: Insert)

  /** The result of a turn: the new state, the reply, the event cache afterwards and the
      booking request sent to the calendar, if any. */
  datatype Outcome = Outcome(state: State, reply: Reply, cache: Cache, booking: Option<Booking>)

  // ---------------------------------------------------------------------------
  // START

  function StartStep(s: State, c: Cache, t: string): Outcome {
    if Contains(t, "schedule") || Contains(t, "meeting") then
      Outcome(s.(stage := Duration), AskDuration, c, None)
    else Outcome(s, Silent, c, None)
  }

  // ---------------------------------------------------------------------------
  // DURATION: (\d+)\s*(minute|min|hour|hr|h|m), else (\d+)

  /** The first digit run from `p` on that is followed, after optional whitespace, by a
      unit word: its value and whether the unit is an hour. Every unit word starts with
      'h' (hour, hr, h) or 'm' (minute, min, m), and a digit run can only be extended
      by the unit, so the letter decides. */
  function UnitRun(t: string, p: nat): (r: Option<(nat, bool)>)
    requires p <= |t|
    ensures r.Some? ==> exists a, q :: p <= a < q <= |t| && AllDigits(t[a..q])
                                       && r.value.0 == DigitsValue(t[a..q])
    decreases |t| - p
  {
    var a := FindFrom(t, p, IsDigit);
    if a == |t| then None
    else
      var q := RunEnd(t, a, IsDigit);
      var y := RunEnd(t, q, IsSpace);
      if y < |t| && (t[y] == 'h' || t[y] == 'm') then
        assert AllDigits(t[a..q]);
        Some((DigitsValue(t[a..q]), t[y] == 'h'))
      else UnitRun(t, q)
  }

  /** The meeting length the DURATION stage reads: hours become minutes, a bare number
      is minutes, no digits at all is no answer. */
  function ParseDuration(t: string): (r: Option<int>)
    ensures r.None? <==> forall i :: 0 <= i < |t| ==> !IsDigit(t[i])
    ensures r.Some? ==> r.value >= 0
  {
    match UnitRun(t, 0)
    case Some((value, hours)) => Some(if hours then value * 60 else value)
    case None =>
      match TimeParsing.FirstDigitRun(t)
      case Some(run) => Some(DigitsValue(run))
      case None => None
  }

  function DurationStep(s: State, c: Cache, t: string): Outcome {
    match ParseDuration(t)
    case Some(minutes) => Outcome(s.(duration := minutes, stage := Preference), DurationSet(minutes), c, None)
    case None => Outcome(s, DurationRetry, c, None)
  }

  // ---------------------------------------------------------------------------
  // PREFERENCE

  /** `next_weekday(d, weekday)`: the next date after `d` with that weekday. */
  function NextWeekday(d: Date, weekday: int): (r: Date)
    ensures 0 <= weekday < 7 ==> Weekday(r) == weekday && 1 <= Ordinal(r) - Ordinal(d) <= 7
  {
    var n := DaysAhead(Weekday(d), weekday);
    WeekdayAfter(d, n);
    AddDays(d, n)
  }

  /** Days from weekday `w` forward to `weekday`: a full week when they are the same. */
  function DaysAhead(w: int, weekday: int): (n: int)
    requires 0 <= w < 7
    ensures 0 <= weekday < 7 ==> 1 <= n <= 7 && (w + n) % 7 == weekday
  {
    var ahead := weekday - w;
    ModShift(if ahead <= 0 then 1 else 0, weekday);
    if ahead <= 0 then ahead + 7 else ahead
  }

  /** Index of the first weekday (in Monday…Sunday order) named in `t`. */
  function FirstWeekdayNamed(t: string, i: nat): (r: Option<int>)
    requires i <= 7
    ensures r.Some? ==> i <= r.value < 7 && Contains(t, WeekdayNames[r.value])
    ensures r.Some? ==> forall j :: i <= j < r.value ==> !Contains(t, WeekdayNames[j])
    ensures r.None? <==> forall j :: i <= j < 7 ==> !Contains(t, WeekdayNames[j])
    decreases 7 - i
  {
    if i == 7 then None
    else if Contains(t, WeekdayNames[i]) then Some(i)
    else FirstWeekdayNamed(t, i + 1)
  }

  /** The date preference after hearing `t`: "today", then "tomorrow", then the first
      weekday name; otherwise the earlier preference stays. */
  function PreferredDate(t: string, today: Date, current: Option<Date>): Option<Date> {
    if Contains(t, "today") then Some(today)
    else if Contains(t, "tomorrow") then Some(AddDays(today, 1))
    else match FirstWeekdayNamed(t, 0)
      case Some(i) => Some(NextWeekday(today, i))
      case None => current
  }

  /** The time-range preference after hearing `t`. */
  function PreferredRange(t: string, current: Option<string>): Option<string> {
    if Contains(t, "morning") then Some("morning")
    else if Contains(t, "afternoon") then Some("afternoon")
    else if Contains(t, "evening") then Some("evening")
    else current
  }

  /** `strftime("%A")` of an instant, as a weekday number. */
  function WeekdayOfInstant(i: int): int {
    ((i / Config.MinutesPerDay) + 6) % 7
  }

  function PreferenceStep(s: State, c: Cache, t: string, env: Env): Outcome {
    var date := PreferredDate(t, env.today, s.preferredDate);
    var range := PreferredRange(t, s.preferredRange);
    var found := FindAvailableSlotsCached(c, env.now, env.listing, env.fetchedAt, s.duration,
                                          Availability.DefaultDaysAhead, env.calendarToday, date, range);
    var s1 := s.(preferredDate := date, preferredRange := range);
    match found.0
    case None => Outcome(s1, TurnFailed, found.1, None)
    case Some(slots) =>
      if |slots| > 0 then
        var shown := if |slots| > 2 then slots[..2] else slots;
        var day := if date.Some? then Some(WeekdayOfInstant(slots[0])) else None;
        Outcome(s1.(slots := slots, stage := OfferSlots), Offer(shown, day), found.1, None)
      else Outcome(s1.(slots := [], stage := Preference), NoSlots, found.1, None)
  }

  // ---------------------------------------------------------------------------
  // OFFER_SLOTS: (\d{1,2}):?(\d{2})?\s?(am|pm)?

  /** The hour and minute the user said, on a 24-hour dial. Everything after the hour
      digits is optional, so the first digit of the text always starts a match, and each
      optional part is taken when present. */
  function SpokenTime(t: string): (r: Option<(nat, nat)>)
    ensures r.None? <==> forall i :: 0 <= i < |t| ==> !IsDigit(t[i])
    ensures r.Some? ==> r.value.1 < 100
  {
    var p := FindFrom(t, 0, IsDigit);
    if p == |t| then None
    else
      var he := if p + 1 < |t| && IsDigit(t[p + 1]) then p + 2 else p + 1;
      assert AllDigits(t[p..he]);
      var hour := DigitsValue(t[p..he]);
      var c := if he < |t| && t[he] == ':' then he + 1 else he;
      var two := c + 1 < |t| && IsDigit(t[c]) && IsDigit(t[c + 1]);
      var minute := if two then 10 * DigitValue(t[c]) + DigitValue(t[c + 1]) else 0;
      var m := if two then c + 2 else c;
      var s := if m < |t| && IsSpace(t[m]) then m + 1 else m;
      var period := if OccursAt(t, "am", s) then "am" else if OccursAt(t, "pm", s) then "pm" else "";
      var h24 := if period == "pm" && hour < 12 then hour + 12
                 else if period == "am" && hour == 12 then 0
                 else hour;
      Some((h24, minute))
  }

  /** The hour and minute of a slot in the calendar's zone. */
  function ClockOf(slot: int): (int, int) {
    var m := MinuteOfInstant(slot);
    (m / 60, m % 60)
  }

  /** The first slot from index `k` on whose clock time is `hm`. */
  function SlotAtTime(slots: seq<int>, hm: (int, int), k: nat): (r: Option<int>)
    requires k <= |slots|
    ensures r.Some? ==> exists j :: k <= j < |slots| && slots[j] == r.value && ClockOf(r.value) == hm
                                    && forall i :: k <= i < j ==> ClockOf(slots[i]) != hm
    ensures r.None? <==> forall j :: k <= j < |slots| ==> ClockOf(slots[j]) != hm
    decreases |slots| - k
  {
    if k == |slots| then None
    else if ClockOf(slots[k]) == hm then Some(slots[k])
    else SlotAtTime(slots, hm, k + 1)
  }

  predicate SaysFirst(t: string) {
    Contains(t, "first") || Contains(t, "one") || Contains(t, "1")
  }

  predicate SaysSecond(t: string) {
    Contains(t, "second") || Contains(t, "two") || Contains(t, "2")
  }

  /** The ordinal choice: "first"/"one"/"1" takes the first slot, else "second"/"two"/"2"
      the second, each only when that many slots exist. */
  function OrdinalChoice(t: string, slots: seq<int>): (r: Option<int>)
    ensures r.Some? ==> r.value in slots
    ensures SaysFirst(t) ==> r == if |slots| > 0 then Some(slots[0]) else None
    ensures !SaysFirst(t) && SaysSecond(t) ==> r == if |slots| > 1 then Some(slots[1]) else None
    ensures !SaysFirst(t) && !SaysSecond(t) ==> r.None?
  {
    if SaysFirst(t) then
      if |slots| > 0 then Some(slots[0]) else None
    else if SaysSecond(t) then
      if |slots| > 1 then Some(slots[1]) else None
    else None
  }

  function OfferStep(s: State, c: Cache, t: string): Outcome {
    var byTime := match SpokenTime(t)
      case None => s.selected
      case Some(hm) => match SlotAtTime(s.slots, hm, 0)
        case Some(x) => Some(x)
        case None => s.selected;
    var chosen := if byTime.Some? then byTime else OrdinalChoice(t, s.slots);
    match chosen
    case Some(x) => Outcome(s.(selected := Some(x), stage := Confirm), AskConfirm(x), c, None)
    case None => Outcome(s.(selected := None), ChoiceRetry, c, None)
  }

  // ---------------------------------------------------------------------------
  // CONFIRM

  predicate Affirms(t: string) {
    Contains(t, "yes") || Contains(t, "confirm") || Contains(t, "sure") || Contains(t, "ok")
  }

  predicate Declines(t: string) {
    Contains(t, "no") || Contains(t, "cancel")
  }

  /** On a yes, book the selected slot for the meeting length and start over whether or not
      the calendar accepted it. Without a selected slot the end time cannot be computed and
      the turn fails before anything changes. */
  function ConfirmStep(s: State, c: Cache, t: string, env: Env): Outcome {
    if Affirms(t) then
      match s.selected
      case None => Outcome(s, TurnFailed, c, None)
      case Some(start) =>
        var request := Booking(MeetingSummary, start, start + s.duration);
        var created := CreateEvent(c, request, env.insert, env.listing, env.fetchedAt);
        var reply := if created.0.Created? then Scheduled(created.0.link) else BookingFailed;
        Outcome(Reset(), reply, created.1, Some(request))
    else if Declines(t) then Outcome(Reset(), StartOver, c, None)
    else Outcome(s, YesNoRetry, c, None)
  }

  // ---------------------------------------------------------------------------
  // The whole turn

  /** `parse_command(text)` with the event cache threaded through. */
  function Step(s: State, c: Cache, text: string, env: Env): Outcome {
    var t := Lower(text);
    match s.stage
    case Start => StartStep(s, c, t)
    case Duration => DurationStep(s, c, t)
    case Preference => PreferenceStep(s, c, t, env)
    case OfferSlots => OfferStep(s, c, t)
    case Confirm => ConfirmStep(s, c, t, env)
  }

  /** One pass of the `run` loop: nothing heard is skipped, "exit" or "quit" ends the
      session (`None`), anything else is a turn. */
  function Listen(s: State, c: Cache, heard: Option<string>, env: Env): (r: Option<Outcome>)
    ensures heard.None? || heard == Some("") ==> r == Some(Outcome(s, Silent, c, None))
    ensures (heard.Some? && heard.value != "" && !Contains(Lower(heard.value), "exit")
             && !Contains(Lower(heard.value), "quit")) ==> r == Some(Step(s, c, heard.value, env))
    ensures r.None? <==> heard.Some? && heard.value != ""
                         && (Contains(Lower(heard.value), "exit") || Contains(Lower(heard.value), "quit"))
  {
    match heard
    case None => Some(Outcome(s, Silent, c, None))
    case Some(text) =>
      if text == "" then Some(Outcome(s, Silent, c, None))
      else if Contains(Lower(text), "exit") || Contains(Lower(text), "quit") then None
      else Some(Step(s, c, text, env))
  }

  // ---------------------------------------------------------------------------
  // The invariant of the conversation

  /** What holds between turns: START is the reset state; slots exist only while offering
      or confirming; a selected slot exists exactly while confirming and is one of the
      offered slots. */
  predicate Inv(s: State) {
    && (s.stage == Start ==> s == Reset())
    && (s.stage in {Start, Duration, Preference} ==> s.slots == [] && s.selected.None?)
    && (s.stage == OfferSlots ==> s.slots != [] && s.selected.None?)
    && (s.stage == Confirm ==> s.selected.Some? && s.selected.value in s.slots)
  }

  lemma ResetInv()
    ensures Inv(Reset())
  {}

  /** Every turn keeps the invariant, whatever is said and whatever the calendar answers. */
  lemma StepPreservesInv(s: State, c: Cache, text: string, env: Env)
    requires Inv(s)
    ensures Inv(Step(s, c, text, env).state)
  {
    var t := Lower(text);
    match s.stage
    case Start =>
    case Duration =>
    case Preference =>
    case OfferSlots =>
      OfferKeepsChoiceInSlots(s, c, t);
    case Confirm =>
  }

  lemma OfferKeepsChoiceInSlots(s: State, c: Cache, t: string)
    requires s.stage == OfferSlots && s.slots != [] && s.selected.None?
    ensures var o := OfferStep(s, c, t);
      Inv(o.state) && (o.state.stage == Confirm <==> o.state.selected.Some?)
  {
    match SpokenTime(t)
    case None =>
    case Some(hm) =>
      match SlotAtTime(s.slots, hm, 0)
      case Some(x) =>
      case None =>
  }

  /** Under the invariant a turn never fails for want of a selected slot: only a failed
      calendar listing in PREFERENCE makes a turn fail. */
  lemma TurnFailsOnlyOnListing(s: State, c: Cache, text: string, env: Env)
    requires Inv(s)
    requires Step(s, c, text, env).reply == TurnFailed
    ensures s.stage == Preference
    ensures GetUpcomingEvents(c, false, env.now, env.listing, env.fetchedAt).events.None?
  {}

  /** Starting: a turn mentioning "schedule" or "meeting" asks for the length; any other
      turn leaves everything as it was. */
  lemma StartTurn(c: Cache, text: string, env: Env)
    ensures var o := Step(Reset(), c, text, env);
      var t := Lower(text);
      && (Contains(t, "schedule") || Contains(t, "meeting") <==> o.state.stage == Duration)
      && (o.state.stage == Duration ==> o.reply == AskDuration && o.state == Reset().(stage := Duration))
      && (o.state.stage != Duration ==> o.state == Reset() && o.reply == Silent)
      && o.cache == c && o.booking.None?
  {}

  /** "<n> hours" sets 60·n minutes and "<n> minutes" sets n: after the number and any
      spaces, a word beginning with 'h' counts hours and one beginning with 'm' minutes. */
  lemma DurationOfNumberAndUnit(n: nat, gap: string, unit: string, rest: string)
    requires forall i :: 0 <= i < |gap| ==> IsSpace(gap[i])
    requires |unit| > 0 && (unit[0] == 'h' || unit[0] == 'm')
    ensures var hours := unit[0] == 'h';
      ParseDuration(NatToString(n) + gap + unit + rest) == Some(if hours then 60 * n else n)
  {
    var digits := NatToString(n);
    var t := digits + gap + unit + rest;
    NumberRun(t, digits, gap + unit + rest);
    GapRun(t, |digits|, gap, unit + rest);
    assert t[|digits| + |gap|] == unit[0];
    assert t[0..|digits|] == digits;
    UnitRunAtStart(t, |digits|, |digits| + |gap|);
    DurationOfUnitRun(t, n, unit[0] == 'h');
  }

  lemma DurationOfUnitRun(t: string, value: nat, hours: bool)
    requires UnitRun(t, 0) == Some((value, hours))
    ensures ParseDuration(t) == Some(if hours then 60 * value else value)
  {}

  /** A digit run at the very start followed by spaces and an 'h' or 'm' is the unit run. */
  lemma UnitRunAtStart(t: string, q: nat, y: nat)
    requires 0 < q <= y < |t| && (t[y] == 'h' || t[y] == 'm')
    requires FindFrom(t, 0, IsDigit) == 0 && RunEnd(t, 0, IsDigit) == q && RunEnd(t, q, IsSpace) == y
    ensures UnitRun(t, 0) == Some((DigitsValue(t[0..q]), t[y] == 'h'))
  {}

  /** A text that starts with a digit run: the scan finds it at once and it ends where the
      digits end. */
  lemma NumberRun(t: string, digits: string, after: string)
    requires t == digits + after && |digits| > 0 && AllDigits(digits)
    requires |after| > 0 && !IsDigit(after[0])
    ensures FindFrom(t, 0, IsDigit) == 0 && RunEnd(t, 0, IsDigit) == |digits|
  {
    assert IsDigit(t[0]);
    assert forall i :: 0 <= i < |digits| ==> IsDigit(t[i]);
    assert t[|digits|] == after[0];
    RunEndExact(t, 0, |digits|, IsDigit);
  }

  /** A run of spaces at `q` ends where the spaces end. */
  lemma GapRun(t: string, q: nat, gap: string, after: string)
    requires q + |gap| + |after| == |t| && t[q..] == gap + after
    requires forall i :: 0 <= i < |gap| ==> IsSpace(gap[i])
    requires |after| > 0 && !IsSpace(after[0])
    ensures RunEnd(t, q, IsSpace) == q + |gap|
  {
    forall i | q <= i < q + |gap| ensures IsSpace(t[i]) {
      assert t[i] == t[q..][i - q] == gap[i - q];
    }
    assert t[q + |gap|] == t[q..][|gap|] == after[0];
    RunEndExact(t, q, q + |gap|, IsSpace);
  }


  /** A run of `p` from `i` that stops at `j` ends at `j`. */
  lemma RunEndExact(t: string, i: nat, j: nat, p: char -> bool)
    requires i <= j <= |t|
    requires forall k :: i <= k < j ==> p(t[k])
    requires j == |t| || !p(t[j])
    ensures RunEnd(t, i, p) == j
    decreases j - i
  {
    if i < j {
      RunEndExact(t, i + 1, j, p);
    }
  }

  /** The 12-hour clock text the assistant reads a slot out as (`%I:%M %p`), lower-cased
      as speech recognition returns it. */
  function SpokenClock(slot: int): (s: string)
    ensures |s| == 8 && AllDigits(s[..2]) && s[2] == ':' && AllDigits(s[3..5]) && s[5] == ' '
  {
    var hm := ClockOf(slot);
    var h12 := if hm.0 % 12 == 0 then 12 else hm.0 % 12;
    Pad2(h12) + ":" + Pad2(hm.1) + " " + (if hm.0 < 12 then "am" else "pm")
  }

  /** Repeating an offered time as the assistant said it selects that time: the spoken
      clock parses back to the slot's hour and minute. */
  lemma SpokenClockRoundTrip(slot: int, rest: string)
    ensures SpokenTime(SpokenClock(slot) + rest) == Some(ClockOf(slot))
  {
    var hm := ClockOf(slot);
    var h12 := if hm.0 % 12 == 0 then 12 else hm.0 % 12;
    var t := SpokenClock(slot) + rest;
    assert t[0..8] == SpokenClock(slot);
    SpokenTimeOfShape(t, h12, hm.1, hm.0 >= 12);
    TwelveHourBack(hm.0);
  }

  /** The 24-hour clock hour survives the trip through the twelve-hour clock. */
  lemma TwelveHourBack(h: int)
    requires 0 <= h < 24
    ensures var h12 := if h % 12 == 0 then 12 else h % 12;
      var pm := h >= 12;
      (if pm && h12 < 12 then h12 + 12 else if !pm && h12 == 12 then 0 else h12) == h
  {}

  /** A text opening with "hh:mm am" or "hh:mm pm" (twelve-hour clock, zero-padded) reads
      as that time on the 24-hour clock. */
  lemma SpokenTimeOfShape(t: string, h12: nat, minute: nat, pm: bool)
    requires 1 <= h12 <= 12 && minute < 60 && |t| >= 8
    requires t[0..8] == Pad2(h12) + ":" + Pad2(minute) + " " + (if pm then "pm" else "am")
    ensures SpokenTime(t) == Some((if pm && h12 < 12 then h12 + 12 else if !pm && h12 == 12 then 0 else h12, minute))
  {
    var s := t[0..8];
    assert s[0..2] == Pad2(h12) && s[3..5] == Pad2(minute);
    assert t[0..2] == Pad2(h12);
    SpokenTimeOfClockText(t);
    assert 10 * DigitValue(t[3]) + DigitValue(t[4]) == minute by {
      assert DigitsValue(s[3..5]) == minute;
      assert s[3..5][..1] == [s[3]];
      assert DigitsValue([s[3]]) == DigitValue(s[3]) by {
        assert [s[3]][..0] == [];
      }
    }
    if pm {
      assert !OccursAt(t, "am", 6) && OccursAt(t, "pm", 6) by { assert t[6..8] == "pm"; }
    } else {
      assert OccursAt(t, "am", 6) by { assert t[6..8] == "am"; }
    }
  }

  /** A text shaped "hh:mm " reads as that hour and minute, shifted by a following
      "am" or "pm". */
  lemma SpokenTimeOfClockText(t: string)
    requires |t| >= 8 && IsDigit(t[0]) && IsDigit(t[1]) && t[2] == ':' && IsDigit(t[3]) && IsDigit(t[4])
    requires IsSpace(t[5])
    ensures var hour := DigitsValue(t[0..2]);
      var am := OccursAt(t, "am", 6);
      var pm := !am && OccursAt(t, "pm", 6);
      SpokenTime(t) == Some((if pm && hour < 12 then hour + 12 else if am && hour == 12 then 0 else hour,
                             10 * DigitValue(t[3]) + DigitValue(t[4])))
  {
    assert FindFrom(t, 0, IsDigit) == 0;
  }

  /** A spoken time that matches an offered slot selects the first slot with that clock
      time and moves on to confirmation. */
  lemma SpokenTimeSelects(s: State, c: Cache, t: string, j: nat)
    requires Inv(s) && s.stage == OfferSlots
    requires SpokenTime(t).Some? && j < |s.slots| && ClockOf(s.slots[j]) == SpokenTime(t).value
    requires forall i :: 0 <= i < j ==> ClockOf(s.slots[i]) != SpokenTime(t).value
    ensures var o := OfferStep(s, c, t);
      o.state == s.(selected := Some(s.slots[j]), stage := Confirm) && o.reply == AskConfirm(s.slots[j])
  {
    var r := SlotAtTime(s.slots, SpokenTime(t).value, 0);
    assert r.Some?;
    var k :| 0 <= k < |s.slots| && s.slots[k] == r.value && ClockOf(r.value) == SpokenTime(t).value
             && forall i :: 0 <= i < k ==> ClockOf(s.slots[i]) != SpokenTime(t).value;
    assert k == j;
  }

  /** When the spoken time matches no slot, any "1" in the text (as in "10:45") still
      selects the first slot: the ordinal fallback reads the digit. */
  lemma UnmatchedTimeFallsBackToOrdinal(s: State, c: Cache, t: string)
    requires Inv(s) && s.stage == OfferSlots
    requires SpokenTime(t).Some?
    requires forall j :: 0 <= j < |s.slots| ==> ClockOf(s.slots[j]) != SpokenTime(t).value
    requires Contains(t, "1")
    ensures OfferStep(s, c, t).state.selected == Some(s.slots[0])
  {
    assert SlotAtTime(s.slots, SpokenTime(t).value, 0).None?;
  }

  /** A yes books exactly the selected slot for the agreed length under the fixed summary,
      and the conversation starts over whether or not the calendar accepted it. */
  lemma ConfirmBooks(s: State, c: Cache, text: string, env: Env)
    requires Inv(s) && s.stage == Confirm && Affirms(Lower(text))
    ensures var o := Step(s, c, text, env);
      && o.booking == Some(Booking(MeetingSummary, s.selected.value, s.selected.value + s.duration))
      && o.state == Reset()
      && (o.reply.Scheduled? <==> env.insert.Inserted? && env.listing.Some?)
  {}

  /** A yes wins over a no in the same answer ("no, ok"), since the yes-words are tested
      first. */
  lemma AffirmBeatsDecline(s: State, c: Cache, text: string, env: Env)
    requires Inv(s) && s.stage == Confirm
    requires Affirms(Lower(text)) && Declines(Lower(text))
    ensures Step(s, c, text, env).booking.Some?
  {}

  /** A no (without a yes-word) drops the selection and books nothing. */
  lemma DeclineStartsOver(s: State, c: Cache, text: string, env: Env)
    requires s.stage == Confirm && !Affirms(Lower(text)) && Declines(Lower(text))
    ensures var o := Step(s, c, text, env);
      o.state == Reset() && o.reply == StartOver && o.booking.None? && o.cache == c
  {}

  /** `next_weekday` agrees with the weekday rule of the date parser. */
  lemma NextWeekdayIsNextOccurrence(d: Date, weekday: int)
    requires 0 <= weekday < 7
    ensures NextWeekday(d, weekday) == TimeParsing.NextOccurrence(d, weekday)
  {
    assert TimeParsing.DaysUntil(Weekday(d), weekday) == DaysAhead(Weekday(d), weekday);
  }

  /** The slots offered after a preference are what the finder computes over the events
      the cache read returned, for the preferred date (or the next seven days) and range. */
  lemma OfferedSlotsAreFound(s: State, c: Cache, t: string, env: Env)
    requires PreferenceStep(s, c, t, env).reply.Offer?
    ensures var events := GetUpcomingEvents(c, false, env.now, env.listing, env.fetchedAt).events;
      && events.Some?
      && PreferenceStep(s, c, t, env).state.slots
         == Availability.FindAvailableSlots(events.value, s.duration, Availability.DefaultDaysAhead,
                                            env.calendarToday, PreferredDate(t, env.today, s.preferredDate),
                                            PreferredRange(t, s.preferredRange))
  {}

  /** Hence every offered slot is a free start on one of the searched dates, and every
      free start is offered. */
  lemma OfferedSlotsAreFree(s: State, c: Cache, t: string, env: Env, x: int)
    requires PreferenceStep(s, c, t, env).reply.Offer?
    ensures var events := GetUpcomingEvents(c, false, env.now, env.listing, env.fetchedAt).events;
      var dates := Availability.CandidateDates(env.calendarToday, Availability.DefaultDaysAhead,
                                               PreferredDate(t, env.today, s.preferredDate));
      var range := PreferredRange(t, s.preferredRange);
      && events.Some?
      && (x in PreferenceStep(s, c, t, env).state.slots <==>
           exists k :: 0 <= k < |dates| && Availability.FreeStartOn(events.value, s.duration, dates[k], range, x))
  {
    OfferedSlotsAreFound(s, c, t, env);
    var events := GetUpcomingEvents(c, false, env.now, env.listing, env.fetchedAt).events;
    Availability.FindAvailableSlotsMembership(events.value, s.duration, Availability.DefaultDaysAhead,
                                              env.calendarToday, PreferredDate(t, env.today, s.preferredDate),
                                              PreferredRange(t, s.preferredRange), x);
  }

  /** The date rules in the order the turn applies them: "today", then "tomorrow", and with
      neither and no weekday named the earlier preference stays. */
  lemma PreferredDateRules(t: string, today: Date, current: Option<Date>)
    ensures Contains(t, "today") ==> PreferredDate(t, today, current) == Some(today)
    ensures !Contains(t, "today") && Contains(t, "tomorrow") ==>
      && PreferredDate(t, today, current).Some?
      && Ordinal(PreferredDate(t, today, current).value) == Ordinal(today) + 1
    ensures !Contains(t, "today") && !Contains(t, "tomorrow")
            && (forall j :: 0 <= j < 7 ==> !Contains(t, WeekdayNames[j]))
            ==> PreferredDate(t, today, current) == current
  {}

  /** Past "today" and "tomorrow", the first weekday named in Monday…Sunday order picks the
      next such day, one to seven days ahead. */
  lemma PreferredWeekday(t: string, today: Date, current: Option<Date>, i: nat)
    requires !Contains(t, "today") && !Contains(t, "tomorrow")
    requires i < 7 && Contains(t, WeekdayNames[i])
    requires forall j :: 0 <= j < i ==> !Contains(t, WeekdayNames[j])
    ensures var r := PreferredDate(t, today, current);
      r.Some? && Weekday(r.value) == i && 1 <= Ordinal(r.value) - Ordinal(today) <= 7
  {
    assert FirstWeekdayNamed(t, 0) == Some(i);
  }

  /** The turn's range rule is the constraint parser's part-of-day rule without "night". */
  lemma PreferredRangeIsPartOfDay(t: string, current: Option<string>)
    ensures PreferredRange(t, current) ==
      match TimeConstraints.PartOfDay(t)
      case Some(w) => if w == "night" then current else Some(w)
      case None => current
  {
    assert "morning" != "night" && "afternoon" != "night" && "evening" != "night" by {
      assert "morning"[0] != "night"[0] && "afternoon"[0] != "night"[0] && "evening"[0] != "night"[0];
    }
  }

  /** A preference turn offers slots exactly when the cache read succeeds and the finder
      finds something; otherwise the dialogue stays at the preference, with no slots kept
      when the read succeeded. Both preferences are remembered either way. */
  lemma PreferenceStageMoves(s: State, c: Cache, text: string, env: Env)
    requires s.stage == Preference
    ensures var t := Lower(text);
      var o := Step(s, c, text, env);
      var read := GetUpcomingEvents(c, false, env.now, env.listing, env.fetchedAt);
      var date := PreferredDate(t, env.today, s.preferredDate);
      var range := PreferredRange(t, s.preferredRange);
      && o.booking.None? && o.cache == read.cache
      && o.state.preferredDate == date && o.state.preferredRange == range
      && (o.state.stage == OfferSlots <==>
           read.events.Some?
           && |Availability.FindAvailableSlots(read.events.value, s.duration, Availability.DefaultDaysAhead,
                                               env.calendarToday, date, range)| > 0)
      && (o.state.stage != OfferSlots ==> o.state.stage == Preference)
      && (o.state.stage != OfferSlots && read.events.Some? ==> o.state.slots == [] && o.reply == NoSlots)
  {
    var t := Lower(text);
    assert Step(s, c, text, env) == PreferenceStep(s, c, t, env);
  }

  /** An answer with neither a yes nor a no word changes nothing and asks again. */
  lemma ConfirmOtherwiseWaits(s: State, c: Cache, text: string, env: Env)
    requires s.stage == Confirm
    requires !Affirms(Lower(text)) && !Declines(Lower(text))
    ensures var o := Step(s, c, text, env);
      o.state == s && o.cache == c && o.booking.None? && o.reply == YesNoRetry
  {}

  /** Without digits and without "first" or "one", "second" picks the second offered slot
      when there is one, and otherwise nothing is selected. */
  lemma SecondChoiceTurn(s: State, c: Cache, text: string, env: Env)
    requires s.stage == OfferSlots && s.selected.None?
    requires forall i :: 0 <= i < |Lower(text)| ==> !IsDigit(Lower(text)[i])
    requires !Contains(Lower(text), "first") && !Contains(Lower(text), "one")
    requires Contains(Lower(text), "second")
    ensures var o := Step(s, c, text, env);
      && o.booking.None? && o.cache == c
      && (|s.slots| > 1 ==> o.state == s.(selected := Some(s.slots[1]), stage := Confirm))
      && (|s.slots| <= 1 ==> o.state == s && o.reply == ChoiceRetry)
  {
    var t := Lower(text);
    assert SpokenTime(t).None?;
    assert !Contains(t, "1") by {
      assert '1' !in t by {
        forall i | 0 <= i < |t| ensures t[i] != '1' { assert !IsDigit(t[i]); }
      }
      assert "1"[0] == '1';
      MissingCharNotContained(t, "1", '1');
    }
  }

  // ---------------------------------------------------------------------------
  // Whole conversations

  /** A conversation: each turn's text and world, applied in order. The result is the final
      state and cache and the booking requests sent, in order. */
  function Converse(s: State, c: Cache, turns: seq<(string, Env)>): (State, Cache, seq<Booking>)
    decreases |turns|
  {
    if |turns| == 0 then (s, c, [])
    else
      var o := Step(s, c, turns[0].0, turns[0].1);
      var rest := Converse(o.state, o.cache, turns[1..]);
      (rest.0, rest.1, (if o.booking.Some? then [o.booking.value] else []) + rest.2)
  }

  /** The invariant holds after any conversation that starts in it. */
  lemma {:induction false} ConversePreservesInv(s: State, c: Cache, turns: seq<(string, Env)>)
    requires Inv(s)
    ensures Inv(Converse(s, c, turns).0)
    decreases |turns|
  {
    if |turns| > 0 {
      StepPreservesInv(s, c, turns[0].0, turns[0].1);
      var o := Step(s, c, turns[0].0, turns[0].1);
      ConversePreservesInv(o.state, o.cache, turns[1..]);
    }
  }

  /** The slots the finder returns when state `s` hears `turn` over `events`. */
  function FoundFor(s: State, turn: (string, Env), events: seq<Event>): seq<int> {
    var t := Lower(turn.0);
    Availability.FindAvailableSlots(events, s.duration, Availability.DefaultDaysAhead, turn.1.calendarToday,
                                    PreferredDate(t, turn.1.today, s.preferredDate),
                                    PreferredRange(t, s.preferredRange))
  }

  /** A whole booking from the reset state: "schedule …", a length, a preference for which
      the calendar has free slots, "first", and a yes book the first free slot for that
      length, and the conversation is back at the start. */
  lemma {:induction false} HappyPath(c: Cache, turns: seq<(string, Env)>, d: int, events: seq<Event>)
    requires |turns| == 5
    requires Contains(Lower(turns[0].0), "schedule")
    requires ParseDuration(Lower(turns[1].0)) == Some(d)
    requires var e := turns[2].1;
      GetUpcomingEvents(c, false, e.now, e.listing, e.fetchedAt).events == Some(events)
    requires |FoundFor(Reset().(stage := Preference, duration := d), turns[2], events)| > 0
    requires forall i :: 0 <= i < |Lower(turns[3].0)| ==> !IsDigit(Lower(turns[3].0)[i])
    requires Contains(Lower(turns[3].0), "first")
    requires Affirms(Lower(turns[4].0))
    ensures var slots := FoundFor(Reset().(stage := Preference, duration := d), turns[2], events);
      var r := Converse(Reset(), c, turns);
      r.0 == Reset() && |r.2| == 1 && r.2[0] == Booking(MeetingSummary, slots[0], slots[0] + d)
  {
    var o := Step(Reset(), c, turns[0].0, turns[0].1);
    var rest := turns[1..];
    assert o.state == Reset().(stage := Duration) && o.cache == c && o.booking.None? by {
      StartTurn(c, turns[0].0, turns[0].1);
    }
    assert Converse(Reset(), c, turns) == Converse(o.state, c, rest) by { QuietTurn(Reset(), c, turns); }
    assert rest[0] == turns[1] && rest[1] == turns[2] && rest[2] == turns[3] && rest[3] == turns[4];
    DurationTail(o.state, c, rest, d, events);
  }

  /** The rest of `HappyPath` from the DURATION stage. */
  lemma {:induction false} DurationTail(s: State, c: Cache, turns: seq<(string, Env)>, d: int, events: seq<Event>)
    requires |turns| == 4 && s == Reset().(stage := Duration)
    requires ParseDuration(Lower(turns[0].0)) == Some(d)
    requires var e := turns[1].1;
      GetUpcomingEvents(c, false, e.now, e.listing, e.fetchedAt).events == Some(events)
    requires |FoundFor(s.(stage := Preference, duration := d), turns[1], events)| > 0
    requires forall i :: 0 <= i < |Lower(turns[2].0)| ==> !IsDigit(Lower(turns[2].0)[i])
    requires Contains(Lower(turns[2].0), "first")
    requires Affirms(Lower(turns[3].0))
    ensures var slots := FoundFor(s.(stage := Preference, duration := d), turns[1], events);
      var r := Converse(s, c, turns);
      r.0 == Reset() && |r.2| == 1 && r.2[0] == Booking(MeetingSummary, slots[0], slots[0] + d)
  {
    var next := s.(stage := Preference, duration := d);
    var o := Step(s, c, turns[0].0, turns[0].1);
    var rest := turns[1..];
    assert o.state == next && o.cache == c && o.booking.None? by { DurationTurn(s, c, turns[0].0, turns[0].1); }
    assert Converse(s, c, turns) == Converse(next, c, rest) by { QuietTurn(s, c, turns); }
    assert rest[0] == turns[1] && rest[1] == turns[2] && rest[2] == turns[3];
    PreferenceTail(next, c, rest, events);
  }

  /** The rest of `HappyPath` from the PREFERENCE stage. */
  lemma {:induction false} PreferenceTail(s: State, c: Cache, turns: seq<(string, Env)>, events: seq<Event>)
    requires |turns| == 3 && s.stage == Preference && s.selected.None?
    requires var e := turns[0].1;
      GetUpcomingEvents(c, false, e.now, e.listing, e.fetchedAt).events == Some(events)
    requires |FoundFor(s, turns[0], events)| > 0
    requires forall i :: 0 <= i < |Lower(turns[1].0)| ==> !IsDigit(Lower(turns[1].0)[i])
    requires Contains(Lower(turns[1].0), "first")
    requires Affirms(Lower(turns[2].0))
    ensures var slots := FoundFor(s, turns[0], events);
      var r := Converse(s, c, turns);
      r.0 == Reset() && |r.2| == 1 && r.2[0] == Booking(MeetingSummary, slots[0], slots[0] + s.duration)
  {
    var slots := FoundFor(s, turns[0], events);
    var o := Step(s, c, turns[0].0, turns[0].1);
    var rest := turns[1..];
    assert && o.booking.None? && o.state.stage == OfferSlots && o.state.slots == slots
           && o.state.duration == s.duration && o.state.selected.None? by {
      PreferenceTurn(s, c, turns[0].0, turns[0].1, events);
    }
    assert Converse(s, c, turns) == Converse(o.state, o.cache, rest) by { QuietTurn(s, c, turns); }
    var r := Converse(o.state, o.cache, rest);
    assert r.0 == Reset() && |r.2| == 1 && r.2[0] == Booking(MeetingSummary, slots[0], slots[0] + s.duration) by {
      assert rest[0] == turns[1] && rest[1] == turns[2];
      OfferTail(o.state, o.cache, rest);
    }
  }

  /** The rest of `HappyPath` from the OFFER_SLOTS stage. */
  lemma {:induction false} OfferTail(s: State, c: Cache, turns: seq<(string, Env)>)
    requires |turns| == 2 && s.stage == OfferSlots && s.slots != [] && s.selected.None?
    requires forall i :: 0 <= i < |Lower(turns[0].0)| ==> !IsDigit(Lower(turns[0].0)[i])
    requires Contains(Lower(turns[0].0), "first")
    requires Affirms(Lower(turns[1].0))
    ensures var r := Converse(s, c, turns);
      r.0 == Reset() && |r.2| == 1 && r.2[0] == Booking(MeetingSummary, s.slots[0], s.slots[0] + s.duration)
  {
    FirstChoiceTurn(s, c, turns[0].0, turns[0].1);
    QuietTurn(s, c, turns);
    var o := Step(s, c, turns[0].0, turns[0].1);
    ConfirmTail(o.state, o.cache, turns[1..]);
  }

  /** The last turn of `HappyPath`: the yes. */
  lemma {:induction false} ConfirmTail(s: State, c: Cache, turns: seq<(string, Env)>)
    requires |turns| == 1 && Inv(s) && s.stage == Confirm
    requires Affirms(Lower(turns[0].0))
    ensures var r := Converse(s, c, turns);
      r.0 == Reset() && |r.2| == 1 && r.2[0] == Booking(MeetingSummary, s.selected.value, s.selected.value + s.duration)
  {
    ConfirmBooks(s, c, turns[0].0, turns[0].1);
    LastTurn(s, c, turns);
  }

  /** A turn that books nothing adds nothing to the bookings of a conversation. */
  lemma QuietTurn(s: State, c: Cache, turns: seq<(string, Env)>)
    requires |turns| > 0 && Step(s, c, turns[0].0, turns[0].1).booking.None?
    ensures var o := Step(s, c, turns[0].0, turns[0].1);
      Converse(s, c, turns) == Converse(o.state, o.cache, turns[1..])
  {
    var o := Step(s, c, turns[0].0, turns[0].1);
    var rest := Converse(o.state, o.cache, turns[1..]);
    assert [] + rest.2 == rest.2;
  }

  /** The last turn of a conversation. */
  lemma LastTurn(s: State, c: Cache, turns: seq<(string, Env)>)
    requires |turns| == 1
    ensures var o := Step(s, c, turns[0].0, turns[0].1);
      Converse(s, c, turns) == (o.state, o.cache, if o.booking.Some? then [o.booking.value] else [])
  {
    var o := Step(s, c, turns[0].0, turns[0].1);
    assert turns[1..] == [];
    assert Converse(o.state, o.cache, []) == (o.state, o.cache, []);
    var mine: seq<Booking> := if o.booking.Some? then [o.booking.value] else [];
    assert mine + [] == mine;
  }

  /** A length in the answer moves on to the preference with that length. */
  lemma DurationTurn(s: State, c: Cache, text: string, env: Env)
    requires s.stage == Duration
    ensures var o := Step(s, c, text, env);
      && o.booking.None? && o.cache == c
      && match ParseDuration(Lower(text))
         case Some(d) => o.state == s.(duration := d, stage := Preference) && o.reply == DurationSet(d)
         case None => o.state == s && o.reply == DurationRetry
  {}

  /** A preference turn whose cache read succeeds and finds slots offers them all. */
  lemma PreferenceTurn(s: State, c: Cache, text: string, env: Env, events: seq<Event>)
    requires s.stage == Preference
    requires GetUpcomingEvents(c, false, env.now, env.listing, env.fetchedAt).events == Some(events)
    requires var t := Lower(text);
      |Availability.FindAvailableSlots(events, s.duration, Availability.DefaultDaysAhead, env.calendarToday,
                                       PreferredDate(t, env.today, s.preferredDate),
                                       PreferredRange(t, s.preferredRange))| > 0
    ensures var t := Lower(text);
      var date := PreferredDate(t, env.today, s.preferredDate);
      var range := PreferredRange(t, s.preferredRange);
      && Step(s, c, text, env).booking.None?
      && Step(s, c, text, env).state
        == s.(preferredDate := date, preferredRange := range, stage := OfferSlots,
              slots := Availability.FindAvailableSlots(events, s.duration, Availability.DefaultDaysAhead,
                                                       env.calendarToday, date, range))
  {
    var t := Lower(text);
    assert Step(s, c, text, env) == PreferenceStep(s, c, t, env);
  }

  /** Without digits, "first" picks the first offered slot. */
  lemma FirstChoiceTurn(s: State, c: Cache, text: string, env: Env)
    requires s.stage == OfferSlots && s.slots != [] && s.selected.None?
    requires forall i :: 0 <= i < |Lower(text)| ==> !IsDigit(Lower(text)[i])
    requires Contains(Lower(text), "first")
    ensures var o := Step(s, c, text, env);
      o.state == s.(selected := Some(s.slots[0]), stage := Confirm) && o.booking.None? && o.cache == c
  {
    assert SpokenTime(Lower(text)).None?;
  }
}
