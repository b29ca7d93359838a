# smart_scheduler core in Dafny

This project models the scheduling core of smart_scheduler, a voice assistant that books
meetings in a Google calendar. It covers four parts:

- the availability engine and its process-wide event cache (`services/calendar_service.py`);
- the natural-language date and time-constraint parser (`utils/time_utils.py`);
- the calendar agent in front of the engine (`agents/calendar_agent.py`);
- the dialogue state machine of the voice loop (`main.py`: `ConversationState`,
  `parse_command`, `next_weekday` and the `run` loop).

Everything is pure functions over immutable data.

- **Time.** All times are integer minutes on one scale:
  `Instant = Ordinal(date) * 1440 + minute of day`. Times are in the calendar's own zone,
  Asia/Kolkata, which has no daylight saving.
- **Dates.** Dates are proleptic Gregorian with Python's `toordinal` numbering and
  `weekday()` numbering (Monday is 0).
- **Regular expressions.** Every regular expression of the core is a small scanner. Each
  scanner returns what Python's backtracking matcher returns on the ASCII classes `\d`,
  `\s` and `\w`. Each rule list is scanned in the source's order.
- **Outside world as inputs.** Anything the program gets from outside is a parameter:
  - clock readings;
  - the machine's date and the date in the calendar's zone;
  - what the calendar backend lists, or `None` when the call raises;
  - what the insert call returns;
  - what `dateutil`'s `parse` (not fuzzy, with `datetime.now()` as the default) makes of a date text.
- **Errors.** A Python exception that escapes to a caller is an explicit `None` or error
  constructor.

Modules, one file each:

| module | file | models |
|---|---|---|
| `Wrappers` | wrappers.dfy | `Option` |
| `Config` | config.dfy | working hours 9 to 18 and the 15-minute grid (`config.py:9-11`) |
| `Dates` | dates.dfy | dates, day numbers, weekdays, `date + timedelta(days=k)` |
| `Text` | text.dfy | substring test, ASCII `lower`, `split`, `strip`, digit runs, `\b` |
| `Events` | events.dfy | events as busy intervals |
| `Availability` | availability.dfy | `find_available_slots` over a given event list |
| `EventCache` | event_cache.dfy | `EVENT_CACHE`, `get_upcoming_events`, `create_event`, and the finder reading through the cache |
| `TimeParsing` | time_parsing.dfy | `parse_relative_date` and the lookup tables |
| `TimeConstraints` | time_constraints.dfy | `parse_time_constraint` |
| `CalendarAgent` | calendar_agent.dfy | `CalendarAgent.find_available_slots`, `handle_no_slots`, `schedule_event` |
| `Dialogue` | dialogue.dfy | `ConversationState.reset`, `parse_command`, `next_weekday`, one pass of `run`, whole conversations |

Behaviour of the code that the model keeps, each proved as a lemma:

- **Ordinal shadowing in dates.** "twenty fourth june" gives 4 June, not 24 June
  (`TimeParsing.OrdinalShadowing`). The ordinal table is scanned in insertion order, and
  the key "fourth" is a substring of the text before "twenty fourth" is tried.
- **Invalid dates are not refused.** "thirty first february" gives 1 February instead of
  nothing (`TimeParsing.OrdinalInvalidDayShadowed`). The documented behaviour is 24 June
  and no date respectively; the model follows the code.
- **Cache freshness ignores whole days.** The test reads `timedelta.seconds`, so a cache
  fetched a day and ten seconds ago still counts as fresh
  (`EventCache.StaleByDaysStillFresh`, `EventCache.FreshWindows`).
- **Relational names are usually empty.** The lazy `(.*?)` in the event-relative pattern
  stops at the first word boundary. So a name that starts with a letter after a space is
  always empty, and the "before/after my meeting with X" rule then changes nothing
  (`TimeConstraints.WordAfterSpaceGivesEmptyName`).
- **A busy slot removes exactly its own start only for short meetings.** A busy interval
  covering exactly one grid slot removes that slot alone only when the meeting lasts at
  most 15 minutes (`Availability.ExactBusySlotRemovesOnlyIt`). Longer meetings also lose
  the earlier starts that would overlap it, which is what the overlap test does.
- **Digits in a spoken time can pick a slot by ordinal.** When the user says "10:45" and
  no slot is at 10:45, the ordinal fallback still sees the "1" and picks the first slot
  (`Dialogue.UnmatchedTimeFallsBackToOrdinal`).
- **Zero-length meetings are accepted.** The finder has no positive-duration
  precondition: its loop ends for every duration, since each step adds 15 minutes against
  a fixed bound. A zero-minute meeting is offered 18:00 itself
  (`Availability.ZeroDurationOffersWorkEnd`). Properties that need a non-negative or positive duration
  require it themselves.

## Model

| member | source | states |
|---|---|---|
| Dates.AddDays | utils/time_utils.py:35-48 | `date + timedelta(days=k)` lands exactly k day numbers from the date, across month and year ends |
| Dates.OrdinalInjective | utils/time_utils.py:35-48 | distinct dates have distinct day numbers, so the date k days away is unique |
| Dates.WeekdayAfter | main.py:297-302 | moving a date by k days moves its weekday by k modulo 7 |
| Dates.FirstOfNextMonth | utils/time_utils.py:45-46 | the date found is the day after the last day of the given month |
| Dates.LastOfPrevMonth | utils/time_utils.py:47-48 | the date found is the day before the first of the given month |
| Availability.RangeHours | services/calendar_service.py:214-221 | morning, afternoon and evening stand for hours (6,12), (12,17) and (17,21); any other preference, none included, narrows nothing |
| Availability.Window | services/calendar_service.py:224-231 | the search window lies inside 9:00-18:00 of the date; it is exactly working hours without a known range, and 9-12, 12-17 or 17-18 once clipped to a part of the day |
| Availability.BusyOn | services/calendar_service.py:234-244 | an event is busy for a date exactly when the date lies between the event's start and end dates |
| Availability.CandidateDates | services/calendar_service.py:204-211 | only the preferred date when one is given; otherwise `days_ahead` consecutive dates starting today in the calendar's zone |
| Availability.WalkMembership | services/calendar_service.py:246-265 | the loop yields a start exactly when it is on the 15-minute grid from the window start, the meeting ends by the window end, and no busy interval overlaps it |
| Availability.WalkIncreasing | services/calendar_service.py:246-265 | the loop yields its starts in strictly increasing order |
| Availability.WalkFreeCount | services/calendar_service.py:246-265 | with nothing busy the loop yields floor((window - duration) / 15) + 1 starts when the meeting fits, the k-th one 15k minutes after the window start |
| Availability.SlotsOnDateMembership | services/calendar_service.py:223-265 | a start is offered on a date exactly when it is a grid point of that date's window, the meeting fits before the window ends, and no event touching the date overlaps it |
| Availability.BusyConflicts | services/calendar_service.py:243-260 | the `any(...)` conflict over the date's busy list holds exactly when some event touching the date overlaps the meeting |
| Availability.OtherDaysIgnored | services/calendar_service.py:242-244 | an event that does not touch a date never changes that date's slots |
| Availability.FindAvailableSlotsMembership | services/calendar_service.py:198-267 | the finder returns exactly the free starts of the candidate dates, and nothing else |
| Availability.SlotsOnDatesMembership | services/calendar_service.py:223-265 | the per-date results are concatenated: a start is in the output exactly when it is offered on one of the dates |
| Availability.SlotsOnDatesIncreasing | services/calendar_service.py:223-267 | for a duration of zero or more and dates in increasing order, the concatenated output is strictly increasing |
| Availability.SameWindowSameSlots | services/calendar_service.py:213-231 | two preferences with the same hour window give the same slots |
| Availability.SlotWithinWindow | services/calendar_service.py:246-265 | every offered start is a grid point whose meeting fits in the window; for a positive duration it starts within working hours, and for a zero duration it starts no later than 18:00 |
| Availability.FindAvailableSlotsIncreasing | services/calendar_service.py:223-267 | for a duration of zero or more the finder's output is in strictly increasing time order |
| Availability.UnknownRangeIgnored | services/calendar_service.py:213-221 | a preference other than morning, afternoon or evening gives the same slots as no preference |
| Availability.FreeDateCount | services/calendar_service.py:223-265 | a date no event touches offers floor((window - duration) / 15) + 1 evenly spaced starts when the meeting fits |
| Availability.TouchingIntervalsDoNotBlock | services/calendar_service.py:256-260 | the overlap test is half-open: an interval ending at the start, or beginning at the meeting's end, does not block |
| Availability.ExactBusySlotRemovesOnlyIt | services/calendar_service.py:246-265 | for meetings of at most 15 minutes, a busy interval covering exactly one grid slot removes that slot and no other |
| Availability.ZeroDurationOffersWorkEnd | services/calendar_service.py:247-263 | the `<=` loop bound lets a zero-minute meeting start at 18:00 on a free date |
| EventCache.SecondsField | services/calendar_service.py:156-157 | `(now - last_fetched).seconds` always lies in [0, 86400) |
| EventCache.FreshWindows | services/calendar_service.py:156-157 | the cache is fresh exactly in the 30 seconds after the fetch, and in that window shifted by any whole number of days |
| EventCache.GetUpcomingEvents | services/calendar_service.py:151-181 | the backend is called exactly when forced or not fresh; otherwise the cached events come back and the cache is untouched; a call returns its listing and replaces the whole cache with it and the fetch time; a raising call leaves the cache as it was |
| EventCache.StaleByDaysStillFresh | services/calendar_service.py:156-158 | a cache fetched a day and ten seconds earlier is still served |
| EventCache.EarlierClockIsStale | services/calendar_service.py:156-158 | a clock one second before the fetch makes the cache stale |
| EventCache.ReadWithinWindowRepeats | services/calendar_service.py:155-158 | a read taken less than 30 s after the fetch behind a successful read returns the same events, whatever the backend would answer |
| EventCache.CreateEvent | services/calendar_service.py:183-196 | the link comes back exactly when the insert and the forced refresh both succeed; the cache then holds the refreshed listing; on any failure the cache is as it was |
| EventCache.BookingRefreshesCache | services/calendar_service.py:193-194 | after a booking, a read inside the window returns the listing fetched after the insert, never the events cached before it |
| EventCache.FindAvailableSlotsCached | services/calendar_service.py:198-201 | the finder answers exactly when its cache read succeeds; its answer is the slot finder's result on the events read, and it leaves the cache that read leaves |
| EventCache.FindWithinWindowRepeats | services/calendar_service.py:198-201 | a search taken less than 30 s after the fetch behind a successful search gives the same answer, even if the calendar changed |
| TimeParsing.FirstMonth | utils/time_utils.py:64 | the first `MONTH_MAP` name, in table order, that occurs in the text; none when no name occurs |
| TimeParsing.FirstMonthFrom | utils/time_utils.py:64 | scanning the table from a given month on: the first month named, with no earlier one in that part of the table; none when none is named |
| TimeParsing.DaysUntil | utils/time_utils.py:55-57 | from one weekday to a target weekday takes 1 to 7 days, and 7 exactly when they are equal |
| TimeParsing.NextOccurrence | utils/time_utils.py:55-58 | the result falls on the target weekday, 1 to 7 days after today, and a full week later when today is that weekday |
| TimeParsing.NextWeekdayPhrase | utils/time_utils.py:51-53 | the first weekday, Monday first, for which "next <day>" occurs; none when no such phrase occurs |
| TimeParsing.LastWeekdayNamed | utils/time_utils.py:141-149 | the last weekday, in Monday to Sunday order, whose name occurs, as the overwriting loop leaves it; none when no name occurs |
| TimeParsing.FirstDigitRun | utils/time_utils.py:79-82 | `re.findall(r'\d+')[0]`: the first maximal digit run of the text (no digit before it, none right after it); none exactly when the text has no digit |
| TimeParsing.FindYear | utils/time_utils.py:92-94 | `re.search(r'\b20\d\d\b')`: the value of the leftmost match at or after the start position; none when no position matches |
| TimeParsing.OrdinalScan | utils/time_utils.py:61-72 | the first `ORDINAL_MAP` key, in insertion order, that occurs and makes a real date with the month; invalid days are skipped; none when no key fits |
| TimeParsing.DigitFallback | utils/time_utils.py:77-99 | the first digit run is the day, a month name (else the current month) the month, a 20xx year (else the current year) the year; a date exactly when the text has a digit and those three make a real date |
| TimeParsing.ParseRelativeDate | utils/time_utils.py:24-27 | an absent or empty text gives no date; any other text is lower-cased and parsed |
| TimeParsing.KeywordDays | utils/time_utils.py:35-40 | "tomorrow", "today" and "yesterday" give today plus one, zero and minus one days |
| TimeParsing.WeekPhrases | utils/time_utils.py:41-44 | "next week" anywhere moves seven days ahead, and otherwise "last week" seven days back |
| TimeParsing.NextMonthRule | utils/time_utils.py:45-46 | "next month" is the first day of the following month, December rolling into January |
| TimeParsing.LastMonthRule | utils/time_utils.py:47-48 | "last month" is the first day of the previous month, January rolling back into December |
| TimeParsing.NextWeekdayRule | utils/time_utils.py:50-58 | past the keywords, "next <day>" gives that weekday 1 to 7 days ahead, a full week when today is that day |
| TimeParsing.OrdinalRuleReached | utils/time_utils.py:60-72 | past the keyword phrases, a month name and a fitting ordinal word decide the date |
| TimeParsing.GenericParseBeforeFallback | utils/time_utils.py:74-99 | `dateutil`'s parse is used only when no keyword or ordinal rule applied, and the digit fallback only when that parser raised too |
| TimeParsing.OrdinalShadowing | utils/time_utils.py:61-69 | "twenty fourth june" gives 4 June of the current year |
| TimeParsing.OrdinalInvalidDayShadowed | utils/time_utils.py:61-72 | "thirty first february" gives 1 February of the current year |
| Text.Words | utils/time_utils.py:124 | `split()`: the k-th word is the whole maximal non-whitespace run at the k-th run start of the text; none exactly when the text is all whitespace |
| Text.Strip | utils/time_utils.py:114 | `strip()`: the piece of the text left after removing only whitespace before and after it, with no whitespace at either end; empty exactly when the text is all whitespace |
| TimeConstraints.RelationAt | utils/time_utils.py:109 | `\b(before\|after)\b` at one position: which word matched and where it ends |
| TimeConstraints.KindEnd | utils/time_utils.py:109 | `(meeting\|event\|appointment)` at one position, tried in that order |
| TimeConstraints.NameEnd | utils/time_utils.py:109 | the lazy name stops at the first position where the rest of the pattern can end; no end is found only when a line feed stands in the way |
| TimeConstraints.MatchAt | utils/time_utils.py:109 | a match at one position starts at a boundary with its relation word; a non-empty name occurs in the text at a non-boundary and holds no line feed |
| TimeConstraints.RelationalSearch | utils/time_utils.py:109 | `re.search`: the leftmost position where the pattern matches; none when no position does |
| TimeConstraints.FirstRelationalAt | utils/time_utils.py:109 | the first position from a given one where the pattern matches; no match at any earlier position, and none when no later position matches |
| TimeConstraints.NameFrom | utils/time_utils.py:109 | a non-empty name group occurs in the text at or after the end of the kind word, starts at a non-boundary, and holds no line feed |
| TimeConstraints.WordAfterSpaceGivesEmptyName | utils/time_utils.py:109-116 | a name starting with a word character after whitespace is always cut to nothing |
| TimeConstraints.BestFrom | utils/time_utils.py:118-127 | the scan keeps the first event with the highest positive word-overlap score; none when every score is 0 |
| TimeConstraints.BestEvent | utils/time_utils.py:118-127 | the reference event has the highest positive score and no earlier event reaches it; none exactly when every score is 0 |
| TimeConstraints.BestIsUnique | utils/time_utils.py:118-129 | the event the scan picks is the only one meeting that condition |
| TimeConstraints.HourMinute | utils/time_utils.py:135 | `strftime('%H:%M')` is five characters whose two digit groups, an hour below 24 and a minute below 60, read back as the minute of the day |
| TimeConstraints.ClockAt | utils/time_utils.py:162 | a clock match at one position starts at a boundary with one or two hour digits, a colon and two minute digits, and an optional am/pm |
| TimeConstraints.ClockWithPeriod | utils/time_utils.py:162 | the clock keeps its hour and minute digits, and its period is "am", "pm" or absent |
| TimeConstraints.FirstClock | utils/time_utils.py:162-163 | no clock exactly when no position matches; otherwise the clock at the leftmost matching position |
| TimeConstraints.FirstClockAt | utils/time_utils.py:162-163 | the leftmost position where the clock pattern matches; none when no position does |
| TimeConstraints.ClockText | utils/time_utils.py:164-173 | "pm" below twelve adds twelve hours as a two-digit hour, "am" with a leading "12" becomes "00", and no period keeps the text |
| TimeConstraints.ClockKeptUnlessConverted | utils/time_utils.py:166-171 | "am" not at 12 and "pm" from 12 on keep the matched text unchanged |
| TimeConstraints.TwelveAmIsMidnight | utils/time_utils.py:170-171 | "12:xx am" becomes "00:xx" |
| TimeConstraints.ApplyRelational | utils/time_utils.py:114-138 | a blank name or no scoring event changes nothing; any change comes from the best-scoring event |
| TimeConstraints.RelationUsesEventTimes | utils/time_utils.py:129-138 | "before" gives the best event's start date and "before HH:MM" of its start; "after" uses its end |
| TimeConstraints.RangeAfterWord | utils/time_utils.py:135-138 | the range "before HH:MM" / "after HH:MM" keeps its word, and the five characters after it read back as the event's minute of the day |
| TimeConstraints.PartOfDay | utils/time_utils.py:151-159 | morning, then afternoon, evening and night decide the range; none when none occurs |
| TimeConstraints.ParseTimeConstraint | utils/time_utils.py:101-104 | an absent or empty constraint returns the date and range unchanged |
| TimeConstraints.WeekdayDecidesDate | utils/time_utils.py:140-149 | a named weekday decides the date: the next such day, 1 to 7 days ahead, the latest name in Monday to Sunday order winning |
| TimeConstraints.ClockDecidesRange | utils/time_utils.py:161-173 | a clock time decides the range, over a part of the day and an event relation |
| TimeConstraints.PartOfDayDecidesRange | utils/time_utils.py:151-159 | without a clock time, a part of the day decides the range over an event relation |
| TimeConstraints.NothingRecognisedKeepsState | utils/time_utils.py:101-175 | a constraint with no relation, weekday, part of day or clock time returns the date and range unchanged |
| CalendarAgent.Search | agents/calendar_agent.py:28-32 | one finder call answers exactly when its cache read succeeds, with the slot finder's result on the events read |
| CalendarAgent.ParsedDate | agents/calendar_agent.py:12-16 | no date stays none, a date object is kept, an empty text is no date, and any other text gives exactly the relative-date parser's answer |
| CalendarAgent.Find | agents/calendar_agent.py:10-32 | without a constraint it answers exactly when the finder's read succeeds, with the finder's slots for the parsed date over the events read, and keeps that read's cache; with one, a failed first read raises before any search |
| CalendarAgent.FindWithConstraint | agents/calendar_agent.py:19-32 | with a constraint the finder searches exactly the date and range the constraint parser returned over the first read |
| CalendarAgent.TextDateIsSearched | agents/calendar_agent.py:15-32 | without a constraint a parsed date text is the only date searched: a start is offered exactly when it is free there |
| CalendarAgent.ConstraintWeekdayDecides | agents/calendar_agent.py:19-32 | a constraint naming a weekday makes the next such day the only date searched, whatever date argument came with it |
| CalendarAgent.SearchOneDate | agents/calendar_agent.py:28-32 | a search for one date finds exactly that date's free starts in the events read |
| CalendarAgent.ProbeDate | agents/calendar_agent.py:39-49 | the first search is on the day after the original date, the others on the original date |
| CalendarAgent.ProbeRange | agents/calendar_agent.py:40-49 | the next-day search has no range; the others each have one |
| CalendarAgent.AlternativeFor | agents/calendar_agent.py:41-54 | search 0 yields a next-day suggestion with that date; search i yields the i-th part of the day |
| CalendarAgent.FirstFew | agents/calendar_agent.py:44 | `slots[:2]`: the first two slots, or all of them when fewer |
| CalendarAgent.ProbeAll | agents/calendar_agent.py:38-54 | an answer exactly when every remaining search's read succeeds, each from the cache the previous one left; element k is what search i+k finds |
| CalendarAgent.Alternatives | agents/calendar_agent.py:36-56 | one to two starts per suggestion, each from a search that found something, only the first possibly the next day |
| CalendarAgent.HandleNoSlots | agents/calendar_agent.py:34-56 | an answer comes exactly when every search's read succeeds: at most four sized suggestions, only the first possibly the next day |
| CalendarAgent.SuggestedIffFound | agents/calendar_agent.py:41-54 | a search's suggestion appears exactly when that search found something |
| CalendarAgent.AlternativesInSearchOrder | agents/calendar_agent.py:38-54 | suggestions keep the search order: next day, morning, afternoon, evening |
| CalendarAgent.HandleNoSlotsInSearchOrder | agents/calendar_agent.py:34-56 | the list returned is in that search order |
| CalendarAgent.FreshSearchOneDate | services/calendar_service.py:155-158 | a search from a fresh cache finds the date's free starts in the cached events and leaves the cache |
| CalendarAgent.FreshProbeAll | agents/calendar_agent.py:38-54 | from a fresh cache the four searches find each probe's free starts in the cached events |
| CalendarAgent.FreshHandleNoSlots | agents/calendar_agent.py:34-56 | from a fresh cache the suggestions are those of the cached events and the cache is unchanged |
| CalendarAgent.FreshSuggestedIffFree | agents/calendar_agent.py:38-54 | from a fresh cache a date and part of the day are suggested exactly when they have a free hour |
| CalendarAgent.FreshSuggestionsAreFree | agents/calendar_agent.py:40-54 | from a fresh cache each suggestion holds the first one or two free hour-long starts of its date and range, each of them free |
| CalendarAgent.ReferenceSuggestedIffFree | agents/calendar_agent.py:38-54 | over one event list, a search's suggestion appears exactly when its date and part of the day have a free hour-long start |
| CalendarAgent.ReferenceSuggestionsAreFree | agents/calendar_agent.py:40-54 | over one event list, each suggestion is the first one or two free hour-long starts of its date and range |
| CalendarAgent.ScheduledMeeting | agents/calendar_agent.py:58-62 | the booked meeting starts at the slot and lasts 60 minutes, whatever length was asked for |
| CalendarAgent.ScheduleEvent | agents/calendar_agent.py:58-62 | the link comes back exactly when insert and refresh succeed; the cache then holds the refreshed listing, otherwise it is unchanged |
| CalendarAgent.BookedHourNotOfferedAgain | agents/calendar_agent.py:58-62 | once the booked hour is in the listing, a search inside the freshness window never offers an overlapping start on a date it touches |
| Dialogue.Reset | main.py:108-114 | the start stage, a 60-minute default length, no preferences, no slots, nothing selected |
| Dialogue.ResetInv | main.py:108-114 | the reset state satisfies the conversation invariant |
| Dialogue.StepPreservesInv | main.py:164-293 | every turn keeps the invariant: the start stage is the reset state, slots exist only while offering or confirming, and a selection exists exactly while confirming and is an offered slot |
| Dialogue.ConversePreservesInv | main.py:311-327 | the invariant holds after any number of turns |
| Dialogue.QuietTurn | main.py:311-327 | a turn that books nothing only hands its state and cache on to the rest of the conversation |
| Dialogue.LastTurn | main.py:311-327 | a one-turn conversation ends in that turn's state and cache, with its booking if it made one |
| Dialogue.TurnFailsOnlyOnListing | main.py:311-333 | under the invariant a turn fails only in the preference stage, when the calendar listing raises |
| Dialogue.Listen | main.py:311-327 | nothing heard is skipped; "exit" or "quit" ends the session exactly when heard; anything else is one turn |
| Dialogue.StartTurn | main.py:165-168 | "schedule" or "meeting" moves to the duration question exactly; any other turn changes nothing |
| Dialogue.UnitRun | main.py:172 | a match of `(\d+)\s*(minute\|min\|hour\|hr\|h\|m)` carries the value of a digit run in the text |
| Dialogue.ParseDuration | main.py:172-180 | an answer gives a length exactly when it holds a digit, and the length is never negative |
| Dialogue.DurationOfNumberAndUnit | main.py:172-180 | "<n> hours" gives 60n minutes and "<n> minutes" gives n: after the number and any spaces, a word starting with 'h' counts hours and one starting with 'm' minutes |
| Dialogue.DurationTurn | main.py:170-186 | a length moves on to the preference with that length; no length asks again with the state unchanged |
| Dialogue.NextWeekday | main.py:297-302 | the result falls on the requested weekday, 1 to 7 days after the date |
| Dialogue.DaysAhead | main.py:299-301 | the step is 1 to 7 days and lands on the requested weekday |
| Dialogue.NextWeekdayIsNextOccurrence | main.py:297-302 | `next_weekday` agrees with the weekday rule of the date parser in utils/time_utils.py |
| Dialogue.FirstWeekdayNamed | main.py:195-208 | the first weekday, Monday first, whose name occurs; none when none does |
| Dialogue.PreferredDateRules | main.py:190-194 | "today" gives today, otherwise "tomorrow" the next day; with no weekday either, the earlier preference stays |
| Dialogue.PreferredWeekday | main.py:195-208 | past "today" and "tomorrow", the first weekday named in Monday to Sunday order gives that weekday 1 to 7 days ahead |
| Dialogue.PreferredRangeIsPartOfDay | main.py:211-216 | the range rule is the constraint parser's part-of-day rule without "night"; otherwise the earlier preference stays |
| Dialogue.PreferenceStageMoves | main.py:218-235 | slots are offered exactly when the cache read succeeds and the finder finds something; otherwise the stage stays at preference, with no slots when the read succeeded; both preferences are remembered |
| Dialogue.PreferenceTurn | main.py:218-226 | with a successful read that finds slots, the offer holds all the slots found for the remembered preferences |
| Dialogue.OfferedSlotsAreFound | main.py:219-226 | the offered slots are what the finder computes over the events the read returned |
| Dialogue.OfferedSlotsAreFree | main.py:219-226 | a start is offered exactly when it is free on one of the searched dates |
| Dialogue.SpokenTime | main.py:239-249 | a time is read exactly when the answer holds a digit; the minute is below 100 |
| Dialogue.SpokenTimeOfClockText | main.py:239-249 | an answer shaped "hh:mm " reads as that hour and minute, shifted to the 24-hour clock by a following am or pm |
| Dialogue.TwelveHourBack | main.py:245-249 | the am/pm conversion undoes the twelve-hour clock |
| Dialogue.SpokenClock | main.py:229 | `%I:%M %p` of a slot: two hour digits, a colon, two minute digits and a space before the period |
| Dialogue.SpokenTimeOfShape | main.py:239-249 | an answer opening "hh:mm am" or "hh:mm pm" reads as that time on the 24-hour clock, with 12 am at hour 0 and 12 pm at hour 12 |
| Dialogue.SpokenClockRoundTrip | main.py:228-249 | repeating an offered time as the assistant reads it (`%I:%M %p`) parses back to that slot's hour and minute |
| Dialogue.SlotAtTime | main.py:251-255 | the first offered slot at the spoken hour and minute; none when no slot is at that time |
| Dialogue.SpokenTimeSelects | main.py:239-266 | a spoken time matching an offered slot selects the first such slot and asks for confirmation |
| Dialogue.UnmatchedTimeFallsBackToOrdinal | main.py:257-260 | a spoken time matching no slot still selects the first slot when the text holds a "1" |
| Dialogue.OrdinalChoice | main.py:258-262 | "first"/"one"/"1" takes the first slot if there is one; otherwise "second"/"two"/"2" takes the second if there are two; otherwise nothing |
| Dialogue.OfferKeepsChoiceInSlots | main.py:237-268 | an offer turn keeps the invariant and reaches confirmation exactly when something is selected |
| Dialogue.FirstChoiceTurn | main.py:257-266 | without digits, "first" selects the first offered slot |
| Dialogue.SecondChoiceTurn | main.py:257-268 | without digits, "first" or "one", "second" selects the second slot when there is one and otherwise asks again |
| Dialogue.ConfirmBooks | main.py:271-288 | a yes books the selected slot for the agreed length under the fixed summary and starts over, whether or not the calendar accepted it |
| Dialogue.AffirmBeatsDecline | main.py:271-291 | a yes-word wins over a no-word in the same answer |
| Dialogue.DeclineStartsOver | main.py:289-291 | a no starts over and books nothing |
| Dialogue.ConfirmOtherwiseWaits | main.py:292-293 | an answer with neither a yes- nor a no-word changes nothing and asks again |
| Dialogue.HappyPath | main.py:156-295 | "schedule", a length, a preference with free slots, "first" and a yes book exactly the first free slot for that length, and the conversation returns to the start |
| Dialogue.DurationTail | main.py:170-293 | the same conversation from the duration stage books the first free slot |
| Dialogue.PreferenceTail | main.py:188-293 | the same conversation from the preference stage books the first free slot |
| Dialogue.OfferTail | main.py:237-293 | "first" and a yes book the first offered slot |
| Dialogue.ConfirmTail | main.py:270-288 | a final yes books the selected slot and returns to the start |

## Left out

- The Google Calendar API, OAuth and token files (`get_calendar_service`) are not modelled. The backend is an input: its list result or `None` when the call raises, and its insert result.
- The `timeMin`/`timeMax` window of the list call is not modelled. The listing is whatever the backend returns.
- Time zones and `dateutil` parsing of event timestamps are not modelled. Events arrive as dates and minutes already in the calendar's zone, and all-day events are assumed to be given that way too.
- TimeConstraints.ApplyRelational: the constraint parser reads the reference event's start and end in the offset of their own timestamps, without `.astimezone(tz)` (utils/time_utils.py:130-131), while the finder converts to the calendar's zone (services/calendar_service.py:239-240). Both readers here see the same calendar-zone date and minute, so an event stored with another offset can give a different date or `HH:MM` in the source.
- Availability.CandidateDates: the source calls `datetime.now(tz)` once per listed day (services/calendar_service.py:209), so a list built across midnight can skip or repeat a date. The model reads the calendar date once.
- The `dateutil` parse of a date text (not fuzzy, so it raises on any word it does not know; default `datetime.now()`) is an input (`generic`), because its grammar is not part of this code.
- `datetime.now()` is an input: the machine's date, the date in the calendar's zone, and the cache's clock readings in microseconds.
- Python's year range 1..9999 and the `OverflowError` of date arithmetic past it are not modelled; dates are unbounded.
- `timedelta` overflow for huge meeting lengths is not modelled either.
- `lower()` and the character classes cover ASCII only. Whitespace is the ASCII set Python's `\s` and `split()` use, including 0x1c-0x1f. There is no Unicode case folding, and there are no Unicode digits, letters or whitespace such as U+00A0.
- Speech recognition, text to speech, the LLM client and conversation agent, `actions.py`, logging and the debug print at the top of `parse_command` are not part of this model.
- Reply wording, `isoformat` and `strftime` are not modelled. Replies keep only the data they report. The one clock text that is parsed back (`%I:%M %p`) is modelled, as `Dialogue.SpokenClock`.
- A `KeyError` on an event without a summary is not modelled. Every modelled event has one.
- The skip branch at services/calendar_service.py:252-254 is omitted. The loop guard already makes it unreachable.
- Concurrency is not modelled. The program is single-threaded.
- Dialogue.ParseDuration: the contract states when an answer yields a length and that the length is non-negative. Which number is read is stated only for answers that open with the number and unit (`Dialogue.DurationOfNumberAndUnit`).
- Dialogue.UnitRun: the contract does not say that the digit run is the leftmost one followed by a unit.
- Dialogue.SpokenTime: the hour read is stated only for answers shaped "hh:mm" (`Dialogue.SpokenTimeOfClockText`, `Dialogue.SpokenClockRoundTrip`), not for every shape the pattern accepts.
- TimeConstraints.ParseTimeConstraint: on its own it states only the empty case. The four rules are stated by the lemmas over `ConstrainLowered` (`WeekdayDecidesDate`, `ClockDecidesRange`, `PartOfDayDecidesRange`, `RelationUsesEventTimes`, `NothingRecognisedKeepsState`).
- Availability.FindAvailableSlotsIncreasing: stated only for durations of zero or more, because a negative length lets one day's walk run past 18:00 into the next day's window.
- Availability.ExactBusySlotRemovesOnlyIt: stated only for meetings of at most 15 minutes. Longer meetings also lose the earlier overlapping starts.
- CalendarAgent.FreshSuggestedIffFree: stated only when the cache is fresh at all four reads. When it goes stale midway, each search sees a new listing, and only the general contracts of `ProbeAll` and `HandleNoSlots` apply.
- CalendarAgent.FreshSuggestionsAreFree: same restriction to a cache that is fresh at all four reads.
