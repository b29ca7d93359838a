/** `parse_time_constraint` of `utils/time_utils.py`: a free-text constraint updates the
    preferred date and time range. Four rules run in order, each overwriting what the
    earlier ones set: "before/after <event>", a weekday name, a part of the day, a clock
    time. The two regular expressions are modelled as scanners that return exactly what
    Python's backtracking matcher returns on the ASCII character classes. */
module TimeConstraints {
  import opened Wrappers
  import opened Text
  import opened Dates
  import opened Events
  import TimeParsing

  // ---------------------------------------------------------------------------
  // The relational rule:
  //   \b(before|after)\b\s+(?:my|the)?\s*(meeting|event|appointment)\s+
  //   (?:called|named|titled)?\s*["']?(.*?)(?:\b|$|["'])

  datatype Relation = Before | After

  /** A match of the relational pattern: the relation word, where the search found it,
      where the lazily matched event name starts, and the name itself. */
  datatype RelMatch = RelMatch(relation: Relation, at: nat, nameStart: nat, name: string)

  predicate IsQuote(c: char) {
    c == '"' || c == '\''
  }

  /** `\b(before|after)\b` at `p`: the relation and the index after its word. */
  function RelationAt(t: string, p: nat): (r: Option<(Relation, nat)>)
    requires p <= |t|
    ensures r.Some? ==> p < r.value.1 <= |t| && IsBoundary(t, p) && IsBoundary(t, r.value.1)
    ensures r.Some? ==> (r.value.0 == Before <==> OccursAt(t, "before", p) && r.value.1 == p + 6)
    ensures r.Some? ==> (r.value.0 == After <==> OccursAt(t, "after", p) && r.value.1 == p + 5)
    ensures r.None? ==> !IsBoundary(t, p)
                        || (!(OccursAt(t, "before", p) && IsBoundary(t, p + 6))
                            && !(OccursAt(t, "after", p) && IsBoundary(t, p + 5)))
  {
    if !IsBoundary(t, p) then None
    else if OccursAt(t, "before", p) && IsBoundary(t, p + 6) then Some((Before, p + 6))
    else if OccursAt(t, "after", p) && IsBoundary(t, p + 5) then Some((After, p + 5))
    else None
  }

  /** `(meeting|event|appointment)` at `i`: the index after the word. */
  function KindEnd(t: string, i: nat): (r: Option<nat>)
    requires i <= |t|
    ensures r.Some? ==> (OccursAt(t, "meeting", i) && r.value == i + 7)
                        || (OccursAt(t, "event", i) && r.value == i + 5)
                        || (OccursAt(t, "appointment", i) && r.value == i + 11)
    ensures r.None? ==> !OccursAt(t, "meeting", i) && !OccursAt(t, "event", i)
                        && !OccursAt(t, "appointment", i)
  {
    if OccursAt(t, "meeting", i) then Some(i + 7)
    else if OccursAt(t, "event", i) then Some(i + 5)
    else if OccursAt(t, "appointment", i) then Some(i + 11)
    else None
  }

  /** `(?:my|the)?\s*(meeting|event|appointment)` at `a`, where `a` ends a run of
      whitespace. No kind word starts with "my" or "the", so dropping the article never
      rescues a failed match. */
  function KindAfterArticle(t: string, a: nat): (r: Option<nat>)
    requires a <= |t|
    ensures r.Some? ==> a < r.value <= |t|
  {
    if OccursAt(t, "my", a) then KindEnd(t, RunEnd(t, a + 2, IsSpace))
    else if OccursAt(t, "the", a) then KindEnd(t, RunEnd(t, a + 3, IsSpace))
    else KindEnd(t, a)
  }

  /** `(?:called|named|titled)` at `i`: the index after the word. */
  function LabelEnd(t: string, i: nat): (r: Option<nat>)
    requires i <= |t|
    ensures r.Some? ==> i < r.value <= |t| && IsWordChar(t[r.value - 1])
  {
    if OccursAt(t, "called", i) then assert t[i + 5] == "called"[5]; Some(i + 6)
    else if OccursAt(t, "named", i) then assert t[i + 4] == "named"[4]; Some(i + 5)
    else if OccursAt(t, "titled", i) then assert t[i + 5] == "titled"[5]; Some(i + 6)
    else None
  }

  /** The lazy `(.*?)` followed by `(?:\b|$|["'])`: `h` may end the name when a word
      boundary, the end of the text (or a final line feed) or a quote is there. */
  predicate NameMayEndAt(t: string, h: nat)
    requires h <= |t|
  {
    h == |t| || IsBoundary(t, h) || (h == |t| - 1 && t[h] == '\n') || IsQuote(t[h])
  }

  /** The first index from `h` on where the name may end, or `None` when a line feed
      (which `.` does not match) comes first. */
  function NameEnd(t: string, h: nat): (r: Option<nat>)
    requires h <= |t|
    ensures r.Some? ==> h <= r.value <= |t| && NameMayEndAt(t, r.value)
    ensures r.Some? ==> forall k :: h <= k < r.value ==> !NameMayEndAt(t, k) && t[k] != '\n'
    ensures r.None? ==> exists k :: h <= k < |t| && t[k] == '\n'
    decreases |t| - h
  {
    if NameMayEndAt(t, h) then Some(h)
    else if t[h] == '\n' then None
    else NameEnd(t, h + 1)
  }

  /** The relational pattern tried at `p` alone. When the lazy name cannot end before a
      line feed, the matcher backtracks; if it had taken the label word or a quote it then
      succeeds with an empty name, otherwise the attempt at `p` fails. */
  function MatchAt(t: string, p: nat): (r: Option<RelMatch>)
    requires p <= |t|
    ensures r.Some? ==> r.value.at == p && IsBoundary(t, p)
    ensures r.Some? ==> (r.value.relation == Before ==> OccursAt(t, "before", p))
                        && (r.value.relation == After ==> OccursAt(t, "after", p))
    ensures r.Some? && r.value.name != [] ==>
              && OccursAt(t, r.value.name, r.value.nameStart)
              && 0 < r.value.nameStart
              && !IsBoundary(t, r.value.nameStart)
              && '\n' !in r.value.name
  {
    match RelationAt(t, p)
    case None => None
    case Some((rel, r)) =>
      var a := RunEnd(t, r, IsSpace);
      if a == r then None
      else match KindAfterArticle(t, a)
        case None => None
        case Some(b) =>
          var e := RunEnd(t, b, IsSpace);
          if e == b then None
          else match NameFrom(t, e)
            case None => None
            case Some((g, name)) => Some(RelMatch(rel, p, g, name))
  }

  /** `(?:called|named|titled)?\s*["']?(.*?)(?:\b|$|["'])` from `e`: where the name starts
      and the name itself. */
  function NameFrom(t: string, e: nat): (r: Option<(nat, string)>)
    requires 0 < e <= |t|
    ensures r.Some? ==> e <= r.value.0
    ensures r.Some? && r.value.1 != [] ==>
              && OccursAt(t, r.value.1, r.value.0)
              && !IsBoundary(t, r.value.0)
              && '\n' !in r.value.1
  {
    var named := LabelEnd(t, e);
    var f := RunEnd(t, named.GetOr(e), IsSpace);
    var quoted := f < |t| && IsQuote(t[f]);
    var g := if quoted then f + 1 else f;
    match NameEnd(t, g)
    case Some(h) =>
      assert OccursAt(t, t[g..h], g);
      assert h > g ==> !NameMayEndAt(t, g) && t[g] != '\n';
      assert '\n' !in t[g..h] by {
        forall k | g <= k < h ensures t[k] != '\n' { }
      }
      Some((g, t[g..h]))
    case None =>
      if named.Some? || quoted then Some((g, [])) else None
  }

  /** `re.search` of the relational pattern from `p`: the leftmost start that matches. */
  function RelationalSearch(t: string, p: nat): (r: Option<RelMatch>)
    requires p <= |t|
    ensures r.Some? ==> p <= r.value.at <= |t| && MatchAt(t, r.value.at) == r
    ensures r.Some? ==> forall q :: p <= q < r.value.at ==> MatchAt(t, q).None?
    ensures r.None? ==> forall q :: p <= q <= |t| ==> MatchAt(t, q).None?
  {
    match FirstRelationalAt(t, p)
    case None => None
    case Some(q) => MatchAt(t, q)
  }

  /** The leftmost position from `p` where the relational pattern matches. */
  function FirstRelationalAt(t: string, p: nat): (r: Option<nat>)
    requires p <= |t|
    ensures r.Some? ==> p <= r.value <= |t| && MatchAt(t, r.value).Some?
    ensures r.Some? ==> forall q :: p <= q < r.value ==> MatchAt(t, q).None?
    ensures r.None? ==> forall q :: p <= q <= |t| ==> MatchAt(t, q).None?
    decreases |t| - p
  {
    if MatchAt(t, p).Some? then Some(p)
    else if p == |t| then None
    else FirstRelationalAt(t, p + 1)
  }

  /** A name that survives begins where the matcher sees no word boundary: right after a
      label glued to it ("calledstandup") or with a symbol after whitespace. A name that
      starts with a letter after a space is always cut to nothing by the lazy `(.*?)`. */
  lemma WordAfterSpaceGivesEmptyName(t: string, p: nat)
    requires p <= |t| && MatchAt(t, p).Some?
    requires var g := MatchAt(t, p).value.nameStart;
      0 < g < |t| && IsSpace(t[g - 1]) && IsWordChar(t[g])
    ensures MatchAt(t, p).value.name == []
  {}

  // ---------------------------------------------------------------------------
  // Choosing the reference event

  function WordSet(s: string): set<string> {
    set w | w in Words(s)
  }

  lemma NoWordsInBlank()
    ensures WordSet([]) == {}
  {
    assert Words([]) == [];
  }

  /** `len(set(name.split()) & set(summary.lower().split()))` for event `k`. */
  function Score(name: string, events: seq<Event>, k: nat): nat
    requires k < |events|
  {
    |WordSet(name) * WordSet(Lower(events[k].summary))|
  }

  /** The similarity of `name` to each event, in order. */
  function Scores(name: string, events: seq<Event>): (s: seq<nat>)
    ensures |s| == |events| && forall k :: 0 <= k < |s| ==> s[k] == Score(name, events, k)
  {
    seq(|events|, k requires 0 <= k < |events| => Score(name, events, k))
  }

  /** Index `j` has the highest positive score and no earlier index reaches it: the event
      the source picks. */
  predicate IsBest(scores: seq<nat>, j: nat) {
    && j < |scores| && scores[j] > 0
    && (forall k :: 0 <= k < |scores| ==> scores[k] <= scores[j])
    && (forall k :: 0 <= k < j ==> scores[k] < scores[j])
  }

  /** The scan over `existing_events` with `best_score` starting at 0 and replaced only
      by a strictly greater score. */
  function BestFrom(scores: seq<nat>, i: nat, best: Option<nat>, score: nat): (r: Option<nat>)
    requires i <= |scores|
    requires best.None? ==> score == 0
    requires best.Some? ==> best.value < i && score == scores[best.value] && score > 0
    requires forall k :: 0 <= k < i ==> scores[k] <= score
    requires best.Some? ==> forall k :: 0 <= k < best.value ==> scores[k] < score
    ensures r.Some? ==> IsBest(scores, r.value)
    ensures r.None? <==> best.None? && forall k :: i <= k < |scores| ==> scores[k] == 0
    decreases |scores| - i
  {
    if i == |scores| then best
    else if scores[i] > score then BestFrom(scores, i + 1, Some(i), scores[i])
    else BestFrom(scores, i + 1, best, score)
  }

  function BestEvent(name: string, events: seq<Event>): (r: Option<nat>)
    ensures r.Some? ==> IsBest(Scores(name, events), r.value)
    ensures r.None? <==> forall k :: 0 <= k < |events| ==> Score(name, events, k) == 0
  {
    var scores := Scores(name, events);
    var r := BestFrom(scores, 0, None, 0);
    assert r.None? <==> forall k :: 0 <= k < |scores| ==> scores[k] == 0;
    r
  }

  /** At most one index is the best, so the scan finds exactly the index `IsBest` names. */
  lemma BestIsUnique(name: string, events: seq<Event>, j: nat)
    requires IsBest(Scores(name, events), j)
    ensures BestEvent(name, events) == Some(j)
  {
    var scores := Scores(name, events);
    assert scores[j] > 0;
    var r := BestEvent(name, events);
    BestIndexUnique(scores, r.value, j);
  }

  lemma BestIndexUnique(scores: seq<nat>, i: nat, j: nat)
    requires IsBest(scores, i) && IsBest(scores, j)
    ensures i == j
  {}

  // ---------------------------------------------------------------------------
  // Clock times: \b(\d{1,2}:\d{2})\s*(am|pm)?\b

  /** The matched clock: the hour and minute digits and the period ("" when absent). */
  datatype Clock = Clock(hours: string, minutes: string, period: string)

  /** `%H:%M` of a minute of the day. */
  function HourMinute(m: MinuteOfDay): (s: string)
    ensures |s| == 5 && s[2] == ':' && AllDigits(s[..2]) && AllDigits(s[3..])
    ensures DigitsValue(s[..2]) < 24 && DigitsValue(s[3..]) < 60
    ensures DigitsValue(s[..2]) * 60 + DigitsValue(s[3..]) == m
  {
    var s := Pad2(m / 60) + ":" + Pad2(m % 60);
    assert s[..2] == Pad2(m / 60) && s[3..] == Pad2(m % 60);
    s
  }

  /** The clock pattern tried at `p` alone. `\d{1,2}` takes two digits only when a colon
      follows them; after the minutes, an `am`/`pm` counts only when a boundary follows
      it, and otherwise the final `\b` is found at the end of the spaces or, backtracking,
      right after the minutes. */
  function ClockAt(t: string, p: nat): (r: Option<Clock>)
    requires p <= |t|
    ensures r.Some? ==> p < |t| && IsBoundary(t, p)
    ensures r.Some? ==> 1 <= |r.value.hours| <= 2 && AllDigits(r.value.hours)
                        && OccursAt(t, r.value.hours, p)
    ensures r.Some? ==> |r.value.minutes| == 2 && AllDigits(r.value.minutes)
                        && OccursAt(t, r.value.hours + ":" + r.value.minutes, p)
    ensures r.Some? ==> r.value.period in {"", "am", "pm"}
  {
    if p == |t| || !IsDigit(t[p]) || !IsBoundary(t, p) then None
    else
      var colon :=
        if p + 2 < |t| && IsDigit(t[p + 1]) && t[p + 2] == ':' then p + 2
        else if p + 1 < |t| && t[p + 1] == ':' then p + 1
        else p;
      if colon == p || !(colon + 2 < |t| && IsDigit(t[colon + 1]) && IsDigit(t[colon + 2])) then None
      else
        var x := colon + 3;
        var hh := t[p..colon];
        var mm := t[colon + 1..x];
        assert AllDigits(hh) by {
          assert hh[0] == t[p];
          assert |hh| == 2 ==> hh[1] == t[p + 1];
        }
        assert AllDigits(mm) by {
          assert mm[0] == t[colon + 1] && mm[1] == t[colon + 2];
        }
        assert t[p..x] == hh + ":" + mm;
        ClockWithPeriod(t, x, hh, mm)
  }

  /** `\s*(am|pm)?\b` after the minutes, which end at `x`. */
  function ClockWithPeriod(t: string, x: nat, hh: string, mm: string): (r: Option<Clock>)
    requires x <= |t|
    ensures r.Some? ==> r.value.hours == hh && r.value.minutes == mm && r.value.period in {"", "am", "pm"}
  {
    var y := RunEnd(t, x, IsSpace);
    var period := if OccursAt(t, "am", y) then "am" else if OccursAt(t, "pm", y) then "pm" else "";
    if period != "" && IsBoundary(t, y + 2) then Some(Clock(hh, mm, period))
    else if IsBoundary(t, y) || y > x then Some(Clock(hh, mm, ""))
    else None
  }

  /** Where `re.search` of the clock pattern from `p` matches: the leftmost start. */
  function FirstClockAt(t: string, p: nat): (r: Option<nat>)
    requires p <= |t|
    ensures r.Some? ==> p <= r.value <= |t| && ClockAt(t, r.value).Some?
    ensures r.Some? ==> forall q :: p <= q < r.value ==> ClockAt(t, q).None?
    ensures r.None? ==> forall q :: p <= q <= |t| ==> ClockAt(t, q).None?
    decreases |t| - p
  {
    if ClockAt(t, p).Some? then Some(p)
    else if p == |t| then None
    else FirstClockAt(t, p + 1)
  }

  /** The clock `re.search` finds from `p`. */
  function FirstClock(t: string, p: nat): (r: Option<Clock>)
    requires p <= |t|
    ensures r.None? <==> forall q :: p <= q <= |t| ==> ClockAt(t, q).None?
    ensures r.Some? ==> r == ClockAt(t, FirstClockAt(t, p).value)
  {
    match FirstClockAt(t, p)
    case None => None
    case Some(q) => ClockAt(t, q)
  }

  /** The hour the clock denotes on a 24-hour dial, as the source converts it: "pm"
      adds twelve below twelve, "am" turns a leading "12" into "00". */
  function ClockText(c: Clock): (s: string)
    requires AllDigits(c.hours)
    ensures c.period == "pm" && DigitsValue(c.hours) < 12 ==>
              exists hs :: s == hs + ":" + c.minutes && |hs| == 2 && AllDigits(hs)
                           && DigitsValue(hs) == DigitsValue(c.hours) + 12
    ensures c.period == "am" && StartsWith(c.hours + ":" + c.minutes, "12") ==> s == "00:" + c.minutes
    ensures c.period == "" ==> s == c.hours + ":" + c.minutes
  {
    var timeStr := c.hours + ":" + c.minutes;
    if c.period == "pm" then
      if DigitsValue(c.hours) < 12 then NatToString(DigitsValue(c.hours) + 12) + ":" + c.minutes
      else timeStr
    else if c.period == "am" && StartsWith(timeStr, "12") then "00:" + c.minutes
    else timeStr
  }

  /** An "am" clock whose hours are not "12" and a "pm" clock from twelve on keep their
      digits unchanged. */
  lemma ClockKeptUnlessConverted(c: Clock)
    requires AllDigits(c.hours) && 1 <= |c.hours| <= 2
    requires (c.period == "am" && c.hours != "12") || (c.period == "pm" && DigitsValue(c.hours) >= 12)
    ensures ClockText(c) == c.hours + ":" + c.minutes
  {
    var timeStr := c.hours + ":" + c.minutes;
    if |c.hours| == 1 {
      assert timeStr[1] == ':';
    } else {
      assert timeStr[..2] == c.hours;
    }
  }

  /** Midnight written "12:xx am" becomes "00:xx". */
  lemma TwelveAmIsMidnight(c: Clock)
    requires c.hours == "12" && c.period == "am"
    ensures ClockText(c) == "00:" + c.minutes
  {
    assert (c.hours + ":" + c.minutes)[..2] == "12";
  }

  // ---------------------------------------------------------------------------
  // The whole constraint

  /** The event-relative rule: a non-blank name and a best-matching event move the date to
      that event's start (before) or end (after) day and the range to "before HH:MM" or
      "after HH:MM". */
  function ApplyRelational(m: RelMatch, events: seq<Event>, date: Option<Date>, range: Option<string>)
    : (r: (Option<Date>, Option<string>))
    ensures Strip(m.name) == [] ==> r == (date, range)
    ensures r != (date, range) ==> exists j :: IsBest(Scores(Strip(m.name), events), j)
  {
    var name := Strip(m.name);
    if name == [] then (date, range)
    else match BestEvent(name, events)
      case None => (date, range)
      case Some(j) =>
        var ev := events[j];
        if m.relation == Before then (Some(ev.start.date), Some("before " + HourMinute(ev.start.minute)))
        else (Some(ev.end.date), Some("after " + HourMinute(ev.end.minute)))
  }

  /** `TIME_OF_DAY` words in the order the source tests them. */
  function PartOfDay(t: string): (r: Option<string>)
    ensures r.Some? <==> Contains(t, "morning") || Contains(t, "afternoon")
                         || Contains(t, "evening") || Contains(t, "night")
    ensures Contains(t, "morning") ==> r == Some("morning")
    ensures !Contains(t, "morning") && Contains(t, "afternoon") ==> r == Some("afternoon")
    ensures !Contains(t, "morning") && !Contains(t, "afternoon") && Contains(t, "evening") ==> r == Some("evening")
    ensures !Contains(t, "morning") && !Contains(t, "afternoon") && !Contains(t, "evening") && Contains(t, "night")
            ==> r == Some("night")
  {
    if Contains(t, "morning") then Some("morning")
    else if Contains(t, "afternoon") then Some("afternoon")
    else if Contains(t, "evening") then Some("evening")
    else if Contains(t, "night") then Some("night")
    else None
  }

  /** `parse_time_constraint` after lower-casing. `today` is the machine's date, which the
      weekday rule reads. */
  function ConstrainLowered(t: string, events: seq<Event>, today: Date, date: Option<Date>,
                            range: Option<string>): (Option<Date>, Option<string>)
  {
    var byEvent := match RelationalSearch(t, 0)
      case None => (date, range)
      case Some(m) => ApplyRelational(m, events, date, range);
    var newDate := match TimeParsing.LastWeekdayNamed(t, 0)
      case None => byEvent.0
      case Some(i) => Some(TimeParsing.NextOccurrence(today, i));
    var byPart := match PartOfDay(t)
      case None => byEvent.1
      case Some(w) => Some(w);
    var newRange := match FirstClock(t, 0)
      case None => byPart
      case Some(c) => Some(ClockText(c));
    (newDate, newRange)
  }

  /** `parse_time_constraint(constraint, existing_events, current_date, current_time_range)`. */
  function ParseTimeConstraint(constraint: Option<string>, events: seq<Event>, today: Date,
                               date: Option<Date>, range: Option<string>): (r: (Option<Date>, Option<string>))
    ensures constraint.None? || constraint == Some("") ==> r == (date, range)
  {
    match constraint
    case None => (date, range)
    case Some(s) => if s == "" then (date, range) else ConstrainLowered(Lower(s), events, today, date, range)
  }

  // ---------------------------------------------------------------------------
  // Properties

  /** A named weekday fixes the date to the next such day, one to seven days ahead of the
      machine's date, whatever the relational rule chose; with several names the one
      latest in the Monday…Sunday order wins. */
  lemma WeekdayDecidesDate(t: string, events: seq<Event>, today: Date, date: Option<Date>,
                           range: Option<string>, i: nat)
    requires i < 7 && Contains(t, WeekdayNames[i])
    requires forall j :: i < j < 7 ==> !Contains(t, WeekdayNames[j])
    ensures var r := ConstrainLowered(t, events, today, date, range);
      && r.0.Some? && Weekday(r.0.value) == i
      && 1 <= Ordinal(r.0.value) - Ordinal(today) <= 7
  {
    var w := TimeParsing.LastWeekdayNamed(t, 0);
    assert w == Some(i);
  }

  /** A clock time decides the range over a part of the day and over an event relation. */
  lemma ClockDecidesRange(t: string, events: seq<Event>, today: Date, date: Option<Date>,
                          range: Option<string>)
    requires FirstClock(t, 0).Some?
    ensures ConstrainLowered(t, events, today, date, range).1 == Some(ClockText(FirstClock(t, 0).value))
  {}

  /** Without a clock time, a part of the day decides the range over an event relation,
      in the order morning, afternoon, evening, night. */
  lemma PartOfDayDecidesRange(t: string, events: seq<Event>, today: Date, date: Option<Date>,
                              range: Option<string>)
    requires FirstClock(t, 0).None? && PartOfDay(t).Some?
    ensures ConstrainLowered(t, events, today, date, range).1 == PartOfDay(t)
  {}

  /** A constraint that names no event relation, weekday, part of day or clock time leaves
      the date and range as they were. */
  lemma NothingRecognisedKeepsState(t: string, events: seq<Event>, today: Date, date: Option<Date>,
                                    range: Option<string>)
    requires RelationalSearch(t, 0).None?
    requires forall j :: 0 <= j < 7 ==> !Contains(t, WeekdayNames[j])
    requires !Contains(t, "morning") && !Contains(t, "afternoon") && !Contains(t, "evening")
             && !Contains(t, "night")
    requires forall q :: 0 <= q <= |t| ==> ClockAt(t, q).None?
    ensures ConstrainLowered(t, events, today, date, range) == (date, range)
  {
    NothingRecognisedParts(t);
  }

  lemma NothingRecognisedParts(t: string)
    requires forall j :: 0 <= j < 7 ==> !Contains(t, WeekdayNames[j])
    requires forall q :: 0 <= q <= |t| ==> ClockAt(t, q).None?
    ensures TimeParsing.LastWeekdayNamed(t, 0).None? && FirstClock(t, 0).None?
  {}

  /** "before" an event gives that event's start day and a range that reads back as the
      start's time of day; "after" uses the end. */
  lemma RelationUsesEventTimes(m: RelMatch, events: seq<Event>, date: Option<Date>, range: Option<string>, j: nat)
    requires IsBest(Scores(Strip(m.name), events), j)
    ensures var r := ApplyRelational(m, events, date, range);
      var ev := events[j];
      var at := if m.relation == Before then ev.start else ev.end;
      var word := if m.relation == Before then "before " else "after ";
      && r.0 == Some(at.date) && r.1.Some?
      && |r.1.value| == |word| + 5 && r.1.value[..|word|] == word
      && var hm := r.1.value[|word|..];
         AllDigits(hm[..2]) && AllDigits(hm[3..]) && DigitsValue(hm[..2]) * 60 + DigitsValue(hm[3..]) == at.minute
  {
    var ev := events[j];
    var at := if m.relation == Before then ev.start else ev.end;
    var word := if m.relation == Before then "before " else "after ";
    assert ApplyRelational(m, events, date, range) == (Some(at.date), Some(word + HourMinute(at.minute))) by {
      var name := Strip(m.name);
      assert Score(name, events, j) > 0;
      NoWordsInBlank();
      BestIsUnique(name, events, j);
    }
    RangeAfterWord(word, at.minute);
  }

  /** A range built as a word followed by "HH:MM" reads back as that time of day. */
  lemma RangeAfterWord(word: string, minute: MinuteOfDay)
    ensures var s := word + HourMinute(minute);
      && |s| == |word| + 5 && s[..|word|] == word
      && var hm := s[|word|..];
         AllDigits(hm[..2]) && AllDigits(hm[3..]) && DigitsValue(hm[..2]) * 60 + DigitsValue(hm[3..]) == minute
  {
    assert (word + HourMinute(minute))[|word|..] == HourMinute(minute);
  }
}
