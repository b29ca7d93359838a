/** The time-expression parser of `utils/time_utils.py`: relative date phrases and
    time constraints. Every rule list is scanned in the source's order and the first
    (or, where the source keeps overwriting, the last) match wins. */
module TimeParsing {
  import opened Wrappers
  import opened Text
  import opened Dates
  import opened Events

  /** `ORDINAL_MAP` in insertion order. */
  const OrdinalWords: seq<(string, int)> := [
    ("first", 1), ("second", 2), ("third", 3), ("fourth", 4), ("fifth", 5),
    ("sixth", 6), ("seventh", 7), ("eighth", 8), ("ninth", 9), ("tenth", 10),
    ("eleventh", 11), ("twelfth", 12), ("thirteenth", 13), ("fourteenth", 14),
    ("fifteenth", 15), ("sixteenth", 16), ("seventeenth", 17), ("eighteenth", 18),
    ("nineteenth", 19), ("twentieth", 20), ("twenty first", 21), ("twenty second", 22),
    ("twenty third", 23), ("twenty fourth", 24), ("twenty fifth", 25),
    ("twenty sixth", 26), ("twenty seventh", 27), ("twenty eighth", 28),
    ("twenty ninth", 29), ("thirtieth", 30), ("thirty first", 31)
  ]

  /** `MONTH_MAP` in insertion order. */
  const MonthNames: seq<string> := [
    "january", "february", "march", "april", "may", "june",
    "july", "august", "september", "october", "november", "december"
  ]

  // ---------------------------------------------------------------------------
  // Small scanners

  /** The number of the first month (in `MONTH_MAP` order) whose name occurs in `t`. */
  function FirstMonth(t: string): (m: Option<int>)
    ensures m.Some? ==> 1 <= m.value <= 12 && Contains(t, MonthNames[m.value - 1])
    ensures m.Some? ==> forall k :: 0 <= k < m.value - 1 ==> !Contains(t, MonthNames[k])
    ensures m.None? ==> forall k :: 0 <= k < 12 ==> !Contains(t, MonthNames[k])
  {
    FirstMonthFrom(t, 0)
  }

  function FirstMonthFrom(t: string, k: nat): (m: Option<int>)
    requires k <= 12
    ensures m.Some? ==> k < m.value <= 12 && Contains(t, MonthNames[m.value - 1])
    ensures m.Some? ==> forall j :: k <= j < m.value - 1 ==> !Contains(t, MonthNames[j])
    ensures m.None? ==> forall j :: k <= j < 12 ==> !Contains(t, MonthNames[j])
    decreases 12 - k
  {
    if k == 12 then None
    else if Contains(t, MonthNames[k]) then Some(k + 1)
    else FirstMonthFrom(t, k + 1)
  }

  /** Days from weekday `today` to the next weekday `target`: one to seven, never zero. */
  function DaysUntil(today: int, target: int): (n: int)
    requires 0 <= today < 7 && 0 <= target < 7
    ensures 1 <= n <= 7 && (today + n) % 7 == target
    ensures n == 7 <==> today == target
  {
    var n := (target - today + 7) % 7;
    if n == 0 then 7 else n
  }

  /** The next date strictly after `today` that falls on weekday `target`. */
  function NextOccurrence(today: Date, target: int): (r: Date)
    requires 0 <= target < 7
    ensures 1 <= Ordinal(r) - Ordinal(today) <= 7 && Weekday(r) == target
    ensures Weekday(today) == target ==> Ordinal(r) == Ordinal(today) + 7
  {
    var n := DaysUntil(Weekday(today), target);
    WeekdayAfter(today, n);
    AddDays(today, n)
  }

  /** Index of the first weekday `w` (Monday first) such that `"next " + w` occurs in `t`. */
  function NextWeekdayPhrase(t: string, i: nat): (r: Option<int>)
    requires i <= 7
    ensures r.Some? ==> i <= r.value < 7 && Contains(t, "next " + WeekdayNames[r.value])
    ensures r.Some? ==> forall j :: i <= j < r.value ==> !Contains(t, "next " + WeekdayNames[j])
    ensures r.None? ==> forall j :: i <= j < 7 ==> !Contains(t, "next " + WeekdayNames[j])
    decreases 7 - i
  {
    if i == 7 then None
    else if Contains(t, "next " + WeekdayNames[i]) then Some(i)
    else NextWeekdayPhrase(t, i + 1)
  }

  /** Index of the last weekday (in Monday…Sunday order) whose name occurs in `t`. */
  function LastWeekdayNamed(t: string, i: nat): (r: Option<int>)
    requires i <= 7
    ensures r.Some? ==> i <= r.value < 7 && Contains(t, WeekdayNames[r.value])
    ensures r.Some? ==> forall j :: r.value < j < 7 ==> !Contains(t, WeekdayNames[j])
    ensures r.None? <==> forall j :: i <= j < 7 ==> !Contains(t, WeekdayNames[j])
    decreases 7 - i
  {
    if i == 7 then None
    else match LastWeekdayNamed(t, i + 1)
      case Some(j) => Some(j)
      case None => if Contains(t, WeekdayNames[i]) then Some(i) else None
  }

  /** The first run of decimal digits in `t` (`re.findall(r'\d+', t)[0]`). */
  function FirstDigitRun(t: string): (r: Option<string>)
    ensures r.Some? ==> |r.value| > 0 && AllDigits(r.value)
    ensures r.Some? ==> exists i :: && OccursAt(t, r.value, i)
                                    && (forall k :: 0 <= k < i ==> !IsDigit(t[k]))
                                    && (i + |r.value| == |t| || !IsDigit(t[i + |r.value|]))
    ensures r.None? <==> forall i :: 0 <= i < |t| ==> !IsDigit(t[i])
  {
    var a := FindFrom(t, 0, IsDigit);
    if a == |t| then None
    else
      var b := RunEnd(t, a, IsDigit);
      assert OccursAt(t, t[a..b], a) && |t[a..b]| == b - a;
      Some(t[a..b])
  }

  /** `\b(20\d{2})\b` matches at `p`. */
  predicate YearAt(t: string, p: nat) {
    p + 4 <= |t| && t[p] == '2' && t[p + 1] == '0' && IsDigit(t[p + 2]) && IsDigit(t[p + 3])
    && IsBoundary(t, p) && IsBoundary(t, p + 4)
  }

  /** The year of the leftmost match of `\b(20\d{2})\b` at or after `p`. */
  function FindYear(t: string, p: nat): (y: Option<int>)
    ensures y.Some? ==> 2000 <= y.value <= 2099
    ensures y.Some? ==> exists q :: && p <= q && YearAt(t, q)
                                    && y.value == 2000 + 10 * DigitValue(t[q + 2]) + DigitValue(t[q + 3])
                                    && forall q' :: p <= q' < q ==> !YearAt(t, q')
    ensures y.None? ==> forall q :: p <= q ==> !YearAt(t, q)
    decreases |t| - p
  {
    if p + 4 > |t| then None
    else if YearAt(t, p) then Some(2000 + 10 * DigitValue(t[p + 2]) + DigitValue(t[p + 3]))
    else FindYear(t, p + 1)
  }

  // ---------------------------------------------------------------------------
  // parse_relative_date

  /** Ordinal word `i` occurs in `t` and its day exists in month `m` of year `y`. */
  predicate OrdinalFits(t: string, y: int, m: int, i: nat)
    requires 1 <= m <= 12 && i < |OrdinalWords|
  {
    Contains(t, OrdinalWords[i].0) && OrdinalWords[i].1 <= DaysInMonth(y, m)
  }

  /** The ordinal-word rule: the first `ORDINAL_MAP` key (from index `k` on) that occurs in
      `t` and makes a real date with month `m` of year `y`; invalid combinations are skipped. */
  function OrdinalScan(t: string, y: int, m: int, k: nat): (r: Option<Date>)
    requires 1 <= m <= 12 && k <= |OrdinalWords|
    ensures r.Some? ==> r.value.year == y && r.value.month == m
    ensures r.Some? ==> exists j :: k <= j < |OrdinalWords| && OrdinalFits(t, y, m, j)
                                    && r.value.day == OrdinalWords[j].1
                                    && forall i :: k <= i < j ==> !OrdinalFits(t, y, m, i)
    ensures r.None? ==> forall i :: k <= i < |OrdinalWords| ==> !OrdinalFits(t, y, m, i)
    decreases |OrdinalWords| - k
  {
    if k == |OrdinalWords| then None
    else if OrdinalFits(t, y, m, k) then Some(YMD(y, m, OrdinalWords[k].1))
    else OrdinalScan(t, y, m, k + 1)
  }

  /** The digit fallback: the first digit run is the day, a month name (else the current
      month) the month, a `20xx` word (else the current year) the year; `None` when these
      do not make a real date. */
  function DigitFallback(t: string, today: Date): (r: Option<Date>)
    ensures FirstDigitRun(t).None? ==> r.None?
    ensures r.Some? <==> && FirstDigitRun(t).Some?
                         && IsValid(YMD(FindYear(t, 0).GetOr(today.year), FirstMonth(t).GetOr(today.month),
                                        DigitsValue(FirstDigitRun(t).value)))
    ensures r.Some? ==> && FirstDigitRun(t).Some?
                        && r.value.day == DigitsValue(FirstDigitRun(t).value)
                        && r.value.month == FirstMonth(t).GetOr(today.month)
                        && r.value.year == FindYear(t, 0).GetOr(today.year)
  {
    match FirstDigitRun(t)
    case None => None
    case Some(run) =>
      var day := DigitsValue(run);
      var month := FirstMonth(t).GetOr(today.month);
      var year := FindYear(t, 0).GetOr(today.year);
      if IsValid(YMD(year, month, day)) then Some(YMD(year, month, day)) else None
  }

  /** `parse_relative_date` after lower-casing. `today` is the local date; `generic` is what
      `dateutil`'s parser makes of the text (`None` when it raises). */
  function ParseLowered(t: string, today: Date, generic: Option<Date>): Option<Date> {
    if t == "tomorrow" then Some(AddDays(today, 1))
    else if t == "today" then Some(today)
    else if t == "yesterday" then Some(AddDays(today, -1))
    else if Contains(t, "next week") then Some(AddDays(today, 7))
    else if Contains(t, "last week") then Some(AddDays(today, -7))
    else if Contains(t, "next month") then Some(FirstOfMonth(AddDays(FirstOfMonth(today), 32)))
    else if Contains(t, "last month") then Some(FirstOfMonth(AddDays(FirstOfMonth(today), -1)))
    else match NextWeekdayPhrase(t, 0)
      case Some(i) => Some(NextOccurrence(today, i))
      case None =>
        var byOrdinal := match FirstMonth(t)
          case Some(m) => OrdinalScan(t, today.year, m, 0)
          case None => None;
        if byOrdinal.Some? then byOrdinal
        else if generic.Some? then generic
        else DigitFallback(t, today)
  }

  /** `parse_relative_date(text)`. */
  function ParseRelativeDate(text: Option<string>, today: Date, generic: Option<Date>): (r: Option<Date>)
    ensures text.None? || text == Some("") ==> r.None?
    ensures text.Some? && text.value != "" ==> r == ParseLowered(Lower(text.value), today, generic)
  {
    match text
    case None => None
    case Some(s) => if s == "" then None else ParseLowered(Lower(s), today, generic)
  }

  /** The keyword rules give today plus one, zero and minus one days for the exact words. */
  lemma KeywordDays(today: Date, generic: Option<Date>)
    ensures var r := ParseLowered("tomorrow", today, generic); r.Some? && Ordinal(r.value) == Ordinal(today) + 1
    ensures ParseLowered("today", today, generic) == Some(today)
    ensures var r := ParseLowered("yesterday", today, generic); r.Some? && Ordinal(r.value) == Ordinal(today) - 1
  {}

  /** "next week" / "last week" anywhere in the text (and not one of the exact words)
      move the date by a week. */
  lemma WeekPhrases(t: string, today: Date, generic: Option<Date>)
    requires t != "tomorrow" && t != "today" && t != "yesterday"
    ensures Contains(t, "next week") ==>
      var r := ParseLowered(t, today, generic); r.Some? && Ordinal(r.value) == Ordinal(today) + 7
    ensures !Contains(t, "next week") && Contains(t, "last week") ==>
      var r := ParseLowered(t, today, generic); r.Some? && Ordinal(r.value) == Ordinal(today) - 7
  {}

  /** The month after the one holding `d`, on its first day. */
  function NextMonthStart(d: Date): Date {
    if d.month < 12 then YMD(d.year, d.month + 1, 1) else YMD(d.year + 1, 1, 1)
  }

  /** The month before the one holding `d`, on its first day. */
  function PrevMonthStart(d: Date): Date {
    if d.month > 1 then YMD(d.year, d.month - 1, 1) else YMD(d.year - 1, 12, 1)
  }

  /** Day one plus 32 days always lands in the next month, so "next month" is the first day
      of the following month, with December rolling into January of the next year. */
  lemma NextMonthRule(today: Date)
    ensures FirstOfMonth(AddDays(FirstOfMonth(today), 32)) == NextMonthStart(today)
  {
    var first := FirstOfMonth(today);
    var len := DaysInMonth(today.year, today.month);
    assert AddDays(first, 32) == AddDays(FirstOfNextMonth(first), 32 - len);
  }

  /** The day before day one is in the previous month, so "last month" is the first day of
      the previous month, with January rolling back into December of the year before. */
  lemma LastMonthRule(today: Date)
    ensures FirstOfMonth(AddDays(FirstOfMonth(today), -1)) == PrevMonthStart(today)
  {
    var first := FirstOfMonth(today);
    assert AddDays(first, -1) == AddDays(LastOfPrevMonth(first), 0);
  }

  /** A text naming "next <weekday>" (and none of the keyword phrases) resolves to the next
      date with that weekday: one to seven days ahead, a full week when today is that day. */
  lemma NextWeekdayRule(t: string, today: Date, generic: Option<Date>, i: int)
    requires t != "tomorrow" && t != "today" && t != "yesterday"
    requires !Contains(t, "next week") && !Contains(t, "last week")
    requires !Contains(t, "next month") && !Contains(t, "last month")
    requires 0 <= i < 7 && Contains(t, "next " + WeekdayNames[i])
    requires forall j :: 0 <= j < i ==> !Contains(t, "next " + WeekdayNames[j])
    ensures var r := ParseLowered(t, today, generic);
      && r.Some? && Weekday(r.value) == i
      && 1 <= Ordinal(r.value) - Ordinal(today) <= 7
      && (Weekday(today) == i ==> Ordinal(r.value) == Ordinal(today) + 7)
  {
    var p := NextWeekdayPhrase(t, 0);
    assert p == Some(i);
  }

  /** None of the keyword and "next <weekday>" phrases occurs in `t`. */
  predicate NoKeywordPhrase(t: string) {
    && t != "tomorrow" && t != "today" && t != "yesterday"
    && !Contains(t, "next week") && !Contains(t, "last week")
    && !Contains(t, "next month") && !Contains(t, "last month")
    && NextWeekdayPhrase(t, 0).None?
  }

  /** A text without 'x' names no "next …" phrase. */
  lemma NoNextPhrase(t: string)
    requires 'x' !in t
    ensures !Contains(t, "next week") && !Contains(t, "next month") && NextWeekdayPhrase(t, 0).None?
  {
    MissingCharNotContained(t, "next week", 'x');
    MissingCharNotContained(t, "next month", 'x');
    forall j | 0 <= j < 7
      ensures !Contains(t, "next " + WeekdayNames[j])
    {
      assert ("next " + WeekdayNames[j])[2] == 'x';
      MissingCharNotContained(t, "next " + WeekdayNames[j], 'x');
    }
  }

  /** Past the keyword phrases, a month name hands the text to the ordinal-word rule. */
  lemma OrdinalRuleReached(t: string, today: Date, generic: Option<Date>, m: int)
    requires NoKeywordPhrase(t)
    requires FirstMonth(t) == Some(m)
    requires OrdinalScan(t, today.year, m, 0).Some?
    ensures ParseLowered(t, today, generic) == OrdinalScan(t, today.year, m, 0)
  {}

  /** `dateutil`'s answer is used only when no keyword phrase matched and the ordinal rule
      gave nothing; the digit fallback only when `dateutil` raised as well. */
  lemma GenericParseBeforeFallback(t: string, today: Date, generic: Option<Date>)
    requires NoKeywordPhrase(t)
    requires FirstMonth(t).None? || OrdinalScan(t, today.year, FirstMonth(t).value, 0).None?
    ensures ParseLowered(t, today, generic) == if generic.Some? then generic else DigitFallback(t, today)
  {}

  /** A text with none of the letters 'x', 'm', 'd' and 'l' holds none of the keyword
      phrases: each of them contains one of these letters. */
  lemma NoKeywordByLetters(t: string)
    requires 'x' !in t && 'm' !in t && 'd' !in t && 'l' !in t
    ensures NoKeywordPhrase(t)
  {
    NoNextPhrase(t);
    assert "tomorrow"[2] == 'm' && "today"[2] == 'd' && "yesterday"[6] == 'd';
    MissingCharNotContained(t, "last week", 'l');
    MissingCharNotContained(t, "last month", 'l');
  }

  /** "twenty fourth june" gives 4 June: the key "fourth" comes before "twenty fourth" in
      the ordinal table and occurs in the text. */
  lemma OrdinalShadowing(today: Date, generic: Option<Date>)
    ensures ParseLowered("twenty fourth june", today, generic) == Some(YMD(today.year, 6, 4))
  {
    var t := "twenty fourth june";
    JuneLetters(t);
    JuneMoreLetters(t);
    JuneOccurrences(t);
    NoKeywordByLetters(t);
    JuneMonth(t);
    JuneWords(t);
    JuneFourth(t, today.year);
    OrdinalRuleReached(t, today, generic, 6);
  }

  lemma JuneLetters(t: string)
    requires t == "twenty fourth june"
    ensures 'x' !in t && 'm' !in t && 'd' !in t && 'l' !in t
  {}

  lemma JuneMoreLetters(t: string)
    requires t == "twenty fourth june"
    ensures 'a' !in t && 'b' !in t && 'i' !in t && 's' !in t
  {}

  lemma JuneOccurrences(t: string)
    requires t == "twenty fourth june"
    ensures Contains(t, "june") && Contains(t, "fourth")
  {
    assert t[14..18] == "june";
    OccurrenceContained(t, "june", 14);
    assert t[7..13] == "fourth";
    OccurrenceContained(t, "fourth", 7);
  }

  lemma OccurrenceContained(t: string, w: string, i: nat)
    requires i + |w| <= |t| && t[i..i + |w|] == w
    ensures Contains(t, w)
  {
    ContainsIff(t, w);
    assert OccursAt(t, w, i);
  }

  /** Without the letters 'a' and 'b' no month before June can be named. */
  lemma JuneMonth(t: string)
    requires 'a' !in t && 'b' !in t && Contains(t, "june")
    ensures FirstMonth(t) == Some(6)
  {
    MissingCharNotContained(t, "january", 'a');
    MissingCharNotContained(t, "february", 'b');
    MissingCharNotContained(t, "march", 'a');
    MissingCharNotContained(t, "april", 'a');
    MissingCharNotContained(t, "may", 'a');
  }

  /** Without the letters 'i' and 's' none of "first", "second" and "third" occurs. */
  lemma JuneWords(t: string)
    requires 'i' !in t && 's' !in t
    ensures !Contains(t, "first") && !Contains(t, "second") && !Contains(t, "third")
  {
    MissingCharNotContained(t, "first", 'i');
    MissingCharNotContained(t, "second", 's');
    MissingCharNotContained(t, "third", 'i');
  }

  /** When "fourth" is the first ordinal key in the text, the ordinal rule picks day 4. */
  lemma JuneFourth(t: string, y: int)
    requires !Contains(t, "first") && !Contains(t, "second") && !Contains(t, "third")
    requires Contains(t, "fourth")
    ensures OrdinalScan(t, y, 6, 0) == Some(YMD(y, 6, 4))
  {
    assert !OrdinalFits(t, y, 6, 0) && !OrdinalFits(t, y, 6, 1) && !OrdinalFits(t, y, 6, 2);
    assert OrdinalFits(t, y, 6, 3);
  }

  /** "thirty first february" gives 1 February, not an error: "first" is the first key of
      the ordinal table and February 1 exists. */
  lemma OrdinalInvalidDayShadowed(today: Date, generic: Option<Date>)
    ensures ParseLowered("thirty first february", today, generic) == Some(YMD(today.year, 2, 1))
  {
    var t := "thirty first february";
    FebruaryLetters(t);
    NoKeywordByLetters(t);
    FebruaryWords(t);
    FebruaryFirst(t, today.year);
    OrdinalRuleReached(t, today, generic, 2);
  }

  lemma FebruaryLetters(t: string)
    requires t == "thirty first february"
    ensures 'x' !in t && 'm' !in t && 'd' !in t && 'l' !in t
  {}

  lemma FebruaryWords(t: string)
    requires t == "thirty first february"
    ensures !Contains(t, "january") && Contains(t, "february") && Contains(t, "first")
  {
    FebruaryNoJ(t);
    MissingCharNotContained(t, "january", 'j');
    FebruaryNamed(t);
    FebruaryFirstNamed(t);
  }

  lemma FebruaryNoJ(t: string)
    requires t == "thirty first february"
    ensures 'j' !in t
  {}

  lemma FebruaryFirstNamed(t: string)
    requires t == "thirty first february"
    ensures Contains(t, "first")
  {
    ContainsIff(t, "first");
    assert OccursAt(t, "first", 7);
  }

  lemma FebruaryNamed(t: string)
    requires t == "thirty first february"
    ensures Contains(t, "february")
  {
    ContainsIff(t, "february");
    assert OccursAt(t, "february", 13);
  }

  /** With "february" but not "january" in the text and "first" present, the ordinal rule
      picks February 1. */
  lemma FebruaryFirst(t: string, y: int)
    requires !Contains(t, "january") && Contains(t, "february") && Contains(t, "first")
    ensures FirstMonth(t) == Some(2)
    ensures OrdinalScan(t, y, 2, 0) == Some(YMD(y, 2, 1))
  {
    assert OrdinalFits(t, y, 2, 0);
  }
}
