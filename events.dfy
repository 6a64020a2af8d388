/**
 * The `Events` page: the same event list as the agenda, but the day label
 * is the parsed day number padded to two digits, and today's date arrives
 * as `YYYY-MM-DD` text.
 */
module EventsPage {
  import opened Wrappers
  import opened JsString
  import opened JsValue
  import opened Calendar
  import opened EventModel
  import AgendaPage

  /** `day.toString().padStart(2, '0')` for a parsed day; `NaN` prints as "NaN". */
  function DayText(day: Option<int>): string {
    if day.None? then "NaN" else PadStart2(IntToString(day.value))
  }

  /** A day number that is not negative is written as at least two digits that read back as the number. */
  lemma DayTextParsesBack(day: nat)
    ensures var t := DayText(Some(day));
            |t| >= 2 && AllDigits(t) && ParseInt(t) == Some(day)
  {
    PaddedNumber(day);
  }

  /** `formatDateDisplay(dateString)`; the `day` field is the parsed, zero-padded day. */
  function FormatDateDisplay(dateString: Option<string>): DateInfo {
    if !TruthyText(dateString) then EmptyInfo
    else
      var parts := Split(DatePart(dateString.value), '-');
      var year := ParsePart(Part(parts, 0));
      var month := ParsePart(Part(parts, 1));
      var day := ParsePart(Part(parts, 2));
      var monthName := MonthName(month);
      var weekDay := WeekdayName(year, month, day);
      var dayText := DayText(day);
      DateInfo(Some(dayText), monthName, weekDay, FullLabel(weekDay, Some(dayText), monthName))
  }

  /** `processEvents()` for the clock's local date rendered as `YYYY-MM-DD`. */
  function ProcessEvents(events: seq<Event>, today: string): seq<Event> {
    EventModel.ProcessEvents(events, today)
  }

  /** A missing or empty date string gives four empty fields. */
  lemma FormatEmpty()
    ensures FormatDateDisplay(None) == EmptyInfo
    ensures FormatDateDisplay(Some("")) == EmptyInfo
  {
  }

  /** Only the part before `T` matters. */
  lemma FormatIgnoresTime(a: string, b: string)
    requires a != "" && 'T' !in a
    ensures FormatDateDisplay(Some(a + "T" + b)) == FormatDateDisplay(Some(a))
  {
    DatePartOfStamp(a, b);
  }

  /** The parsed day 1 is shown as "01" here, where the agenda shows the segment "1" as written. */
  lemma DayOne()
    ensures DayText(Some(1)) == "01"
  {
  }

  /** The display of a date text whose three `-` segments parse to `year`, `month` and `day`. */
  lemma FormatFromParts(s: string, y: string, m: string, d: string, year: int, month: int, day: int)
    requires s != "" && Split(DatePart(s), '-') == [y, m, d]
    requires ParseInt(y) == Some(year) && ParseInt(m) == Some(month) && ParseInt(d) == Some(day)
    requires 1 <= month <= 12
    ensures var w := WeekdayNames[LocalNoonWeekday(year, month - 1, day)];
            var dd := DayText(Some(day));
            FormatDateDisplay(Some(s)) ==
              DateInfo(Some(dd), Some(MonthNames[month - 1]), Some(w), FullLabel(Some(w), Some(dd), Some(MonthNames[month - 1])))
  {
    SegmentsParse(Split(DatePart(s), '-'), y, m, d, year, month, day);
  }

  /** The date part of "2026-02-01" splits at `-` into its three segments. */
  lemma ExampleParts(s: string)
    requires s == "2026-02-01"
    ensures Split(DatePart(s), '-') == ["2026", "02", "01"]
  {
    DatePartOfStamp(s, "");
    ExampleSplit(s, "2026", "02", "01");
  }

  lemma ExampleSplit(s: string, y: string, m: string, d: string)
    requires s == "2026-02-01" && y == "2026" && m == "02" && d == "01"
    ensures Split(s, '-') == [y, m, d]
  {
    assert s == y + ['-'] + m + ['-'] + d;
    SplitThree(y, m, d, '-');
  }

  /**
   * The two pages read a date string into the same month and weekday; the day
   * label differs only in how it is written: here it is the padded number
   * that the agenda's raw segment denotes.
   */
  lemma SameAsAgenda(dateString: Option<string>)
    ensures var e := FormatDateDisplay(dateString);
            var a := AgendaPage.FormatDateDisplay(dateString);
            && e.month == a.month && e.weekDay == a.weekDay
            && (TruthyText(dateString) ==> e.day == Some(DayText(ParsePart(a.day))))
  {
  }

  /** For an ISO date the two pages agree on every field. */
  lemma SameAsAgendaOnIsoDate(year: nat, month: nat, day: nat)
    requires 1 <= month <= 12
    ensures FormatDateDisplay(Some(IsoDate(year, month, day))) ==
            AgendaPage.FormatDateDisplay(Some(IsoDate(year, month, day)))
  {
    AgendaPage.FormatIsoDate(year, month, day);
    IsoDateParts(year, month, day);
    DatePartOfStamp(IsoDate(year, month, day), "");
    PaddedNumber(day);
  }
}
