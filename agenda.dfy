/**
 * The `Agenda` page: the day label shows the raw day segment of the date
 * text, and today's date is built from the clock's year, month and day.
 */
module AgendaPage {
  import opened Wrappers
  import opened JsString
  import opened JsValue
  import opened Calendar
  import opened EventModel

  /** `formatDateDisplay(dateString)`; the `day` field is the third `-` segment as written. */
  function FormatDateDisplay(dateString: Option<string>): DateInfo {
    if !TruthyText(dateString) then EmptyInfo
    else
      var parts := Split(DatePart(dateString.value), '-');
      var year := ParsePart(Part(parts, 0));
      var month := ParsePart(Part(parts, 1));
      var day := Part(parts, 2);
      var monthName := MonthName(month);
      var weekDay := WeekdayName(year, month, ParsePart(day));
      DateInfo(day, monthName, weekDay, FullLabel(weekDay, day, monthName))
  }

  /** `processEvents()` on the day the clock reads as `year`-`month`-`day`. */
  function ProcessEvents(events: seq<Event>, year: int, month: int, day: int): seq<Event> {
    EventModel.ProcessEvents(events, IsoDate(year, month, day))
  }

  /** A missing or empty date string gives four empty fields. */
  lemma FormatEmpty()
    ensures FormatDateDisplay(None) == EmptyInfo
    ensures FormatDateDisplay(Some("")) == EmptyInfo
  {
  }

  /** Only the part before `T` matters. */
  lemma FormatIgnoresTime(a: string, b: string)
    requires a != "" && 'T' !in a
    ensures FormatDateDisplay(Some(a + "T" + b)) == FormatDateDisplay(Some(a))
  {
    DatePartOfStamp(a, b);
  }

  /**
   * An ISO date shows its own day text, the Portuguese month name and the
   * weekday of that date, combined as "<weekday>, <day> de <month>".
   */
  lemma FormatIsoDate(year: nat, month: nat, day: nat)
    requires 1 <= month <= 12
    ensures var dd := PadStart2(IntToString(day));
            var w := WeekdayNames[LocalNoonWeekday(year, month - 1, day)];
            FormatDateDisplay(Some(IsoDate(year, month, day))) ==
              DateInfo(Some(dd), Some(MonthNames[month - 1]), Some(w), w + ", " + dd + " de " + MonthNames[month - 1])
  {
    var s := IsoDate(year, month, day);
    IsoDateParts(year, month, day);
    DatePartOfStamp(s, "");
    ParseIntToString(year);
    PaddedNumber(month);
    PaddedNumber(day);
    FormatFromParts(s, IntToString(year), PadStart2(IntToString(month)), PadStart2(IntToString(day)),
                    year, month, day);
  }

  /** The display of a date text whose three `-` segments parse to `year`, `month` and `day`. */
  lemma FormatFromParts(s: string, y: string, m: string, d: string, year: int, month: int, day: int)
    requires s != "" && Split(DatePart(s), '-') == [y, m, d]
    requires ParseInt(y) == Some(year) && ParseInt(m) == Some(month) && ParseInt(d) == Some(day)
    requires 1 <= month <= 12
    ensures var w := WeekdayNames[LocalNoonWeekday(year, month - 1, day)];
            FormatDateDisplay(Some(s)) ==
              DateInfo(Some(d), Some(MonthNames[month - 1]), Some(w), FullLabel(Some(w), Some(d), Some(MonthNames[month - 1])))
  {
    SegmentsParse(Split(DatePart(s), '-'), y, m, d, year, month, day);
  }

  /** The date part of "2026-2-1" splits at `-` into its three segments. */
  lemma ExampleParts(s: string)
    requires s == "2026-2-1"
    ensures Split(DatePart(s), '-') == ["2026", "2", "1"]
  {
    DatePartOfStamp(s, "");
    ExampleSplit(s, "2026", "2", "1");
  }

  lemma ExampleSplit(s: string, y: string, m: string, d: string)
    requires s == "2026-2-1" && y == "2026" && m == "2" && d == "1"
    ensures Split(s, '-') == [y, m, d]
  {
    assert s == y + ['-'] + m + ['-'] + d;
    SplitThree(y, m, d, '-');
  }
}
