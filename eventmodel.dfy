/**
 * The event record and the rules the two agenda pages share: the English to
 * Portuguese weekday table, the date part of a timestamp, which events are
 * shown for a given day and in which order they are listed.
 */
module EventModel {
  import opened Wrappers
  import opened Seqs
  import opened JsString
  import opened JsValue
  import opened StableSort
  import opened Calendar

  /**
   * A row of the `events` table as the pages read it: `date` may be `null`
   * (a recurring event usually has none), `recurrenceDay` is an English weekday key.
   */
  datatype Event = Event(id: string, title: string, isRecurring: bool, date: Option<string>, recurrenceDay: string)

  const WeekdayKeys: seq<string> :=
    ["sunday", "monday", "tuesday", "wednesday", "thursday", "friday", "saturday"]

  /** Portuguese weekday names, Sunday first: both the translation table and `weekDays`. */
  const WeekdayNames: seq<string> :=
    ["Domingo", "Segunda", "Terça", "Quarta", "Quinta", "Sexta", "Sábado"]

  const DayTable: map<string, string> :=
    map["sunday" := "Domingo", "monday" := "Segunda", "tuesday" := "Terça",
        "wednesday" := "Quarta", "thursday" := "Quinta", "friday" := "Sexta",
        "saturday" := "Sábado"]

  /** `days[day] || day`: a weekday key becomes its Portuguese name, anything else stays as it is. */
  function TranslateDay(day: string): (r: string)
    ensures forall i :: 0 <= i < |WeekdayKeys| && day == WeekdayKeys[i] ==> r == WeekdayNames[i]
    ensures day !in WeekdayKeys ==> r == day
  {
    if day in DayTable && DayTable[day] != "" then DayTable[day] else day
  }

  /** `dateString.split('T')[0]`. */
  function DatePart(d: string): (r: string)
  {
    Split(d, 'T')[0]
  }

  /** The first piece of a split is everything before the first separator. */
  lemma {:induction false} SplitHead(s: string, sep: char)
    ensures var k := IndexOf(s, sep);
            Split(s, sep)[0] == if k < 0 then s else s[..k]
    decreases |s|
  {
    if s != [] && s[0] != sep {
      SplitHead(s[1..], sep);
      var j := IndexOf(s[1..], sep);
      if j >= 0 {
        assert s[..j + 1] == [s[0]] + s[1..][..j];
      } else {
        assert s == [s[0]] + s[1..];
      }
    }
  }

  /** The date part is the text before the first `T`, or all of it when there is none. */
  lemma DatePartIsPrefix(d: string)
    ensures var k := IndexOf(d, 'T');
            DatePart(d) == if k < 0 then d else d[..k]
  {
    SplitHead(d, 'T');
  }

  predicate IsRecurring(e: Event) {
    e.isRecurring
  }

  /** The date text of an event, `""` when it has none. */
  function DateOf(e: Event): string {
    e.date.GetOr("")
  }

  /** The one-off events kept for `today`: a date set, and its date part not before `today`. */
  function KeepOneOff(today: string): Event -> bool {
    (e: Event) => !e.isRecurring && TruthyText(e.date) && !LexLess(DatePart(e.date.value), today)
  }

  /** Every event the page lists for `today`. */
  function Kept(today: string): Event -> bool {
    (e: Event) => IsRecurring(e) || KeepOneOff(today)(e)
  }

  /**
   * The sort comparator: recurring events before one-off events, one-off
   * events by their date text, recurring events all tied.
   */
  function DisplayCompare(a: Event, b: Event): int {
    if a.isRecurring && !b.isRecurring then -1
    else if !a.isRecurring && b.isRecurring then 1
    else if !a.isRecurring && !b.isRecurring then LexCompare(DateOf(a), DateOf(b))
    else 0
  }

  /** The comparator orders events consistently, so the stable sort is well defined. */
  lemma DisplayCompareConsistent()
    ensures Consistent(DisplayCompare)
  {
    forall a: Event, b: Event
      ensures DisplayCompare(a, b) < 0 <==> DisplayCompare(b, a) > 0
    {
      LexTrichotomy(DateOf(a), DateOf(b));
    }
    forall a: Event, b: Event, c: Event | DisplayCompare(a, b) <= 0 && DisplayCompare(b, c) <= 0
      ensures DisplayCompare(a, c) <= 0
    {
      if !a.isRecurring && !b.isRecurring && !c.isRecurring {
        var x, y, z := DateOf(a), DateOf(b), DateOf(c);
        LexTrichotomy(x, y);
        LexTrichotomy(y, z);
        LexTrichotomy(x, z);
        if LexLess(x, y) && LexLess(y, z) {
          LexTransitive(x, y, z);
        }
      }
    }
  }

  /** `processEvents`: recurring and kept one-off events, put in display order by a stable sort. */
  function ProcessEvents(events: seq<Event>, today: string): seq<Event> {
    Sort(Filter(events, IsRecurring) + Filter(events, KeepOneOff(today)), DisplayCompare)
  }

  /** An event is listed iff it is an input event that is recurring or a one-off dated on or after `today`. */
  lemma ProcessEventsMembers(events: seq<Event>, today: string)
    ensures forall e :: e in ProcessEvents(events, today) <==>
      e in events && (e.isRecurring || (TruthyText(e.date) && !LexLess(DatePart(e.date.value), today)))
  {
    var r := ProcessEvents(events, today);
    var k := Filter(events, IsRecurring) + Filter(events, KeepOneOff(today));
    forall e ensures e in r <==> e in k {
      assert e in r <==> e in multiset(r);
    }
  }

  /** The listed events are the kept events, each exactly as often as in the input. */
  lemma ProcessEventsPermutation(events: seq<Event>, today: string)
    ensures multiset(ProcessEvents(events, today)) == multiset(Filter(events, Kept(today)))
  {
    var p, q, pq := IsRecurring, KeepOneOff(today), Kept(today);
    FilterMultiset(events, p);
    FilterMultiset(events, q);
    FilterMultiset(events, pq);
    var a, b, c := multiset(Filter(events, p)), multiset(Filter(events, q)), multiset(Filter(events, pq));
    forall x ensures (a + b)[x] == c[x] {
      assert !(p(x) && q(x));
    }
    assert a + b == c;
  }

  /** The list is every recurring event in input order, then the kept one-off events sorted. */
  lemma ProcessEventsShape(events: seq<Event>, today: string)
    ensures ProcessEvents(events, today) ==
      Filter(events, IsRecurring) + Sort(Filter(events, KeepOneOff(today)), DisplayCompare)
  {
    var rec, one := Filter(events, IsRecurring), Filter(events, KeepOneOff(today));
    forall i | 0 <= i < |rec| ensures rec[i].isRecurring {
      assert rec[i] in rec;
    }
    SortFront(rec, one, DisplayCompare);
  }

  /**
   * Display order: no recurring event follows a one-off event, and one-off
   * events come by ascending date.
   */
  lemma ProcessEventsOrder(events: seq<Event>, today: string)
    ensures var r := ProcessEvents(events, today);
      forall i, j :: 0 <= i < j < |r| ==>
        && (r[j].isRecurring ==> r[i].isRecurring)
        && (!r[i].isRecurring && !r[j].isRecurring ==> !LexLess(DateOf(r[j]), DateOf(r[i])))
  {
    DisplayCompareConsistent();
    var k := Filter(events, IsRecurring) + Filter(events, KeepOneOff(today));
    SortSorted(k, DisplayCompare);
  }

  /** Recurring events keep their input order, as the comparator ties them and the sort is stable. */
  lemma ProcessEventsRecurringOrder(events: seq<Event>, today: string)
    ensures Filter(ProcessEvents(events, today), IsRecurring) == Filter(events, IsRecurring)
  {
    var rec := Filter(events, IsRecurring);
    var so := Sort(Filter(events, KeepOneOff(today)), DisplayCompare);
    ProcessEventsShape(events, today);
    FilterConcat(rec, so, IsRecurring);
    FilterFilter(events, IsRecurring, IsRecurring, IsRecurring);
    SortedOneOffsNotRecurring(events, today);
  }

  lemma SortedOneOffsNotRecurring(events: seq<Event>, today: string)
    ensures Filter(Sort(Filter(events, KeepOneOff(today)), DisplayCompare), IsRecurring) == []
  {
    var one := Filter(events, KeepOneOff(today));
    var so := Sort(one, DisplayCompare);
    forall i | 0 <= i < |so| ensures !IsRecurring(so[i]) {
      assert so[i] in multiset(one);
      assert so[i] in one;
    }
    FilterNone(so, IsRecurring);
  }

  function TiedWith(k: Event): Event -> bool {
    (e: Event) => DisplayCompare(e, k) == 0
  }

  function KeptTiedWith(today: string, k: Event): Event -> bool {
    (e: Event) => Kept(today)(e) && TiedWith(k)(e)
  }

  /**
   * Stability: the listed events the comparator ranks equal to any `k` (all
   * recurring events, or the one-off events with one date) appear in the
   * order they have in the input.
   */
  lemma ProcessEventsStable(events: seq<Event>, today: string, k: Event)
    ensures Tied(ProcessEvents(events, today), k, DisplayCompare) == Filter(events, KeptTiedWith(today, k))
  {
    DisplayCompareConsistent();
    var rec, one := Filter(events, IsRecurring), Filter(events, KeepOneOff(today));
    SortStable(rec + one, k, DisplayCompare);
    TiedIsFilter(rec + one, k, DisplayCompare, TiedWith(k));
    FilterConcat(rec, one, TiedWith(k));
    FilterOneSided(events, IsRecurring, KeepOneOff(today), TiedWith(k), KeptTiedWith(today, k));
  }

  // ----- pieces of `formatDateDisplay` common to both pages -----

  const MonthNames: seq<string> :=
    ["Janeiro", "Fevereiro", "Março", "Abril", "Maio", "Junho",
     "Julho", "Agosto", "Setembro", "Outubro", "Novembro", "Dezembro"]

  /**
   * What `formatDateDisplay` returns; `None` is a field left `undefined`
   * (a missing `-` segment, a month out of range, a weekday of an invalid date).
   */
  datatype DateInfo = DateInfo(day: Option<string>, month: Option<string>, weekDay: Option<string>, full: string)

  /** The result for an empty or missing date string. */
  const EmptyInfo: DateInfo := DateInfo(Some(""), Some(""), Some(""), "")

  /** `parts[i]`: `undefined` past the end. */
  function Part(parts: seq<string>, i: nat): Option<string> {
    if i < |parts| then Some(parts[i]) else None
  }

  /** `parseInt(x)` where `x` may be `undefined` (giving `NaN`, here `None`). */
  function ParsePart(x: Option<string>): Option<int> {
    if x.None? then None else ParseInt(x.value)
  }

  /** The three segments of a date text and the numbers they parse to. */
  lemma SegmentsParse(parts: seq<string>, y: string, m: string, d: string, year: int, month: int, day: int)
    requires parts == [y, m, d]
    requires ParseInt(y) == Some(year) && ParseInt(m) == Some(month) && ParseInt(d) == Some(day)
    ensures Part(parts, 2) == Some(d)
    ensures ParsePart(Part(parts, 0)) == Some(year) && ParsePart(Part(parts, 1)) == Some(month)
    ensures ParsePart(Part(parts, 2)) == Some(day)
  {
  }

  /** `months[month - 1]`. */
  function MonthName(month: Option<int>): (r: Option<string>)
    ensures r.Some? <==> month.Some? && 1 <= month.value <= 12
  {
    if month.Some? && 1 <= month.value <= 12 then Some(MonthNames[month.value - 1]) else None
  }

  /** `weekDays[new Date(year, month - 1, day, 12, 0, 0).getDay()]`: `undefined` if any argument is `NaN`. */
  function WeekdayName(year: Option<int>, month: Option<int>, day: Option<int>): (r: Option<string>)
    ensures r.Some? <==> year.Some? && month.Some? && day.Some?
  {
    if year.Some? && month.Some? && day.Some? then
      Some(WeekdayNames[LocalNoonWeekday(year.value, month.value - 1, day.value)])
    else None
  }

  /** A value interpolated into a template literal: `undefined` prints as "undefined". */
  function Show(x: Option<string>): string {
    if x.None? then "undefined" else x.value
  }

  /** `${weekDayName}, ${day} de ${monthName}`. */
  function FullLabel(weekDay: Option<string>, day: Option<string>, month: Option<string>): string {
    Show(weekDay) + ", " + Show(day) + " de " + Show(month)
  }

  /** The `YYYY-MM-DD` text of a date: the year as printed, month and day padded to two digits. */
  function IsoDate(year: int, month: int, day: int): string {
    IntToString(year) + "-" + PadStart2(IntToString(month)) + "-" + PadStart2(IntToString(day))
  }

  /** Text after the date part is ignored: the date part of `a` followed by `T...` is `a`. */
  lemma DatePartOfStamp(a: string, b: string)
    requires 'T' !in a
    ensures DatePart(a + "T" + b) == a
    ensures DatePart(a) == a
  {
    SplitAtSep(a, b, 'T');
    SplitNoSep(a, 'T');
  }

  /** A natural number printed and padded is digits only, and parses back to itself. */
  lemma PaddedNumber(n: nat)
    ensures AllDigits(PadStart2(IntToString(n)))
    ensures ParseInt(PadStart2(IntToString(n))) == Some(n)
    ensures DigitsValue(PadStart2(IntToString(n))) == n
    ensures n < 100 ==> |PadStart2(IntToString(n))| == 2
  {
    NatToStringLength(n);
    var s := NatToString(n);
    NatToStringValue(n);
    if |s| == 1 {
      DigitsValueLeadingZero(s);
      LeadingDigitsOfDigits("0" + s);
    } else {
      LeadingDigitsOfDigits(s);
    }
  }

  /** Three pieces free of `sep`, joined by `sep`, split back into the three pieces. */
  lemma SplitThree(y: string, m: string, d: string, sep: char)
    requires sep !in y && sep !in m && sep !in d
    ensures Split(y + [sep] + m + [sep] + d, sep) == [y, m, d]
  {
    assert y + [sep] + m + [sep] + d == y + [sep] + (m + [sep] + d);
    SplitAtSep(y, m + [sep] + d, sep);
    SplitAtSep(m, d, sep);
    SplitNoSep(d, sep);
  }

  /** The pieces of an ISO date, split at `-`. */
  lemma IsoDateParts(year: nat, month: nat, day: nat)
    ensures 'T' !in IsoDate(year, month, day)
    ensures Split(IsoDate(year, month, day), '-') ==
      [IntToString(year), PadStart2(IntToString(month)), PadStart2(IntToString(day))]
  {
    var y, m, d := IntToString(year), PadStart2(IntToString(month)), PadStart2(IntToString(day));
    PaddedNumber(month);
    PaddedNumber(day);
    assert AllDigits(y);
    assert IsoDate(year, month, day) == y + ['-'] + m + ['-'] + d;
    SplitThree(y, m, d, '-');
  }

  /** For a four-digit year the text is ten characters: `YYYY-MM-DD`, digits except at 4 and 7. */
  lemma IsoDateLayout(year: nat, month: nat, day: nat)
    requires 1000 <= year < 10000 && month < 100 && day < 100
    ensures var t := IsoDate(year, month, day);
            && |t| == 10 && t[4] == '-' && t[7] == '-'
            && forall i :: 0 <= i < 10 && i != 4 && i != 7 ==> IsDigit(t[i])
  {
    NatToStringLength(year);
    PaddedNumber(month);
    PaddedNumber(day);
    var y, m, d := IntToString(year), PadStart2(IntToString(month)), PadStart2(IntToString(day));
    assert AllDigits(y);
    var t := IsoDate(year, month, day);
    assert t == y + "-" + m + "-" + d;
    forall i | 0 <= i < 10 && i != 4 && i != 7 ensures IsDigit(t[i]) {
      if i < 4 {
        assert t[i] == y[i];
      } else if i < 7 {
        assert t[i] == m[i - 5];
      } else {
        assert t[i] == d[i - 8];
      }
    }
  }

  /**
   * For four-digit years, comparing `YYYY-MM-DD` texts as strings is comparing
   * the dates chronologically; this is what makes the `>= today` text test a
   * date test.
   */
  lemma IsoDateOrder(a: Date, b: Date)
    requires 1000 <= a.year < 10000 && 0 <= a.month < 100 && 0 <= a.day < 100
    requires 1000 <= b.year < 10000 && 0 <= b.month < 100 && 0 <= b.day < 100
    ensures LexLess(IsoDate(a.year, a.month, a.day), IsoDate(b.year, b.month, b.day)) <==> Before(a, b)
    ensures IsoDate(a.year, a.month, a.day) == IsoDate(b.year, b.month, b.day) <==> a == b
  {
    var ya, ma, da := IntToString(a.year), PadStart2(IntToString(a.month)), PadStart2(IntToString(a.day));
    var yb, mb, db := IntToString(b.year), PadStart2(IntToString(b.month)), PadStart2(IntToString(b.day));
    NumberPieces(a.year, b.year);
    PaddedPieces(a.month, b.month);
    PaddedPieces(a.day, b.day);
    DashedLex(ya, ma, da, yb, mb, db);
  }

  /** Two four-digit years print as texts of one length, ordered as the years are. */
  lemma NumberPieces(x: nat, y: nat)
    requires 1000 <= x < 10000 && 1000 <= y < 10000
    ensures |IntToString(x)| == |IntToString(y)|
    ensures LexLess(IntToString(x), IntToString(y)) <==> x < y
    ensures IntToString(x) == IntToString(y) <==> x == y
  {
    NatToStringLength(x);
    NatToStringLength(y);
    NatToStringValue(x);
    NatToStringValue(y);
    DigitsLexOrder(IntToString(x), IntToString(y));
  }

  /** Two numbers below 100, padded, are texts of one length ordered as the numbers are. */
  lemma PaddedPieces(x: nat, y: nat)
    requires x < 100 && y < 100
    ensures |PadStart2(IntToString(x))| == |PadStart2(IntToString(y))|
    ensures LexLess(PadStart2(IntToString(x)), PadStart2(IntToString(y))) <==> x < y
    ensures PadStart2(IntToString(x)) == PadStart2(IntToString(y)) <==> x == y
  {
    PaddedNumber(x);
    PaddedNumber(y);
    DigitsLexOrder(PadStart2(IntToString(x)), PadStart2(IntToString(y)));
  }

  /** Texts `y-m-d` whose year and month pieces have matching lengths compare piece by piece. */
  lemma DashedLex(ya: string, ma: string, da: string, yb: string, mb: string, db: string)
    requires |ya| == |yb| && |ma| == |mb|
    ensures LexLess(ya + "-" + ma + "-" + da, yb + "-" + mb + "-" + db) <==>
      LexLess(ya, yb) || (ya == yb && (LexLess(ma, mb) || (ma == mb && LexLess(da, db))))
    ensures ya + "-" + ma + "-" + da == yb + "-" + mb + "-" + db <==> ya == yb && ma == mb && da == db
  {
    LexIrreflexive("-");
    assert ya + "-" + ma + "-" + da == (ya + "-") + ((ma + "-") + da);
    assert yb + "-" + mb + "-" + db == (yb + "-") + ((mb + "-") + db);
    LexConcat(ya + "-", (ma + "-") + da, yb + "-", (mb + "-") + db);
    LexConcat(ya, "-", yb, "-");
    LexConcat(ma + "-", da, mb + "-", db);
    LexConcat(ma, "-", mb, "-");
    SameLengthConcat(ya, "-", yb, "-");
    SameLengthConcat(ma, "-", mb, "-");
    SameLengthConcat(ya + "-", (ma + "-") + da, yb + "-", (mb + "-") + db);
    SameLengthConcat(ma + "-", da, mb + "-", db);
  }

  lemma SameLengthConcat(a1: string, a2: string, b1: string, b2: string)
    requires |a1| == |b1|
    ensures a1 + a2 == b1 + b2 <==> a1 == b1 && a2 == b2
  {
    if a1 + a2 == b1 + b2 {
      assert a1 == (a1 + a2)[..|a1|];
      assert a2 == (a1 + a2)[|a1|..];
      assert b1 == (b1 + b2)[..|b1|];
      assert b2 == (b1 + b2)[|b1|..];
    }
  }

  /**
   * A one-off event dated `YYYY-MM-DD` (possibly with a time after `T`) is kept
   * exactly when its date is not before today's.
   */
  lemma KeepOneOffByDate(e: Event, d: Date, rest: string, today: Date)
    requires 1000 <= d.year < 10000 && 1 <= d.month <= 12 && 1 <= d.day <= 31
    requires 1000 <= today.year < 10000 && 1 <= today.month <= 12 && 1 <= today.day <= 31
    requires !e.isRecurring && e.date == Some(IsoDate(d.year, d.month, d.day) + rest)
    requires rest == "" || rest[0] == 'T'
    ensures KeepOneOff(IsoDate(today.year, today.month, today.day))(e) <==> !Before(d, today)
  {
    var iso := IsoDate(d.year, d.month, d.day);
    var t := IsoDate(today.year, today.month, today.day);
    DatePartOfIso(d, rest);
    assert TruthyText(e.date);
    assert KeepOneOff(t)(e) <==> !LexLess(iso, t);
    IsoDateOrder(d, today);
  }

  /** The date part of an ISO date, with or without a time, is the ISO date. */
  lemma DatePartOfIso(d: Date, rest: string)
    requires d.year >= 0 && d.month >= 0 && d.day >= 0
    requires rest == "" || rest[0] == 'T'
    ensures DatePart(IsoDate(d.year, d.month, d.day) + rest) == IsoDate(d.year, d.month, d.day)
    ensures IsoDate(d.year, d.month, d.day) != ""
  {
    var iso := IsoDate(d.year, d.month, d.day);
    IsoDateParts(d.year, d.month, d.day);
    if rest == "" {
      DatePartOfStamp(iso, "");
      assert iso + rest == iso;
    } else {
      DatePartOfStamp(iso, rest[1..]);
      assert iso + rest == iso + "T" + rest[1..];
    }
  }

  /** The labels of 1 February 2026. */
  lemma ExampleLabels()
    ensures MonthName(Some(2)) == Some("Fevereiro")
    ensures WeekdayName(Some(2026), Some(2), Some(1)) == Some("Domingo")
  {
    KnownNoonWeekday();
  }

  /** The numbers in the segments of "2026-02-01" and "2026-2-1". */
  lemma ExampleNumbers(y: string, m2: string, d2: string, m1: string, d1: string)
    requires y == "2026" && m2 == "02" && d2 == "01" && m1 == "2" && d1 == "1"
    ensures ParsePart(Some(y)) == Some(2026)
    ensures ParsePart(Some(m2)) == Some(2) && ParsePart(Some(m1)) == Some(2)
    ensures ParsePart(Some(d2)) == Some(1) && ParsePart(Some(d1)) == Some(1)
  {
    ParseFourDigits(y);
    ParseTwoDigits(m2);
    ParseTwoDigits(d2);
    ParseOneDigit(m1);
    ParseOneDigit(d1);
  }
}
