# Church web app rules, modelled in Dafny

This project models the rules inside a church web app's React views. The app keeps its data in a hosted database. The rules are small and self-contained, and the model follows them: how the event agenda chooses, orders and labels events; how the news, leadership, video, content, department and congregation pages filter, split and link their lists; how the data client turns an order text and filters into a query; and how the admin forms build, change, upload into and save their records.

Each source file has its own module:

- `AgendaPage` and `EventsPage` model `Agenda.jsx` and `Events.jsx`.
  - The two pages hold near-identical copies of `processEvents`. Both copies are modelled by one definition, `EventModel.ProcessEvents`. Each page module passes today's date to it in that page's form: as year, month and day on the agenda, as `YYYY-MM-DD` text on the events page. So, given one today text, the two pages list the same events by construction.
  - The two `formatDateDisplay` copies differ in how they write the day. Each page has its own definition, and `EventsPage.SameAsAgenda` relates them.
- `EventModel` holds the rules the two pages share: the event record, `translateDay`, the filter and comparator of `processEvents`, and the month and weekday tables.
- `NewsPage`, `LeadershipPage`, `LivePage`, `ContentPage`, `Departments` and `CongregationsPage` model `Noticias.jsx`, `Lideranca.jsx`, `AoVivo.jsx`, `Conteudo.jsx`, `Departamentos.jsx` and `Congregacoes.jsx`.
- `AdminDashboard`, `EntityForm` and `AdminConsole` model `AdminDashboard.jsx`, `EntityForm.jsx` and `Admin.jsx`.
- `Base44Client` models `base44Client.js`, and `PageUrls` models `createPageUrl` in `utils.js`.

Three modules hold shared definitions:

- `Seqs` defines `filter` and `slice(0, n)`.
- `StableSort` defines `Array.prototype.sort` as a stable insertion sort. The ECMAScript specification has required a stable sort since ES2019. Under a consistent comparator a stable sort's result is unique, so this definition gives what any stable sort gives.
- `JsString` defines the string built-ins the rules use: `toLowerCase`, `includes`, `split`, `startsWith`, one-character `replace`, `indexOf`, `parseInt`, `String(n)`, `padStart(2, '0')` and string comparison.

Three more modules cover JavaScript values and dates:

- `Wrappers` defines `Option`.
- `JsValue` defines dynamic values and JavaScript truthiness.
- `Calendar` replaces the JavaScript `Date` weekday with Gregorian arithmetic. It uses Sakamoto's formula, with the `Date` constructor's normalisation of two-digit years and out-of-range months written out.

The model takes the clock as a parameter and never reads it. The agenda and events pages take today as a parameter, and the dashboard takes `now` as one. An event's parsed instant is a function the caller supplies.

Where a source file mutates state, the model does too:

- Four classes hold that state: `LivePage.VideoPlayer` (`selectedVideo`), `CongregationsPage.CongregationsView` (`viewMode`), `EntityForm.Form` (`formData` and `uploading`) and `AdminConsole.Console` (the five forms and the upload flag).
- Three loops become methods with loop invariants: the `for … of` scans in `Departments.ScanEntries`, the constraint-building `forEach` in `Base44Client.BuildQuery`, and the defaults `forEach` in `EntityForm.BuildDefaults`.
- The async handlers `handleUpload` in `EntityForm.jsx` and `Admin.jsx` are split at their `await` into a start method and a finish method. The outcome of the storage call is a parameter of the finish method.

## Model

| member | source | states |
|---|---|---|
| PageUrls.CreatePageUrl | src/lib/utils.js:8-22 | a page named in the route table gets its path; any other name gets `/` |
| PageUrls.RoutesNonEmpty | src/lib/utils.js:9-20 | every path in the route table is non-empty and starts with `/`, so the `\|\| '/'` fallback never replaces a known page |
| PageUrls.PathsAreAbsolute | src/lib/utils.js:8-22 | every page URL, known page or not, is an absolute path |
| PageUrls.RoutesInjective | src/lib/utils.js:9-20 | two different known pages never share a URL |
| PageUrls.RoutesDistinct | src/lib/utils.js:9-20 | the route table maps distinct names to distinct paths |
| PageUrls.RootOnlyForHome | src/lib/utils.js:8-22 | a URL is `/` exactly when the name is `Home` or is not in the table (both directions) |
| PageUrls.NewsDetailLink | src/pages/Noticias.jsx:55 | the news detail link is `/noticia-detalhe?id=` followed by the item id |
| PageUrls.NewsDetailLinkRoundTrip | src/pages/Noticias.jsx:55 | the id reads back out of its detail link, and two links are equal exactly when their ids are |
| JsString.Lower | src/pages/Departamentos.jsx:44 | lowercasing keeps the length and maps each character on its own |
| JsString.LowerConcat | src/pages/Departamentos.jsx:44 | lowercasing distributes over concatenation |
| JsString.EmptyIncludesOnlyEmpty | src/pages/Noticias.jsx:43-44 | the empty text contains only the empty text |
| JsString.Split | src/pages/Agenda.jsx:34 | `split` gives at least one piece, and no piece contains the separator |
| JsString.SplitJoin | src/pages/Agenda.jsx:34 | joining the pieces of a split with the separator gives back the original text |
| JsString.SplitNoSep | src/pages/Agenda.jsx:34 | a text without the separator splits into itself alone |
| JsString.SplitAtSep | src/pages/Agenda.jsx:34 | a separator-free head followed by the separator splits off as the first piece |
| JsString.IndexOf | src/api/base44Client.js:8 | `indexOf` finds the first occurrence, or -1 exactly when the character is absent |
| JsString.RemoveFirstSpec | src/api/base44Client.js:8 | `replace` with a one-character pattern removes exactly the occurrence `indexOf` finds, and changes nothing when there is none |
| JsString.NatToString | src/pages/Agenda.jsx:60-61 | `String(n)` of a natural number is a non-empty digit string |
| JsString.NatToStringValue | src/pages/Agenda.jsx:60-61 | the digits `String(n)` prints denote `n` |
| JsString.LeadingDigits | src/pages/Agenda.jsx:35-36 | the digit prefix `parseInt` reads is all digits, a prefix, and maximal |
| JsString.ParseIntToString | src/pages/Events.jsx:44-46 | `parseInt(String(n))` is `n` for every integer |
| JsString.ParseDigits | src/pages/Events.jsx:44-46 | a non-empty digit string parses to the number it denotes |
| JsString.DigitsValueLeadingZero | src/pages/Events.jsx:62 | a leading zero from `padStart` does not change the number |
| JsString.PadStart2 | src/pages/Agenda.jsx:60-61 | `padStart(2, '0')` keeps the text as the suffix and fills with `'0'` up to length two |
| JsString.LexCompare | src/pages/Agenda.jsx:76 | the three-way comparison is negative exactly for `a < b` and zero exactly for equal texts |
| JsString.LexTrichotomy | src/pages/Agenda.jsx:69 | string order is total and asymmetric |
| JsString.LexTransitive | src/pages/Agenda.jsx:69 | string order is transitive |
| JsString.LexConcat | src/pages/Agenda.jsx:62 | texts whose first parts have equal length compare by first parts, then by the rests |
| JsString.DigitsLexOrder | src/pages/Agenda.jsx:62 | for digit strings of one length, text order is numeric order and text equality is numeric equality |
| JsString.NatToStringLength | src/pages/Agenda.jsx:59-61 | numbers below 10, from 10 to 99 and from 1000 to 9999 print with 1, 2 and 4 digits |
| Seqs.Filter | src/pages/Agenda.jsx:64-70 | `filter` keeps exactly the elements that satisfy the predicate, and never grows the list |
| Seqs.FilterIsSubseq | src/pages/Noticias.jsx:42-47 | `filter` keeps the elements in their original order |
| Seqs.Take | src/components/admin/AdminDashboard.jsx:26 | `slice(0, n)` keeps the first `min(n, length)` elements unchanged |
| Seqs.FilterConcat | src/pages/Agenda.jsx:72 | filtering a concatenation filters each part |
| Seqs.FilterPartition | src/pages/AoVivo.jsx:30-31 | filtering by a predicate and by its negation splits the list into parts that together hold every element exactly once |
| Seqs.FilterMultiset | src/pages/Agenda.jsx:64-70 | `filter` keeps each element as often as it occurs when it passes, and drops it otherwise |
| Seqs.FilterFilter | src/pages/Agenda.jsx:64-70 | two filters in a row equal one filter by the conjunction |
| Seqs.FilterDisjoint | src/pages/AoVivo.jsx:30-31 | filters by predicates that never hold together share no element |
| StableSort.Insert | src/pages/Agenda.jsx:72-79 | inserting adds exactly one element |
| StableSort.Sort | src/pages/Agenda.jsx:72-79 | sorting is a permutation of the input |
| StableSort.InsertSorted | src/pages/Agenda.jsx:72-79 | inserting into a sorted list under a consistent comparator keeps it sorted |
| StableSort.SortSorted | src/pages/Agenda.jsx:72-79 | the sort's result is ordered by a consistent comparator |
| StableSort.InsertTied | src/pages/Agenda.jsx:72-79 | inserting puts the element in front of every element tied with it |
| StableSort.SortStable | src/pages/Agenda.jsx:72-79 | the sort is stable: elements the comparator ties keep their input order |
| StableSort.SortOfSorted | src/pages/Agenda.jsx:72-79 | sorting a list that is already sorted changes nothing |
| StableSort.KeyComparatorConsistent | src/components/admin/AdminDashboard.jsx:27-30 | a comparator `key(a) - key(b)` is consistent |
| StableSort.SortFront | src/pages/Agenda.jsx:72-79 | elements that sort before everything else, already in front, stay in front in their order |
| Calendar.DaysInMonth | src/pages/Agenda.jsx:45 | each month has 28 to 31 days |
| Calendar.NextDay | src/pages/Agenda.jsx:45 | the day after a valid date is a valid date |
| Calendar.DayOfWeek | src/pages/Agenda.jsx:45-47 | the weekday is an index 0 (Sunday) to 6 (Saturday) |
| Calendar.YearTermStep | src/pages/Agenda.jsx:45-47 | a year shifts weekdays by one day, two for a leap year |
| Calendar.DayOfWeekAdvances | src/pages/Agenda.jsx:45-47 | each calendar day falls on the weekday after that of the previous day, across month and year ends |
| Calendar.KnownWeekdays | src/pages/Events.jsx:30-37 | 1 February 2026 is a Sunday and 1 January 2025 a Wednesday |
| Calendar.KnownNoonWeekday | src/pages/Events.jsx:55-59 | `new Date(2026, 1, 1, 12, 0, 0).getDay()` is 0, a Sunday |
| Calendar.DateArgs | src/pages/Agenda.jsx:45 | the `Date` constructor's normalised month is in 1..12 |
| Calendar.LocalNoonWeekday | src/pages/Agenda.jsx:45-47 | `getDay()` of the noon date is 0..6 |
| Calendar.LocalNoonWeekdayOfValidDate | src/pages/Agenda.jsx:45-47 | for a valid date with a year past 99, the `Date` weekday is the calendar weekday |
| Calendar.DayNumberAdvances | src/pages/Agenda.jsx:45-47 | the day number counts days: consecutive calendar days, across month and year ends, have consecutive numbers |
| Calendar.DayOfWeekOfDayNumber | src/pages/Agenda.jsx:45-47 | the calendar weekday is the weekday counted in days from 1 January 1970, a Thursday |
| Calendar.GetDay | src/pages/Events.jsx:59 | `getDay()` of an instant is its local day's weekday, 0..6 |
| Calendar.NoonSurvivesZoneShift | src/pages/Events.jsx:30-37 | the local-noon instant of a day, read back in any zone less than twelve hours away, still falls on that day |
| Calendar.MidnightShiftsDay | src/pages/Events.jsx:30-37 | the UTC-midnight instant of a day, read three hours behind UTC, falls on the previous day |
| Calendar.NoonGetDay | src/pages/Events.jsx:55-59 | `getDay()` of `new Date(y, m - 1, d, 12, 0, 0)`, built in one zone and read in any zone less than twelve hours away, is the `LocalNoonWeekday` the pages use |
| Calendar.UtcMidnightGetDay | src/pages/Events.jsx:30-37 | a date parsed as UTC midnight and read three hours behind UTC would show the weekday before the calendar's, which the noon construction avoids |
| EventModel.TranslateDay | src/pages/Agenda.jsx:23-29 | each English weekday key becomes its Portuguese name, and any other text is returned unchanged |
| EventModel.DatePartIsPrefix | src/pages/Agenda.jsx:68 | the date part of a timestamp is the text before its first `T`, or the whole text when there is none |
| EventModel.DisplayCompareConsistent | src/pages/Agenda.jsx:72-79 | the listing comparator is antisymmetric and transitive, so the sorted list is determined |
| EventModel.ProcessEventsMembers | src/pages/Agenda.jsx:57-80 | an event is listed exactly when it is an input event that is recurring, or a one-off with a date whose date part is not before today |
| EventModel.ProcessEventsPermutation | src/pages/Agenda.jsx:64-72 | the list holds each kept event exactly as often as the input does |
| EventModel.ProcessEventsShape | src/pages/Agenda.jsx:72-79 | the list is every recurring event in input order, followed by the kept one-off events sorted |
| EventModel.ProcessEventsOrder | src/pages/Agenda.jsx:72-79 | no recurring event follows a one-off event, and one-off events come in ascending date order |
| EventModel.ProcessEventsRecurringOrder | src/pages/Agenda.jsx:72-79 | recurring events keep their input order |
| EventModel.SortedOneOffsNotRecurring | src/pages/Agenda.jsx:66-70 | the sorted one-off part holds no recurring event |
| EventModel.ProcessEventsStable | src/pages/Agenda.jsx:72-79 | events the comparator ties (the recurring ones, or one-offs with one date) are listed in their input order |
| EventModel.SegmentsParse | src/pages/Agenda.jsx:34-37 | three `-` segments that parse to numbers give those numbers for year, month and day |
| EventModel.MonthName | src/pages/Agenda.jsx:39-43 | a month name exists exactly for months 1 to 12 |
| EventModel.WeekdayName | src/pages/Agenda.jsx:45-47 | a weekday name exists exactly when year, month and day all parsed |
| EventModel.DatePartOfStamp | src/pages/Agenda.jsx:34 | anything after the first `T` is ignored |
| EventModel.PaddedNumber | src/pages/Agenda.jsx:60-61 | a printed and padded number is all digits, reads back as the number, and is two characters below 100 |
| EventModel.SplitThree | src/pages/Agenda.jsx:34 | three separator-free pieces joined by `-` split back into those three pieces |
| EventModel.IsoDateParts | src/pages/Agenda.jsx:59-62 | today's `YYYY-MM-DD` text has no `T` and splits at `-` into year, padded month and padded day |
| EventModel.IsoDateLayout | src/pages/Agenda.jsx:59-62 | for a four-digit year today's text is ten characters, with dashes at 4 and 7 and digits elsewhere |
| EventModel.IsoDateOrder | src/pages/Agenda.jsx:69 | for four-digit years, comparing `YYYY-MM-DD` texts is comparing the dates chronologically, and equal texts are equal dates |
| EventModel.NumberPieces | src/pages/Agenda.jsx:59 | four-digit years print as texts of length 4, ordered as the years are |
| EventModel.PaddedPieces | src/pages/Agenda.jsx:60-61 | padded numbers below 100 are texts of length 2, ordered as the numbers are |
| EventModel.DashedLex | src/pages/Agenda.jsx:62 | `y-m-d` texts with matching year and month lengths compare piece by piece |
| EventModel.SameLengthConcat | src/pages/Agenda.jsx:62 | concatenations whose first parts have equal lengths are equal exactly when both parts are |
| EventModel.KeepOneOffByDate | src/pages/Agenda.jsx:66-70 | a one-off event dated `YYYY-MM-DD`, with or without a time, is kept exactly when its date is not before today |
| EventModel.DatePartOfIso | src/pages/Agenda.jsx:68 | the date part of an ISO date, with or without a time, is the ISO date itself |
| EventModel.ExampleLabels | src/pages/Events.jsx:41-66 | the month of 2 is "Fevereiro", and 1 February 2026 is "Domingo" |
| EventModel.ExampleNumbers | src/pages/Events.jsx:42-46 | "2026", "02", "2", "01" and "1" parse to 2026, 2, 2, 1 and 1 |
| AgendaPage.FormatEmpty | src/pages/Agenda.jsx:32 | a missing or empty date text gives four empty fields |
| AgendaPage.FormatIgnoresTime | src/pages/Agenda.jsx:34 | the time after `T` does not change the display |
| AgendaPage.FormatIsoDate | src/pages/Agenda.jsx:31-55 | an ISO date displays its own day text, the Portuguese month and the weekday of that date, as "weekday, day de month" |
| AgendaPage.FormatFromParts | src/pages/Agenda.jsx:31-55 | a date text whose segments parse to y, m, d shows the raw day segment, month m's name and the weekday of y-m-d |
| AgendaPage.ExampleParts | src/pages/Agenda.jsx:34 | the date part of "2026-2-1" splits into "2026", "2" and "1" |
| AgendaPage.ExampleSplit | src/pages/Agenda.jsx:34 | "2026-2-1" splits at `-` into its three segments |
| EventsPage.DayTextParsesBack | src/pages/Events.jsx:62 | the day label of a day number is at least two digits that read back as the number |
| EventsPage.FormatEmpty | src/pages/Events.jsx:39 | a missing or empty date text gives four empty fields |
| EventsPage.FormatIgnoresTime | src/pages/Events.jsx:43 | the time after `T` does not change the display |
| EventsPage.DayOne | src/pages/Events.jsx:62 | day 1 is shown as "01" |
| EventsPage.FormatFromParts | src/pages/Events.jsx:38-68 | a date text whose segments parse to y, m, d shows day d padded, month m's name and the weekday of y-m-d |
| EventsPage.ExampleParts | src/pages/Events.jsx:41-43 | the date part of "2026-02-01" splits into "2026", "02" and "01" |
| EventsPage.ExampleSplit | src/pages/Events.jsx:41-43 | "2026-02-01" splits at `-` into its three segments |
| EventsPage.SameAsAgenda | src/pages/Events.jsx:38-68 | both pages show the same month and weekday for any date text, and this page's day is the agenda's raw day segment read as a number and padded |
| EventsPage.SameAsAgendaOnIsoDate | src/pages/Events.jsx:38-68 | for an ISO date both pages produce identical displays |
| NewsPage.CategoryLabel | src/pages/Noticias.jsx:17-23 | each known category shows its label, and a missing or unknown category shows "Notícia" |
| NewsPage.CategoryColor | src/pages/Noticias.jsx:25-31 | each known category gets its colour, and a missing or unknown category gets the `noticia` colour |
| NewsPage.FirstHighlighted | src/pages/Noticias.jsx:132 | finds the first highlighted position, or -1 exactly when no item is highlighted |
| NewsPage.FilteredNewsMembers | src/pages/Noticias.jsx:42-47 | an item is shown exactly when its title, or its non-empty summary, contains the search term ignoring case, and it is in the active category or the tab is `all` |
| NewsPage.FilteredNewsIsSubseq | src/pages/Noticias.jsx:42-47 | the shown items keep the order of the news list |
| NewsPage.EmptySearchShowsAll | src/pages/Noticias.jsx:34-35 | with the initial empty search and the `all` tab, every item is shown |
| NewsPage.FeaturedIsFirstHighlighted | src/pages/Noticias.jsx:128-129 | the featured card is the first highlighted item, or there is none |
| NewsPage.FeaturedFirst | src/pages/Noticias.jsx:128-129 | there are no highlighted items exactly when none is found, and otherwise the first of them is the one found |
| NewsPage.RestOmitsFeatured | src/pages/Noticias.jsx:132 | the list below the featured card is the shown list with exactly the featured occurrence removed |
| NewsPage.RestFromSeen | src/pages/Noticias.jsx:132 | once the featured item has passed, nothing more is dropped |
| NewsPage.RestSpec | src/pages/Noticias.jsx:132 | before the featured item has passed, exactly the first highlighted occurrence is dropped |
| LivePage.LiveRecordedPartition | src/pages/AoVivo.jsx:30-31 | every video is in exactly one of the live and recorded lists, each list holds exactly the videos of its kind, and both keep the input order |
| LivePage.SermonsTabSpec | src/pages/AoVivo.jsx:162-168 | the `pregacoes` tab holds exactly the recorded videos of category `pregacao` or `estudo`, in input order |
| LivePage.WorshipTabSpec | src/pages/AoVivo.jsx:170-176 | the `louvor` tab holds exactly the recorded videos of category `louvor`, in input order |
| LivePage.TabsDisjoint | src/pages/AoVivo.jsx:164-172 | no video is in both category tabs |
| LivePage.AllTab | src/pages/AoVivo.jsx:146-160 | the `todos` tab shows the empty state exactly when every video is live, and otherwise one card per recorded video, in input order |
| LivePage.ShowsLiveSection | src/pages/AoVivo.jsx:127 | the live section is rendered exactly when some video is live |
| LivePage.Thumbnail | src/pages/AoVivo.jsx:43 | a card shows its own thumbnail when it has one, and otherwise YouTube's still for its video id |
| LivePage.EmbedUrl | src/pages/AoVivo.jsx:110 | the player address is the embed prefix, the video id and `?autoplay=1` |
| LivePage.EmbedUrlInjective | src/pages/AoVivo.jsx:110 | two player addresses are equal exactly when the video ids are |
| LivePage.DurationBadge | src/pages/AoVivo.jsx:58-62 | the duration badge is shown exactly on recorded cards with a duration, and shows that duration |
| LivePage.VideoPlayer.constructor | src/pages/AoVivo.jsx:15 | the page starts with no video selected |
| LivePage.VideoPlayer.PlayerUrl | src/pages/AoVivo.jsx:95-110 | a player address exists exactly when a video is selected, and it is that video's embed address |
| LivePage.VideoPlayer.ClickCard | src/pages/AoVivo.jsx:38 | clicking a card selects that video and opens the player |
| LivePage.VideoPlayer.ClickOverlay | src/pages/AoVivo.jsx:100 | clicking the overlay clears the selection and closes the player |
| LivePage.VideoPlayer.ClickInsidePlayer | src/pages/AoVivo.jsx:106 | a click inside the player leaves the selection unchanged |
| LivePage.OpenThenClickInside | src/pages/AoVivo.jsx:38-110 | after opening a card and clicking inside the player, that card's video plays |
| LivePage.OpenThenClose | src/pages/AoVivo.jsx:38-100 | after opening a card and clicking the overlay, nothing plays |
| LeadershipPage.GroupsByType | src/pages/Lideranca.jsx:18-20 | each of the three groups holds exactly the leaders of its type, in input order |
| LeadershipPage.GroupsDisjoint | src/pages/Lideranca.jsx:18-20 | no leader is in two groups, and the groups together hold each leader at most as often as the input |
| LeadershipPage.DistinctTypeGroups | src/pages/Lideranca.jsx:18-20 | groups for three different type values are pairwise disjoint and together take each leader at most once |
| LeadershipPage.DisjointFilterCounts | src/pages/Lideranca.jsx:18-20 | filters by pairwise exclusive predicates together take each element at most as often as it occurs |
| LeadershipPage.DigitsOnlySpec | src/pages/Lideranca.jsx:52 | stripping non-digits leaves only digits, in order, each as often as in the input, and leaves a digit string unchanged |
| LeadershipPage.ContactLinksOf | src/pages/Lideranca.jsx:50-75 | each contact link is rendered exactly when its field is non-empty; the phone link is `tel:` followed by the number and the e-mail link `mailto:` followed by the address |
| LeadershipPage.WhatsAppLinkForm | src/pages/Lideranca.jsx:50-52 | a WhatsApp link is `https://wa.me/` followed by exactly the digits of the number |
| LeadershipPage.DigitsOnlyConcat | src/pages/Lideranca.jsx:52 | stripping non-digits distributes over concatenation |
| ContentPage.ShelvesByCategory | src/pages/Conteudo.jsx:25-26 | each shelf list holds exactly the items of its category, in query order, and no item is on both |
| ContentPage.ShelfOf | src/pages/Conteudo.jsx:71-78 | a shelf shows its empty message exactly when its list is empty, and otherwise the first `min(5, length)` items |
| ContentPage.DevotionalShelfSpec | src/pages/Conteudo.jsx:71-78 | the devotional shelf is empty exactly when no item is a devotional, and otherwise shows a prefix of at most five devotionals |
| ContentPage.StudyShelfSpec | src/pages/Conteudo.jsx:96-103 | the study shelf is empty exactly when no item is a study, and otherwise shows a prefix of at most five studies |
| ContentPage.CardLink | src/pages/Conteudo.jsx:38 | each card's link reads back as its own item's id |
| Departments.Keys | src/pages/Departamentos.jsx:45 | the keys of `Object.entries` are the table's keys, position by position |
| Departments.FirstMatch | src/pages/Departamentos.jsx:45-47 | finds the first keyword that occurs in the name, with no earlier keyword occurring, or -1 when none occurs |
| Departments.ScanEntries | src/pages/Departamentos.jsx:45-48 | the `for … of` scan returns the value of the first entry whose keyword occurs, or the fallback |
| Departments.GetIconComponent | src/pages/Departamentos.jsx:43-49 | the icon lookup lower-cases the name (missing gives `''`) and returns the first matching entry's icon, else `iconMap.default` |
| Departments.GetColorClass | src/pages/Departamentos.jsx:51-57 | the colour lookup does the same over the colour table, else `colorMap.default` |
| Departments.SameKeys | src/pages/Departamentos.jsx:11-35 | both tables list the same keywords in the same order |
| Departments.SameKeysOf | src/pages/Departamentos.jsx:11-35 | tables that agree key by key have the same key list |
| Departments.IconDefault | src/pages/Departamentos.jsx:21 | the icon table's `default` is `Users` |
| Departments.ColorDefault | src/pages/Departamentos.jsx:34 | the colour table's `default` is `from-gray-500 to-gray-600` |
| Departments.DefaultIsLast | src/pages/Departamentos.jsx:21 | when `default` is the last key and only there, looking it up gives the last value |
| Departments.IconAndColorAgree | src/pages/Departamentos.jsx:43-57 | the icon and the colour are chosen by the same keyword position, or both are defaults |
| Departments.NothingMatchesEmpty | src/pages/Departamentos.jsx:44-48 | for a table of non-empty keywords, the empty name matches nothing and gets the fallback |
| Departments.NoNameGivesDefault | src/pages/Departamentos.jsx:44-48 | a missing or empty name gets the default icon and colour |
| Departments.NoNamePick | src/pages/Departamentos.jsx:44-48 | for a table of non-empty keywords, a missing or empty name gets the `default` entry |
| Departments.IconKeysNonEmpty | src/pages/Departamentos.jsx:11-22 | no icon keyword is empty |
| Departments.ColorKeysNonEmpty | src/pages/Departamentos.jsx:24-35 | no colour keyword is empty |
| Departments.IconIsTableValue | src/pages/Departamentos.jsx:43-49 | the chosen icon is always one of the table's values |
| Departments.ColorIsTableValue | src/pages/Departamentos.jsx:51-57 | the chosen colour is always one of the table's values |
| Departments.CaseInsensitive | src/pages/Departamentos.jsx:44 | names equal up to letter case get the same icon and colour |
| Departments.EarlierKeywordWins | src/pages/Departamentos.jsx:45-47 | when two keywords occur in the name, the entry picked is the earlier one or one before it, for icon and colour alike |
| Departments.EarlierPick | src/pages/Departamentos.jsx:45-47 | in any table, when two keywords occur, the pick is at the earlier one's position or before |
| Departments.FirstKeywordWins | src/pages/Departamentos.jsx:12-14 | a name reading "jovens e mulheres" contains both keywords and gets the `jovens` icon and colour, since `jovens` is declared first |
| Departments.TableHeads | src/pages/Departamentos.jsx:11-26 | both tables begin with `infantil`, then `jovens` |
| Departments.SecondKeywordPick | src/pages/Departamentos.jsx:45-47 | when the first keyword does not occur and the second does, the second entry is picked |
| Departments.ExampleMatches | src/pages/Departamentos.jsx:46 | "jovens e mulheres" contains `jovens` and `mulheres` but not `infantil` |
| Departments.NoLetterI | src/pages/Departamentos.jsx:46 | "jovens e mulheres" has no letter `i` |
| Base44Client.OrderSpecRoundTrip | src/api/base44Client.js:8 | `-column` orders descending by `column`, and a bare non-empty column name orders ascending by itself |
| Base44Client.DescendingColumn | src/api/base44Client.js:8 | when the order text starts with `-`, the column is the rest of the text |
| Base44Client.InnerDashRemoved | src/api/base44Client.js:8 | a `-` that is not at the front is still removed from the column name, while the order stays ascending |
| Base44Client.BuildQuery | src/api/base44Client.js:4-16 | the builder's query has the table, column, direction and limit, and one equality constraint per defined filter entry, in entry order |
| Base44Client.ConstraintsSpec | src/api/base44Client.js:12-16 | the constraints are exactly the filter entries whose value is neither `undefined` nor `null`, in entry order, each as often as given |
| Base44Client.Rows | src/api/base44Client.js:18-25 | an error yields no rows, missing data yields no rows, and otherwise the rows are the data |
| Base44Client.Call | src/api/base44Client.js:28-52 | a call fails exactly when the entity lacks that member, and otherwise queries the entity's own table |
| Base44Client.FilterDefaults | src/api/base44Client.js:33-50 | `filter()` without arguments uses the entity's default order and limit 100 with no constraints, and explicit arguments are used as given |
| Base44Client.DescendingDefaults | src/api/base44Client.js:36-41 | news and videos list newest first, by the column after the `-` |
| Base44Client.AscendingDefaults | src/api/base44Client.js:33-50 | the other entities list ascending, by the column their default order names |
| Base44Client.NoDash | src/api/base44Client.js:4-49 | the default order texts `created_at`, `date`, `order` and `name` contain no `-` |
| Base44Client.ChurchInfoList | src/api/base44Client.js:30-32 | `ChurchInfo.list()` ignores its arguments and reads `church_info` by `created_at`, ascending, limit 100, unfiltered |
| AdminDashboard.Stats | src/components/admin/AdminDashboard.jsx:17-24 | six tiles, in order, each with its label and colour, counting the leaders, events, news, videos, congregations and departments |
| AdminDashboard.StatLabelsDistinct | src/components/admin/AdminDashboard.jsx:17-24 | the tile labels, which key the rendered tiles, are pairwise distinct |
| AdminDashboard.RecentNewsSpec | src/components/admin/AdminDashboard.jsx:26 | the recent news are the first `min(5, length)` items, in query order |
| AdminDashboard.ByInstantConsistent | src/components/admin/AdminDashboard.jsx:29 | the date-difference comparator is consistent |
| AdminDashboard.UpcomingEventsMembers | src/components/admin/AdminDashboard.jsx:27-30 | each listed event is an input event dated from now on, no event is listed more often than it qualifies, and `min(5, number qualifying)` are listed |
| AdminDashboard.UpcomingEventsEarliest | src/components/admin/AdminDashboard.jsx:27-30 | the listed events ascend by date, and no qualifying event left off the list is earlier than a listed one |
| AdminDashboard.UpcomingSortedByKey | src/components/admin/AdminDashboard.jsx:28-29 | the sorted qualifying events are a permutation of them, ascending by date |
| AdminDashboard.SortedPrefixEarliest | src/components/admin/AdminDashboard.jsx:29-30 | a prefix of an ascending permutation is ascending and holds the smallest elements |
| AdminDashboard.UpcomingTiesKeepOrder | src/components/admin/AdminDashboard.jsx:29 | events with the same date keep their query order |
| AdminDashboard.LoadedAsWrittenIsEmpty | src/components/admin/AdminDashboard.jsx:10-15 | as written, `<entity>.list()` does not exist for any dashboard entity except church info, so each table loads as `[]` |
| AdminDashboard.StatsAsWrittenShowZero | src/components/admin/AdminDashboard.jsx:10-18 | as written, a leaders table that returns one row still shows 0 on its tile |
| AdminDashboard.LoadedQueriesTable | src/components/admin/AdminDashboard.jsx:10-15 | the corrected load `filter({})` queries the entity's own table with its default order and limit, and yields the returned rows |
| AdminDashboard.DashboardStatsCountRows | src/components/admin/AdminDashboard.jsx:17-24 | with the corrected loads, each tile counts the rows its table returned |
| EntityForm.DefaultsKeys | src/components/admin/EntityForm.jsx:21-24 | the defaults hold exactly the names of fields whose `defaultValue` is defined, `null` included |
| EntityForm.DefaultsValues | src/components/admin/EntityForm.jsx:21-24 | each name holds the default of the last field that sets it |
| EntityForm.BuildDefaults | src/components/admin/EntityForm.jsx:21-24 | the `forEach` loop builds the defaults object field by field |
| EntityForm.WithField | src/components/admin/EntityForm.jsx:30 | the spread update sets the one field and leaves every other key and value as it was |
| EntityForm.WithFieldOverwrites | src/components/admin/EntityForm.jsx:29-31 | writing a field twice keeps only the second value |
| EntityForm.WithFieldCommutes | src/components/admin/EntityForm.jsx:29-31 | edits to different fields commute |
| EntityForm.Form.constructor | src/components/admin/EntityForm.jsx:14-15 | the form starts with empty data and no upload flags |
| EntityForm.Form.Reset | src/components/admin/EntityForm.jsx:17-27 | on open the form holds the initial data when given, and otherwise the fields' defaults |
| EntityForm.Form.HandleChange | src/components/admin/EntityForm.jsx:29-31 | a change updates exactly that field |
| EntityForm.Form.StartUpload | src/components/admin/EntityForm.jsx:33-35 | without a file nothing changes, and with one the field is flagged as uploading |
| EntityForm.Form.FinishUpload | src/components/admin/EntityForm.jsx:36-44 | a successful upload stores the file address in the field, a failed one leaves the data unchanged, and the flag is cleared in both cases |
| EntityForm.Form.Submit | src/components/admin/EntityForm.jsx:47-50 | `onSave` receives the current form data |
| EntityForm.UploadRun | src/components/admin/EntityForm.jsx:33-45 | during an upload the flag is set; afterwards it is cleared, and a successful upload's address is in the form |
| EntityForm.UploadOutcome | src/components/admin/EntityForm.jsx:37 | the awaited upload yields the service's reply only if the client has an `integrations` member, and fails otherwise |
| EntityForm.UploadAsWrittenAlwaysFails | src/components/admin/EntityForm.jsx:37 | with the client as written, every upload fails whatever the service would reply |
| EntityForm.UploadRunAsWritten | src/components/admin/EntityForm.jsx:33-45 | as written, an upload raises and clears the flag but never changes the form data |
| EntityForm.OpenAndSubmit | src/components/admin/EntityForm.jsx:17-50 | a form opened on existing data and submitted unedited saves exactly that data |
| AdminConsole.InitialEventForm | src/components/admin/Admin.jsx:29-33 | a new event form starts as a one-off, with the weekly day preset to `sunday`, active, and with an empty `end_date` |
| AdminConsole.EventPayload | src/components/admin/Admin.jsx:128-129 | the saved event holds `end_date` exactly when it is truthy, and every other field exactly as in the form |
| AdminConsole.InitialPayloadOmitsEndDate | src/components/admin/Admin.jsx:128-131 | an untouched new-event form is inserted without `end_date` but with `title` |
| AdminConsole.Cleared | src/components/admin/Admin.jsx:135 | clearing sets each listed key to `''` and keeps every other key and value |
| AdminConsole.UploadedInto | src/components/admin/Admin.jsx:106 | a finished upload stores the address in its field and keeps every other field of the current form |
| AdminConsole.UploadAsWrittenLosesEdit | src/components/admin/Admin.jsx:366 | as written, a field edited while the upload was in flight loses its edit, while the corrected update keeps it |
| AdminConsole.FileExtensionSpec | src/components/admin/Admin.jsx:92 | the extension is the text after the last `.`, and the whole name when there is no `.` |
| AdminConsole.JoinLast | src/components/admin/Admin.jsx:92 | joining two or more pieces is joining all but the last, the separator, then the last piece |
| AdminConsole.EventListLabel | src/components/admin/Admin.jsx:334 | a recurring event is labelled `Todo(a) ` and its weekday key, and a one-off event is labelled with its date text, a numeric date with its digits, and a missing (`null` or `undefined`) date with nothing |
| AdminConsole.Console.constructor | src/components/admin/Admin.jsx:22-51 | the console starts with an empty church record, the four preset new-item forms and no upload running |
| AdminConsole.Console.SetForm | src/components/admin/Admin.jsx:22-49 | replacing one form leaves the other forms and the upload flag alone |
| AdminConsole.Console.Edit | src/components/admin/Admin.jsx:295-323 | an input change sets that key of its own form and changes nothing else |
| AdminConsole.Console.Payload | src/components/admin/Admin.jsx:119-131 | an event is sent as its payload without an empty `end_date`, and every other form is sent as it is |
| AdminConsole.Console.Reload | src/components/admin/Admin.jsx:74 | a reloaded church row replaces the church form, unsaved edits included; without one the form is kept; nothing else changes |
| AdminConsole.Console.Saved | src/components/admin/Admin.jsx:131-136 | after a successful insert, the form's two reset keys are cleared, the church form is replaced by the reloaded church row when there is one, and the other forms are kept; after an error, nothing changes |
| AdminConsole.Console.StartUpload | src/components/admin/Admin.jsx:87-91 | without a file nothing happens, and with one the flag is raised |
| AdminConsole.Console.FinishUpload | src/components/admin/Admin.jsx:102-113 | a public address lands in the target field of the current form, a failure leaves the forms untouched, and the flag is lowered either way |
| AdminConsole.SaveFirstEvent | src/components/admin/Admin.jsx:126-136 | from a fresh console, saving an event sends its title without `end_date`, then clears the title and keeps `recurrence_day` as `sunday` |
| CongregationsPage.MapsUrl | src/pages/Congregacoes.jsx:39-45 | a link opens exactly when both coordinates or an address are set; coordinates give directions, and otherwise the encoded address gives a search |
| CongregationsPage.DirectionsRoundTrip | src/pages/Congregacoes.jsx:40-41 | the destination of a directions link splits back into the latitude and the longitude, in that order |
| CongregationsPage.MapCenterAsWritten | src/pages/Congregacoes.jsx:47-51 | as written: the first congregation's coordinates when it has a latitude, else the church's or the default |
| CongregationsPage.ChurchOrDefault | src/pages/Congregacoes.jsx:49-51 | the church's coordinates when both are set, else Brasília; in both cases both coordinates are present |
| CongregationsPage.MapCenterAsWrittenMissesLongitude | src/pages/Congregacoes.jsx:47-48 | as written, a first congregation with a latitude and no longitude centres the map on a missing longitude |
| CongregationsPage.MapCenter | src/pages/Congregacoes.jsx:47-51 | corrected: the centre always has both coordinates, the first congregation's when it has both, else the church's or the default |
| CongregationsPage.MapCenterAgrees | src/pages/Congregacoes.jsx:47-51 | the corrected and the as-written centres agree unless the first congregation has only a latitude |
| CongregationsPage.MarkersSpec | src/pages/Congregacoes.jsx:193 | exactly the congregations with both coordinates get a marker, in list order |
| CongregationsPage.MarkerLinksGiveDirections | src/pages/Congregacoes.jsx:193-203 | every marker's route link gives directions to that marker's coordinates |
| CongregationsPage.CongregationsView.constructor | src/pages/Congregacoes.jsx:24 | the page opens in list mode |
| CongregationsPage.CongregationsView.ShowList | src/pages/Congregacoes.jsx:66 | the "Lista" button selects list mode |
| CongregationsPage.CongregationsView.ShowMap | src/pages/Congregacoes.jsx:74 | the "Mapa" button selects map mode |
| CongregationsPage.CongregationsView.OneHighlighted | src/pages/Congregacoes.jsx:66-79 | exactly one of the two buttons is highlighted |
| CongregationsPage.CongregationsView.Render | src/pages/Congregacoes.jsx:107-113 | with no congregations the empty state shows; in list mode every congregation is listed; in map mode the markers are shown around the corrected centre `MapCenter`, which has both coordinates (see Findings) |

## Left out

- Network, storage and authentication are not modelled:
  - Supabase `select`, `insert`, `upsert` and `delete` calls;
  - storage uploads and public URLs;
  - `checkAuth`, sign-in and sign-out;
  - `fetchData`'s five parallel reads. Only its effect on the church form is modelled, as `AdminConsole.Console.Reload`, with the row it read as a parameter;
  - the confirm-then-delete handlers.

  A save's outcome is a `failed` parameter. An upload's outcome is the optional address it produced. `fetchTable` is modelled as the query record it builds, plus `Rows` for the reply.
- The `create`, `update`, `delete` and `list` calls of the `Admin*` context components and `AdminChurchInfo.jsx` are not modelled. They are I/O over the same client.
- The clock is not read. `new Date()` and `toLocaleDateString('en-CA')` become parameters, as do the dashboard's `new Date(e.date)` instants.
- `date-fns` formatting is not modelled: `format`, `parseISO` and the `d MMM yyyy` video dates. It is a foreign library that computes no rule of the page.
- Time zones are modelled only as a fixed offset in seconds. Daylight-saving rules and zone databases are not modelled. `Calendar.NoonGetDay` shows that the noon construction keeps the weekday under any shift of less than twelve hours.
- `Date` normalisation of an out-of-range day is modelled only as a day count from the month's first day.
- `Date`'s range limit of 8.64e15 ms either side of the epoch is not modelled. In the source, a year such as 300000 gives an Invalid Date and an `undefined` weekday, but `EventModel.WeekdayName` gives a name.
- `parseInt` returns a floating-point number, which loses precision on long digit strings. The model's parsed integers are exact.
- `toLowerCase` is modelled on ASCII letters only. Accented capitals such as `Á` are not lowered.
- `parseInt` reads an optional sign and decimal digits. Leading white space and the `0x` prefix are not modelled.
- `localeCompare` is modelled as lexicographic order of characters. That is code-point order, which equals JavaScript's code-unit order on text within the Basic Multilingual Plane, such as the page's `YYYY-MM-DD` texts. Locale collation is not modelled.
- Strings are modelled as sequences of Unicode code points, not of UTF-16 code units. `length`, `padStart`, `split`, `slice` and the string comparisons count and compare code points. This differs from JavaScript only for characters above U+FFFF, which JavaScript stores as two code units.
- `encodeURIComponent` is an abstract `encode` parameter of `CongregationsPage.MapsUrl`.
- Coordinates are opaque values that carry their printed text and their truthiness. Floating point is not modelled.
- The number-field parse in `renderField` is not modelled. It uses `parseFloat`, and the form's widgets are UI.
- `Math.random` file names are not modelled, because they are nondeterministic. Only the extension taken from the file name is.
- Property lookups in the route, weekday, category, icon and colour tables ignore keys inherited from `Object.prototype`, such as `constructor`. A name such as `"constructor"` is treated as unknown.
- `Object.entries` is modelled as a sequence of entries. Unique keys are assumed where a source object literal has them.
- Object identity in the news rest-list filter is modelled by position. The first occurrence of the featured item is the one dropped.
- AdminConsole.Console.Saved: models the evidently intended reset, which clears the reset keys of the current form. As written, Admin.jsx:135, 152, 169 and 186 spread the form as it was rendered when save was pressed. Edits made while an insert is in flight are therefore lost there too, the same stale-snapshot pattern as the upload finding below.
- AdminConsole.Console.FinishUpload: models the corrected upload callback. It stores the address into the current form. As written, Admin.jsx:254, 275, 366 and 418 spread the form as it was when the page was drawn; see Findings.
- CongregationsPage.CongregationsView.Render: its map branch uses the corrected `CongregationsPage.MapCenter`. As written, a first congregation with a latitude but no longitude gives the centre `[lat, undefined]`; see Findings.
- Database fields that may be `null` are modelled as plain text in two places. An event's `recurrenceDay` is one: `translateDay(null)` renders nothing (Events.jsx:141). A news item's `title` is the other: a `null` title makes `title.toLowerCase()` throw in the search filter (Noticias.jsx:43). The model gives neither case.
- The dashboard's `fetchTable` default limit of 100 rows is part of the query record, but the database's truncation is not modelled.
- The events list's time labels (`start_time?.slice(0, 5)`) are not modelled, because they are rendering.
- Departments.FirstKeywordWins: stated for any department name whose lower-cased form is `"jovens e mulheres"`. That is the lower-cased form of "Jovens e Mulheres", but the lowering of that literal is not itself proved.
- The `Events.jsx` example "2026-02-01" is stated in pieces rather than as one equation:
  - `EventsPage.ExampleParts` splits the date;
  - `EventModel.ExampleNumbers` parses the segments;
  - `EventsPage.FormatFromParts` gives the display for parsed segments;
  - `EventsPage.DayOne` gives the day label "01";
  - `EventModel.ExampleLabels` gives "Fevereiro" and "Domingo".

  Together they give day "01", month "Fevereiro", weekday "Domingo" and the label "Domingo, 01 de Fevereiro".

## Findings

| source | as written | input that shows it | evidently intended | confidence | as-written member | corrected member |
|---|---|---|---|---|---|---|
| src/components/admin/AdminDashboard.jsx:10-15 | each tile loads its table with `base44.entities.<Entity>.list()`, but the client defines `list` only on `ChurchInfo`; the call throws and `useQuery` keeps `data = []` | a leaders table holding one row: the "Líderes" tile shows 0 | load each table with `filter({})`, which every dashboard entity defines, so each tile counts its table's rows | not executed | AdminDashboard.StatsAsWrittenShowZero | AdminDashboard.DashboardStatsCountRows |
| src/components/admin/Admin.jsx:366 | the upload callback `setNewNews({...newNews, image_url: url})` spreads the form as rendered when the file was picked | type a new title while the image uploads: the title reverts when the upload lands | store the address into the current form, `prev => ({...prev, image_url: url})`, as `EntityForm.jsx` does | not executed | AdminConsole.UploadAsWrittenLosesEdit | AdminConsole.UploadedInto |
| src/pages/Congregacoes.jsx:47-48 | the map centre takes the first congregation's coordinates when it has a latitude, without checking its longitude | a first congregation with a latitude and no longitude: the centre's longitude is missing | check both coordinates, as the church fallback (line 49) and the markers (line 193) do | not executed | CongregationsPage.MapCenterAsWrittenMissesLongitude | CongregationsPage.MapCenter |
| src/components/admin/EntityForm.jsx:37 | the upload awaits `base44.integrations.Core.UploadFile`, but the client exports only `entities`; reading `.Core` of `undefined` throws inside the `try` | any file picked in an entity form: the error toast shows and the field is never set | an upload call the client provides (the storage upload `Admin.jsx` uses), so that a successful upload stores the address | not executed | EntityForm.UploadAsWrittenAlwaysFails | EntityForm.UploadRun |
