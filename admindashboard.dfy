/**
 * The admin dashboard: one count per table, the latest five news items and
 * the next five events from now.
 */
module AdminDashboard {
  import opened Wrappers
  import opened Seqs
  import opened StableSort
  import opened EventModel
  import opened JsValue
  import opened Base44Client

  /** One tile of the `stats` row. */
  datatype Stat = Stat(caption: string, value: nat, color: string)

  const StatLabels: seq<string> :=
    ["Líderes", "Eventos", "Notícias", "Vídeos", "Congregações", "Departamentos"]

  const StatColors: seq<string> :=
    ["bg-blue-500", "bg-purple-500", "bg-emerald-500", "bg-red-500", "bg-amber-500", "bg-indigo-500"]

  /** The six tiles, in order: leaders, events, news, videos, congregations, departments. */
  function Stats<L, E, N, V, C, D>(
    leaders: seq<L>, events: seq<E>, news: seq<N>, videos: seq<V>,
    congregations: seq<C>, departments: seq<D>): (r: seq<Stat>)
    ensures |r| == 6
    ensures forall i :: 0 <= i < 6 ==> r[i].caption == StatLabels[i] && r[i].color == StatColors[i]
    ensures r[0].value == |leaders| && r[1].value == |events| && r[2].value == |news|
    ensures r[3].value == |videos| && r[4].value == |congregations| && r[5].value == |departments|
  {
    var counts := [|leaders|, |events|, |news|, |videos|, |congregations|, |departments|];
    seq(6, i requires 0 <= i < 6 => Stat(StatLabels[i], counts[i], StatColors[i]))
  }

  /** The tiles are keyed by label, and no two labels are equal. */
  lemma StatLabelsDistinct()
    ensures forall i, j :: 0 <= i < j < |StatLabels| ==> StatLabels[i] != StatLabels[j]
  {
  }

  const ListSize := 5

  /** `recentNews`: the first five items as the query ordered them. */
  function RecentNews<N>(news: seq<N>): seq<N> {
    Take(news, ListSize)
  }

  lemma RecentNewsSpec<N>(news: seq<N>)
    ensures |RecentNews(news)| == if |news| < ListSize then |news| else ListSize
    ensures RecentNews(news) == news[..|RecentNews(news)|]
  {
    var r := RecentNews(news);
    assert r == news[..|r|];
  }

  /**
   * `new Date(e.date) >= new Date()`, with `instant` the parsed time of an
   * event (`None` for an unparseable date, which compares as `NaN`).
   */
  function IsUpcoming(instant: Event -> Option<int>, now: int): Event -> bool {
    (e: Event) => instant(e).Some? && instant(e).value >= now
  }

  /** The sort key; only events that passed the filter are compared, so the default is never read. */
  function KeyOf(instant: Event -> Option<int>): Event -> int {
    (e: Event) => instant(e).GetOr(0)
  }

  /** `(a, b) => new Date(a.date) - new Date(b.date)`. */
  function ByInstant(instant: Event -> Option<int>): (Event, Event) -> int {
    (a: Event, b: Event) => KeyOf(instant)(a) - KeyOf(instant)(b)
  }

  /** The qualifying events in the order the stable sort leaves them. */
  function UpcomingSorted(events: seq<Event>, instant: Event -> Option<int>, now: int): seq<Event> {
    Sort(Filter(events, IsUpcoming(instant, now)), ByInstant(instant))
  }

  /** `upcomingEvents`. */
  function UpcomingEvents(events: seq<Event>, instant: Event -> Option<int>, now: int): seq<Event> {
    Take(UpcomingSorted(events, instant, now), ListSize)
  }

  lemma ByInstantConsistent(instant: Event -> Option<int>)
    ensures Consistent(ByInstant(instant))
  {
    KeyComparatorConsistent(KeyOf(instant), ByInstant(instant));
  }

  /**
   * Every listed event is one of the input's with a date from now on, its
   * sort key is that date, and the list holds min(5, number qualifying) of them.
   */
  lemma UpcomingEventsMembers(events: seq<Event>, instant: Event -> Option<int>, now: int)
    ensures multiset(UpcomingEvents(events, instant, now)) <= multiset(Filter(events, IsUpcoming(instant, now)))
    ensures forall e :: e in UpcomingEvents(events, instant, now) ==>
      e in events && instant(e).Some? && instant(e).value >= now && KeyOf(instant)(e) == instant(e).value
    ensures var n := |Filter(events, IsUpcoming(instant, now))|;
      |UpcomingEvents(events, instant, now)| == if n < ListSize then n else ListSize
  {
    var q := Filter(events, IsUpcoming(instant, now));
    var s := UpcomingSorted(events, instant, now);
    var r := UpcomingEvents(events, instant, now);
    assert s == r + s[|r|..];
    assert multiset(s) == multiset(r) + multiset(s[|r|..]);
    forall e | e in r ensures e in events && instant(e).Some? && instant(e).value >= now {
      assert e in multiset(r);
      assert e in multiset(q);
      assert IsUpcoming(instant, now)(e);
    }
  }

  /**
   * The list is in ascending date order, and no qualifying event left off it
   * is earlier than any listed one.
   */
  lemma UpcomingEventsEarliest(events: seq<Event>, instant: Event -> Option<int>, now: int)
    ensures var r, key := UpcomingEvents(events, instant, now), KeyOf(instant);
      forall i, j :: 0 <= i < j < |r| ==> key(r[i]) <= key(r[j])
    ensures var r, key := UpcomingEvents(events, instant, now), KeyOf(instant);
      forall y, x :: y in Filter(events, IsUpcoming(instant, now)) && y !in r && x in r ==> key(x) <= key(y)
  {
    var s := UpcomingSorted(events, instant, now);
    var r := UpcomingEvents(events, instant, now);
    assert r == Take(s, ListSize);
    TakeIsPrefix(s, ListSize);
    UpcomingSortedByKey(events, instant, now);
    SortedPrefixEarliest(Filter(events, IsUpcoming(instant, now)), s, |r|, KeyOf(instant));
  }

  /** The sorted qualifying events are a permutation of them, ascending by sort key. */
  lemma UpcomingSortedByKey(events: seq<Event>, instant: Event -> Option<int>, now: int)
    ensures var s := UpcomingSorted(events, instant, now);
      && multiset(s) == multiset(Filter(events, IsUpcoming(instant, now)))
      && forall i, j :: 0 <= i < j < |s| ==> KeyOf(instant)(s[i]) <= KeyOf(instant)(s[j])
  {
    var q := Filter(events, IsUpcoming(instant, now));
    var s := UpcomingSorted(events, instant, now);
    ByInstantConsistent(instant);
    SortSorted(q, ByInstant(instant));
    forall i, j | 0 <= i < j < |s| ensures KeyOf(instant)(s[i]) <= KeyOf(instant)(s[j]) {
      assert ByInstant(instant)(s[i], s[j]) <= 0;
    }
  }

  /**
   * If `s` lists the elements of `q` ascending by `key`, its first `m`
   * entries are ascending and no element of `q` left out of them precedes any of them.
   */
  lemma SortedPrefixEarliest<T>(q: seq<T>, s: seq<T>, m: nat, key: T -> int)
    requires m <= |s| && multiset(s) == multiset(q)
    requires forall i, j :: 0 <= i < j < |s| ==> key(s[i]) <= key(s[j])
    ensures forall i, j :: 0 <= i < j < |s[..m]| ==> key(s[..m][i]) <= key(s[..m][j])
    ensures forall y, x :: y in q && y !in s[..m] && x in s[..m] ==> key(x) <= key(y)
  {
    forall y, x | y in q && y !in s[..m] && x in s[..m] ensures key(x) <= key(y) {
      assert y in multiset(s);
      var jy :| 0 <= jy < |s| && s[jy] == y;
      var ix :| 0 <= ix < m && s[ix] == x;
      assert jy >= m;
    }
  }

  /** Events with the same date keep the order the query returned them in. */
  lemma UpcomingTiesKeepOrder(events: seq<Event>, instant: Event -> Option<int>, now: int, k: Event)
    ensures Tied(UpcomingSorted(events, instant, now), k, ByInstant(instant))
         == Tied(Filter(events, IsUpcoming(instant, now)), k, ByInstant(instant))
  {
    ByInstantConsistent(instant);
    SortStable(Filter(events, IsUpcoming(instant, now)), k, ByInstant(instant));
  }

  /**
   * How the dashboard loads a table as written: `<entity>.list()`, a member
   * only `ChurchInfo` defines. The call throws, the query fails, and
   * `useQuery` leaves `data` at its default `[]`.
   */
  function LoadedAsWritten<R>(e: Entity, resp: Response<R>): seq<R> {
    if Call(e, "list", None, None, None).Some? then Rows(resp) else []
  }

  /** As written, each of the six dashboard tables loads as empty, whatever the backend holds. */
  lemma LoadedAsWrittenIsEmpty<R>(e: Entity, resp: Response<R>)
    requires e != ChurchInfo
    ensures Call(e, "list", None, None, None).None?
    ensures LoadedAsWritten(e, resp) == []
  {
  }

  /** The dashboard as written: every tile counts the empty list. */
  function StatsAsWritten(leaders: Response<Record>, events: Response<Record>, news: Response<Record>,
                          videos: Response<Record>, congregations: Response<Record>,
                          departments: Response<Record>): seq<Stat> {
    Stats(LoadedAsWritten(LeaderEntity, leaders), LoadedAsWritten(EventEntity, events),
          LoadedAsWritten(NewsEntity, news), LoadedAsWritten(VideoEntity, videos),
          LoadedAsWritten(CongregationEntity, congregations), LoadedAsWritten(DepartmentEntity, departments))
  }

  /** A leaders table that returns a row still shows "0" on the as-written dashboard. */
  lemma StatsAsWrittenShowZero(leaders: Response<Record>, other: Response<Record>)
    requires leaders == Response(Some([map[]]), None)
    ensures |Rows(leaders)| == 1
    ensures StatsAsWritten(leaders, other, other, other, other, other)[0].value == 0
  {
  }

  /**
   * The evidently intended load: `<entity>.filter({})`, which every
   * dashboard entity defines, returning the rows the query responds with.
   */
  function Loaded<R>(e: Entity, resp: Response<R>): seq<R> {
    if Call(e, "filter", Some([]), None, None).Some? then Rows(resp) else []
  }

  /** The intended load queries the entity's own table with its default order and limit, unfiltered. */
  lemma LoadedQueriesTable<R>(e: Entity, resp: Response<R>)
    requires e != ChurchInfo
    ensures Call(e, "filter", Some([]), None, None)
         == Some(QueryOf(TableName(e), EntityOrder(e), DefaultLimit, []))
    ensures Loaded(e, resp) == Rows(resp)
  {
  }

  /** The dashboard with the intended loads. */
  function DashboardStats(leaders: Response<Record>, events: Response<Record>, news: Response<Record>,
                          videos: Response<Record>, congregations: Response<Record>,
                          departments: Response<Record>): seq<Stat> {
    Stats(Loaded(LeaderEntity, leaders), Loaded(EventEntity, events), Loaded(NewsEntity, news),
          Loaded(VideoEntity, videos), Loaded(CongregationEntity, congregations),
          Loaded(DepartmentEntity, departments))
  }

  /** With the intended loads, each tile counts the rows its table returned. */
  lemma DashboardStatsCountRows(leaders: Response<Record>, events: Response<Record>, news: Response<Record>,
                                videos: Response<Record>, congregations: Response<Record>,
                                departments: Response<Record>)
    ensures var r := DashboardStats(leaders, events, news, videos, congregations, departments);
      && r[0].value == |Rows(leaders)| && r[1].value == |Rows(events)| && r[2].value == |Rows(news)|
      && r[3].value == |Rows(videos)| && r[4].value == |Rows(congregations)|
      && r[5].value == |Rows(departments)|
  {
    LoadedQueriesTable(LeaderEntity, leaders);
    LoadedQueriesTable(EventEntity, events);
    LoadedQueriesTable(NewsEntity, news);
    LoadedQueriesTable(VideoEntity, videos);
    LoadedQueriesTable(CongregationEntity, congregations);
    LoadedQueriesTable(DepartmentEntity, departments);
  }
}
