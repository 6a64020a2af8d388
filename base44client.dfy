/**
 * The `base44` data client: each entity forwards to `fetchTable`, which
 * builds a table query (order, limit, equality filters) and turns the
 * response into a list of rows. The query is modelled as the record of
 * what was asked for; the database itself is not modelled.
 */
module Base44Client {
  import opened Wrappers
  import opened Seqs
  import opened JsString
  import opened JsValue

  /** What `fetchTable` asks the backend for. */
  datatype Query = Query(
    table: string, column: string, ascending: bool, limit: int,
    constraints: seq<(string, Value)>)

  const DefaultOrder := "created_at"
  const DefaultLimit := 100

  /** `orderBy.replace('-', '')`: the column, with only the first `-` taken out. */
  function OrderColumn(orderBy: string): string {
    RemoveFirst(orderBy, '-')
  }

  /** `!orderBy.startsWith('-')`. */
  predicate Ascending(orderBy: string) {
    !StartsWith(orderBy, "-")
  }

  /** `-column` sorts descending by `column`; a bare column name sorts ascending by it. */
  lemma OrderSpecRoundTrip(column: string)
    requires '-' !in column
    ensures OrderColumn("-" + column) == column && !Ascending("-" + column)
    ensures OrderColumn(column) == column && (column != [] ==> Ascending(column))
  {
    RemoveFirstSpec("-" + column, '-');
    RemoveFirstSpec(column, '-');
  }

  /** A leading `-` is the direction marker and is dropped from the column name. */
  lemma DescendingColumn(orderBy: string)
    requires !Ascending(orderBy)
    ensures OrderColumn(orderBy) == orderBy[1..]
  {
    assert orderBy[0] == '-';
  }

  /** A `-` elsewhere than at the front is still removed, and the order stays ascending. */
  lemma InnerDashRemoved(a: string, b: string)
    requires a != [] && '-' !in a
    ensures Ascending(a + "-" + b) && OrderColumn(a + "-" + b) == a + b
  {
    var s := a + "-" + b;
    RemoveFirstSpec(s, '-');
    assert s[|a|] == '-' && s[..|a|] == a;
    assert s[0] == a[0];
    assert s[|a| + 1..] == b;
  }

  /** `value !== undefined && value !== null`. */
  predicate Present(entry: (string, Value)) {
    entry.1 != Undefined && entry.1 != Null
  }

  /** The query `fetchTable(table, orderBy, limit, filters)` builds. */
  function QueryOf(table: string, orderBy: string, limit: int, filters: seq<(string, Value)>): Query {
    Query(table, OrderColumn(orderBy), Ascending(orderBy), limit, Filter(filters, Present))
  }

  /**
   * The query builder: order and limit first, then one `.eq(key, value)`
   * per entry of `Object.entries(filters)` whose value is defined.
   */
  method BuildQuery(table: string, orderBy: string, limit: int, filters: seq<(string, Value)>)
    returns (q: Query)
    ensures q == QueryOf(table, orderBy, limit, filters)
  {
    q := Query(table, OrderColumn(orderBy), Ascending(orderBy), limit, []);
    var i := 0;
    while i < |filters|
      invariant 0 <= i <= |filters|
      invariant q == Query(table, OrderColumn(orderBy), Ascending(orderBy), limit, Filter(filters[..i], Present))
    {
      var (key, value) := filters[i];
      FilterSnoc(filters, i, Present);
      if value != Undefined && value != Null {
        q := q.(constraints := q.constraints + [(key, value)]);
      }
      i := i + 1;
    }
    assert filters[..i] == filters;
  }

  /**
   * Every defined filter entry becomes one equality constraint, in entry
   * order, and entries whose value is `undefined` or `null` are skipped.
   */
  lemma ConstraintsSpec(table: string, orderBy: string, limit: int, filters: seq<(string, Value)>)
    ensures var c := QueryOf(table, orderBy, limit, filters).constraints;
      && (forall kv :: kv in c <==> kv in filters && kv.1 != Undefined && kv.1 != Null)
      && Subseq(c, filters)
      && forall kv :: multiset(c)[kv] == if Present(kv) then multiset(filters)[kv] else 0
  {
    FilterIsSubseq(filters, Present);
    FilterMultiset(filters, Present);
  }

  /** What awaiting the query yields: rows, or an error object. */
  datatype Response<R> = Response(data: Option<seq<R>>, error: Option<string>)

  /** `if (error) return []; return data || []`. */
  function Rows<R>(resp: Response<R>): (rows: seq<R>)
    ensures resp.error.Some? ==> rows == []
    ensures resp.error.None? && resp.data.None? ==> rows == []
    ensures resp.error.None? && resp.data.Some? ==> rows == resp.data.value
  {
    if resp.error.Some? then [] else resp.data.GetOr([])
  }

  /** The tables behind the `base44.entities` members. */
  datatype Entity = ChurchInfo | EventEntity | NewsEntity | VideoEntity | LeaderEntity
                  | CongregationEntity | DepartmentEntity

  function TableName(e: Entity): string {
    match e
    case ChurchInfo => "church_info"
    case EventEntity => "events"
    case NewsEntity => "news"
    case VideoEntity => "videos"
    case LeaderEntity => "leaders"
    case CongregationEntity => "congregations"
    case DepartmentEntity => "departments"
  }

  /** The order each entity's `filter` falls back on when none is given. */
  function EntityOrder(e: Entity): string {
    match e
    case ChurchInfo => DefaultOrder
    case EventEntity => "date"
    case NewsEntity => "-created_date"
    case VideoEntity => "-created_at"
    case LeaderEntity => "order"
    case CongregationEntity => "name"
    case DepartmentEntity => "order"
  }

  /** The members of the exported `base44` object: only `entities`, and no `integrations`. */
  const ClientMembers: set<string> := {"entities"}

  /** The members each entity object defines: `ChurchInfo` only `list`, all others only `filter`. */
  function Methods(e: Entity): set<string> {
    if e == ChurchInfo then {"list"} else {"filter"}
  }

  /**
   * `base44.entities.<e>.<name>(filters, orderBy, limit)`: the query it
   * sends, or `None` when the entity has no such member (the call throws a
   * `TypeError` and the returned promise rejects). `None` arguments are
   * `undefined`, which selects the parameter defaults.
   */
  function Call(e: Entity, name: string, filters: Option<seq<(string, Value)>>,
                orderBy: Option<string>, limit: Option<int>): (q: Option<Query>)
    ensures q.None? <==> name !in Methods(e)
    ensures q.Some? ==> q.value.table == TableName(e)
  {
    if name !in Methods(e) then None
    else if e == ChurchInfo then Some(QueryOf(TableName(e), DefaultOrder, DefaultLimit, []))
    else
      var order := if TruthyText(orderBy) then orderBy.value else EntityOrder(e);
      Some(QueryOf(TableName(e), order, limit.GetOr(DefaultLimit), filters.GetOr([])))
  }

  /**
   * A `filter` call without arguments reads the entity's default order,
   * direction and limit, with no constraints; an explicit order wins.
   */
  lemma FilterDefaults(e: Entity, filters: seq<(string, Value)>, order: string, limit: int)
    requires e != ChurchInfo && order != ""
    ensures var q := Call(e, "filter", None, None, None).value;
      q.limit == DefaultLimit && q.constraints == [] && q.column == OrderColumn(EntityOrder(e))
      && q.ascending == Ascending(EntityOrder(e))
    ensures var q := Call(e, "filter", Some(filters), Some(order), Some(limit)).value;
      q == QueryOf(TableName(e), order, limit, filters)
  {
  }

  /** News and videos list newest first; the column is the order text after its `-`. */
  lemma DescendingDefaults(e: Entity)
    requires e == NewsEntity || e == VideoEntity
    ensures !Ascending(EntityOrder(e)) && OrderColumn(EntityOrder(e)) == EntityOrder(e)[1..]
  {
    DescendingColumn(EntityOrder(e));
  }

  /** The other entities list ascending, by a column named exactly as their default order. */
  lemma AscendingDefaults(e: Entity)
    requires e !in {NewsEntity, VideoEntity}
    ensures Ascending(EntityOrder(e)) && OrderColumn(EntityOrder(e)) == EntityOrder(e)
  {
    var order := EntityOrder(e);
    assert order[0] != '-';
    NoDash(order);
    OrderSpecRoundTrip(order);
  }

  lemma NoDash(order: string)
    requires order in {DefaultOrder, "date", "order", "name"}
    ensures '-' !in order
  {
  }

  /** `ChurchInfo.list()` ignores any arguments and reads everything by creation time, ascending. */
  lemma ChurchInfoList(filters: Option<seq<(string, Value)>>, orderBy: Option<string>, limit: Option<int>)
    ensures Call(ChurchInfo, "list", filters, orderBy, limit)
         == Some(Query("church_info", "created_at", true, 100, []))
  {
    OrderSpecRoundTrip("created_at");
  }
}
