/** The log post-processing helpers: the inclusive time-range filter, the
    requested-column projection, the (pod, node, template) de-duplication
    with occurrence counts, the service name of a pod, and the final table
    ordered by descending occurrence count. */
module Logs {
  import opened Wrappers
  import opened Sequences

  /** A log cell: an integer (the nanosecond timestamp), a string, or null. */
  datatype Value = IntV(i: int) | StrV(s: string) | Null

  /** A log record; a column missing from the map reads as null. */
  type LogRow = map<string, Value>

  /** A log table: its column names in order, and its rows in order. */
  datatype Table = Table(columns: seq<string>, rows: seq<LogRow>)

  function Cell(row: LogRow, c: string): Value {
    if c in row then row[c] else Null
  }

  const TimestampColumn: string := "timestamp_ns"
  const PodColumn: string := "k8_pod"
  const NodeColumn: string := "k8_node_name"
  const TemplateColumn: string := "template"
  const MessageColumn: string := "message"
  const CountColumn: string := "occurrence_count"

  // ---------------------------------------------------------------------
  // Time-range filter
  // ---------------------------------------------------------------------

  /** The row's timestamp lies in `[start, end]`; a null or non-integer
      timestamp lies in no range. */
  predicate InRange(row: LogRow, start: int, end: int) {
    Cell(row, TimestampColumn).IntV? && start <= Cell(row, TimestampColumn).i <= end
  }

  /** `_filter_logs_by_timerange`. */
  function FilterByTimeRange(start: int, end: int, t: Option<Table>): (r: Option<Table>)
    ensures r.None? <==> t.None? || TimestampColumn !in t.value.columns
    ensures r.Some? ==> r.value.columns == t.value.columns
    ensures r.Some? ==> forall row :: row in r.value.rows <==> row in t.value.rows && InRange(row, start, end)
  {
    if t.None? || TimestampColumn !in t.value.columns then None
    else Some(Table(t.value.columns, Filter(t.value.rows, (row: LogRow) => InRange(row, start, end))))
  }

  /** The filter keeps row order: filtering a table made of two halves is
      filtering each half and concatenating. */
  lemma TimeRangeKeepsOrder(start: int, end: int, columns: seq<string>, a: seq<LogRow>, b: seq<LogRow>)
    requires TimestampColumn in columns
    ensures FilterByTimeRange(start, end, Some(Table(columns, a + b))).value.rows ==
            FilterByTimeRange(start, end, Some(Table(columns, a))).value.rows +
            FilterByTimeRange(start, end, Some(Table(columns, b))).value.rows
  {
    FilterAppend(a, b, (row: LogRow) => InRange(row, start, end));
  }

  /** Filtering twice is filtering once by the intersection of the ranges. */
  lemma TimeRangeNested(s1: int, e1: int, s2: int, e2: int, t: Option<Table>)
    ensures FilterByTimeRange(s2, e2, FilterByTimeRange(s1, e1, t)) ==
            FilterByTimeRange(if s1 < s2 then s2 else s1, if e1 < e2 then e1 else e2, t)
  {
    if t.Some? && TimestampColumn in t.value.columns {
      var lo, hi := if s1 < s2 then s2 else s1, if e1 < e2 then e1 else e2;
      FilterFilter(t.value.rows,
        (row: LogRow) => InRange(row, s1, e1),
        (row: LogRow) => InRange(row, s2, e2),
        (row: LogRow) => InRange(row, lo, hi));
    }
  }

  // ---------------------------------------------------------------------
  // Column projection
  // ---------------------------------------------------------------------

  function Project(row: LogRow, columns: seq<string>): (r: LogRow)
    ensures forall c :: c in r <==> c in row && c in columns
    ensures forall c :: c in columns ==> Cell(r, c) == Cell(row, c)
  {
    map c | c in row && c in columns :: row[c]
  }

  /** `_filter_logs_by_columns`: no requested list keeps the table; else
      the requested columns that exist, in requested order, and nothing
      when none of them exists. */
  function FilterByColumns(t: Option<Table>, columns: Option<seq<string>>): (r: Option<Table>)
    ensures t.None? ==> r.None?
    ensures t.Some? && columns.None? ==> r == t
    ensures t.Some? && columns.Some? ==>
              (r.None? <==> forall c :: c in columns.value ==> c !in t.value.columns)
    ensures r.Some? && columns.Some? ==>
              && r.value.columns == Filter(columns.value, (c: string) => c in t.value.columns)
              && |r.value.rows| == |t.value.rows|
              && forall i :: 0 <= i < |r.value.rows| ==>
                   && (forall c :: c in r.value.columns ==> Cell(r.value.rows[i], c) == Cell(t.value.rows[i], c))
                   && (forall c :: c in r.value.rows[i] ==> c in r.value.columns)
  {
    if t.None? then None
    else if columns.None? then t
    else
      var valid := Filter(columns.value, (c: string) => c in t.value.columns);
      assert |valid| > 0 ==> valid[0] in valid;
      if |valid| == 0 then None
      else Some(Table(valid, MapSeq(t.value.rows, (row: LogRow) => Project(row, valid))))
  }

  /** Projecting again on the same request changes nothing. */
  lemma FilterByColumnsIdempotent(t: Table, columns: seq<string>)
    ensures FilterByColumns(FilterByColumns(Some(t), Some(columns)), Some(columns)) ==
            FilterByColumns(Some(t), Some(columns))
  {
    var once := FilterByColumns(Some(t), Some(columns));
    if once.Some? {
      var valid := once.value.columns;
      FilterExtensional(columns, (c: string) => c in valid, (c: string) => c in t.columns);
      var rows := once.value.rows;
      var again := MapSeq(rows, (row: LogRow) => Project(row, valid));
      forall i | 0 <= i < |rows| ensures again[i] == rows[i] {
        assert Project(rows[i], valid) == rows[i];
      }
      assert again == rows;
    }
  }

  // ---------------------------------------------------------------------
  // De-duplication by (pod, node, template)
  // ---------------------------------------------------------------------

  datatype Key = Key(pod: Value, node: Value, template: Value)

  /** The group key of a row; rows with a null key field belong to no group. */
  function KeyOf(row: LogRow): Option<Key> {
    var p, n, t := Cell(row, PodColumn), Cell(row, NodeColumn), Cell(row, TemplateColumn);
    if p != Null && n != Null && t != Null then Some(Key(p, n, t)) else None
  }

  /** The keys of the keyed rows, in row order. */
  function Keys(rows: seq<LogRow>): seq<Key> {
    Somes(MapSeq(rows, KeyOf))
  }

  function Group(rows: seq<LogRow>, k: Key): seq<LogRow> {
    Filter(rows, (row: LogRow) => KeyOf(row) == Some(k))
  }

  /** The first non-null cell of column `c`, as `GroupBy.first()` takes it. */
  function FirstNonNull(rows: seq<LogRow>, c: string): (v: Value)
    ensures v == Null <==> forall i :: 0 <= i < |rows| ==> Cell(rows[i], c) == Null
    ensures v != Null ==> exists i :: 0 <= i < |rows| && Cell(rows[i], c) == v &&
                                      forall j :: 0 <= j < i ==> Cell(rows[j], c) == Null
    decreases |rows|
  {
    if |rows| == 0 then Null
    else if Cell(rows[0], c) != Null then Cell(rows[0], c)
    else
      var v := FirstNonNull(rows[1..], c);
      assert forall i :: 1 <= i < |rows| ==> rows[i] == rows[1..][i - 1];
      v
  }

  /** The columns of the de-duplicated table: the key columns first, the
      other input columns, then the count. */
  function DedupColumns(columns: seq<string>): seq<string> {
    [PodColumn, NodeColumn, TemplateColumn] +
    Filter(columns, (c: string) => c != PodColumn && c != NodeColumn && c != TemplateColumn && c != CountColumn) +
    [CountColumn]
  }

  /** The single row kept for key `k`. */
  function DedupRow(t: Table, k: Key): LogRow {
    var g := Group(t.rows, k);
    (map c | c in t.columns :: FirstNonNull(g, c))[CountColumn := IntV(|g|)]
  }

  /** `_deduplicate_pod_template_combination`. Groups appear in order of
      first occurrence, where pandas orders them by key. */
  function Dedup(t: Option<Table>): (r: Option<Table>)
    ensures r.None? <==>
              || t.None? || |t.value.rows| == 0
              || PodColumn !in t.value.columns || NodeColumn !in t.value.columns
              || TemplateColumn !in t.value.columns
    ensures r.Some? ==> |r.value.rows| == |Distinct(Keys(t.value.rows))| <= |t.value.rows|
  {
    if t.None? || |t.value.rows| == 0 then None
    else if PodColumn !in t.value.columns || NodeColumn !in t.value.columns || TemplateColumn !in t.value.columns then None
    else
      var ks := Distinct(Keys(t.value.rows));
      Some(Table(DedupColumns(t.value.columns), MapSeq(ks, (k: Key) => DedupRow(t.value, k))))
  }

  predicate HasKeyColumns(t: Table) {
    PodColumn in t.columns && NodeColumn in t.columns && TemplateColumn in t.columns
  }

  lemma FirstNonNullOfGroup(rows: seq<LogRow>, c: string, v: Value)
    requires |rows| > 0 && v != Null
    requires forall i :: 0 <= i < |rows| ==> Cell(rows[i], c) == v
    ensures FirstNonNull(rows, c) == v
  {
  }

  /** The row kept for a key carries that key. */
  lemma DedupRowKey(t: Table, k: Key)
    requires HasKeyColumns(t) && k in Keys(t.rows)
    ensures KeyOf(DedupRow(t, k)) == Some(k)
  {
    var g := Group(t.rows, k);
    var ks := MapSeq(t.rows, KeyOf);
    var i :| 0 <= i < |ks| && ks[i] == Some(k);
    assert t.rows[i] in g;
    assert g[0] in g;
    forall j | 0 <= j < |g| ensures KeyOf(g[j]) == Some(k) {
      assert g[j] in g;
    }
    FirstNonNullOfGroup(g, PodColumn, k.pod);
    FirstNonNullOfGroup(g, NodeColumn, k.node);
    FirstNonNullOfGroup(g, TemplateColumn, k.template);
  }

  /** One row per distinct key: the kept rows carry exactly the keys found
      in the input, each once. */
  lemma DedupOneRowPerKey(t: Table)
    requires Dedup(Some(t)).Some?
    ensures var out := Dedup(Some(t)).value.rows;
            && (forall i :: 0 <= i < |out| ==> KeyOf(out[i]).Some?)
            && (forall i, j :: 0 <= i < j < |out| ==> KeyOf(out[i]) != KeyOf(out[j]))
            && (forall k :: k in Keys(t.rows) <==> exists i :: 0 <= i < |out| && KeyOf(out[i]) == Some(k))
  {
    var ks := Distinct(Keys(t.rows));
    var out := Dedup(Some(t)).value.rows;
    forall i | 0 <= i < |out| ensures KeyOf(out[i]) == Some(ks[i]) {
      DedupRowKey(t, ks[i]);
    }
  }

  /** Every other input column of a kept row holds the first non-null
      value of that column within its group (`GroupBy.first()`). */
  lemma DedupFields(t: Table, i: nat, c: string)
    requires Dedup(Some(t)).Some? && i < |Dedup(Some(t)).value.rows|
    requires c in t.columns && c != CountColumn
    ensures Cell(Dedup(Some(t)).value.rows[i], c) == FirstNonNull(Group(t.rows, Distinct(Keys(t.rows))[i]), c)
    ensures c in Dedup(Some(t)).value.columns
  {
    var others := Filter(t.columns, (x: string) => x != PodColumn && x != NodeColumn && x != TemplateColumn && x != CountColumn);
    if c != PodColumn && c != NodeColumn && c != TemplateColumn {
      assert c in others;
    }
  }

  /** Occurrences of a key among the keys equal the size of its group. */
  lemma {:induction false} CountIsGroupSize(rows: seq<LogRow>, k: Key)
    ensures Count(Keys(rows), k) == |Group(rows, k)|
    decreases |rows|
  {
    if |rows| > 0 {
      CountIsGroupSize(rows[1..], k);
      assert MapSeq(rows, KeyOf)[1..] == MapSeq(rows[1..], KeyOf);
      assert rows == [rows[0]] + rows[1..];
      FilterAppend([rows[0]], rows[1..], (row: LogRow) => KeyOf(row) == Some(k));
      var head := if KeyOf(rows[0]).Some? then [KeyOf(rows[0]).value] else [];
      assert Keys(rows) == head + Keys(rows[1..]);
      CountAppend(head, Keys(rows[1..]), k);
    }
  }

  /** The `occurrence_count` of a kept row, read back as a number. */
  function CountOf(row: LogRow): nat {
    var v := Cell(row, CountColumn);
    if v.IntV? && v.i >= 0 then v.i else 0
  }

  /** Each kept row counts the input rows sharing its key. */
  lemma DedupCount(t: Table, i: nat)
    requires Dedup(Some(t)).Some? && i < |Dedup(Some(t)).value.rows|
    ensures var k := Distinct(Keys(t.rows))[i];
            && KeyOf(Dedup(Some(t)).value.rows[i]) == Some(k)
            && CountOf(Dedup(Some(t)).value.rows[i]) == Count(Keys(t.rows), k) == |Group(t.rows, k)|
  {
    var k := Distinct(Keys(t.rows))[i];
    DedupRowKey(t, k);
    CountIsGroupSize(t.rows, k);
  }

  /** The counts of the kept rows add up to the number of keyed input rows. */
  lemma DedupCountsSum(t: Table)
    requires Dedup(Some(t)).Some?
    ensures SumOver(Dedup(Some(t)).value.rows, CountOf) == |Keys(t.rows)|
  {
    var ks := Distinct(Keys(t.rows));
    SumOverKept(t, ks);
    SumCountsCoversAll(ks, Keys(t.rows));
  }

  lemma {:induction false} SumOverKept(t: Table, ks: seq<Key>)
    ensures SumOver(MapSeq(ks, (k: Key) => DedupRow(t, k)), CountOf) == SumCounts(ks, Keys(t.rows))
    decreases |ks|
  {
    if |ks| > 0 {
      SumOverKept(t, ks[1..]);
      assert MapSeq(ks, (k: Key) => DedupRow(t, k))[1..] == MapSeq(ks[1..], (k: Key) => DedupRow(t, k));
      CountIsGroupSize(t.rows, ks[0]);
    }
  }

  // ---------------------------------------------------------------------
  // Service name of a pod
  // ---------------------------------------------------------------------

  predicate IsAlnum(ch: char) {
    ('a' <= ch <= 'z') || ('A' <= ch <= 'Z') || ('0' <= ch <= '9')
  }

  /** Length of the leading run of ASCII letters and digits. */
  function AlnumRun(s: string): (n: nat)
    ensures n <= |s|
    ensures forall i :: 0 <= i < n ==> IsAlnum(s[i])
    ensures n == |s| || !IsAlnum(s[n])
    decreases |s|
  {
    if |s| == 0 || !IsAlnum(s[0]) then 0
    else
      var n := AlnumRun(s[1..]);
      assert forall i :: 1 <= i < n + 1 ==> s[i] == s[1..][i - 1];
      n + 1
  }

  /** `_extract_service_name`: the leading `[a-zA-Z0-9]+` match, or the
      name itself when it does not start with one. */
  function ExtractServiceName(pod: Option<string>): (r: Option<string>)
    ensures r.None? <==> pod.None?
    ensures pod.Some? && (|pod.value| == 0 || !IsAlnum(pod.value[0])) ==> r == pod
    ensures pod.Some? && |pod.value| > 0 && IsAlnum(pod.value[0]) ==>
              var s, n := pod.value, r.value;
              && 0 < |n| <= |s| && n == s[..|n|]
              && (forall i :: 0 <= i < |n| ==> IsAlnum(n[i]))
              && (|n| == |s| || !IsAlnum(s[|n|]))
  {
    match pod
    case None => None
    case Some(s) =>
      var n := AlnumRun(s);
      if n == 0 then Some(s) else Some(s[..n])
  }

  /** Extracting twice gives the same name. */
  lemma ExtractServiceNameIdempotent(pod: Option<string>)
    ensures ExtractServiceName(ExtractServiceName(pod)) == ExtractServiceName(pod)
  {
    if pod.Some? && AlnumRun(pod.value) > 0 {
      var n := ExtractServiceName(pod).value;
      assert AlnumRun(n) == |n|;
      assert n[..|n|] == n;
    }
  }

  /** `frontend-1` belongs to `frontend`. */
  lemma ServiceNameOfFrontend(pod: string)
    requires pod == "frontend-1"
    ensures ExtractServiceName(Some(pod)) == Some("frontend")
  {
    assert pod == "frontend" + "-1";
    assert forall i :: 0 <= i < 8 ==> IsAlnum(pod[i]);
    RunEndsAt(pod, 8);
  }

  /** `redis-cart-0` yields `redis`, not `redis-cart`: the match stops at
      the first dash. */
  lemma ServiceNameOfRedisCart(pod: string)
    requires pod == "redis-cart-0"
    ensures ExtractServiceName(Some(pod)) == Some("redis")
  {
    assert pod == "redis" + "-cart-0";
    assert forall i :: 0 <= i < 5 ==> IsAlnum(pod[i]);
    RunEndsAt(pod, 5);
  }

  lemma RunEndsAt(s: string, n: nat)
    requires 0 < n < |s| && !IsAlnum(s[n])
    requires forall i :: 0 <= i < n ==> IsAlnum(s[i])
    ensures AlnumRun(s) == n
  {
  }

  // ---------------------------------------------------------------------
  // The refined log table
  // ---------------------------------------------------------------------

  /** One line of the refined table: node, service, pod, message, count. */
  datatype RefinedRow = RefinedRow(node: Value, service: Value, pod: Value, message: Value, count: nat)

  /** The service cell derived from a pod cell; only string pods have one
      to derive. */
  function ServiceCell(pod: Value): Value {
    if pod.StrV? then StrV(ExtractServiceName(Some(pod.s)).value) else pod
  }

  function Shape(row: LogRow): RefinedRow {
    RefinedRow(Cell(row, NodeColumn), ServiceCell(Cell(row, PodColumn)), Cell(row, PodColumn),
               Cell(row, MessageColumn), CountOf(row))
  }

  /** The final table: every de-duplicated row, shaped, most frequent first. */
  function Refine(t: Table): (r: seq<RefinedRow>)
    ensures NonIncreasing(r, (x: RefinedRow) => x.count)
    ensures multiset(r) == multiset(MapSeq(t.rows, Shape))
  {
    SortDesc(MapSeq(t.rows, Shape), (x: RefinedRow) => x.count)
  }

  /** The columns requested of the error lines before template mining. */
  const RequestedColumns: seq<string> := ["time_beijing", PodColumn, MessageColumn, NodeColumn]

  /** `log_refinement` after the table is read: time filter, error filter,
      projection, template mining, de-duplication and shaping. The error
      filter and the template miner are supplied from outside. */
  function LogRefinement(t: Option<Table>, start: int, end: int,
                         errorFilter: Table -> Option<Table>, miner: Table -> Option<Table>): (r: Option<seq<RefinedRow>>)
    ensures t.None? ==> r.None?
    ensures r.Some? ==> t.Some? && TimestampColumn in t.value.columns
    ensures r.Some? ==> NonIncreasing(r.value, (x: RefinedRow) => x.count)
  {
    var timed := FilterByTimeRange(start, end, t);
    if timed.None? then None
    else
      var errors := errorFilter(timed.value);
      if errors.None? then None
      else
        var projected := FilterByColumns(errors, Some(RequestedColumns));
        if projected.None? then None
        else
          var mined := miner(projected.value);
          if mined.None? then None
          else
            var deduped := Dedup(mined);
            if deduped.None? then None
            else Some(Refine(deduped.value))
  }

  /** A non-empty table with keyed rows de-duplicates to at least one row;
      a table none of whose rows is keyed de-duplicates to none. */
  lemma DedupNonEmpty(t: Table)
    requires Dedup(Some(t)).Some?
    ensures |Dedup(Some(t)).value.rows| > 0 <==> |Keys(t.rows)| > 0
  {
    var ks := Keys(t.rows);
    if |ks| > 0 {
      assert ks[0] in Distinct(ks);
    }
    if |Distinct(ks)| > 0 {
      assert Distinct(ks)[0] in ks;
    }
  }
}
