/** Metric tables as the engine reads them: rows carrying a nanosecond
    timestamp, string labels (node, pod, instance) and numeric metric
    columns, where a NaN cell is an absent key. */
module Frames {
  import opened Sequences
  import opened Windows

  datatype Row = Row(timestampNs: int, labels: map<string, string>, values: map<string, real>)

  /** A table: its column names and its rows in file order. */
  datatype Frame = Frame(columns: set<string>, rows: seq<Row>)

  predicate InWindow(w: Window, row: Row) {
    Contains(w, row.timestampNs)
  }

  /** The rows stamped inside `w`, in their original order. */
  function RowsIn(rows: seq<Row>, w: Window): (r: seq<Row>)
    ensures forall row :: row in r <==> row in rows && Contains(w, row.timestampNs)
    ensures forall row :: multiset(r)[row] == if Contains(w, row.timestampNs) then multiset(rows)[row] else 0
  {
    var inside := (row: Row) => InWindow(w, row);
    forall row ensures multiset(Filter(rows, inside))[row] == if inside(row) then multiset(rows)[row] else 0 {
      FilterMultiplicity(rows, inside, row);
    }
    Filter(rows, inside)
  }

  /** The per-window selections concatenated in window order (the
      `pd.concat` of every non-empty baseline slice). */
  function NormalRows(rows: seq<Row>, windows: seq<Window>): (r: seq<Row>)
    ensures |r| <= |windows| * |rows|
    ensures forall row :: row in r ==> row in rows
    decreases |windows|
  {
    if |windows| == 0 then []
    else
      var n := |windows| - 1;
      assert |windows| * |rows| == |rows| + n * |rows|;
      RowsIn(rows, windows[0]) + NormalRows(rows, windows[1..])
  }

  /** A row is in the baseline exactly when some baseline window holds it. */
  lemma {:induction false} NormalRowsMembers(rows: seq<Row>, windows: seq<Window>, row: Row)
    ensures row in NormalRows(rows, windows) <==>
              row in rows && exists w :: w in windows && Contains(w, row.timestampNs)
    decreases |windows|
  {
    if |windows| > 0 {
      NormalRowsMembers(rows, windows[1..], row);
      assert windows == [windows[0]] + windows[1..];
      if row in rows && exists w :: w in windows && Contains(w, row.timestampNs) {
        var w :| w in windows && Contains(w, row.timestampNs);
        if w != windows[0] {
          assert w in windows[1..];
        }
      }
    }
  }

  /** The baseline of a split window list is the baseline of the first
      part followed by that of the second. */
  lemma {:induction false} NormalRowsAppend(rows: seq<Row>, ws1: seq<Window>, ws2: seq<Window>)
    ensures NormalRows(rows, ws1 + ws2) == NormalRows(rows, ws1) + NormalRows(rows, ws2)
    decreases |ws1|
  {
    if |ws1| == 0 {
      assert ws1 + ws2 == ws2;
    } else {
      assert (ws1 + ws2)[0] == ws1[0];
      assert (ws1 + ws2)[1..] == ws1[1..] + ws2;
      NormalRowsAppend(rows, ws1[1..], ws2);
    }
  }

  /** The number of windows holding instant `t`. */
  function WindowsHolding(windows: seq<Window>, t: int): (n: nat)
    ensures n <= |windows|
    ensures n > 0 <==> exists w :: w in windows && Contains(w, t)
    decreases |windows|
  {
    if |windows| == 0 then 0
    else
      assert forall w :: w in windows <==> w == windows[0] || w in windows[1..] by {
        assert windows == [windows[0]] + windows[1..];
      }
      (if Contains(windows[0], t) then 1 else 0) + WindowsHolding(windows[1..], t)
  }

  /** Every copy of a row is taken once for each baseline window holding
      its timestamp, and nothing else is taken. */
  lemma {:induction false} NormalRowsMultiplicity(rows: seq<Row>, windows: seq<Window>, row: Row)
    ensures multiset(NormalRows(rows, windows))[row] == multiset(rows)[row] * WindowsHolding(windows, row.timestampNs)
    decreases |windows|
  {
    if |windows| > 0 {
      var t := row.timestampNs;
      var head, tail := RowsIn(rows, windows[0]), NormalRows(rows, windows[1..]);
      NormalRowsMultiplicity(rows, windows[1..], row);
      assert NormalRows(rows, windows) == head + tail;
      var m, k := multiset(rows)[row], WindowsHolding(windows[1..], t);
      assert multiset(tail)[row] == m * k;
      assert WindowsHolding(windows, t) == (if Contains(windows[0], t) then 1 else 0) + k;
      if Contains(windows[0], t) {
        assert multiset(head)[row] == m;
        OneMore(m, k);
      }
    }
  }

  lemma OneMore(m: int, k: int)
    ensures m + m * k == m * (1 + k)
  {
  }

  /** The non-NaN values of column `metric`, in row order. */
  function Samples(rows: seq<Row>, metric: string): (r: seq<real>)
    ensures |r| <= |rows|
    ensures |r| == 0 <==> forall row :: row in rows ==> metric !in row.values
    ensures forall x :: x in r ==> exists row :: row in rows && metric in row.values && row.values[metric] == x
    decreases |rows|
  {
    if |rows| == 0 then []
    else
      var rest := Samples(rows[1..], metric);
      assert forall row :: row in rows <==> row == rows[0] || row in rows[1..] by {
        assert rows == [rows[0]] + rows[1..];
      }
      (if metric in rows[0].values then [rows[0].values[metric]] else []) + rest
  }

  /** The samples of a split table are those of the first part followed by
      those of the second. */
  lemma {:induction false} SamplesAppend(a: seq<Row>, b: seq<Row>, metric: string)
    ensures Samples(a + b, metric) == Samples(a, metric) + Samples(b, metric)
    decreases |a|
  {
    if |a| == 0 {
      assert a + b == b;
    } else {
      assert (a + b)[0] == a[0];
      assert (a + b)[1..] == a[1..] + b;
      SamplesAppend(a[1..], b, metric);
    }
  }

  /** One row gives its cell when the cell is not NaN, and nothing else. */
  lemma SamplesOfRow(row: Row, metric: string)
    ensures Samples([row], metric) == if metric in row.values then [row.values[metric]] else []
  {
  }

  /** There is one sample per row whose cell is not NaN. */
  lemma {:induction false} SamplesCount(rows: seq<Row>, metric: string)
    ensures |Samples(rows, metric)| == |Filter(rows, (row: Row) => metric in row.values)|
    decreases |rows|
  {
    if |rows| > 0 {
      SamplesCount(rows[1..], metric);
    }
  }
}
