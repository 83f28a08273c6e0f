/** The two-sided statistics every analysis path computes for one entity:
    `get_metrics_stats` over the concatenated baseline slices and over the
    fault window, each side absent when no row falls in it. */
module Sides {
  import opened Wrappers
  import opened Windows
  import opened Frames
  import opened Summary

  /** Baseline and fault-period statistics of one entity. */
  datatype Comparison<S> = Comparison(normal: S, fault: S)

  /** The result of `get_metrics_stats`: a summary per metric. */
  type Stats = map<string, Summary>

  predicate InBaseline(row: Row, windows: seq<Window>) {
    exists w :: w in windows && Contains(w, row.timestampNs)
  }

  /** The concatenated baseline slices are non-empty exactly when some row
      lies in some baseline window (`if all_normal_data:`). */
  lemma BaselineNonEmpty(rows: seq<Row>, windows: seq<Window>)
    ensures |NormalRows(rows, windows)| > 0 <==> exists row :: row in rows && InBaseline(row, windows)
  {
    if exists row :: row in rows && InBaseline(row, windows) {
      var row :| row in rows && InBaseline(row, windows);
      NormalRowsMembers(rows, windows, row);
    }
    if |NormalRows(rows, windows)| > 0 {
      NormalRowsMembers(rows, windows, NormalRows(rows, windows)[0]);
    }
  }

  /** Statistics of `metrics` over the baseline rows and over the fault rows. */
  function SideStats(f: Frame, windows: seq<Window>, fault: Window, metrics: seq<string>): (r: Comparison<Option<Stats>>)
    ensures r.normal.Some? <==> exists row :: row in f.rows && InBaseline(row, windows)
    ensures r.fault.Some? <==> exists row :: row in f.rows && Contains(fault, row.timestampNs)
    ensures r.normal.Some? ==> r.normal.value == MetricsStats(Frame(f.columns, NormalRows(f.rows, windows)), metrics)
    ensures r.fault.Some? ==> r.fault.value == MetricsStats(Frame(f.columns, RowsIn(f.rows, fault)), metrics)
  {
    var normal := NormalRows(f.rows, windows);
    var faulty := RowsIn(f.rows, fault);
    BaselineNonEmpty(f.rows, windows);
    assert |faulty| > 0 ==> faulty[0] in faulty;
    Comparison(
      if |normal| > 0 then Some(MetricsStats(Frame(f.columns, normal), metrics)) else None,
      if |faulty| > 0 then Some(MetricsStats(Frame(f.columns, faulty), metrics)) else None)
  }

  /** The summaries of one metric on both sides (`desc.get(metric)`): a
      side is present when it has rows and the metric is a column. */
  function MetricSides(f: Frame, windows: seq<Window>, fault: Window, metric: string): (r: Comparison<Option<Summary>>)
    ensures r.normal.Some? <==> metric in f.columns && exists row :: row in f.rows && InBaseline(row, windows)
    ensures r.fault.Some? <==> metric in f.columns && exists row :: row in f.rows && Contains(fault, row.timestampNs)
    ensures r.normal.Some? ==> r.normal.value == Summarize(Samples(NormalRows(f.rows, windows), metric))
    ensures r.fault.Some? ==> r.fault.value == Summarize(Samples(RowsIn(f.rows, fault), metric))
  {
    var s := SideStats(f, windows, fault, [metric]);
    Comparison(
      if s.normal.Some? then Lookup(s.normal.value, metric) else None,
      if s.fault.Some? then Lookup(s.fault.value, metric) else None)
  }
}
