/** The TiDB path: every core metric of every TiDB component whose file
    is present and non-empty is summarised on both sides and recorded,
    with no ratio filter. */
module Tidb {
  import opened Wrappers
  import opened Catalog
  import opened Windows
  import opened Frames
  import opened Summary
  import opened Sides
  import opened Infra

  /** `load_tidb_service_data`: absent for an unknown component or metric,
      a missing file or an empty table. */
  function LoadTidb(store: Store, date: string, component: string, metric: string): (r: Option<Frame>)
    ensures r.Some? ==> component in TidbDirectories() && |r.value.rows| > 0
  {
    var dirs := TidbDirectories();
    if component !in dirs then None
    else
      var files := TidbFilesMapping(date);
      if component !in files || metric !in files[component] then None
      else
        var path := dirs[component] + "/" + files[component][metric];
        if path !in store || |store[path].rows| == 0 then None else Some(store[path])
  }

  /** Where the file of a TiDB metric lives below the date's metric directory. */
  function TidbPath(date: string, component: string, metric: string): string
    requires component in TidbDirectories()
  {
    TidbDirectories()[component] + "/" + MetricFileName(TidbFilePrefix(component), metric, date)
  }

  /** A core metric is never skipped for want of a file name: it loads
      exactly when its file is present and holds rows. */
  lemma TidbLoadsCoreMetric(store: Store, date: string, c: string, m: string)
    requires c in TidbCoreMetrics() && m in TidbCoreMetrics()[c]
    ensures c in TidbDirectories()
    ensures LoadTidb(store, date, c, m).Some? <==>
              TidbPath(date, c, m) in store && |store[TidbPath(date, c, m)].rows| > 0
    ensures LoadTidb(store, date, c, m).Some? ==> LoadTidb(store, date, c, m).value == store[TidbPath(date, c, m)]
  {
    TidbFilesCoverCoreMetrics(date);
    TidbComponentFiles(date, c);
  }

  /** `analyze_tidb_metrics`, skipping (instead of failing on) a metric
      whose table cannot be loaded: component -> metric -> both sides. */
  function AnalyzeTidb(store: Store, date: string, windows: seq<Window>, fault: Window): (r: map<string, map<string, Comparison<Option<Summary>>>>)
    ensures r.Keys == set c | c in TidbComponents
  {
    var core := TidbCoreMetrics();
    map c | c in core ::
      map m | m in core[c] && LoadTidb(store, date, c, m).Some? ::
        MetricSides(LoadTidb(store, date, c, m).value, windows, fault, m)
  }

  /** Every component appears; a core metric appears exactly when its file
      is present and non-empty, whatever its statistics, and holds the
      summaries of its baseline and fault rows (each side present when the
      side has rows and the metric is a column). */
  lemma TidbReport(store: Store, date: string, windows: seq<Window>, fault: Window, c: string, m: string)
    requires c in TidbComponents
    ensures c in AnalyzeTidb(store, date, windows, fault)
    ensures c in TidbDirectories()
    ensures m in AnalyzeTidb(store, date, windows, fault)[c] <==>
              m in TidbCoreMetrics()[c] && TidbPath(date, c, m) in store && |store[TidbPath(date, c, m)].rows| > 0
    ensures m in AnalyzeTidb(store, date, windows, fault)[c] ==>
              var f := store[TidbPath(date, c, m)];
              var v := AnalyzeTidb(store, date, windows, fault)[c][m];
              && (v.normal.Some? <==> m in f.columns && exists row :: row in f.rows && InBaseline(row, windows))
              && (v.fault.Some? <==> m in f.columns && exists row :: row in f.rows && Contains(fault, row.timestampNs))
              && (v.normal.Some? ==> v.normal.value == Summarize(Samples(NormalRows(f.rows, windows), m)))
              && (v.fault.Some? ==> v.fault.value == Summarize(Samples(RowsIn(f.rows, fault), m)))
  {
    assert c in TidbCoreMetrics();
    if m in TidbCoreMetrics()[c] {
      TidbLoadsCoreMetric(store, date, c, m);
    }
  }
}
