/** One pass of the engine over fault interval `i`: resolve the baseline
    windows, then run the service, TiDB, node and pod analyses over the
    metric tables of the fault's date. */
module Refinement {
  import opened Wrappers
  import opened Catalog
  import opened Windows
  import opened Summary
  import opened Sides
  import opened Infra
  import opened Tidb
  import opened Services

  /** The listed service and pod files and every per-metric table of the
      fault's date. */
  datatype MetricData = MetricData(services: seq<MetricFile>, pods: seq<MetricFile>, store: Store)

  /** The four result dictionaries the engine serialises. */
  datatype AnomalyRecord = AnomalyRecord(
    service: map<string, map<string, Comparison<Option<Stats>>>>,
    tidb: map<string, map<string, Comparison<Option<Summary>>>>,
    node: map<string, map<string, Comparison<Summary>>>,
    pod: map<(string, string), map<string, Comparison<Summary>>>)

  /** `metric_refinement`: the fault window is the one given by the caller,
      the baseline windows are those around interval `i`. */
  function MetricRefinement(faults: seq<FaultInterval>, i: nat, faultStart: int, faultEnd: int,
                            data: MetricData, shortlist: Shortlister): (r: AnomalyRecord)
    requires i < |faults|
    ensures r.tidb.Keys == set c | c in TidbComponents
    ensures forall node :: node in r.node ==> node in TargetNodes() && forall m :: m in r.node[node] ==> m in NodeMetrics
    ensures forall key :: key in r.pod ==> key.1 in TargetPods() && forall m :: m in r.pod[key] ==> m in PodMetrics
  {
    var date := faults[i].date;
    var windows := NormalPeriods(faults, i);
    var fault := Window(faultStart, faultEnd);
    NodesWithinCatalogue(data.store, NodeLayout(date), windows, fault);
    PodsWithinCatalogue(data.store, PodLayout(date), windows, fault);
    AnomalyRecord(
      AnalyzeServices(data.services, data.pods, windows, fault, shortlist),
      AnalyzeTidb(data.store, date, windows, fault),
      AnalyzeNodes(data.store, NodeLayout(date), windows, fault),
      AnalyzePods(data.store, PodLayout(date), windows, fault))
  }
}
