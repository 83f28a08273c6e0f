/** The service path: each service's key metrics are summarised on both
    sides, an external reasoner shortlists the metrics worth a closer
    look, and only then are the service's pods summarised, over the
    shortlisted metrics alone. */
module Services {
  import opened Wrappers
  import opened Sequences
  import opened Catalog
  import opened Windows
  import opened Frames
  import opened Summary
  import opened Results
  import opened Sides
  import opened Names

  /** A file listed in a metric directory, with its table. */
  datatype MetricFile = MetricFile(name: string, frame: Frame)

  /** The coarse tier: from the baseline and fault statistics of a
      service's key metrics, the names of the metrics to drill into. It is
      supplied from outside and nothing is assumed about its answers. */
  type Shortlister = (Option<Stats>, Option<Stats>) -> seq<string>

  /** The shortlist obtained for one service file. */
  function Picked(svc: MetricFile, windows: seq<Window>, fault: Window, shortlist: Shortlister): seq<string> {
    var s := SideStats(svc.frame, windows, fault, KeyMetrics);
    shortlist(s.normal, s.fault)
  }

  /** A pod file belongs to the drill-down of `service` when the pod's name
      starts with the service's name and its table has rows. */
  predicate DrillsInto(service: string, pod: MetricFile) {
    StartsWith(EntityName(pod.name), service) && |pod.frame.rows| > 0
  }

  /** Every summary of a comparison is of a shortlisted metric. */
  predicate OnlyPicked(c: Comparison<Option<Stats>>, picked: seq<string>) {
    && (c.normal.Some? ==> forall m :: m in c.normal.value ==> m in picked)
    && (c.fault.Some? ==> forall m :: m in c.fault.value ==> m in picked)
  }

  function PodCell(service: string, windows: seq<Window>, fault: Window, picked: seq<string>, pod: MetricFile): Option<Entry<string, string, Comparison<Option<Stats>>>> {
    if DrillsInto(service, pod)
    then Some(Entry(service, EntityName(pod.name), SideStats(pod.frame, windows, fault, picked)))
    else None
  }

  /** The pod-level drill-down of one service: one cell per matching pod
      file, holding the statistics of the shortlisted metrics only. */
  function DrillDown(service: string, pods: seq<MetricFile>, windows: seq<Window>, fault: Window, picked: seq<string>): (r: seq<Entry<string, string, Comparison<Option<Stats>>>>)
    ensures |r| <= |pods|
    ensures forall e :: e in r <==>
              exists p :: p in pods && DrillsInto(service, p) &&
                          e == Entry(service, EntityName(p.name), SideStats(p.frame, windows, fault, picked))
    ensures forall e :: e in r ==> e.outer == service && StartsWith(e.inner, service) && OnlyPicked(e.value, picked)
  {
    Cells(pods, (p: MetricFile) => PodCell(service, windows, fault, picked, p))
  }

  /** Number of metric summaries on one side. */
  function SideCount(o: Option<Stats>): nat {
    if o.Some? then |o.value.Keys| else 0
  }

  /** The drill-down is bounded: at most |pods| x |shortlist| summaries on
      each side. */
  lemma DrillDownCost(service: string, pods: seq<MetricFile>, windows: seq<Window>, fault: Window, picked: seq<string>)
    ensures var r := DrillDown(service, pods, windows, fault, picked);
            SumOver(r, (e: Entry<string, string, Comparison<Option<Stats>>>) => SideCount(e.value.normal)) <= |pods| * |picked|
    ensures var r := DrillDown(service, pods, windows, fault, picked);
            SumOver(r, (e: Entry<string, string, Comparison<Option<Stats>>>) => SideCount(e.value.fault)) <= |pods| * |picked|
  {
    var r := DrillDown(service, pods, windows, fault, picked);
    SetOfSeqSize(picked);
    forall i | 0 <= i < |r|
      ensures SideCount(r[i].value.normal) <= |picked| && SideCount(r[i].value.fault) <= |picked|
    {
      assert r[i] in r;
      OnlyPickedCount(r[i].value, picked);
    }
    SumOverBound(r, (e: Entry<string, string, Comparison<Option<Stats>>>) => SideCount(e.value.normal), |picked|);
    SumOverBound(r, (e: Entry<string, string, Comparison<Option<Stats>>>) => SideCount(e.value.fault), |picked|);
    ProductMonotone(|r|, |pods|, |picked|);
  }

  lemma OnlyPickedCount(c: Comparison<Option<Stats>>, picked: seq<string>)
    requires OnlyPicked(c, picked)
    ensures SideCount(c.normal) <= |picked| && SideCount(c.fault) <= |picked|
  {
    SetOfSeqSize(picked);
    if c.normal.Some? {
      SubsetSize(c.normal.value.Keys, set m | m in picked);
    }
    if c.fault.Some? {
      SubsetSize(c.fault.value.Keys, set m | m in picked);
    }
  }

  lemma ProductMonotone(a: nat, b: nat, c: nat)
    requires a <= b
    ensures a * c <= b * c
  {
  }

  /** The cells of one service file: nothing for an empty table or an
      empty shortlist, otherwise the drill-down into its pods. */
  function ServiceCells(svc: MetricFile, pods: seq<MetricFile>, windows: seq<Window>, fault: Window, shortlist: Shortlister): (r: seq<Entry<string, string, Comparison<Option<Stats>>>>)
    ensures r != [] ==> |svc.frame.rows| > 0 && |Picked(svc, windows, fault, shortlist)| > 0
  {
    if |svc.frame.rows| == 0 then []
    else
      var picked := Picked(svc, windows, fault, shortlist);
      if |picked| == 0 then [] else DrillDown(EntityName(svc.name), pods, windows, fault, picked)
  }

  function ServicesCells(services: seq<MetricFile>, pods: seq<MetricFile>, windows: seq<Window>, fault: Window, shortlist: Shortlister): seq<Entry<string, string, Comparison<Option<Stats>>>> {
    FlatMap(services, (svc: MetricFile) => ServiceCells(svc, pods, windows, fault, shortlist))
  }

  /** `analyze_service_metrics` with fresh per-service state and
      accumulating results: service -> pod -> both sides' statistics. */
  function AnalyzeServices(services: seq<MetricFile>, pods: seq<MetricFile>, windows: seq<Window>, fault: Window, shortlist: Shortlister): map<string, map<string, Comparison<Option<Stats>>>> {
    Nest(ServicesCells(services, pods, windows, fault, shortlist))
  }

  /** `analyze_service_metrics` as written: a service's dictionary is
      re-created for every pod, so it ends with a single pod. */
  function AnalyzeServicesAsWritten(services: seq<MetricFile>, pods: seq<MetricFile>, windows: seq<Window>, fault: Window, shortlist: Shortlister): (r: map<string, map<string, Comparison<Option<Stats>>>>)
    ensures forall name :: name in r ==> |r[name].Keys| == 1
  {
    var cells := ServicesCells(services, pods, windows, fault, shortlist);
    forall name | name in NestOverwrite(cells) ensures |NestOverwrite(cells)[name].Keys| == 1 {
      OverwriteKeepsOne(cells, name);
    }
    NestOverwrite(cells)
  }

  /** A service drills into a pod exactly when some listed service file
      of that name has rows and a non-empty shortlist, and some pod file
      of that pod name matches it; every recorded pod holds only metrics
      that service's shortlist named. */
  lemma ServiceReport(services: seq<MetricFile>, pods: seq<MetricFile>, windows: seq<Window>, fault: Window, shortlist: Shortlister, name: string, pod: string)
    ensures var r := AnalyzeServices(services, pods, windows, fault, shortlist);
            (name in r && pod in r[name]) <==>
              && (exists svc :: svc in services && EntityName(svc.name) == name && |svc.frame.rows| > 0
                                && |Picked(svc, windows, fault, shortlist)| > 0)
              && (exists p :: p in pods && DrillsInto(name, p) && EntityName(p.name) == pod)
    ensures var r := AnalyzeServices(services, pods, windows, fault, shortlist);
            name in r && pod in r[name] ==>
              && StartsWith(pod, name)
              && exists svc :: svc in services && EntityName(svc.name) == name &&
                               OnlyPicked(r[name][pod], Picked(svc, windows, fault, shortlist))
  {
    var cells := ServicesCells(services, pods, windows, fault, shortlist);
    var r := Nest(cells);
    if name in r && pod in r[name] {
      assert Entry(name, pod, r[name][pod]) in cells;
      CellOfService(services, pods, windows, fault, shortlist, Entry(name, pod, r[name][pod]));
    }
    if && (exists svc :: svc in services && EntityName(svc.name) == name && |svc.frame.rows| > 0
                         && |Picked(svc, windows, fault, shortlist)| > 0)
       && (exists p :: p in pods && DrillsInto(name, p) && EntityName(p.name) == pod) {
      var svc :| svc in services && EntityName(svc.name) == name && |svc.frame.rows| > 0
                 && |Picked(svc, windows, fault, shortlist)| > 0;
      var p :| p in pods && DrillsInto(name, p) && EntityName(p.name) == pod;
      ServiceCellOf(services, pods, windows, fault, shortlist, svc, p);
    }
  }

  /** Every cell comes from a listed service with rows and a shortlist,
      and from a pod file matching it. */
  lemma CellOfService(services: seq<MetricFile>, pods: seq<MetricFile>, windows: seq<Window>, fault: Window, shortlist: Shortlister,
                      e: Entry<string, string, Comparison<Option<Stats>>>)
    requires e in ServicesCells(services, pods, windows, fault, shortlist)
    ensures exists svc :: svc in services && EntityName(svc.name) == e.outer && |svc.frame.rows| > 0
                          && |Picked(svc, windows, fault, shortlist)| > 0
                          && OnlyPicked(e.value, Picked(svc, windows, fault, shortlist))
    ensures StartsWith(e.inner, e.outer)
    ensures exists p :: p in pods && DrillsInto(e.outer, p) && EntityName(p.name) == e.inner
  {
    var svc :| svc in services && e in ServiceCells(svc, pods, windows, fault, shortlist);
    var picked := Picked(svc, windows, fault, shortlist);
    assert e in DrillDown(EntityName(svc.name), pods, windows, fault, picked);
  }

  /** A listed service with rows and a shortlist drills into every pod
      file that matches it. */
  lemma ServiceCellOf(services: seq<MetricFile>, pods: seq<MetricFile>, windows: seq<Window>, fault: Window, shortlist: Shortlister,
                      svc: MetricFile, p: MetricFile)
    requires svc in services && |svc.frame.rows| > 0 && |Picked(svc, windows, fault, shortlist)| > 0
    requires p in pods && DrillsInto(EntityName(svc.name), p)
    ensures Entry(EntityName(svc.name), EntityName(p.name), SideStats(p.frame, windows, fault, Picked(svc, windows, fault, shortlist)))
              in ServicesCells(services, pods, windows, fault, shortlist)
  {
    var e := Entry(EntityName(svc.name), EntityName(p.name), SideStats(p.frame, windows, fault, Picked(svc, windows, fault, shortlist)));
    assert e in ServiceCells(svc, pods, windows, fault, shortlist);
  }
}
