/** The infrastructure paths: every node metric of every target node and
    every pod metric of every (instance, pod) group is summarised on both
    sides, and reported only when the fine-tier rule calls it changed. */
module Infra {
  import opened Wrappers
  import opened Sequences
  import opened Catalog
  import opened Windows
  import opened Frames
  import opened Summary
  import opened Classifier
  import opened Results
  import opened Sides

  /** The metric tables of one fault date, keyed by their path below the
      date's metric directory. A missing key is a missing file. */
  type Store = map<string, Frame>

  const NodeDir: string := "infra/infra_node/"
  const PodDir: string := "infra/infra_pod/"
  const NodeLabel: string := "kubernetes_node"
  const PodLabel: string := "pod"
  const InstanceLabel: string := "instance"

  predicate HasLabel(row: Row, key: string, value: string) {
    key in row.labels && row.labels[key] == value
  }

  predicate LabelIn(row: Row, key: string, values: seq<string>) {
    key in row.labels && row.labels[key] in values
  }

  /** Reads the table at `path` and keeps the rows whose label `key` names a
      target entity; absent when the file is missing or nothing is left. */
  function LoadTargets(store: Store, path: string, key: string, targets: seq<string>): (r: Option<Frame>)
    ensures r.Some? <==> path in store && exists row :: row in store[path].rows && LabelIn(row, key, targets)
    ensures r.Some? ==> r.value.columns == store[path].columns
    ensures r.Some? ==> forall row :: row in r.value.rows <==> row in store[path].rows && LabelIn(row, key, targets)
  {
    if path !in store then None
    else
      var rows := Filter(store[path].rows, (row: Row) => LabelIn(row, key, targets));
      assert |rows| > 0 ==> rows[0] in rows;
      if |rows| == 0 then None else Some(Frame(store[path].columns, rows))
  }

  /** The loaded table keeps every copy of a target row and no copy of
      any other row. */
  lemma LoadTargetsMultiplicity(store: Store, path: string, key: string, targets: seq<string>, row: Row)
    requires LoadTargets(store, path, key, targets).Some?
    ensures multiset(LoadTargets(store, path, key, targets).value.rows)[row] ==
              if LabelIn(row, key, targets) then multiset(store[path].rows)[row] else 0
  {
    FilterMultiplicity(store[path].rows, (row: Row) => LabelIn(row, key, targets), row);
  }

  /** Where one analysis path finds its data: the target entities, the
      metric catalogue, the per-metric file names, the directory holding
      them and the label naming the entity in each row. */
  datatype Layout = Layout(targets: seq<string>, metrics: seq<string>, files: map<string, string>,
                           dir: string, labelName: string)

  /** The node path of one fault date. */
  function NodeLayout(date: string): (l: Layout)
    ensures l.targets == TargetNodes() && l.metrics == NodeMetrics && l.labelName == NodeLabel
  {
    Layout(TargetNodes(), NodeMetrics, NodeFilesMapping(date), NodeDir, NodeLabel)
  }

  /** The pod path of one fault date. */
  function PodLayout(date: string): (l: Layout)
    ensures l.targets == TargetPods() && l.metrics == PodMetrics && l.labelName == PodLabel
  {
    Layout(TargetPods(), PodMetrics, PodFilesMapping(date), PodDir, PodLabel)
  }

  /** `load_node_metric_data` and `load_pod_metric_data`: absent for an
      unmapped metric, a missing file or a table with no target rows;
      otherwise the table's rows of target entities. */
  function LoadMetric(store: Store, l: Layout, metric: string): (r: Option<Frame>)
    ensures r.Some? <==> metric in l.files && l.dir + l.files[metric] in store &&
                         exists row :: row in store[l.dir + l.files[metric]].rows && LabelIn(row, l.labelName, l.targets)
    ensures r.Some? ==> forall row :: row in r.value.rows <==>
                          row in store[l.dir + l.files[metric]].rows && LabelIn(row, l.labelName, l.targets)
  {
    if metric !in l.files then None
    else LoadTargets(store, l.dir + l.files[metric], l.labelName, l.targets)
  }

  /** The loaded table keeps every copy of a target row and no copy of
      any other row, so counts and means see the file's duplicates. */
  lemma LoadMetricMultiplicity(store: Store, l: Layout, metric: string, row: Row)
    requires LoadMetric(store, l, metric).Some?
    ensures multiset(LoadMetric(store, l, metric).value.rows)[row] ==
              if LabelIn(row, l.labelName, l.targets) then multiset(store[l.dir + l.files[metric]].rows)[row] else 0
  {
    LoadTargetsMultiplicity(store, l.dir + l.files[metric], l.labelName, l.targets, row);
  }

  /** The two sides of one node metric, absent when the node has no row. */
  function NodeSides(store: Store, l: Layout, windows: seq<Window>, fault: Window, node: string, metric: string): (r: Option<Comparison<Option<Summary>>>)
    ensures r.Some? ==> LoadMetric(store, l, metric).Some? &&
                        exists row :: row in LoadMetric(store, l, metric).value.rows && HasLabel(row, l.labelName, node)
  {
    match LoadMetric(store, l, metric)
    case None => None
    case Some(f) =>
      var rows := Filter(f.rows, (row: Row) => HasLabel(row, l.labelName, node));
      assert |rows| > 0 ==> rows[0] in rows;
      if |rows| == 0 then None else Some(MetricSides(Frame(f.columns, rows), windows, fault, metric))
  }

  /** A metric is reported when both sides exist and are judged changed. */
  predicate Reported(s: Option<Comparison<Option<Summary>>>) {
    s.Some? && FineTier(s.value.normal, s.value.fault) == Changed
  }

  function Unwrap(s: Option<Comparison<Option<Summary>>>): Comparison<Summary>
    requires Reported(s)
  {
    Comparison(s.value.normal.value, s.value.fault.value)
  }

  function NodeCell(store: Store, l: Layout, windows: seq<Window>, fault: Window, node: string, metric: string): (r: Option<Entry<string, string, Comparison<Summary>>>)
    ensures r.Some? <==> Reported(NodeSides(store, l, windows, fault, node, metric))
    ensures r.Some? ==> r.value == Entry(node, metric, Unwrap(NodeSides(store, l, windows, fault, node, metric)))
  {
    var s := NodeSides(store, l, windows, fault, node, metric);
    if Reported(s) then Some(Entry(node, metric, Unwrap(s))) else None
  }

  function NodeCells(store: Store, l: Layout, windows: seq<Window>, fault: Window): seq<Entry<string, string, Comparison<Summary>>> {
    Somes(MapSeq(Product(l.targets, l.metrics),
      (p: (string, string)) => NodeCell(store, l, windows, fault, p.0, p.1)))
  }

  /** `analyze_node_metrics` with fresh per-metric state and accumulating
      results: node -> metric -> both summaries. */
  function AnalyzeNodes(store: Store, l: Layout, windows: seq<Window>, fault: Window): map<string, map<string, Comparison<Summary>>> {
    Nest(NodeCells(store, l, windows, fault))
  }

  /** `analyze_node_metrics` as written: each node's dictionary is
      re-created for every reported metric. */
  function AnalyzeNodesAsWritten(store: Store, l: Layout, windows: seq<Window>, fault: Window): (r: map<string, map<string, Comparison<Summary>>>)
    ensures forall node :: node in r ==> |r[node].Keys| == 1
  {
    var cells := NodeCells(store, l, windows, fault);
    forall node | node in NestOverwrite(cells) ensures |NestOverwrite(cells)[node].Keys| == 1 {
      OverwriteKeepsOne(cells, node);
    }
    NestOverwrite(cells)
  }

  lemma NodeCellMembers(store: Store, l: Layout, windows: seq<Window>, fault: Window, e: Entry<string, string, Comparison<Summary>>)
    ensures e in NodeCells(store, l, windows, fault) <==>
              && e.outer in l.targets && e.inner in l.metrics
              && NodeCell(store, l, windows, fault, e.outer, e.inner) == Some(e)
  {
    var ps := Product(l.targets, l.metrics);
    var f := (p: (string, string)) => NodeCell(store, l, windows, fault, p.0, p.1);
    var cells := MapSeq(ps, f);
    if e in NodeCells(store, l, windows, fault) {
      assert Some(e) in cells;
      var i :| 0 <= i < |cells| && cells[i] == Some(e);
      assert (ps[i].0, ps[i].1) in ps;
    }
    if e.outer in l.targets && e.inner in l.metrics && NodeCell(store, l, windows, fault, e.outer, e.inner) == Some(e) {
      assert (e.outer, e.inner) in ps;
      var i :| 0 <= i < |ps| && ps[i] == (e.outer, e.inner);
      assert cells[i] == Some(e);
    }
  }

  /** A node metric appears in the result exactly when the node is a
      target, the metric is catalogued and the two sides are judged
      changed; the recorded value is those two summaries. */
  lemma NodeReport(store: Store, l: Layout, windows: seq<Window>, fault: Window, node: string, metric: string)
    ensures var r := AnalyzeNodes(store, l, windows, fault);
            (node in r && metric in r[node]) <==>
              node in l.targets && metric in l.metrics && Reported(NodeSides(store, l, windows, fault, node, metric))
    ensures var r := AnalyzeNodes(store, l, windows, fault);
            node in r && metric in r[node] ==> r[node][metric] == Unwrap(NodeSides(store, l, windows, fault, node, metric))
  {
    var cells := NodeCells(store, l, windows, fault);
    var r := Nest(cells);
    if node in r && metric in r[node] {
      var e :| e in cells && e.outer == node && e.inner == metric;
      NodeCellMembers(store, l, windows, fault, e);
    }
    if node in l.targets && metric in l.metrics && Reported(NodeSides(store, l, windows, fault, node, metric)) {
      var v := Unwrap(NodeSides(store, l, windows, fault, node, metric));
      NodeCellMembers(store, l, windows, fault, Entry(node, metric, v));
      forall e | e in cells && e.outer == node && e.inner == metric ensures e.value == v {
        NodeCellMembers(store, l, windows, fault, e);
      }
      NestValue(cells, node, metric, v);
    }
  }

  /** The `groupby(['instance', 'pod'])` key of a row; rows missing either
      label belong to no group. */
  function GroupKey(row: Row): Option<(string, string)> {
    if InstanceLabel in row.labels && PodLabel in row.labels
    then Some((row.labels[InstanceLabel], row.labels[PodLabel]))
    else None
  }

  /** The distinct group keys of a table, in order of first occurrence. */
  function PodGroups(rows: seq<Row>): (r: seq<(string, string)>)
    ensures NoDuplicates(r)
    ensures forall k :: k in r <==> exists row :: row in rows && GroupKey(row) == Some(k)
  {
    var keys := MapSeq(rows, GroupKey);
    var r := Distinct(Somes(keys));
    forall k | k in r ensures exists row :: row in rows && GroupKey(row) == Some(k) {
      var i :| 0 <= i < |keys| && keys[i] == Some(k);
      assert rows[i] in rows;
    }
    forall k | exists row :: row in rows && GroupKey(row) == Some(k) ensures k in r {
      var row :| row in rows && GroupKey(row) == Some(k);
      var i :| 0 <= i < |rows| && rows[i] == row;
      assert keys[i] == Some(k);
    }
    r
  }

  /** The two sides of one pod metric for the group `key`. */
  function PodSides(f: Frame, windows: seq<Window>, fault: Window, key: (string, string), metric: string): Comparison<Option<Summary>> {
    MetricSides(Frame(f.columns, Filter(f.rows, (row: Row) => GroupKey(row) == Some(key))), windows, fault, metric)
  }

  function PodCell(f: Frame, windows: seq<Window>, fault: Window, key: (string, string), metric: string): (r: Option<Entry<(string, string), string, Comparison<Summary>>>)
    ensures r.Some? <==> Reported(Some(PodSides(f, windows, fault, key, metric)))
    ensures r.Some? ==> r.value == Entry(key, metric, Unwrap(Some(PodSides(f, windows, fault, key, metric))))
  {
    var s := Some(PodSides(f, windows, fault, key, metric));
    if Reported(s) then Some(Entry(key, metric, Unwrap(s))) else None
  }

  /** The reported groups of one pod metric. */
  function PodMetricCells(store: Store, l: Layout, windows: seq<Window>, fault: Window, metric: string): (r: seq<Entry<(string, string), string, Comparison<Summary>>>)
    ensures r != [] ==> LoadMetric(store, l, metric).Some?
    ensures forall e :: LoadMetric(store, l, metric).Some? ==>
              (e in r <==> exists k :: k in PodGroups(LoadMetric(store, l, metric).value.rows) &&
                                     PodCell(LoadMetric(store, l, metric).value, windows, fault, k, metric) == Some(e))
  {
    match LoadMetric(store, l, metric)
    case None => []
    case Some(f) => Cells(PodGroups(f.rows), (k: (string, string)) => PodCell(f, windows, fault, k, metric))
  }

  function PodCells(store: Store, l: Layout, windows: seq<Window>, fault: Window): seq<Entry<(string, string), string, Comparison<Summary>>> {
    FlatMap(l.metrics, (m: string) => PodMetricCells(store, l, windows, fault, m))
  }

  /** `analyze_pod_metrics` with fresh per-group state and accumulating
      results: (instance, pod) -> metric -> both summaries. */
  function AnalyzePods(store: Store, l: Layout, windows: seq<Window>, fault: Window): map<(string, string), map<string, Comparison<Summary>>> {
    Nest(PodCells(store, l, windows, fault))
  }

  /** `analyze_pod_metrics` as written: a group's dictionary is re-created
      for every reported metric. */
  function AnalyzePodsAsWritten(store: Store, l: Layout, windows: seq<Window>, fault: Window): (r: map<(string, string), map<string, Comparison<Summary>>>)
    ensures forall key :: key in r ==> |r[key].Keys| == 1
  {
    var cells := PodCells(store, l, windows, fault);
    forall key | key in NestOverwrite(cells) ensures |NestOverwrite(cells)[key].Keys| == 1 {
      OverwriteKeepsOne(cells, key);
    }
    NestOverwrite(cells)
  }

  lemma PodCellMembers(store: Store, l: Layout, windows: seq<Window>, fault: Window, e: Entry<(string, string), string, Comparison<Summary>>)
    ensures e in PodCells(store, l, windows, fault) <==>
              && e.inner in l.metrics && LoadMetric(store, l, e.inner).Some?
              && e.outer in PodGroups(LoadMetric(store, l, e.inner).value.rows)
              && PodCell(LoadMetric(store, l, e.inner).value, windows, fault, e.outer, e.inner) == Some(e)
  {
    if e in PodCells(store, l, windows, fault) {
      var m :| m in l.metrics && e in PodMetricCells(store, l, windows, fault, m);
      var f := LoadMetric(store, l, m).value;
      var k :| k in PodGroups(f.rows) && PodCell(f, windows, fault, k, m) == Some(e);
    }
    if e.inner in l.metrics && LoadMetric(store, l, e.inner).Some? {
      var f := LoadMetric(store, l, e.inner).value;
      if e.outer in PodGroups(f.rows) && PodCell(f, windows, fault, e.outer, e.inner) == Some(e) {
        assert e in PodMetricCells(store, l, windows, fault, e.inner);
      }
    }
  }

  /** A pod metric appears in the result for group (instance, pod) exactly
      when the metric is catalogued, its file holds rows of that group for
      a target pod, and the two sides are judged changed; the recorded value
      is those two summaries. */
  lemma PodReport(store: Store, l: Layout, windows: seq<Window>, fault: Window, key: (string, string), metric: string)
    ensures var r := AnalyzePods(store, l, windows, fault);
            (key in r && metric in r[key]) <==>
              && metric in l.metrics && LoadMetric(store, l, metric).Some?
              && key in PodGroups(LoadMetric(store, l, metric).value.rows)
              && Reported(Some(PodSides(LoadMetric(store, l, metric).value, windows, fault, key, metric)))
    ensures var r := AnalyzePods(store, l, windows, fault);
            key in r && metric in r[key] ==>
              r[key][metric] == Unwrap(Some(PodSides(LoadMetric(store, l, metric).value, windows, fault, key, metric)))
  {
    var cells := PodCells(store, l, windows, fault);
    var r := Nest(cells);
    if key in r && metric in r[key] {
      var e :| e in cells && e.outer == key && e.inner == metric;
      PodCellMembers(store, l, windows, fault, e);
    }
    var load := LoadMetric(store, l, metric);
    if metric in l.metrics && load.Some? && key in PodGroups(load.value.rows)
       && Reported(Some(PodSides(load.value, windows, fault, key, metric))) {
      var v := Unwrap(Some(PodSides(load.value, windows, fault, key, metric)));
      PodCellMembers(store, l, windows, fault, Entry(key, metric, v));
      forall e | e in cells && e.outer == key && e.inner == metric ensures e.value == v {
        PodCellMembers(store, l, windows, fault, e);
      }
      NestValue(cells, key, metric, v);
    }
  }

  /** Every reported group names one of the target pods. */
  lemma PodReportsTargetPods(store: Store, l: Layout, windows: seq<Window>, fault: Window, key: (string, string))
    requires l.labelName == PodLabel && key in AnalyzePods(store, l, windows, fault)
    ensures key.1 in l.targets
  {
    var cells := PodCells(store, l, windows, fault);
    var e :| e in cells && e.outer == key;
    PodCellMembers(store, l, windows, fault, e);
    var f := LoadMetric(store, l, e.inner).value;
    var row :| row in f.rows && GroupKey(row) == Some(key);
    GroupKeyNamesPod(row, key, l.targets);
  }

  lemma GroupKeyNamesPod(row: Row, key: (string, string), pods: seq<string>)
    requires GroupKey(row) == Some(key) && LabelIn(row, PodLabel, pods)
    ensures key.1 in pods
  {
  }

  /** Node results only name target nodes and catalogued node metrics. */
  lemma NodesWithinCatalogue(store: Store, l: Layout, windows: seq<Window>, fault: Window)
    ensures var r := AnalyzeNodes(store, l, windows, fault);
            forall node :: node in r ==> node in l.targets && forall m :: m in r[node] ==> m in l.metrics
  {
    var r := AnalyzeNodes(store, l, windows, fault);
    forall node, m | node in r && m in r[node] ensures node in l.targets && m in l.metrics {
      NodeReport(store, l, windows, fault, node, m);
    }
    forall node | node in r ensures node in l.targets {
      var e :| e in NodeCells(store, l, windows, fault) && e.outer == node;
      NodeCellMembers(store, l, windows, fault, e);
    }
  }

  /** Pod results only name target pods and catalogued pod metrics. */
  lemma PodsWithinCatalogue(store: Store, l: Layout, windows: seq<Window>, fault: Window)
    requires l.labelName == PodLabel
    ensures var r := AnalyzePods(store, l, windows, fault);
            forall key :: key in r ==> key.1 in l.targets && forall m :: m in r[key] ==> m in l.metrics
  {
    var r := AnalyzePods(store, l, windows, fault);
    forall key, m | key in r && m in r[key] ensures m in l.metrics {
      PodReport(store, l, windows, fault, key, m);
    }
    forall key | key in r ensures key.1 in l.targets {
      PodReportsTargetPods(store, l, windows, fault, key);
    }
  }
}
