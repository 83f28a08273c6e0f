# Anomaly-extraction engine: a Dafny model

This project models the data-refinement core of a root-cause-analysis
pipeline for a microservice system. For one fault interval the engine:

- resolves the baseline ("normal") windows around the interval;
- summarises every metric of interest on both sides of the fault with a
  robust summary (NaN dropped, one minimum and one maximum trimmed, share
  of positive samples);
- reports the service, TiDB, node and pod metrics that changed.

Node and pod metrics pass a fine-tier ratio rule: a fault mean within
[0.95, 1.05] of the baseline mean, shifted by ε = 1e-9, is unchanged. For
services, an external reasoner shortlists key metrics, and the service's
pods are then summarised over that shortlist only. A separate set of log
helpers filters error logs by time and column, de-duplicates them by
(pod, node, template) with occurrence counts, derives service names from
pod names, and orders the result by descending count.

Modules, one per file:

- `Wrappers`: `Option`, map lookup.
- `Sequences`: filters, distinct, counting, sums, means, ascending and
  descending insertion sort.
- `Catalog`: the static metric catalogues, target nodes and pods, and
  per-date file-name tables.
- `Windows`: fault intervals and the baseline windows.
- `Frames`: metric tables and inclusive window selection.
- `Summary`: the robust summary (`get_metrics_stats`).
- `Classifier`: the ratio band and the verdict on one metric.
- `Names`: entity names carried in file names, and the pod-prefix rule.
- `Results`: nested result dictionaries, accumulated or overwritten.
- `Sides`: the two-sided statistics of one entity.
- `Infra`: the node and pod paths, written once over a `Layout` (target entities, metric catalogue, file names, directory, entity label); `NodeLayout` and `PodLayout` give the two concrete layouts of a date.
- `Tidb`: the TiDB path.
- `Services`: the service path and its pod drill-down.
- `Refinement`: one pass over a fault interval.
- `Logs`: the log helpers.

Inputs and outside calls become parameters:

- The metric files of a date are a `Store` (path → table). A missing key
  is a missing file.
- The listed service and pod files are sequences of named tables.
- The shortlist reasoner is a function parameter `Shortlister`.
- The error filter and the template miner of the log pipeline are
  function parameters.

The model follows the evidently intended behaviour where the code keeps
state across loop iterations:

- State is fresh per iteration. A side with no rows has no statistics.
- A metric with a missing side, or with no non-NaN sample on a side, gets
  no verdict and is not reported. It is never reported as changed.
- Results accumulate per entity instead of being overwritten (see
  Findings).

## Model

| member | source | states |
|---|---|---|
| Windows.NormalPeriods | dataRefinement/metric_refinement.py:94-120 | one window for each neighbouring interval, predecessor first: (previous end + 10 min, current start), then (current end + 10 min, next start); none for a singleton |
| Windows.BaselineMeetsFaultsOnlyAtStart | dataRefinement/metric_refinement.py:107-120 | on ordered intervals every baseline timestamp lies a full guard after an earlier fault's end, and meets a fault window only at that fault's first instant |
| Windows.PredecessorSharesFaultStart | dataRefinement/metric_refinement.py:112 | both windows are closed, so a sample stamped exactly at the fault start is in the predecessor baseline and in the fault window |
| Frames.RowsIn | dataRefinement/metric_refinement.py:189 | a row is selected exactly when start <= timestamp <= end, and every copy of a selected row is kept |
| Frames.NormalRows | dataRefinement/metric_refinement.py:186-196 | the concatenated baseline slices draw only on the table's rows |
| Frames.NormalRowsAppend | dataRefinement/metric_refinement.py:188-196 | the baseline of a split window list is the first part's baseline followed by the second's, so slices keep window order |
| Frames.NormalRowsMultiplicity | dataRefinement/metric_refinement.py:188-196 | each copy of a row appears once for every baseline window holding its timestamp, and no other row appears |
| Frames.NormalRowsMembers | dataRefinement/metric_refinement.py:188-196 | a row is in the baseline exactly when some baseline window contains its timestamp |
| Frames.Samples | dataRefinement/metric_refinement.py:134 | every sample is a non-NaN cell of the column; empty exactly when every row lacks the metric |
| Frames.SamplesAppend | dataRefinement/metric_refinement.py:134 | the samples of a split table are the first part's followed by the second's, so samples keep row order |
| Frames.SamplesOfRow | dataRefinement/metric_refinement.py:134 | one row gives its cell when not NaN and nothing otherwise; with the append lemma this fixes every sample, once each, in row order |
| Frames.SamplesCount | dataRefinement/metric_refinement.py:134 | there are as many samples as rows whose cell is not NaN |
| Summary.Summarize | dataRefinement/metric_refinement.py:134-144 | no samples gives the empty record; otherwise count is n (n <= 2) or n-2, the kept samples plus the global min and max are the input as a multiset, the mean is the mean of the kept samples and lies within [min, max], and non_zero_ratio is the 3-decimal rounding of the share of positive untrimmed samples, in [0, 1] |
| Summary.PositiveShare | dataRefinement/metric_refinement.py:143 | the share is the positive count over the number of samples; it is 1 exactly when every sample is positive and 0 exactly when none is |
| Summary.CountPositiveFilters | dataRefinement/metric_refinement.py:143 | the positive count is the length of the samples a `> 0` filter keeps |
| Summary.PositiveShareIsFraction | dataRefinement/metric_refinement.py:143 | the share is the number of positive untrimmed samples divided by the number of samples |
| Summary.Round3 | dataRefinement/metric_refinement.py:144 | the result is a multiple of 0.001 within (x - 0.0005, x + 0.0005], which makes it the 3-decimal rounding of x; [0, 1] is kept |
| Summary.KeptWithinRange | dataRefinement/metric_refinement.py:135-140 | the kept samples lie between the minimum and maximum of the input |
| Summary.OutlierInsensitive | dataRefinement/metric_refinement.py:137-140 | replacing the single largest sample by any other largest value leaves count, kept samples and mean unchanged |
| Summary.NonZeroRatioCountsTrimmedSamples | dataRefinement/metric_refinement.py:139-144 | for [0, 5, 5] the zero is trimmed from the mean (5.0) but still counts in non_zero_ratio (0.667) |
| Summary.MetricsStats | dataRefinement/metric_refinement.py:131-147 | one entry exactly for each requested metric that is a column; the entry is empty exactly when the column has no non-NaN cell, and is the summary of its samples otherwise |
| Classifier.Ratio | dataRefinement/metric_refinement.py:552-553 | (fault + ε)/(normal + ε), absent exactly when the shifted denominator is zero |
| Classifier.FineTier | dataRefinement/metric_refinement.py:549-556 | no verdict exactly when a side is missing or empty; changed exactly when both sides are summarised and the ratio is outside [0.95, 1.05]; unchanged implies inside the band |
| Classifier.WithinBandCrossMultiplied | dataRefinement/metric_refinement.py:698-706 | for a positive shifted baseline the band test is 0.95(n+ε) <= f+ε <= 1.05(n+ε) |
| Classifier.EqualMeansUnchanged | dataRefinement/metric_refinement.py:552-556 | equal means are always in the band, so the metric is never reported |
| Classifier.BandInclusive | dataRefinement/metric_refinement.py:554 | fault means exactly on either end of the band count as unchanged |
| Classifier.ExampleVerdicts | dataRefinement/metric_refinement.py:702-706 | 20 against 90 is a change; 20 against 20.5 is not |
| Names.FirstIndex | dataRefinement/metric_refinement.py:179 | the position of the first separator, with no separator before it |
| Names.Split | dataRefinement/metric_refinement.py:179 | at least one field, and no field contains the separator |
| Names.JoinSplit | dataRefinement/metric_refinement.py:179 | joining the fields with the separator gives back the name |
| Names.SplitHead | dataRefinement/metric_refinement.py:179 | the first field is the longest separator-free prefix |
| Names.EntityName | dataRefinement/metric_refinement.py:179 | with a `_`, the name is the longest `_`-free stretch after the first `_` (the second field); without one, the longest `.`-free prefix |
| Names.PodFileExample | dataRefinement/metric_refinement.py:222-224 | `pod_adservice-0_2025-06-06.parquet` names pod `adservice-0`, which starts with `adservice` |
| Names.PlainFileExample | dataRefinement/metric_refinement.py:179 | `frontend.parquet` names `frontend` |
| Catalog.TidbCoreMetrics | dataRefinement/metric_refinement.py:44-77 | exactly the three TiDB components, each with 6 or 7 core metrics including CPU and memory usage |
| Catalog.TidbDirectories | dataRefinement/metric_refinement.py:263-274 | a directory for exactly the three TiDB components |
| Catalog.TidbFilesCoverCoreMetrics | dataRefinement/metric_refinement.py:276-311 | each component's file table maps exactly its core metrics, each to `infra_<role>_<metric>_<date>.parquet` |
| Catalog.TargetNodes | dataRefinement/metric_refinement.py:424 | exactly `aiops-k8s-01` to `aiops-k8s-08`, in order |
| Catalog.Pad2 | dataRefinement/metric_refinement.py:424 | two decimal digits whose value is the number |
| Catalog.NodeFilesMapping | dataRefinement/metric_refinement.py:436-453 | keys are the node catalogue plus `node_filesystem_size_bytes`; each file is `infra_node_<metric>_<date>.parquet` |
| Catalog.TargetPods | dataRefinement/metric_refinement.py:565-582 | 31 pods, each ending in `-0`, `-1` or `-2` |
| Catalog.PodFilesMapping | dataRefinement/metric_refinement.py:594-604 | keys are exactly the pod catalogue; each file is `infra_pod_<metric>_<date>.parquet` |
| Results.Nest | dataRefinement/metric_refinement.py:708-713 | an outer key, or a key pair, is present exactly when some cell carries it, and every stored value is one of the cells |
| Results.NestValue | dataRefinement/metric_refinement.py:708-713 | when a key pair determines its value, that value is what is stored |
| Results.NestOverwrite | dataRefinement/metric_refinement.py:558-561 | an outer key is present exactly when some cell carries it, and holds the inner dictionary of the last such cell only |
| Results.OverwriteKeepsOne | dataRefinement/metric_refinement.py:558-559 | under the overwriting update every outer key ends with exactly one inner key |
| Results.OverwriteLosesEarlierMetric | dataRefinement/metric_refinement.py:558-561 | two changed metrics of one node: accumulating keeps both, overwriting keeps only the second |
| Sides.BaselineNonEmpty | dataRefinement/metric_refinement.py:195 | the concatenated baseline is non-empty exactly when some row lies in some baseline window |
| Sides.SideStats | dataRefinement/metric_refinement.py:186-209 | each side is present exactly when it has rows, and is then the statistics of the requested metrics over those rows |
| Sides.MetricSides | dataRefinement/metric_refinement.py:379-410 | a side of one metric is present exactly when it has rows and the metric is a column, and is then the summary of its samples |
| Infra.LoadTargets | dataRefinement/metric_refinement.py:476-491 | present exactly when the file exists and some row names a target; holds exactly those rows |
| Infra.LoadTargetsMultiplicity | dataRefinement/metric_refinement.py:484-485 | every copy of a target row is kept and no copy of any other row |
| Infra.NodeLayout | dataRefinement/metric_refinement.py:466-486 | the node loader keeps rows whose `kubernetes_node` label names a target node; the node analysis walks the node metric catalogue |
| Infra.LoadMetric | dataRefinement/metric_refinement.py:455-495 | present exactly when the metric is mapped, its file exists and some row names a target; holds exactly those rows (the same loader serves pods at lines 606-646) |
| Infra.LoadMetricMultiplicity | dataRefinement/metric_refinement.py:634-636 | the loaded table keeps every copy of a target row of the file and no copy of any other row |
| Infra.NodeReport | dataRefinement/metric_refinement.py:508-563 | a node metric is in the result exactly when the node is a target of the layout, the metric is catalogued and its two sides are judged changed; the value is those two summaries |
| Infra.AnalyzeNodesAsWritten | dataRefinement/metric_refinement.py:558-561 | as written, every node in the result holds a single metric |
| Infra.PodLayout | dataRefinement/metric_refinement.py:617-637 | the pod loader keeps rows whose `pod` label names a target pod; the pod analysis walks the pod metric catalogue |
| Infra.PodGroups | dataRefinement/metric_refinement.py:664-665 | the distinct (instance, pod) pairs found in the table, each once |
| Infra.PodReport | dataRefinement/metric_refinement.py:656-716 | a pod metric is in the result for an (instance, pod) group exactly when the metric is catalogued, its table holds that group, and the group's two sides are judged changed; the value is those two summaries |
| Infra.PodReportsTargetPods | dataRefinement/metric_refinement.py:635-636 | every reported group names a target pod |
| Infra.AnalyzePodsAsWritten | dataRefinement/metric_refinement.py:708-713 | as written, every group in the result holds a single metric |
| Infra.NodesWithinCatalogue | dataRefinement/metric_refinement.py:509-512 | node results name only target nodes and catalogued node metrics |
| Infra.PodsWithinCatalogue | dataRefinement/metric_refinement.py:658-665 | pod results name only target pods and catalogued pod metrics |
| Tidb.LoadTidb | dataRefinement/metric_refinement.py:314-349 | present only for a known component, and only with rows |
| Tidb.TidbLoadsCoreMetric | dataRefinement/metric_refinement.py:325-349 | a core metric loads exactly when its mapped file exists and holds rows |
| Tidb.AnalyzeTidb | dataRefinement/metric_refinement.py:361-365 | every TiDB component appears in the result |
| Tidb.TidbReport | dataRefinement/metric_refinement.py:364-410 | a core metric appears exactly when its file exists and holds rows, whatever its statistics; each side is present exactly when it has rows and the metric is a column, and is the summary of those rows |
| Services.DrillDown | dataRefinement/metric_refinement.py:216-254 | one cell per pod file whose name starts with the service's name and whose table has rows, holding statistics of shortlisted metrics only |
| Services.DrillDownCost | dataRefinement/metric_refinement.py:245-254 | at most pods × shortlist summaries on each side |
| Services.ServiceCells | dataRefinement/metric_refinement.py:182-216 | a service yields cells only if its table has rows and the shortlist is non-empty |
| Services.ServiceReport | dataRefinement/metric_refinement.py:174-260 | (service, pod) is in the result exactly when a listed service file of that name has rows and a non-empty shortlist and a pod file of that pod name matches it; the pod starts with the service name and holds only shortlisted metrics |
| Services.AnalyzeServicesAsWritten | dataRefinement/metric_refinement.py:256-260 | as written, every service in the result holds a single pod |
| Refinement.MetricRefinement | dataRefinement/metric_refinement.py:719-771 | every TiDB component is reported; node and pod results stay within the target sets and metric catalogues |
| Logs.FilterByTimeRange | dataRefinement/log_refinement.py:10-29 | absent exactly for a missing table or a missing `timestamp_ns` column; otherwise exactly the rows with start <= ts <= end |
| Logs.TimeRangeKeepsOrder | dataRefinement/log_refinement.py:28 | filtering keeps row order: filtering a concatenation is concatenating the filtered parts |
| Logs.TimeRangeNested | dataRefinement/log_refinement.py:28 | filtering twice is filtering once by the intersection of the ranges |
| Logs.FilterByColumns | dataRefinement/log_refinement.py:54-84 | a missing table stays missing; no list returns the table; otherwise the requested columns that exist, in requested order, with every row's cells kept; absent exactly when none exists |
| Logs.FilterByColumnsIdempotent | dataRefinement/log_refinement.py:80-84 | projecting twice on the same request is projecting once |
| Logs.Dedup | dataRefinement/log_refinement.py:126-161 | absent exactly for a missing or empty table or a missing key column; otherwise one row per distinct key |
| Logs.FirstNonNull | dataRefinement/log_refinement.py:153 | null exactly when every row's cell is null; otherwise the cell of the first row with a non-null cell |
| Logs.DedupOneRowPerKey | dataRefinement/log_refinement.py:153 | the kept rows carry exactly the keys of the keyed input rows, each once |
| Logs.DedupFields | dataRefinement/log_refinement.py:153 | every other input column of a kept row is the first non-null value of that column within its group |
| Logs.DedupCount | dataRefinement/log_refinement.py:154 | a kept row's occurrence_count is the number of input rows with its key |
| Logs.DedupCountsSum | dataRefinement/log_refinement.py:153-154 | the occurrence counts add up to the number of keyed input rows |
| Logs.DedupNonEmpty | dataRefinement/log_refinement.py:153 | the de-duplicated table is non-empty exactly when some input row is keyed |
| Logs.AlnumRun | dataRefinement/log_refinement.py:176 | the length of the maximal leading run of ASCII letters and digits |
| Logs.ExtractServiceName | dataRefinement/log_refinement.py:163-182 | null stays null; a name without a leading letter or digit is returned unchanged; otherwise the maximal leading `[a-zA-Z0-9]` run |
| Logs.ExtractServiceNameIdempotent | dataRefinement/log_refinement.py:176-182 | extracting twice gives the same name |
| Logs.ServiceNameOfFrontend | dataRefinement/log_refinement.py:176-182 | `frontend-1` gives `frontend` |
| Logs.ServiceNameOfRedisCart | dataRefinement/log_refinement.py:176-182 | `redis-cart-0` gives `redis` |
| Logs.Refine | dataRefinement/log_refinement.py:235-241 | the shaped rows, ordered by non-increasing occurrence_count, as a permutation of the input |
| Logs.LogRefinement | dataRefinement/log_refinement.py:198-241 | no table gives no result; a result requires a `timestamp_ns` column and is ordered by non-increasing count |

## Left out

- All file and directory I/O: `get_service_files`, `os.listdir`, `os.path.exists`, `pd.read_parquet`, the log file glob, and the CSV and JSON output. The inputs are parameters; the result is a value.
- The shortlist reasoner (`get_abnormal_metrics`, the LLM call and the parsing of its reply). It is an uninterpreted `Shortlister` parameter, and nothing is assumed about its answers.
- `async` orchestration, `print` logging, `main.py` and the agent modules.
- Standard deviation and the interpolated percentiles of the summary. The model keeps the sorted samples they would be computed from.
- Floating point. Means and ratios are exact reals. NaN is a missing cell.
- Summary.Round3: rounds exact halves up. The share is a numpy float, and numpy's `round` sends exact halves to the even neighbour: a share of 1/16 = 0.0625 (exact in binary) gives 0.062 in the code and 0.063 in the model.
- `_filter_logs_by_error` and `_extract_log_templates` (drain3). They are function parameters of Logs.LogRefinement.
- Pod groups come in order of first occurrence; pandas sorts them by key. Only the order of cells differs, not the result.
- Pod results are keyed by the (instance, pod) pair. The code nests them as instance → pod → metric (dataRefinement/metric_refinement.py:708-713). The pair key holds the same cells without the extra level.
- Infra.PodReport: a side whose metric is not a column gives no verdict and no cell. The code finds that side's statistics empty, skips the band at dataRefinement/metric_refinement.py:698 and records the metric with `{}` statistics at lines 708-713.
- Infra.NodeReport: a side whose metric is not a column gives no verdict and no cell. The code raises KeyError at `normal_desc[metric_name]` (dataRefinement/metric_refinement.py:550).
- Logs.Dedup: groups come in order of first occurrence. `groupby(...).first()` sorts them by (pod, node, template) at dataRefinement/log_refinement.py:153. The later sort by count makes this matter only among equal counts.
- Logs.Refine: sorts with a fixed tie order. pandas' default sort is not stable, so ties may come out in another order.
- Logs.LogRefinement: states only the absence and ordering properties. The steps it chains are each specified on their own.
- Classifier.FineTier: a side whose column has no non-NaN sample gives no verdict. The code would compute a NaN ratio, fail both band comparisons and report the metric.
- Classifier.Ratio: a shifted baseline of exactly zero gives no ratio, so the metric is reported as changed. The code would raise ZeroDivisionError.
- Services.ServiceReport: the shortlist is asked even when a side is missing, and gets that side as absent. The code reuses or lacks the variable from an earlier service.
- Tidb.AnalyzeTidb: a metric whose file is missing or empty is skipped. In both cases the loader returns None, and the code then calls `len(None)` at dataRefinement/metric_refinement.py:369 and fails.
- Infra.NodeReport and Infra.PodReport: a side with no rows gives no verdict. The code reuses the previous metric's statistics, or fails on an unbound variable.
- Services.DrillDown: applies no ratio band to pods, because the code applies none.
- Services.DrillDown: a drilled pod with no baseline rows, or no fault rows, gets an absent side. The code keeps `normal_stats` or `fault_stats` from the service level or from the previous pod (dataRefinement/metric_refinement.py:245 and :254) and records them at lines 256-260.
- Exceptions caught by the loaders' `try` blocks (unreadable files) are not modelled.

## Findings

| source | as written | input that shows it | evidently intended | confidence | as-written member | corrected member |
|---|---|---|---|---|---|---|
| dataRefinement/metric_refinement.py:558-559 | `nodes_analysis[node_name] = {}` re-creates the node's dictionary before every reported metric | two changed metrics on `aiops-k8s-01` (CPU, then memory) | every changed metric of a node is kept | high (not executed) | Infra.AnalyzeNodesAsWritten | Infra.NodeReport |
| dataRefinement/metric_refinement.py:710 | `pods_analysis[node][pod] = {}` re-creates the pod's dictionary for every reported metric | one (instance, pod) group changed in `pod_cpu_usage` and in `pod_memory_working_set_bytes` | every changed metric of a pod is kept | high (not executed) | Infra.AnalyzePodsAsWritten | Infra.PodReport |
| dataRefinement/metric_refinement.py:256 | `service_analysis[service_name] = {}` re-creates the service's dictionary for every pod | service `adservice` with pod files for `adservice-0` and `adservice-1` | every drilled pod of a service is kept | high (not executed) | Services.AnalyzeServicesAsWritten | Services.ServiceReport |
| dataRefinement/metric_refinement.py:558-561 | the overwrite keeps only the last inner key | cells (aiops-k8s-01, node_cpu_usage_rate), (aiops-k8s-01, node_memory_usage_rate) | both inner keys kept | high (not executed) | Results.OverwriteLosesEarlierMetric | Results.Nest |
