/** Static configuration of the anomaly-extraction engine: the metric
    catalogues, the fixed node and pod target sets, and the per-date file
    names under which each metric is stored. */
module Catalog {

  /** Service-level "golden signal" columns summarised by the coarse tier. */
  const KeyMetrics: seq<string> :=
    ["client_error_ratio", "error_ratio", "request", "response", "rrt",
     "server_error_ratio", "timeout"]

  /** Node-level resource metrics, each in its own file. */
  const NodeMetrics: seq<string> :=
    ["node_cpu_usage_rate",
     "node_disk_read_bytes_total",
     "node_disk_read_time_seconds_total",
     "node_disk_write_time_seconds_total",
     "node_disk_written_bytes_total",
     "node_filesystem_free_bytes",
     "node_filesystem_usage_rate",
     "node_memory_MemAvailable_bytes",
     "node_memory_MemTotal_bytes",
     "node_memory_usage_rate",
     "node_network_receive_bytes_total",
     "node_network_receive_packets_total",
     "node_network_transmit_bytes_total",
     "node_network_transmit_packets_total",
     "node_sockstat_TCP_inuse"]

  /** Pod-level resource metrics, each in its own file. */
  const PodMetrics: seq<string> :=
    ["pod_cpu_usage", "pod_fs_reads_bytes", "pod_fs_writes_bytes",
     "pod_memory_working_set_bytes", "pod_network_receive_bytes",
     "pod_network_receive_packets", "pod_network_transmit_bytes",
     "pod_network_transmit_packets", "pod_processes"]

  /** The three roles of the managed TiDB cluster, in table order. */
  const TidbComponents: seq<string> := ["tidb-tidb", "tidb-pd", "tidb-tikv"]

  /** File name `<prefix><metric>_<date>.parquet` shared by every per-metric file. */
  function MetricFileName(prefix: string, metric: string, date: string): string {
    prefix + metric + "_" + date + ".parquet"
  }

  const TidbMetrics: seq<string> :=
    ["failed_query_ops", "duration_99th", "connection_count",
     "server_is_up", "cpu_usage", "memory_usage"]
  const PdMetrics: seq<string> :=
    ["store_up_count", "store_down_count", "store_unhealth_count",
     "storage_used_ratio", "cpu_usage", "memory_usage"]
  const TikvMetrics: seq<string> :=
    ["cpu_usage", "memory_usage", "server_is_up", "available_size",
     "raft_propose_wait", "raft_apply_wait", "rocksdb_write_stall"]

  /** The core metrics of each TiDB component. */
  function TidbCoreMetrics(): (r: map<string, seq<string>>)
    ensures r.Keys == set c | c in TidbComponents
    ensures forall c :: c in r ==> 6 <= |r[c]| <= 7
    ensures forall c :: c in r ==> "cpu_usage" in r[c] && "memory_usage" in r[c]
  {
    map["tidb-tidb" := TidbMetrics, "tidb-pd" := PdMetrics, "tidb-tikv" := TikvMetrics]
  }

  /** Directory (under the date's metric directory) holding each component's files. */
  function TidbDirectories(): (r: map<string, string>)
    ensures r.Keys == set c | c in TidbComponents
  {
    map["tidb-tidb" := "infra/infra_tidb", "tidb-pd" := "other", "tidb-tikv" := "other"]
  }

  /** Short name that each component's file names carry after `infra_`. */
  function TidbFilePrefix(component: string): string {
    if component == "tidb-tidb" then "infra_tidb_"
    else if component == "tidb-pd" then "infra_pd_"
    else "infra_tikv_"
  }

  /** The per-date file of every TiDB core metric, one table per component. */
  function TidbFilesMapping(date: string): map<string, map<string, string>> {
    map["tidb-tidb" := TidbFiles(date), "tidb-pd" := PdFiles(date), "tidb-tikv" := TikvFiles(date)]
  }

  /** Every TiDB core metric can be located: each component's file table
      maps exactly its core metrics, each to `infra_<role>_<metric>_<date>.parquet`. */
  lemma TidbFilesCoverCoreMetrics(date: string)
    ensures TidbFilesMapping(date).Keys == TidbCoreMetrics().Keys
    ensures forall c :: c in TidbCoreMetrics() ==>
              TidbFilesMapping(date)[c].Keys == set m | m in TidbCoreMetrics()[c]
    ensures forall c, m :: c in TidbCoreMetrics() && m in TidbFilesMapping(date)[c] ==>
              TidbFilesMapping(date)[c][m] == MetricFileName(TidbFilePrefix(c), m, date)
  {
    forall c | c in TidbCoreMetrics()
      ensures TidbFilesMapping(date)[c].Keys == set m | m in TidbCoreMetrics()[c]
      ensures forall m :: m in TidbFilesMapping(date)[c] ==>
                TidbFilesMapping(date)[c][m] == MetricFileName(TidbFilePrefix(c), m, date)
    {
      TidbComponentFiles(date, c);
    }
  }

  lemma TidbComponentFiles(date: string, c: string)
    requires c in TidbCoreMetrics()
    ensures TidbFilesMapping(date)[c].Keys == set m | m in TidbCoreMetrics()[c]
    ensures forall m :: m in TidbFilesMapping(date)[c] ==>
              TidbFilesMapping(date)[c][m] == MetricFileName(TidbFilePrefix(c), m, date)
  {
    var files, core := TidbFilesMapping(date), TidbCoreMetrics();
    if c == "tidb-tidb" {
      assert files[c] == TidbFiles(date) && core[c] == TidbMetrics;
    } else if c == "tidb-pd" {
      assert files[c] == PdFiles(date) && core[c] == PdMetrics;
      assert TidbFilePrefix(c) == "infra_pd_";
    } else {
      assert files[c] == TikvFiles(date) && core[c] == TikvMetrics;
      assert TidbFilePrefix(c) == "infra_tikv_";
    }
  }

  function TidbFiles(date: string): (r: map<string, string>)
    ensures r.Keys == set m | m in TidbMetrics
    ensures forall m :: m in r ==> r[m] == MetricFileName("infra_tidb_", m, date)
  {
    map[
      "failed_query_ops" := MetricFileName("infra_tidb_", "failed_query_ops", date),
      "duration_99th" := MetricFileName("infra_tidb_", "duration_99th", date),
      "connection_count" := MetricFileName("infra_tidb_", "connection_count", date),
      "server_is_up" := MetricFileName("infra_tidb_", "server_is_up", date),
      "cpu_usage" := MetricFileName("infra_tidb_", "cpu_usage", date),
      "memory_usage" := MetricFileName("infra_tidb_", "memory_usage", date)
    ]
  }

  function PdFiles(date: string): (r: map<string, string>)
    ensures r.Keys == set m | m in PdMetrics
    ensures forall m :: m in r ==> r[m] == MetricFileName("infra_pd_", m, date)
  {
    map[
      "store_up_count" := MetricFileName("infra_pd_", "store_up_count", date),
      "store_down_count" := MetricFileName("infra_pd_", "store_down_count", date),
      "cpu_usage" := MetricFileName("infra_pd_", "cpu_usage", date),
      "memory_usage" := MetricFileName("infra_pd_", "memory_usage", date),
      "storage_used_ratio" := MetricFileName("infra_pd_", "storage_used_ratio", date),
      "store_unhealth_count" := MetricFileName("infra_pd_", "store_unhealth_count", date)
    ]
  }

  function TikvFiles(date: string): (r: map<string, string>)
    ensures r.Keys == set m | m in TikvMetrics
    ensures forall m :: m in r ==> r[m] == MetricFileName("infra_tikv_", m, date)
  {
    map[
      "cpu_usage" := MetricFileName("infra_tikv_", "cpu_usage", date),
      "memory_usage" := MetricFileName("infra_tikv_", "memory_usage", date),
      "server_is_up" := MetricFileName("infra_tikv_", "server_is_up", date),
      "available_size" := MetricFileName("infra_tikv_", "available_size", date),
      "raft_propose_wait" := MetricFileName("infra_tikv_", "raft_propose_wait", date),
      "raft_apply_wait" := MetricFileName("infra_tikv_", "raft_apply_wait", date),
      "rocksdb_write_stall" := MetricFileName("infra_tikv_", "rocksdb_write_stall", date)
    ]
  }

  /** Two-digit zero-padded decimal, Python's `{i:02d}` for `0 <= i < 100`. */
  function Pad2(i: nat): (r: string)
    requires i < 100
    ensures |r| == 2 && '0' <= r[0] <= '9' && '0' <= r[1] <= '9'
    ensures (r[0] as int - '0' as int) * 10 + (r[1] as int - '0' as int) == i
  {
    [('0' as int + i / 10) as char, ('0' as int + i % 10) as char]
  }

  function NodeName(i: nat): string
    requires i < 100
  {
    "aiops-k8s-" + Pad2(i)
  }

  /** The eight cluster nodes analysed, numbered 01 to 08. */
  function TargetNodes(): (r: seq<string>)
    ensures r == ["aiops-k8s-01", "aiops-k8s-02", "aiops-k8s-03", "aiops-k8s-04",
                  "aiops-k8s-05", "aiops-k8s-06", "aiops-k8s-07", "aiops-k8s-08"]
  {
    assert NodeName(1) == "aiops-k8s-01";
    assert NodeName(2) == "aiops-k8s-02";
    assert NodeName(3) == "aiops-k8s-03";
    assert NodeName(4) == "aiops-k8s-04";
    assert NodeName(5) == "aiops-k8s-05";
    assert NodeName(6) == "aiops-k8s-06";
    assert NodeName(7) == "aiops-k8s-07";
    assert NodeName(8) == "aiops-k8s-08";
    seq(8, k requires 0 <= k < 8 => NodeName(k + 1))
  }

  /** The per-date file of every node metric. The table also lists
      `node_filesystem_size_bytes`, which is not in the analysed catalogue. */
  function NodeFilesMapping(date: string): (r: map<string, string>)
    ensures r.Keys == (set m | m in NodeMetrics) + {"node_filesystem_size_bytes"}
    ensures forall m :: m in r ==> r[m] == MetricFileName("infra_node_", m, date)
  {
    map[
      "node_cpu_usage_rate" := MetricFileName("infra_node_", "node_cpu_usage_rate", date),
      "node_disk_read_bytes_total" := MetricFileName("infra_node_", "node_disk_read_bytes_total", date),
      "node_disk_read_time_seconds_total" := MetricFileName("infra_node_", "node_disk_read_time_seconds_total", date),
      "node_disk_write_time_seconds_total" := MetricFileName("infra_node_", "node_disk_write_time_seconds_total", date),
      "node_disk_written_bytes_total" := MetricFileName("infra_node_", "node_disk_written_bytes_total", date),
      "node_filesystem_free_bytes" := MetricFileName("infra_node_", "node_filesystem_free_bytes", date),
      "node_filesystem_size_bytes" := MetricFileName("infra_node_", "node_filesystem_size_bytes", date),
      "node_filesystem_usage_rate" := MetricFileName("infra_node_", "node_filesystem_usage_rate", date),
      "node_memory_MemAvailable_bytes" := MetricFileName("infra_node_", "node_memory_MemAvailable_bytes", date),
      "node_memory_MemTotal_bytes" := MetricFileName("infra_node_", "node_memory_MemTotal_bytes", date),
      "node_memory_usage_rate" := MetricFileName("infra_node_", "node_memory_usage_rate", date),
      "node_network_receive_bytes_total" := MetricFileName("infra_node_", "node_network_receive_bytes_total", date),
      "node_network_receive_packets_total" := MetricFileName("infra_node_", "node_network_receive_packets_total", date),
      "node_network_transmit_bytes_total" := MetricFileName("infra_node_", "node_network_transmit_bytes_total", date),
      "node_network_transmit_packets_total" := MetricFileName("infra_node_", "node_network_transmit_packets_total", date),
      "node_sockstat_TCP_inuse" := MetricFileName("infra_node_", "node_sockstat_TCP_inuse", date)
    ]
  }

  /** The 31 pods analysed: three replicas of each service plus one redis pod. */
  function TargetPods(): (r: seq<string>)
    ensures |r| == 31
    ensures forall i :: 0 <= i < |r| ==>
              |r[i]| >= 3 && r[i][|r[i]| - 2] == '-' && '0' <= r[i][|r[i]| - 1] <= '2'
  {
    ["adservice-0", "adservice-1", "adservice-2",
     "cartservice-0", "cartservice-1", "cartservice-2",
     "checkoutservice-0", "checkoutservice-1", "checkoutservice-2",
     "currencyservice-0", "currencyservice-1", "currencyservice-2",
     "emailservice-0", "emailservice-1", "emailservice-2",
     "frontend-0", "frontend-1", "frontend-2",
     "paymentservice-0", "paymentservice-1", "paymentservice-2",
     "productcatalogservice-0", "productcatalogservice-1", "productcatalogservice-2",
     "recommendationservice-0", "recommendationservice-1", "recommendationservice-2",
     "redis-cart-0",
     "shippingservice-0", "shippingservice-1", "shippingservice-2"]
  }

  /** The per-date file of every pod metric: exactly the analysed catalogue. */
  function PodFilesMapping(date: string): (r: map<string, string>)
    ensures r.Keys == set m | m in PodMetrics
    ensures forall m :: m in r ==> r[m] == MetricFileName("infra_pod_", m, date)
  {
    map[
      "pod_cpu_usage" := MetricFileName("infra_pod_", "pod_cpu_usage", date),
      "pod_fs_reads_bytes" := MetricFileName("infra_pod_", "pod_fs_reads_bytes", date),
      "pod_fs_writes_bytes" := MetricFileName("infra_pod_", "pod_fs_writes_bytes", date),
      "pod_memory_working_set_bytes" := MetricFileName("infra_pod_", "pod_memory_working_set_bytes", date),
      "pod_network_receive_bytes" := MetricFileName("infra_pod_", "pod_network_receive_bytes", date),
      "pod_network_receive_packets" := MetricFileName("infra_pod_", "pod_network_receive_packets", date),
      "pod_network_transmit_bytes" := MetricFileName("infra_pod_", "pod_network_transmit_bytes", date),
      "pod_network_transmit_packets" := MetricFileName("infra_pod_", "pod_network_transmit_packets", date),
      "pod_processes" := MetricFileName("infra_pod_", "pod_processes", date)
    ]
  }
}
