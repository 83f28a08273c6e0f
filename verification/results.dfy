/** Two-level result dictionaries (`result[outer][inner] = value`) built
    from a stream of cells, with the accumulating update the engine needs
    and the overwriting update its node, pod and service loops perform. */
module Results {
  import opened Wrappers
  import opened Sequences

  /** One result cell. */
  datatype Entry<K1, K2, V> = Entry(outer: K1, inner: K2, value: V)

  /** `result.setdefault(outer, {})[inner] = value`. */
  function Record<K1, K2, V>(m: map<K1, map<K2, V>>, e: Entry<K1, K2, V>): (r: map<K1, map<K2, V>>)
    ensures r.Keys == m.Keys + {e.outer}
    ensures e.inner in r[e.outer] && r[e.outer][e.inner] == e.value
    ensures e.outer in m ==> r[e.outer].Keys == m[e.outer].Keys + {e.inner}
    ensures forall k1 :: k1 in m && k1 != e.outer ==> r[k1] == m[k1]
    ensures forall k2 :: e.outer in m && k2 in m[e.outer] && k2 != e.inner ==> r[e.outer][k2] == m[e.outer][k2]
  {
    var inner := if e.outer in m then m[e.outer] else map[];
    m[e.outer := inner[e.inner := e.value]]
  }

  /** The dictionary obtained by recording every cell in order. Every cell
      is kept; for a repeated key pair the later cell wins. */
  function Nest<K1(!new), K2(!new), V(!new)>(es: seq<Entry<K1, K2, V>>): (r: map<K1, map<K2, V>>)
    ensures forall k1 :: k1 in r <==> exists e :: e in es && e.outer == k1
    ensures forall k1, k2 :: k1 in r && k2 in r[k1] <==> exists e :: e in es && e.outer == k1 && e.inner == k2
    ensures forall k1, k2 :: k1 in r && k2 in r[k1] ==> Entry(k1, k2, r[k1][k2]) in es
    decreases |es|
  {
    if |es| == 0 then map[]
    else
      var front := es[..|es| - 1];
      var last := es[|es| - 1];
      assert es == front + [last];
      var m := Nest(front);
      Record(m, last)
  }

  /** When every cell's value is determined by its key pair, the nested
      dictionary holds exactly that value at each recorded pair. */
  lemma NestValue<K1(!new), K2(!new), V(!new)>(es: seq<Entry<K1, K2, V>>, k1: K1, k2: K2, v: V)
    requires forall e :: e in es && e.outer == k1 && e.inner == k2 ==> e.value == v
    requires Entry(k1, k2, v) in es
    ensures k1 in Nest(es) && k2 in Nest(es)[k1] && Nest(es)[k1][k2] == v
  {
    var r := Nest(es);
    assert Entry(k1, k2, v) in es && Entry(k1, k2, v).outer == k1 && Entry(k1, k2, v).inner == k2;
    assert Entry(k1, k2, r[k1][k2]) in es;
  }

  /** `result[outer] = {}; result[outer][inner] = value`: re-creates the
      inner dictionary on every cell. */
  function RecordOverwrite<K1, K2, V>(m: map<K1, map<K2, V>>, e: Entry<K1, K2, V>): (r: map<K1, map<K2, V>>)
    ensures r.Keys == m.Keys + {e.outer}
    ensures r[e.outer] == map[e.inner := e.value]
    ensures forall k1 :: k1 in m && k1 != e.outer ==> r[k1] == m[k1]
  {
    m[e.outer := map[e.inner := e.value]]
  }

  /** Cell `i` is the last cell of its outer key. */
  predicate LastOfOuter<K1(==), K2, V>(es: seq<Entry<K1, K2, V>>, i: int)
    requires 0 <= i < |es|
  {
    forall j :: i < j < |es| ==> es[j].outer != es[i].outer
  }

  /** The dictionary the loops build as written: each outer key keeps only
      the inner key of its last cell. */
  function NestOverwrite<K1(!new), K2(!new), V(!new)>(es: seq<Entry<K1, K2, V>>): (r: map<K1, map<K2, V>>)
    ensures forall k1 :: k1 in r <==> exists e :: e in es && e.outer == k1
    ensures forall k1 :: k1 in r ==> exists e :: e in es && e.outer == k1 && r[k1] == map[e.inner := e.value]
    ensures forall i :: 0 <= i < |es| && LastOfOuter(es, i) ==>
              es[i].outer in r && r[es[i].outer] == map[es[i].inner := es[i].value]
    decreases |es|
  {
    if |es| == 0 then map[]
    else
      var front := es[..|es| - 1];
      var last := es[|es| - 1];
      assert es == front + [last];
      var m := NestOverwrite(front);
      var r := RecordOverwrite(m, last);
      assert forall i :: 0 <= i < |es| && LastOfOuter(es, i) ==>
               es[i].outer in r && r[es[i].outer] == map[es[i].inner := es[i].value] by {
        forall i | 0 <= i < |es| && LastOfOuter(es, i)
          ensures es[i].outer in r && r[es[i].outer] == map[es[i].inner := es[i].value]
        {
          if i < |es| - 1 {
            assert es[i] == front[i];
            assert last.outer != es[i].outer;
            assert LastOfOuter(front, i) by {
              forall j | i < j < |front| ensures front[j].outer != front[i].outer {
                assert front[j] == es[j];
              }
            }
          }
        }
      }
      r
  }

  /** Under the overwriting update every outer key ends up with exactly one
      inner key, however many cells it received. */
  lemma OverwriteKeepsOne<K1(!new), K2(!new), V(!new)>(es: seq<Entry<K1, K2, V>>, k1: K1)
    requires k1 in NestOverwrite(es)
    ensures |NestOverwrite(es)[k1].Keys| == 1
  {
    var e :| e in es && e.outer == k1 && NestOverwrite(es)[k1] == map[e.inner := e.value];
    assert NestOverwrite(es)[k1].Keys == {e.inner};
  }

  /** Two changed metrics of one node: the accumulating dictionary reports
      both, the overwriting one only the second. */
  lemma OverwriteLosesEarlierMetric()
    ensures Nest([Entry("aiops-k8s-01", "node_cpu_usage_rate", 1), Entry("aiops-k8s-01", "node_memory_usage_rate", 2)])
              ["aiops-k8s-01"].Keys == {"node_cpu_usage_rate", "node_memory_usage_rate"}
    ensures NestOverwrite([Entry("aiops-k8s-01", "node_cpu_usage_rate", 1), Entry("aiops-k8s-01", "node_memory_usage_rate", 2)])
              ["aiops-k8s-01"].Keys == {"node_memory_usage_rate"}
  {
    var a := Entry("aiops-k8s-01", "node_cpu_usage_rate", 1);
    var b := Entry("aiops-k8s-01", "node_memory_usage_rate", 2);
    assert [a, b][..1] == [a];
    assert [a][..0] == [];
  }

  /** The cells produced by applying `cell` to each item, skipping the
      items that produce none. */
  function Cells<A(!new), K1(!new), K2(!new), V(!new)>(xs: seq<A>, cell: A -> Option<Entry<K1, K2, V>>): (r: seq<Entry<K1, K2, V>>)
    ensures |r| <= |xs|
    ensures forall e :: e in r <==> exists a :: a in xs && cell(a) == Some(e)
    decreases |xs|
  {
    if |xs| == 0 then []
    else
      var rest := Cells(xs[1..], cell);
      assert forall a :: a in xs <==> a == xs[0] || a in xs[1..] by {
        assert xs == [xs[0]] + xs[1..];
      }
      (if cell(xs[0]).Some? then [cell(xs[0]).value] else []) + rest
  }
}
