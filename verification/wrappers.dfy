/** The optional value used throughout the model for Python's `None`. */
module Wrappers {
  datatype Option<+T> = None | Some(value: T)

  /** Looks a key up in a map, `dict.get(key, None)` style. */
  function Lookup<K, V>(m: map<K, V>, k: K): (r: Option<V>)
    ensures r.Some? <==> k in m
    ensures r.Some? ==> r.value == m[k]
  {
    if k in m then Some(m[k]) else None
  }

  /** The values held in `Some`, in order (`None` cells are skipped). */
  function Somes<T(!new)>(xs: seq<Option<T>>): (r: seq<T>)
    ensures |r| <= |xs|
    ensures forall x :: x in r <==> Some(x) in xs
    decreases |xs|
  {
    if |xs| == 0 then []
    else
      assert xs == [xs[0]] + xs[1..];
      (if xs[0].Some? then [xs[0].value] else []) + Somes(xs[1..])
  }
}
