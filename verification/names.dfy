/** Entity names carried in metric file names, such as
    `pod_adservice-0_2025-06-06.parquet` naming the pod `adservice-0`, and
    the prefix rule that ties a pod to its service. */
module Names {

  /** Position of the first occurrence of `c` in `s`. */
  function FirstIndex(s: string, c: char): (i: nat)
    requires c in s
    ensures i < |s| && s[i] == c
    ensures c !in s[..i]
    decreases |s|
  {
    if s[0] == c then 0
    else
      var j := FirstIndex(s[1..], c);
      assert s[1..][..j] == s[1..j + 1];
      assert s[..j + 1] == [s[0]] + s[1..j + 1];
      j + 1
  }

  /** `s.split(c)`: the fields between the occurrences of `c`. */
  function Split(s: string, c: char): (r: seq<string>)
    ensures |r| >= 1
    ensures forall k :: 0 <= k < |r| ==> c !in r[k]
    decreases |s|
  {
    if c !in s then [s]
    else
      var i := FirstIndex(s, c);
      [s[..i]] + Split(s[i + 1..], c)
  }

  /** `c.join(parts)`. */
  function Join(parts: seq<string>, c: char): string
    requires |parts| >= 1
    decreases |parts|
  {
    if |parts| == 1 then parts[0] else parts[0] + [c] + Join(parts[1..], c)
  }

  /** Splitting loses nothing: the separators can be put back. */
  lemma {:induction false} JoinSplit(s: string, c: char)
    ensures Join(Split(s, c), c) == s
    decreases |s|
  {
    if c in s {
      var i := FirstIndex(s, c);
      JoinSplit(s[i + 1..], c);
      var parts := Split(s, c);
      assert parts == [s[..i]] + Split(s[i + 1..], c);
      assert parts[1..] == Split(s[i + 1..], c);
      assert Join(parts, c) == s[..i] + [c] + Join(parts[1..], c);
      assert s == s[..i] + [c] + s[i + 1..];
    }
  }

  lemma FirstIndexAt(s: string, c: char, i: nat)
    requires i < |s| && s[i] == c && c !in s[..i]
    ensures FirstIndex(s, c) == i
  {
    var j := FirstIndex(s, c);
    assert forall k :: 0 <= k < i ==> s[..i][k] == s[k];
    assert forall k :: 0 <= k < j ==> s[..j][k] == s[k];
  }

  /** `r` is the longest prefix of `t` that does not contain `c`: it stops
      at the first `c` or at the end of `t`. */
  predicate LongestPrefixWithout(r: string, t: string, c: char) {
    && |r| <= |t| && r == t[..|r|]
    && c !in r
    && (|r| == |t| || t[|r|] == c)
  }

  /** The longest `c`-free prefix is unique. */
  lemma LongestPrefixUnique(a: string, b: string, t: string, c: char)
    requires LongestPrefixWithout(a, t, c) && LongestPrefixWithout(b, t, c)
    ensures a == b
  {
  }

  /** The first field of a split is the longest separator-free prefix. */
  lemma SplitHead(s: string, c: char)
    ensures LongestPrefixWithout(Split(s, c)[0], s, c)
  {
  }

  /** The name of the entity a metric file belongs to: the second
      `_`-separated field when the name contains `_`, otherwise the part
      before the first `.`. */
  function EntityName(file: string): (r: string)
    ensures '_' in file ==> LongestPrefixWithout(r, file[FirstIndex(file, '_') + 1..], '_')
    ensures '_' !in file ==> LongestPrefixWithout(r, file, '.')
  {
    if '_' in file then
      var i := FirstIndex(file, '_');
      SplitHead(file[i + 1..], '_');
      Split(file, '_')[1]
    else
      SplitHead(file, '.');
      Split(file, '.')[0]
  }

  /** `s.startswith(prefix)`. */
  predicate StartsWith(s: string, prefix: string) {
    |prefix| <= |s| && s[..|prefix|] == prefix
  }

  /** The file of pod `adservice-0` names that pod, and the pod belongs to
      the service `adservice` by the prefix rule. */
  lemma PodFileExample(file: string)
    requires file == "pod_adservice-0_2025-06-06.parquet"
    ensures EntityName(file) == "adservice-0"
    ensures StartsWith(EntityName(file), "adservice")
  {
    var tail := PodFileTail(file);
    var name := EntityName(file);
    EntityNameOfTail(file, tail);
    PodNameField(tail);
    LongestPrefixUnique(name, "adservice-0", tail, '_');
    AdserviceStartsWith(name);
  }

  lemma EntityNameOfTail(file: string, tail: string)
    requires '_' in file && tail == file[FirstIndex(file, '_') + 1..]
    ensures LongestPrefixWithout(EntityName(file), tail, '_')
  {
  }

  lemma AdserviceStartsWith(name: string)
    requires name == "adservice-0"
    ensures StartsWith(name, "adservice")
  {
    assert name[..9] == "adservice";
  }

  lemma PodFileTail(file: string) returns (tail: string)
    requires file == "pod_adservice-0_2025-06-06.parquet"
    ensures '_' in file && tail == file[FirstIndex(file, '_') + 1..]
    ensures tail == "adservice-0_2025-06-06.parquet"
  {
    tail := "adservice-0_2025-06-06.parquet";
    assert file == "pod" + "_" + tail;
    FirstSeparatorAfter("pod", '_', tail);
  }

  /** In `head + [c] + tail` with no `c` in `head`, the first `c` is the
      one after `head`, and what follows it is `tail`. */
  lemma FirstSeparatorAfter(head: string, c: char, tail: string)
    requires c !in head
    ensures c in head + [c] + tail
    ensures FirstIndex(head + [c] + tail, c) == |head|
    ensures (head + [c] + tail)[|head| + 1..] == tail
  {
    var s := head + [c] + tail;
    assert s[|head|] == c;
    assert s[..|head|] == head;
    FirstIndexAt(s, c, |head|);
    assert s[|head| + 1..] == tail;
  }

  lemma PodNameField(tail: string)
    requires tail == "adservice-0_2025-06-06.parquet"
    ensures LongestPrefixWithout("adservice-0", tail, '_')
  {
    assert tail == "adservice-0" + "_" + "2025-06-06.parquet";
    assert tail[..11] == "adservice-0";
  }

  /** A file name without `_` names the entity before its first dot. */
  lemma PlainFileExample(file: string)
    requires file == "frontend.parquet"
    ensures EntityName(file) == "frontend"
  {
    assert '_' !in file;
    assert LongestPrefixWithout("frontend", file, '.') by {
      assert file[..8] == "frontend";
      assert file[8] == '.';
    }
    LongestPrefixUnique(EntityName(file), "frontend", file, '.');
  }
}
