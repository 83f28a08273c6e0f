/** Fault intervals and the baseline ("normal") windows resolved around
    one of them. All timestamps are nanoseconds since the epoch. */
module Windows {

  datatype FaultInterval = FaultInterval(uuid: string, date: string, startNs: int, endNs: int)

  /** A time window; membership is inclusive at both ends. */
  datatype Window = Window(startNs: int, endNs: int)

  /** Ten minutes in nanoseconds: the gap left after a fault interval before
      its samples count as normal again. */
  const Guard: int := 10 * 60 * 1_000_000_000

  predicate Contains(w: Window, t: int) {
    w.startNs <= t <= w.endNs
  }

  /** The fault window of interval `i`, bounded by its own timestamps. */
  function FaultWindow(faults: seq<FaultInterval>, i: nat): Window
    requires i < |faults|
  {
    Window(faults[i].startNs, faults[i].endNs)
  }

  /** Zero, one or two baseline windows around interval `i`: the stretch
      after the previous interval (plus the guard) up to this one's start,
      then the stretch after this interval (plus the guard) up to the next
      one's start. */
  function NormalPeriods(faults: seq<FaultInterval>, i: nat): (r: seq<Window>)
    requires i < |faults|
    ensures |r| == (if i > 0 then 1 else 0) + (if i < |faults| - 1 then 1 else 0)
    ensures i > 0 ==> r[0] == Window(faults[i - 1].endNs + Guard, faults[i].startNs)
    ensures i < |faults| - 1 ==> r[|r| - 1] == Window(faults[i].endNs + Guard, faults[i + 1].startNs)
  {
    var before := if i > 0 then [Window(faults[i - 1].endNs + Guard, faults[i].startNs)] else [];
    var after := if i < |faults| - 1 then [Window(faults[i].endNs + Guard, faults[i + 1].startNs)] else [];
    before + after
  }

  /** Intervals are well formed and in time order without overlap (an
      assumption about the input table, not checked by the engine). */
  predicate Ordered(faults: seq<FaultInterval>) {
    && (forall k :: 0 <= k < |faults| ==> faults[k].startNs <= faults[k].endNs)
    && (forall a, b :: 0 <= a < b < |faults| ==> faults[a].endNs <= faults[b].startNs)
  }

  /** On ordered intervals a baseline timestamp stays a full guard after the
      fault that precedes its window, and it can fall inside a fault
      interval only at that interval's first instant (both windows include
      their end points). */
  lemma BaselineMeetsFaultsOnlyAtStart(faults: seq<FaultInterval>, i: nat, w: Window, t: int)
    requires i < |faults| && Ordered(faults)
    requires w in NormalPeriods(faults, i) && Contains(w, t)
    ensures exists k :: 0 <= k < |faults| && k <= i && t >= faults[k].endNs + Guard
    ensures forall k :: 0 <= k < |faults| && Contains(FaultWindow(faults, k), t) ==> t == faults[k].startNs
  {
    var r := NormalPeriods(faults, i);
    if i > 0 && w == r[0] {
      assert t >= faults[i - 1].endNs + Guard;
      forall k | 0 <= k < |faults| && Contains(FaultWindow(faults, k), t)
        ensures t == faults[k].startNs
      {
        if k > i {
          assert faults[i].endNs <= faults[k].startNs;
        }
      }
    } else {
      assert i < |faults| - 1 && w == r[|r| - 1];
      assert t >= faults[i].endNs + Guard;
      forall k | 0 <= k < |faults| && Contains(FaultWindow(faults, k), t)
        ensures t == faults[k].startNs
      {
        if k > i + 1 {
          assert faults[i + 1].endNs <= faults[k].startNs;
        }
      }
    }
  }

  /** Because both windows are closed, a sample stamped exactly at the
      fault's start lies in the predecessor baseline and in the fault window. */
  lemma PredecessorSharesFaultStart(faults: seq<FaultInterval>, i: nat)
    requires 0 < i < |faults|
    requires faults[i - 1].endNs + Guard <= faults[i].startNs <= faults[i].endNs
    ensures Contains(NormalPeriods(faults, i)[0], faults[i].startNs)
    ensures Contains(FaultWindow(faults, i), faults[i].startNs)
  {
  }
}
