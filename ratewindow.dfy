/** The sliding-window arithmetic behind `checkRateLimit` (telegram.go):
    which stored timestamps are still inside the window, whether a new
    request is admitted, and what list is stored back. Timestamps and the
    window length are integers in one unit (Go's `time.Duration` counts
    nanoseconds). */
module RateWindow {

  ghost predicate Sorted(s: seq<int>) {
    forall i, j :: 0 <= i < j < |s| ==> s[i] <= s[j]
  }

  /** The `recent` list: the stored timestamps strictly after `start`
      (`t.After(windowStart)`), in stored order. */
  function Prune(ts: seq<int>, start: int): (r: seq<int>)
    ensures |r| <= |ts|
    ensures forall i :: 0 <= i < |r| ==> r[i] > start
    ensures forall t :: multiset(r)[t] == if t > start then multiset(ts)[t] else 0
    decreases |ts|
  {
    if ts == [] then []
    else
      var init, last := ts[..|ts| - 1], ts[|ts| - 1];
      assert ts == init + [last];
      var kept := Prune(init, start);
      if last > start then kept + [last] else kept
  }

  /** How many stored timestamps lie strictly after `start`. */
  ghost function CountAfter(ts: seq<int>, start: int): nat {
    |set i | 0 <= i < |ts| && ts[i] > start|
  }

  lemma {:induction false} PruneCounts(ts: seq<int>, start: int)
    ensures |Prune(ts, start)| == CountAfter(ts, start)
    decreases |ts|
  {
    if ts != [] {
      var n := |ts|;
      var init := ts[..n - 1];
      PruneCounts(init, start);
      var before := set i | 0 <= i < n - 1 && init[i] > start;
      var after := set i | 0 <= i < n && ts[i] > start;
      if ts[n - 1] > start {
        assert after == before + {n - 1};
        assert n - 1 !in before;
      } else {
        assert after == before;
      }
    }
  }

  lemma {:induction false} PruneSorted(ts: seq<int>, start: int)
    requires Sorted(ts)
    ensures Sorted(Prune(ts, start))
    decreases |ts|
  {
    if ts != [] {
      var init, last := ts[..|ts| - 1], ts[|ts| - 1];
      PruneSorted(init, start);
      PruneBelow(init, start, last);
    }
  }

  /** Pruning keeps only stored timestamps, so it introduces no later one. */
  lemma PruneBelow(ts: seq<int>, start: int, bound: int)
    requires forall i :: 0 <= i < |ts| ==> ts[i] <= bound
    ensures forall k :: 0 <= k < |Prune(ts, start)| ==> Prune(ts, start)[k] <= bound
  {
    var kept := Prune(ts, start);
    forall k | 0 <= k < |kept| ensures kept[k] <= bound {
      assert kept[k] in multiset(kept);
      assert kept[k] in multiset(ts);
      var j :| 0 <= j < |ts| && ts[j] == kept[k];
    }
  }

  /** The verdict of one call and the list it stores back for the key. */
  datatype Verdict = Verdict(admitted: bool, stored: seq<int>)

  /** `checkRateLimit`: prune, reject when `capacity` or more remain (the
      pruned list is stored even then), otherwise record `now` and admit. */
  function Admit(ts: seq<int>, now: int, window: int, capacity: int): (v: Verdict)
    ensures v.admitted ==> |v.stored| <= capacity
    ensures !v.admitted ==> |v.stored| >= capacity
  {
    var recent := Prune(ts, now - window);
    if |recent| >= capacity then Verdict(false, recent) else Verdict(true, recent + [now])
  }

  /** A request is admitted iff fewer than `capacity` stored timestamps are
      strictly after `now - window`; a rejection stores the pruned list, an
      admission the pruned list followed by `now`. */
  lemma AdmitDecision(ts: seq<int>, now: int, window: int, capacity: int)
    ensures Admit(ts, now, window, capacity).admitted <==> CountAfter(ts, now - window) < capacity
    ensures var v := Admit(ts, now, window, capacity);
      v.stored == if v.admitted then Prune(ts, now - window) + [now] else Prune(ts, now - window)
  {
    PruneCounts(ts, now - window);
  }

  /** Right after a call, the key's list holds only timestamps inside the
      window; none is later than `now` if none was before. */
  lemma AdmitKeepsWindow(ts: seq<int>, now: int, window: int, capacity: int)
    requires window > 0
    ensures forall i :: 0 <= i < |Admit(ts, now, window, capacity).stored| ==>
      now - window < Admit(ts, now, window, capacity).stored[i]
    ensures (forall i :: 0 <= i < |ts| ==> ts[i] <= now) ==>
      forall i :: 0 <= i < |Admit(ts, now, window, capacity).stored| ==> Admit(ts, now, window, capacity).stored[i] <= now
  {
    if forall i :: 0 <= i < |ts| ==> ts[i] <= now {
      PruneBelow(ts, now - window, now);
    }
  }

  /** With a clock that does not go backwards (no stored timestamp is later
      than `now`), a sorted list stays sorted. */
  lemma AdmitKeepsOrder(ts: seq<int>, now: int, window: int, capacity: int)
    requires Sorted(ts)
    requires forall i :: 0 <= i < |ts| ==> ts[i] <= now
    ensures Sorted(Admit(ts, now, window, capacity).stored)
  {
    PruneSorted(ts, now - window);
    PruneBelow(ts, now - window, now);
  }

  /** A list is never longer than the capacity once it was not before. */
  lemma AdmitBounded(ts: seq<int>, now: int, window: int, capacity: int)
    requires |ts| <= capacity
    ensures |Admit(ts, now, window, capacity).stored| <= capacity
  {
  }

  /** Capacity 2 and a 60-unit window: calls at 0 and 1 are admitted, the
      call at 2 is rejected, and the call at 61, when both earlier entries
      have left the window, is admitted again. */
  lemma AdmitExample()
    ensures Admit([], 0, 60, 2) == Verdict(true, [0])
    ensures Admit([0], 1, 60, 2) == Verdict(true, [0, 1])
    ensures Admit([0, 1], 2, 60, 2) == Verdict(false, [0, 1])
    ensures Admit([0, 1], 61, 60, 2) == Verdict(true, [61])
  {
    assert [0, 1][..1] == [0];
    assert [0][..0] == [];
  }
}
