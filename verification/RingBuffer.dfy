/** Reading the snapshot ring buffer: index arithmetic over the raw buffer and its tip,
    and what each search means on the list of retained snapshots, newest first. */
module RingBuffer {
  import opened Results
  import opened FarmTypes

  ghost predicate IsRing(buf: seq<Snapshot>, tip: nat) {
    |buf| == SNAPSHOTS_LEN && tip < SNAPSHOTS_LEN
  }

  /** The index `k` steps back in time from the tip. */
  function StepsBack(tip: nat, k: nat): nat
    requires tip < SNAPSHOTS_LEN && k < SNAPSHOTS_LEN
  {
    if k <= tip then tip - k else SNAPSHOTS_LEN + tip - k
  }

  /** Every retained entry, newest first. */
  function Retained(buf: seq<Snapshot>, tip: nat): (w: seq<Snapshot>)
    requires IsRing(buf, tip)
    ensures |w| == SNAPSHOTS_LEN
    ensures forall k :: 0 <= k < SNAPSHOTS_LEN ==> w[k] == buf[StepsBack(tip, k)]
  {
    seq(SNAPSHOTS_LEN, k requires 0 <= k < SNAPSHOTS_LEN => buf[StepsBack(tip, k)])
  }

  /** The `k`-th index visited by the reversed, endlessly repeated iteration over the
      buffer after skipping the `SNAPSHOTS_LEN - tip - 1` entries above the tip. */
  function VisitedIndex(tip: nat, k: nat): nat
    requires tip < SNAPSHOTS_LEN
  {
    SNAPSHOTS_LEN - 1 - (SNAPSHOTS_LEN - tip - 1 + k) % SNAPSHOTS_LEN
  }

  lemma VisitedIndexStepsBack(tip: nat, k: nat)
    requires tip < SNAPSHOTS_LEN && k < SNAPSHOTS_LEN
    ensures VisitedIndex(tip, k) == StepsBack(tip, k)
  {
  }

  /** The first visited index, from step `k` on, whose snapshot started by `slot`. */
  function FindStartedBy(buf: seq<Snapshot>, tip: nat, slot: nat, k: nat): Option<nat>
    requires IsRing(buf, tip) && k <= SNAPSHOTS_LEN
    decreases SNAPSHOTS_LEN - k
  {
    if k == SNAPSHOTS_LEN then None
    else if buf[VisitedIndex(tip, k)].startedAt <= slot then Some(VisitedIndex(tip, k))
    else FindStartedBy(buf, tip, slot, k + 1)
  }

  function OldestSnapshotIndex(tip: nat): nat {
    if tip != SNAPSHOTS_LEN - 1 then tip + 1 else 0
  }

  function LatestSnapshot(buf: seq<Snapshot>, tip: nat): Snapshot
    requires IsRing(buf, tip)
  {
    buf[tip]
  }

  function OldestSnapshot(buf: seq<Snapshot>, tip: nat): Snapshot
    requires IsRing(buf, tip)
  {
    buf[OldestSnapshotIndex(tip)]
  }

  function FirstSnapshotAfter(buf: seq<Snapshot>, tip: nat, slot: nat): Option<Snapshot>
    requires IsRing(buf, tip)
  {
    if LatestSnapshot(buf, tip).startedAt <= slot then None
    else
      match FindStartedBy(buf, tip, slot, 0)
      case None => None
      case Some(pos) =>
        assert pos < SNAPSHOTS_LEN by { FoundIndexInRange(buf, tip, slot, 0); }
        Some(if pos == SNAPSHOTS_LEN - 1 then buf[0] else buf[pos + 1])
  }

  lemma {:induction false} FoundIndexInRange(buf: seq<Snapshot>, tip: nat, slot: nat, k: nat)
    requires IsRing(buf, tip) && k <= SNAPSHOTS_LEN
    ensures FindStartedBy(buf, tip, slot, k).Some? ==> FindStartedBy(buf, tip, slot, k).value < SNAPSHOTS_LEN
    decreases SNAPSHOTS_LEN - k
  {
    if k < SNAPSHOTS_LEN {
      FoundIndexInRange(buf, tip, slot, k + 1);
    }
  }

  /** How many entries, counted back from the tip, reach the index `oldest`. */
  function EligibleCount(tip: nat, oldest: nat): nat
    requires tip < SNAPSHOTS_LEN && oldest < SNAPSHOTS_LEN
  {
    if oldest < tip then tip - oldest + 1
    else if oldest == tip then 1
    else tip + (SNAPSHOTS_LEN - oldest) + 1
  }

  /** The snapshots still needed by someone whose harvest is settled up to `since`. */
  function WindowSnapshots(buf: seq<Snapshot>, tip: nat, since: nat): seq<Snapshot>
    requires IsRing(buf, tip)
  {
    var oldest :=
      match FindStartedBy(buf, tip, since, 0)
      case Some(index) => index
      case None => OldestSnapshotIndex(tip);
    FoundIndexInRange(buf, tip, since, 0);
    seq(EligibleCount(tip, oldest), k requires 0 <= k => buf[VisitedIndex(tip, k)])
  }

  // ---- meaning on the retained list ----

  /** Number of leading entries of `w` that started after `slot`. */
  function CountAfter(w: seq<Snapshot>, slot: nat): (k: nat)
    ensures k <= |w|
    ensures forall i :: 0 <= i < k ==> w[i].startedAt > slot
    ensures k < |w| ==> w[k].startedAt <= slot
  {
    if w == [] || w[0].startedAt <= slot then 0 else 1 + CountAfter(w[1..], slot)
  }

  /** On the retained list: nothing if no entry is later than `slot` or none is retained
      at or before it; otherwise the entry just newer than the first one at or before. */
  function FirstAfter(w: seq<Snapshot>, slot: nat): Option<Snapshot> {
    var k := CountAfter(w, slot);
    if k == 0 || k == |w| then None else Some(w[k - 1])
  }

  /** On the retained list: the newest entries down to and including the first at or
      before `since`, or all of them if there is none. */
  function Needed(w: seq<Snapshot>, since: nat): seq<Snapshot> {
    var k := CountAfter(w, since);
    if k == |w| then w else w[..k + 1]
  }

  lemma {:induction false} FindMeetsCount(buf: seq<Snapshot>, tip: nat, slot: nat, k: nat)
    requires IsRing(buf, tip) && k <= CountAfter(Retained(buf, tip), slot)
    ensures var c := CountAfter(Retained(buf, tip), slot);
            FindStartedBy(buf, tip, slot, k) == if c == SNAPSHOTS_LEN then None else Some(StepsBack(tip, c))
    decreases SNAPSHOTS_LEN - k
  {
    if k < SNAPSHOTS_LEN {
      VisitedIndexStepsBack(tip, k);
      if k < CountAfter(Retained(buf, tip), slot) {
        FindMeetsCount(buf, tip, slot, k + 1);
      }
    }
  }

  /** The index search and the off-by-one with wrap-around return the oldest later entry. */
  lemma FirstSnapshotAfterMeaning(buf: seq<Snapshot>, tip: nat, slot: nat)
    requires IsRing(buf, tip)
    ensures FirstSnapshotAfter(buf, tip, slot) == FirstAfter(Retained(buf, tip), slot)
  {
    var w := Retained(buf, tip);
    var c := CountAfter(w, slot);
    assert w[0] == buf[tip];
    FindMeetsCount(buf, tip, slot, 0);
    if 0 < c < SNAPSHOTS_LEN {
      assert w[c - 1] == buf[StepsBack(tip, c - 1)];
    }
  }

  /** Counting from the index comparison yields exactly the needed entries. */
  lemma WindowSnapshotsMeaning(buf: seq<Snapshot>, tip: nat, since: nat)
    requires IsRing(buf, tip)
    ensures WindowSnapshots(buf, tip, since) == Needed(Retained(buf, tip), since)
  {
    var w := Retained(buf, tip);
    var c := CountAfter(w, since);
    FindMeetsCount(buf, tip, since, 0);
    var n := if c == SNAPSHOTS_LEN then SNAPSHOTS_LEN else c + 1;
    assert OldestSnapshotIndex(tip) == StepsBack(tip, SNAPSHOTS_LEN - 1);
    assert EligibleCount(tip, StepsBack(tip, n - 1)) == n;
    assert |WindowSnapshots(buf, tip, since)| == n;
    forall k | 0 <= k < n
      ensures WindowSnapshots(buf, tip, since)[k] == w[k]
    {
      VisitedIndexStepsBack(tip, k);
    }
  }

  lemma OldestIsLastRetained(buf: seq<Snapshot>, tip: nat)
    requires IsRing(buf, tip)
    ensures OldestSnapshot(buf, tip) == Retained(buf, tip)[SNAPSHOTS_LEN - 1]
    ensures LatestSnapshot(buf, tip) == Retained(buf, tip)[0]
  {
  }

  // ---- the append-only log behind the buffer ----

  /** A snapshot log, newest first: slots strictly descend and are never 0. */
  ghost predicate LogOk(log: seq<Snapshot>) {
    && (forall i :: 0 <= i < |log| ==> log[i].startedAt > 0)
    && (forall i, j :: 0 <= i < j < |log| ==> log[i].startedAt > log[j].startedAt)
  }

  /** What a buffer of `SNAPSHOTS_LEN` entries still shows of the log: its newest
      entries, padded with never-written ones before the first rotation. */
  function Tail(log: seq<Snapshot>): (w: seq<Snapshot>)
    ensures |w| == SNAPSHOTS_LEN
    ensures forall k :: 0 <= k < SNAPSHOTS_LEN ==> w[k] == if k < |log| then log[k] else EMPTY_SNAPSHOT
  {
    seq(SNAPSHOTS_LEN, k requires 0 <= k => if k < |log| then log[k] else EMPTY_SNAPSHOT)
  }

  /** Writing at the advanced tip pushes onto the log and drops the oldest entry. */
  lemma WriteIsPush(buf: seq<Snapshot>, tip: nat, log: seq<Snapshot>, s: Snapshot)
    requires IsRing(buf, tip) && Retained(buf, tip) == Tail(log)
    ensures var tip' := if tip == SNAPSHOTS_LEN - 1 then 0 else tip + 1;
            Retained(buf[tip' := s], tip') == Tail([s] + log)
  {
    var tip' := if tip == SNAPSHOTS_LEN - 1 then 0 else tip + 1;
    forall k | 0 <= k < SNAPSHOTS_LEN
      ensures Retained(buf[tip' := s], tip')[k] == Tail([s] + log)[k]
    {
      if k > 0 {
        assert StepsBack(tip', k) == StepsBack(tip, k - 1) != tip';
        assert Retained(buf, tip)[k - 1] == Tail(log)[k - 1];
      }
    }
  }

  /** Whenever an entry at or before `slot` is retained, `first_snapshot_after` is the
      oldest snapshot of the whole log that started later, and nothing if none did. */
  lemma FirstAfterOnLog(log: seq<Snapshot>, slot: nat)
    requires LogOk(log)
    ensures FirstAfter(Tail(log), slot) ==
            if CountAfter(log, slot) == 0 || CountAfter(log, slot) >= SNAPSHOTS_LEN then None
            else Some(log[CountAfter(log, slot) - 1])
  {
    CountIsUnique(Tail(log), slot, Min(CountAfter(log, slot), SNAPSHOTS_LEN));
  }

  lemma {:induction false} CountIsUnique(w: seq<Snapshot>, slot: nat, k: nat)
    requires k <= |w|
    requires forall i :: 0 <= i < k ==> w[i].startedAt > slot
    requires k < |w| ==> w[k].startedAt <= slot
    ensures CountAfter(w, slot) == k
  {
    if k > 0 {
      CountIsUnique(w[1..], slot, k - 1);
    }
  }
}
