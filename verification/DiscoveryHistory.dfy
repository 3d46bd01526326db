/** The runs of the discovery phase as a list of cycles, and what holds over all of them. */
module DiscoveryHistory {
  import opened Durations
  import opened Model
  import opened PipelineStates

  /** Whole seconds, as the traffic query cuts a time. */
  function Seconds(t: int): int {
    t / SECOND
  }

  /** How far a cycle came: no state could be read, an empty window, a failed query, nothing left to
      store, or a batch with these hits of which some were lost to failed statements. */
  datatype Outcome = NoState | Idle | QueryFailed | Quiet | Stored(hits: int, lostHits: int)

  /** advanced: the watermark statement of this cycle succeeded. */
  datatype Cycle = Cycle(start: int, end: int, outcome: Outcome, advanced: bool)

  function HitsOf(o: Outcome): int {
    if o.Stored? then o.hits else 0
  }

  /** The stored state after a run that started without any. */
  function StateAfter(h: seq<Cycle>): Option<PipelineState> {
    if h == [] then None
    else
      var c, before := h[|h| - 1], StateAfter(h[..|h| - 1]);
      if c.advanced then Some(AdvanceStep(before, c.end, HitsOf(c.outcome))) else before
  }

  /** Windows start at the watermark; the first one starts a poll interval before its end. Clocks are
      free: the end of a window may lie anywhere. */
  predicate Follows(state: Option<PipelineState>, c: Cycle, pollInterval: int) {
    && (!c.outcome.NoState? ==> c.start == if state.Some? then state.value.lastWatermarkEnd else c.end - pollInterval)
    && (c.outcome.NoState? || c.outcome.Idle? || c.outcome.QueryFailed? ==> !c.advanced)
    && (c.outcome.Idle? ==> c.end <= c.start)
    && (c.outcome.QueryFailed? || c.outcome.Quiet? || c.outcome.Stored? ==> c.start < c.end)
  }

  predicate ValidRun(h: seq<Cycle>, pollInterval: int) {
    h != [] ==>
      && ValidRun(h[..|h| - 1], pollInterval)
      && Follows(StateAfter(h[..|h| - 1]), h[|h| - 1], pollInterval)
  }

  lemma RunSnoc(h: seq<Cycle>, c: Cycle, pollInterval: int)
    ensures ValidRun(h + [c], pollInterval) <==> ValidRun(h, pollInterval) && Follows(StateAfter(h), c, pollInterval)
    ensures StateAfter(h + [c]) ==
      if c.advanced then Some(AdvanceStep(StateAfter(h), c.end, HitsOf(c.outcome))) else StateAfter(h)
  {
    assert (h + [c])[..|h|] == h;
  }

  // ---------- The watermark ----------

  lemma MicrosBounds(t: int)
    ensures Micros(t) <= t && Micros(t) % MICROSECOND == 0
    ensures forall w :: w % MICROSECOND == 0 && w <= t ==> w <= Micros(t)
  {
  }

  /** The cut to microseconds does not move a time to another second. */
  lemma SameSecond(t: int)
    ensures Seconds(Micros(t)) == Seconds(t)
  {
    var q, r := t / SECOND, t % SECOND;
    assert t == SECOND * q + r;
    assert t / MICROSECOND == 1_000_000 * q + r / MICROSECOND;
    assert Micros(t) == SECOND * q + Micros(r);
    assert 0 <= Micros(r) < SECOND;
  }

  lemma SecondsMonotone(a: int, b: int)
    requires a <= b
    ensures Seconds(a) <= Seconds(b)
  {
  }

  lemma {:induction false} WatermarkCut(h: seq<Cycle>)
    ensures StateAfter(h).Some? ==> StateAfter(h).value.lastWatermarkEnd % MICROSECOND == 0
    decreases |h|
  {
    if h != [] {
      WatermarkCut(h[..|h| - 1]);
      MicrosBounds(h[|h| - 1].end);
    }
  }

  /** The watermark never decreases, whatever the clocks do and whichever queries fail. */
  lemma {:induction false} WatermarkNeverDecreases(h: seq<Cycle>, pollInterval: int, i: nat)
    requires ValidRun(h, pollInterval) && i <= |h| && StateAfter(h[..i]).Some?
    ensures StateAfter(h).Some?
    ensures StateAfter(h[..i]).value.lastWatermarkEnd <= StateAfter(h).value.lastWatermarkEnd
    decreases |h|
  {
    var n := |h| - 1;
    if i == |h| {
      assert h[..i] == h;
    } else {
      assert h[..n][..i] == h[..i];
      WatermarkNeverDecreases(h[..n], pollInterval, i);
      WatermarkCut(h[..n]);
      MicrosBounds(h[n].end);
    }
  }

  // ---------- Tiling ----------

  /** The start of the first window that advanced the watermark. */
  function FirstStart(h: seq<Cycle>): int
    requires StateAfter(h).Some?
  {
    var n := |h| - 1;
    if StateAfter(h[..n]).Some? then FirstStart(h[..n]) else h[n].start
  }

  /** The cycle queried this second and its watermark statement succeeded. */
  predicate Covers(c: Cycle, second: int) {
    c.advanced && Seconds(c.start) <= second < Seconds(c.end)
  }

  function TimesCovered(h: seq<Cycle>, second: int): nat {
    if h == [] then 0
    else TimesCovered(h[..|h| - 1], second) + (if Covers(h[|h| - 1], second) then 1 else 0)
  }

  lemma {:induction false} FirstStartEarly(h: seq<Cycle>, pollInterval: int)
    requires ValidRun(h, pollInterval) && StateAfter(h).Some?
    ensures Seconds(FirstStart(h)) <= Seconds(StateAfter(h).value.lastWatermarkEnd)
    decreases |h|
  {
    var n := |h| - 1;
    if StateAfter(h[..n]).Some? {
      FirstStartEarly(h[..n], pollInterval);
      WatermarkNeverDecreases(h, pollInterval, n);
      SecondsMonotone(StateAfter(h[..n]).value.lastWatermarkEnd, StateAfter(h).value.lastWatermarkEnd);
    } else {
      SecondsMonotone(h[n].start, h[n].end);
      SameSecond(h[n].end);
    }
  }

  /** The windows that advanced the watermark tile the time from the first start to the watermark: each
      second between them was queried by exactly one of them, and no other second by any. */
  lemma {:induction false} WindowsTile(h: seq<Cycle>, pollInterval: int, second: int)
    requires ValidRun(h, pollInterval)
    ensures TimesCovered(h, second) ==
      if StateAfter(h).Some? && Seconds(FirstStart(h)) <= second < Seconds(StateAfter(h).value.lastWatermarkEnd) then 1 else 0
    decreases |h|
  {
    if h != [] {
      var n := |h| - 1;
      WindowsTile(h[..n], pollInterval, second);
      if h[n].advanced {
        SameSecond(h[n].end);
        SecondsMonotone(h[n].start, h[n].end);
        if StateAfter(h[..n]).Some? {
          FirstStartEarly(h[..n], pollInterval);
        }
      }
    }
  }

  // ---------- Accounting ----------

  /** The hits that reached the table. */
  function StoredHits(h: seq<Cycle>): int {
    if h == [] then 0
    else
      var o := h[|h| - 1].outcome;
      StoredHits(h[..|h| - 1]) + (if o.Stored? then o.hits - o.lostHits else 0)
  }

  /** The hits of statements that failed. */
  function DroppedHits(h: seq<Cycle>): int {
    if h == [] then 0
    else
      var o := h[|h| - 1].outcome;
      DroppedHits(h[..|h| - 1]) + (if o.Stored? then o.lostHits else 0)
  }

  /** The hits of batches whose watermark statement failed; their windows are queried again. */
  function RepeatedHits(h: seq<Cycle>): int {
    if h == [] then 0
    else
      var c := h[|h| - 1];
      RepeatedHits(h[..|h| - 1]) + (if c.advanced then 0 else HitsOf(c.outcome))
  }

  function Processed(state: Option<PipelineState>): int {
    if state.Some? then state.value.recordsProcessed else 0
  }

  /** The table's hits and the pipeline's total differ exactly by the hits of failed statements: those
      dropped by an upsert are only processed, those repeated after a failed watermark only stored. */
  lemma {:induction false} HitsBalance(h: seq<Cycle>, pollInterval: int)
    requires ValidRun(h, pollInterval)
    ensures StoredHits(h) + DroppedHits(h) == Processed(StateAfter(h)) + RepeatedHits(h)
    decreases |h|
  {
    if h != [] {
      HitsBalance(h[..|h| - 1], pollInterval);
    }
  }

  /** No upsert and no watermark statement of this run failed. */
  predicate NoStoreFailure(h: seq<Cycle>) {
    forall i :: 0 <= i < |h| && h[i].outcome.Stored? ==> h[i].advanced && h[i].outcome.lostHits == 0
  }

  lemma {:induction false} NothingToBalance(h: seq<Cycle>)
    requires NoStoreFailure(h)
    ensures DroppedHits(h) == 0 && RepeatedHits(h) == 0
    decreases |h|
  {
    if h != [] {
      NothingToBalance(h[..|h| - 1]);
    }
  }
}
