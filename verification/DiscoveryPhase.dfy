/** internal/discovery/discovery.go: one discovery cycle, from the window to the watermark. */
module DiscoveryPhase {
  import opened Model
  import opened Normalize
  import opened NoiseFiltering
  import opened Deduplication
  import opened Enrichment
  import opened DiscoveredRepository
  import opened PipelineStates
  import opened DiscoveryHistory

  /** The traffic store: its rows for whole seconds from .. to, or nothing when the query fails. */
  type Traffic = (int, int) -> Option<seq<APISignature>>

  /** Rows without a method, a path or hits are no signatures. */
  predicate IsSignature(sig: APISignature) {
    sig.httpMethod != "" && sig.endpoint != "" && sig.hitCount != 0
  }

  function Signatures(rows: seq<APISignature>): seq<APISignature> {
    if rows == [] then []
    else
      var n := |rows| - 1;
      Signatures(rows[..n]) + (if IsSignature(rows[n]) then [rows[n]] else [])
  }

  function NormalizedSig(n: Normalizer, sig: APISignature): APISignature {
    sig.(resourcePath := Normalized(n, sig.endpoint), samplePath := sig.endpoint)
  }

  function NormalizedAll(n: Normalizer, sigs: seq<APISignature>): (r: seq<APISignature>)
    ensures |r| == |sigs|
  {
    seq(|sigs|, i requires 0 <= i < |sigs| => NormalizedSig(n, sigs[i]))
  }

  lemma {:induction false} NormalizedHits(n: Normalizer, sigs: seq<APISignature>)
    ensures SumHits(NormalizedAll(n, sigs)) == SumHits(sigs)
    decreases |sigs|
  {
    if sigs != [] {
      var k := |sigs| - 1;
      NormalizedHits(n, sigs[..k]);
      hide Normalized;
      assert NormalizedAll(n, sigs)[..k] == NormalizedAll(n, sigs[..k]);
    }
  }

  lemma {:induction false} FreshHits(sigs: seq<APISignature>)
    ensures SumRecords(Fresh(sigs)) == SumHits(sigs)
    decreases |sigs|
  {
    if sigs != [] {
      var k := |sigs| - 1;
      FreshHits(sigs[..k]);
      assert Fresh(sigs)[..k] == Fresh(sigs[..k]);
    }
  }

  /** Normalizing and merging keep every hit. */
  lemma PreparedHits(n: Normalizer, sigs: seq<APISignature>)
    ensures SumHits(DedupOf(NormalizedAll(n, sigs))) == SumHits(sigs)
  {
    NormalizedHits(n, sigs);
    DedupKeepsHits(NormalizedAll(n, sigs));
  }

  /** The rows that are used: those with a method, a path and hits. */
  lemma {:induction false} SignaturesExact(rows: seq<APISignature>, sig: APISignature)
    ensures sig in Signatures(rows) <==> sig in rows && sig.httpMethod != "" && sig.endpoint != "" && sig.hitCount != 0
    decreases |rows|
  {
    if rows != [] {
      var n := |rows| - 1;
      SignaturesExact(rows[..n], sig);
      assert rows == rows[..n] + [rows[n]];
    }
  }

  lemma {:induction false} SignaturesDescend(rows: seq<APISignature>)
    requires DescendingHits(rows)
    ensures DescendingHits(Signatures(rows))
    ensures forall s :: s in Signatures(rows) <==> s in rows && IsSignature(s)
    decreases |rows|
  {
    hide IsSignature;
    if rows != [] {
      var n := |rows| - 1;
      SignaturesDescend(rows[..n]);
      assert rows == rows[..n] + [rows[n]];
      assert forall s :: s in rows[..n] ==> s.hitCount >= rows[n].hitCount;
    }
  }

  /** What steps 1 to 4 make of the rows of a window. */
  function Merged(f: NoiseFilter, n: Normalizer, rows: seq<APISignature>): seq<APISignature> {
    DedupOf(NormalizedAll(n, Signal(f, Signatures(rows))))
  }

  lemma PreparedDescends(f: NoiseFilter, n: Normalizer, rows: seq<APISignature>)
    requires DescendingHits(rows) && NonNegative(rows)
    ensures var prepared := NormalizedAll(n, Signal(f, Signatures(rows)));
      DescendingHits(prepared) && NonNegative(prepared)
  {
    SignaturesDescend(rows);
    SignalDescends(f, Signatures(rows));
    hide Signal, Signatures, Noise, Normalized, IsSignature;
    var kept := Signal(f, Signatures(rows));
    forall k | 0 <= k < |kept|
      ensures kept[k].hitCount >= 0
    {
      assert kept[k] in Signatures(rows);
      var j :| 0 <= j < |rows| && rows[j] == kept[k];
    }
  }

  /** The query returns its rows in descending order of hits. Then after filtering, normalizing and merging
      each record is, but for the total, the first of the signatures merged into it, and that one has the
      highest count of them. */
  lemma DescendingDedup(f: NoiseFilter, n: Normalizer, rows: seq<APISignature>, i: nat)
    requires DescendingHits(rows) && NonNegative(rows) && i < |Merged(f, n, rows)|
    ensures var prepared := NormalizedAll(n, Signal(f, Signatures(rows)));
      var r := Merged(f, n, rows)[i];
      var g := GroupOf(prepared, Deduplication.KeyOf(r));
      && g != []
      && r == g[0].(hitCount := SumHits(g))
      && (forall s :: s in prepared && Deduplication.KeyOf(s) == Deduplication.KeyOf(r) ==> s.hitCount <= g[0].hitCount)
  {
    PreparedDescends(f, n, rows);
    hide NormalizedAll, Signal, Signatures, DescendingHits, NonNegative;
    DescendingRecords(NormalizedAll(n, Signal(f, Signatures(rows))), i);
  }

  method SumOfHits(sigs: seq<APISignature>) returns (totalHits: int)
    ensures totalHits == SumHits(sigs)
  {
    totalHits := 0;
    for i := 0 to |sigs|
      invariant totalHits == SumHits(sigs[..i])
    {
      assert sigs[..i + 1][..i] == sigs[..i];
      totalHits := totalHits + sigs[i].hitCount;
    }
    assert sigs[..|sigs|] == sigs;
  }

  method NormalizeAll(n: Normalizer, sigs: seq<APISignature>) returns (filtered: seq<APISignature>)
    ensures filtered == NormalizedAll(n, sigs)
    ensures |filtered| == |sigs| && forall i :: 0 <= i < |sigs| ==>
      && filtered[i].resourcePath == Normalized(n, sigs[i].endpoint) && filtered[i].samplePath == sigs[i].endpoint
      && filtered[i].(resourcePath := "", samplePath := "") == sigs[i].(resourcePath := "", samplePath := "")
  {
    hide Normalized;
    filtered := sigs;
    for i := 0 to |filtered|
      invariant |filtered| == |sigs|
      invariant forall j :: 0 <= j < i ==> filtered[j] == NormalizedSig(n, sigs[j])
      invariant forall j :: i <= j < |sigs| ==> filtered[j] == sigs[j]
    {
      var original := filtered[i].endpoint;
      var path := NormalizePath(n, original);
      filtered := filtered[i := filtered[i].(resourcePath := path, samplePath := original)];
    }
  }

  method QuerySignatures(traffic: Traffic, start: int, end: int) returns (signatures: Option<seq<APISignature>>)
    ensures var rows := traffic(Seconds(start), Seconds(end));
      signatures == if rows.None? then None else Some(Signatures(rows.value))
  {
    var rows := traffic(Seconds(start), Seconds(end));
    if rows.None? {
      return None;
    }
    var sigs: seq<APISignature> := [];
    for i := 0 to |rows.value|
      invariant sigs == Signatures(rows.value[..i])
    {
      assert rows.value[..i + 1][..i] == rows.value[..i];
      var sig := rows.value[i];
      if sig.httpMethod == "" || sig.endpoint == "" || sig.hitCount == 0 {
        continue;
      }
      sigs := sigs + [sig];
    }
    assert rows.value[..|rows.value|] == rows.value;
    return Some(sigs);
  }

  /** The records of a cycle in the order they were stored, the signatures they stand for, and which
      statements succeeded. */
  datatype Batch = Batch(records: seq<FusedRecord>, from: seq<int>, stored: seq<bool>)

  function LostIn(b: Batch): int {
    if |b.stored| == |b.records| then LostHits(b.records, b.stored) else 0
  }

  lemma LostInBatch(b: Batch)
    requires |b.stored| == |b.records|
    ensures LostIn(b) == LostHits(b.records, b.stored)
  {
  }

  /** The outcome that the signatures left by the filter call for. */
  function OutcomeOf(kept: Option<seq<APISignature>>, b: Batch): Outcome {
    match kept
    case None => QueryFailed
    case Some(sigs) => if sigs == [] then Quiet else Stored(SumHits(sigs), LostIn(b))
  }

  lemma OutcomeKinds(kept: Option<seq<APISignature>>, b: Batch)
    ensures !OutcomeOf(kept, b).NoState? && !OutcomeOf(kept, b).Idle?
    ensures OutcomeOf(kept, b).Stored? ==> kept.Some?
  {
  }

  /** What the rows of a window come to: the cycle fails with the query, stores exactly when some row with a
      method, a path and hits is no noise, and is quiet otherwise. */
  lemma OutcomeMeans(f: NoiseFilter, rows: Option<seq<APISignature>>, b: Batch)
    ensures var outcome := OutcomeOf(if rows.None? then None else Some(Signal(f, Signatures(rows.value))), b);
      && (outcome.QueryFailed? <==> rows.None?)
      && (outcome.Stored? <==> rows.Some? && exists sig :: sig in rows.value && sig.httpMethod != "" && sig.endpoint != ""
                                                     && sig.hitCount != 0 && !Noise(f, sig))
      && (outcome.QueryFailed? || outcome.Stored? || outcome.Quiet?)
  {
    if rows.Some? {
      var kept := Signal(f, Signatures(rows.value));
      forall sig
        ensures sig in kept <==> sig in rows.value && sig.httpMethod != "" && sig.endpoint != "" && sig.hitCount != 0 && !Noise(f, sig)
      {
        SignaturesExact(rows.value, sig);
        SignalExact(f, Signatures(rows.value), sig);
      }
      hide Signal, Signatures, Noise;
      if kept != [] {
        assert kept[0] in kept;
      }
    }
  }

  class Phase {
    const filter: NoiseFilter
    const normalizer: Normalizer
    const pollInterval: int
    const safetyLag: int
    const pipeline: PipelineStateRepo
    const discovered: DiscoveredRepo
    ghost var history: seq<Cycle>

    /** The state and the table are those of the run so far, which started on empty ones. */
    ghost predicate Valid()
      reads this, pipeline, discovered
    {
      && ValidRun(history, pollInterval)
      && pipeline.state == StateAfter(history)
      && TotalHits(discovered.rows) == StoredHits(history)
    }

    constructor (filter: NoiseFilter, normalizer: Normalizer, pollInterval: int, safetyLag: int)
      ensures Valid() && fresh(pipeline) && fresh(discovered) && history == []
      ensures this.filter == filter && this.normalizer == normalizer
      ensures this.pollInterval == pollInterval && this.safetyLag == safetyLag
    {
      this.filter, this.normalizer, this.pollInterval, this.safetyLag := filter, normalizer, pollInterval, safetyLag;
      pipeline := new PipelineStateRepo();
      discovered := new DiscoveredRepo();
      history := [];
    }

    method CalculateWindow(now: int) returns (ok: bool, start: int, end: int)
      modifies pipeline`failures
      ensures pipeline.failures == old(pipeline.failures) + if ok then 0 else 1
      ensures end == now - safetyLag
      ensures ok ==> start == if pipeline.state.Some? then pipeline.state.value.lastWatermarkEnd else end - pollInterval
    {
      var state: Option<PipelineState>;
      ok, state := pipeline.Get();
      end := now - safetyLag;
      if state.None? {
        start := now - (pollInterval + safetyLag);
      } else {
        start := state.value.lastWatermarkEnd;
      }
    }

    /** What survives the noise filter among the rows of a window, in the order of the query. */
    function Kept(traffic: Traffic, start: int, end: int): Option<seq<APISignature>> {
      var rows := traffic(Seconds(start), Seconds(end));
      if rows.None? then None else Some(Signal(filter, Signatures(rows.value)))
    }

    /** The batch holds the records made from these signatures, in some order, and these statements of
        it took the table from before to after. */
    ghost predicate StoredBatch(b: Batch, kept: seq<APISignature>, replies: Observations,
                                deriver: Deriver, clock: nat -> int, before: DiscoveredTable, after: DiscoveredTable) {
      && Reordered(b.records, Fused(DedupOf(NormalizedAll(normalizer, kept)), replies), b.from, deriver)
      && |b.stored| == |b.records|
      && after == StoreAll(before, b.records, b.stored, clock)
    }

    /** Steps 3 to 6 on what the noise filter left. */
    method Process(kept: seq<APISignature>, end: int, replies: Observations, deriver: Deriver,
                   clock: nat -> int)
      returns (ok: bool, ghost batch: Batch)
      modifies pipeline, discovered
      ensures StoredBatch(batch, kept, replies, deriver, clock, old(discovered.rows), discovered.rows)
      ensures TotalHits(discovered.rows) == TotalHits(old(discovered.rows)) + SumHits(kept) - LostIn(batch)
      ensures pipeline.state == if ok then Some(AdvanceStep(old(pipeline.state), end, SumHits(kept))) else old(pipeline.state)
      ensures pipeline.failures == old(pipeline.failures) + if ok then 0 else 1
      ensures discovered.failures == old(discovered.failures) + (|batch.stored| - CountStored(batch.stored))
    {
      var filtered := NormalizeAll(normalizer, kept);
      var deduped := Dedup(filtered);
      PreparedHits(normalizer, kept);
      FreshHits(deduped);
      ghost var from;
      var records;
      records, from := Enrich(deduped, replies, deriver);
      ghost var stored;
      var upserted, failed;
      upserted, failed, stored := discovered.BatchUpsert(records, clock);
      batch := Batch(records, from, stored);
      assert StoredBatch(batch, kept, replies, deriver, clock, old(discovered.rows), discovered.rows);
      hide *;
      BatchTotal(old(discovered.rows), records, stored, clock);
      assert LostIn(batch) == LostHits(records, stored) by { LostInBatch(batch); }
      var totalHits := SumOfHits(deduped);
      ok := pipeline.Advance(end, totalHits);
    }

    /** A cycle on a window that is not empty. */
    method RunWindow(start: int, end: int, traffic: Traffic, replies: Observations, deriver: Deriver,
                     clock: nat -> int)
      returns (ok: bool, ghost outcome: Outcome, ghost batch: Batch)
      modifies pipeline, discovered
      ensures pipeline.state ==
        if ok then Some(AdvanceStep(old(pipeline.state), end, HitsOf(outcome))) else old(pipeline.state)
      ensures TotalHits(discovered.rows) ==
        TotalHits(old(discovered.rows)) + (if outcome.Stored? then outcome.hits - outcome.lostHits else 0)
      ensures outcome == OutcomeOf(Kept(traffic, start, end), batch)
      ensures outcome.QueryFailed? ==> !ok
      ensures pipeline.failures == old(pipeline.failures) + if ok || outcome.QueryFailed? then 0 else 1
      ensures discovered.failures == old(discovered.failures) + (|batch.stored| - CountStored(batch.stored))
      ensures outcome.Stored? ==>
        StoredBatch(batch, Kept(traffic, start, end).value, replies, deriver, clock, old(discovered.rows), discovered.rows)
      ensures !outcome.Stored? ==> discovered.rows == old(discovered.rows)
    {
      batch := Batch([], [], []);
      var signatures := QuerySignatures(traffic, start, end);
      if signatures.None? {
        return false, QueryFailed, batch;
      }
      if |signatures.value| == 0 {
        assert Kept(traffic, start, end) == Some([]);
        hide *;
        ok := pipeline.Advance(end, 0);
        return ok, Quiet, batch;
      }
      var filtered := Apply(filter, signatures.value);
      assert Kept(traffic, start, end) == Some(filtered);
      hide Kept, StoredBatch, TotalHits, AdvanceStep;
      if |filtered| == 0 {
        ok := pipeline.Advance(end, 0);
        return ok, Quiet, batch;
      }
      ok, batch := Process(filtered, end, replies, deriver, clock);
      outcome := Stored(SumHits(filtered), LostIn(batch));
    }

    /** One cycle. traffic and replies answer the queries, deriver computes the derived fields and clock is
        the database's. */
    method Run(now: int, traffic: Traffic, replies: Observations, deriver: Deriver, clock: nat -> int)
      returns (ok: bool, ghost cycle: Cycle, ghost batch: Batch)
      requires Valid()
      modifies this, pipeline, discovered
      ensures Valid() && history == old(history) + [cycle]
      ensures cycle.end == now - safetyLag
      ensures cycle.outcome.Idle? ==> ok
      ensures !cycle.outcome.Idle? ==> ok == cycle.advanced
      ensures pipeline.failures == old(pipeline.failures) + if ok || cycle.outcome.QueryFailed? then 0 else 1
      ensures discovered.failures == old(discovered.failures) + (|batch.stored| - CountStored(batch.stored))
      ensures cycle.outcome.NoState? || cycle.outcome.Idle? || cycle.outcome == OutcomeOf(Kept(traffic, cycle.start, cycle.end), batch)
      ensures cycle.outcome.Stored? ==>
        StoredBatch(batch, Kept(traffic, cycle.start, cycle.end).value, replies, deriver, clock, old(discovered.rows), discovered.rows)
      ensures !cycle.outcome.Stored? ==> discovered.rows == old(discovered.rows)
    {
      hide TotalHits, StoredBatch, Kept, StoredHits, AdvanceStep, OutcomeOf, ValidRun, StateAfter;
      batch := Batch([], [], []);
      var start, end;
      ok, start, end := CalculateWindow(now);
      if !ok {
        cycle := Cycle(start, end, NoState, false);
      } else if end <= start {
        cycle := Cycle(start, end, Idle, false);
      } else {
        ghost var outcome;
        ok, outcome, batch := RunWindow(start, end, traffic, replies, deriver, clock);
        cycle := Cycle(start, end, outcome, ok);
        OutcomeKinds(Kept(traffic, start, end), batch);
      }
      Record(cycle);
    }

    /** Adds a cycle to the history that the stored state and the table then agree with. */
    ghost method Record(cycle: Cycle)
      requires ValidRun(history, pollInterval) && Follows(StateAfter(history), cycle, pollInterval)
      requires pipeline.state ==
        if cycle.advanced then Some(AdvanceStep(StateAfter(history), cycle.end, HitsOf(cycle.outcome))) else StateAfter(history)
      requires TotalHits(discovered.rows) ==
        StoredHits(history) + (if cycle.outcome.Stored? then cycle.outcome.hits - cycle.outcome.lostHits else 0)
      modifies this`history
      ensures Valid() && history == old(history) + [cycle]
    {
      RunSnoc(history, cycle, pollInterval);
      StoredSnoc(history, cycle);
      hide ValidRun, StateAfter, StoredHits, Follows, TotalHits, AdvanceStep;
      history := history + [cycle];
    }
  }

  lemma StoredSnoc(h: seq<Cycle>, c: Cycle)
    ensures StoredHits(h + [c]) == StoredHits(h) + (if c.outcome.Stored? then c.outcome.hits - c.outcome.lostHits else 0)
  {
    assert (h + [c])[..|h|] == h;
  }

  /** Over every run without store failures the hits in the table add up to the processed total. */
  lemma TableMatchesTotal(phase: Phase)
    requires phase.Valid() && NoStoreFailure(phase.history)
    ensures TotalHits(phase.discovered.rows) == Processed(phase.pipeline.state)
  {
    HitsBalance(phase.history, phase.pollInterval);
    NothingToBalance(phase.history);
  }

  /** With failures, they differ by the hits of the failed statements. */
  lemma TableBalance(phase: Phase)
    requires phase.Valid()
    ensures TotalHits(phase.discovered.rows) + DroppedHits(phase.history) ==
            Processed(phase.pipeline.state) + RepeatedHits(phase.history)
  {
    HitsBalance(phase.history, phase.pollInterval);
  }
}
