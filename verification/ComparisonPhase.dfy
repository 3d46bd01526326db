/** internal/comparison/comparison.go: one comparison cycle over the unmanaged table. Clock readings of
    Go and of the database come from one list, taken in order. */
module ComparisonPhase {
  import opened Model
  import opened UnmanagedTable
  import opened UnmanagedRepository
  import Matcher
  import Collisions
  import CollisionLaws
  import Classifier

  // ---------- The effect of a cycle ----------

  function UpsertAll(t: Table, cls: seq<ClassificationResult>, times: seq<int>): Table
    requires |times| == |cls|
  {
    if cls == [] then t
    else
      var n := |cls| - 1;
      UpsertStep(UpsertAll(t, cls[..n], times[..n]), cls[n], times[n])
  }

  /** Every upsert, then the rows that were not confirmed, then the rows without traffic. */
  function Cycle(t: Table, cls: seq<ClassificationResult>, times: seq<int>, cycleStart: int, resolvedAt: int,
                 lastSeen: map<int, int>, staleAfter: int, staleAt: int): Table
    requires |times| == |cls|
  {
    StaleStep(ResolveStep(UpsertAll(t, cls, times), cycleStart, resolvedAt), lastSeen, staleAfter, staleAt)
  }

  predicate DistinctVerdicts(cls: seq<ClassificationResult>) {
    forall i, j :: 0 <= i < j < |cls| ==> cls[i].discoveredId != cls[j].discoveredId
  }

  predicate Classified(cls: seq<ClassificationResult>, id: int) {
    exists i :: 0 <= i < |cls| && cls[i].discoveredId == id
  }

  function Upserted(t: Table, u: ClassificationResult, now: int): Row {
    if u.discoveredId in t then Confirmed(t[u.discoveredId], u, now) else Inserted(u, now)
  }

  predicate ClassifiedBefore(cls: seq<ClassificationResult>, n: nat, id: int)
    requires n <= |cls|
  {
    exists i :: 0 <= i < n && cls[i].discoveredId == id
  }

  lemma UpsertNext(t: Table, cls: seq<ClassificationResult>, times: seq<int>, n: nat)
    requires |times| == |cls| && n < |cls|
    ensures UpsertAll(t, cls[..n + 1], times[..n + 1]) == UpsertStep(UpsertAll(t, cls[..n], times[..n]), cls[n], times[n])
  {
    assert cls[..n + 1][..n] == cls[..n] && times[..n + 1][..n] == times[..n];
  }

  /** What the first n upserts make of one row. */
  lemma {:induction false} UpsertedAt(t: Table, cls: seq<ClassificationResult>, times: seq<int>, n: nat, id: int)
    requires |times| == |cls| && n <= |cls| && DistinctVerdicts(cls)
    ensures var m := UpsertAll(t, cls[..n], times[..n]);
      && (id in m <==> id in t || ClassifiedBefore(cls, n, id))
      && (id in t && !ClassifiedBefore(cls, n, id) ==> m[id] == t[id])
      && (forall i :: 0 <= i < n && cls[i].discoveredId == id ==> m[id] == Upserted(t, cls[i], times[i]))
    decreases n
  {
    if n > 0 {
      UpsertedAt(t, cls, times, n - 1, id);
      UpsertNext(t, cls, times, n - 1);
      hide UpsertAll, Confirmed, Inserted;
      assert ClassifiedBefore(cls, n, id) <==> ClassifiedBefore(cls, n - 1, id) || cls[n - 1].discoveredId == id;
      if cls[n - 1].discoveredId == id {
        assert !ClassifiedBefore(cls, n - 1, id);
      }
    }
  }

  lemma UpsertAllAt(t: Table, cls: seq<ClassificationResult>, times: seq<int>)
    requires |times| == |cls| && DistinctVerdicts(cls)
    ensures forall id :: id in UpsertAll(t, cls, times) <==> id in t || Classified(cls, id)
    ensures forall i :: 0 <= i < |cls| ==>
      cls[i].discoveredId in UpsertAll(t, cls, times)
      && UpsertAll(t, cls, times)[cls[i].discoveredId] == Upserted(t, cls[i], times[i])
    ensures forall id :: id in t && !Classified(cls, id) ==> UpsertAll(t, cls, times)[id] == t[id]
  {
    assert cls[..|cls|] == cls && times[..|cls|] == times;
    hide UpsertAll, Upserted;
    forall id
      ensures id in UpsertAll(t, cls, times) <==> id in t || Classified(cls, id)
      ensures id in t && !Classified(cls, id) ==> UpsertAll(t, cls, times)[id] == t[id]
    {
      UpsertedAt(t, cls, times, |cls|, id);
    }
    forall i | 0 <= i < |cls|
      ensures cls[i].discoveredId in UpsertAll(t, cls, times)
      ensures UpsertAll(t, cls, times)[cls[i].discoveredId] == Upserted(t, cls[i], times[i])
    {
      UpsertedAt(t, cls, times, |cls|, cls[i].discoveredId);
    }
  }

  /** A classified row after the cycle; it is resolved at once when the clock that confirmed it is behind
      the cycle's. */
  lemma ClassifiedRow(t: Table, cls: seq<ClassificationResult>, times: seq<int>, cycleStart: int, resolvedAt: int,
                      lastSeen: map<int, int>, staleAfter: int, staleAt: int, i: nat)
    requires |times| == |cls| && DistinctVerdicts(cls) && i < |cls|
    ensures cls[i].discoveredId in Cycle(t, cls, times, cycleStart, resolvedAt, lastSeen, staleAfter, staleAt)
    ensures Cycle(t, cls, times, cycleStart, resolvedAt, lastSeen, staleAfter, staleAt)[cls[i].discoveredId]
      == StaleRow(ResolvedRow(Upserted(t, cls[i], times[i]), cycleStart, resolvedAt),
                  Expired(cls[i].discoveredId, lastSeen, staleAfter, staleAt), staleAt)
    ensures times[i] >= cycleStart ==>
      ResolvedRow(Upserted(t, cls[i], times[i]), cycleStart, resolvedAt) == Upserted(t, cls[i], times[i])
  {
    UpsertAllAt(t, cls, times);
    hide Expired, UpsertAll;
    assert Upserted(t, cls[i], times[i]).lastConfirmedAt == times[i];
    hide Upserted;
  }

  /** A row that was not classified after the cycle; no row appears without being classified. */
  lemma UnclassifiedRow(t: Table, cls: seq<ClassificationResult>, times: seq<int>, cycleStart: int, resolvedAt: int,
                        lastSeen: map<int, int>, staleAfter: int, staleAt: int, id: int)
    requires |times| == |cls| && DistinctVerdicts(cls) && !Classified(cls, id)
    ensures var t' := Cycle(t, cls, times, cycleStart, resolvedAt, lastSeen, staleAfter, staleAt);
      (id in t' <==> id in t) &&
      (id in t ==> t'[id] == StaleRow(ResolvedRow(t[id], cycleStart, resolvedAt),
                                      Expired(id, lastSeen, staleAfter, staleAt), staleAt))
  {
    UpsertAllAt(t, cls, times);
    hide Expired, UpsertAll, ResolvedRow, StaleRow;
  }

  /** Row id was not classified by an upsert stamped before the cycle started. */
  predicate Timely(cls: seq<ClassificationResult>, times: seq<int>, cycleStart: int, id: int)
    requires |times| == |cls|
  {
    forall i :: 0 <= i < |cls| && cls[i].discoveredId == id ==> times[i] >= cycleStart
  }

  /** What a cycle with successful statements leaves active, exactly, and which dismissals survive it,
      whatever the clocks say. */
  lemma ActiveAfterCycle(t: Table, cls: seq<ClassificationResult>, times: seq<int>, cycleStart: int, resolvedAt: int,
                         lastSeen: map<int, int>, staleAfter: int, staleAt: int, id: int)
    requires |times| == |cls| && DistinctVerdicts(cls)
    requires id in Cycle(t, cls, times, cycleStart, resolvedAt, lastSeen, staleAfter, staleAt)
    ensures var r := Cycle(t, cls, times, cycleStart, resolvedAt, lastSeen, staleAfter, staleAt)[id];
      !Inactive(r.status) <==>
        !Expired(id, lastSeen, staleAfter, staleAt) &&
        if Classified(cls, id) then r.status != DISMISSED && Timely(cls, times, cycleStart, id)
        else id in t && !Inactive(t[id].status) && t[id].lastConfirmedAt >= cycleStart
    ensures Cycle(t, cls, times, cycleStart, resolvedAt, lastSeen, staleAfter, staleAt)[id].status == DISMISSED <==>
      id in t && t[id].status == DISMISSED &&
      forall i :: 0 <= i < |cls| && cls[i].discoveredId == id ==> !OtherVerdict(t[id], cls[i])
  {
    if Classified(cls, id) {
      var i :| 0 <= i < |cls| && cls[i].discoveredId == id;
      ClassifiedRow(t, cls, times, cycleStart, resolvedAt, lastSeen, staleAfter, staleAt, i);
      assert forall k :: 0 <= k < |cls| && cls[k].discoveredId == id ==> k == i;
      assert Timely(cls, times, cycleStart, id) <==> times[i] >= cycleStart;
      hide Cycle, Expired;
      UpsertedDismissed(t, cls[i], times[i]);
    } else {
      UnclassifiedRow(t, cls, times, cycleStart, resolvedAt, lastSeen, staleAfter, staleAt, id);
      hide Cycle, Expired;
    }
  }

  lemma UpsertedDismissed(t: Table, u: ClassificationResult, now: int)
    ensures var r := Upserted(t, u, now);
      && r.lastConfirmedAt == now
      && r.status !in {RESOLVED, STALE}
      && (r.status == DISMISSED <==> u.discoveredId in t && t[u.discoveredId].status == DISMISSED && !OtherVerdict(t[u.discoveredId], u))
  {}

  /** A cycle that confirms an active row in time with the verdict it has, and finds its traffic fresh, leaves
      its status, its document and its catalog entry alone: a pushed row is not pushed again. */
  lemma ConfirmedRowStays(t: Table, cls: seq<ClassificationResult>, times: seq<int>, cycleStart: int, resolvedAt: int,
                          lastSeen: map<int, int>, staleAfter: int, staleAt: int, i: nat)
    requires |times| == |cls| && DistinctVerdicts(cls) && i < |cls| && times[i] >= cycleStart
    requires cls[i].discoveredId in t
    requires var r := t[cls[i].discoveredId];
      r.status in {DETECTED, SPEC_GENERATED, PUSHED} && r.classification == cls[i].classification && r.managedApiId == cls[i].managedApiId
    requires cls[i].discoveredId in lastSeen ==> staleAt - lastSeen[cls[i].discoveredId] <= WholeSeconds(staleAfter)
    ensures var id := cls[i].discoveredId;
      var t' := Cycle(t, cls, times, cycleStart, resolvedAt, lastSeen, staleAfter, staleAt);
      && id in t' && t'[id].status == t[id].status && GroupOf(t'[id]) == GroupOf(t[id])
      && t'[id].openapiSpec == t[id].openapiSpec
      && t'[id].catalogServiceId == t[id].catalogServiceId && t'[id].catalogVersion == t[id].catalogVersion
  {
    ClassifiedRow(t, cls, times, cycleStart, resolvedAt, lastSeen, staleAfter, staleAt, i);
    hide Cycle, WholeSeconds;
    UpsertExact(t, cls[i], times[i]);
  }

  /** Under a clock that moved on since the last confirmations, a row is active after the cycle exactly
      when it was classified, is not dismissed and has fresh traffic. */
  lemma ActiveIffClassified(t: Table, cls: seq<ClassificationResult>, times: seq<int>, cycleStart: int, resolvedAt: int,
                            lastSeen: map<int, int>, staleAfter: int, staleAt: int, id: int)
    requires |times| == |cls| && DistinctVerdicts(cls)
    requires forall k :: 0 <= k < |times| ==> times[k] >= cycleStart
    requires forall j :: j in t ==> t[j].lastConfirmedAt < cycleStart
    requires id in Cycle(t, cls, times, cycleStart, resolvedAt, lastSeen, staleAfter, staleAt)
    ensures var r := Cycle(t, cls, times, cycleStart, resolvedAt, lastSeen, staleAfter, staleAt)[id];
      !Inactive(r.status) <==>
        Classified(cls, id) && r.status != DISMISSED && !Expired(id, lastSeen, staleAfter, staleAt)
  {
    hide Cycle, Expired;
    ActiveAfterCycle(t, cls, times, cycleStart, resolvedAt, lastSeen, staleAfter, staleAt, id);
  }

  /** Running the cycle again on the same classifications and the same freshness changes no status. */
  lemma CycleIdempotent(t: Table, cls: seq<ClassificationResult>, staleAfter: int,
                        times: seq<int>, cycleStart: int, resolvedAt: int, lastSeen: map<int, int>, staleAt: int,
                        times': seq<int>, cycleStart': int, resolvedAt': int, lastSeen': map<int, int>, staleAt': int, id: int)
    requires |times| == |times'| == |cls| && DistinctVerdicts(cls)
    requires forall k :: 0 <= k < |times| ==> cycleStart <= times[k]
    requires forall k :: 0 <= k < |times'| ==> cycleStart' <= times'[k]
    requires forall j :: j in t ==> t[j].lastConfirmedAt < cycleStart
    requires Expired(id, lastSeen, staleAfter, staleAt) <==> Expired(id, lastSeen', staleAfter, staleAt')
    ensures var once := Cycle(t, cls, times, cycleStart, resolvedAt, lastSeen, staleAfter, staleAt);
      var twice := Cycle(once, cls, times', cycleStart', resolvedAt', lastSeen', staleAfter, staleAt');
      (id in twice <==> id in once) && (id in once ==> twice[id].status == once[id].status)
  {
    var once := Cycle(t, cls, times, cycleStart, resolvedAt, lastSeen, staleAfter, staleAt);
    if Classified(cls, id) {
      var i :| 0 <= i < |cls| && cls[i].discoveredId == id;
      ClassifiedRow(t, cls, times, cycleStart, resolvedAt, lastSeen, staleAfter, staleAt, i);
      ClassifiedRow(once, cls, times', cycleStart', resolvedAt', lastSeen', staleAfter, staleAt', i);
      hide Cycle, Expired;
      RowSettles(t, once, cls[i], times[i], times'[i], Expired(id, lastSeen, staleAfter, staleAt), staleAt, staleAt');
    } else {
      UnclassifiedRow(t, cls, times, cycleStart, resolvedAt, lastSeen, staleAfter, staleAt, id);
      UnclassifiedRow(once, cls, times', cycleStart', resolvedAt', lastSeen', staleAfter, staleAt', id);
      hide Cycle, Expired;
    }
  }

  lemma RowSettles(t: Table, once: Table, u: ClassificationResult, now: int, now': int, expired: bool, at: int, at': int)
    requires u.discoveredId in once && once[u.discoveredId] == StaleRow(Upserted(t, u, now), expired, at)
    ensures StaleRow(Upserted(once, u, now'), expired, at').status == once[u.discoveredId].status
  {
    UpsertedDismissed(t, u, now);
    assert once[u.discoveredId].classification == u.classification && once[u.discoveredId].managedApiId == u.managedApiId;
  }

  // ---------- Verdicts of the comparison ----------

  /** cls is what match, collision handling and classification make of the loaded data, for some order
      in which the collisions were listed. */
  ghost predicate Verdict(discovered: seq<DiscoveredAPI>, ops: seq<ManagedOp>, host: int -> string,
                          cands: seq<Candidate>, cols: seq<Collisions.Collision>, cls: seq<ClassificationResult>)
  {
    && Matcher.IsLeftJoin(discovered, ops, cands)
    && Collisions.IsCollisionList(cands, cols)
    && cls == Classifier.Results(cands, cands, Collisions.Losers(cols, cands, ops, host),
                                 Collisions.Ambiguous(cols, cands, ops, host))
  }

  /** The verdict does not depend on the order in which Go ranged over its maps. */
  lemma VerdictUnique(discovered: seq<DiscoveredAPI>, ops: seq<ManagedOp>, host: int -> string,
                      cands: seq<Candidate>, cols: seq<Collisions.Collision>, cls: seq<ClassificationResult>,
                      cands': seq<Candidate>, cols': seq<Collisions.Collision>, cls': seq<ClassificationResult>)
    requires Verdict(discovered, ops, host, cands, cols, cls) && Verdict(discovered, ops, host, cands', cols', cls')
    ensures cls == cls'
  {
    hide Classifier.Results, Collisions.Losers, Collisions.Ambiguous, Collisions.IsCollisionList, Matcher.JoinOf;
    assert cands == cands';
    CollisionLaws.DetectThenResolveDeterministic(cands, cols, cols', ops, host);
  }

  lemma {:induction false} ParentPK(cands: seq<Candidate>, losers: set<int>, sk: string)
    requires forall c :: c in cands && c.managed.Some? ==> c.managed.value.apiPK != -1
    ensures Classifier.ParentOf(cands, losers, sk) != Some(-1)
    decreases |cands|
  {
    if cands != [] {
      var n := |cands| - 1;
      assert cands[n] in cands;
      assert forall c :: c in cands[..n] ==> c in cands;
      ParentPK(cands[..n], losers, sk);
    }
  }

  /** Verdicts are well formed for the table and name each discovered row once. */
  lemma VerdictGood(discovered: seq<DiscoveredAPI>, ops: seq<ManagedOp>, host: int -> string,
                    cands: seq<Candidate>, cols: seq<Collisions.Collision>, cls: seq<ClassificationResult>)
    requires Verdict(discovered, ops, host, cands, cols, cls)
    requires CollisionLaws.DistinctIds(discovered)
    requires forall op :: op in ops ==> op.managedApiPK != -1
    ensures forall u :: u in cls ==> WellFormedVerdict(u)
    ensures DistinctVerdicts(cls) && |cls| <= |discovered|
  {
    var losers, undecided := Collisions.Losers(cols, cands, ops, host), Collisions.Ambiguous(cols, cands, ops, host);
    CandidatePKs(discovered, ops, cands);
    var at := Classifier.EmittedOnceInOrder(cands, |cands|, losers, undecided);
    assert cands[..|cands|] == cands;
    hide Classifier.Results, Collisions.Losers, Collisions.Ambiguous, Collisions.IsCollisionList, Matcher.LastOp, Classifier.ParentOf;
    forall u | u in cls
      ensures WellFormedVerdict(u)
    {
      Classifier.ServiceVerdict(cands, losers, undecided, u);
      ParentPK(cands, losers, u.serviceKey);
    }
    forall i, j | 0 <= i < j < |cls|
      ensures cls[i].discoveredId != cls[j].discoveredId
    {
      assert at[i] < at[j];
      assert cls[i].discoveredId == discovered[at[i]].id && cls[j].discoveredId == discovered[at[j]].id;
    }
    IncreasingFits(at, |cands|);
  }

  lemma {:induction false} IncreasingFits(at: seq<nat>, n: nat)
    requires Classifier.Increasing(at) && forall k :: 0 <= k < |at| ==> at[k] < n
    ensures |at| <= n
    decreases |at|
  {
    if at != [] {
      var m := |at| - 1;
      assert forall k :: 0 <= k < m ==> at[..m][k] < at[m];
      IncreasingFits(at[..m], at[m]);
    }
  }

  lemma CandidatePKs(discovered: seq<DiscoveredAPI>, ops: seq<ManagedOp>, cands: seq<Candidate>)
    requires Matcher.IsLeftJoin(discovered, ops, cands)
    requires forall op :: op in ops ==> op.managedApiPK != -1
    ensures forall c :: c in cands && c.managed.Some? ==> c.managed.value.apiPK != -1
  {
    forall c | c in cands && c.managed.Some?
      ensures c.managed.value.apiPK != -1
    {
      hide Matcher.LastOp;
      var i :| 0 <= i < |cands| && cands[i] == c;
      var key := Matcher.MatchKey(discovered[i].httpMethod, discovered[i].resourcePath);
      var j :| 0 <= j < |ops| && Matcher.IsLast(ops, key, j) && ops[j] == Matcher.LastOp(ops, key).value;
    }
  }

  // ---------- What a verdict means for the discovered APIs ----------

  predicate Managed(ops: seq<ManagedOp>, d: DiscoveredAPI) {
    exists op :: op in ops && op.httpMethod == d.httpMethod && op.matchPath == d.resourcePath
  }

  lemma CandidateOf(discovered: seq<DiscoveredAPI>, ops: seq<ManagedOp>, cands: seq<Candidate>, i: nat)
    requires Matcher.IsLeftJoin(discovered, ops, cands) && i < |discovered|
    ensures cands[i].discoveredId == discovered[i].id && cands[i].serviceKey == discovered[i].serviceKey
    ensures cands[i].httpMethod == discovered[i].httpMethod && cands[i].resourcePath == discovered[i].resourcePath
    ensures cands[i].managed.Some? <==> Managed(ops, discovered[i])
  {
    Matcher.JoinKeeps(discovered[i], ops);
    hide Matcher.JoinOf;
  }

  /** A discovered API is classified exactly when no managed operation has its method and path, or it lost
      the collision on the one that has. */
  lemma ClassifiedIff(discovered: seq<DiscoveredAPI>, ops: seq<ManagedOp>, host: int -> string,
                      cands: seq<Candidate>, cols: seq<Collisions.Collision>, cls: seq<ClassificationResult>, i: nat)
    requires Verdict(discovered, ops, host, cands, cols, cls) && CollisionLaws.DistinctIds(discovered) && i < |discovered|
    ensures Classified(cls, discovered[i].id) <==>
      !Managed(ops, discovered[i]) || discovered[i].id in Collisions.Losers(cols, cands, ops, host)
  {
    var losers, undecided := Collisions.Losers(cols, cands, ops, host), Collisions.Ambiguous(cols, cands, ops, host);
    var at := Classifier.ClassifiedExactly(cands, losers, undecided);
    CandidateOf(discovered, ops, cands, i);
    assert |cands| == |discovered|;
    hide Classifier.Results, Collisions.Losers, Collisions.Ambiguous, Collisions.IsCollisionList, Managed;
    if k :| 0 <= k < |cls| && cls[k].discoveredId == discovered[i].id {
      assert Classifier.ResultAt(cands, losers, undecided, at[k], cls[k]);
      CandidateOf(discovered, ops, cands, at[k]);
      hide Classifier.ResultAt, Matcher.IsLeftJoin;
      assert at[k] == i && at[k] in at;
    }
    if i in at {
      var k :| 0 <= k < |at| && at[k] == i;
      assert Classifier.ResultAt(cands, losers, undecided, at[k], cls[k]);
    }
  }

  /** No managed operation is hit by two services. */
  predicate NoOverlap(discovered: seq<DiscoveredAPI>, ops: seq<ManagedOp>) {
    forall i, j :: 0 <= i < |discovered| && 0 <= j < |discovered| && Managed(ops, discovered[i]) ==>
      discovered[i].httpMethod == discovered[j].httpMethod && discovered[i].resourcePath == discovered[j].resourcePath ==>
      discovered[i].serviceKey == discovered[j].serviceKey
  }

  lemma OneService(discovered: seq<DiscoveredAPI>, ops: seq<ManagedOp>, cands: seq<Candidate>, col: Collisions.Collision,
                   c: Candidate, d: Candidate)
    requires Matcher.IsLeftJoin(discovered, ops, cands) && NoOverlap(discovered, ops)
    requires c in cands && d in cands && CollisionLaws.Touches(c, col) && CollisionLaws.Touches(d, col)
    ensures c.serviceKey == d.serviceKey
  {
    var i :| 0 <= i < |cands| && cands[i] == c;
    var j :| 0 <= j < |cands| && cands[j] == d;
    CandidateOf(discovered, ops, cands, i);
    CandidateOf(discovered, ops, cands, j);
    hide Matcher.IsLeftJoin, Managed;
  }

  lemma NoOverlapNoLosers(discovered: seq<DiscoveredAPI>, ops: seq<ManagedOp>, host: int -> string,
                          cands: seq<Candidate>, cols: seq<Collisions.Collision>)
    requires Matcher.IsLeftJoin(discovered, ops, cands) && Collisions.IsCollisionList(cands, cols) && NoOverlap(discovered, ops)
    ensures Collisions.Losers(cols, cands, ops, host) == {} == Collisions.Ambiguous(cols, cands, ops, host)
  {
    if cols != [] {
      var col := cols[0];
      CollisionLaws.ListedMeans(cands, cols, col);
      assert col.serviceKeys[0] in col.serviceKeys && col.serviceKeys[1] in col.serviceKeys;
      var c :| c in cands && CollisionLaws.Touches(c, col) && c.serviceKey == col.serviceKeys[0];
      var d :| d in cands && CollisionLaws.Touches(d, col) && d.serviceKey == col.serviceKeys[1];
      OneService(discovered, ops, cands, col, c, d);
      assert false;
    }
    Collisions.NoCollisions(cands, ops, host);
  }

  /** Without such overlaps an API is classified exactly when it is not managed; it is DRIFT exactly when
      another API of its service is managed, and SHADOW otherwise, always with high confidence. */
  lemma VerdictWithoutOverlap(discovered: seq<DiscoveredAPI>, ops: seq<ManagedOp>, host: int -> string,
                              cands: seq<Candidate>, cols: seq<Collisions.Collision>, cls: seq<ClassificationResult>, i: nat)
    requires Verdict(discovered, ops, host, cands, cols, cls) && CollisionLaws.DistinctIds(discovered) && i < |discovered|
    requires NoOverlap(discovered, ops)
    ensures Classified(cls, discovered[i].id) <==> !Managed(ops, discovered[i])
    ensures forall u :: u in cls && u.discoveredId == discovered[i].id ==>
      && u.confidence == HIGH && u.serviceKey == discovered[i].serviceKey
      && (u.classification == DRIFT <==>
            exists j :: 0 <= j < |discovered| && discovered[j].serviceKey == discovered[i].serviceKey && Managed(ops, discovered[j]))
  {
    ClassifiedIff(discovered, ops, host, cands, cols, cls, i);
    NoOverlapNoLosers(discovered, ops, host, cands, cols);
    hide Collisions.Losers, Collisions.Ambiguous, Collisions.IsCollisionList, NoOverlap, Classified;
    forall u | u in cls && u.discoveredId == discovered[i].id
      ensures u.confidence == HIGH && u.serviceKey == discovered[i].serviceKey
      ensures u.classification == DRIFT <==>
        exists j :: 0 <= j < |discovered| && discovered[j].serviceKey == discovered[i].serviceKey && Managed(ops, discovered[j])
    {
      UnlostVerdict(discovered, ops, cands, cls, i, u);
    }
  }

  lemma UnlostVerdict(discovered: seq<DiscoveredAPI>, ops: seq<ManagedOp>, cands: seq<Candidate>,
                      cls: seq<ClassificationResult>, i: nat, u: ClassificationResult)
    requires Matcher.IsLeftJoin(discovered, ops, cands) && CollisionLaws.DistinctIds(discovered) && i < |discovered|
    requires cls == Classifier.Results(cands, cands, {}, {}) && u in cls && u.discoveredId == discovered[i].id
    ensures u.confidence == HIGH && u.serviceKey == discovered[i].serviceKey
    ensures u.classification == DRIFT <==>
      exists j :: 0 <= j < |discovered| && discovered[j].serviceKey == discovered[i].serviceKey && Managed(ops, discovered[j])
  {
    var at := Classifier.ClassifiedExactly(cands, {}, {});
    var k :| 0 <= k < |cls| && cls[k] == u;
    assert Classifier.ResultAt(cands, {}, {}, at[k], u);
    Classifier.ServiceVerdict(cands, {}, {}, u);
    assert |cands| == |discovered|;
    forall j | 0 <= j < |discovered|
      ensures cands[j].discoveredId == discovered[j].id && cands[j].serviceKey == discovered[j].serviceKey
      ensures Classifier.Kept(cands[j], {}) <==> Managed(ops, discovered[j])
    {
      CandidateOf(discovered, ops, cands, j);
    }
    hide Classifier.Results, Matcher.IsLeftJoin, Managed;
    assert at[k] == i;
    match u.confidence
    case HIGH =>
    case LOW =>
    case AMBIGUOUS =>
  }

  // ---------- The phase ----------

  datatype Report = Report(classifications: seq<ClassificationResult>, upserted: nat, upsertErrors: nat,
                           resolveOk: bool, staleOk: bool)

  predicate Clean(r: Report) {
    r.upsertErrors == 0 && r.resolveOk && r.staleOk
  }

  /** How many statements of the cycle failed. */
  function Failures(r: Report): nat {
    r.upsertErrors + (if r.resolveOk then 0 else 1) + (if r.staleOk then 0 else 1)
  }

  method UpsertLoop(repo: UnmanagedRepo, cls: seq<ClassificationResult>, times: seq<int>)
    returns (upserted: nat, upsertErrors: nat)
    requires |times| == |cls|
    modifies repo
    ensures upserted + upsertErrors == |cls| && repo.failures == old(repo.failures) + upsertErrors
    ensures upsertErrors == 0 ==> repo.rows == UpsertAll(old(repo.rows), cls, times)
    ensures Inv(old(repo.rows)) && (forall u :: u in cls ==> WellFormedVerdict(u)) ==> Inv(repo.rows)
  {
    hide Inv, WellFormedVerdict, UpsertStep;
    upserted, upsertErrors := 0, 0;
    for i := 0 to |cls|
      invariant upserted + upsertErrors == i && repo.failures == old(repo.failures) + upsertErrors
      invariant upsertErrors == 0 ==> repo.rows == UpsertAll(old(repo.rows), cls[..i], times[..i])
      invariant Inv(old(repo.rows)) && (forall u :: u in cls ==> WellFormedVerdict(u)) ==> Inv(repo.rows)
    {
      assert cls[..i + 1][..i] == cls[..i] && times[..i + 1][..i] == times[..i];
      ghost var before := repo.rows;
      var ok := repo.Upsert(cls[i], times[i]);
      if Inv(before) && WellFormedVerdict(cls[i]) {
        UpsertKeepsInv(before, cls[i], times[i]);
      }
      if !ok {
        upsertErrors := upsertErrors + 1;
        continue;
      }
      upserted := upserted + 1;
    }
    assert cls[..|cls|] == cls && times[..|times|] == times;
  }

  method Compare(discovered: seq<DiscoveredAPI>, managedOps: seq<ManagedOp>, endpointHostname: int -> string)
    returns (cls: seq<ClassificationResult>, ghost cands: seq<Candidate>, ghost cols: seq<Collisions.Collision>)
    ensures Verdict(discovered, managedOps, endpointHostname, cands, cols, cls)
    ensures forall cs, ds, rs :: Verdict(discovered, managedOps, endpointHostname, cs, ds, rs) ==> rs == cls
  {
    hide Matcher.IsLeftJoin, Collisions.IsCollisionList, Collisions.Losers, Collisions.Ambiguous, Classifier.Results;
    var candidates := Matcher.Match(discovered, managedOps);
    var collisions := Collisions.DetectCollisions(candidates);
    var reclassified, ambiguousIDs := Collisions.ResolveCollisions(collisions, candidates, managedOps, endpointHostname);
    cls := Classifier.Classify(candidates, reclassified, ambiguousIDs);
    cands, cols := candidates, collisions;
    forall cs, ds, rs | Verdict(discovered, managedOps, endpointHostname, cs, ds, rs)
      ensures rs == cls
    {
      VerdictUnique(discovered, managedOps, endpointHostname, cs, ds, rs, cands, cols, cls);
    }
  }

  /** The table updates of a cycle, in their order, with the clock readings from position 1 on. */
  method Record(repo: UnmanagedRepo, cls: seq<ClassificationResult>, lastSeen: map<int, int>, staleAfter: int, clock: seq<int>)
    returns (report: Report)
    requires |clock| >= |cls| + 3
    modifies repo
    ensures report.classifications == cls && repo.failures == old(repo.failures) + Failures(report)
    ensures Clean(report) ==>
      var n := |cls|;
      repo.rows == Cycle(old(repo.rows), cls, clock[1..n + 1], clock[0], clock[n + 1], lastSeen, staleAfter, clock[n + 2])
    ensures Inv(old(repo.rows)) && (forall u :: u in cls ==> WellFormedVerdict(u)) ==> Inv(repo.rows)
  {
    hide Inv, WellFormedVerdict, UpsertAll, ResolveStep, StaleStep;
    var n := |cls|;
    var cycleStart := clock[0];
    var upserted, upsertErrors := UpsertLoop(repo, cls, clock[1..n + 1]);
    ghost var afterUpserts := repo.rows;
    var resolveOk, resolved := repo.MarkResolved(cycleStart, clock[n + 1]);
    ghost var afterResolve := repo.rows;
    var staleOk, stale := repo.MarkStale(lastSeen, staleAfter, clock[n + 2]);
    if Inv(afterUpserts) {
      ResolveKeepsInv(afterUpserts, cycleStart, clock[n + 1]);
      StaleKeepsInv(afterResolve, lastSeen, staleAfter, clock[n + 2]);
    }
    report := Report(cls, upserted, upsertErrors, resolveOk, staleOk);
  }

  method RunLoaded(repo: UnmanagedRepo, discovered: seq<DiscoveredAPI>, managedOps: seq<ManagedOp>,
                   endpointHostname: int -> string, lastSeen: map<int, int>, staleAfter: int, clock: seq<int>)
    returns (report: Report, ghost cands: seq<Candidate>, ghost cols: seq<Collisions.Collision>)
    requires CollisionLaws.DistinctIds(discovered) && |clock| >= |discovered| + 3
    requires forall op :: op in managedOps ==> op.managedApiPK != -1
    modifies repo
    ensures Verdict(discovered, managedOps, endpointHostname, cands, cols, report.classifications)
    ensures |report.classifications| <= |discovered| && repo.failures == old(repo.failures) + Failures(report)
    ensures Clean(report) ==>
      var n := |report.classifications|;
      repo.rows == Cycle(old(repo.rows), report.classifications, clock[1..n + 1], clock[0], clock[n + 1],
                         lastSeen, staleAfter, clock[n + 2])
    ensures Inv(old(repo.rows)) ==> Inv(repo.rows)
  {
    hide *;
    var cls;
    cls, cands, cols := Compare(discovered, managedOps, endpointHostname);
    VerdictGood(discovered, managedOps, endpointHostname, cands, cols, cls);
    report := Record(repo, cls, lastSeen, staleAfter, clock);
  }

  /** One cycle. A failed load of the discovered APIs or of the managed operations is none; it ends the
      cycle with an error and without a change. */
  method Run(repo: UnmanagedRepo, discovered: Option<seq<DiscoveredAPI>>, managedOps: Option<seq<ManagedOp>>,
             endpointHostname: int -> string, lastSeen: map<int, int>, staleAfter: int, clock: seq<int>)
    returns (ok: bool, report: Report, ghost cands: seq<Candidate>, ghost cols: seq<Collisions.Collision>)
    requires discovered.Some? ==> CollisionLaws.DistinctIds(discovered.value) && |clock| >= |discovered.value| + 3
    requires managedOps.Some? ==> forall op :: op in managedOps.value ==> op.managedApiPK != -1
    modifies repo
    ensures ok <==> discovered.Some? && (discovered.value == [] || managedOps.Some?)
    ensures !ok || discovered.value == [] ==> repo.rows == old(repo.rows) && report == Report([], 0, 0, true, true)
    ensures repo.failures == old(repo.failures) + Failures(report)
    ensures ok && discovered.value != [] ==>
      Verdict(discovered.value, managedOps.value, endpointHostname, cands, cols, report.classifications)
      && |report.classifications| <= |discovered.value|
    ensures ok && discovered.value != [] && Clean(report) ==>
      var n := |report.classifications|;
      repo.rows == Cycle(old(repo.rows), report.classifications, clock[1..n + 1], clock[0], clock[n + 1],
                         lastSeen, staleAfter, clock[n + 2])
    ensures Inv(old(repo.rows)) ==> Inv(repo.rows)
  {
    report, cands, cols := Report([], 0, 0, true, true), [], [];
    if discovered.None? {
      return false, report, cands, cols;
    }
    if |discovered.value| == 0 {
      return true, report, cands, cols;
    }
    if managedOps.None? {
      return false, report, cands, cols;
    }
    hide *;
    report, cands, cols := RunLoaded(repo, discovered.value, managedOps.value, endpointHostname, lastSeen, staleAfter, clock);
    ok := true;
  }
}
