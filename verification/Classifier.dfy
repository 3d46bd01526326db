/** internal/comparison/classifier.go: SHADOW and DRIFT. */
module Classifier {
  import opened Model

  /** The candidate stays managed: it matched and did not lose a collision. */
  predicate Kept(c: Candidate, reclassified: set<int>) {
    c.managed.Some? && c.discoveredId !in reclassified
  }

  /** The API of the first kept candidate of a service. */
  function ParentOf(cands: seq<Candidate>, reclassified: set<int>, sk: string): Option<int> {
    if cands == [] then None
    else
      var n := |cands| - 1;
      var before := ParentOf(cands[..n], reclassified, sk);
      if before.None? && Kept(cands[n], reclassified) && cands[n].serviceKey == sk
      then Some(cands[n].managed.value.apiPK) else before
  }

  function ConfidenceOf(c: Candidate, reclassified: set<int>, ambiguousIDs: set<int>): Confidence {
    if c.discoveredId in ambiguousIDs then AMBIGUOUS
    else if c.discoveredId in reclassified then LOW
    else HIGH
  }

  function ResultFor(c: Candidate, parent: Option<int>, confidence: Confidence): ClassificationResult {
    ClassificationResult(c.discoveredId, c.serviceKey, c.httpMethod, c.resourcePath,
                         if parent.Some? then DRIFT else SHADOW, confidence, parent)
  }

  function ResultOf(c: Candidate, all: seq<Candidate>, reclassified: set<int>, ambiguousIDs: set<int>): ClassificationResult {
    ResultFor(c, ParentOf(all, reclassified, c.serviceKey), ConfidenceOf(c, reclassified, ambiguousIDs))
  }

  /** The results for a prefix of the candidates. */
  function Results(prefix: seq<Candidate>, all: seq<Candidate>, reclassified: set<int>, ambiguousIDs: set<int>): seq<ClassificationResult> {
    if prefix == [] then []
    else
      var n := |prefix| - 1;
      Results(prefix[..n], all, reclassified, ambiguousIDs) +
      (if Kept(prefix[n], reclassified) then [] else [ResultOf(prefix[n], all, reclassified, ambiguousIDs)])
  }

  method ManagedServices(cands: seq<Candidate>, reclassified: set<int>) returns (managedServiceKeys: map<string, int>)
    ensures forall sk :: ParentOf(cands, reclassified, sk) ==
                         if sk in managedServiceKeys then Some(managedServiceKeys[sk]) else None
  {
    managedServiceKeys := map[];
    for i := 0 to |cands|
      invariant forall sk :: ParentOf(cands[..i], reclassified, sk) ==
                             if sk in managedServiceKeys then Some(managedServiceKeys[sk]) else None
    {
      var c := cands[i];
      assert cands[..i + 1][..i] == cands[..i];
      if c.managed.Some? && c.discoveredId !in reclassified {
        if c.serviceKey !in managedServiceKeys {
          managedServiceKeys := managedServiceKeys[c.serviceKey := c.managed.value.apiPK];
        }
      }
    }
    assert cands[..|cands|] == cands;
  }

  method Classify(cands: seq<Candidate>, reclassified: set<int>, ambiguousIDs: set<int>)
    returns (results: seq<ClassificationResult>)
    ensures results == Results(cands, cands, reclassified, ambiguousIDs)
  {
    var managedServiceKeys := ManagedServices(cands, reclassified);
    hide ParentOf;
    results := [];
    for i := 0 to |cands|
      invariant results == Results(cands[..i], cands, reclassified, ambiguousIDs)
    {
      var c := cands[i];
      assert cands[..i + 1][..i] == cands[..i];
      if c.managed.Some? && c.discoveredId !in reclassified {
        continue;
      }
      var confidence := HIGH;
      if c.discoveredId in ambiguousIDs {
        confidence := AMBIGUOUS;
      } else if c.discoveredId in reclassified {
        confidence := LOW;
      }
      var cr := ClassificationResult(c.discoveredId, c.serviceKey, c.httpMethod, c.resourcePath, SHADOW, confidence, None);
      if c.serviceKey in managedServiceKeys {
        cr := cr.(classification := DRIFT, managedApiId := Some(managedServiceKeys[c.serviceKey]));
      }
      results := results + [cr];
    }
    assert cands[..|cands|] == cands;
  }

  // ---------- What the results mean ----------

  lemma {:induction false} ParentIff(cands: seq<Candidate>, reclassified: set<int>, sk: string)
    ensures ParentOf(cands, reclassified, sk).Some? <==>
            exists i :: 0 <= i < |cands| && Kept(cands[i], reclassified) && cands[i].serviceKey == sk
    decreases |cands|
  {
    if cands != [] {
      var n := |cands| - 1;
      ParentIff(cands[..n], reclassified, sk);
      if ParentOf(cands[..n], reclassified, sk).Some? {
        var i :| 0 <= i < n && Kept(cands[..n][i], reclassified) && cands[..n][i].serviceKey == sk;
        assert cands[i] == cands[..n][i];
      }
    }
  }

  predicate Increasing(at: seq<nat>) {
    forall j, k :: 0 <= j < k < |at| ==> at[j] < at[k]
  }

  lemma IncreasingNext(at: seq<nat>, n: nat)
    requires Increasing(at) && forall k :: 0 <= k < |at| ==> at[k] < n
    ensures Increasing(at + [n])
  {}

  lemma ResultsSnoc(prefix: seq<Candidate>, c: Candidate, all: seq<Candidate>, reclassified: set<int>, ambiguousIDs: set<int>)
    ensures Results(prefix + [c], all, reclassified, ambiguousIDs) == Results(prefix, all, reclassified, ambiguousIDs) +
      (if Kept(c, reclassified) then [] else [ResultOf(c, all, reclassified, ambiguousIDs)])
  {
    hide ResultOf;
    assert (prefix + [c])[..|prefix|] == prefix;
  }

  /** Every candidate that is not kept is emitted exactly once, in the order of the candidates, and no
      other is: the source positions of the output are strictly increasing and are all of them. */
  lemma {:induction false} EmittedOnceInOrder(cands: seq<Candidate>, n: nat, reclassified: set<int>, ambiguousIDs: set<int>)
    returns (at: seq<nat>)
    requires n <= |cands|
    ensures |at| == |Results(cands[..n], cands, reclassified, ambiguousIDs)|
    ensures Increasing(at)
    ensures forall k :: 0 <= k < |at| ==> at[k] < n
    ensures forall k :: 0 <= k < |at| ==>
      Results(cands[..n], cands, reclassified, ambiguousIDs)[k] == ResultOf(cands[at[k]], cands, reclassified, ambiguousIDs)
    ensures forall i :: 0 <= i < n ==> (i in at <==> !Kept(cands[i], reclassified))
    decreases n
  {
    if n == 0 {
      at := [];
    } else {
      at := EmittedOnceInOrder(cands, n - 1, reclassified, ambiguousIDs);
      assert cands[..n] == cands[..n - 1] + [cands[n - 1]];
      ResultsSnoc(cands[..n - 1], cands[n - 1], cands, reclassified, ambiguousIDs);
      hide *;
      var before := at;
      if !Kept(cands[n - 1], reclassified) {
        at := before + [n - 1];
      }
      IncreasingNext(before, n - 1);
    }
  }

  /** Per service: one classification and one parent; DRIFT exactly when some kept match shares the
      service key; a parent exactly for DRIFT. */
  lemma ServiceVerdict(cands: seq<Candidate>, reclassified: set<int>, ambiguousIDs: set<int>, r: ClassificationResult)
    requires r in Results(cands, cands, reclassified, ambiguousIDs)
    ensures r.classification == DRIFT <==>
            exists i :: 0 <= i < |cands| && Kept(cands[i], reclassified) && cands[i].serviceKey == r.serviceKey
    ensures r.managedApiId == ParentOf(cands, reclassified, r.serviceKey)
    ensures r.managedApiId.Some? <==> r.classification == DRIFT
  {
    assert cands[..|cands|] == cands;
    var at := EmittedOnceInOrder(cands, |cands|, reclassified, ambiguousIDs);
    var k :| 0 <= k < |at| && Results(cands, cands, reclassified, ambiguousIDs)[k] == r;
    ParentIff(cands, reclassified, r.serviceKey);
  }

  /** The first candidate of the service that matched and did not lose its match. */
  predicate FirstKept(cands: seq<Candidate>, reclassified: set<int>, sk: string, i: nat) {
    && i < |cands| && cands[i].serviceKey == sk && cands[i].managed.Some? && cands[i].discoveredId !in reclassified
    && forall j :: 0 <= j < i && cands[j].serviceKey == sk ==> cands[j].managed.None? || cands[j].discoveredId in reclassified
  }

  lemma {:induction false} ParentIsFirst(cands: seq<Candidate>, reclassified: set<int>, sk: string, i: nat)
    requires FirstKept(cands, reclassified, sk, i)
    ensures ParentOf(cands, reclassified, sk) == Some(cands[i].managed.value.apiPK)
    decreases |cands|
  {
    var n := |cands| - 1;
    if i < n {
      assert cands[..n][i] == cands[i];
      ParentIsFirst(cands[..n], reclassified, sk, i);
    } else {
      ParentIff(cands[..n], reclassified, sk);
    }
  }

  /** Result r is what becomes of candidate i. */
  predicate ResultAt(cands: seq<Candidate>, reclassified: set<int>, ambiguousIDs: set<int>, i: nat, r: ClassificationResult) {
    i < |cands| &&
    var c := cands[i];
    && r.discoveredId == c.discoveredId && r.serviceKey == c.serviceKey
    && r.httpMethod == c.httpMethod && r.resourcePath == c.resourcePath
    && (r.classification == DRIFT <==> r.managedApiId.Some?)
    && (forall j :: 0 <= j < |cands| && FirstKept(cands, reclassified, c.serviceKey, j) ==>
          r.managedApiId == Some(cands[j].managed.value.apiPK))
    && (r.managedApiId.Some? ==> exists j :: 0 <= j < |cands| && FirstKept(cands, reclassified, c.serviceKey, j))
    && (r.confidence == AMBIGUOUS <==> c.discoveredId in ambiguousIDs)
    && (r.confidence == LOW <==> c.discoveredId in reclassified && c.discoveredId !in ambiguousIDs)
  }

  lemma FirstExists(cands: seq<Candidate>, reclassified: set<int>, sk: string) returns (i: nat)
    requires ParentOf(cands, reclassified, sk).Some?
    ensures FirstKept(cands, reclassified, sk, i)
  {
    ParentIff(cands, reclassified, sk);
    i := 0;
    while !(Kept(cands[i], reclassified) && cands[i].serviceKey == sk)
      invariant i < |cands|
      invariant exists k :: i <= k < |cands| && Kept(cands[k], reclassified) && cands[k].serviceKey == sk
      invariant forall j :: 0 <= j < i && cands[j].serviceKey == sk ==> cands[j].managed.None? || cands[j].discoveredId in reclassified
      decreases |cands| - i
    {
      i := i + 1;
    }
  }

  lemma ResultVerdict(cands: seq<Candidate>, reclassified: set<int>, ambiguousIDs: set<int>, i: nat)
    requires i < |cands|
    ensures ResultAt(cands, reclassified, ambiguousIDs, i, ResultOf(cands[i], cands, reclassified, ambiguousIDs))
  {
    var sk := cands[i].serviceKey;
    hide ParentOf;
    forall j | 0 <= j < |cands| && FirstKept(cands, reclassified, sk, j)
      ensures ParentOf(cands, reclassified, sk) == Some(cands[j].managed.value.apiPK)
    {
      ParentIsFirst(cands, reclassified, sk, j);
    }
    if ParentOf(cands, reclassified, sk).Some? {
      var j := FirstExists(cands, reclassified, sk);
    }
    hide FirstKept;
  }

  /** Exactly the candidates without a match, or with a lost one, are classified, in order; DRIFT when a
      candidate of the same service keeps a match, with the API of the first such one as parent; AMBIGUOUS
      before LOW before HIGH. */
  lemma ClassifiedExactly(cands: seq<Candidate>, reclassified: set<int>, ambiguousIDs: set<int>) returns (at: seq<nat>)
    ensures Increasing(at) && |at| == |Results(cands, cands, reclassified, ambiguousIDs)|
    ensures forall i :: 0 <= i < |cands| ==> (i in at <==> cands[i].managed.None? || cands[i].discoveredId in reclassified)
    ensures forall k :: 0 <= k < |at| ==>
      ResultAt(cands, reclassified, ambiguousIDs, at[k], Results(cands, cands, reclassified, ambiguousIDs)[k])
  {
    assert cands[..|cands|] == cands;
    at := EmittedOnceInOrder(cands, |cands|, reclassified, ambiguousIDs);
    hide Results, ResultOf, ResultAt;
    forall k | 0 <= k < |at|
      ensures ResultAt(cands, reclassified, ambiguousIDs, at[k], Results(cands, cands, reclassified, ambiguousIDs)[k])
    {
      ResultVerdict(cands, reclassified, ambiguousIDs, at[k]);
    }
  }

  lemma OneVerdictPerService(cands: seq<Candidate>, reclassified: set<int>, ambiguousIDs: set<int>,
                             r: ClassificationResult, s: ClassificationResult)
    requires r in Results(cands, cands, reclassified, ambiguousIDs)
    requires s in Results(cands, cands, reclassified, ambiguousIDs)
    requires r.serviceKey == s.serviceKey
    ensures r.classification == s.classification && r.managedApiId == s.managedApiId
  {
    ServiceVerdict(cands, reclassified, ambiguousIDs, r);
    ServiceVerdict(cands, reclassified, ambiguousIDs, s);
  }
}
