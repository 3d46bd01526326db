/** internal/comparison/matcher.go: the left join of discovered APIs with managed operations. */
module Matcher {
  import opened Model

  datatype MatchKey = MatchKey(httpMethod: string, path: string)

  function KeyOf(op: ManagedOp): MatchKey {
    MatchKey(op.httpMethod, op.matchPath)
  }

  predicate IsLast(ops: seq<ManagedOp>, key: MatchKey, i: nat) {
    i < |ops| && KeyOf(ops[i]) == key && forall j :: i < j < |ops| ==> KeyOf(ops[j]) != key
  }

  /** A linear scan: the last operation with the given method and path. */
  function LastOp(ops: seq<ManagedOp>, key: MatchKey): (r: Option<ManagedOp>)
    ensures r.None? <==> forall i :: 0 <= i < |ops| ==> KeyOf(ops[i]) != key
    ensures r.Some? ==> exists i :: 0 <= i < |ops| && IsLast(ops, key, i) && ops[i] == r.value
  {
    if ops == [] then None
    else
      var n := |ops| - 1;
      if KeyOf(ops[n]) == key then
        assert IsLast(ops, key, n);
        Some(ops[n])
      else
        IsLastOfPrefix(ops, key);
        LastOp(ops[..n], key)
  }

  lemma IsLastOfPrefix(ops: seq<ManagedOp>, key: MatchKey)
    requires |ops| > 0 && KeyOf(ops[|ops| - 1]) != key
    ensures forall i: nat :: IsLast(ops[..|ops| - 1], key, i) ==> IsLast(ops, key, i)
  {
    forall i: nat | IsLast(ops[..|ops| - 1], key, i)
      ensures IsLast(ops, key, i)
    {
      assert forall j :: i < j < |ops| - 1 ==> ops[j] == ops[..|ops| - 1][j];
    }
  }

  function CandidateFor(d: DiscoveredAPI, op: Option<ManagedOp>): Candidate {
    Candidate(d.id, d.serviceKey, d.httpMethod, d.resourcePath, d.requestDomain, d.hostIP, d.serverPort, d.hitCount,
              match op
              case None => None
              case Some(o) => Some(ManagedMatch(o.id, o.apimApiId, o.managedApiPK)))
  }

  function JoinOf(d: DiscoveredAPI, ops: seq<ManagedOp>): Candidate {
    CandidateFor(d, LastOp(ops, MatchKey(d.httpMethod, d.resourcePath)))
  }

  /** One candidate per discovered API, in order, joined with the last operation on its method and path. */
  predicate IsLeftJoin(discovered: seq<DiscoveredAPI>, ops: seq<ManagedOp>, cands: seq<Candidate>) {
    |cands| == |discovered| && forall i :: 0 <= i < |cands| ==> cands[i] == JoinOf(discovered[i], ops)
  }

  ghost predicate IndexOf(ops: seq<ManagedOp>, index: map<MatchKey, ManagedOp>) {
    forall key :: LastOp(ops, key) == if key in index then Some(index[key]) else None
  }

  lemma IndexSnoc(ops: seq<ManagedOp>, op: ManagedOp, index: map<MatchKey, ManagedOp>)
    requires IndexOf(ops, index)
    ensures IndexOf(ops + [op], index[KeyOf(op) := op])
  {
    assert (ops + [op])[..|ops|] == ops;
  }

  method BuildIndex(managedOps: seq<ManagedOp>) returns (managedIndex: map<MatchKey, ManagedOp>)
    ensures IndexOf(managedOps, managedIndex)
  {
    managedIndex := map[];
    for i := 0 to |managedOps|
      invariant IndexOf(managedOps[..i], managedIndex)
    {
      var op := managedOps[i];
      var key := MatchKey(op.httpMethod, op.matchPath);
      IndexSnoc(managedOps[..i], op, managedIndex);
      assert managedOps[..i + 1] == managedOps[..i] + [op];
      managedIndex := managedIndex[key := op];
    }
    assert managedOps[..|managedOps|] == managedOps;
  }

  method JoinOne(d: DiscoveredAPI, managedIndex: map<MatchKey, ManagedOp>, ghost ops: seq<ManagedOp>) returns (cr: Candidate)
    requires IndexOf(ops, managedIndex)
    ensures cr == JoinOf(d, ops)
  {
    hide LastOp;
    cr := Candidate(d.id, d.serviceKey, d.httpMethod, d.resourcePath, d.requestDomain, d.hostIP,
                    d.serverPort, d.hitCount, None);
    var key := MatchKey(d.httpMethod, d.resourcePath);
    if key in managedIndex {
      var op := managedIndex[key];
      cr := cr.(managed := Some(ManagedMatch(op.id, op.apimApiId, op.managedApiPK)));
    }
  }

  method Match(discovered: seq<DiscoveredAPI>, managedOps: seq<ManagedOp>) returns (results: seq<Candidate>)
    ensures IsLeftJoin(discovered, managedOps, results)
  {
    hide IndexOf, JoinOf;
    var managedIndex := BuildIndex(managedOps);
    results := [];
    for i := 0 to |discovered|
      invariant |results| == i
      invariant forall j :: 0 <= j < i ==> results[j] == JoinOf(discovered[j], managedOps)
    {
      var cr := JoinOne(discovered[i], managedIndex, managedOps);
      results := results + [cr];
    }
  }

  /** The last operation with the method and the path of a discovered API is its match, whatever comes before. */
  lemma LastMatches(d: DiscoveredAPI, before: seq<ManagedOp>, op: ManagedOp, later: seq<ManagedOp>)
    requires op.httpMethod == d.httpMethod && op.matchPath == d.resourcePath
    requires forall o :: o in later ==> o.httpMethod != d.httpMethod || o.matchPath != d.resourcePath
    ensures JoinOf(d, before + [op] + later).managed == Some(ManagedMatch(op.id, op.apimApiId, op.managedApiPK))
  {
    var ops, key := before + [op] + later, MatchKey(d.httpMethod, d.resourcePath);
    var n := |before|;
    assert ops[n] == op;
    assert forall j :: n < j < |ops| ==> ops[j] == later[j - n - 1] && later[j - n - 1] in later;
    var found := LastOp(ops, key);
    hide LastOp;
    var i :| 0 <= i < |ops| && IsLast(ops, key, i) && ops[i] == found.value;
    assert i == n;
  }

  /** Everything else of a candidate is the discovered API's, and without such an operation it has no match. */
  lemma JoinKeeps(d: DiscoveredAPI, ops: seq<ManagedOp>)
    ensures var c := JoinOf(d, ops);
      && c.discoveredId == d.id && c.serviceKey == d.serviceKey && c.httpMethod == d.httpMethod
      && c.resourcePath == d.resourcePath && c.requestDomain == d.requestDomain && c.hostIP == d.hostIP
      && c.serverPort == d.serverPort && c.hitCount == d.hitCount
      && (c.managed.None? <==> forall op :: op in ops ==> op.httpMethod != d.httpMethod || op.matchPath != d.resourcePath)
  {
    var found := LastOp(ops, MatchKey(d.httpMethod, d.resourcePath));
    hide LastOp;
    assert forall i :: 0 <= i < |ops| ==> ops[i] in ops;
  }
}
