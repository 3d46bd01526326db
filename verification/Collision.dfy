/** internal/comparison/collision.go: several services hitting one managed operation. */
module Collisions {
  import opened Text
  import opened Model

  datatype CollisionKey = CollisionKey(httpMethod: string, path: string, apimApiId: string)

  datatype Collision = Collision(httpMethod: string, matchPath: string, apimApiId: string, managedApiPK: int,
                                 serviceKeys: seq<string>)

  datatype DiscoveredKey = DiscoveredKey(serviceKey: string, httpMethod: string, resourcePath: string)

  // ---------- DetectCollisions ----------

  function KeyOf(c: Candidate): CollisionKey
    requires c.managed.Some?
  {
    CollisionKey(c.httpMethod, c.resourcePath, c.managed.value.apimApiId)
  }

  predicate Hits(c: Candidate, k: CollisionKey) {
    c.managed.Some? && KeyOf(c) == k
  }

  /** The services whose candidates hit the managed operation k. */
  function ServicesAt(cands: seq<Candidate>, k: CollisionKey): set<string> {
    set c | c in cands && Hits(c, k) :: c.serviceKey
  }

  /** The primary key recorded for k: the one of the last candidate that hits it. */
  function ApiPKAt(cands: seq<Candidate>, k: CollisionKey): int {
    if cands == [] then 0
    else
      var n := |cands| - 1;
      if Hits(cands[n], k) then cands[n].managed.value.apiPK else ApiPKAt(cands[..n], k)
  }

  function CollisionKeyOf(col: Collision): CollisionKey {
    CollisionKey(col.httpMethod, col.matchPath, col.apimApiId)
  }

  predicate Distinct(s: seq<string>) {
    forall i, j :: 0 <= i < j < |s| ==> s[i] != s[j]
  }

  function Elements(s: seq<string>): set<string> {
    set x | x in s
  }

  /** A collision that faithfully describes the operation it is about. */
  predicate Describes(cands: seq<Candidate>, col: Collision) {
    var k := CollisionKeyOf(col);
    && |ServicesAt(cands, k)| > 1
    && Distinct(col.serviceKeys)
    && Elements(col.serviceKeys) == ServicesAt(cands, k)
    && col.managedApiPK == ApiPKAt(cands, k)
  }

  /** The list names each operation with several services once; its order and the order of the
      service keys inside an entry are whatever Go's map iteration produced. */
  ghost predicate IsCollisionList(cands: seq<Candidate>, cols: seq<Collision>) {
    && (forall i :: 0 <= i < |cols| ==> Describes(cands, cols[i]))
    && (forall i, j :: 0 <= i < j < |cols| ==> CollisionKeyOf(cols[i]) != CollisionKeyOf(cols[j]))
    && (forall k :: |ServicesAt(cands, k)| > 1 ==> exists i :: 0 <= i < |cols| && CollisionKeyOf(cols[i]) == k)
  }

  ghost predicate Grouped(cands: seq<Candidate>, groups: map<CollisionKey, set<string>>, pkMap: map<CollisionKey, int>) {
    && groups.Keys == pkMap.Keys
    && (forall k :: ServicesAt(cands, k) == if k in groups then groups[k] else {})
    && (forall k :: k in pkMap ==> pkMap[k] == ApiPKAt(cands, k))
  }

  lemma ServicesSnoc(cands: seq<Candidate>, c: Candidate, k: CollisionKey)
    ensures ServicesAt(cands + [c], k) == ServicesAt(cands, k) + (if Hits(c, k) then {c.serviceKey} else {})
    ensures ApiPKAt(cands + [c], k) == if Hits(c, k) then c.managed.value.apiPK else ApiPKAt(cands, k)
  {
    var all := cands + [c];
    assert all[..|cands|] == cands;
    forall s | s in ServicesAt(cands, k) + (if Hits(c, k) then {c.serviceKey} else {})
      ensures s in ServicesAt(all, k)
    {
      if s in ServicesAt(cands, k) {
        var d :| d in cands && Hits(d, k) && d.serviceKey == s;
        assert d in all;
      } else {
        assert all[|cands|] == c;
      }
    }
  }

  lemma GroupedMiss(cands: seq<Candidate>, c: Candidate, groups: map<CollisionKey, set<string>>, pkMap: map<CollisionKey, int>)
    requires Grouped(cands, groups, pkMap) && c.managed.None?
    ensures Grouped(cands + [c], groups, pkMap)
  {
    forall k {
      ServicesSnoc(cands, c, k);
    }
    hide ServicesAt, ApiPKAt;
  }

  lemma GroupedHit(cands: seq<Candidate>, c: Candidate, groups: map<CollisionKey, set<string>>, pkMap: map<CollisionKey, int>)
    requires Grouped(cands, groups, pkMap) && c.managed.Some?
    ensures var key := KeyOf(c);
      Grouped(cands + [c], groups[key := (if key in groups then groups[key] else {}) + {c.serviceKey}],
              pkMap[key := c.managed.value.apiPK])
  {
    forall k {
      ServicesSnoc(cands, c, k);
    }
    hide ServicesAt, ApiPKAt, KeyOf;
  }

  lemma NothingGrouped()
    ensures Grouped([], map[], map[])
  {}

  method GroupMatches(cands: seq<Candidate>)
    returns (groups: map<CollisionKey, set<string>>, pkMap: map<CollisionKey, int>)
    ensures Grouped(cands, groups, pkMap)
  {
    hide Grouped;
    groups, pkMap := map[], map[];
    NothingGrouped();
    for i := 0 to |cands|
      invariant Grouped(cands[..i], groups, pkMap)
    {
      var c := cands[i];
      assert cands[..i + 1] == cands[..i] + [c];
      if c.managed.None? {
        GroupedMiss(cands[..i], c, groups, pkMap);
        continue;
      }
      var key := CollisionKey(c.httpMethod, c.resourcePath, c.managed.value.apimApiId);
      GroupedHit(cands[..i], c, groups, pkMap);
      ghost var after := groups[key := (if key in groups then groups[key] else {}) + {c.serviceKey}];
      if key !in groups {
        groups := groups[key := {}];
      }
      groups := groups[key := groups[key] + {c.serviceKey}];
      assert groups == after;
      pkMap := pkMap[key := c.managed.value.apiPK];
    }
    assert cands[..|cands|] == cands;
  }

  /** Ranging over a Go map used as a set: every element once, in arbitrary order. */
  method InAnyOrder(s: set<string>) returns (r: seq<string>)
    ensures Distinct(r) && Elements(r) == s
  {
    r := [];
    var pending := s;
    while pending != {}
      invariant Distinct(r) && Elements(r) == s - pending && pending <= s
      decreases |pending|
    {
      var x :| x in pending;
      assert Elements(r + [x]) == Elements(r) + {x};
      assert x !in Elements(r);
      r := r + [x];
      pending := pending - {x};
    }
  }

  /** The list so far, when the groups in pending have not been visited. */
  ghost predicate Listed(cands: seq<Candidate>, groups: map<CollisionKey, set<string>>, pending: set<CollisionKey>,
                         cols: seq<Collision>)
  {
    && (forall i :: 0 <= i < |cols| ==> Describes(cands, cols[i]) && CollisionKeyOf(cols[i]) !in pending)
    && (forall i, j :: 0 <= i < j < |cols| ==> CollisionKeyOf(cols[i]) != CollisionKeyOf(cols[j]))
    && (forall k :: k in groups.Keys && k !in pending && |groups[k]| > 1 ==>
          exists i :: 0 <= i < |cols| && CollisionKeyOf(cols[i]) == k)
  }

  lemma ListedSnoc(cands: seq<Candidate>, groups: map<CollisionKey, set<string>>, pending: set<CollisionKey>,
                   cols: seq<Collision>, col: Collision)
    requires Listed(cands, groups, pending, cols)
    requires Describes(cands, col) && CollisionKeyOf(col) in pending
    ensures Listed(cands, groups, pending - {CollisionKeyOf(col)}, cols + [col])
  {
    hide Describes;
    var all := cols + [col];
    assert all[|cols|] == col;
    forall k | k in groups.Keys && k !in pending - {CollisionKeyOf(col)} && |groups[k]| > 1
      ensures exists i :: 0 <= i < |all| && CollisionKeyOf(all[i]) == k
    {
      if k != CollisionKeyOf(col) {
        var i :| 0 <= i < |cols| && CollisionKeyOf(cols[i]) == k;
        assert CollisionKeyOf(all[i]) == k;
      }
    }
  }

  lemma NoneListed(cands: seq<Candidate>, groups: map<CollisionKey, set<string>>)
    ensures Listed(cands, groups, groups.Keys, [])
  {}

  lemma ListedSkip(cands: seq<Candidate>, groups: map<CollisionKey, set<string>>, pending: set<CollisionKey>,
                   cols: seq<Collision>, key: CollisionKey)
    requires Listed(cands, groups, pending, cols) && key in groups && |groups[key]| <= 1
    ensures Listed(cands, groups, pending - {key}, cols)
  {
    hide Describes;
  }

  lemma AllListed(cands: seq<Candidate>, groups: map<CollisionKey, set<string>>, pkMap: map<CollisionKey, int>, cols: seq<Collision>)
    requires Grouped(cands, groups, pkMap) && Listed(cands, groups, {}, cols)
    ensures IsCollisionList(cands, cols)
  {
    hide Describes, ServicesAt, ApiPKAt;
    forall k | |ServicesAt(cands, k)| > 1
      ensures exists i :: 0 <= i < |cols| && CollisionKeyOf(cols[i]) == k
    {
      assert k in groups.Keys && |groups[k]| > 1;
    }
  }

  /** The collision of a group with several services. */
  method DescribeGroup(key: CollisionKey, sks: set<string>, pk: int, ghost cands: seq<Candidate>) returns (col: Collision)
    requires sks == ServicesAt(cands, key) && |sks| > 1 && pk == ApiPKAt(cands, key)
    ensures Describes(cands, col) && CollisionKeyOf(col) == key
  {
    hide ServicesAt, ApiPKAt;
    var serviceKeys := InAnyOrder(sks);
    col := Collision(key.httpMethod, key.path, key.apimApiId, pk, serviceKeys);
    assert CollisionKeyOf(col) == key;
  }

  lemma GroupAt(cands: seq<Candidate>, groups: map<CollisionKey, set<string>>, pkMap: map<CollisionKey, int>, key: CollisionKey)
    requires Grouped(cands, groups, pkMap) && key in groups
    ensures key in pkMap && groups[key] == ServicesAt(cands, key) && pkMap[key] == ApiPKAt(cands, key)
  {
    hide ServicesAt, ApiPKAt;
  }

  method DetectCollisions(cands: seq<Candidate>) returns (collisions: seq<Collision>)
    ensures IsCollisionList(cands, collisions)
  {
    hide *;
    var groups, pkMap := GroupMatches(cands);
    collisions := [];
    var pending := groups.Keys;
    NoneListed(cands, groups);
    while pending != {}
      invariant pending <= groups.Keys
      invariant Listed(cands, groups, pending, collisions)
      decreases |pending|
    {
      var key :| key in pending;
      var sks := groups[key];
      GroupAt(cands, groups, pkMap, key);
      if |sks| > 1 {
        var col := DescribeGroup(key, sks, pkMap[key], cands);
        ListedSnoc(cands, groups, pending, collisions, col);
        collisions := collisions + [col];
      } else {
        ListedSkip(cands, groups, pending, collisions, key);
      }
      pending := pending - {key};
    }
    AllListed(cands, groups, pkMap, collisions);
  }

  // ---------- Affinity scores and ties ----------

  function OpsForAPI(ops: seq<ManagedOp>, apiId: string): seq<ManagedOp> {
    if ops == [] then []
    else
      var n := |ops| - 1;
      OpsForAPI(ops[..n], apiId) + (if ops[n].apimApiId == apiId then [ops[n]] else [])
  }

  function DiscoveredSet(cands: seq<Candidate>): set<DiscoveredKey> {
    set c | c in cands :: DiscoveredKey(c.serviceKey, c.httpMethod, c.resourcePath)
  }

  /** How many of the given operations the service has been seen serving. */
  function Affinity(found: set<DiscoveredKey>, ops: seq<ManagedOp>, sk: string): nat {
    if ops == [] then 0
    else
      var n := |ops| - 1;
      Affinity(found, ops[..n], sk) + (if DiscoveredKey(sk, ops[n].httpMethod, ops[n].matchPath) in found then 1 else 0)
  }

  /** The score a service ends up with: its affinity, once for every time it is listed. */
  function Score(keys: multiset<string>, found: set<DiscoveredKey>, ops: seq<ManagedOp>, sk: string): nat {
    keys[sk] * Affinity(found, ops, sk)
  }

  predicate Top(keys: multiset<string>, found: set<DiscoveredKey>, ops: seq<ManagedOp>, sk: string) {
    Score(keys, found, ops, sk) > 0 &&
    forall k :: k in keys ==> Score(keys, found, ops, k) <= Score(keys, found, ops, sk)
  }

  /** The services sharing the highest positive score. */
  function TiedKeys(keys: multiset<string>, found: set<DiscoveredKey>, ops: seq<ManagedOp>): set<string> {
    set sk | sk in keys && Top(keys, found, ops, sk)
  }

  /** The first non-empty request domain seen for a service, or "". */
  function DomainOf(cands: seq<Candidate>, sk: string): string {
    if cands == [] then ""
    else
      var n := |cands| - 1;
      var before := DomainOf(cands[..n], sk);
      if before == "" && cands[n].serviceKey == sk then cands[n].requestDomain else before
  }

  function StripPort(hostPort: string): string {
    var idx := LastIndex(hostPort, ':');
    if idx != -1 then hostPort[..idx] else hostPort
  }

  predicate IsLeast(s: set<string>, x: string) {
    x in s && forall y :: y in s ==> LexLeq(x, y)
  }

  lemma {:induction false} LeastExists(s: set<string>) returns (x: string)
    requires s != {}
    ensures IsLeast(s, x)
    decreases |s|
  {
    var y :| y in s;
    if s == {y} {
      LexTotal(y, y);
      x := y;
    } else {
      var z := LeastExists(s - {y});
      LexTotal(y, z);
      LexTotal(y, y);
      x := if LexLeq(y, z) then y else z;
      forall w | w in s
        ensures LexLeq(x, w)
      {
        if w != y && x == y {
          LexTransitive(y, z, w);
        }
      }
    }
  }

  lemma LeastUnique(s: set<string>, x: string, y: string)
    requires IsLeast(s, x) && IsLeast(s, y)
    ensures x == y
  {
    LexTotal(x, y);
  }

  datatype Outcome = Winner(serviceKey: string) | Unresolved

  /** The tied services whose domain is the host of the API's endpoint. */
  function AtEndpoint(tied: set<string>, cands: seq<Candidate>, host: string): set<string> {
    set sk | sk in tied && StripPort(DomainOf(cands, sk)) == host
  }

  /** The rule: a sole top scorer wins; otherwise the alphabetically first tied service at the API's
      endpoint; otherwise nobody. An empty winner name reads as "no winner" in the tie-break. */
  ghost predicate Decides(tied: set<string>, cands: seq<Candidate>, host: string, o: Outcome) {
    if |tied| == 1 then o.Winner? && tied == {o.serviceKey}
    else
      var here := AtEndpoint(tied, cands, host);
      if here == {} || IsLeast(here, "") then o == Unresolved
      else o.Winner? && IsLeast(here, o.serviceKey)
  }

  lemma DecidesUnique(tied: set<string>, cands: seq<Candidate>, host: string, o: Outcome, p: Outcome)
    requires Decides(tied, cands, host, o) && Decides(tied, cands, host, p)
    ensures o == p
  {
    if |tied| == 1 {
      assert o.serviceKey in {p.serviceKey};
    } else if o.Winner? {
      LeastUnique(AtEndpoint(tied, cands, host), o.serviceKey, p.serviceKey);
    }
  }

  lemma DecidesTotal(tied: set<string>, cands: seq<Candidate>, host: string) returns (o: Outcome)
    ensures Decides(tied, cands, host, o)
  {
    var here := AtEndpoint(tied, cands, host);
    if |tied| == 1 {
      var x :| x in tied;
      assert |tied - {x}| == 0;
      o := Winner(x);
    } else if here == {} {
      o := Unresolved;
    } else {
      var x := LeastExists(here);
      if IsLeast(here, "") {
        o := Unresolved;
      } else {
        o := Winner(x);
      }
    }
  }

  /** What is decided about an operation: it depends on the service keys only as a multiset. */
  ghost predicate Settles(keys: multiset<string>, apiId: string, apiPK: int, cands: seq<Candidate>, ops: seq<ManagedOp>,
                          host: int -> string, o: Outcome)
  {
    Decides(TiedKeys(keys, DiscoveredSet(cands), OpsForAPI(ops, apiId)), cands, host(apiPK), o)
  }

  ghost predicate SettledAs(col: Collision, cands: seq<Candidate>, ops: seq<ManagedOp>, host: int -> string, o: Outcome) {
    Settles(multiset(col.serviceKeys), col.apimApiId, col.managedApiPK, cands, ops, host, o)
  }

  predicate At(c: Candidate, col: Collision) {
    c.httpMethod == col.httpMethod && c.resourcePath == col.matchPath
  }

  /** c loses collision col: another service won it. */
  ghost predicate Loses(c: Candidate, col: Collision, cands: seq<Candidate>, ops: seq<ManagedOp>, host: int -> string) {
    At(c, col) && exists w :: SettledAs(col, cands, ops, host, Winner(w)) && c.serviceKey != w
  }

  ghost predicate Undecided(c: Candidate, col: Collision, cands: seq<Candidate>, ops: seq<ManagedOp>, host: int -> string) {
    At(c, col) && SettledAs(col, cands, ops, host, Unresolved)
  }

  ghost function Losers(cols: seq<Collision>, cands: seq<Candidate>, ops: seq<ManagedOp>, host: int -> string): set<int> {
    set c, col | c in cands && col in cols && Loses(c, col, cands, ops, host) :: c.discoveredId
  }

  ghost function Ambiguous(cols: seq<Collision>, cands: seq<Candidate>, ops: seq<ManagedOp>, host: int -> string): set<int> {
    set c, col | c in cands && col in cols && Undecided(c, col, cands, ops, host) :: c.discoveredId
  }

  // ---------- The loops of ResolveCollisions ----------

  function Get(m: map<string, nat>, k: string): nat {
    if k in m then m[k] else 0
  }

  ghost predicate Scored(scores: map<string, nat>, keys: multiset<string>, found: set<DiscoveredKey>, ops: seq<ManagedOp>) {
    && (forall sk :: Get(scores, sk) == Score(keys, found, ops, sk))
    && (forall sk :: sk in scores ==> scores[sk] > 0)
  }

  method ScoreKeys(keys: seq<string>, found: set<DiscoveredKey>, apiOps: seq<ManagedOp>) returns (scores: map<string, nat>)
    ensures Scored(scores, multiset(keys), found, apiOps)
  {
    scores := map[];
    for i := 0 to |keys|
      invariant Scored(scores, multiset(keys[..i]), found, apiOps)
    {
      var sk := keys[i];
      ghost var before := scores;
      for j := 0 to |apiOps|
        invariant forall k :: k in scores ==> scores[k] > 0
        invariant forall k :: k != sk ==> Get(scores, k) == Get(before, k)
        invariant Get(scores, sk) == Get(before, sk) + Affinity(found, apiOps[..j], sk)
      {
        var mOp := apiOps[j];
        assert apiOps[..j + 1][..j] == apiOps[..j];
        if DiscoveredKey(sk, mOp.httpMethod, mOp.matchPath) in found {
          scores := scores[sk := Get(scores, sk) + 1];
        }
      }
      assert apiOps[..|apiOps|] == apiOps;
      assert keys[..i + 1] == keys[..i] + [sk];
      OneMore(multiset(keys[..i])[sk], Affinity(found, apiOps, sk));
    }
    assert keys[..|keys|] == keys;
  }

  lemma OneMore(n: nat, a: nat)
    ensures (n + 1) * a == n * a + a
  {}

  /** Ranging over the scores twice: the maximum, then the keys that reach it. */
  method FindTied(scores: map<string, nat>, ghost keys: multiset<string>, ghost found: set<DiscoveredKey>,
                  ghost ops: seq<ManagedOp>)
    returns (tied: set<string>)
    requires Scored(scores, keys, found, ops)
    ensures tied == TiedKeys(keys, found, ops)
  {
    var maxScore: nat := 0;
    var pending := scores.Keys;
    while pending != {}
      invariant pending <= scores.Keys
      invariant forall k :: k in scores.Keys - pending ==> scores[k] <= maxScore
      invariant maxScore == 0 || exists k :: k in scores && scores[k] == maxScore
      decreases |pending|
    {
      var sk :| sk in pending;
      if scores[sk] > maxScore {
        maxScore := scores[sk];
      }
      pending := pending - {sk};
    }
    tied := set sk | sk in scores && scores[sk] == maxScore;
    ScoredTop(scores, keys, found, ops, maxScore);
  }

  lemma ScoredTop(scores: map<string, nat>, keys: multiset<string>, found: set<DiscoveredKey>, ops: seq<ManagedOp>, max: nat)
    requires Scored(scores, keys, found, ops)
    requires forall k :: k in scores ==> scores[k] <= max
    requires max == 0 || exists k :: k in scores && scores[k] == max
    ensures (set sk | sk in scores && scores[sk] == max) == TiedKeys(keys, found, ops)
  {
    forall sk
      ensures sk in scores && scores[sk] == max <==> sk in keys && Top(keys, found, ops, sk)
    {
      assert Get(scores, sk) == Score(keys, found, ops, sk);
      if sk in scores && scores[sk] == max {
        assert sk in keys;
        forall k | k in keys
          ensures Score(keys, found, ops, k) <= max
        {
          assert Get(scores, k) == Score(keys, found, ops, k);
        }
      }
      if sk in keys && Top(keys, found, ops, sk) {
        var k :| k in scores && scores[k] == max;
        assert Get(scores, k) == Score(keys, found, ops, k) > 0;
        assert k in keys;
      }
    }
  }

  predicate Sorted(s: seq<string>) {
    forall i, j :: 0 <= i < j < |s| ==> LexLeq(s[i], s[j])
  }

  /** The keys sorted so far, which come before the rest. */
  predicate SortedBefore(r: seq<string>, rest: set<string>, s: set<string>) {
    && rest <= s && Elements(r) == s - rest && |r| == |s| - |rest| && Sorted(r)
    && forall x, y :: x in r && y in rest ==> LexLeq(x, y)
  }

  lemma SortNext(r: seq<string>, rest: set<string>, s: set<string>, x: string)
    requires SortedBefore(r, rest, s) && IsLeast(rest, x)
    ensures SortedBefore(r + [x], rest - {x}, s)
  {
    hide LexLeq;
    assert Elements(r + [x]) == Elements(r) + {x};
    assert |rest - {x}| == |rest| - 1;
  }

  /** sort.Strings over the tied keys: smallest first. */
  method SortKeys(s: set<string>) returns (r: seq<string>)
    ensures Sorted(r) && Elements(r) == s && |r| == |s|
  {
    r := [];
    var rest := s;
    while rest != {}
      invariant SortedBefore(r, rest, s)
      decreases |rest|
    {
      ghost var l := LeastExists(rest);
      hide LexLeq, Sorted;
      var x :| IsLeast(rest, x);
      SortNext(r, rest, s, x);
      r := r + [x];
      rest := rest - {x};
    }
  }

  method PickWinner(tied: set<string>, domainForSK: map<string, string>, endpointHost: string, ghost cands: seq<Candidate>)
    returns (resolved: bool, winner: string)
    requires forall sk :: DomainOf(cands, sk) == if sk in domainForSK then domainForSK[sk] else ""
    ensures Decides(tied, cands, endpointHost, if resolved then Winner(winner) else Unresolved)
  {
    var tiedKeys := SortKeys(tied);
    winner := "";
    if |tiedKeys| == 1 {
      winner := tiedKeys[0];
      assert Elements(tiedKeys) == {tiedKeys[0]};
      return true, winner;
    }
    ghost var here := AtEndpoint(tied, cands, endpointHost);
    for i := 0 to |tiedKeys|
      invariant winner == ""
      invariant forall j :: 0 <= j < i ==> tiedKeys[j] !in here
    {
      var domain := if tiedKeys[i] in domainForSK then domainForSK[tiedKeys[i]] else "";
      if StripPort(domain) == endpointHost {
        winner := tiedKeys[i];
        assert winner in Elements(tiedKeys);
        assert IsLeast(here, winner) by {
          FirstIsLeast(tiedKeys, here, i);
        }
        if IsLeast(here, "") {
          LeastUnique(here, winner, "");
        }
        return winner != "", winner;
      }
    }
    assert here == {} by {
      assert forall x :: x in here ==> x in Elements(tiedKeys);
    }
    return false, winner;
  }

  lemma FirstIsLeast(s: seq<string>, here: set<string>, i: nat)
    requires Sorted(s) && i < |s| && s[i] in here
    requires here <= Elements(s)
    requires forall j :: 0 <= j < i ==> s[j] !in here
    ensures IsLeast(here, s[i])
  {
    forall y | y in here
      ensures LexLeq(s[i], y)
    {
      assert y in Elements(s);
      var j :| 0 <= j < |s| && s[j] == y;
      LexTotal(y, y);
    }
  }

  method IndexDiscovered(cands: seq<Candidate>) returns (found: set<DiscoveredKey>)
    ensures found == DiscoveredSet(cands)
  {
    found := {};
    for i := 0 to |cands|
      invariant found == DiscoveredSet(cands[..i])
    {
      assert cands[..i + 1] == cands[..i] + [cands[i]];
      found := found + {DiscoveredKey(cands[i].serviceKey, cands[i].httpMethod, cands[i].resourcePath)};
    }
    assert cands[..|cands|] == cands;
  }

  method IndexOps(managedOps: seq<ManagedOp>) returns (opsForAPI: map<string, seq<ManagedOp>>)
    ensures forall a :: OpsForAPI(managedOps, a) == if a in opsForAPI then opsForAPI[a] else []
  {
    opsForAPI := map[];
    for i := 0 to |managedOps|
      invariant forall a :: OpsForAPI(managedOps[..i], a) == if a in opsForAPI then opsForAPI[a] else []
    {
      var op := managedOps[i];
      assert managedOps[..i + 1][..i] == managedOps[..i];
      var listed := if op.apimApiId in opsForAPI then opsForAPI[op.apimApiId] else [];
      opsForAPI := opsForAPI[op.apimApiId := listed + [op]];
    }
    assert managedOps[..|managedOps|] == managedOps;
  }

  method IndexDomains(cands: seq<Candidate>) returns (domainForSK: map<string, string>)
    ensures forall sk :: DomainOf(cands, sk) == if sk in domainForSK then domainForSK[sk] else ""
  {
    domainForSK := map[];
    for i := 0 to |cands|
      invariant forall sk :: DomainOf(cands[..i], sk) == if sk in domainForSK then domainForSK[sk] else ""
      invariant forall sk :: sk in domainForSK ==> domainForSK[sk] != ""
    {
      var c := cands[i];
      assert cands[..i + 1][..i] == cands[..i];
      if c.serviceKey !in domainForSK && c.requestDomain != "" {
        domainForSK := domainForSK[c.serviceKey := c.requestDomain];
      }
    }
    assert cands[..|cands|] == cands;
  }

  /** One round of the resolution loop. */
  method ResolveOne(col: Collision, cands: seq<Candidate>, found: set<DiscoveredKey>, apiOps: seq<ManagedOp>,
                    domainForSK: map<string, string>, endpointHost: string)
    returns (resolved: bool, winner: string)
    requires found == DiscoveredSet(cands)
    requires forall sk :: DomainOf(cands, sk) == if sk in domainForSK then domainForSK[sk] else ""
    ensures Decides(TiedKeys(multiset(col.serviceKeys), found, apiOps), cands, endpointHost,
                    if resolved then Winner(winner) else Unresolved)
  {
    var scores := ScoreKeys(col.serviceKeys, found, apiOps);
    var tied := FindTied(scores, multiset(col.serviceKeys), found, apiOps);
    resolved, winner := PickWinner(tied, domainForSK, endpointHost, cands);
  }

  /** The ids of the candidates at a collision point, except those of the spared service. */
  function IdsAt(cands: seq<Candidate>, col: Collision, spared: Option<string>): set<int> {
    set c | c in cands && At(c, col) && Some(c.serviceKey) != spared :: c.discoveredId
  }

  lemma SettledMeans(c: Candidate, col: Collision, cands: seq<Candidate>, ops: seq<ManagedOp>, host: int -> string, o: Outcome)
    requires SettledAs(col, cands, ops, host, o)
    ensures Loses(c, col, cands, ops, host) <==> o.Winner? && At(c, col) && c.serviceKey != o.serviceKey
    ensures Undecided(c, col, cands, ops, host) <==> !o.Winner? && At(c, col)
  {
    var tied := TiedKeys(multiset(col.serviceKeys), DiscoveredSet(cands), OpsForAPI(ops, col.apimApiId));
    forall p | SettledAs(col, cands, ops, host, p)
      ensures p == o
    {
      DecidesUnique(tied, cands, host(col.managedApiPK), o, p);
    }
    hide Settles;
  }

  lemma LosersSnoc(cols: seq<Collision>, col: Collision, cands: seq<Candidate>, ops: seq<ManagedOp>,
                   host: int -> string, o: Outcome)
    requires SettledAs(col, cands, ops, host, o)
    ensures Losers(cols + [col], cands, ops, host) == Losers(cols, cands, ops, host) +
      (if o.Winner? then IdsAt(cands, col, Some(o.serviceKey)) else {})
    ensures Ambiguous(cols + [col], cands, ops, host) == Ambiguous(cols, cands, ops, host) +
      (if o.Winner? then {} else IdsAt(cands, col, None))
  {
    hide Loses, Undecided, At, SettledAs;
    assert forall x :: x in cols + [col] <==> x in cols || x == col;
    forall c | c in cands
      ensures Loses(c, col, cands, ops, host) <==> o.Winner? && At(c, col) && c.serviceKey != o.serviceKey
      ensures Undecided(c, col, cands, ops, host) <==> !o.Winner? && At(c, col)
    {
      SettledMeans(c, col, cands, ops, host, o);
    }
  }

  /** The marking loops: every candidate at the collision point, except those of the spared service. */
  method MarkAt(cands: seq<Candidate>, col: Collision, spared: Option<string>, marked: set<int>) returns (r: set<int>)
    ensures r == marked + IdsAt(cands, col, spared)
  {
    r := marked;
    for i := 0 to |cands|
      invariant r == marked + IdsAt(cands[..i], col, spared)
    {
      var c := cands[i];
      assert cands[..i + 1] == cands[..i] + [c];
      if c.httpMethod == col.httpMethod && c.resourcePath == col.matchPath && Some(c.serviceKey) != spared {
        r := r + {c.discoveredId};
      }
    }
    assert cands[..|cands|] == cands;
  }

  lemma LosersStep(cols: seq<Collision>, i: nat, cands: seq<Candidate>, ops: seq<ManagedOp>,
                   host: int -> string, o: Outcome)
    requires i < |cols| && SettledAs(cols[i], cands, ops, host, o)
    ensures Losers(cols[..i + 1], cands, ops, host) == Losers(cols[..i], cands, ops, host) +
      (if o.Winner? then IdsAt(cands, cols[i], Some(o.serviceKey)) else {})
    ensures Ambiguous(cols[..i + 1], cands, ops, host) == Ambiguous(cols[..i], cands, ops, host) +
      (if o.Winner? then {} else IdsAt(cands, cols[i], None))
  {
    hide Losers, Ambiguous, IdsAt, SettledAs;
    assert cols[..i + 1] == cols[..i] + [cols[i]];
    LosersSnoc(cols[..i], cols[i], cands, ops, host, o);
  }

  lemma NoCollisions(cands: seq<Candidate>, ops: seq<ManagedOp>, host: int -> string)
    ensures Losers([], cands, ops, host) == {} && Ambiguous([], cands, ops, host) == {}
  {}

  /** The body of the resolution loop: settle one collision and mark its losers, or its undecided candidates. */
  method ResolveInto(col: Collision, cands: seq<Candidate>, found: set<DiscoveredKey>, apiOps: seq<ManagedOp>,
                     domainForSK: map<string, string>, endpointHost: string, losers: set<int>, undecided: set<int>)
    returns (reclassify: set<int>, ambiguous: set<int>, ghost o: Outcome)
    requires found == DiscoveredSet(cands)
    requires forall sk :: DomainOf(cands, sk) == if sk in domainForSK then domainForSK[sk] else ""
    ensures Decides(TiedKeys(multiset(col.serviceKeys), found, apiOps), cands, endpointHost, o)
    ensures reclassify == losers + (if o.Winner? then IdsAt(cands, col, Some(o.serviceKey)) else {})
    ensures ambiguous == undecided + (if o.Winner? then {} else IdsAt(cands, col, None))
  {
    hide IdsAt, Decides, TiedKeys, DiscoveredSet, DomainOf;
    reclassify, ambiguous := losers, undecided;
    var resolved, winner := ResolveOne(col, cands, found, apiOps, domainForSK, endpointHost);
    if resolved {
      o := Winner(winner);
      reclassify := MarkAt(cands, col, Some(winner), reclassify);
    } else {
      o := Unresolved;
      ambiguous := MarkAt(cands, col, None, ambiguous);
    }
  }

  method ResolveCollisions(collisions: seq<Collision>, cands: seq<Candidate>, managedOps: seq<ManagedOp>,
                           endpointHostname: int -> string)
    returns (reclassify: set<int>, ambiguous: set<int>)
    ensures reclassify == Losers(collisions, cands, managedOps, endpointHostname)
    ensures ambiguous == Ambiguous(collisions, cands, managedOps, endpointHostname)
  {
    reclassify, ambiguous := {}, {};
    NoCollisions(cands, managedOps, endpointHostname);
    if |collisions| == 0 {
      return;
    }
    var found := IndexDiscovered(cands);
    var opsForAPI := IndexOps(managedOps);
    var domainForSK := IndexDomains(cands);
    hide Losers, Ambiguous, IdsAt, Decides, TiedKeys, DiscoveredSet, OpsForAPI, DomainOf;
    for i := 0 to |collisions|
      invariant reclassify == Losers(collisions[..i], cands, managedOps, endpointHostname)
      invariant ambiguous == Ambiguous(collisions[..i], cands, managedOps, endpointHostname)
    {
      var col := collisions[i];
      var apiOps := if col.apimApiId in opsForAPI then opsForAPI[col.apimApiId] else [];
      ghost var o;
      reclassify, ambiguous, o :=
        ResolveInto(col, cands, found, apiOps, domainForSK, endpointHostname(col.managedApiPK), reclassify, ambiguous);
      LosersStep(collisions, i, cands, managedOps, endpointHostname, o);
    }
    assert collisions[..|collisions|] == collisions;
  }
}
