/** What match, collision detection, resolution and classification guarantee together. */
module CollisionLaws {
  import opened Text
  import opened Model
  import opened Collisions
  import Matcher
  import Classifier

  // ---------- What is listed ----------

  /** The candidate matched the operation that the collision is about. */
  predicate Touches(c: Candidate, col: Collision) {
    c.managed.Some? && c.httpMethod == col.httpMethod && c.resourcePath == col.matchPath
    && c.managed.value.apimApiId == col.apimApiId
  }

  predicate LastTouch(cands: seq<Candidate>, col: Collision, i: nat) {
    i < |cands| && Touches(cands[i], col) && forall j :: i < j < |cands| ==> !Touches(cands[j], col)
  }

  /** Two services on one managed operation are listed together. */
  lemma PairListed(cands: seq<Candidate>, cols: seq<Collision>, c: Candidate, d: Candidate)
    requires IsCollisionList(cands, cols) && c in cands && d in cands && c.serviceKey != d.serviceKey
    requires c.managed.Some? && d.managed.Some? && c.managed.value.apimApiId == d.managed.value.apimApiId
    requires c.httpMethod == d.httpMethod && c.resourcePath == d.resourcePath
    ensures exists col :: col in cols && Touches(c, col) && c.serviceKey in col.serviceKeys && d.serviceKey in col.serviceKeys
  {
    var k := KeyOf(c);
    assert c.serviceKey in ServicesAt(cands, k) && d.serviceKey in ServicesAt(cands, k);
    hide ServicesAt, ApiPKAt;
    TwoMembers(ServicesAt(cands, k), c.serviceKey, d.serviceKey);
    var i :| 0 <= i < |cols| && CollisionKeyOf(cols[i]) == k;
    assert Describes(cands, cols[i]) && cols[i] in cols;
    assert c.serviceKey in Elements(cols[i].serviceKeys) && d.serviceKey in Elements(cols[i].serviceKeys);
  }

  lemma TwoMembers(s: set<string>, x: string, y: string)
    requires x in s && y in s && x != y
    ensures |s| > 1
  {
    assert |s - {x}| == |s| - 1 && y in s - {x};
  }

  /** A listed collision names each service on its operation once, at least two of them, and the primary
      key that its last candidate brought. */
  lemma ListedMeans(cands: seq<Candidate>, cols: seq<Collision>, col: Collision)
    requires IsCollisionList(cands, cols) && col in cols
    ensures forall sk :: sk in col.serviceKeys <==> exists c :: c in cands && Touches(c, col) && c.serviceKey == sk
    ensures |col.serviceKeys| > 1 && Distinct(col.serviceKeys)
    ensures exists i :: 0 <= i < |cands| && LastTouch(cands, col, i) && cands[i].managed.value.apiPK == col.managedApiPK
  {
    var n :| 0 <= n < |cols| && cols[n] == col;
    var k := CollisionKeyOf(col);
    assert Describes(cands, cols[n]);
    assert forall c :: Hits(c, k) <==> Touches(c, col);
    assert forall sk :: sk in col.serviceKeys <==> sk in Elements(col.serviceKeys);
    var c := SomeHit(cands, k);
    LastTouchPK(cands, col);
    hide ApiPKAt, Touches, Hits;
    ElementsFew(col.serviceKeys);
  }

  lemma {:induction false} ElementsFew(s: seq<string>)
    ensures |Elements(s)| <= |s|
    decreases |s|
  {
    if s != [] {
      var n := |s| - 1;
      ElementsFew(s[..n]);
      assert Elements(s) == Elements(s[..n]) + {s[n]};
    }
  }

  lemma {:induction false} LastTouchPK(cands: seq<Candidate>, col: Collision)
    requires exists c :: c in cands && Touches(c, col)
    ensures exists i :: 0 <= i < |cands| && LastTouch(cands, col, i)
              && cands[i].managed.value.apiPK == ApiPKAt(cands, CollisionKeyOf(col))
    decreases |cands|
  {
    var n := |cands| - 1;
    if Touches(cands[n], col) {
      assert LastTouch(cands, col, n);
    } else {
      var c :| c in cands && Touches(c, col);
      assert c in cands[..n];
      LastTouchPK(cands[..n], col);
      var i :| 0 <= i < n && LastTouch(cands[..n], col, i)
               && cands[..n][i].managed.value.apiPK == ApiPKAt(cands[..n], CollisionKeyOf(col));
      assert LastTouch(cands, col, i);
    }
  }

  // ---------- Order does not matter ----------

  predicate SameCollision(a: Collision, b: Collision) {
    CollisionKeyOf(a) == CollisionKeyOf(b) && a.managedApiPK == b.managedApiPK
    && multiset(a.serviceKeys) == multiset(b.serviceKeys)
  }

  predicate Covers(a: seq<Collision>, b: seq<Collision>) {
    forall x :: x in a ==> exists y :: y in b && SameCollision(x, y)
  }

  lemma SettledAlike(a: Collision, b: Collision, cands: seq<Candidate>, ops: seq<ManagedOp>, host: int -> string)
    requires SameCollision(a, b)
    ensures forall o :: SettledAs(a, cands, ops, host, o) <==> SettledAs(b, cands, ops, host, o)
    ensures forall c :: Loses(c, a, cands, ops, host) ==> Loses(c, b, cands, ops, host)
    ensures forall c :: Undecided(c, a, cands, ops, host) ==> Undecided(c, b, cands, ops, host)
  {
    hide Settles;
  }

  lemma CoveredLosers(a: seq<Collision>, b: seq<Collision>, cands: seq<Candidate>, ops: seq<ManagedOp>, host: int -> string)
    requires Covers(a, b)
    ensures Losers(a, cands, ops, host) <= Losers(b, cands, ops, host)
    ensures Ambiguous(a, cands, ops, host) <= Ambiguous(b, cands, ops, host)
  {
    forall id | id in Losers(a, cands, ops, host)
      ensures id in Losers(b, cands, ops, host)
    {
      var c, x :| c in cands && x in a && Loses(c, x, cands, ops, host) && c.discoveredId == id;
      var y :| y in b && SameCollision(x, y);
      SettledAlike(x, y, cands, ops, host);
      assert Loses(c, y, cands, ops, host);
    }
    forall id | id in Ambiguous(a, cands, ops, host)
      ensures id in Ambiguous(b, cands, ops, host)
    {
      var c, x :| c in cands && x in a && Undecided(c, x, cands, ops, host) && c.discoveredId == id;
      var y :| y in b && SameCollision(x, y);
      SettledAlike(x, y, cands, ops, host);
      assert Undecided(c, y, cands, ops, host);
    }
  }

  /** ResolveCollisions gives the same two sets for any reordering of the collisions and of the keys in them. */
  lemma OrderIrrelevant(a: seq<Collision>, b: seq<Collision>, cands: seq<Candidate>, ops: seq<ManagedOp>, host: int -> string)
    requires Covers(a, b) && Covers(b, a)
    ensures Losers(a, cands, ops, host) == Losers(b, cands, ops, host)
    ensures Ambiguous(a, cands, ops, host) == Ambiguous(b, cands, ops, host)
  {
    CoveredLosers(a, b, cands, ops, host);
    CoveredLosers(b, a, cands, ops, host);
  }

  lemma {:induction false} DistinctOccurrences(s: seq<string>, x: string)
    requires Distinct(s)
    ensures multiset(s)[x] == if x in s then 1 else 0
    decreases |s|
  {
    if s != [] {
      var n := |s| - 1;
      DistinctOccurrences(s[..n], x);
      assert s == s[..n] + [s[n]];
    }
  }

  lemma DistinctSameMultiset(a: seq<string>, b: seq<string>)
    requires Distinct(a) && Distinct(b) && Elements(a) == Elements(b)
    ensures multiset(a) == multiset(b)
  {
    forall x
      ensures multiset(a)[x] == multiset(b)[x]
    {
      DistinctOccurrences(a, x);
      DistinctOccurrences(b, x);
      assert x in a <==> x in Elements(a);
      assert x in b <==> x in Elements(b);
    }
  }

  lemma DetectedListsCover(cands: seq<Candidate>, a: seq<Collision>, b: seq<Collision>)
    requires IsCollisionList(cands, a) && IsCollisionList(cands, b)
    ensures Covers(a, b)
  {
    hide ServicesAt, ApiPKAt;
    forall x | x in a
      ensures exists y :: y in b && SameCollision(x, y)
    {
      var i :| 0 <= i < |a| && a[i] == x;
      assert Describes(cands, a[i]);
      var j :| 0 <= j < |b| && CollisionKeyOf(b[j]) == CollisionKeyOf(x);
      assert Describes(cands, b[j]);
      DistinctSameMultiset(x.serviceKeys, b[j].serviceKeys);
      assert b[j] in b && SameCollision(x, b[j]);
    }
  }

  /** Detection followed by resolution is a function of its inputs, whatever order Go's maps are ranged in. */
  lemma DetectThenResolveDeterministic(cands: seq<Candidate>, a: seq<Collision>, b: seq<Collision>,
                                       ops: seq<ManagedOp>, host: int -> string)
    requires IsCollisionList(cands, a) && IsCollisionList(cands, b)
    ensures Losers(a, cands, ops, host) == Losers(b, cands, ops, host)
    ensures Ambiguous(a, cands, ops, host) == Ambiguous(b, cands, ops, host)
  {
    DetectedListsCover(cands, a, b);
    DetectedListsCover(cands, b, a);
    OrderIrrelevant(a, b, cands, ops, host);
  }

  // ---------- One API per method and path ----------

  predicate DistinctIds(discovered: seq<DiscoveredAPI>) {
    forall i, j :: 0 <= i < j < |discovered| ==> discovered[i].id != discovered[j].id
  }

  lemma SamePlaceSameMatch(discovered: seq<DiscoveredAPI>, ops: seq<ManagedOp>, cands: seq<Candidate>, c: Candidate, d: Candidate)
    requires Matcher.IsLeftJoin(discovered, ops, cands)
    requires c in cands && d in cands && c.httpMethod == d.httpMethod && c.resourcePath == d.resourcePath
    ensures c.managed == d.managed
  {
    hide Matcher.LastOp;
    var i :| 0 <= i < |cands| && cands[i] == c;
    var j :| 0 <= j < |cands| && cands[j] == d;
  }

  lemma SameIdSameCandidate(discovered: seq<DiscoveredAPI>, ops: seq<ManagedOp>, cands: seq<Candidate>, c: Candidate, d: Candidate)
    requires Matcher.IsLeftJoin(discovered, ops, cands) && DistinctIds(discovered)
    requires c in cands && d in cands && c.discoveredId == d.discoveredId
    ensures c == d
  {
    hide Matcher.LastOp;
    var i :| 0 <= i < |cands| && cands[i] == c;
    var j :| 0 <= j < |cands| && cands[j] == d;
    assert discovered[i].id == discovered[j].id;
  }

  /** Two collisions of one list never share a method and path. */
  lemma OneCollisionPerPlace(discovered: seq<DiscoveredAPI>, ops: seq<ManagedOp>, cands: seq<Candidate>,
                             cols: seq<Collision>, x: Collision, y: Collision)
    requires Matcher.IsLeftJoin(discovered, ops, cands) && IsCollisionList(cands, cols)
    requires x in cols && y in cols && x.httpMethod == y.httpMethod && x.matchPath == y.matchPath
    ensures x == y
  {
    hide ApiPKAt, Distinct;
    var i :| 0 <= i < |cols| && cols[i] == x;
    var j :| 0 <= j < |cols| && cols[j] == y;
    assert Describes(cands, cols[i]) && Describes(cands, cols[j]);
    var c := SomeHit(cands, CollisionKeyOf(x));
    var d := SomeHit(cands, CollisionKeyOf(y));
    SamePlaceSameMatch(discovered, ops, cands, c, d);
  }

  lemma SomeHit(cands: seq<Candidate>, k: CollisionKey) returns (c: Candidate)
    requires |ServicesAt(cands, k)| > 1
    ensures c in cands && Hits(c, k)
  {
    var s :| s in ServicesAt(cands, k);
    c :| c in cands && Hits(c, k) && c.serviceKey == s;
  }

  lemma WinnerIsTied(tied: set<string>, cands: seq<Candidate>, host: string, w: string)
    requires Decides(tied, cands, host, Winner(w))
    ensures w in tied
  {
    hide DomainOf;
    if |tied| == 1 {
      assert w in {w};
    }
  }

  /** A candidate at a collision loses exactly when that collision has a winner of another service. */
  lemma LosesIff(discovered: seq<DiscoveredAPI>, ops: seq<ManagedOp>, cands: seq<Candidate>, cols: seq<Collision>,
                 host: int -> string, col: Collision, o: Outcome, c: Candidate)
    requires Matcher.IsLeftJoin(discovered, ops, cands) && DistinctIds(discovered) && IsCollisionList(cands, cols)
    requires col in cols && SettledAs(col, cands, ops, host, o) && c in cands && At(c, col)
    ensures c.discoveredId in Losers(cols, cands, ops, host) <==> o.Winner? && c.serviceKey != o.serviceKey
    ensures c.discoveredId in Ambiguous(cols, cands, ops, host) <==> o.Unresolved?
  {
    hide Decides, TiedKeys, IsCollisionList, Matcher.IsLeftJoin, DistinctIds;
    if c.discoveredId in Losers(cols, cands, ops, host) {
      var d, x :| d in cands && x in cols && Loses(d, x, cands, ops, host) && d.discoveredId == c.discoveredId;
      SameIdSameCandidate(discovered, ops, cands, c, d);
      OneCollisionPerPlace(discovered, ops, cands, cols, x, col);
      var w :| SettledAs(x, cands, ops, host, Winner(w)) && d.serviceKey != w;
      SettledUnique(col, cands, ops, host, o, Winner(w));
    }
    if o.Winner? && c.serviceKey != o.serviceKey {
      assert Loses(c, col, cands, ops, host);
    }
    if c.discoveredId in Ambiguous(cols, cands, ops, host) {
      var d, x :| d in cands && x in cols && Undecided(d, x, cands, ops, host) && d.discoveredId == c.discoveredId;
      SameIdSameCandidate(discovered, ops, cands, c, d);
      OneCollisionPerPlace(discovered, ops, cands, cols, x, col);
      SettledUnique(col, cands, ops, host, o, Unresolved);
    }
    if o.Unresolved? {
      assert Undecided(c, col, cands, ops, host);
    }
  }

  lemma SettledUnique(col: Collision, cands: seq<Candidate>, ops: seq<ManagedOp>, host: int -> string, o: Outcome, p: Outcome)
    requires SettledAs(col, cands, ops, host, o) && SettledAs(col, cands, ops, host, p)
    ensures o == p
  {
    DecidesUnique(TiedKeys(multiset(col.serviceKeys), DiscoveredSet(cands), OpsForAPI(ops, col.apimApiId)),
                  cands, host(col.managedApiPK), o, p);
  }

  lemma SettledExists(col: Collision, cands: seq<Candidate>, ops: seq<ManagedOp>, host: int -> string) returns (o: Outcome)
    ensures SettledAs(col, cands, ops, host, o)
  {
    o := DecidesTotal(TiedKeys(multiset(col.serviceKeys), DiscoveredSet(cands), OpsForAPI(ops, col.apimApiId)),
                      cands, host(col.managedApiPK));
  }

  ghost predicate OneKeepsIt(k: CollisionKey, w: string, cands: seq<Candidate>, losers: set<int>) {
    w in ServicesAt(cands, k) &&
    forall c :: c in cands && Hits(c, k) ==> (c.discoveredId in losers <==> c.serviceKey != w)
  }

  ghost predicate AllKeepIt(k: CollisionKey, cands: seq<Candidate>, losers: set<int>, ambiguous: set<int>) {
    forall c :: c in cands && Hits(c, k) ==> c.discoveredId !in losers && c.discoveredId in ambiguous
  }

  lemma WinnerCollides(cands: seq<Candidate>, col: Collision, ops: seq<ManagedOp>, host: int -> string, w: string)
    requires Describes(cands, col) && SettledAs(col, cands, ops, host, Winner(w))
    ensures w in ServicesAt(cands, CollisionKeyOf(col))
  {
    WinnerIsTied(TiedKeys(multiset(col.serviceKeys), DiscoveredSet(cands), OpsForAPI(ops, col.apimApiId)),
                 cands, host(col.managedApiPK), w);
    hide ServicesAt, Decides;
    assert w in Elements(col.serviceKeys);
  }

  /** Every managed operation hit by several services is kept by exactly one of them, or, on an
      unresolved tie, by all of them: never by none. */
  lemma OneOrAllKeep(discovered: seq<DiscoveredAPI>, ops: seq<ManagedOp>, cands: seq<Candidate>, cols: seq<Collision>,
                     host: int -> string, k: CollisionKey)
    requires Matcher.IsLeftJoin(discovered, ops, cands) && DistinctIds(discovered) && IsCollisionList(cands, cols)
    requires |ServicesAt(cands, k)| > 1
    ensures (exists w :: OneKeepsIt(k, w, cands, Losers(cols, cands, ops, host)))
            || AllKeepIt(k, cands, Losers(cols, cands, ops, host), Ambiguous(cols, cands, ops, host))
  {
    var i :| 0 <= i < |cols| && CollisionKeyOf(cols[i]) == k;
    var col := cols[i];
    assert Describes(cands, col);
    var o := SettledExists(col, cands, ops, host);
    forall c | c in cands && Hits(c, k)
      ensures c.discoveredId in Losers(cols, cands, ops, host) <==> o.Winner? && c.serviceKey != o.serviceKey
      ensures c.discoveredId in Ambiguous(cols, cands, ops, host) <==> o.Unresolved?
    {
      LosesIff(discovered, ops, cands, cols, host, col, o, c);
    }
    if o.Winner? {
      WinnerCollides(cands, col, ops, host, o.serviceKey);
      hide Losers, Ambiguous, Matcher.IsLeftJoin, IsCollisionList, ServicesAt, Describes, SettledAs;
      assert OneKeepsIt(k, o.serviceKey, cands, Losers(cols, cands, ops, host));
    } else {
      hide Losers, Ambiguous, Matcher.IsLeftJoin, IsCollisionList, ServicesAt, Describes, SettledAs;
    }
  }

  /** No candidate is both reclassified and ambiguous, and every one of either kind had matched. */
  lemma LosersNotAmbiguous(discovered: seq<DiscoveredAPI>, ops: seq<ManagedOp>, cands: seq<Candidate>,
                           cols: seq<Collision>, host: int -> string)
    requires Matcher.IsLeftJoin(discovered, ops, cands) && DistinctIds(discovered) && IsCollisionList(cands, cols)
    ensures Losers(cols, cands, ops, host) !! Ambiguous(cols, cands, ops, host)
    ensures forall c :: c in cands && c.discoveredId in Losers(cols, cands, ops, host) + Ambiguous(cols, cands, ops, host)
              ==> c.managed.Some?
  {
    hide Decides, TiedKeys, IsCollisionList, Matcher.IsLeftJoin, DistinctIds, SettledAs;
    forall c | c in cands && c.discoveredId in Losers(cols, cands, ops, host)
      ensures c.managed.Some? && c.discoveredId !in Ambiguous(cols, cands, ops, host)
    {
      var d, x :| d in cands && x in cols && Loses(d, x, cands, ops, host) && d.discoveredId == c.discoveredId;
      SameIdSameCandidate(discovered, ops, cands, c, d);
      var o := SettledExists(x, cands, ops, host);
      LosesIff(discovered, ops, cands, cols, host, x, o, c);
      AtCollisionMatched(discovered, ops, cands, cols, x, c);
    }
    forall c | c in cands && c.discoveredId in Ambiguous(cols, cands, ops, host)
      ensures c.managed.Some?
    {
      var d, x :| d in cands && x in cols && Undecided(d, x, cands, ops, host) && d.discoveredId == c.discoveredId;
      SameIdSameCandidate(discovered, ops, cands, c, d);
      AtCollisionMatched(discovered, ops, cands, cols, x, c);
    }
    forall id | id in Losers(cols, cands, ops, host)
      ensures id !in Ambiguous(cols, cands, ops, host)
    {
      var c, x :| c in cands && x in cols && Loses(c, x, cands, ops, host) && c.discoveredId == id;
    }
  }

  lemma AtCollisionMatched(discovered: seq<DiscoveredAPI>, ops: seq<ManagedOp>, cands: seq<Candidate>,
                           cols: seq<Collision>, col: Collision, c: Candidate)
    requires Matcher.IsLeftJoin(discovered, ops, cands) && IsCollisionList(cands, cols)
    requires col in cols && c in cands && At(c, col)
    ensures Hits(c, CollisionKeyOf(col))
  {
    hide Distinct, ApiPKAt;
    var i :| 0 <= i < |cols| && cols[i] == col;
    assert Describes(cands, cols[i]);
    var d := SomeHit(cands, CollisionKeyOf(col));
    SamePlaceSameMatch(discovered, ops, cands, c, d);
  }

  // ---------- Affinity ----------

  lemma {:induction false} OpsForAPIMember(ops: seq<ManagedOp>, op: ManagedOp)
    requires op in ops
    ensures op in OpsForAPI(ops, op.apimApiId)
    decreases |ops|
  {
    var n := |ops| - 1;
    if op != ops[n] {
      assert op in ops[..n];
      OpsForAPIMember(ops[..n], op);
    }
  }

  lemma {:induction false} AffinityPositive(found: set<DiscoveredKey>, ops: seq<ManagedOp>, sk: string, op: ManagedOp)
    requires op in ops && DiscoveredKey(sk, op.httpMethod, op.matchPath) in found
    ensures Affinity(found, ops, sk) >= 1
    decreases |ops|
  {
    var n := |ops| - 1;
    if op != ops[n] {
      assert op in ops[..n];
      AffinityPositive(found, ops[..n], sk, op);
    }
  }

  /** A colliding service scores at least one point: its own hit. */
  lemma OwnHitCounts(discovered: seq<DiscoveredAPI>, ops: seq<ManagedOp>, cands: seq<Candidate>, k: CollisionKey, sk: string)
    requires Matcher.IsLeftJoin(discovered, ops, cands)
    requires sk in ServicesAt(cands, k)
    ensures Affinity(DiscoveredSet(cands), OpsForAPI(ops, k.apimApiId), sk) >= 1
  {
    hide Matcher.LastOp, OpsForAPI, Affinity;
    var c :| c in cands && Hits(c, k) && c.serviceKey == sk;
    var i :| 0 <= i < |cands| && cands[i] == c;
    var key := Matcher.MatchKey(c.httpMethod, c.resourcePath);
    assert c == Matcher.JoinOf(discovered[i], ops);
    var op := Matcher.LastOp(ops, key).value;
    var j :| 0 <= j < |ops| && Matcher.IsLast(ops, key, j) && ops[j] == op;
    OpsForAPIMember(ops, op);
    assert DiscoveredKey(sk, op.httpMethod, op.matchPath) in DiscoveredSet(cands);
    AffinityPositive(DiscoveredSet(cands), OpsForAPI(ops, k.apimApiId), sk, op);
  }

  /** Some candidate of the service has the method and the path of the operation. */
  predicate SeenOn(cands: seq<Candidate>, sk: string, op: ManagedOp) {
    exists c :: c in cands && c.serviceKey == sk && c.httpMethod == op.httpMethod && c.resourcePath == op.matchPath
  }

  /** The operations of an API, by position, on which the service has been seen. */
  function OpsSeen(cands: seq<Candidate>, ops: seq<ManagedOp>, apiId: string, sk: string): set<nat> {
    set i: nat | i < |ops| && ops[i].apimApiId == apiId && SeenOn(cands, sk, ops[i])
  }

  lemma AffinitySnoc(found: set<DiscoveredKey>, ops: seq<ManagedOp>, op: ManagedOp, sk: string)
    ensures Affinity(found, ops + [op], sk) ==
      Affinity(found, ops, sk) + (if DiscoveredKey(sk, op.httpMethod, op.matchPath) in found then 1 else 0)
  {
    assert (ops + [op])[..|ops|] == ops;
  }

  lemma OpsSeenSnoc(cands: seq<Candidate>, ops: seq<ManagedOp>, apiId: string, sk: string)
    requires ops != []
    ensures var n := |ops| - 1;
      |OpsSeen(cands, ops, apiId, sk)| == |OpsSeen(cands, ops[..n], apiId, sk)|
        + (if ops[n].apimApiId == apiId && SeenOn(cands, sk, ops[n]) then 1 else 0)
  {
    hide SeenOn;
    var n := |ops| - 1;
    assert OpsSeen(cands, ops, apiId, sk) == OpsSeen(cands, ops[..n], apiId, sk)
      + (if ops[n].apimApiId == apiId && SeenOn(cands, sk, ops[n]) then {n} else {});
  }

  /** The affinity of a service counts the operations of the API on which it has been seen. */
  lemma {:induction false} AffinityCounts(cands: seq<Candidate>, ops: seq<ManagedOp>, apiId: string, sk: string)
    ensures Affinity(DiscoveredSet(cands), OpsForAPI(ops, apiId), sk) == |OpsSeen(cands, ops, apiId, sk)|
    decreases |ops|
  {
    if ops == [] {
      assert OpsSeen(cands, ops, apiId, sk) == {};
    } else {
      var n := |ops| - 1;
      AffinityCounts(cands, ops[..n], apiId, sk);
      AffinitySnoc(DiscoveredSet(cands), OpsForAPI(ops[..n], apiId), ops[n], sk);
      OpsSeenSnoc(cands, ops, apiId, sk);
      assert SeenOn(cands, sk, ops[n]) <==> DiscoveredKey(sk, ops[n].httpMethod, ops[n].matchPath) in DiscoveredSet(cands);
      hide Affinity, OpsSeen, SeenOn, DiscoveredSet;
      assert OpsForAPI(ops[..n], apiId) + [] == OpsForAPI(ops[..n], apiId);
    }
  }

  function AffinityAt(cands: seq<Candidate>, ops: seq<ManagedOp>, col: Collision, sk: string): nat {
    |OpsSeen(cands, ops, col.apimApiId, sk)|
  }

  lemma ScoresAreAffinities(discovered: seq<DiscoveredAPI>, ops: seq<ManagedOp>, cands: seq<Candidate>, col: Collision)
    requires Matcher.IsLeftJoin(discovered, ops, cands) && Describes(cands, col)
    ensures forall s :: s in multiset(col.serviceKeys) <==> s in ServicesAt(cands, CollisionKeyOf(col))
    ensures forall s :: s in ServicesAt(cands, CollisionKeyOf(col)) ==>
      Score(multiset(col.serviceKeys), DiscoveredSet(cands), OpsForAPI(ops, col.apimApiId), s) == AffinityAt(cands, ops, col, s)
      && AffinityAt(cands, ops, col, s) >= 1
  {
    hide Affinity, OpsSeen, DiscoveredSet, OpsForAPI, Matcher.IsLeftJoin, ServicesAt, ApiPKAt;
    assert forall s :: s in multiset(col.serviceKeys) <==> s in Elements(col.serviceKeys);
    forall s | s in ServicesAt(cands, CollisionKeyOf(col))
      ensures Score(multiset(col.serviceKeys), DiscoveredSet(cands), OpsForAPI(ops, col.apimApiId), s)
              == AffinityAt(cands, ops, col, s) >= 1
    {
      assert s in Elements(col.serviceKeys);
      DistinctOccurrences(col.serviceKeys, s);
      AffinityCounts(cands, ops, col.apimApiId, s);
      OwnHitCounts(discovered, ops, cands, CollisionKeyOf(col), s);
    }
  }

  /** The tied services are exactly the colliding services of maximal affinity. */
  lemma TiedAreMaximal(discovered: seq<DiscoveredAPI>, ops: seq<ManagedOp>, cands: seq<Candidate>, col: Collision, s: string)
    requires Matcher.IsLeftJoin(discovered, ops, cands) && Describes(cands, col)
    ensures s in TiedKeys(multiset(col.serviceKeys), DiscoveredSet(cands), OpsForAPI(ops, col.apimApiId)) <==>
      s in ServicesAt(cands, CollisionKeyOf(col)) &&
      forall t :: t in ServicesAt(cands, CollisionKeyOf(col)) ==> AffinityAt(cands, ops, col, t) <= AffinityAt(cands, ops, col, s)
  {
    ScoresAreAffinities(discovered, ops, cands, col);
    hide Affinity, DiscoveredSet, OpsForAPI, Matcher.IsLeftJoin, ServicesAt, Describes, Score, AffinityAt;
  }

  /** The winner of a collision has the highest affinity among the colliding services. */
  lemma WinnerIsMaximal(discovered: seq<DiscoveredAPI>, ops: seq<ManagedOp>, cands: seq<Candidate>, col: Collision,
                        host: int -> string, w: string)
    requires Matcher.IsLeftJoin(discovered, ops, cands) && Describes(cands, col)
    requires SettledAs(col, cands, ops, host, Winner(w))
    ensures w in ServicesAt(cands, CollisionKeyOf(col))
    ensures forall t :: t in ServicesAt(cands, CollisionKeyOf(col)) ==> AffinityAt(cands, ops, col, t) <= AffinityAt(cands, ops, col, w)
  {
    TiedAreMaximal(discovered, ops, cands, col, w);
    hide TiedKeys, Matcher.IsLeftJoin, ServicesAt, Describes, AffinityAt, Decides;
    WinnerIsTied(TiedKeys(multiset(col.serviceKeys), DiscoveredSet(cands), OpsForAPI(ops, col.apimApiId)),
                 cands, host(col.managedApiPK), w);
  }

  /** A service with strictly more affinity than every other colliding service wins. */
  lemma StrictMaximumWins(discovered: seq<DiscoveredAPI>, ops: seq<ManagedOp>, cands: seq<Candidate>, col: Collision,
                          host: int -> string, best: string, o: Outcome)
    requires Matcher.IsLeftJoin(discovered, ops, cands) && Describes(cands, col)
    requires best in ServicesAt(cands, CollisionKeyOf(col))
    requires forall t :: t in ServicesAt(cands, CollisionKeyOf(col)) && t != best ==>
               AffinityAt(cands, ops, col, t) < AffinityAt(cands, ops, col, best)
    requires SettledAs(col, cands, ops, host, o)
    ensures o == Winner(best)
  {
    var tied := TiedKeys(multiset(col.serviceKeys), DiscoveredSet(cands), OpsForAPI(ops, col.apimApiId));
    forall s
      ensures s in tied <==> s == best
    {
      TiedAreMaximal(discovered, ops, cands, col, s);
    }
    hide TiedKeys, Matcher.IsLeftJoin, ServicesAt, Describes, AffinityAt, DomainOf;
    assert tied == {best};
    assert best in {o.serviceKey};
  }

  // ---------- The tie-break ----------

  /** d is the first request domain that is not empty among the candidates of the service, or "". */
  predicate FirstDomain(cands: seq<Candidate>, sk: string, d: string) {
    if d == "" then forall i :: 0 <= i < |cands| && cands[i].serviceKey == sk ==> cands[i].requestDomain == ""
    else exists i :: 0 <= i < |cands| && FirstDomainAt(cands, sk, d, i)
  }

  predicate FirstDomainAt(cands: seq<Candidate>, sk: string, d: string, i: nat) {
    && i < |cands| && cands[i].serviceKey == sk && cands[i].requestDomain == d
    && forall j :: 0 <= j < i && cands[j].serviceKey == sk ==> cands[j].requestDomain == ""
  }

  lemma {:induction false} DomainIsFirst(cands: seq<Candidate>, sk: string)
    ensures FirstDomain(cands, sk, DomainOf(cands, sk))
    decreases |cands|
  {
    if cands != [] {
      var n := |cands| - 1;
      DomainIsFirst(cands[..n], sk);
      var before, d := DomainOf(cands[..n], sk), DomainOf(cands, sk);
      if before != "" {
        var i :| 0 <= i < n && FirstDomainAt(cands[..n], sk, before, i);
        assert FirstDomainAt(cands, sk, d, i);
      } else if d != "" {
        assert FirstDomainAt(cands, sk, d, n);
      }
    }
  }

  /** A domain is at a host when it is the host, or the host with a port. */
  ghost predicate AtHost(domain: string, host: string) {
    (':' !in domain && domain == host) || exists port :: ':' !in port && domain == host + ":" + port
  }

  lemma StripPortIff(domain: string, host: string)
    ensures StripPort(domain) == host <==> AtHost(domain, host)
  {
    var i := LastIndex(domain, ':');
    hide LastIndex;
    if i >= 0 && domain[..i] == host {
      var port := domain[i + 1..];
      assert domain == host + ":" + port;
    }
    if port :| ':' !in port && domain == host + ":" + port {
      assert domain[|host|] == ':';
      assert domain[|host| + 1..] == port;
      assert i >= |host| by {
        assert forall k :: i < k < |domain| ==> domain[k] in domain[i + 1..];
      }
      assert i <= |host| by {
        assert forall k :: |host| < k < |domain| ==> domain[k] in port;
      }
      assert domain[..|host|] == host;
    }
  }

  predicate Maximal(cands: seq<Candidate>, ops: seq<ManagedOp>, col: Collision, s: string) {
    s in ServicesAt(cands, CollisionKeyOf(col)) &&
    forall t :: t in ServicesAt(cands, CollisionKeyOf(col)) ==> AffinityAt(cands, ops, col, t) <= AffinityAt(cands, ops, col, s)
  }

  /** A service of maximal affinity whose domain is at the host of the API's endpoint. */
  ghost predicate Eligible(cands: seq<Candidate>, ops: seq<ManagedOp>, col: Collision, host: string, s: string) {
    Maximal(cands, ops, col, s) && exists d :: FirstDomain(cands, s, d) && AtHost(d, host)
  }

  lemma FirstDomainUnique(cands: seq<Candidate>, sk: string, d: string, e: string)
    requires FirstDomain(cands, sk, d) && FirstDomain(cands, sk, e)
    ensures d == e
  {
    if d != "" && e != "" {
      var i :| 0 <= i < |cands| && FirstDomainAt(cands, sk, d, i);
      var j :| 0 <= j < |cands| && FirstDomainAt(cands, sk, e, j);
    }
  }

  lemma EligibleIff(discovered: seq<DiscoveredAPI>, ops: seq<ManagedOp>, cands: seq<Candidate>, col: Collision, host: string, s: string)
    requires Matcher.IsLeftJoin(discovered, ops, cands) && Describes(cands, col)
    ensures s in AtEndpoint(TiedKeys(multiset(col.serviceKeys), DiscoveredSet(cands), OpsForAPI(ops, col.apimApiId)), cands, host) <==>
      Eligible(cands, ops, col, host, s)
  {
    TiedAreMaximal(discovered, ops, cands, col, s);
    DomainIsFirst(cands, s);
    StripPortIff(DomainOf(cands, s), host);
    hide TiedKeys, Matcher.IsLeftJoin, ServicesAt, Describes, AffinityAt, DomainOf, StripPort, AtHost, FirstDomain;
    forall d | FirstDomain(cands, s, d)
      ensures d == DomainOf(cands, s)
    {
      FirstDomainUnique(cands, s, d, DomainOf(cands, s));
    }
  }

  /** When several services share the highest affinity, the alphabetically first one at the API's endpoint
      wins, except that an empty service key wins nothing and then nobody does. */
  lemma TieBreakIff(discovered: seq<DiscoveredAPI>, ops: seq<ManagedOp>, cands: seq<Candidate>, col: Collision,
                    host: int -> string, x: string, y: string, w: string)
    requires Matcher.IsLeftJoin(discovered, ops, cands) && Describes(cands, col)
    requires x != y && Maximal(cands, ops, col, x) && Maximal(cands, ops, col, y)
    ensures SettledAs(col, cands, ops, host, Winner(w)) <==>
      && w != "" && Eligible(cands, ops, col, host(col.managedApiPK), w)
      && forall v :: Eligible(cands, ops, col, host(col.managedApiPK), v) ==> LexLeq(w, v)
  {
    var tied := TiedKeys(multiset(col.serviceKeys), DiscoveredSet(cands), OpsForAPI(ops, col.apimApiId));
    TiedAreMaximal(discovered, ops, cands, col, x);
    TiedAreMaximal(discovered, ops, cands, col, y);
    var h := host(col.managedApiPK);
    var here := AtEndpoint(tied, cands, h);
    forall s
      ensures s in here <==> Eligible(cands, ops, col, h, s)
    {
      EligibleIff(discovered, ops, cands, col, h, s);
    }
    hide TiedKeys, Matcher.IsLeftJoin, ServicesAt, Describes, AffinityAt, AtEndpoint, Eligible, LexLeq;
    TwoMembers(tied, x, y);
    if IsLeast(here, w) && IsLeast(here, "") {
      LeastUnique(here, w, "");
    }
  }

  // ---------- The classification that follows ----------

  /** On data from Match no result is ever AMBIGUOUS, and LOW marks exactly the reclassified ones. */
  lemma NeverAmbiguous(discovered: seq<DiscoveredAPI>, ops: seq<ManagedOp>, cands: seq<Candidate>, cols: seq<Collision>,
                       host: int -> string, r: ClassificationResult)
    requires Matcher.IsLeftJoin(discovered, ops, cands) && DistinctIds(discovered) && IsCollisionList(cands, cols)
    requires r in Classifier.Results(cands, cands, Losers(cols, cands, ops, host), Ambiguous(cols, cands, ops, host))
    ensures r.confidence != AMBIGUOUS
    ensures r.confidence == LOW <==> r.discoveredId in Losers(cols, cands, ops, host)
  {
    var losers, undecided := Losers(cols, cands, ops, host), Ambiguous(cols, cands, ops, host);
    LosersNotAmbiguous(discovered, ops, cands, cols, host);
    hide Losers, Ambiguous, Matcher.IsLeftJoin, IsCollisionList;
    assert cands[..|cands|] == cands;
    var at := Classifier.EmittedOnceInOrder(cands, |cands|, losers, undecided);
    var k :| 0 <= k < |at| && Classifier.Results(cands, cands, losers, undecided)[k] == r;
    var c := cands[at[k]];
    assert at[k] in at;
    assert !Classifier.Kept(c, losers);
  }
}
