/** internal/store/unmanaged_repo.go: the repository object over the table. A statement that the
    database fails returns an error and changes nothing. */
module UnmanagedRepository {
  import opened Text
  import opened Model
  import opened UnmanagedTable

  datatype PushGroup = PushGroup(group: Group, catalogServiceId: Option<string>, openapiSpec: Spec)

  /** The groups of the rows that have a given status. */
  function GroupsWith(t: Table, status: Status): set<Group> {
    set id | id in t && t[id].status == status :: GroupOf(t[id])
  }

  predicate Ready(r: Row, g: Group) {
    GroupOf(r) == g && r.status == SPEC_GENERATED && r.openapiSpec.Some?
  }

  // ---------- The order of the listings ----------

  /** NULLS LAST; text columns are ordered bytewise. */
  predicate IdLeq(a: Option<string>, b: Option<string>) {
    b.None? || (a.Some? && LexLeq(a.value, b.value))
  }

  function ClassName(c: Classification): string {
    match c
    case SHADOW => "SHADOW"
    case DRIFT => "DRIFT"
  }

  /** ORDER BY service_key, classification */
  predicate ServiceLeq(g: Group, h: Group) {
    LexLeq(g.serviceKey, h.serviceKey) && (g.serviceKey == h.serviceKey ==> LexLeq(ClassName(g.classification), ClassName(h.classification)))
  }

  predicate ParentLeq(a: Option<int>, b: Option<int>) {
    b.None? || (a.Some? && a.value <= b.value)
  }

  /** ORDER BY service_key, classification, managed_api_id */
  predicate GroupLeq(g: Group, h: Group) {
    ServiceLeq(g, h)
    && (g.serviceKey == h.serviceKey && g.classification == h.classification ==> ParentLeq(g.managedApiId, h.managedApiId))
  }

  predicate Sorted(groups: seq<Group>) {
    forall i, j :: 0 <= i < j < |groups| ==> GroupLeq(groups[i], groups[j])
  }

  function GroupsOf(groups: seq<PushGroup>): seq<Group> {
    seq(|groups|, i requires 0 <= i < |groups| => groups[i].group)
  }

  predicate Before(a: string, b: string) {
    a != b && LexLeq(a, b)
  }

  /** Services come in the order of their keys, and DRIFT comes before SHADOW. */
  lemma ServiceOrder(g: Group, h: Group)
    ensures ServiceLeq(g, h) <==>
      Before(g.serviceKey, h.serviceKey)
      || (g.serviceKey == h.serviceKey && (g.classification == h.classification || g.classification == DRIFT))
  {
    assert LexLeq("DRIFT", "SHADOW") && !LexLeq("SHADOW", "DRIFT");
    LexTotal(ClassName(g.classification), ClassName(g.classification));
    LexTotal(g.serviceKey, g.serviceKey);
    hide LexLeq;
  }

  /** Within a class, parents come in the order of their ids, and no parent last. */
  lemma GroupOrder(g: Group, h: Group)
    ensures GroupLeq(g, h) <==>
      ServiceLeq(g, h) &&
      (g.serviceKey != h.serviceKey || g.classification != h.classification || h.managedApiId == None
       || (g.managedApiId.Some? && g.managedApiId.value <= h.managedApiId.value))
  {
    hide ServiceLeq;
  }

  lemma ClassTotal(a: Classification, b: Classification)
    ensures LexLeq(ClassName(a), ClassName(b)) || LexLeq(ClassName(b), ClassName(a))
    ensures LexLeq(ClassName(a), ClassName(b)) && LexLeq(ClassName(b), ClassName(a)) ==> a == b
  {
    LexTotal(ClassName(a), ClassName(b));
    assert "SHADOW" != "DRIFT" by {
      assert |"SHADOW"| != |"DRIFT"|;
    }
  }

  lemma GroupTotal(g: Group, h: Group)
    ensures GroupLeq(g, h) || GroupLeq(h, g)
  {
    LexTotal(g.serviceKey, h.serviceKey);
    ClassTotal(g.classification, h.classification);
    hide LexLeq, ClassName;
  }

  lemma GroupTransitive(g: Group, h: Group, k: Group)
    requires GroupLeq(g, h) && GroupLeq(h, k)
    ensures GroupLeq(g, k)
  {
    LexTransitive(g.serviceKey, h.serviceKey, k.serviceKey);
    LexTotal(g.serviceKey, h.serviceKey);
    LexTotal(h.serviceKey, k.serviceKey);
    ClassTotal(g.classification, h.classification);
    ClassTotal(h.classification, k.classification);
    if g.serviceKey == h.serviceKey == k.serviceKey {
      LexTransitive(ClassName(g.classification), ClassName(h.classification), ClassName(k.classification));
    }
    hide LexLeq, ClassName;
  }

  predicate FirstOf(all: set<Group>, g: Group) {
    g in all && forall h :: h in all ==> GroupLeq(g, h)
  }

  lemma {:induction false} FirstExists(all: set<Group>) returns (g: Group)
    requires all != {}
    ensures FirstOf(all, g)
    decreases |all|
  {
    hide GroupLeq;
    var x :| x in all;
    GroupTotal(x, x);
    if all == {x} {
      g := x;
    } else {
      var y := FirstExists(all - {x});
      GroupTotal(x, y);
      g := if GroupLeq(x, y) then x else y;
      forall h | h in all
        ensures GroupLeq(g, h)
      {
        if h != x && g == x {
          GroupTransitive(x, y, h);
        }
      }
    }
  }

  method NextGroup(pending: set<Group>) returns (g: Group)
    requires pending != {}
    ensures FirstOf(pending, g)
  {
    ghost var first := FirstExists(pending);
    g :| FirstOf(pending, g);
  }

  /** The groups taken so far are sorted and come before those that are left. */
  predicate Taken(groups: seq<Group>, pending: set<Group>) {
    Sorted(groups) && forall g, h :: g in groups && h in pending ==> GroupLeq(g, h)
  }

  lemma TakeNext(groups: seq<Group>, pending: set<Group>, g: Group)
    requires Taken(groups, pending) && FirstOf(pending, g)
    ensures Taken(groups + [g], pending - {g})
  {
    hide GroupLeq;
  }

  /** The row that DISTINCT ON keeps for a group: a waiting one with the least catalog id, NULL last. */
  predicate Represents(t: Table, g: Group, id: int) {
    id in t && Ready(t[id], g) &&
    forall j :: j in t && Ready(t[j], g) ==> IdLeq(t[id].catalogServiceId, t[j].catalogServiceId)
  }

  /** A group is listed exactly when some row of the status belongs to it. */
  lemma GroupsWithIff(t: Table, status: Status, g: Group)
    ensures g in GroupsWith(t, status) <==>
      exists id :: id in t && t[id].status == status && t[id].serviceKey == g.serviceKey
                   && t[id].classification == g.classification && t[id].managedApiId == g.managedApiId
  {}

  lemma IdTotal(a: Option<string>, b: Option<string>)
    ensures IdLeq(a, b) || IdLeq(b, a)
  {
    if a.Some? && b.Some? {
      LexTotal(a.value, b.value);
    }
  }

  lemma IdTransitive(a: Option<string>, b: Option<string>, c: Option<string>)
    requires IdLeq(a, b) && IdLeq(b, c)
    ensures IdLeq(a, c)
  {
    if c.Some? {
      LexTransitive(a.value, b.value, c.value);
    }
  }

  predicate Least(t: Table, ids: set<int>, id: int)
    requires ids <= t.Keys
  {
    id in ids && forall j :: j in ids ==> IdLeq(t[id].catalogServiceId, t[j].catalogServiceId)
  }

  lemma {:induction false} LeastExists(t: Table, ids: set<int>) returns (id: int)
    requires ids != {} && ids <= t.Keys
    ensures Least(t, ids, id)
    decreases |ids|
  {
    hide IdLeq;
    HasElement(ids);
    var x: int :| x in ids;
    IdTotal(t[x].catalogServiceId, t[x].catalogServiceId);
    if ids == {x} {
      id := x;
    } else {
      var y := LeastExists(t, ids - {x});
      IdTotal(t[x].catalogServiceId, t[y].catalogServiceId);
      id := if IdLeq(t[x].catalogServiceId, t[y].catalogServiceId) then x else y;
      forall j | j in ids
        ensures IdLeq(t[id].catalogServiceId, t[j].catalogServiceId)
      {
        if j != x && id == x {
          IdTransitive(t[x].catalogServiceId, t[y].catalogServiceId, t[j].catalogServiceId);
        }
      }
    }
  }

  ghost predicate PushGroupFrom(t: Table, pg: PushGroup) {
    exists id :: Represents(t, pg.group, id) &&
      t[id].openapiSpec == Some(pg.openapiSpec) && t[id].catalogServiceId == pg.catalogServiceId
  }

  predicate Waits(r: Row, g: Group) {
    r.serviceKey == g.serviceKey && r.classification == g.classification && r.managedApiId == g.managedApiId
    && r.status == SPEC_GENERATED && r.openapiSpec.Some?
  }

  /** The listed document and id are those of one waiting row of the group, and the id comes first among the
      ids of all of them. */
  lemma ListedFirst(t: Table, pg: PushGroup)
    requires PushGroupFrom(t, pg)
    ensures exists id :: id in t && Waits(t[id], pg.group) && t[id].openapiSpec == Some(pg.openapiSpec)
                         && t[id].catalogServiceId == pg.catalogServiceId
    ensures forall j :: j in t && Waits(t[j], pg.group) && t[j].catalogServiceId.Some? ==>
      pg.catalogServiceId.Some? && LexLeq(pg.catalogServiceId.value, t[j].catalogServiceId.value)
  {
    var id :| Represents(t, pg.group, id) && t[id].openapiSpec == Some(pg.openapiSpec)
              && t[id].catalogServiceId == pg.catalogServiceId;
    assert Waits(t[id], pg.group);
    assert forall j :: j in t && Waits(t[j], pg.group) ==> Ready(t[j], pg.group);
    hide LexLeq;
  }

  predicate ListsOnce(s: seq<Group>, elements: set<Group>) {
    && (forall x :: x in s ==> x in elements)
    && (forall x :: x in elements ==> x in s)
    && forall i, j :: 0 <= i < j < |s| ==> s[i] != s[j]
  }

  lemma HasElement(ids: set<int>)
    requires ids != {}
    ensures exists id: int :: id in ids
  {
    if forall id: int :: id !in ids {
      assert false;
    }
  }

  /** The next row of a scan, in whatever order the database returns rows. */
  method NextOf(ids: set<int>) returns (id: int)
    requires ids != {}
    ensures id in ids
  {
    HasElement(ids);
    id :| id in ids;
  }

  /** The operations that GetGroupOperations joins for a group. */
  function OpsOf(t: Table, g: Group, discovered: set<int>): set<int> {
    set id | id in t && Selected(t[id], g) && id in discovered
  }

  /** They are the group's active operations whose discovered row is still there. */
  lemma OpsOfExact(t: Table, g: Group, discovered: set<int>, id: int)
    requires Inv(t) && WellFormedGroup(g)
    ensures id in OpsOf(t, g, discovered) <==>
      id in t && id in discovered && t[id].status in {DETECTED, SPEC_GENERATED, PUSHED}
      && t[id].serviceKey == g.serviceKey && t[id].classification == g.classification && t[id].managedApiId == g.managedApiId
  {
    if id in t {
      UseRowOk(t, id);
      WildcardExact(t[id], g);
      StatusCases(t[id].status);
    }
    hide Inv, WellFormedGroup, InGroup;
  }

  /** failures counts the statements and queries that the database failed. */
  class UnmanagedRepo {
    var rows: Table
    ghost var failures: nat

    constructor ()
      ensures rows == map[] && failures == 0
    {
      rows, failures := map[], 0;
    }

    method Upsert(u: ClassificationResult, now: int) returns (ok: bool)
      modifies this
      ensures failures == old(failures) + if ok then 0 else 1
      ensures rows == if ok then UpsertStep(old(rows), u, now) else old(rows)
    {
      ok := *;
      failures := failures + if ok then 0 else 1;
      if ok {
        if u.discoveredId in rows {
          rows := rows[u.discoveredId := Confirmed(rows[u.discoveredId], u, now)];
        } else {
          rows := rows[u.discoveredId := Inserted(u, now)];
        }
      }
    }

    method MarkResolved(cycleStart: int, now: int) returns (ok: bool, affected: nat)
      modifies this
      ensures failures == old(failures) + if ok then 0 else 1
      ensures rows == if ok then ResolveStep(old(rows), cycleStart, now) else old(rows)
      ensures !ok ==> affected == 0
      ensures ok ==> affected == |set id | id in old(rows) && Unconfirmed(old(rows)[id], cycleStart)|
    {
      ok := *;
      failures := failures + if ok then 0 else 1;
      affected := 0;
      if ok {
        affected := |set id | id in rows && Unconfirmed(rows[id], cycleStart)|;
        rows := map id | id in rows :: ResolvedRow(rows[id], cycleStart, now);
      }
    }

    method MarkStale(lastSeen: map<int, int>, staleAfter: int, now: int) returns (ok: bool, affected: nat)
      modifies this
      ensures failures == old(failures) + if ok then 0 else 1
      ensures rows == if ok then StaleStep(old(rows), lastSeen, staleAfter, now) else old(rows)
      ensures !ok ==> affected == 0
      ensures ok ==> affected == |set id | id in old(rows) && !Inactive(old(rows)[id].status)
                                           && Expired(id, lastSeen, staleAfter, now)|
    {
      ok := *;
      failures := failures + if ok then 0 else 1;
      affected := 0;
      if ok {
        affected := |set id | id in rows && !Inactive(rows[id].status) && Expired(id, lastSeen, staleAfter, now)|;
        rows := map id | id in rows :: StaleRow(rows[id], Expired(id, lastSeen, staleAfter, now), now);
      }
    }

    method UpdateGroupSpec(g: Group, spec: Spec, now: int) returns (ok: bool, affected: nat)
      modifies this
      ensures failures == old(failures) + if ok then 0 else 1
      ensures rows == if ok then SpecStep(old(rows), g, spec, now) else old(rows)
      ensures !ok ==> affected == 0
      ensures ok ==> affected == |set id | id in old(rows) && Selected(old(rows)[id], g)|
    {
      ok := *;
      failures := failures + if ok then 0 else 1;
      affected := 0;
      if ok {
        affected := |set id | id in rows && Selected(rows[id], g)|;
        rows := map id | id in rows :: SpecRow(rows[id], g, spec, now);
      }
    }

    method MarkPushed(g: Group, serviceId: string, version: string, now: int) returns (ok: bool, affected: nat)
      modifies this
      ensures failures == old(failures) + if ok then 0 else 1
      ensures rows == if ok then PushStep(old(rows), g, serviceId, version, now) else old(rows)
      ensures !ok ==> affected == 0
      ensures ok ==> affected == |set id | id in old(rows) && Selected(old(rows)[id], g)|
    {
      ok := *;
      failures := failures + if ok then 0 else 1;
      affected := 0;
      if ok {
        affected := |set id | id in rows && Selected(rows[id], g)|;
        rows := map id | id in rows :: PushedRow(rows[id], g, serviceId, version, now);
      }
    }

    method MarkPushedSkipped(g: Group, now: int) returns (ok: bool, affected: nat)
      modifies this
      ensures failures == old(failures) + if ok then 0 else 1
      ensures rows == if ok then SkipStep(old(rows), g, now) else old(rows)
      ensures !ok ==> affected == 0
      ensures ok ==> affected == |set id | id in old(rows) && InGroup(old(rows)[id], g) && old(rows)[id].status == SPEC_GENERATED|
    {
      ok := *;
      failures := failures + if ok then 0 else 1;
      affected := 0;
      if ok {
        affected := |set id | id in rows && InGroup(rows[id], g) && rows[id].status == SPEC_GENERATED|;
        rows := map id | id in rows :: SkippedRow(rows[id], g, now);
      }
    }

    /** Each group with a DETECTED row, once, in the order of services and classifications. */
    method GetDetectedGroups() returns (ok: bool, groups: seq<Group>)
      modifies this`failures
      ensures failures == old(failures) + if ok then 0 else 1
      ensures ok ==> ListsOnce(groups, GroupsWith(rows, DETECTED))
      ensures forall i, j :: 0 <= i < j < |groups| ==> ServiceLeq(groups[i], groups[j])
    {
      groups := [];
      ok := *;
      failures := failures + if ok then 0 else 1;
      if !ok {
        return;
      }
      ghost var all := GroupsWith(rows, DETECTED);
      var pending := GroupsWith(rows, DETECTED);
      hide GroupsWith, GroupLeq, Sorted;
      assert Taken(groups, pending) by {
        assert GroupsOf([]) == [];
        NoneTaken(pending);
      }
      while |pending| > 0
        invariant pending <= all
        invariant ListsOnce(groups, all - pending)
        invariant Taken(groups, pending)
        invariant failures == old(failures)
        decreases |pending|
      {
        var g := NextGroup(pending);
        TakeNext(groups, pending, g);
        ListsOnceNext(groups, all, pending, g);
        hide Taken, ListsOnce;
        groups := groups + [g];
        pending := pending - {g};
      }
      assert all - pending == all;
      SortedServices(groups);
    }

    /** Each group with a waiting row, once, in order, with a spec that every waiting row of the group
        carries and the least of their catalog ids. */
    method GetSpecGeneratedGroups() returns (ok: bool, groups: seq<PushGroup>)
      requires Inv(rows)
      modifies this`failures
      ensures failures == old(failures) + if ok then 0 else 1
      ensures ok ==> ListsWaiting(rows, GroupsWith(rows, SPEC_GENERATED), groups)
      ensures SpecsAgree(rows, groups)
      ensures Sorted(GroupsOf(groups))
    {
      groups := [];
      ok := *;
      failures := failures + if ok then 0 else 1;
      if ok {
        var waiting := set id | id in rows && rows[id].status == SPEC_GENERATED && rows[id].openapiSpec.Some? :: GroupOf(rows[id]);
        WaitingHaveSpecs(rows);
        assert waiting == GroupsWith(rows, SPEC_GENERATED);
        groups := ListGroups(waiting);
        ListedSpecsAgree(rows, waiting, groups);
      }
    }

    method ListGroups(all: set<Group>) returns (groups: seq<PushGroup>)
      requires Inv(rows) && all == GroupsWith(rows, SPEC_GENERATED)
      ensures ListsWaiting(rows, all, groups) && Sorted(GroupsOf(groups))
    {
      hide Inv, PushGroupFrom, GroupsWith, GroupLeq, Sorted;
      groups := [];
      var pending := all;
      NoneTaken(all);
      while |pending| > 0
        invariant pending <= all
        invariant ListsWaiting(rows, all - pending, groups)
        invariant Taken(GroupsOf(groups), pending)
        decreases |pending|
      {
        var g := NextGroup(pending);
        var pg := PickRepresentative(g);
        TakeNext(GroupsOf(groups), pending, g);
        assert GroupsOf(groups + [pg]) == GroupsOf(groups) + [g];
        ListsWaitingSnoc(rows, all - pending, groups, pg);
        assert all - pending + {g} == all - (pending - {g});
        hide Taken, ListsWaiting;
        groups := groups + [pg];
        pending := pending - {g};
      }
      assert all - pending == all;
    }

    method PickRepresentative(g: Group) returns (pg: PushGroup)
      requires Inv(rows) && g in GroupsWith(rows, SPEC_GENERATED)
      ensures pg.group == g && WellFormedGroup(g) && PushGroupFrom(rows, pg)
    {
      var ready := set id | id in rows && Ready(rows[id], g);
      ghost var w :| w in rows && rows[w].status == SPEC_GENERATED && GroupOf(rows[w]) == g;
      UseRowOk(rows, w);
      assert w in ready;
      ghost var least := LeastExists(rows, ready);
      hide Inv, IdLeq;
      var id :| Least(rows, ready, id);
      LeastRepresents(rows, g, ready, id);
      pg := PushGroup(g, rows[id].catalogServiceId, rows[id].openapiSpec.value);
    }

    /** The operations of a group: its rows that are joined with a discovered row. */
    method GetGroupOperations(g: Group, discovered: set<int>) returns (ok: bool, ops: set<int>)
      modifies this`failures
      ensures failures == old(failures) + if ok then 0 else 1
      ensures ok ==> ops == OpsOf(rows, g, discovered)
    {
      ops := {};
      ok := *;
      failures := failures + if ok then 0 else 1;
      if ok {
        ops := set id | id in rows && Selected(rows[id], g) && id in discovered;
      }
    }

    method TrackedCatalogServiceIDs() returns (ok: bool, ids: set<string>)
      modifies this`failures
      ensures failures == old(failures) + if ok then 0 else 1
      ensures ok ==> ids == set id | id in rows && rows[id].catalogServiceId.Some? :: rows[id].catalogServiceId.value
    {
      ids := {};
      ok := *;
      failures := failures + if ok then 0 else 1;
      if !ok {
        return;
      }
      var pending := rows.Keys;
      while |pending| > 0
        invariant pending <= rows.Keys
        invariant ids == set id | id in rows && id !in pending && rows[id].catalogServiceId.Some? :: rows[id].catalogServiceId.value
        invariant failures == old(failures)
        decreases |pending|
      {
        var id := NextOf(pending);
        if rows[id].catalogServiceId.Some? {
          ids := ids + {rows[id].catalogServiceId.value};
        }
        pending := pending - {id};
      }
    }
  }

  lemma LeastRepresents(t: Table, g: Group, ready: set<int>, id: int)
    requires ready == set j | j in t && Ready(t[j], g)
    requires ready <= t.Keys && Least(t, ready, id)
    ensures Represents(t, g, id)
  {
    hide IdLeq, Ready;
    forall j | j in t && Ready(t[j], g)
      ensures IdLeq(t[id].catalogServiceId, t[j].catalogServiceId)
    {
      assert j in ready;
    }
  }

  lemma ListsOnceNext(groups: seq<Group>, all: set<Group>, pending: set<Group>, g: Group)
    requires ListsOnce(groups, all - pending) && pending <= all && g in pending
    ensures ListsOnce(groups + [g], all - (pending - {g}))
  {}

  lemma NoneTaken(all: set<Group>)
    ensures Taken(GroupsOf([]), all)
  {}

  lemma SortedServices(groups: seq<Group>)
    requires Sorted(groups)
    ensures forall i, j :: 0 <= i < j < |groups| ==> ServiceLeq(groups[i], groups[j])
  {
    hide ServiceLeq;
  }

  /** One entry for each of the given groups, each taken from a row that represents the group. */
  ghost predicate ListsWaiting(t: Table, all: set<Group>, groups: seq<PushGroup>) {
    && (forall pg :: pg in groups ==> pg.group in all && WellFormedGroup(pg.group) && PushGroupFrom(t, pg))
    && (forall g :: g in all ==> exists i :: 0 <= i < |groups| && groups[i].group == g)
    && (forall i, j :: 0 <= i < j < |groups| ==> groups[i].group != groups[j].group)
  }

  lemma ListsWaitingSnoc(t: Table, all: set<Group>, groups: seq<PushGroup>, pg: PushGroup)
    requires ListsWaiting(t, all, groups) && pg.group !in all
    requires WellFormedGroup(pg.group) && PushGroupFrom(t, pg)
    ensures ListsWaiting(t, all + {pg.group}, groups + [pg])
  {
    hide PushGroupFrom, WellFormedGroup;
    var r := groups + [pg];
    assert r[|groups|] == pg;
    forall g | g in all + {pg.group}
      ensures exists i :: 0 <= i < |r| && r[i].group == g
    {
      if g in all {
        var i :| 0 <= i < |groups| && groups[i].group == g;
        assert r[i].group == g;
      }
    }
    assert forall i :: 0 <= i < |groups| ==> groups[i] in groups;
  }

  lemma WaitingHaveSpecs(t: Table)
    requires Inv(t)
    ensures forall id :: id in t && t[id].status == SPEC_GENERATED ==> t[id].openapiSpec.Some?
  {
    forall id | id in t && t[id].status == SPEC_GENERATED
      ensures t[id].openapiSpec.Some?
    {
      UseRowOk(t, id);
    }
  }

  /** The spec listed for a group is the one that each of its waiting rows carries. */
  ghost predicate SpecsAgree(t: Table, groups: seq<PushGroup>) {
    forall pg, id :: pg in groups && id in t && Ready(t[id], pg.group) ==> t[id].openapiSpec == Some(pg.openapiSpec)
  }

  lemma ListedSpecsAgree(t: Table, all: set<Group>, groups: seq<PushGroup>)
    requires Inv(t) && ListsWaiting(t, all, groups)
    ensures SpecsAgree(t, groups)
  {
    hide Inv, PushGroupFrom;
    forall pg, id | pg in groups && id in t && Ready(t[id], pg.group)
      ensures t[id].openapiSpec == Some(pg.openapiSpec)
    {
      RepresentativeSpec(t, pg, id);
    }
  }

  /** Whatever waiting row DISTINCT ON picks for a group, the pushed spec is the same. */
  lemma RepresentativeSpec(t: Table, pg: PushGroup, id: int)
    requires Inv(t) && PushGroupFrom(t, pg)
    requires id in t && Ready(t[id], pg.group)
    ensures t[id].openapiSpec == Some(pg.openapiSpec)
  {
    var j :| Represents(t, pg.group, j) && t[j].openapiSpec == Some(pg.openapiSpec)
             && t[j].catalogServiceId == pg.catalogServiceId;
    assert PairOk(t[j], t[id]);
  }
}
