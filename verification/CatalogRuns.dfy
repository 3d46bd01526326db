/** What runs of pushes can do to the catalog: the exact outcomes of one push, and when the entries of
    a run survive it. */
module CatalogRuns {
  import opened Model
  import opened UnmanagedTable
  import opened UnmanagedRepository
  import opened ServiceCatalog
  import opened CatalogPush

  // ---------- The exact outcomes of a successful push ----------

  /** The branches of createEntry, recoverConflict and updateEntry that end in success, with every reply
      and every fresh id that the catalog's contracts allow, and the action each of them reports. */
  ghost predicate CanCreate(c: Entries, e: Entry, action: Action, id: string, after: Entries)
    decreases |c|, 1
  {
    if NameTaken(c, e.name)
    then exists found :: found in c && c[found].name == e.name && CanUpdate(c, found, e, action, id, after)
    else action == CREATED && id !in c && after == c[id := e]
  }

  ghost predicate CanUpdate(c: Entries, serviceId: string, e: Entry, action: Action, id: string, after: Entries)
    requires serviceId in c
    decreases |c|, 0
  {
    Deleted(c, serviceId);
    || (action == UPDATED && !NameTaken(c - {serviceId}, e.name) && id == serviceId && after == c[serviceId := e])
    || CanCreate(c - {serviceId}, e, action, id, after)
  }

  ghost predicate CanPush(c: Entries, pg: PushGroup, cfg: Config, e: Entry, action: Action, id: string, after: Entries) {
    match pg.catalogServiceId
    case None => CanCreate(c, e, action, id, after)
    case Some(tracked) =>
      if tracked in c then CanUpdate(c, tracked, e, action, id, after)
      else cfg.rePushDeleted && CanCreate(c, e, action, id, after)
  }

  lemma Deleted(c: Entries, id: string)
    requires id in c
    ensures |c - {id}| < |c|
  {
    assert (c - {id}).Keys == c.Keys - {id};
    assert |c - {id}| == |(c - {id}).Keys| && |c| == |c.Keys|;
  }

  /** The entries that a push leaves alone. */
  function Rest(c: Entries, tracked: Option<string>, name: string): Entries {
    map id | id in c && !Exempt(c, id, tracked, name) :: c[id]
  }

  /** The entry replaces whatever had its name or the tracked id. */
  predicate Replaces(c: Entries, tracked: Option<string>, e: Entry, id: string, after: Entries) {
    id !in Rest(c, tracked, e.name) && after == Rest(c, tracked, e.name)[id := e]
  }

  /** The same, created under any free id, or updated under the id of the entry that an update can rewrite. */
  predicate Outcome(c: Entries, tracked: Option<string>, e: Entry, action: Action, id: string, after: Entries) {
    && Replaces(c, tracked, e, id, after)
    && (action == CREATED || (action == UPDATED && UpdateTarget(c, tracked, e.name, id)))
  }

  lemma TargetOfNamed(c: Entries, found: string, name: string, id: string)
    requires UniqueNames(c) && found in c && c[found].name == name
    ensures UpdateTarget(c, None, name, id) <==> id == found
    ensures UpdateTarget(c, Some(found), name, id) <==> id == found
  {}

  lemma TargetWithout(c: Entries, serviceId: string, name: string, id: string)
    requires serviceId in c
    ensures UpdateTarget(c, Some(serviceId), name, id) <==>
      UpdateTarget(c - {serviceId}, None, name, id) || (id == serviceId && !NameTaken(c - {serviceId}, name))
  {
    assert forall j :: j in c && j != serviceId ==> j in c - {serviceId} && (c - {serviceId})[j] == c[j];
  }

  lemma RestWithout(c: Entries, serviceId: string, name: string)
    requires serviceId in c
    ensures Rest(c - {serviceId}, None, name) == Rest(c, Some(serviceId), name)
  {}

  lemma RestOfNamed(c: Entries, found: string, name: string)
    requires UniqueNames(c) && found in c && c[found].name == name
    ensures Rest(c, None, name) == Rest(c, Some(found), name)
  {}

  lemma RestUnnamed(c: Entries, name: string)
    requires !NameTaken(c, name)
    ensures Rest(c, None, name) == c
  {}

  lemma {:induction false} CanCreateIff(c: Entries, e: Entry, action: Action, id: string, after: Entries)
    requires UniqueNames(c)
    ensures CanCreate(c, e, action, id, after) <==> Outcome(c, None, e, action, id, after)
    decreases |c|, 1
  {
    if NameTaken(c, e.name) {
      var taken :| taken in c && c[taken].name == e.name;
      CanUpdateIff(c, taken, e, action, id, after);
      RestOfNamed(c, taken, e.name);
      TargetOfNamed(c, taken, e.name, id);
      hide Rest, CanUpdate, UpdateTarget;
      assert forall found :: found in c && c[found].name == e.name ==> found == taken;
    } else {
      RestUnnamed(c, e.name);
    }
  }

  lemma {:induction false} CanUpdateIff(c: Entries, serviceId: string, e: Entry, action: Action, id: string, after: Entries)
    requires UniqueNames(c) && serviceId in c
    ensures CanUpdate(c, serviceId, e, action, id, after) <==> Outcome(c, Some(serviceId), e, action, id, after)
    decreases |c|, 0
  {
    var less := c - {serviceId};
    Deleted(c, serviceId);
    CanCreateIff(less, e, action, id, after);
    RestWithout(c, serviceId, e.name);
    TargetWithout(c, serviceId, e.name, id);
    hide UpdateTarget;
    if !NameTaken(less, e.name) {
      RestUnnamed(less, e.name);
      hide Rest, CanCreate;
      assert c[serviceId := e] == less[serviceId := e];
    }
  }

  lemma ReplacesIff(c: Entries, tracked: Option<string>, e: Entry, id: string, after: Entries)
    ensures Framed(c, after, tracked, e) && Settled(after, tracked, e, id) <==> Replaces(c, tracked, e, id, after)
  {
    if Framed(c, after, tracked, e) && Settled(after, tracked, e, id) {
      assert after == Rest(c, tracked, e.name)[id := e];
    }
  }

  lemma RestGone(c: Entries, tracked: string, name: string, id: string)
    requires tracked !in c
    ensures Rest(c, Some(tracked), name) == Rest(c, None, name)
    ensures UpdateTarget(c, Some(tracked), name, id) <==> UpdateTarget(c, None, name, id)
  {}

  /** What is promised of a successful push, its action included, is exactly what the protocol can do: the
      promise leaves out no success, and allows none that some replies of the catalog do not lead to. */
  lemma PushExact(c: Entries, after: Entries, pg: PushGroup, cfg: Config, version: string, action: Action, id: string)
    requires UniqueNames(c) && Success(action)
    ensures PushRelation(c, after, pg, cfg, version, action, id) <==>
      CanPush(c, pg, cfg, Published(pg, cfg, version), action, id, after)
  {
    var e := Published(pg, cfg, version);
    hide Published;
    ReplacesIff(c, pg.catalogServiceId, e, id, after);
    CanCreateIff(c, e, action, id, after);
    if pg.catalogServiceId.Some? {
      if pg.catalogServiceId.value in c {
        CanUpdateIff(c, pg.catalogServiceId.value, e, action, id, after);
      } else {
        RestGone(c, pg.catalogServiceId.value, e.name, id);
      }
    }
    hide Framed, Settled, Replaces, CanCreate, CanUpdate, UpdateTarget;
  }

  // ---------- Overwriting ----------

  ghost predicate Present(c: Entries, e: Entry) {
    exists id :: id in c && c[id] == e
  }

  /** A successful push leaves no other entry under its name: whatever an earlier push published under
      the same name is gone unless it was this very entry. */
  lemma LaterPushReplaces(c: Entries, after: Entries, pg: PushGroup, cfg: Config, version: string, action: Action, id: string,
                          earlier: Entry)
    requires PushRelation(c, after, pg, cfg, version, action, id) && Success(action)
    requires earlier.name == CatalogName(pg) && earlier != Published(pg, cfg, version)
    ensures !Present(after, earlier)
  {
    hide CatalogName;
  }

  /** The same for the entry that the push tracked. */
  lemma TrackedPushReplaces(c: Entries, after: Entries, pg: PushGroup, cfg: Config, version: string, action: Action, id: string,
                            earlier: Entry)
    requires UniqueNames(c) && PushRelation(c, after, pg, cfg, version, action, id) && Success(action)
    requires pg.catalogServiceId.Some? && pg.catalogServiceId.value in c && c[pg.catalogServiceId.value] == earlier
    requires earlier != Published(pg, cfg, version)
    ensures !Present(after, earlier)
  {
    hide CatalogName;
  }

  // ---------- Runs ----------

  /** A run over these groups: any of the pushes may fail or be skipped. */
  ghost predicate CatalogRun(groups: seq<PushGroup>, cfg: Config, log: seq<Pushed>, versions: seq<string>, catalogs: seq<Entries>) {
    && |log| == |versions| == |groups| && |catalogs| == |groups| + 1
    && forall i :: 0 <= i < |groups| ==>
         PushRelation(catalogs[i], catalogs[i + 1], groups[i], cfg, versions[i], log[i].action, log[i].id)
  }

  /** At the end the catalog holds the entry of every push that succeeded. */
  ghost predicate KeepsAll(groups: seq<PushGroup>, cfg: Config, log: seq<Pushed>, versions: seq<string>, catalogs: seq<Entries>)
    requires |log| == |versions| == |groups| && |catalogs| == |groups| + 1
  {
    forall i :: 0 <= i < |groups| && Success(log[i].action) ==> Present(catalogs[|groups|], Published(groups[i], cfg, versions[i]))
  }

  /** Pushing b after a can cost a its entry: b derives a's name, or tracks an id that is free, that a
      tracks too, or whose entry has a's name. All of it can be read before the run. */
  predicate Collide(c: Entries, a: PushGroup, b: PushGroup) {
    || CatalogName(a) == CatalogName(b)
    || (b.catalogServiceId.Some? &&
        var tracked := b.catalogServiceId.value;
        tracked !in c || a.catalogServiceId == Some(tracked) || c[tracked].name == CatalogName(a))
  }

  predicate NoCollisions(c: Entries, groups: seq<PushGroup>, cfg: Config) {
    forall i, j :: 0 <= i < j < |groups| && Able(c, groups[i], cfg) ==> !Collide(c, groups[i], groups[j])
  }

  lemma RunStep(groups: seq<PushGroup>, cfg: Config, log: seq<Pushed>, versions: seq<string>, catalogs: seq<Entries>, i: nat)
    requires CatalogRun(groups, cfg, log, versions, catalogs) && i < |groups|
    ensures |log| == |versions| == |groups| && |catalogs| == |groups| + 1
    ensures PushRelation(catalogs[i], catalogs[i + 1], groups[i], cfg, versions[i], log[i].action, log[i].id)
  {}

  /** Groups that cannot be pushed leave the catalog as it was. */
  lemma {:induction false} StillStart(groups: seq<PushGroup>, cfg: Config, log: seq<Pushed>, versions: seq<string>,
                                      catalogs: seq<Entries>, m: nat)
    requires CatalogRun(groups, cfg, log, versions, catalogs) && m <= |groups|
    requires forall k :: 0 <= k < m ==> !Able(catalogs[0], groups[k], cfg)
    ensures |catalogs| == |groups| + 1 && catalogs[m] == catalogs[0]
    decreases m
  {
    if m > 0 {
      RunStep(groups, cfg, log, versions, catalogs, m - 1);
      hide CatalogRun, Framed, Settled, Able, Published;
      StillStart(groups, cfg, log, versions, catalogs, m - 1);
      assert !Able(catalogs[m - 1], groups[m - 1], cfg);
    }
  }

  /** Without collisions a group whose tracked entry is gone has only groups before it that cannot be
      pushed, so it cannot be pushed either. */
  lemma NeverAble(groups: seq<PushGroup>, cfg: Config, log: seq<Pushed>, versions: seq<string>, catalogs: seq<Entries>, i: nat)
    requires CatalogRun(groups, cfg, log, versions, catalogs) && NoCollisions(catalogs[0], groups, cfg)
    requires i < |groups| && !Able(catalogs[0], groups[i], cfg)
    ensures catalogs[i] == catalogs[0] == catalogs[i + 1] && !Success(log[i].action)
  {
    forall k | 0 <= k < i
      ensures !Able(catalogs[0], groups[k], cfg)
    {
      assert Collide(catalogs[0], groups[k], groups[i]);
    }
    StillStart(groups, cfg, log, versions, catalogs, i);
    RunStep(groups, cfg, log, versions, catalogs, i);
  }

  /** Without collisions the entry that a group tracks is still as it was when the group's turn comes. */
  lemma {:induction false} TrackedKept(groups: seq<PushGroup>, cfg: Config, log: seq<Pushed>, versions: seq<string>,
                                       catalogs: seq<Entries>, m: nat, j: nat)
    requires CatalogRun(groups, cfg, log, versions, catalogs) && NoCollisions(catalogs[0], groups, cfg)
    requires m <= j < |groups| && groups[j].catalogServiceId.Some? && groups[j].catalogServiceId.value in catalogs[0]
    ensures var tracked := groups[j].catalogServiceId.value;
      tracked in catalogs[m] && catalogs[m][tracked] == catalogs[0][tracked]
    decreases m
  {
    if m > 0 {
      var k := m - 1;
      TrackedKept(groups, cfg, log, versions, catalogs, k, j);
      if Able(catalogs[0], groups[k], cfg) {
        assert !Collide(catalogs[0], groups[k], groups[j]);
        RunStep(groups, cfg, log, versions, catalogs, k);
        hide CatalogName, CatalogRun, NoCollisions;
        assert !Exempt(catalogs[k], groups[j].catalogServiceId.value, groups[k].catalogServiceId, CatalogName(groups[k]));
      } else {
        NeverAble(groups, cfg, log, versions, catalogs, k);
      }
    }
  }

  lemma {:induction false} EntryKept(groups: seq<PushGroup>, cfg: Config, log: seq<Pushed>, versions: seq<string>,
                                     catalogs: seq<Entries>, i: nat, n: nat)
    requires CatalogRun(groups, cfg, log, versions, catalogs) && NoCollisions(catalogs[0], groups, cfg)
    requires i < n <= |groups| && Success(log[i].action)
    ensures log[i].id in catalogs[n] && catalogs[n][log[i].id] == Published(groups[i], cfg, versions[i])
    decreases n
  {
    var j := n - 1;
    RunStep(groups, cfg, log, versions, catalogs, j);
    if i < j {
      EntryKept(groups, cfg, log, versions, catalogs, i, j);
      if !Able(catalogs[0], groups[i], cfg) {
        NeverAble(groups, cfg, log, versions, catalogs, i);
      }
      assert !Collide(catalogs[0], groups[i], groups[j]);
      if groups[j].catalogServiceId.Some? {
        TrackedKept(groups, cfg, log, versions, catalogs, j, j);
      }
      assert Published(groups[i], cfg, versions[i]).name == CatalogName(groups[i]);
      hide CatalogName, CatalogRun, NoCollisions, Published;
      assert Published(groups[j], cfg, versions[j]).name == CatalogName(groups[j]) by { PublishedName(groups[j], cfg, versions[j]); }
      assert !Exempt(catalogs[j], log[i].id, groups[j].catalogServiceId, CatalogName(groups[j]));
    }
  }

  lemma PublishedName(pg: PushGroup, cfg: Config, version: string)
    ensures Published(pg, cfg, version).name == CatalogName(pg) && Published(pg, cfg, version).version == version
  {}

  // ---------- A run that loses an entry ----------

  lemma {:induction false} FreshId(ids: set<string>) returns (id: string)
    ensures id !in ids && forall x :: x in ids ==> |x| < |id|
    decreases |ids|
  {
    if ids == {} {
      id := "x";
    } else {
      var y :| y in ids;
      id := FreshId(ids - {y});
      if |y| >= |id| {
        id := y + "x";
      }
    }
  }

  lemma ReplacingPush(c: Entries, pg: PushGroup, cfg: Config, version: string, id: string) returns (after: Entries)
    requires Able(c, pg, cfg) && id !in Rest(c, pg.catalogServiceId, CatalogName(pg))
    ensures PushRelation(c, after, pg, cfg, version, CREATED, id)
    ensures after == Rest(c, pg.catalogServiceId, CatalogName(pg))[id := Published(pg, cfg, version)]
  {
    PublishedName(pg, cfg, version);
    after := Rest(c, pg.catalogServiceId, CatalogName(pg))[id := Published(pg, cfg, version)];
    ReplacesIff(c, pg.catalogServiceId, Published(pg, cfg, version), id, after);
    hide CatalogName, Published, Framed, Settled, Rest;
  }

  lemma FailedPush(c: Entries, pg: PushGroup, cfg: Config, version: string)
    ensures PushRelation(c, c, pg, cfg, version, FAILED, "")
  {
    hide Published, CatalogName, Able;
  }

  /** Two pushes, the second of which costs the first its entry. */
  lemma LosingPair(c: Entries, a: PushGroup, b: PushGroup, cfg: Config)
    returns (mid: Entries, last: Entries, idA: string, idB: string)
    requires Able(c, a, cfg) && Collide(c, a, b)
    ensures PushRelation(c, mid, a, cfg, "", CREATED, idA) && PushRelation(mid, last, b, cfg, "v", CREATED, idB)
    ensures !Present(last, Published(a, cfg, ""))
  {
    var left := Rest(c, a.catalogServiceId, CatalogName(a));
    if b.catalogServiceId.Some? && b.catalogServiceId.value !in left {
      idA := b.catalogServiceId.value;
    } else {
      idA := FreshId(c.Keys);
    }
    mid := ReplacingPush(c, a, cfg, "", idA);
    idB := if b.catalogServiceId.Some? then b.catalogServiceId.value else idA;
    PublishedName(a, cfg, "");
    PublishedName(b, cfg, "v");
    hide CatalogName, Published, PushRelation, Able;
    assert Able(mid, b, cfg) by { AbleAfter(left, b, cfg, idA, Published(a, cfg, "")); }
    EntryGone(left, idA, idB, b.catalogServiceId, Published(a, cfg, ""), Published(b, cfg, "v"));
    last := ReplacingPush(mid, b, cfg, "v", idB);
  }

  lemma AbleAfter(left: Entries, b: PushGroup, cfg: Config, idA: string, e: Entry)
    requires b.catalogServiceId.Some? && b.catalogServiceId.value !in left ==> idA == b.catalogServiceId.value
    ensures Able(left[idA := e], b, cfg)
  {}

  /** The second replacement drops the entry that the first one made. */
  lemma EntryGone(left: Entries, idA: string, idB: string, tracked: Option<string>, e: Entry, f: Entry)
    requires forall id :: id in left ==> left[id].name != e.name
    requires idA !in left && e != f && (tracked == Some(idA) || e.name == f.name)
    requires idB == if tracked.Some? then tracked.value else idA
    ensures var mid := left[idA := e];
      idB !in Rest(mid, tracked, f.name) && !Present(Rest(mid, tracked, f.name)[idB := f], e)
  {}

  /** In a run over these groups only the pushes at i and j do anything. */
  lemma LosingRun(c: Entries, groups: seq<PushGroup>, cfg: Config, i: nat, j: nat)
    returns (log: seq<Pushed>, versions: seq<string>, catalogs: seq<Entries>)
    requires i < j < |groups| && Able(c, groups[i], cfg) && Collide(c, groups[i], groups[j])
    ensures CatalogRun(groups, cfg, log, versions, catalogs) && catalogs[0] == c
    ensures !KeepsAll(groups, cfg, log, versions, catalogs)
  {
    var mid, last, idA, idB := LosingPair(c, groups[i], groups[j], cfg);
    log := LogOf(|groups|, i, j, idA, idB);
    versions := VersionsOf(|groups|, j);
    catalogs := CatalogsOf(|groups|, i, j, c, mid, last);
    assert |log| == |versions| == |groups| && |catalogs| == |groups| + 1;
    hide *;
    forall k | 0 <= k < |groups|
      ensures PushRelation(catalogs[k], catalogs[k + 1], groups[k], cfg, versions[k], log[k].action, log[k].id)
    {
      LosingStep(c, groups, cfg, i, j, mid, last, idA, idB, k);
    }
    RunOf(groups, cfg, log, versions, catalogs, i, j, c, mid, last, idA, idB);
  }

  lemma LosingStep(c: Entries, groups: seq<PushGroup>, cfg: Config, i: nat, j: nat, mid: Entries, last: Entries,
                   idA: string, idB: string, k: nat)
    requires i < j < |groups| && k < |groups|
    requires PushRelation(c, mid, groups[i], cfg, "", CREATED, idA) && PushRelation(mid, last, groups[j], cfg, "v", CREATED, idB)
    ensures var log, versions, catalogs := LogOf(|groups|, i, j, idA, idB), VersionsOf(|groups|, j), CatalogsOf(|groups|, i, j, c, mid, last);
      && |log| == |versions| == |groups| && |catalogs| == |groups| + 1
      && PushRelation(catalogs[k], catalogs[k + 1], groups[k], cfg, versions[k], log[k].action, log[k].id)
  {
    hide PushRelation;
    if k != i && k != j {
      FailedPush(CatalogsOf(|groups|, i, j, c, mid, last)[k], groups[k], cfg, "");
    }
  }

  lemma RunOf(groups: seq<PushGroup>, cfg: Config, log: seq<Pushed>, versions: seq<string>, catalogs: seq<Entries>,
              i: nat, j: nat, c: Entries, mid: Entries, last: Entries, idA: string, idB: string)
    requires i < j < |groups| && log == LogOf(|groups|, i, j, idA, idB) && versions == VersionsOf(|groups|, j)
    requires catalogs == CatalogsOf(|groups|, i, j, c, mid, last)
    requires forall k :: 0 <= k < |groups| ==>
               PushRelation(catalogs[k], catalogs[k + 1], groups[k], cfg, versions[k], log[k].action, log[k].id)
    requires !Present(last, Published(groups[i], cfg, ""))
    ensures CatalogRun(groups, cfg, log, versions, catalogs) && catalogs[0] == c
    ensures !KeepsAll(groups, cfg, log, versions, catalogs)
  {
    hide PushRelation, Present, Published;
    assert Success(log[i].action) && versions[i] == "" && catalogs[|groups|] == last;
  }

  function LogOf(n: nat, i: nat, j: nat, idA: string, idB: string): seq<Pushed> {
    seq(n, k => if k == i then Pushed(CREATED, idA) else if k == j then Pushed(CREATED, idB) else Pushed(FAILED, ""))
  }

  function VersionsOf(n: nat, j: nat): seq<string> {
    seq(n, k => if k == j then "v" else "")
  }

  function CatalogsOf(n: nat, i: nat, j: nat, c: Entries, mid: Entries, last: Entries): seq<Entries> {
    seq(n + 1, k => if k <= i then c else if k <= j then mid else last)
  }

  /** Over every run from a given catalog, with whatever replies and versions, the catalog holds at the
      end the entry of every push that succeeded: this is so exactly when no group that can be pushed is
      followed by one that collides with it. */
  lemma EntriesSurviveIff(c: Entries, groups: seq<PushGroup>, cfg: Config)
    ensures (forall log: seq<Pushed>, versions: seq<string>, catalogs: seq<Entries> ::
               CatalogRun(groups, cfg, log, versions, catalogs) && catalogs[0] == c ==>
               KeepsAll(groups, cfg, log, versions, catalogs))
            <==> NoCollisions(c, groups, cfg)
  {
    if NoCollisions(c, groups, cfg) {
      forall log: seq<Pushed>, versions: seq<string>, catalogs: seq<Entries> | CatalogRun(groups, cfg, log, versions, catalogs) && catalogs[0] == c
        ensures KeepsAll(groups, cfg, log, versions, catalogs)
      {
        forall i | 0 <= i < |groups| && Success(log[i].action)
          ensures Present(catalogs[|groups|], Published(groups[i], cfg, versions[i]))
        {
          EntryKept(groups, cfg, log, versions, catalogs, i, |groups|);
        }
      }
    } else {
      var i, j :| 0 <= i < j < |groups| && Able(c, groups[i], cfg) && Collide(c, groups[i], groups[j]);
      var log, versions, catalogs := LosingRun(c, groups, cfg, i, j);
    }
  }

  // ---------- Runs in which every push succeeds ----------

  predicate AllSucceed(log: seq<Pushed>) {
    forall i :: 0 <= i < |log| ==> Success(log[i].action)
  }

  /** Up to the push at i this id names no entry but the one it named at the start. */
  predicate Reserved(c: Entries, catalogs: seq<Entries>, i: nat, id: string) {
    forall m :: 0 <= m < |catalogs| && m <= i && id in catalogs[m] ==> id in c && catalogs[m][id] == c[id]
  }

  /** A run over the first groups in which all pushes succeed, the one at i under a given id, and only that
      one with an empty version. */
  ghost predicate Staged(c: Entries, groups: seq<PushGroup>, cfg: Config, m: nat, i: nat, id: string,
                         log: seq<Pushed>, versions: seq<string>, catalogs: seq<Entries>)
    requires m <= |groups|
  {
    && CatalogRun(groups[..m], cfg, log, versions, catalogs) && catalogs[0] == c && AllSucceed(log)
    && (forall k :: 0 <= k < m ==> versions[k] == if k == i then "" else "v")
    && (i < m ==> log[i].id == id)
    && Reserved(c, catalogs, i, id)
  }

  lemma StagedNone(c: Entries, groups: seq<PushGroup>, cfg: Config, i: nat, id: string)
    ensures Staged(c, groups, cfg, 0, i, id, [], [], [c])
  {}

  lemma StagedNext(c: Entries, groups: seq<PushGroup>, cfg: Config, m: nat, i: nat, id: string,
                   log: seq<Pushed>, versions: seq<string>, catalogs: seq<Entries>, used: string, after: Entries)
    requires m < |groups| && Staged(c, groups, cfg, m, i, id, log, versions, catalogs)
    requires PushRelation(catalogs[m], after, groups[m], cfg, if m == i then "" else "v", CREATED, used)
    requires if m == i then used == id else id in after ==> id in catalogs[m] && after[id] == catalogs[m][id]
    ensures Staged(c, groups, cfg, m + 1, i, id, log + [Pushed(CREATED, used)], versions + [if m == i then "" else "v"],
                   catalogs + [after])
  {
    hide PushRelation;
    assert groups[..m + 1] == groups[..m] + [groups[m]];
    assert catalogs[m] == (catalogs + [after])[m];
  }

  /** The run can be carried on when the id is free, or names an entry that the push at i replaces. */
  lemma {:induction false} StageRun(c: Entries, groups: seq<PushGroup>, cfg: Config, m: nat, i: nat, id: string)
    returns (log: seq<Pushed>, versions: seq<string>, catalogs: seq<Entries>)
    requires cfg.rePushDeleted && m <= |groups| && i < |groups|
    requires id !in Rest(c, groups[i].catalogServiceId, CatalogName(groups[i]))
    ensures Staged(c, groups, cfg, m, i, id, log, versions, catalogs)
    decreases m
  {
    if m == 0 {
      StagedNone(c, groups, cfg, i, id);
      log, versions, catalogs := [], [], [c];
    } else {
      var k := m - 1;
      log, versions, catalogs := StageRun(c, groups, cfg, k, i, id);
      var used, after := StagePush(c, groups, cfg, k, i, id, log, versions, catalogs);
      hide *;
      StagedNext(c, groups, cfg, k, i, id, log, versions, catalogs, used, after);
      log, versions, catalogs := log + [Pushed(CREATED, used)], versions + [if k == i then "" else "v"], catalogs + [after];
    }
  }

  /** The next push of such a run: under the given id at i, and under a new one elsewhere. */
  lemma StagePush(c: Entries, groups: seq<PushGroup>, cfg: Config, m: nat, i: nat, id: string,
                  log: seq<Pushed>, versions: seq<string>, catalogs: seq<Entries>)
    returns (used: string, after: Entries)
    requires cfg.rePushDeleted && m < |groups| && i < |groups|
    requires id !in Rest(c, groups[i].catalogServiceId, CatalogName(groups[i]))
    requires Staged(c, groups, cfg, m, i, id, log, versions, catalogs)
    ensures |catalogs| == m + 1
    ensures PushRelation(catalogs[m], after, groups[m], cfg, if m == i then "" else "v", CREATED, used)
    ensures if m == i then used == id else id in after ==> id in catalogs[m] && after[id] == catalogs[m][id]
  {
    assert |catalogs| == m + 1 && Reserved(c, catalogs, i, id);
    var now, pg := catalogs[m], groups[m];
    assert Able(now, pg, cfg);
    if m == i {
      ReservedFree(c, catalogs, i, id, pg);
      hide *;
      used := id;
      after := ReplacingPush(now, pg, cfg, "", used);
    } else {
      used := FreshId(now.Keys + {id});
      RestWithin(now, pg.catalogServiceId, CatalogName(pg));
      hide *;
      after := ReplacingPush(now, pg, cfg, "v", used);
    }
  }

  lemma RestWithin(c: Entries, tracked: Option<string>, name: string)
    ensures forall id :: id in Rest(c, tracked, name) ==> id in c && Rest(c, tracked, name)[id] == c[id]
  {}

  lemma ReservedFree(c: Entries, catalogs: seq<Entries>, i: nat, id: string, pg: PushGroup)
    requires i < |catalogs| && Reserved(c, catalogs, i, id)
    requires id !in Rest(c, pg.catalogServiceId, CatalogName(pg))
    ensures id !in Rest(catalogs[i], pg.catalogServiceId, CatalogName(pg))
  {
    hide CatalogName;
  }

  /** Only the push at i has an empty version. */
  predicate OneUnversioned(versions: seq<string>, i: nat) {
    forall k :: 0 <= k < |versions| ==> (versions[k] == "" <==> k == i)
  }

  predicate OnlyAt(c: Entries, e: Entry, at: string) {
    forall id :: id in c && c[id] == e ==> id == at
  }

  lemma MadeThere(c: Entries, after: Entries, pg: PushGroup, cfg: Config, action: Action, id: string)
    requires PushRelation(c, after, pg, cfg, "", action, id) && Success(action)
    ensures OnlyAt(after, Published(pg, cfg, ""), id)
  {
    hide Published;
  }

  lemma NotMadeAgain(c: Entries, after: Entries, pg: PushGroup, cfg: Config, version: string, action: Action, id: string,
                     e: Entry, at: string)
    requires PushRelation(c, after, pg, cfg, version, action, id) && e.version != version && OnlyAt(c, e, at)
    ensures OnlyAt(after, e, at)
  {
    PublishedName(pg, cfg, version);
    hide Published, CatalogName;
  }

  /** After its push an entry of a distinct version stands at its id or nowhere. */
  lemma {:induction false} OnlyThere(groups: seq<PushGroup>, cfg: Config, log: seq<Pushed>, versions: seq<string>,
                                     catalogs: seq<Entries>, i: nat, n: nat)
    requires CatalogRun(groups, cfg, log, versions, catalogs) && i < n <= |groups| && Success(log[i].action)
    requires OneUnversioned(versions, i)
    ensures OnlyAt(catalogs[n], Published(groups[i], cfg, ""), log[i].id)
    decreases n
  {
    var j := n - 1;
    RunStep(groups, cfg, log, versions, catalogs, j);
    assert versions[j] == "" <==> j == i;
    hide *;
    if i == j {
      MadeThere(catalogs[j], catalogs[n], groups[j], cfg, log[j].action, log[j].id);
    } else {
      OnlyThere(groups, cfg, log, versions, catalogs, i, j);
      PublishedName(groups[i], cfg, "");
      NotMadeAgain(catalogs[j], catalogs[n], groups[j], cfg, versions[j], log[j].action, log[j].id,
                   Published(groups[i], cfg, ""), log[i].id);
    }
  }

  /** Once gone, such an entry does not come back. */
  lemma {:induction false} StaysGone(groups: seq<PushGroup>, cfg: Config, log: seq<Pushed>, versions: seq<string>,
                                     catalogs: seq<Entries>, i: nat, m: nat, n: nat)
    requires CatalogRun(groups, cfg, log, versions, catalogs) && i < m <= n <= |groups|
    requires OneUnversioned(versions, i)
    requires !Present(catalogs[m], Published(groups[i], cfg, ""))
    ensures |catalogs| == |groups| + 1 && !Present(catalogs[n], Published(groups[i], cfg, ""))
    decreases n
  {
    if m < n {
      var j := n - 1;
      RunStep(groups, cfg, log, versions, catalogs, j);
      assert versions[j] != "";
      hide *;
      StaysGone(groups, cfg, log, versions, catalogs, i, m, j);
      PublishedName(groups[i], cfg, "");
      NotMade(catalogs[j], catalogs[n], groups[j], cfg, versions[j], log[j].action, log[j].id, Published(groups[i], cfg, ""));
    }
  }

  lemma NotMade(c: Entries, after: Entries, pg: PushGroup, cfg: Config, version: string, action: Action, id: string, e: Entry)
    requires PushRelation(c, after, pg, cfg, version, action, id) && e.version != version && !Present(c, e)
    ensures !Present(after, e)
  {
    PublishedName(pg, cfg, version);
    hide Published, CatalogName;
  }

  lemma PushDrops(c: Entries, after: Entries, pg: PushGroup, cfg: Config, action: Action, id: string, e: Entry, at: string)
    requires PushRelation(c, after, pg, cfg, "v", action, id) && Success(action) && e.version == ""
    requires OnlyAt(c, e, at)
    requires pg.catalogServiceId == Some(at) || CatalogName(pg) == e.name
    ensures !Present(after, e)
  {
    PublishedName(pg, cfg, "v");
    hide Published, CatalogName;
  }

  /** A group that collides with an earlier one costs it its entry in some run without a failed push. */
  lemma LosingSuccess(c: Entries, groups: seq<PushGroup>, cfg: Config, i: nat, j: nat)
    returns (log: seq<Pushed>, versions: seq<string>, catalogs: seq<Entries>)
    requires cfg.rePushDeleted && i < j < |groups|
    requires Collide(c, groups[i], groups[j])
    ensures CatalogRun(groups, cfg, log, versions, catalogs) && catalogs[0] == c && AllSucceed(log)
    ensures !KeepsAll(groups, cfg, log, versions, catalogs)
  {
    hide *;
    var a, b := groups[i], groups[j];
    var id := LosingId(c, a, b);
    log, versions, catalogs := StageRun(c, groups, cfg, |groups|, i, id);
    assert groups[..|groups|] == groups;
    StagedMeans(c, groups, cfg, i, j, id, log, versions, catalogs);
    RunStep(groups, cfg, log, versions, catalogs, j);
    OnlyThere(groups, cfg, log, versions, catalogs, i, j);
    PublishedName(a, cfg, "");
    PushDrops(catalogs[j], catalogs[j + 1], b, cfg, log[j].action, log[j].id, Published(a, cfg, ""), id);
    StaysGone(groups, cfg, log, versions, catalogs, i, j + 1, |groups|);
    NotAllKept(groups, cfg, log, versions, catalogs, i);
  }

  lemma LosingId(c: Entries, a: PushGroup, b: PushGroup) returns (id: string)
    requires Collide(c, a, b)
    ensures id !in Rest(c, a.catalogServiceId, CatalogName(a))
    ensures b.catalogServiceId == Some(id) || CatalogName(b) == CatalogName(a)
  {
    var left := Rest(c, a.catalogServiceId, CatalogName(a));
    if b.catalogServiceId.Some? && b.catalogServiceId.value !in left {
      id := b.catalogServiceId.value;
    } else {
      id := FreshId(c.Keys);
    }
  }

  lemma StagedMeans(c: Entries, groups: seq<PushGroup>, cfg: Config, i: nat, j: nat, id: string,
                    log: seq<Pushed>, versions: seq<string>, catalogs: seq<Entries>)
    requires groups[..|groups|] == groups && Staged(c, groups, cfg, |groups|, i, id, log, versions, catalogs)
    requires i < |groups| && j < |groups| && i != j
    ensures CatalogRun(groups, cfg, log, versions, catalogs) && catalogs[0] == c && AllSucceed(log) && OneUnversioned(versions, i)
    ensures Success(log[i].action) && log[i].id == id && versions[i] == ""
    ensures Success(log[j].action) && versions[j] == "v"
  {
    hide PushRelation, Reserved;
    assert Success(log[i].action) && Success(log[j].action);
  }

  lemma NotAllKept(groups: seq<PushGroup>, cfg: Config, log: seq<Pushed>, versions: seq<string>, catalogs: seq<Entries>, i: nat)
    requires |log| == |versions| == |groups| && |catalogs| == |groups| + 1
    requires i < |groups| && Success(log[i].action) && !Present(catalogs[|groups|], Published(groups[i], cfg, versions[i]))
    ensures !KeepsAll(groups, cfg, log, versions, catalogs)
  {
    hide Present, Published;
  }

  /** The condition is the same when only runs without a failed or skipped push are looked at, which exist
      for all groups when deleted entries are pushed again. */
  lemma SuccessfulRunsIff(c: Entries, groups: seq<PushGroup>, cfg: Config)
    requires cfg.rePushDeleted
    ensures (forall log: seq<Pushed>, versions: seq<string>, catalogs: seq<Entries> ::
               CatalogRun(groups, cfg, log, versions, catalogs) && catalogs[0] == c && AllSucceed(log) ==>
               KeepsAll(groups, cfg, log, versions, catalogs))
            <==> NoCollisions(c, groups, cfg)
  {
    EntriesSurviveIff(c, groups, cfg);
    if !NoCollisions(c, groups, cfg) {
      var i, j :| 0 <= i < j < |groups| && Able(c, groups[i], cfg) && Collide(c, groups[i], groups[j]);
      hide *;
      var log, versions, catalogs := LosingSuccess(c, groups, cfg, i, j);
    }
  }

  /** The run of the phase is such a run. */
  lemma RunKeepsEntries(phase: PushPhase, groups: seq<PushGroup>, log: seq<Pushed>, versionOf: nat -> string, clock: nat -> int,
                        catalogs: seq<Entries>, tables: seq<Table>)
    requires phase.PushedInTurn(groups, log, versionOf, clock, catalogs, tables)
    requires NoCollisions(catalogs[0], groups, phase.cfg)
    ensures forall i :: 0 <= i < |groups| && Success(log[i].action) ==>
      Present(catalogs[|groups|], Published(groups[i], phase.cfg, versionOf(i)))
  {
    var versions := seq(|groups|, i requires 0 <= i < |groups| => versionOf(i));
    assert forall i :: 0 <= i < |groups| ==> versions[i] == versionOf(i);
    hide PushRelation, RowsAfter, NoCollisions, Published, Present, Able;
    assert CatalogRun(groups, phase.cfg, log, versions, catalogs);
    forall i | 0 <= i < |groups| && Success(log[i].action)
      ensures Present(catalogs[|groups|], Published(groups[i], phase.cfg, versionOf(i)))
    {
      hide CatalogRun;
      EntryKept(groups, phase.cfg, log, versions, catalogs, i, |groups|);
      AtPlace(catalogs[|groups|], log[i].id, Published(groups[i], phase.cfg, versionOf(i)));
    }
  }

  lemma AtPlace(c: Entries, id: string, e: Entry)
    requires id in c && c[id] == e
    ensures Present(c, e)
  {}

  /** When no group tracks an entry yet, this comes down to the names. */
  lemma UntrackedSurviveIff(c: Entries, groups: seq<PushGroup>, cfg: Config)
    requires forall pg :: pg in groups ==> pg.catalogServiceId.None?
    ensures NoCollisions(c, groups, cfg) <==> forall i, j :: 0 <= i < j < |groups| ==> !ShareName(groups[i], groups[j])
  {
    forall i, j | 0 <= i < j < |groups|
      ensures ShareName(groups[i], groups[j]) <==> Able(c, groups[i], cfg) && Collide(c, groups[i], groups[j])
    {
      NamesEqualIff(groups[i], groups[j]);
      assert groups[i] in groups && groups[j] in groups;
    }
    hide ShareName, Collide, Able;
  }

  // ---------- The table after a run ----------

  predicate DistinctGroups(groups: seq<PushGroup>) {
    forall i, j :: 0 <= i < j < |groups| ==> groups[i].group != groups[j].group
  }

  lemma OtherGroupsRow(now: Table, after: Table, pg: PushGroup, action: Action, id: string, version: string, at: int, row: int)
    requires Inv(now) && WellFormedGroup(pg.group) && RowsAfter(now, after, pg, action, id, version, at)
    requires row in now && GroupOf(now[row]) != pg.group
    ensures row in after && after[row] == now[row]
  {
    hide Inv, WellFormedGroup, RowsAfter;
    RowAfter(now, after, pg, action, id, version, at, row);
  }

  lemma PushedRowOf(now: Table, g: Group, id: string, version: string, at: int, row: int)
    requires Inv(now) && WellFormedGroup(g) && row in now && GroupOf(now[row]) == g && !Inactive(now[row].status)
    ensures var r := PushStep(now, g, id, version, at)[row];
      GroupOf(r) == g && r.status == PUSHED && r.catalogServiceId == Some(id)
  {
    UseRowOk(now, row);
    WildcardExact(now[row], g);
    hide Inv, WellFormedGroup, InGroup;
  }

  lemma TablesKeepInv(phase: PushPhase, groups: seq<PushGroup>, log: seq<Pushed>, versionOf: nat -> string, clock: nat -> int,
                      catalogs: seq<Entries>, tables: seq<Table>, n: nat)
    requires phase.PushedInTurn(groups, log, versionOf, clock, catalogs, tables) && n <= |groups|
    requires Inv(tables[0]) && forall pg :: pg in groups ==> WellFormedGroup(pg.group)
    ensures |tables| == |groups| + 1 && Inv(tables[n])
  {
    phase.ChainKeeps(groups, log, versionOf, clock, catalogs, tables, n);
  }

  lemma TableStep(phase: PushPhase, groups: seq<PushGroup>, log: seq<Pushed>, versionOf: nat -> string, clock: nat -> int,
                  catalogs: seq<Entries>, tables: seq<Table>, i: nat)
    requires phase.PushedInTurn(groups, log, versionOf, clock, catalogs, tables) && i < |groups|
    ensures |log| == |groups| && |catalogs| == |tables| == |groups| + 1 && groups[i] in groups
    ensures RowsAfter(tables[i], tables[i + 1], groups[i], log[i].action, log[i].id, versionOf(i), clock(i))
  {}

  /** Before the turn of its group a row is as at the start, and then as that turn left it. */
  lemma {:induction false} RowAround(phase: PushPhase, groups: seq<PushGroup>, log: seq<Pushed>, versionOf: nat -> string,
                                     clock: nat -> int, catalogs: seq<Entries>, tables: seq<Table>, i: nat, m: nat, n: nat, row: int)
    requires phase.PushedInTurn(groups, log, versionOf, clock, catalogs, tables) && DistinctGroups(groups)
    requires Inv(tables[0]) && forall pg :: pg in groups ==> WellFormedGroup(pg.group)
    requires i < |groups| && m <= n <= |groups| && (n <= i || i < m)
    requires row in tables[m] && GroupOf(tables[m][row]) == groups[i].group
    ensures |tables| == |groups| + 1 && row in tables[n] && tables[n][row] == tables[m][row]
    decreases n
  {
    if m < n {
      var k := n - 1;
      TableStep(phase, groups, log, versionOf, clock, catalogs, tables, k);
      TablesKeepInv(phase, groups, log, versionOf, clock, catalogs, tables, k);
      assert groups[k].group != groups[i].group;
      hide *;
      RowAround(phase, groups, log, versionOf, clock, catalogs, tables, i, m, k, row);
      OtherGroupsRow(tables[k], tables[n], groups[k], log[k].action, log[k].id, versionOf(k), clock(k), row);
    }
  }

  /** When the push of a group and its table write succeed, each active row of the group ends the run PUSHED
      with the id that the push reported, whatever happens to the other groups. */
  lemma RowsTrackPush(phase: PushPhase, groups: seq<PushGroup>, log: seq<Pushed>, versionOf: nat -> string, clock: nat -> int,
                      catalogs: seq<Entries>, tables: seq<Table>, i: nat, row: int)
    requires phase.PushedInTurn(groups, log, versionOf, clock, catalogs, tables) && DistinctGroups(groups)
    requires Inv(tables[0]) && forall pg :: pg in groups ==> WellFormedGroup(pg.group)
    requires i < |groups| && tables[i + 1] == PushStep(tables[i], groups[i].group, log[i].id, versionOf(i), clock(i))
    requires row in tables[0] && GroupOf(tables[0][row]) == groups[i].group && !Inactive(tables[0][row].status)
    ensures |tables| == |groups| + 1 && row in tables[|groups|]
    ensures tables[|groups|][row].status == PUSHED && tables[|groups|][row].catalogServiceId == Some(log[i].id)
  {
    TableStep(phase, groups, log, versionOf, clock, catalogs, tables, i);
    hide *;
    TablesKeepInv(phase, groups, log, versionOf, clock, catalogs, tables, i);
    RowAround(phase, groups, log, versionOf, clock, catalogs, tables, i, 0, i, row);
    PushedRowOf(tables[i], groups[i].group, log[i].id, versionOf(i), clock(i), row);
    PushKeepsRow(tables[i], groups[i].group, log[i].id, versionOf(i), clock(i), row);
    RowAround(phase, groups, log, versionOf, clock, catalogs, tables, i, i + 1, |groups|, row);
  }

  lemma PushKeepsRow(now: Table, g: Group, id: string, version: string, at: int, row: int)
    requires row in now
    ensures row in PushStep(now, g, id, version, at)
  {}

  /** Without collisions that id is then alive: it names the entry that the push published. */
  lemma RowsTrackLiveEntries(phase: PushPhase, groups: seq<PushGroup>, log: seq<Pushed>, versionOf: nat -> string,
                             clock: nat -> int, catalogs: seq<Entries>, tables: seq<Table>, i: nat, row: int)
    requires phase.PushedInTurn(groups, log, versionOf, clock, catalogs, tables) && DistinctGroups(groups)
    requires Inv(tables[0]) && forall pg :: pg in groups ==> WellFormedGroup(pg.group)
    requires NoCollisions(catalogs[0], groups, phase.cfg)
    requires i < |groups| && Success(log[i].action)
    requires tables[i + 1] == PushStep(tables[i], groups[i].group, log[i].id, versionOf(i), clock(i))
    requires row in tables[0] && GroupOf(tables[0][row]) == groups[i].group && !Inactive(tables[0][row].status)
    ensures |catalogs| == |tables| == |groups| + 1 && row in tables[|groups|]
    ensures var r, c := tables[|groups|][row], catalogs[|groups|];
      && r.status == PUSHED && r.catalogServiceId.Some? && r.catalogServiceId.value in c
      && c[r.catalogServiceId.value] == Published(groups[i], phase.cfg, versionOf(i))
  {
    var versions := seq(|groups|, k requires 0 <= k < |groups| => versionOf(k));
    assert forall k :: 0 <= k < |groups| ==> versions[k] == versionOf(k);
    AsCatalogRun(phase, groups, log, versionOf, clock, catalogs, tables, versions);
    hide *;
    TableStep(phase, groups, log, versionOf, clock, catalogs, tables, i);
    RowsTrackPush(phase, groups, log, versionOf, clock, catalogs, tables, i, row);
    EntryKept(groups, phase.cfg, log, versions, catalogs, i, |groups|);
  }

  /** A run in which no call and no statement failed, with a configuration that pushes deleted entries again:
      each active row of each of its groups ends PUSHED and tracks the live entry that its group published. */
  lemma CompletedRunTracks(phase: PushPhase, groups: seq<PushGroup>, log: seq<Pushed>, versionOf: nat -> string, clock: nat -> int,
                           catalogs: seq<Entries>, tables: seq<Table>, i: nat, row: int)
    requires phase.PushedInTurn(groups, log, versionOf, clock, catalogs, tables) && DistinctGroups(groups)
    requires phase.AllCompleted(groups, log, versionOf, clock, catalogs, tables) && phase.cfg.rePushDeleted
    requires Inv(tables[0]) && forall pg :: pg in groups ==> WellFormedGroup(pg.group)
    requires NoCollisions(catalogs[0], groups, phase.cfg)
    requires i < |groups| && row in tables[0] && GroupOf(tables[0][row]) == groups[i].group && !Inactive(tables[0][row].status)
    ensures |catalogs| == |tables| == |groups| + 1 && row in tables[|groups|]
    ensures var r, c := tables[|groups|][row], catalogs[|groups|];
      && r.status == PUSHED && r.catalogServiceId.Some? && r.catalogServiceId.value in c
      && EntryFor(c[r.catalogServiceId.value], groups[i], phase.cfg.hostname, versionOf(i))
  {
    CompletedStep(phase, groups, log, versionOf, clock, catalogs, tables, i);
    hide *;
    RowsTrackLiveEntries(phase, groups, log, versionOf, clock, catalogs, tables, i, row);
    PublishedFor(groups[i], phase.cfg, versionOf(i));
  }

  lemma CompletedStep(phase: PushPhase, groups: seq<PushGroup>, log: seq<Pushed>, versionOf: nat -> string, clock: nat -> int,
                      catalogs: seq<Entries>, tables: seq<Table>, i: nat)
    requires phase.AllCompleted(groups, log, versionOf, clock, catalogs, tables) && phase.cfg.rePushDeleted && i < |groups|
    ensures |log| == |groups| && |tables| == |groups| + 1 && Success(log[i].action)
    ensures tables[i + 1] == PushStep(tables[i], groups[i].group, log[i].id, versionOf(i), clock(i))
  {
    assert Completes(catalogs[i], groups[i], phase.cfg, log[i].action);
    assert RowsRecorded(tables[i], tables[i + 1], groups[i], log[i].action, log[i].id, versionOf(i), clock(i));
    hide PushStep, SkipStep;
  }

  lemma AsCatalogRun(phase: PushPhase, groups: seq<PushGroup>, log: seq<Pushed>, versionOf: nat -> string, clock: nat -> int,
                     catalogs: seq<Entries>, tables: seq<Table>, versions: seq<string>)
    requires phase.PushedInTurn(groups, log, versionOf, clock, catalogs, tables)
    requires |versions| == |groups| && forall k :: 0 <= k < |groups| ==> versions[k] == versionOf(k)
    ensures CatalogRun(groups, phase.cfg, log, versions, catalogs)
  {
    hide PushRelation, RowsAfter;
  }
}
