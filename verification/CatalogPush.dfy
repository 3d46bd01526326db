/** internal/catalog/catalog.go: pushing a group's document to the service catalog. */
module CatalogPush {
  import opened Text
  import opened Model
  import opened UnmanagedTable
  import opened UnmanagedRepository
  import opened ServiceCatalog

  datatype Action = CREATED | UPDATED | SKIPPED | FAILED

  /** What is reported of one push: the action and, when it succeeded, the id of the entry. */
  datatype Pushed = Pushed(action: Action, id: string)

  datatype Config = Config(pushShadow: bool, pushDrift: bool, rePushDeleted: bool, hostname: string)

  // ---------- Names and metadata ----------

  function CatalogName(pg: PushGroup): string {
    if pg.group.classification == DRIFT && pg.openapiSpec.parentApiName != "" then pg.openapiSpec.parentApiName + "-Drift"
    else ReplaceChar(ReplaceChar(pg.group.serviceKey, '/', '-'), ':', '-')
  }

  function OwnershipMarker(hostname: string): string {
    "[ADC:" + hostname + "]"
  }

  function ClassDescription(g: Group): string {
    (if g.classification == SHADOW then "[SHADOW]" else "[DRIFT]") + (" " +
    ((if g.classification == SHADOW
      then "Discovered by ADC — entire service is unmanaged. Service key: "
      else "Discovered by ADC — undocumented operations on managed API. Service key: ") + g.serviceKey))
  }

  /** The entry that a push of the group asks for. */
  function Published(pg: PushGroup, cfg: Config, version: string): Entry {
    Entry(CatalogName(pg), version, OwnershipMarker(cfg.hostname) + " " + ClassDescription(pg.group),
          if pg.openapiSpec.serverURL != "" then pg.openapiSpec.serverURL else "http://unknown-host",
          pg.openapiSpec)
  }

  // ---------- Equal names ----------

  function Dash(c: char): char {
    if c == '/' || c == ':' then '-' else c
  }

  /** The name is a DRIFT group's parent API with a suffix; otherwise it is the service key with dashes. */
  predicate NamedByParent(pg: PushGroup) {
    pg.group.classification == DRIFT && pg.openapiSpec.parentApiName != ""
  }

  predicate SameDashed(key: string, other: string) {
    |key| == |other| && forall i :: 0 <= i < |key| ==> Dash(key[i]) == Dash(other[i])
  }

  /** The key reads as this name once its slashes and colons are dashes. */
  predicate ReadsAs(key: string, name: string) {
    |key| == |name| && forall i :: 0 <= i < |key| ==> Dash(key[i]) == name[i]
  }

  /** Two groups share a name by their keys, by their parents, or by a key that reads as the other's
      parent with the suffix. */
  predicate ShareName(a: PushGroup, b: PushGroup) {
    if NamedByParent(a) && NamedByParent(b) then a.openapiSpec.parentApiName == b.openapiSpec.parentApiName
    else if NamedByParent(a) then ReadsAs(b.group.serviceKey, a.openapiSpec.parentApiName + "-Drift")
    else if NamedByParent(b) then ReadsAs(a.group.serviceKey, b.openapiSpec.parentApiName + "-Drift")
    else SameDashed(a.group.serviceKey, b.group.serviceKey)
  }

  lemma DashedName(key: string)
    ensures ReadsAs(key, ReplaceChar(ReplaceChar(key, '/', '-'), ':', '-'))
  {}

  /** The derived names are equal exactly when the groups share a name in that sense. */
  lemma NamesEqualIff(a: PushGroup, b: PushGroup)
    ensures CatalogName(a) == CatalogName(b) <==> ShareName(a, b)
  {
    DashedName(a.group.serviceKey);
    DashedName(b.group.serviceKey);
    hide ReplaceChar;
    var m, n := CatalogName(a), CatalogName(b);
    if NamedByParent(a) && NamedByParent(b) {
      var p, q := a.openapiSpec.parentApiName, b.openapiSpec.parentApiName;
      assert m[..|m| - 6] == p && n[..|n| - 6] == q;
    } else {
      assert m == n <==> |m| == |n| && forall i :: 0 <= i < |m| ==> m[i] == n[i];
    }
  }

  /** Service b in namespace a and a service a-b without a namespace. */
  lemma ServiceNamesCollide(a: PushGroup, b: PushGroup)
    requires a.group == Group("a/b", SHADOW, None) && b.group == Group("a-b", SHADOW, None)
    ensures a.group != b.group && CatalogName(a) == CatalogName(b)
  {
    NamesEqualIff(a, b);
    assert a.group.serviceKey[1] != b.group.serviceKey[1];
  }

  /** All drifting services of one named parent API derive the same name. */
  lemma DriftNamesCollide(a: PushGroup, b: PushGroup)
    requires a.group.classification == b.group.classification == DRIFT
    requires a.openapiSpec.parentApiName == b.openapiSpec.parentApiName != ""
    ensures CatalogName(a) == CatalogName(b)
  {
    NamesEqualIff(a, b);
  }

  // ---------- What a push may do to the catalog ----------

  predicate Exempt(c: Entries, id: string, tracked: Option<string>, name: string)
    requires id in c
  {
    tracked == Some(id) || c[id].name == name
  }

  /** Entries with neither the tracked id nor the derived name are untouched, and whatever else is in
      the catalog afterwards is the published entry. */
  predicate Framed(before: Entries, after: Entries, tracked: Option<string>, e: Entry) {
    && (forall id :: id in before && !Exempt(before, id, tracked, e.name) ==> id in after && after[id] == before[id])
    && (forall id :: id in after ==> after[id] == e || (id in before && after[id] == before[id]))
  }

  /** Exactly one entry has the derived name, it is the published one, and the tracked id names no other entry. */
  predicate Settled(after: Entries, tracked: Option<string>, e: Entry, id: string) {
    && id in after && after[id] == e
    && (forall j :: j in after && after[j].name == e.name ==> j == id)
    && (tracked.Some? && tracked.value in after ==> after[tracked.value] == e)
  }

  predicate Success(a: Action) {
    a in {CREATED, UPDATED}
  }

  lemma FramedTrans(a: Entries, b: Entries, c: Entries, tracked: Option<string>, e: Entry)
    requires Framed(a, b, tracked, e) && Framed(b, c, None, e)
    ensures Framed(a, c, tracked, e)
  {
    forall id | id in a && !Exempt(a, id, tracked, e.name)
      ensures id in c && c[id] == a[id]
    {
      assert !Exempt(b, id, None, e.name);
    }
  }

  /** Some entries are gone, nothing else changed. */
  predicate Shrunk(before: Entries, after: Entries) {
    forall id :: id in after ==> id in before && after[id] == before[id]
  }

  /** A group whose tracked entry is gone is pushed only when the configuration asks for it. */
  predicate Able(c: Entries, pg: PushGroup, cfg: Config) {
    pg.catalogServiceId.None? || pg.catalogServiceId.value in c || cfg.rePushDeleted
  }

  /** The entry that an accepted update can rewrite: one with the name beside the tracked entry, or, when
      there is none, the tracked entry. */
  predicate UpdateTarget(c: Entries, tracked: Option<string>, name: string, id: string) {
    id in c && if tracked == Some(id) then forall j :: j in c && j != id ==> c[j].name != name else c[id].name == name
  }

  /** What one push of a group promises about the catalog. */
  predicate PushRelation(before: Entries, after: Entries, pg: PushGroup, cfg: Config, version: string,
                         action: Action, id: string) {
    var e := Published(pg, cfg, version);
    && Framed(before, after, pg.catalogServiceId, e)
    && (if Success(action) then Settled(after, pg.catalogServiceId, e, id) else Shrunk(before, after))
    && (action == UPDATED ==> UpdateTarget(before, pg.catalogServiceId, e.name, id))
    && (action == SKIPPED ==> !Able(before, pg, cfg))
    && (!Able(before, pg, cfg) ==> after == before && !Success(action))
  }

  /** What one push may do to the table: nothing (the write was lost), the marking that fits the action. */
  predicate RowsAfter(before: Table, after: Table, pg: PushGroup, action: Action, id: string, version: string, now: int) {
    after == before
    || (Success(action) && after == PushStep(before, pg.group, id, version, now))
    || (action == SKIPPED && after == SkipStep(before, pg.group, now))
  }

  /** Without a failed statement the table has the marking that fits the action. */
  predicate RowsRecorded(before: Table, after: Table, pg: PushGroup, action: Action, id: string, version: string, now: int) {
    after == if Success(action) then PushStep(before, pg.group, id, version, now)
             else if action == SKIPPED then SkipStep(before, pg.group, now) else before
  }

  /** Without a failed call a push succeeds, or is skipped when its tracked entry is gone for good. */
  predicate Completes(before: Entries, pg: PushGroup, cfg: Config, action: Action) {
    if Able(before, pg, cfg) then Success(action) else action == SKIPPED
  }

  /** A push without a tracked entry is one with a tracked entry that is gone. */
  lemma TrackedGone(before: Entries, after: Entries, tracked: string, e: Entry, action: Action, id: string)
    requires Framed(before, after, None, e) && tracked !in before
    requires Success(action) ==> Settled(after, None, e, id)
    requires action == UPDATED ==> UpdateTarget(before, None, e.name, id)
    ensures Framed(before, after, Some(tracked), e)
    ensures Success(action) ==> Settled(after, Some(tracked), e, id)
    ensures action == UPDATED ==> UpdateTarget(before, Some(tracked), e.name, id)
  {
    assert forall j :: j in before ==> Exempt(before, j, Some(tracked), e.name) == Exempt(before, j, None, e.name);
  }

  lemma NothingPushed(c: Entries, tracked: string, e: Entry)
    ensures Framed(c, c, Some(tracked), e) && Shrunk(c, c)
  {}

  // ---------- What a push asks for and records ----------

  predicate EndsWith(s: string, suffix: string) {
    |suffix| <= |s| && s[|s| - |suffix|..] == suffix
  }

  lemma Described(hostname: string, tag: string, text: string, key: string)
    ensures var d := "[ADC:" + hostname + "]" + " " + (tag + (" " + (text + key)));
      EndsWith(d, key) && "[ADC:" + hostname + "] " + tag + " " <= d
  {
    var marker := "[ADC:" + hostname;
    var d := marker + "]" + " " + (tag + (" " + (text + key)));
    assert d == (marker + "] " + tag + " ") + (text + key);
    assert d == (marker + "] " + tag + " " + text) + key;
  }

  /** The entry carries the group's document as definition, the version given, the document's server or a
      placeholder, a description that starts with the marker and the class and ends in the service key, and a
      name made of the parent API or of the service key. */
  predicate EntryFor(e: Entry, pg: PushGroup, hostname: string, version: string) {
    && e.definition == pg.openapiSpec && e.version == version
    && e.serviceUrl == (if pg.openapiSpec.serverURL == "" then "http://unknown-host" else pg.openapiSpec.serverURL)
    && "[ADC:" + hostname + "] " + (if pg.group.classification == SHADOW then "[SHADOW]" else "[DRIFT]") + " " <= e.description
    && EndsWith(e.description, pg.group.serviceKey)
    && if pg.group.classification == DRIFT && pg.openapiSpec.parentApiName != "" then e.name == pg.openapiSpec.parentApiName + "-Drift"
       else DashedAs(pg.group.serviceKey, e.name)
  }

  predicate DashedAs(key: string, name: string) {
    |name| == |key| && forall k :: 0 <= k < |key| ==> name[k] == if key[k] == '/' || key[k] == ':' then '-' else key[k]
  }

  lemma PublishedFor(pg: PushGroup, cfg: Config, version: string)
    ensures EntryFor(Published(pg, cfg, version), pg, cfg.hostname, version)
  {
    Described(cfg.hostname, "[SHADOW]", "Discovered by ADC — entire service is unmanaged. Service key: ", pg.group.serviceKey);
    Described(cfg.hostname, "[DRIFT]", "Discovered by ADC — undocumented operations on managed API. Service key: ", pg.group.serviceKey);
    DashedName(pg.group.serviceKey);
    hide EndsWith, ReplaceChar;
  }

  /** After a successful push the reported id names the entry for the group, and no other entry has its name. */
  lemma PushedEntry(before: Entries, after: Entries, pg: PushGroup, cfg: Config, version: string, action: Action, id: string)
    requires PushRelation(before, after, pg, cfg, version, action, id) && action in {CREATED, UPDATED}
    ensures id in after && EntryFor(after[id], pg, cfg.hostname, version)
    ensures forall j :: j in after && after[j].name == after[id].name ==> j == id
  {
    PublishedFor(pg, cfg, version);
    hide EntryFor, Framed, Published;
  }

  /** A push whose tracked entry is gone changes nothing and is no success, unless the configuration asks to
      push deleted entries again; only such a push is ever skipped. */
  lemma DeletedStaysDeleted(before: Entries, after: Entries, pg: PushGroup, cfg: Config, version: string, action: Action, id: string)
    requires PushRelation(before, after, pg, cfg, version, action, id)
    ensures pg.catalogServiceId.Some? && pg.catalogServiceId.value !in before && !cfg.rePushDeleted ==>
      after == before && action in {SKIPPED, FAILED}
    ensures action == SKIPPED ==>
      pg.catalogServiceId.Some? && pg.catalogServiceId.value !in before && !cfg.rePushDeleted
  {
    hide Framed, Settled, Published;
    match action
    case CREATED =>
    case UPDATED =>
    case SKIPPED =>
    case FAILED =>
  }

  /** What a push may write on a row: on the active rows of its group, when it succeeded, the id and the
      version it published; on the waiting ones, when it was skipped, the status alone; nothing else ever. */
  lemma RecordedRow(before: Table, after: Table, pg: PushGroup, action: Action, id: string, version: string, now: int, row: int)
    requires Inv(before) && WellFormedGroup(pg.group) && row in before
    requires RowsAfter(before, after, pg, action, id, version, now)
    ensures row in after
    ensures after[row] == before[row] ||
      (GroupOf(before[row]) == pg.group && !Inactive(before[row].status) && after[row].status == PUSHED
       && after[row].openapiSpec == before[row].openapiSpec
       && ((action in {CREATED, UPDATED} && after[row].catalogServiceId == Some(id) && after[row].catalogVersion == Some(version))
           || (action == SKIPPED && before[row].status == SPEC_GENERATED
               && after[row].catalogServiceId == before[row].catalogServiceId)))
    ensures after != before && action in {CREATED, UPDATED} && GroupOf(before[row]) == pg.group && !Inactive(before[row].status) ==>
      after[row].status == PUSHED && after[row].catalogServiceId == Some(id)
  {
    GroupUpdatesExact(before, pg.group, pg.openapiSpec, id, version, now, row);
    hide Inv, WellFormedGroup, PushedRow, SkippedRow, SpecStep;
  }

  /** The entries under other names. */
  function Others(c: Entries, name: string): Entries {
    map id | id in c && c[id].name != name :: c[id]
  }

  lemma OneMoreThanOthers(c: Entries, tracked: Option<string>, e: Entry, id: string)
    requires Settled(c, tracked, e, id)
    ensures |c| == |Others(c, e.name)| + 1
  {
    assert c.Keys == Others(c, e.name).Keys + {id};
    assert |c| == |c.Keys| && |Others(c, e.name)| == |Others(c, e.name).Keys|;
  }

  /** A push that succeeds twice changes nothing under other names the second time. */
  lemma SecondPushKeepsOthers(b: Entries, c: Entries, tracked: Option<string>, e1: Entry, id1: string, e2: Entry, id2: string)
    requires e1.name == e2.name
    requires Settled(b, tracked, e1, id1) && Framed(b, c, tracked, e2) && Settled(c, tracked, e2, id2)
    ensures Others(c, e1.name) == Others(b, e1.name)
  {
    forall id | id in b && b[id].name != e1.name
      ensures id in c && c[id] == b[id]
    {
      assert !Exempt(b, id, tracked, e2.name);
    }
  }

  lemma ShrunkKeepsOthers(b: Entries, c: Entries, tracked: Option<string>, e1: Entry, id1: string, e2: Entry)
    requires e1.name == e2.name
    requires Settled(b, tracked, e1, id1) && Framed(b, c, tracked, e2) && Shrunk(b, c)
    ensures Others(c, e1.name) == Others(b, e1.name) && |c| <= |b|
    ensures forall i, j :: i in c && j in c && c[i].name == c[j].name == e1.name ==> i == j
  {
    forall id | id in b && b[id].name != e1.name
      ensures id in c && c[id] == b[id]
    {
      assert !Exempt(b, id, tracked, e2.name);
    }
    hide Framed;
    assert c.Keys <= b.Keys;
    FewerKeys(c.Keys, b.Keys);
    assert |c| == |c.Keys| && |b| == |b.Keys|;
  }

  lemma FewerKeys(a: set<string>, b: set<string>)
    requires a <= b
    ensures |a| <= |b|
  {
    assert b == a + (b - a);
  }

  /** Pushing a group again after its table write was lost, even under a new version, leaves the same
      entries under other names and at most one entry under its name, and no more entries than before.
      Unless the second push fails, it leaves exactly one, and as many as before. */
  lemma ReplayLeavesOne(a: Entries, b: Entries, c: Entries, pg: PushGroup, cfg: Config, v1: string, v2: string,
                        act1: Action, id1: string, act2: Action, id2: string)
    requires PushRelation(a, b, pg, cfg, v1, act1, id1) && Success(act1)
    requires PushRelation(b, c, pg, cfg, v2, act2, id2)
    ensures Others(c, CatalogName(pg)) == Others(b, CatalogName(pg)) && |c| <= |b|
    ensures forall i, j :: i in c && j in c && c[i].name == c[j].name == CatalogName(pg) ==> i == j
    ensures act2 != FAILED ==> |c| == |b| && NameTaken(c, CatalogName(pg))
  {
    var e1, e2 := Published(pg, cfg, v1), Published(pg, cfg, v2);
    assert e1.name == CatalogName(pg) == e2.name;
    assert b[id1].name == CatalogName(pg);
    hide Published, CatalogName, Framed, Others;
    if Success(act2) {
      SecondPushKeepsOthers(b, c, pg.catalogServiceId, e1, id1, e2, id2);
      OneMoreThanOthers(b, pg.catalogServiceId, e1, id1);
      OneMoreThanOthers(c, pg.catalogServiceId, e2, id2);
    } else {
      ShrunkKeepsOthers(b, c, pg.catalogServiceId, e1, id1, e2);
    }
  }

  // ---------- A whole run ----------

  /** An entry that no group of the run tracks or derives the name of. */
  predicate Foreign(c: Entries, id: string, groups: seq<PushGroup>)
    requires id in c
  {
    forall pg :: pg in groups ==> !Exempt(c, id, pg.catalogServiceId, CatalogName(pg))
  }

  predicate KeepsForeign(before: Entries, now: Entries, groups: seq<PushGroup>) {
    forall id :: id in before && Foreign(before, id, groups) ==> id in now && now[id] == before[id]
  }

  lemma FrameKeepsForeign(before: Entries, now: Entries, after: Entries, groups: seq<PushGroup>, pg: PushGroup, e: Entry)
    requires KeepsForeign(before, now, groups) && pg in groups && e.name == CatalogName(pg)
    requires Framed(now, after, pg.catalogServiceId, e)
    ensures KeepsForeign(before, after, groups)
  {
    hide CatalogName;
    forall id | id in before && Foreign(before, id, groups)
      ensures id in after && after[id] == before[id]
    {
      assert !Exempt(before, id, pg.catalogServiceId, CatalogName(pg));
      assert !Exempt(now, id, pg.catalogServiceId, e.name);
    }
  }

  lemma PushKeepsForeign(before: Entries, now: Entries, after: Entries, groups: seq<PushGroup>, pg: PushGroup,
                         cfg: Config, version: string, action: Action, pushed: string)
    requires KeepsForeign(before, now, groups) && pg in groups
    requires PushRelation(now, after, pg, cfg, version, action, pushed)
    ensures KeepsForeign(before, after, groups)
  {
    hide KeepsForeign, Framed, Settled, CatalogName;
    FrameKeepsForeign(before, now, after, groups, pg, Published(pg, cfg, version));
  }

  /** Rows keep their group, and rows of groups outside the run are untouched. */
  predicate KeepsRows(before: Table, now: Table, groups: seq<PushGroup>) {
    && now.Keys == before.Keys
    && forall id :: id in before ==>
         GroupOf(now[id]) == GroupOf(before[id])
         && ((forall pg :: pg in groups ==> pg.group != GroupOf(before[id])) ==> now[id] == before[id])
  }

  lemma RowAfter(now: Table, after: Table, pg: PushGroup, action: Action, id: string, version: string, at: int, i: int)
    requires Inv(now) && WellFormedGroup(pg.group) && i in now
    requires RowsAfter(now, after, pg, action, id, version, at)
    ensures i in after && GroupOf(after[i]) == GroupOf(now[i])
    ensures GroupOf(now[i]) != pg.group ==> after[i] == now[i]
  {
    UseRowOk(now, i);
    WildcardExact(now[i], pg.group);
    hide Inv, WellFormedGroup, InGroup;
  }

  lemma RowsAfterInv(now: Table, after: Table, pg: PushGroup, action: Action, id: string, version: string, at: int)
    requires Inv(now) && WellFormedGroup(pg.group)
    requires RowsAfter(now, after, pg, action, id, version, at)
    ensures Inv(after) && after.Keys == now.Keys
  {
    PushKeepsInv(now, pg.group, id, version, at);
    SkipKeepsInv(now, pg.group, at);
    hide Inv, WellFormedGroup, PushedRow, SkippedRow;
  }

  lemma RowsAfterKeep(before: Table, now: Table, after: Table, groups: seq<PushGroup>, pg: PushGroup,
                      action: Action, id: string, version: string, at: int)
    requires Inv(now) && KeepsRows(before, now, groups) && pg in groups && WellFormedGroup(pg.group)
    requires RowsAfter(now, after, pg, action, id, version, at)
    ensures Inv(after) && KeepsRows(before, after, groups)
  {
    hide Inv, WellFormedGroup, RowsAfter;
    RowsAfterInv(now, after, pg, action, id, version, at);
    forall i | i in now
      ensures i in after && GroupOf(after[i]) == GroupOf(now[i])
      ensures GroupOf(now[i]) != pg.group ==> after[i] == now[i]
    {
      RowAfter(now, after, pg, action, id, version, at, i);
    }
  }

  /** A list of n + 1 states from the first to the last. */
  predicate Spans<T(==)>(states: seq<T>, first: T, last: T, n: nat) {
    |states| == n + 1 && states[0] == first && states[n] == last
  }

  // ---------- The protocol ----------

  class PushPhase {
    const cfg: Config
    const client: Catalog
    const repo: UnmanagedRepo

    constructor (cfg: Config, client: Catalog, repo: UnmanagedRepo)
      ensures this.cfg == cfg && this.client == client && this.repo == repo
    {
      this.cfg, this.client, this.repo := cfg, client, repo;
    }

    /** MarkPushed after a successful call; its failure is only logged. */
    method Persist(pg: PushGroup, serviceId: string, version: string, now: int)
      modifies repo
      ensures repo.failures >= old(repo.failures)
      ensures repo.failures == old(repo.failures) ==> repo.rows == PushStep(old(repo.rows), pg.group, serviceId, version, now)
      ensures repo.rows == old(repo.rows) || repo.rows == PushStep(old(repo.rows), pg.group, serviceId, version, now)
    {
      var ok, affected := repo.MarkPushed(pg.group, serviceId, version, now);
    }

    /** POST the entry; on a conflict search for the name and update what is found. */
    method CreateEntry(pg: PushGroup, e: Entry, version: string, now: int) returns (action: Action, id: string)
      requires UniqueNames(client.entries)
      modifies client, repo
      ensures UniqueNames(client.entries)
      ensures Framed(old(client.entries), client.entries, None, e)
      ensures action in {CREATED, UPDATED, FAILED}
      ensures Success(action) ==> Settled(client.entries, None, e, id)
      ensures action == UPDATED ==> UpdateTarget(old(client.entries), None, e.name, id)
      ensures !Success(action) ==> Shrunk(old(client.entries), client.entries)
      ensures client.failures >= old(client.failures) && repo.failures >= old(repo.failures)
      ensures client.failures == old(client.failures) ==> Success(action)
      ensures repo.failures == old(repo.failures) ==> RowsRecorded(old(repo.rows), repo.rows, pg, action, id, version, now)
      ensures RowsAfter(old(repo.rows), repo.rows, pg, action, id, version, now)
      decreases |client.entries|, 2
    {
      var freshId: string := *;
      var reply := client.CreateService(e, freshId);
      match reply
      case Created(newId) =>
        Persist(pg, newId, version, now);
        return CREATED, newId;
      case Conflict =>
        action, id := RecoverConflict(pg, e, version, now);
      case CreateFailed =>
        return FAILED, "";
    }

    method RecoverConflict(pg: PushGroup, e: Entry, version: string, now: int) returns (action: Action, id: string)
      requires UniqueNames(client.entries)
      modifies client, repo
      ensures UniqueNames(client.entries)
      ensures Framed(old(client.entries), client.entries, None, e)
      ensures action in {CREATED, UPDATED, FAILED}
      ensures Success(action) ==> Settled(client.entries, None, e, id)
      ensures action == UPDATED ==> UpdateTarget(old(client.entries), None, e.name, id)
      ensures !Success(action) ==> Shrunk(old(client.entries), client.entries)
      ensures client.failures >= old(client.failures) && repo.failures >= old(repo.failures)
      ensures client.failures == old(client.failures) && NameTaken(old(client.entries), e.name) ==> Success(action)
      ensures repo.failures == old(repo.failures) ==> RowsRecorded(old(repo.rows), repo.rows, pg, action, id, version, now)
      ensures RowsAfter(old(repo.rows), repo.rows, pg, action, id, version, now)
      decreases |client.entries|, 1
    {
      var reply := client.SearchByName(e.name);
      match reply
      case Found(existingId) =>
        action, id := UpdateEntry(pg, existingId, e, version, now);
      case NotFound =>
        return FAILED, "";
      case LookupFailed =>
        return FAILED, "";
    }

    /** PUT the entry; when the catalog rejects it, delete the entry and create a new one. */
    method UpdateEntry(pg: PushGroup, serviceId: string, e: Entry, version: string, now: int)
      returns (action: Action, id: string)
      requires UniqueNames(client.entries)
      modifies client, repo
      ensures UniqueNames(client.entries)
      ensures Framed(old(client.entries), client.entries, Some(serviceId), e)
      ensures action in {CREATED, UPDATED, FAILED}
      ensures Success(action) ==> Settled(client.entries, Some(serviceId), e, id)
      ensures action == UPDATED ==> UpdateTarget(old(client.entries), Some(serviceId), e.name, id)
      ensures !Success(action) ==> Shrunk(old(client.entries), client.entries)
      ensures serviceId !in old(client.entries) ==> action == FAILED && client.entries == old(client.entries)
      ensures client.failures >= old(client.failures) && repo.failures >= old(repo.failures)
      ensures client.failures == old(client.failures) ==> Success(action)
      ensures repo.failures == old(repo.failures) ==> RowsRecorded(old(repo.rows), repo.rows, pg, action, id, version, now)
      ensures RowsAfter(old(repo.rows), repo.rows, pg, action, id, version, now)
      decreases |client.entries|, 0
    {
      var reply := client.UpdateService(serviceId, e);
      match reply
      case Updated =>
        Persist(pg, serviceId, version, now);
        return UPDATED, serviceId;
      case Rejected =>
        var deleted := client.DeleteService(serviceId);
        if !deleted {
          return FAILED, "";
        }
        ghost var between := client.entries;
        assert |between| < |old(client.entries)| by {
          assert between.Keys == old(client.entries).Keys - {serviceId};
        }
        assert Framed(old(client.entries), between, Some(serviceId), e);
        action, id := CreateEntry(pg, e, version, now);
        FramedTrans(old(client.entries), between, client.entries, Some(serviceId), e);
      case UpdateFailed =>
        return FAILED, "";
    }

    /** A group that was pushed before: update its entry, or, when that is gone, create one or skip. */
    method PushTracked(pg: PushGroup, tracked: string, e: Entry, version: string, now: int) returns (action: Action, id: string)
      requires UniqueNames(client.entries)
      modifies client, repo
      ensures UniqueNames(client.entries)
      ensures Framed(old(client.entries), client.entries, Some(tracked), e)
      ensures if Success(action) then Settled(client.entries, Some(tracked), e, id) else Shrunk(old(client.entries), client.entries)
      ensures action == UPDATED ==> UpdateTarget(old(client.entries), Some(tracked), e.name, id)
      ensures action == SKIPPED ==> tracked !in old(client.entries) && !cfg.rePushDeleted
      ensures tracked !in old(client.entries) && !cfg.rePushDeleted ==> client.entries == old(client.entries) && !Success(action)
      ensures RowsAfter(old(repo.rows), repo.rows, pg, action, id, version, now)
      ensures client.failures >= old(client.failures) && repo.failures >= old(repo.failures)
      ensures client.failures == old(client.failures) ==>
        if tracked in old(client.entries) || cfg.rePushDeleted then Success(action) else action == SKIPPED
      ensures repo.failures == old(repo.failures) ==> RowsRecorded(old(repo.rows), repo.rows, pg, action, id, version, now)
    {
      ghost var before := client.entries;
      NothingPushed(before, tracked, e);
      hide PushStep, SkipStep, Framed, Settled, Shrunk, UpdateTarget, UniqueNames;
      var reply := client.GetService(tracked);
      match reply
      case LookupFailed =>
        action, id := UpdateEntry(pg, tracked, e, version, now);
      case Found(_) =>
        action, id := UpdateEntry(pg, tracked, e, version, now);
      case NotFound =>
        if cfg.rePushDeleted {
          action, id := CreateEntry(pg, e, version, now);
          TrackedGone(before, client.entries, tracked, e, action, id);
          return;
        }
        var ok, affected := repo.MarkPushedSkipped(pg.group, now);
        return SKIPPED, "";
    }

    method PushOne(pg: PushGroup, version: string, now: int) returns (action: Action, id: string)
      requires UniqueNames(client.entries)
      modifies client, repo
      ensures UniqueNames(client.entries)
      ensures PushRelation(old(client.entries), client.entries, pg, cfg, version, action, id)
      ensures RowsAfter(old(repo.rows), repo.rows, pg, action, id, version, now)
      ensures client.failures >= old(client.failures) && repo.failures >= old(repo.failures)
      ensures client.failures == old(client.failures) ==> Completes(old(client.entries), pg, cfg, action)
      ensures repo.failures == old(repo.failures) ==> RowsRecorded(old(repo.rows), repo.rows, pg, action, id, version, now)
    {
      var e := Published(pg, cfg, version);
      hide Published, PushStep, SkipStep, RowsAfter, RowsRecorded, Framed, Settled, Shrunk, UniqueNames;
      if pg.catalogServiceId.None? {
        action, id := CreateEntry(pg, e, version, now);
      } else {
        action, id := PushTracked(pg, pg.catalogServiceId.value, e, version, now);
      }
    }

    predicate Pushable(g: Group) {
      (g.classification == SHADOW ==> cfg.pushShadow) && (g.classification == DRIFT ==> cfg.pushDrift)
    }

    /** Each group that is waiting and that the configuration pushes, once, in the order of the listing. */
    ghost predicate Selects(t: Table, groups: seq<PushGroup>) {
      && (forall pg :: pg in groups ==> Pushable(pg.group) && WellFormedGroup(pg.group) && PushGroupFrom(t, pg))
      && (forall g :: g in GroupsWith(t, SPEC_GENERATED) && Pushable(g) ==> exists i :: 0 <= i < |groups| && groups[i].group == g)
      && (forall i, j :: 0 <= i < j < |groups| ==> groups[i].group != groups[j].group)
      && Sorted(GroupsOf(groups))
    }

    predicate Filtered(waiting: seq<PushGroup>, n: nat, groups: seq<PushGroup>)
      requires n <= |waiting|
    {
      && (forall i :: 0 <= i < |groups| ==> groups[i] in waiting[..n] && Pushable(groups[i].group))
      && (forall j :: 0 <= j < n && Pushable(waiting[j].group) ==> waiting[j] in groups)
      && (forall i, j :: 0 <= i < j < |groups| ==> groups[i].group != groups[j].group)
    }

    /** The groups so far are in order and come before those not yet looked at. */
    predicate Ordered(waiting: seq<PushGroup>, n: nat, groups: seq<PushGroup>)
      requires n <= |waiting|
    {
      && Sorted(GroupsOf(groups))
      && forall i, j :: 0 <= i < |groups| && n <= j < |waiting| ==> GroupLeq(groups[i].group, waiting[j].group)
    }

    lemma OrderedStep(waiting: seq<PushGroup>, n: nat, groups: seq<PushGroup>)
      requires n < |waiting| && Sorted(GroupsOf(waiting)) && Ordered(waiting, n, groups)
      ensures Ordered(waiting, n + 1, if Pushable(waiting[n].group) then groups + [waiting[n]] else groups)
    {
      hide Pushable, GroupLeq;
      assert GroupsOf(groups + [waiting[n]]) == GroupsOf(groups) + [waiting[n].group];
      forall j | n < j < |waiting|
        ensures GroupLeq(waiting[n].group, waiting[j].group)
      {
        assert GroupLeq(GroupsOf(waiting)[n], GroupsOf(waiting)[j]);
      }
    }

    lemma OrderedNone(waiting: seq<PushGroup>)
      ensures Ordered(waiting, 0, [])
    {}

    lemma OrderedAll(waiting: seq<PushGroup>, groups: seq<PushGroup>)
      requires Ordered(waiting, |waiting|, groups)
      ensures Sorted(GroupsOf(groups))
    {}

    lemma FilteredSelects(t: Table, waiting: seq<PushGroup>, groups: seq<PushGroup>)
      requires ListsWaiting(t, GroupsWith(t, SPEC_GENERATED), waiting) && Filtered(waiting, |waiting|, groups)
      requires Sorted(GroupsOf(groups))
      ensures Selects(t, groups)
    {
      hide PushGroupFrom, WellFormedGroup, GroupsWith, Pushable, Sorted;
      assert waiting[..|waiting|] == waiting;
      forall pg | pg in groups
        ensures Pushable(pg.group) && WellFormedGroup(pg.group) && PushGroupFrom(t, pg)
      {
        var i :| 0 <= i < |groups| && groups[i] == pg;
        assert groups[i] in waiting;
      }
      forall g | g in GroupsWith(t, SPEC_GENERATED) && Pushable(g)
        ensures exists i :: 0 <= i < |groups| && groups[i].group == g
      {
        var j :| 0 <= j < |waiting| && waiting[j].group == g;
        var i :| 0 <= i < |groups| && groups[i] == waiting[j];
      }
    }

    lemma FilteredNone(waiting: seq<PushGroup>)
      ensures Filtered(waiting, 0, [])
    {}

    lemma NotYetTaken(waiting: seq<PushGroup>, n: nat, groups: seq<PushGroup>, i: nat)
      requires n < |waiting| && i < |groups| && groups[i] in waiting[..n]
      requires forall i, j :: 0 <= i < j < |waiting| ==> waiting[i].group != waiting[j].group
      ensures groups[i].group != waiting[n].group
    {
      var j :| 0 <= j < n && waiting[..n][j] == groups[i];
      assert waiting[j] == groups[i];
    }

    lemma FilteredStep(waiting: seq<PushGroup>, n: nat, groups: seq<PushGroup>)
      requires n < |waiting| && Filtered(waiting, n, groups)
      requires forall i, j :: 0 <= i < j < |waiting| ==> waiting[i].group != waiting[j].group
      ensures Filtered(waiting, n + 1, if Pushable(waiting[n].group) then groups + [waiting[n]] else groups)
    {
      hide Pushable;
      var after := if Pushable(waiting[n].group) then groups + [waiting[n]] else groups;
      forall i | 0 <= i < |after|
        ensures after[i] in waiting[..n + 1] && Pushable(after[i].group)
      {
        StillIn(waiting, n, after[i]);
      }
      forall j | 0 <= j < n + 1 && Pushable(waiting[j].group)
        ensures waiting[j] in after
      {
        if j == n {
          assert after[|groups|] == waiting[n];
        }
      }
      forall i, j | 0 <= i < j < |after|
        ensures after[i].group != after[j].group
      {
        if j == |groups| {
          NotYetTaken(waiting, n, groups, i);
        }
      }
    }

    lemma StillIn(waiting: seq<PushGroup>, n: nat, pg: PushGroup)
      requires n < |waiting|
      ensures pg in waiting[..n + 1] <==> pg in waiting[..n] || pg == waiting[n]
    {
      assert waiting[..n + 1] == waiting[..n] + [waiting[n]];
    }

    lemma WaitingDistinct(t: Table, waiting: seq<PushGroup>)
      requires ListsWaiting(t, GroupsWith(t, SPEC_GENERATED), waiting)
      ensures forall i, j :: 0 <= i < j < |waiting| ==> waiting[i].group != waiting[j].group
    {}

    method SelectGroups() returns (ok: bool, groups: seq<PushGroup>)
      requires Inv(repo.rows)
      modifies repo`failures
      ensures repo.failures == old(repo.failures) + if ok then 0 else 1
      ensures ok ==> Selects(repo.rows, groups)
      ensures !ok ==> groups == []
    {
      hide Inv, ListsWaiting, SpecsAgree, GroupsWith, Filtered, Selects, Ordered, Sorted;
      groups := [];
      var waiting;
      ok, waiting := repo.GetSpecGeneratedGroups();
      if !ok {
        return;
      }
      WaitingDistinct(repo.rows, waiting);
      FilteredNone(waiting);
      OrderedNone(waiting);
      for i := 0 to |waiting|
        invariant Filtered(waiting, i, groups) && Ordered(waiting, i, groups)
        invariant repo.failures == old(repo.failures)
      {
        FilteredStep(waiting, i, groups);
        OrderedStep(waiting, i, groups);
        if waiting[i].group.classification == SHADOW && !cfg.pushShadow {
          continue;
        }
        if waiting[i].group.classification == DRIFT && !cfg.pushDrift {
          continue;
        }
        groups := groups + [waiting[i]];
      }
      OrderedAll(waiting, groups);
      FilteredSelects(repo.rows, waiting, groups);
    }

    /** The catalog and the table between the pushes: each step is the push of one group. */
    ghost predicate PushedInTurn(groups: seq<PushGroup>, log: seq<Pushed>, versionOf: nat -> string, clock: nat -> int,
                                 catalogs: seq<Entries>, tables: seq<Table>) {
      && |log| == |groups| && |catalogs| == |tables| == |log| + 1
      && forall i :: 0 <= i < |log| ==>
           && PushRelation(catalogs[i], catalogs[i + 1], groups[i], cfg, versionOf(i), log[i].action, log[i].id)
           && RowsAfter(tables[i], tables[i + 1], groups[i], log[i].action, log[i].id, versionOf(i), clock(i))
    }

    /** Every push went as far as it could, and every table write happened. */
    ghost predicate AllCompleted(groups: seq<PushGroup>, log: seq<Pushed>, versionOf: nat -> string, clock: nat -> int,
                                 catalogs: seq<Entries>, tables: seq<Table>) {
      && |log| == |groups| && |catalogs| == |tables| == |log| + 1
      && forall i :: 0 <= i < |log| ==>
           && Completes(catalogs[i], groups[i], cfg, log[i].action)
           && RowsRecorded(tables[i], tables[i + 1], groups[i], log[i].action, log[i].id, versionOf(i), clock(i))
    }

    lemma CompletedNext(groups: seq<PushGroup>, i: nat, log: seq<Pushed>, versionOf: nat -> string, clock: nat -> int,
                        catalogs: seq<Entries>, tables: seq<Table>, p: Pushed, c0: Entries, t0: Table, c: Entries, t: Table,
                        c': Entries, t': Table)
      requires |log| == i < |groups| && AllCompleted(groups[..i], log, versionOf, clock, catalogs, tables)
      requires Spans(catalogs, c0, c, i) && Spans(tables, t0, t, i)
      requires Completes(c, groups[i], cfg, p.action)
      requires RowsRecorded(t, t', groups[i], p.action, p.id, versionOf(i), clock(i))
      ensures AllCompleted(groups[..i + 1], log + [p], versionOf, clock, catalogs + [c'], tables + [t'])
    {
      hide Completes, RowsRecorded;
      assert groups[..i + 1] == groups[..i] + [groups[i]];
    }

    lemma CompletedNone(groups: seq<PushGroup>, versionOf: nat -> string, clock: nat -> int, c: Entries, t: Table)
      ensures AllCompleted(groups[..0], [], versionOf, clock, [c], [t])
    {}

    lemma PushedNext(groups: seq<PushGroup>, i: nat, log: seq<Pushed>, versionOf: nat -> string, clock: nat -> int,
                     catalogs: seq<Entries>, tables: seq<Table>, p: Pushed, c0: Entries, t0: Table, c: Entries, t: Table,
                     c': Entries, t': Table)
      requires |log| == i < |groups| && PushedInTurn(groups[..i], log, versionOf, clock, catalogs, tables)
      requires Spans(catalogs, c0, c, i) && Spans(tables, t0, t, i)
      requires PushRelation(c, c', groups[i], cfg, versionOf(i), p.action, p.id)
      requires RowsAfter(t, t', groups[i], p.action, p.id, versionOf(i), clock(i))
      ensures PushedInTurn(groups[..i + 1], log + [p], versionOf, clock, catalogs + [c'], tables + [t'])
      ensures Spans(catalogs + [c'], c0, c', i + 1) && Spans(tables + [t'], t0, t', i + 1)
    {
      hide PushRelation, RowsAfter;
      assert groups[..i + 1] == groups[..i] + [groups[i]];
    }

    /** The loop of Run over the selected groups. */
    method PushAll(groups: seq<PushGroup>, versionOf: nat -> string, clock: nat -> int)
      returns (log: seq<Pushed>, ghost catalogs: seq<Entries>, ghost tables: seq<Table>)
      requires UniqueNames(client.entries)
      modifies client, repo
      ensures UniqueNames(client.entries)
      ensures PushedInTurn(groups, log, versionOf, clock, catalogs, tables)
      ensures Spans(catalogs, old(client.entries), client.entries, |groups|)
      ensures Spans(tables, old(repo.rows), repo.rows, |groups|)
      ensures client.failures == old(client.failures) && repo.failures == old(repo.failures) ==>
        AllCompleted(groups, log, versionOf, clock, catalogs, tables)
      ensures client.failures >= old(client.failures) && repo.failures >= old(repo.failures)
    {
      hide *;
      log, catalogs, tables := [], [client.entries], [repo.rows];
      PushedNone(groups, versionOf, clock, client.entries, repo.rows);
      CompletedNone(groups, versionOf, clock, client.entries, repo.rows);
      for i := 0 to |groups|
        invariant |log| == i
        invariant UniqueNames(client.entries)
        invariant PushedInTurn(groups[..i], log, versionOf, clock, catalogs, tables)
        invariant Spans(catalogs, old(client.entries), client.entries, i)
        invariant Spans(tables, old(repo.rows), repo.rows, i)
        invariant client.failures >= old(client.failures) && repo.failures >= old(repo.failures)
        invariant client.failures == old(client.failures) && repo.failures == old(repo.failures) ==>
          AllCompleted(groups[..i], log, versionOf, clock, catalogs, tables)
      {
        ghost var c, t := client.entries, repo.rows;
        var action, id := PushOne(groups[i], versionOf(i), clock(i));
        if client.failures == old(client.failures) && repo.failures == old(repo.failures) {
          CompletedNext(groups, i, log, versionOf, clock, catalogs, tables, Pushed(action, id), old(client.entries), old(repo.rows),
                        c, t, client.entries, repo.rows);
        }
        PushedNext(groups, i, log, versionOf, clock, catalogs, tables, Pushed(action, id), old(client.entries), old(repo.rows), c, t,
                   client.entries, repo.rows);
        log := log + [Pushed(action, id)];
        catalogs := catalogs + [client.entries];
        tables := tables + [repo.rows];
      }
      assert groups[..|groups|] == groups;
    }

    /** Run: read the waiting groups, keep those the configuration pushes, push each in turn. The version
        is the date, read for each group. */
    method Run(versionOf: nat -> string, clock: nat -> int)
      returns (ok: bool, groups: seq<PushGroup>, log: seq<Pushed>, ghost catalogs: seq<Entries>, ghost tables: seq<Table>)
      requires UniqueNames(client.entries) && Inv(repo.rows)
      modifies client, repo
      ensures UniqueNames(client.entries) && Inv(repo.rows)
      ensures ok ==> Selects(old(repo.rows), groups)
      ensures !ok ==> groups == []
      ensures PushedInTurn(groups, log, versionOf, clock, catalogs, tables)
      ensures Spans(catalogs, old(client.entries), client.entries, |groups|)
      ensures Spans(tables, old(repo.rows), repo.rows, |groups|)
      ensures KeepsForeign(old(client.entries), client.entries, groups)
      ensures KeepsRows(old(repo.rows), repo.rows, groups)
      ensures client.failures == old(client.failures) && repo.failures == old(repo.failures) ==>
        ok && AllCompleted(groups, log, versionOf, clock, catalogs, tables)
    {
      hide Inv, Selects, UniqueNames, PushedInTurn, AllCompleted, KeepsForeign, KeepsRows;
      ok, groups := SelectGroups();
      SelectedWellFormed(repo.rows, groups);
      log, catalogs, tables := PushAll(groups, versionOf, clock);
      ChainKeeps(groups, log, versionOf, clock, catalogs, tables, |groups|);
    }

    /** Which groups are pushed: those with a waiting row that the two switches let through. */
    lemma SelectedIff(t: Table, groups: seq<PushGroup>, g: Group)
      requires Inv(t) && Selects(t, groups)
      ensures (exists i :: 0 <= i < |groups| && groups[i].group == g) <==>
        && (exists id :: id in t && t[id].status == SPEC_GENERATED && GroupOf(t[id]) == g)
        && (if g.classification == SHADOW then cfg.pushShadow else cfg.pushDrift)
      ensures forall pg, id :: pg in groups && id in t && t[id].status == SPEC_GENERATED && GroupOf(t[id]) == pg.group ==>
        t[id].openapiSpec == Some(pg.openapiSpec)
    {
      hide Inv, WellFormedGroup, Sorted, IdLeq;
      if i :| 0 <= i < |groups| && groups[i].group == g {
        assert groups[i] in groups && Pushable(g);
        var id :| Represents(t, g, id);
        assert t[id].status == SPEC_GENERATED && GroupOf(t[id]) == g;
      }
      if (if g.classification == SHADOW then cfg.pushShadow else cfg.pushDrift)
         && exists id :: id in t && t[id].status == SPEC_GENERATED && GroupOf(t[id]) == g {
        assert g in GroupsWith(t, SPEC_GENERATED) && Pushable(g);
      }
      WaitingHaveSpecs(t);
      forall pg, id | pg in groups && id in t && t[id].status == SPEC_GENERATED && GroupOf(t[id]) == pg.group
        ensures t[id].openapiSpec == Some(pg.openapiSpec)
      {
        RepresentativeSpec(t, pg, id);
      }
    }

    lemma SelectedWellFormed(t: Table, groups: seq<PushGroup>)
      requires groups == [] || Selects(t, groups)
      ensures forall pg :: pg in groups ==> WellFormedGroup(pg.group)
    {}

    lemma PushedNone(groups: seq<PushGroup>, versionOf: nat -> string, clock: nat -> int, c: Entries, t: Table)
      ensures PushedInTurn(groups[..0], [], versionOf, clock, [c], [t])
      ensures Spans([c], c, c, 0) && Spans([t], t, t, 0)
    {}

    /** Whatever a run of pushes does, it leaves the foreign entries and the rows of other groups alone. */
    lemma {:induction false} ChainKeeps(groups: seq<PushGroup>, log: seq<Pushed>, versionOf: nat -> string, clock: nat -> int,
                                        catalogs: seq<Entries>, tables: seq<Table>, n: nat)
      requires PushedInTurn(groups, log, versionOf, clock, catalogs, tables) && n <= |groups|
      requires Inv(tables[0]) && forall pg :: pg in groups ==> WellFormedGroup(pg.group)
      ensures |catalogs| == |tables| == |groups| + 1
      ensures KeepsForeign(catalogs[0], catalogs[n], groups)
      ensures KeepsRows(tables[0], tables[n], groups) && Inv(tables[n])
      decreases n
    {
      if n == 0 {
        hide Inv;
      } else {
        var i := n - 1;
        ChainKeeps(groups, log, versionOf, clock, catalogs, tables, i);
        assert PushRelation(catalogs[i], catalogs[i + 1], groups[i], cfg, versionOf(i), log[i].action, log[i].id);
        assert RowsAfter(tables[i], tables[i + 1], groups[i], log[i].action, log[i].id, versionOf(i), clock(i));
        assert groups[i] in groups;
        hide Inv, KeepsForeign, KeepsRows, PushRelation, RowsAfter, WellFormedGroup, PushedInTurn;
        PushKeepsForeign(catalogs[0], catalogs[i], catalogs[n], groups, groups[i], cfg, versionOf(i), log[i].action, log[i].id);
        RowsAfterKeep(tables[0], tables[i], tables[n], groups, groups[i], log[i].action, log[i].id, versionOf(i), clock(i));
      }
    }

    /** No push after position i asks for the same name or tracks this id. */
    predicate Undisturbed(groups: seq<PushGroup>, i: nat, id: string)
      requires i < |groups|
    {
      forall j :: i < j < |groups| ==>
        CatalogName(groups[j]) != CatalogName(groups[i]) && groups[j].catalogServiceId != Some(id)
    }

    /** What a successful push published is still there at the end of the run unless a later group derives
        the same name or tracks the entry. */
    lemma {:induction false} PublishedSurvives(groups: seq<PushGroup>, log: seq<Pushed>, versionOf: nat -> string, clock: nat -> int,
                                               catalogs: seq<Entries>, tables: seq<Table>, i: nat, n: nat)
      requires PushedInTurn(groups, log, versionOf, clock, catalogs, tables) && i < n <= |groups|
      requires Success(log[i].action) && Undisturbed(groups, i, log[i].id)
      ensures log[i].id in catalogs[n] && catalogs[n][log[i].id] == Published(groups[i], cfg, versionOf(i))
      decreases n
    {
      var j, id, e := n - 1, log[i].id, Published(groups[i], cfg, versionOf(i));
      assert PushRelation(catalogs[j], catalogs[j + 1], groups[j], cfg, versionOf(j), log[j].action, log[j].id);
      hide CatalogName, OwnershipMarker, ClassDescription, Undisturbed;
      if i < j {
        PublishedSurvives(groups, log, versionOf, clock, catalogs, tables, i, j);
        Undisturbs(groups, i, id, j);
        assert catalogs[j][id].name == CatalogName(groups[i]);
        assert !Exempt(catalogs[j], id, groups[j].catalogServiceId, CatalogName(groups[j]));
      }
    }

    lemma Undisturbs(groups: seq<PushGroup>, i: nat, id: string, j: nat)
      requires i < j < |groups| && Undisturbed(groups, i, id)
      ensures CatalogName(groups[j]) != CatalogName(groups[i]) && groups[j].catalogServiceId != Some(id)
    {}
  }
}
