/** internal/store/unmanaged_repo.go: the adc_unmanaged_apis table. Every SQL statement is one atomic
    step on a map from discovered_api_id, the table's unique key, to the row. */
module UnmanagedTable {
  import opened Durations
  import opened Model

  datatype Status = DETECTED | SPEC_GENERATED | PUSHED | DISMISSED | RESOLVED | STALE

  /** A generated OpenAPI document, as far as the catalog phase looks into it: the parent API's name
      in its metadata ("" when absent), its first server URL, and the rest. */
  datatype Spec = Spec(parentApiName: string, serverURL: string, body: string)

  datatype Row = Row(serviceKey: string, httpMethod: string, resourcePath: string,
                     managedApiId: Option<int>, classification: Classification, confidence: Confidence,
                     status: Status, openapiSpec: Option<Spec>,
                     catalogServiceId: Option<string>, catalogVersion: Option<string>,
                     firstDetectedAt: int, lastConfirmedAt: int, resolvedAt: Option<int>,
                     specGeneratedAt: Option<int>, pushedAt: Option<int>, updatedAt: int)

  type Table = map<int, Row>

  datatype Group = Group(serviceKey: string, classification: Classification, managedApiId: Option<int>)

  function GroupOf(r: Row): Group {
    Group(r.serviceKey, r.classification, r.managedApiId)
  }

  predicate Inactive(s: Status) {
    s in {DISMISSED, STALE, RESOLVED}
  }

  // ---------- The statements ----------

  /** COALESCE(id, -1) */
  function Coalesce(id: Option<int>): int {
    match id
    case Some(v) => v
    case None => -1
  }

  function Inserted(u: ClassificationResult, now: int): Row {
    Row(u.serviceKey, u.httpMethod, u.resourcePath, u.managedApiId, u.classification, u.confidence,
        DETECTED, None, None, None, now, now, None, None, None, now)
  }

  /** The CASE of the conflict branch: a new verdict, or a comeback, restarts the lifecycle. */
  predicate Restarts(r: Row, u: ClassificationResult) {
    r.classification != u.classification
    || Coalesce(r.managedApiId) != Coalesce(u.managedApiId)
    || r.status in {RESOLVED, STALE}
  }

  function Confirmed(r: Row, u: ClassificationResult, now: int): Row {
    r.(lastConfirmedAt := now, updatedAt := now,
       classification := u.classification, confidence := u.confidence, managedApiId := u.managedApiId,
       status := if Restarts(r, u) then DETECTED else r.status,
       resolvedAt := if Restarts(r, u) then None else r.resolvedAt)
  }

  function UpsertStep(t: Table, u: ClassificationResult, now: int): Table {
    t[u.discoveredId := if u.discoveredId in t then Confirmed(t[u.discoveredId], u, now) else Inserted(u, now)]
  }

  predicate Unconfirmed(r: Row, cycleStart: int) {
    !Inactive(r.status) && r.lastConfirmedAt < cycleStart
  }

  function ResolvedRow(r: Row, cycleStart: int, now: int): Row {
    if Unconfirmed(r, cycleStart) then r.(status := RESOLVED, resolvedAt := Some(now), updatedAt := now) else r
  }

  function ResolveStep(t: Table, cycleStart: int, now: int): Table {
    map id | id in t :: ResolvedRow(t[id], cycleStart, now)
  }

  /** int(staleAfter.Seconds()) seconds: whole seconds, cut toward zero. */
  function WholeSeconds(d: int): int {
    if d >= 0 then d / SECOND * SECOND else -((-d) / SECOND * SECOND)
  }

  /** The discovered row of id has had no traffic for stale_after; lastSeen is the joined table. */
  predicate Expired(id: int, lastSeen: map<int, int>, staleAfter: int, now: int) {
    id in lastSeen && lastSeen[id] < now - WholeSeconds(staleAfter)
  }

  function StaleRow(r: Row, expired: bool, now: int): Row {
    if !Inactive(r.status) && expired then r.(status := STALE, resolvedAt := Some(now), updatedAt := now) else r
  }

  function StaleStep(t: Table, lastSeen: map<int, int>, staleAfter: int, now: int): Table {
    map id | id in t :: StaleRow(t[id], Expired(id, lastSeen, staleAfter, now), now)
  }

  /** The group predicate of the updates: a NULL managed id is a wildcard. */
  predicate InGroup(r: Row, g: Group) {
    r.serviceKey == g.serviceKey && r.classification == g.classification
    && (g.managedApiId.None? || r.managedApiId == g.managedApiId)
  }

  predicate Selected(r: Row, g: Group) {
    InGroup(r, g) && !Inactive(r.status)
  }

  function SpecRow(r: Row, g: Group, spec: Spec, now: int): Row {
    if Selected(r, g)
    then r.(openapiSpec := Some(spec), status := SPEC_GENERATED, specGeneratedAt := Some(now), updatedAt := now)
    else r
  }

  function SpecStep(t: Table, g: Group, spec: Spec, now: int): Table {
    map id | id in t :: SpecRow(t[id], g, spec, now)
  }

  function PushedRow(r: Row, g: Group, serviceId: string, version: string, now: int): Row {
    if Selected(r, g)
    then r.(status := PUSHED, pushedAt := Some(now), catalogServiceId := Some(serviceId),
            catalogVersion := Some(version), updatedAt := now)
    else r
  }

  function PushStep(t: Table, g: Group, serviceId: string, version: string, now: int): Table {
    map id | id in t :: PushedRow(t[id], g, serviceId, version, now)
  }

  function SkippedRow(r: Row, g: Group, now: int): Row {
    if InGroup(r, g) && r.status == SPEC_GENERATED then r.(status := PUSHED, updatedAt := now) else r
  }

  function SkipStep(t: Table, g: Group, now: int): Table {
    map id | id in t :: SkippedRow(t[id], g, now)
  }

  // ---------- Runs ----------

  /** Everything that can happen to the table. Dismiss is the operator's; Purge is the retention job,
      which deletes some of the inactive rows. */
  datatype Event =
    | Upsert(u: ClassificationResult, at: int)
    | MarkResolved(cycleStart: int, at: int)
    | MarkStale(lastSeen: map<int, int>, staleAfter: int, at: int)
    | UpdateGroupSpec(g: Group, spec: Spec, at: int)
    | MarkPushed(g: Group, serviceId: string, version: string, at: int)
    | MarkPushedSkipped(g: Group, at: int)
    | Dismiss(id: int)
    | Purge(ids: set<int>)

  /** A verdict has a parent exactly when it is DRIFT; ids are serial primary keys, never -1. */
  predicate WellFormedVerdict(u: ClassificationResult) {
    (u.managedApiId.Some? <==> u.classification == DRIFT) && u.managedApiId != Some(-1)
  }

  predicate WellFormedGroup(g: Group) {
    (g.managedApiId.Some? <==> g.classification == DRIFT) && g.managedApiId != Some(-1)
  }

  predicate WellFormed(e: Event) {
    match e
    case Upsert(u, _) => WellFormedVerdict(u)
    case UpdateGroupSpec(g, _, _) => WellFormedGroup(g)
    case MarkPushed(g, _, _, _) => WellFormedGroup(g)
    case MarkPushedSkipped(g, _) => WellFormedGroup(g)
    case _ => true
  }

  function DismissStep(t: Table, id: int): Table {
    if id in t && !Inactive(t[id].status) then t[id := t[id].(status := DISMISSED)] else t
  }

  function PurgeStep(t: Table, ids: set<int>): Table {
    map id | id in t && !(id in ids && Inactive(t[id].status)) :: t[id]
  }

  function Apply(t: Table, e: Event): Table {
    match e
    case Upsert(u, at) => UpsertStep(t, u, at)
    case MarkResolved(cycleStart, at) => ResolveStep(t, cycleStart, at)
    case MarkStale(lastSeen, staleAfter, at) => StaleStep(t, lastSeen, staleAfter, at)
    case UpdateGroupSpec(g, spec, at) => SpecStep(t, g, spec, at)
    case MarkPushed(g, serviceId, version, at) => PushStep(t, g, serviceId, version, at)
    case MarkPushedSkipped(g, at) => SkipStep(t, g, at)
    case Dismiss(id) => DismissStep(t, id)
    case Purge(ids) => PurgeStep(t, ids)
  }

  function Run(t: Table, events: seq<Event>): Table {
    if events == [] then t else Apply(Run(t, events[..|events| - 1]), events[|events| - 1])
  }

  // ---------- The invariant ----------

  predicate RowOk(r: Row) {
    WellFormedGroup(GroupOf(r)) && (r.status == SPEC_GENERATED ==> r.openapiSpec.Some?)
  }

  /** Two rows of one group: specs agree while both wait for the push, and waiting never mixes with pushed. */
  predicate PairOk(r: Row, s: Row) {
    GroupOf(r) == GroupOf(s) && r.status == SPEC_GENERATED ==>
      s.status != PUSHED && (s.status == SPEC_GENERATED ==> s.openapiSpec == r.openapiSpec)
  }

  predicate Inv(t: Table) {
    && (forall id :: id in t ==> RowOk(t[id]))
    && (forall i, j :: i in t && j in t ==> PairOk(t[i], t[j]))
  }

  /** With a well-formed group the NULL wildcard selects the rows of exactly that group. */
  lemma WildcardExact(r: Row, g: Group)
    requires WellFormedGroup(GroupOf(r)) && WellFormedGroup(g)
    ensures InGroup(r, g) <==> GroupOf(r) == g
  {}

  /** The wildcard is exact for a group on every well-formed row exactly when no DRIFT group lacks its
      parent: then rows of every parent would be hit. */
  lemma WildcardExactIff(g: Group)
    requires g.managedApiId != Some(-1)
    ensures (forall r: Row :: WellFormedGroup(GroupOf(r)) ==> (InGroup(r, g) <==> GroupOf(r) == g))
            <==> !(g.classification == DRIFT && g.managedApiId.None?)
  {
    if g.classification == DRIFT && g.managedApiId.None? {
      var r := Row(g.serviceKey, "", "", Some(1), DRIFT, HIGH, DETECTED, None, None, None, 0, 0, None, None, None, 0);
      assert WellFormedGroup(GroupOf(r)) && InGroup(r, g) && GroupOf(r) != g;
    }
  }

  /** Updates for two different groups touch disjoint rows. */
  lemma GroupsDisjoint(r: Row, g: Group, h: Group)
    requires WellFormedGroup(GroupOf(r)) && WellFormedGroup(g) && WellFormedGroup(h) && g != h
    ensures !(InGroup(r, g) && InGroup(r, h))
  {
    WildcardExact(r, g);
    WildcardExact(r, h);
  }

  /** A step rewrites each row on its own, by a rule that keeps good pairs good. */
  lemma MappedInv(t: Table, t': Table)
    requires Inv(t) && t'.Keys <= t.Keys
    requires forall id :: id in t' ==> RowOk(t'[id])
    requires forall i, j :: i in t' && j in t' && PairOk(t[i], t[j]) ==> PairOk(t'[i], t'[j])
    ensures Inv(t')
  {
    hide RowOk, PairOk;
  }

  lemma UpsertKeepsInv(t: Table, u: ClassificationResult, now: int)
    requires Inv(t) && WellFormedVerdict(u)
    ensures Inv(UpsertStep(t, u, now))
  {
    var t' := UpsertStep(t, u, now);
    forall i, j | i in t' && j in t'
      ensures PairOk(t'[i], t'[j])
    {
      if i in t && j in t {
        assert PairOk(t[i], t[j]);
      }
    }
  }

  lemma ResolveKeepsInv(t: Table, cycleStart: int, now: int)
    requires Inv(t)
    ensures Inv(ResolveStep(t, cycleStart, now))
  {
    MappedInv(t, ResolveStep(t, cycleStart, now));
  }

  lemma StaleKeepsInv(t: Table, lastSeen: map<int, int>, staleAfter: int, now: int)
    requires Inv(t)
    ensures Inv(StaleStep(t, lastSeen, staleAfter, now))
  {
    hide Expired;
    MappedInv(t, StaleStep(t, lastSeen, staleAfter, now));
  }

  lemma SpecKeepsInv(t: Table, g: Group, spec: Spec, now: int)
    requires Inv(t) && WellFormedGroup(g)
    ensures Inv(SpecStep(t, g, spec, now))
  {
    MappedInv(t, SpecStep(t, g, spec, now));
  }

  lemma PushKeepsInv(t: Table, g: Group, serviceId: string, version: string, now: int)
    requires Inv(t) && WellFormedGroup(g)
    ensures Inv(PushStep(t, g, serviceId, version, now))
  {
    MappedInv(t, PushStep(t, g, serviceId, version, now));
  }

  lemma SkipKeepsInv(t: Table, g: Group, now: int)
    requires Inv(t) && WellFormedGroup(g)
    ensures Inv(SkipStep(t, g, now))
  {
    MappedInv(t, SkipStep(t, g, now));
  }

  lemma DismissKeepsInv(t: Table, id: int)
    requires Inv(t)
    ensures Inv(DismissStep(t, id))
  {
    MappedInv(t, DismissStep(t, id));
  }

  lemma StepKeepsInv(t: Table, e: Event)
    requires Inv(t) && WellFormed(e)
    ensures Inv(Apply(t, e))
  {
    hide Inv;
    match e
    case Upsert(u, at) => UpsertKeepsInv(t, u, at);
    case MarkResolved(cycleStart, at) => ResolveKeepsInv(t, cycleStart, at);
    case MarkStale(lastSeen, staleAfter, at) => StaleKeepsInv(t, lastSeen, staleAfter, at);
    case UpdateGroupSpec(g, spec, at) => SpecKeepsInv(t, g, spec, at);
    case MarkPushed(g, serviceId, version, at) => PushKeepsInv(t, g, serviceId, version, at);
    case MarkPushedSkipped(g, at) => SkipKeepsInv(t, g, at);
    case Dismiss(id) => DismissKeepsInv(t, id);
    case Purge(ids) => PurgeKeepsInv(t, ids);
  }

  lemma PurgeKeepsInv(t: Table, ids: set<int>)
    requires Inv(t)
    ensures Inv(PurgeStep(t, ids))
  {
    MappedInv(t, PurgeStep(t, ids));
  }

  /** In every reachable state: managed_api_id is set exactly on DRIFT rows, waiting rows have a spec,
      one group's waiting rows share it, and no pushed row of that group stands beside them. */
  lemma {:induction false} ReachableInv(events: seq<Event>)
    requires forall e :: e in events ==> WellFormed(e)
    ensures Inv(Run(map[], events))
    decreases |events|
  {
    if events != [] {
      var n := |events| - 1;
      assert forall e :: e in events[..n] ==> e in events;
      ReachableInv(events[..n]);
      hide Inv, WellFormed, Apply;
      StepKeepsInv(Run(map[], events[..n]), events[n]);
    }
  }

  /** A row never changes its identity, and it changes its group only by falling back to DETECTED
      (which also revives a DISMISSED row). */
  lemma GroupChangeRestarts(t: Table, e: Event, id: int)
    requires Inv(t) && WellFormed(e) && id in t && id in Apply(t, e)
    ensures Apply(t, e)[id].serviceKey == t[id].serviceKey
    ensures GroupOf(Apply(t, e)[id]) != GroupOf(t[id]) ==> Apply(t, e)[id].status == DETECTED
  {
    assert RowOk(t[id]);
    hide Inv, RowOk;
    match e
    case Upsert(u, at) =>
      if u.discoveredId == id && !Restarts(t[id], u) {
        assert Coalesce(t[id].managedApiId) == Coalesce(u.managedApiId);
        assert WellFormedGroup(GroupOf(t[id])) by { UseRowOk(t, id); }
      }
    case _ =>
  }

  lemma UseRowOk(t: Table, id: int)
    requires Inv(t) && id in t
    ensures RowOk(t[id])
  {}

  /** Another classification, or another parent; no parent and the id -1 count as the same one. */
  predicate OtherVerdict(r: Row, u: ClassificationResult) {
    u.classification != r.classification ||
    (u.managedApiId != r.managedApiId && !({u.managedApiId, r.managedApiId} <= {None, Some(-1)}))
  }

  /** Dismissal holds against every event except an upsert with another verdict for the row. */
  lemma DismissalSticks(t: Table, e: Event, id: int)
    requires id in t && t[id].status == DISMISSED && id in Apply(t, e)
    ensures Apply(t, e)[id].status == DISMISSED <==>
            !(e.Upsert? && e.u.discoveredId == id && OtherVerdict(t[id], e.u))
  {
    match e
    case MarkStale(_, _, _) => hide Expired;
    case _ =>
  }

  // ---------- What each statement does to a row ----------

  /** The same verdict again leaves the status of an active or dismissed row alone, and so a pushed row is
      not pushed again; another verdict, or a comeback after RESOLVED or STALE, sends the row back to
      DETECTED. Neither loses the document or the catalog entry of the row. */
  lemma UpsertExact(t: Table, u: ClassificationResult, now: int)
    requires u.discoveredId in t
    ensures var r, after := t[u.discoveredId], UpsertStep(t, u, now)[u.discoveredId];
      && (if r.status in {DETECTED, SPEC_GENERATED, PUSHED, DISMISSED} && !OtherVerdict(r, u)
          then after.status == r.status && after.resolvedAt == r.resolvedAt
          else after.status == DETECTED && after.resolvedAt == None)
      && after.classification == u.classification && after.confidence == u.confidence && after.managedApiId == u.managedApiId
      && after.lastConfirmedAt == after.updatedAt == now && after.firstDetectedAt == r.firstDetectedAt
      && after.serviceKey == r.serviceKey && after.httpMethod == r.httpMethod && after.resourcePath == r.resourcePath
      && after.openapiSpec == r.openapiSpec && after.specGeneratedAt == r.specGeneratedAt
      && after.catalogServiceId == r.catalogServiceId && after.catalogVersion == r.catalogVersion && after.pushedAt == r.pushedAt
    ensures UpsertStep(t, u, now).Keys == t.Keys
    ensures forall id :: id in t && id != u.discoveredId ==> UpsertStep(t, u, now)[id] == t[id]
  {
    hide Inserted;
  }

  /** A verdict for a new operation starts it as DETECTED, without a document and without a catalog entry. */
  lemma UpsertNew(t: Table, u: ClassificationResult, now: int)
    requires u.discoveredId !in t
    ensures UpsertStep(t, u, now).Keys == t.Keys + {u.discoveredId}
    ensures forall id :: id in t ==> UpsertStep(t, u, now)[id] == t[id]
    ensures var r := UpsertStep(t, u, now)[u.discoveredId];
      && GroupOf(r) == Group(u.serviceKey, u.classification, u.managedApiId)
      && r.httpMethod == u.httpMethod && r.resourcePath == u.resourcePath && r.confidence == u.confidence
      && r.status == DETECTED && r.openapiSpec == None && r.catalogServiceId == None && r.catalogVersion == None
      && r.firstDetectedAt == r.lastConfirmedAt == r.updatedAt == now && r.resolvedAt == r.specGeneratedAt == r.pushedAt == None
  {
    hide Confirmed;
  }

  lemma StatusCases(s: Status)
    ensures s in {DETECTED, SPEC_GENERATED, PUSHED} <==> s !in {DISMISSED, RESOLVED, STALE}
  {
    match s
    case DETECTED =>
    case SPEC_GENERATED =>
    case PUSHED =>
    case DISMISSED =>
    case RESOLVED =>
    case STALE =>
  }

  /** MarkResolved resolves exactly the active rows that were not confirmed since the start of the cycle;
      it changes no other row, no group, no spec and no catalog id. */
  lemma ResolveExact(t: Table, cycleStart: int, now: int, id: int)
    requires id in t
    ensures var r := ResolveStep(t, cycleStart, now)[id];
      && (if t[id].status in {DETECTED, SPEC_GENERATED, PUSHED} && t[id].lastConfirmedAt < cycleStart
          then r.status == RESOLVED && r.resolvedAt == Some(now) else r == t[id])
      && GroupOf(r) == GroupOf(t[id]) && r.openapiSpec == t[id].openapiSpec && r.catalogServiceId == t[id].catalogServiceId
  {
    StatusCases(t[id].status);
  }

  /** MarkStale takes exactly the active rows whose traffic on record is older than the whole seconds of
      stale_after. */
  lemma StaleExact(t: Table, lastSeen: map<int, int>, staleAfter: int, now: int, id: int)
    requires id in t
    ensures var r := StaleStep(t, lastSeen, staleAfter, now)[id];
      && (if t[id].status in {DETECTED, SPEC_GENERATED, PUSHED} && id in lastSeen && now - lastSeen[id] > WholeSeconds(staleAfter)
          then r.status == STALE && r.resolvedAt == Some(now) else r == t[id])
      && GroupOf(r) == GroupOf(t[id]) && r.openapiSpec == t[id].openapiSpec && r.catalogServiceId == t[id].catalogServiceId
  {
    StatusCases(t[id].status);
  }

  /** The interval of the statement: the largest number of whole seconds in the duration, toward zero. */
  lemma WholeSecondsCut(d: int)
    ensures WholeSeconds(d) % 1_000_000_000 == 0
    ensures d >= 0 ==> 0 <= WholeSeconds(d) <= d < WholeSeconds(d) + 1_000_000_000
    ensures d < 0 ==> WholeSeconds(d) - 1_000_000_000 < d <= WholeSeconds(d) <= 0
  {}

  /** An active row is never deleted, and no event but a purge deletes a row; a dismissal touches its active
      row only. */
  lemma ActiveRowsStay(t: Table, e: Event, id: int)
    requires id in t
    ensures id !in Apply(t, e) <==> e.Purge? && id in e.ids && t[id].status in {DISMISSED, STALE, RESOLVED}
    ensures e.Purge? && id in Apply(t, e) ==> Apply(t, e)[id] == t[id]
    ensures e.Dismiss? ==>
      Apply(t, e)[id] == if e.id == id && t[id].status in {DETECTED, SPEC_GENERATED, PUSHED} then t[id].(status := DISMISSED) else t[id]
  {
    hide UpsertStep, ResolvedRow, StaleRow, SpecRow, PushedRow, SkippedRow, Expired;
    StatusCases(t[id].status);
    match e
    case Upsert(u, now) => UpsertKeys(t, u, now);
    case _ =>
  }

  lemma UpsertKeys(t: Table, u: ClassificationResult, now: int)
    ensures UpsertStep(t, u, now).Keys == t.Keys + {u.discoveredId}
  {
    hide Confirmed, Inserted;
  }

  /** UpdateGroupSpec, MarkPushed and MarkPushedSkipped reach the rows of exactly their group, and of
      these the active ones, for the last only the waiting ones. */
  lemma GroupUpdatesExact(t: Table, g: Group, spec: Spec, serviceId: string, version: string, now: int, id: int)
    requires Inv(t) && WellFormedGroup(g) && id in t
    ensures var mine := GroupOf(t[id]) == g && !Inactive(t[id].status);
      var specified, pushed, skipped :=
        SpecStep(t, g, spec, now)[id], PushStep(t, g, serviceId, version, now)[id], SkipStep(t, g, now)[id];
      && (mine ==> specified.status == SPEC_GENERATED && specified.openapiSpec == Some(spec)
                   && specified.specGeneratedAt == Some(now)
                   && specified.catalogServiceId == t[id].catalogServiceId && specified.catalogVersion == t[id].catalogVersion)
      && (mine ==> pushed.status == PUSHED && pushed.catalogServiceId == Some(serviceId) && pushed.catalogVersion == Some(version)
                   && pushed.pushedAt == Some(now) && pushed.openapiSpec == t[id].openapiSpec)
      && GroupOf(specified) == GroupOf(pushed) == GroupOf(skipped) == GroupOf(t[id])
      && specified.lastConfirmedAt == pushed.lastConfirmedAt == skipped.lastConfirmedAt == t[id].lastConfirmedAt
      && (mine && t[id].status == SPEC_GENERATED ==> skipped.status == PUSHED && skipped.catalogServiceId == t[id].catalogServiceId)
      && (!mine ==> specified == pushed == skipped == t[id])
      && (t[id].status != SPEC_GENERATED ==> skipped == t[id])
  {
    UseRowOk(t, id);
    WildcardExact(t[id], g);
    hide Inv, WellFormedGroup, InGroup;
  }

  predicate HasWithoutId(t: Table, g: Group, status: Status) {
    exists id :: id in t && GroupOf(t[id]) == g && t[id].status == status && t[id].catalogServiceId.None?
  }

  /** A skip leaves a pushed row of the group without a catalog id exactly when one was there before or
      some waiting row has none. */
  lemma SkippedWithoutIdIff(t: Table, g: Group, now: int)
    requires Inv(t) && WellFormedGroup(g)
    ensures HasWithoutId(SkipStep(t, g, now), g, PUSHED) <==> HasWithoutId(t, g, PUSHED) || HasWithoutId(t, g, SPEC_GENERATED)
  {
    var t' := SkipStep(t, g, now);
    forall id | id in t
      ensures GroupOf(t'[id]) == GroupOf(t[id]) && t'[id].catalogServiceId == t[id].catalogServiceId
      ensures GroupOf(t[id]) == g ==> (t'[id].status == PUSHED <==> t[id].status in {PUSHED, SPEC_GENERATED})
    {
      UseRowOk(t, id);
      WildcardExact(t[id], g);
    }
    hide Inv, SkipStep, WellFormedGroup;
    assert t'.Keys == t.Keys;
    if id :| id in t && GroupOf(t[id]) == g && t[id].status in {PUSHED, SPEC_GENERATED} && t[id].catalogServiceId.None? {
      assert t'[id].status == PUSHED;
    }
  }

  /** A reachable state with such a row: it was detected after its sibling's push, waits with the sibling
      for the next one, and that push is skipped because the sibling's entry is gone. */
  lemma SkippedWithoutId(g: Group, spec: Spec, first: ClassificationResult, second: ClassificationResult)
    requires first == ClassificationResult(1, "svc", "GET", "/a", SHADOW, HIGH, None)
    requires second == ClassificationResult(2, "svc", "GET", "/b", SHADOW, HIGH, None)
    requires g == Group("svc", SHADOW, None)
    ensures var events := [Upsert(first, 1), UpdateGroupSpec(g, spec, 2), MarkPushed(g, "id", "v", 3),
                           Upsert(second, 4), UpdateGroupSpec(g, spec, 5), MarkPushedSkipped(g, 6)];
      var t := Run(map[], events);
      && (forall e :: e in events ==> WellFormed(e))
      && 1 in t && t[1].status == PUSHED && t[1].catalogServiceId == Some("id")
      && 2 in t && t[2].status == PUSHED && t[2].catalogServiceId == None
  {
    var e3 := [Upsert(first, 1), UpdateGroupSpec(g, spec, 2), MarkPushed(g, "id", "v", 3)];
    var p := PushedFirst(g, spec, first);
    RunSnoc(e3, Upsert(second, 4));
    var e4 := e3 + [Upsert(second, 4)];
    RunSnoc(e4, UpdateGroupSpec(g, spec, 5));
    var e5 := e4 + [UpdateGroupSpec(g, spec, 5)];
    RunSnoc(e5, MarkPushedSkipped(g, 6));
    assert e5 + [MarkPushedSkipped(g, 6)] == [Upsert(first, 1), UpdateGroupSpec(g, spec, 2), MarkPushed(g, "id", "v", 3),
                                              Upsert(second, 4), UpdateGroupSpec(g, spec, 5), MarkPushedSkipped(g, 6)];
    hide Run;
    SkippedBeside(g, spec, p, second);
  }

  lemma PushedFirst(g: Group, spec: Spec, first: ClassificationResult) returns (p: Row)
    requires first == ClassificationResult(1, "svc", "GET", "/a", SHADOW, HIGH, None) && g == Group("svc", SHADOW, None)
    ensures Run(map[], [Upsert(first, 1), UpdateGroupSpec(g, spec, 2), MarkPushed(g, "id", "v", 3)]) == map[1 := p]
    ensures GroupOf(p) == g && p.status == PUSHED && p.catalogServiceId == Some("id")
  {
    var e1 := [Upsert(first, 1)];
    var e2 := e1 + [UpdateGroupSpec(g, spec, 2)];
    RunSnoc([], Upsert(first, 1));
    assert [] + [Upsert(first, 1)] == e1;
    RunSnoc(e1, UpdateGroupSpec(g, spec, 2));
    RunSnoc(e2, MarkPushed(g, "id", "v", 3));
    assert e2 + [MarkPushed(g, "id", "v", 3)] == [Upsert(first, 1), UpdateGroupSpec(g, spec, 2), MarkPushed(g, "id", "v", 3)];
    hide Run;
    p := PushedRow(SpecRow(Inserted(first, 1), g, spec, 2), g, "id", "v", 3);
  }

  lemma SkippedBeside(g: Group, spec: Spec, p: Row, second: ClassificationResult)
    requires second == ClassificationResult(2, "svc", "GET", "/b", SHADOW, HIGH, None) && g == Group("svc", SHADOW, None)
    requires GroupOf(p) == g && p.status == PUSHED && p.catalogServiceId == Some("id")
    ensures var t := Apply(Apply(Apply(map[1 := p], Upsert(second, 4)), UpdateGroupSpec(g, spec, 5)), MarkPushedSkipped(g, 6));
      && t.Keys == {1, 2} && t[1].status == PUSHED && t[1].catalogServiceId == Some("id")
      && t[2].status == PUSHED && t[2].catalogServiceId == None
  {
    var t4 := Apply(map[1 := p], Upsert(second, 4));
    assert t4 == map[1 := p, 2 := Inserted(second, 4)];
  }

  // ---------- Pushed rows and specs ----------

  predicate GroupWaits(t: Table, g: Group, spec: Spec) {
    exists id :: id in t && GroupOf(t[id]) == g && t[id].status == SPEC_GENERATED && t[id].openapiSpec == Some(spec)
  }

  predicate PushedWithSpec(t: Table, g: Group, spec: Spec) {
    forall id :: id in t && GroupOf(t[id]) == g && t[id].status == PUSHED ==> t[id].openapiSpec == Some(spec)
  }

  /** MarkPushed marks the whole active group. All its pushed rows carry the pushed spec exactly when
      no DETECTED row of the group was waiting for another one. */
  lemma PushCoversGroupIff(t: Table, g: Group, spec: Spec, serviceId: string, version: string, now: int)
    requires Inv(t) && WellFormedGroup(g) && GroupWaits(t, g, spec)
    ensures PushedWithSpec(PushStep(t, g, serviceId, version, now), g, spec) <==>
      forall id :: id in t && GroupOf(t[id]) == g && t[id].status == DETECTED ==> t[id].openapiSpec == Some(spec)
  {
    var t' := PushStep(t, g, serviceId, version, now);
    var w :| w in t && GroupOf(t[w]) == g && t[w].status == SPEC_GENERATED && t[w].openapiSpec == Some(spec);
    forall id | id in t && GroupOf(t[id]) == g
      ensures InGroup(t[id], g) && PairOk(t[w], t[id])
      ensures t'[id].openapiSpec == t[id].openapiSpec && GroupOf(t'[id]) == g
      ensures t'[id].status == PUSHED <==> t[id].status in {DETECTED, SPEC_GENERATED}
    {
      UseRowOk(t, id);
      WildcardExact(t[id], g);
      assert PairOk(t[w], t[id]);
    }
    forall id | id in t' && GroupOf(t'[id]) == g
      ensures GroupOf(t[id]) == g
    {}
    hide Inv, PushStep, InGroup;
    if PushedWithSpec(t', g, spec) {
      forall id | id in t && GroupOf(t[id]) == g && t[id].status == DETECTED
        ensures t[id].openapiSpec == Some(spec)
      {
        assert t'[id].status == PUSHED;
      }
    }
  }

  /** A reachable state with a pushed row that has no spec and no waiting sibling: the row was detected
      after its group's spec was generated and before it was pushed. */
  lemma PushedWithoutSpec(g: Group, spec: Spec, first: ClassificationResult, second: ClassificationResult)
    requires first == ClassificationResult(1, "svc", "GET", "/a", SHADOW, HIGH, None)
    requires second == ClassificationResult(2, "svc", "GET", "/b", SHADOW, HIGH, None)
    requires g == Group("svc", SHADOW, None)
    ensures var events := [Upsert(first, 1), UpdateGroupSpec(g, spec, 2), Upsert(second, 3), MarkPushed(g, "id", "v", 4)];
      var t := Run(map[], events);
      (forall e :: e in events ==> WellFormed(e)) && 2 in t && t[2].status == PUSHED && t[2].openapiSpec == None
  {
    var e1 := [Upsert(first, 1)];
    var e2 := e1 + [UpdateGroupSpec(g, spec, 2)];
    var e3 := e2 + [Upsert(second, 3)];
    var e4 := e3 + [MarkPushed(g, "id", "v", 4)];
    RunSnoc([], Upsert(first, 1));
    assert [] + [Upsert(first, 1)] == e1;
    RunSnoc(e1, UpdateGroupSpec(g, spec, 2));
    RunSnoc(e2, Upsert(second, 3));
    RunSnoc(e3, MarkPushed(g, "id", "v", 4));
    hide Run;
    assert Run(map[], e2).Keys == {1};
    assert Run(map[], e3)[2] == Inserted(second, 3);
    assert e4 == [Upsert(first, 1), UpdateGroupSpec(g, spec, 2), Upsert(second, 3), MarkPushed(g, "id", "v", 4)];
  }

  lemma RunSnoc(events: seq<Event>, e: Event)
    ensures Run(map[], events + [e]) == Apply(Run(map[], events), e)
    ensures Run(map[], []) == map[]
  {
    assert (events + [e])[..|events|] == events;
  }
}
