/** internal/specgen/specgen.go, Run: every detected group gets a document. Assembling, validating and
    marshalling a document is an arbitrary function of the group and its operations, which may fail. */
module SpecGenPhase {
  import opened Model
  import opened UnmanagedTable
  import opened UnmanagedRepository

  type Assembler = (Group, set<int>) -> Option<Spec>

  predicate Specified(before: Row, after: Row, g: Group, spec: Option<Spec>) {
    GroupOf(after) == g && after.status == SPEC_GENERATED && spec.Some? && after.openapiSpec == spec
    && after.catalogServiceId == before.catalogServiceId && after.lastConfirmedAt == before.lastConfirmedAt
  }

  /** The active rows of the finished groups wait with their group's document; nothing else changed. */
  ghost predicate Progress(before: Table, after: Table, done: set<Group>, discovered: set<int>, assemble: Assembler) {
    && after.Keys == before.Keys
    && forall id :: id in before ==>
         if GroupOf(before[id]) in done && !Inactive(before[id].status)
         then Specified(before[id], after[id], GroupOf(before[id]),
                        assemble(GroupOf(before[id]), OpsOf(before, GroupOf(before[id]), discovered)))
         else after[id] == before[id]
  }

  lemma ProgressOps(before: Table, after: Table, done: set<Group>, discovered: set<int>, assemble: Assembler, g: Group)
    requires Progress(before, after, done, discovered, assemble)
    ensures OpsOf(after, g, discovered) == OpsOf(before, g, discovered)
  {
    forall id | id in before
      ensures Selected(after[id], g) <==> Selected(before[id], g)
    {}
    hide Progress, Selected;
  }

  lemma ProgressStep(before: Table, after: Table, done: set<Group>, discovered: set<int>, assemble: Assembler,
                     g: Group, spec: Spec, now: int)
    requires Inv(before) && Progress(before, after, done, discovered, assemble)
    requires WellFormedGroup(g) && assemble(g, OpsOf(after, g, discovered)) == Some(spec)
    ensures Progress(before, SpecStep(after, g, spec, now), done + {g}, discovered, assemble)
  {
    ProgressOps(before, after, done, discovered, assemble, g);
    hide OpsOf, Inv;
    forall id | id in before
      ensures GroupOf(after[id]) == GroupOf(before[id])
      ensures InGroup(after[id], g) <==> GroupOf(before[id]) == g
      ensures Inactive(after[id].status) <==> Inactive(before[id].status)
    {
      UseRowOk(before, id);
      WildcardExact(before[id], g);
    }
    hide InGroup;
  }

  /** Of the groups seen, those done have a document; those neither done nor failed had no operations
      or no valid document. */
  ghost predicate Tally(before: Table, seen: set<Group>, done: set<Group>, failed: set<Group>,
                        discovered: set<int>, assemble: Assembler, generated: nat, skipped: nat)
  {
    && generated == |done| && generated + skipped == |seen|
    && done + failed <= seen && done !! failed
    && forall g :: g in seen && g !in failed ==> (g in done <==> Documented(before, g, discovered, assemble))
  }

  predicate Documented(before: Table, g: Group, discovered: set<int>, assemble: Assembler) {
    OpsOf(before, g, discovered) != {} && assemble(g, OpsOf(before, g, discovered)).Some?
  }

  /** Such a group has an active row with a discovered one, and its operations make a valid document. */
  lemma DocumentedIff(t: Table, g: Group, discovered: set<int>, assemble: Assembler)
    requires Inv(t) && WellFormedGroup(g)
    ensures Documented(t, g, discovered, assemble) <==>
      && (exists id :: id in t && id in discovered && GroupOf(t[id]) == g && t[id].status in {DETECTED, SPEC_GENERATED, PUSHED})
      && assemble(g, OpsOf(t, g, discovered)).Some?
  {
    forall id
      ensures id in OpsOf(t, g, discovered) <==>
        id in t && id in discovered && GroupOf(t[id]) == g && t[id].status in {DETECTED, SPEC_GENERATED, PUSHED}
    {
      OpsOfExact(t, g, discovered, id);
    }
    hide Inv, WellFormedGroup, OpsOf;
    var ops := OpsOf(t, g, discovered);
    if ops != {} {
      HasElement(ops);
      var id: int :| id in ops;
    }
  }

  /** How one group went. */
  datatype Fate = Done | Failed | Undocumented

  lemma TallyStep(before: Table, seen: set<Group>, g: Group, done: set<Group>, failed: set<Group>, discovered: set<int>,
                  assemble: Assembler, generated: nat, skipped: nat, fate: Fate)
    requires Tally(before, seen, done, failed, discovered, assemble, generated, skipped) && g !in seen
    requires fate.Done? ==> Documented(before, g, discovered, assemble)
    requires fate.Undocumented? ==> !Documented(before, g, discovered, assemble)
    ensures Tally(before, seen + {g}, if fate.Done? then done + {g} else done,
                  if fate.Failed? then failed + {g} else failed, discovered, assemble,
                  if fate.Done? then generated + 1 else generated, if fate.Done? then skipped else skipped + 1)
  {
    hide Documented;
  }

  /** The first n groups. */
  predicate Seen(groups: seq<Group>, n: nat, seen: set<Group>)
    requires n <= |groups|
  {
    (forall i :: 0 <= i < n ==> groups[i] in seen) && (forall g :: g in seen ==> g in groups[..n])
  }

  lemma SeenNext(groups: seq<Group>, i: nat, all: set<Group>, seen: set<Group>)
    requires i < |groups| && ListsOnce(groups, all) && Seen(groups, i, seen)
    ensures Seen(groups, i + 1, seen + {groups[i]}) && groups[i] !in seen && groups[i] in all
  {
    assert groups[..i + 1] == groups[..i] + [groups[i]];
  }

  lemma SeenAll(groups: seq<Group>, all: set<Group>, seen: set<Group>)
    requires ListsOnce(groups, all) && Seen(groups, |groups|, seen)
    ensures seen == all
  {
    assert groups[..|groups|] == groups;
  }

  /** One group: fetch its operations, assemble the document, store it on the group's rows. */
  method GenerateOne(repo: UnmanagedRepo, group: Group, discovered: set<int>, assemble: Assembler, now: int,
                     ghost before: Table, ghost done: set<Group>)
    returns (fate: Fate)
    requires Inv(before) && Inv(repo.rows) && WellFormedGroup(group)
    requires Progress(before, repo.rows, done, discovered, assemble)
    modifies repo
    ensures Inv(repo.rows)
    ensures Progress(before, repo.rows, if fate.Done? then done + {group} else done, discovered, assemble)
    ensures fate.Done? ==> Documented(before, group, discovered, assemble)
    ensures fate.Undocumented? ==> !Documented(before, group, discovered, assemble)
    ensures repo.failures == old(repo.failures) + if fate.Failed? then 1 else 0
  {
    ProgressOps(before, repo.rows, done, discovered, assemble, group);
    hide Progress, Inv, OpsOf, WellFormedGroup, SpecStep;
    var fetched, ops := repo.GetGroupOperations(group, discovered);
    if !fetched {
      return Failed;
    }
    if ops == {} {
      return Undocumented;
    }
    var spec := assemble(group, ops);
    if spec.None? {
      return Undocumented;
    }
    ghost var rows := repo.rows;
    var persisted, updated := repo.UpdateGroupSpec(group, spec.value, now);
    if !persisted {
      return Failed;
    }
    ProgressStep(before, rows, done, discovered, assemble, group, spec.value, now);
    SpecKeepsInv(rows, group, spec.value, now);
    return Done;
  }

  /** Every detected group is done, or a statement for it failed, or it has no operations or no valid
      document; the rows are exactly those of the groups done. */
  method Run(repo: UnmanagedRepo, discovered: set<int>, assemble: Assembler, now: int)
    returns (ok: bool, generated: nat, skipped: nat, ghost done: set<Group>, ghost failed: set<Group>)
    requires Inv(repo.rows)
    modifies repo
    ensures Inv(repo.rows)
    ensures Progress(old(repo.rows), repo.rows, done, discovered, assemble)
    ensures generated == |done| && done + failed <= GroupsWith(old(repo.rows), DETECTED) && done !! failed
    ensures ok ==> forall g :: g in GroupsWith(old(repo.rows), DETECTED) && g !in failed ==>
              (g in done <==> Documented(old(repo.rows), g, discovered, assemble))
    ensures ok && skipped == 0 ==> done == GroupsWith(old(repo.rows), DETECTED)
    ensures repo.failures == old(repo.failures) + |failed| + if ok then 0 else 1
  {
    hide *;
    var groups;
    done, failed, generated, skipped := {}, {}, 0, 0;
    ghost var before := repo.rows;
    ghost var all := GroupsWith(before, DETECTED);
    ok, groups := repo.GetDetectedGroups();
    ProgressNone(before, discovered, assemble);
    if !ok {
      return;
    }
    DetectedWellFormed(before);
    ghost var seen: set<Group> := {};
    NothingSeen(before, groups, discovered, assemble);
    for i := 0 to |groups|
      invariant Inv(repo.rows) && Progress(before, repo.rows, done, discovered, assemble)
      invariant Seen(groups, i, seen)
      invariant Tally(before, seen, done, failed, discovered, assemble, generated, skipped)
      invariant repo.failures == old(repo.failures) + |failed| && failed <= seen
    {
      SeenNext(groups, i, all, seen);
      var fate := GenerateOne(repo, groups[i], discovered, assemble, now, before, done);
      TallyStep(before, seen, groups[i], done, failed, discovered, assemble, generated, skipped, fate);
      seen := seen + {groups[i]};
      match fate
      case Done =>
        generated := generated + 1;
        done := done + {groups[i]};
      case Failed =>
        skipped := skipped + 1;
        failed := failed + {groups[i]};
      case Undocumented =>
        skipped := skipped + 1;
    }
    SeenAll(groups, all, seen);
    TallyEnd(before, all, done, failed, discovered, assemble, generated, skipped);
  }

  lemma NothingSeen(before: Table, groups: seq<Group>, discovered: set<int>, assemble: Assembler)
    ensures Seen(groups, 0, {}) && Tally(before, {}, {}, {}, discovered, assemble, 0, 0)
  {}

  lemma TallyEnd(before: Table, all: set<Group>, done: set<Group>, failed: set<Group>,
                 discovered: set<int>, assemble: Assembler, generated: nat, skipped: nat)
    requires Tally(before, all, done, failed, discovered, assemble, generated, skipped)
    ensures generated == |done| && done + failed <= all && done !! failed
    ensures forall g :: g in all && g !in failed ==> (g in done <==> Documented(before, g, discovered, assemble))
    ensures skipped == 0 ==> done == all
  {
    hide Documented;
    if skipped == 0 {
      FullSubset(done, all);
    }
  }

  lemma FullSubset(a: set<Group>, b: set<Group>)
    requires a <= b && |a| == |b|
    ensures a == b
  {
    assert b == a + (b - a);
  }

  lemma ProgressNone(t: Table, discovered: set<int>, assemble: Assembler)
    ensures Progress(t, t, {}, discovered, assemble)
  {}

  lemma DetectedWellFormed(t: Table)
    requires Inv(t)
    ensures forall g :: g in GroupsWith(t, DETECTED) ==> WellFormedGroup(g)
  {
    forall g | g in GroupsWith(t, DETECTED)
      ensures WellFormedGroup(g)
    {
      var id :| id in t && t[id].status == DETECTED && GroupOf(t[id]) == g;
      UseRowOk(t, id);
    }
  }

  /** When every detected group is finished, no row is left DETECTED. */
  lemma NoneDetected(before: Table, after: Table, done: set<Group>, discovered: set<int>, assemble: Assembler)
    requires Progress(before, after, done, discovered, assemble) && done == GroupsWith(before, DETECTED)
    ensures forall id :: id in after ==> after[id].status != DETECTED
  {
    hide OpsOf;
    forall id | id in after
      ensures after[id].status != DETECTED
    {
      if before[id].status == DETECTED {
        assert GroupOf(before[id]) in done;
      }
    }
  }

  /** Pushing after such a run leaves no pushed row of the group without the pushed document. */
  lemma PushAfterSpecGen(before: Table, after: Table, done: set<Group>, discovered: set<int>, assemble: Assembler,
                         pg: PushGroup, serviceId: string, version: string, now: int)
    requires Progress(before, after, done, discovered, assemble) && done == GroupsWith(before, DETECTED)
    requires Inv(after) && WellFormedGroup(pg.group) && PushGroupFrom(after, pg)
    ensures PushedWithSpec(PushStep(after, pg.group, serviceId, version, now), pg.group, pg.openapiSpec)
  {
    NoneDetected(before, after, done, discovered, assemble);
    hide Progress, Inv, PushStep;
    var id :| Represents(after, pg.group, id) && after[id].openapiSpec == Some(pg.openapiSpec)
              && after[id].catalogServiceId == pg.catalogServiceId;
    assert GroupWaits(after, pg.group, pg.openapiSpec);
    PushCoversGroupIff(after, pg.group, pg.openapiSpec, serviceId, version, now);
  }
}
