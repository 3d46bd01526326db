# Verified model of the API discovery controller

The controller polls traffic, syncs the managed APIs, compares the two, writes OpenAPI documents for what is
unmanaged and pushes them to a service catalog. This project models the parts of that pipeline in which the
later steps rely on what the earlier ones left behind, and proves what they keep over whole runs. Each module
follows one source file or the table it works on.

| part | modules | main results |
|---|---|---|
| Lifecycle of unmanaged APIs | UnmanagedTable, UnmanagedRepository, ComparisonPhase, SpecGenPhase | `ReachableInv`, `GroupsDisjoint`, `PushCoversGroupIff`, `UpsertExact`, `ActiveIffClassified`, `ConfirmedRowStays`, `CycleIdempotent` |
| Catalog push and reconciliation | ServiceCatalog, CatalogPush, CatalogRuns, Reconcile | `CreateEntry` and its cycle, `PushedEntry`, `PushExact`, `EntriesSurviveIff`, `RowsTrackLiveEntries`, `ReplayLeavesOne`, `Reconciler.Run`, `MarkerRoundTripIff` |
| Comparison | Matcher, Collisions, CollisionLaws, Classifier | `DetectThenResolveDeterministic`, `OneOrAllKeep`, `TieBreakIff`, `NeverAmbiguous`, `VerdictWithoutOverlap` |
| Paths | Text, MatchPath, Normalize, PathAgreement, OASPath | `AgreementIff`, `ImportedManagedIff`, `DocumentLoopIff`, `MatchPathShape`, `RoundTripIff`, `DropsNoneIff` |
| Discovery accounting | NoiseFiltering, Deduplication, Enrichment, DiscoveredRepository, PipelineStates, DiscoveryHistory, DiscoveryPhase | `WindowsTile`, `WatermarkNeverDecreases`, `TableMatchesTotal`, `RepresentativeIsMaxIff` |
| Engine | Durations, Circuit, Engine | `SettledAfter`, `AttemptIff`, `GuardedRunIff`, `HonestConfigIff`, `FlagHonestIff`, `ComparisonIffFresh` |

`dafny verify dfyconfig.toml` checks the whole project.

## How the source is read

- A SQL statement is one atomic step on a map; a statement that fails changes nothing. Whether a statement, a
  query or a remote call fails is left open at every call, so the results hold for every pattern of failures.
  The repositories and the catalog count the calls that failed in a ghost field, with which the contracts say what a
  phase does when nothing fails and what each failure may cost.
- A class method is proved against a step function on values; the facts about runs are lemmas about those
  functions, or an invariant that every method keeps.
- Ranging over a map takes its elements in arbitrary order. The rows a query returns without ORDER BY are taken
  in arbitrary order too; ORDER BY orders text columns bytewise.
- Clock readings, replies of remote systems, service keys, configured patterns and the assembled documents are
  parameters. Times are integers in nanoseconds; a difference of two times saturates at 64 bits as in Go.
- Strings are sequences of bytes.
- The remote catalog obeys these contracts and is otherwise arbitrary: names are unique, a failed call changes
  nothing, a created entry has an unused id, an accepted update leaves that id under the requested name and
  definition, a successful delete removes exactly one existing entry, name search is exact. The listing that
  reconciliation pages through does not change meanwhile.
- The endpoint hostname read for an API, empty when the read fails, is the same for all its collisions in a cycle.
- Row ids are primary keys: positive, so never the -1 that COALESCE uses, and distinct. The three match references of a
  comparison candidate are set together or not at all, as Match sets them.

## Where the code does not do what it says or suggests

The model follows the code.

- "Keep the representative with highest original count" (internal/discovery/dedup.go:28): a signature is
  compared with the running total, so this holds exactly under the condition of `RepresentativeIsMaxIff`.
- "all 5 phases have run at least once" (internal/engine/engine.go:153): the flag is set by the first successful
  managed sync (`EngineSound`). With all five phases on and a comparison that follows its sync in time the comment
  is true; with the sync on and another phase off it is false (`HonestConfigIff`; for a single run
  `FlagHonestIff`, as an input `FlagWithoutComparison`).
- AMBIGUOUS results (internal/comparison/classifier.go:39-66) never occur on data that Match produced
  (`NeverAmbiguous`): tied candidates keep their match and are skipped.
- MarkPushed also takes DETECTED rows, so a pushed row may lack the pushed spec or any spec
  (`PushCoversGroupIff`, `PushedWithoutSpec`); MarkPushedSkipped may leave a pushed row
  without a catalog id (`SkippedWithoutIdIff`, `SkippedWithoutId`).
- A new verdict revives a dismissed row (`DismissalSticks`, `GroupChangeRestarts`).
- ComputeMatchPath trims one trailing slash before it collapses runs (`MatchPathTrailingSlash`).
- A tied service with an empty key that would win the tie-break counts as no winner, and an empty endpoint
  hostname equals an empty domain (`PickWinner`).
- With an empty hostname the marker reads as owned by somebody else (`EmptyHostname`); a hostname with an early
  newline makes published entries read as unowned (`PublishedUnownedIff`).
- Two groups may derive one catalog name (`NamesEqualIff`, `ServiceNamesCollide`, `DriftNamesCollide`) and then
  overwrite each other's entry (`LaterPushReplaces`); exactly when a run can lose an entry that way or through a
  tracked id is `EntriesSurviveIff`.
- buildPaths can drop an operation: when two paths share a template or two methods differ in case only
  (`DropsNoneIff`).
- Enrichment declares an error result but never returns one, so the branch of the discovery phase for it is dead
  code and is not modelled.

## Model

| member | source | states |
|---|---|---|
| UnmanagedTable.ReachableInv | internal/store/unmanaged_repo.go:27-324 | After every run of well-formed statements on an empty table, with dismissals and purges anywhere: a row has a managed id exactly when it is DRIFT, a waiting (SPEC_GENERATED) row has a spec, all waiting rows of one group carry the same spec, and no PUSHED row of a group stands beside a waiting one |
| UnmanagedTable.StepKeepsInv | internal/store/unmanaged_repo.go:27-324 | Each single statement keeps that invariant |
| UnmanagedTable.WildcardExact | internal/store/unmanaged_repo.go:236-239 | For well-formed rows and groups the predicate with the NULL wildcard selects exactly the rows of the group |
| UnmanagedTable.WildcardExactIff | internal/store/unmanaged_repo.go:297-300 | It is exact on all well-formed rows if and only if the group is not a DRIFT group without a parent |
| UnmanagedTable.GroupsDisjoint | internal/store/unmanaged_repo.go:315-318 | Updates for two different groups touch disjoint rows |
| UnmanagedTable.GroupChangeRestarts | internal/store/unmanaged_repo.go:35-52 | No statement changes a row's service, and a row changes its group only by falling back to DETECTED |
| UnmanagedTable.DismissalSticks | internal/store/unmanaged_repo.go:35-52 | A dismissed row stays dismissed under every statement exactly unless an upsert brings it another classification or another parent |
| UnmanagedTable.PushCoversGroupIff | internal/store/unmanaged_repo.go:289-306 | After MarkPushed all pushed rows of the group carry the pushed spec if and only if no DETECTED row of the group held another one |
| UnmanagedTable.PushedWithoutSpec | internal/store/unmanaged_repo.go:297-300 | A concrete run of four statements after which a PUSHED row has no spec |
| UnmanagedRepository.UnmanagedRepo.Upsert | internal/store/unmanaged_repo.go:27-64 | A failed statement changes nothing; otherwise the row is inserted as DETECTED or confirmed, and restarted when its verdict changed or it was RESOLVED or STALE |
| UnmanagedTable.UpsertExact | internal/store/unmanaged_repo.go:35-52 | The verdict a row already has leaves the status of an active or dismissed row alone; another classification or parent, or a comeback after RESOLVED or STALE, sends it back to DETECTED without a resolution time; document, catalog entry, first detection and all other rows stay |
| UnmanagedTable.UpsertNew | internal/store/unmanaged_repo.go:28-34 | A verdict for a new operation makes one row, DETECTED, in the group of the verdict, without document or catalog entry |
| UnmanagedTable.ActiveRowsStay | internal/engine/cleanup.go:109-118 | Rows are deleted by the purge only, and only resolved, stale or dismissed ones; a dismissal changes the status of its active row and nothing else |
| UnmanagedTable.ResolveExact | internal/store/unmanaged_repo.go:68-78 | MarkResolved resolves exactly the active rows that were not confirmed since the cycle start and touches no other row, and no group, spec or catalog id of these |
| UnmanagedTable.StaleExact | internal/store/unmanaged_repo.go:81-93 | MarkStale takes exactly the active rows whose traffic on record is older than the whole seconds of stale_after, and otherwise is like MarkResolved |
| UnmanagedTable.WholeSecondsCut | internal/store/unmanaged_repo.go:88 | The interval is the duration cut to whole seconds toward zero, also for negative durations |
| UnmanagedTable.GroupUpdatesExact | internal/store/unmanaged_repo.go:229-323 | In a reachable state UpdateGroupSpec and MarkPushed reach exactly the active rows of their own group, DETECTED ones too, and MarkPushedSkipped exactly the waiting ones, which keep their catalog id or its absence; every other row is untouched |
| UnmanagedTable.SkippedWithoutIdIff | internal/store/unmanaged_repo.go:310-324 | A skip leaves a pushed row of the group without a catalog id if and only if one was there before or some waiting row has none |
| UnmanagedTable.SkippedWithoutId | internal/store/unmanaged_repo.go:310-324 | A concrete run of six statements that ends in such a row, beside a sibling with an id |
| UnmanagedRepository.UnmanagedRepo.GetDetectedGroups | internal/store/unmanaged_repo.go:103-127 | Every group with a DETECTED row, once, and no other, in the order of service and classification |
| UnmanagedRepository.GroupsWithIff | internal/store/unmanaged_repo.go:104-108 | A group is listed exactly when a row of that status has its service, classification and parent |
| UnmanagedRepository.ServiceOrder | internal/store/unmanaged_repo.go:108 | The order of the listing: services by their keys, DRIFT before SHADOW |
| UnmanagedRepository.UnmanagedRepo.GetSpecGeneratedGroups | internal/store/unmanaged_repo.go:257-286 | Every group with a waiting row, once, in the order of service, classification and parent; the listed spec is the one that every waiting row of the group carries, the listed catalog id the least of theirs |
| UnmanagedRepository.GroupOrder | internal/store/unmanaged_repo.go:265-266 | Then parents by their ids, no parent last |
| UnmanagedRepository.UnmanagedRepo.PickRepresentative | internal/store/unmanaged_repo.go:260-266 | DISTINCT ON keeps a waiting row of the group with the least catalog id, one without an id only if none has one |
| UnmanagedRepository.ListedFirst | internal/store/unmanaged_repo.go:260-266 | The listed document and id are those of one waiting row of the group; if any of them has a catalog id the listed one is given, and none comes before it |
| UnmanagedRepository.RepresentativeSpec | internal/store/unmanaged_repo.go:257-266 | In a reachable state, whichever waiting row DISTINCT ON keeps, the pushed spec is the same |
| UnmanagedRepository.UnmanagedRepo.TrackedCatalogServiceIDs | internal/store/unmanaged_repo.go:327-350 | Exactly the catalog ids that occur in the table |
| CatalogPush.PushPhase.CreateEntry | internal/catalog/catalog.go:157-189 | With RecoverConflict and UpdateEntry: terminates for every catalog and every reply, by the number of catalog entries and then the call phase; after a success the derived name has exactly one entry, the published one; other names are untouched; the rows are unchanged or marked pushed |
| CatalogPush.PushPhase.RecoverConflict | internal/catalog/catalog.go:229-239 | The same, through the entry that the name search finds |
| CatalogPush.PushPhase.UpdateEntry | internal/catalog/catalog.go:195-226 | The same for a given entry id; a rejected update deletes that entry and creates a new one |
| CatalogPush.PushPhase.PushOne | internal/catalog/catalog.go:108-154 | One push of a group: CREATED or UPDATED leaves exactly one entry under the derived name, with this group's document; entries with neither the tracked id nor that name are untouched; a push without success at most removes entries; a group whose tracked entry is gone and is not to be pushed again is skipped or fails without any change; the table is unchanged or marked accordingly; when no call fails the push succeeds, or is skipped exactly then, and when no statement fails the marking is made |
| CatalogPush.PushPhase.PushTracked | internal/catalog/catalog.go:118-154 | A group pushed before: its entry is updated when it is there or cannot be looked up; when it is gone a new one is created, or the push skipped, as configured |
| CatalogPush.PushedEntry | internal/catalog/catalog.go:242-279 | The entry of a successful push carries the document as definition, the version, the server of the document or http://unknown-host, a description that starts with the marker and the class and ends in the service key, and the name of the parent with -Drift or the service key with dashes; no other entry has that name |
| CatalogPush.DeletedStaysDeleted | internal/catalog/catalog.go:126-154 | A group whose tracked entry is gone is not pushed and changes nothing unless deleted entries are to be pushed again; nothing else is ever skipped |
| CatalogPush.RecordedRow | internal/catalog/catalog.go:150-212 | A push writes on active rows of its own group only: after a success the reported id and the version, after a skip the status of the waiting rows alone |
| CatalogPush.PushPhase.Persist | internal/catalog/catalog.go:157-226 | The table write after a successful call may be lost, and otherwise marks the group pushed |
| CatalogPush.PushPhase.SelectGroups | internal/catalog/catalog.go:45-72 | Exactly the waiting groups that the configuration pushes, each once, in the order of the listing |
| CatalogPush.PushPhase.SelectedIff | internal/catalog/catalog.go:45-72 | A group is pushed exactly when it has a waiting row and the switch of its class is on, with the document that all its waiting rows carry |
| CatalogPush.PushPhase.PushAll | internal/catalog/catalog.go:79-103 | The run is a chain of single pushes, one per selected group, from the catalog and table before it to those after it |
| CatalogPush.PushPhase.Run | internal/catalog/catalog.go:40-104 | From a reachable table: the selected groups are pushed in turn, entries that no group tracks or names are untouched, rows of other groups are untouched, and the table invariant still holds; when nothing fails every push succeeds or is rightly skipped, and is recorded |
| CatalogPush.PushPhase.PublishedSurvives | internal/catalog/catalog.go:79-103 | Within one run: what a successful push published is there at the end unless a later group derives the same name or tracks that entry |
| CatalogRuns.PushExact | internal/catalog/catalog.go:108-239 | What PushOne promises of a success is exactly what the branches of the protocol can lead to under some replies of the catalog, the reported action included: no success is left out and none is allowed beyond them |
| CatalogRuns.LaterPushReplaces | internal/catalog/catalog.go:108-239 | A later successful push under the same name leaves no entry equal to the one published before, unless the two are the same entry |
| CatalogRuns.TrackedPushReplaces | internal/catalog/catalog.go:118-154 | So does a later successful push whose tracked id is that of the entry |
| CatalogRuns.EntriesSurviveIff | internal/catalog/catalog.go:79-103 | In every run from a given catalog, with whatever replies, failures and versions, the entry of each successful push is in the catalog at the end if and only if no group that can be pushed is followed by one that derives its name or tracks an id that is free, that it tracks too, or whose entry has its name; the condition reads only the catalog, names and tracked ids before the run |
| CatalogRuns.SuccessfulRunsIff | internal/catalog/catalog.go:79-103 | The same condition is exact when only runs in which every push succeeds are looked at, for configurations that push deleted entries again, without which such runs need not exist |
| CatalogRuns.UntrackedSurviveIff | internal/catalog/catalog.go:242-252 | When no group tracks an entry the condition is that no two groups share a name in the sense of NamesEqualIff |
| CatalogRuns.RunKeepsEntries | internal/catalog/catalog.go:40-104 | Hence a run of the phase without such collisions ends with the entries of all its successful pushes |
| CatalogRuns.RowsTrackPush | internal/catalog/catalog.go:79-103 | When a group's push is recorded, each of its active rows ends the run PUSHED with the id of that push, whatever the other groups do |
| CatalogRuns.RowsTrackLiveEntries | internal/catalog/catalog.go:79-103 | Without collisions each such row ends the run tracking a live entry, the one its group published |
| CatalogRuns.CompletedRunTracks | internal/catalog/catalog.go:40-104 | A run without collisions in which nothing fails, with deleted entries pushed again, leaves each active row of each of its groups PUSHED and tracking a live entry with the document of its group |
| CatalogPush.ReplayLeavesOne | internal/catalog/catalog.go:108-239 | Pushing a group again after its table write was lost keeps the entries under other names, leaves at most one entry under its name and no more entries than before; unless the second push fails it leaves exactly one and as many as before |
| CatalogPush.NamesEqualIff | internal/catalog/catalog.go:242-252 | Two groups derive the same name if and only if their parents are equal, or, without parents, their keys agree up to slashes, colons and dashes, or one key reads that way as the other's parent with the suffix |
| CatalogPush.ServiceNamesCollide | internal/discovery/servicekey.go:11-19 | Service b in namespace a and a service a-b without a namespace derive the same name |
| CatalogPush.DriftNamesCollide | internal/catalog/catalog.go:242-252 | All drifting services of one named parent API derive the same name |
| ServiceCatalog.Catalog.GetService | internal/apim/catalog.go:115-134 | Contract of the remote catalog: found means the id exists, not found means it does not |
| ServiceCatalog.Catalog.SearchByName | internal/apim/catalog.go:137-155 | Contract: the search is exact |
| ServiceCatalog.Catalog.CreateService | internal/apim/catalog.go:158-189 | Contract: names stay unique, a created entry has an unused id, a failed call changes nothing |
| ServiceCatalog.Catalog.UpdateService | internal/apim/catalog.go:192-212 | Contract: an accepted update rewrites exactly that entry, a failed one changes nothing |
| ServiceCatalog.Catalog.DeleteService | internal/apim/catalog.go:243-253 | Contract: a successful delete removes exactly that existing entry |
| ServiceCatalog.Catalog.ListServices | internal/apim/catalog.go:215-240 | Contract: some non-empty stretch of a stable listing within the limit, nothing past its end, and the true total |
| Matcher.Match | internal/comparison/matcher.go:29-61 | One candidate per discovered API, in order, joined with the last operation that has its method and path, which a linear scan finds |
| Matcher.BuildIndex | internal/comparison/matcher.go:31-35 | The map finds for every method and path the last such operation |
| Matcher.LastMatches | internal/comparison/matcher.go:31-55 | The last operation with the method and path of a discovered API is its match, whatever comes before it |
| Matcher.JoinKeeps | internal/comparison/matcher.go:38-58 | A candidate has every column of its discovered API, and a match exactly when some operation has its method and path |
| Collisions.DetectCollisions | internal/comparison/collision.go:28-74 | For every managed operation hit by several services exactly one entry, with exactly those services, whatever order the maps are ranged in |
| CollisionLaws.PairListed | internal/comparison/collision.go:28-74 | Two candidates of different services on one managed operation are listed in one collision |
| CollisionLaws.ListedMeans | internal/comparison/collision.go:28-74 | A collision names exactly the services of the candidates on its operation, each once and at least two, and the primary key that the last of them brought |
| Collisions.GroupMatches | internal/comparison/collision.go:30-53 | The groups hold exactly the services that hit each operation, and the key of the last hit |
| Collisions.ScoreKeys | internal/comparison/collision.go:119-130 | Every service's score is its number of operations of the API seen in traffic; only positive scores are stored |
| Collisions.FindTied | internal/comparison/collision.go:132-145 | The tied services are exactly those with the highest positive score, in whatever order the scores are ranged over |
| Collisions.PickWinner | internal/comparison/collision.go:147-165 | A sole top scorer wins; otherwise the alphabetically first tied service whose domain is the endpoint's host; otherwise, or if that name is empty, nobody |
| Collisions.ResolveCollisions | internal/comparison/collision.go:78-193 | Returns exactly the candidates that lost to another service and exactly those at an undecided collision |
| Collisions.DecidesUnique | internal/comparison/collision.go:119-165 | The winner rule decides at most one outcome |
| Collisions.DecidesTotal | internal/comparison/collision.go:119-165 | The winner rule always decides an outcome |
| CollisionLaws.OrderIrrelevant | internal/comparison/collision.go:112-193 | The two sets do not depend on the order of the collisions nor of the keys inside one |
| CollisionLaws.DetectThenResolveDeterministic | internal/comparison/collision.go:55-193 | Detection followed by resolution is a function of its inputs despite unordered maps |
| CollisionLaws.OneCollisionPerPlace | internal/comparison/collision.go:28-74 | After Match, two collisions never share method and path |
| CollisionLaws.LosesIff | internal/comparison/collision.go:167-189 | A candidate at a collision is reclassified exactly when another service won it, and ambiguous exactly when nobody did |
| CollisionLaws.OneOrAllKeep | internal/comparison/collision.go:119-189 | An operation hit by several services is kept by exactly one of them or, undecided, by all: never by none |
| CollisionLaws.LosersNotAmbiguous | internal/comparison/collision.go:167-189 | The reclassified and the ambiguous sets are disjoint, and both hold only matched candidates |
| CollisionLaws.OwnHitCounts | internal/comparison/collision.go:119-130 | Every colliding service scores at least 1, from its own hit |
| CollisionLaws.AffinityCounts | internal/comparison/collision.go:119-130 | The affinity of a service is the number of operations of the API whose method and path some candidate of the service has |
| CollisionLaws.TiedAreMaximal | internal/comparison/collision.go:132-145 | The tied services are exactly the colliding services seen on the largest number of operations of the API |
| CollisionLaws.WinnerIsMaximal | internal/comparison/collision.go:119-165 | A winner was seen on at least as many operations of the API as every other colliding service |
| CollisionLaws.StrictMaximumWins | internal/comparison/collision.go:119-165 | A service seen on strictly more operations of the API than every other colliding one wins |
| CollisionLaws.TieBreakIff | internal/comparison/collision.go:147-202 | When several services share the largest number, a service wins if and only if its key is not empty, its first known request domain is the endpoint host with or without a port, and no other such service comes before it in the alphabet |
| CollisionLaws.NeverAmbiguous | internal/comparison/classifier.go:38-48 | On data from Match no result is AMBIGUOUS, and LOW marks exactly the reclassified ones |
| Classifier.Classify | internal/comparison/classifier.go:19-69 | The results for all candidates, with the parent taken from the first kept match of the service |
| Classifier.ClassifiedExactly | internal/comparison/classifier.go:19-69 | Exactly the candidates without a match or with a lost one are classified, in order: DRIFT with the API of the first candidate of the service that kept its match, SHADOW when there is none, and AMBIGUOUS before LOW before HIGH |
| Classifier.ManagedServices | internal/comparison/classifier.go:25-35 | The map holds for every service the API of its first kept match |
| Classifier.EmittedOnceInOrder | internal/comparison/classifier.go:38-68 | Each candidate that did not keep a match is emitted exactly once, in order, and no other is |
| Classifier.ServiceVerdict | internal/comparison/classifier.go:50-63 | A result is DRIFT exactly when some kept match shares its service key, and has a parent exactly then |
| Classifier.OneVerdictPerService | internal/comparison/classifier.go:50-63 | All results of one service have the same classification and parent |
| ComparisonPhase.Compare | internal/comparison/comparison.go:72-110 | Match, detection, resolution and classification composed; every other order of the maps gives the same result |
| ComparisonPhase.VerdictUnique | internal/comparison/comparison.go:72-110 | The composed verdict is the same for every order in which maps were ranged over |
| ComparisonPhase.VerdictGood | internal/comparison/comparison.go:72-130 | Verdicts name each discovered row at most once and have a parent exactly when DRIFT, which the table invariant needs |
| ComparisonPhase.ClassifiedIff | internal/comparison/comparison.go:58-110 | A discovered API is classified if and only if no managed operation has its method and path or it lost the collision on one |
| ComparisonPhase.VerdictWithoutOverlap | internal/comparison/comparison.go:58-110 | When no operation is hit by two services: classified if and only if not managed, DRIFT exactly when another API of the service is managed, always with high confidence |
| ComparisonPhase.Record | internal/comparison/comparison.go:110-154 | When every statement succeeds the table is exactly the old one with all upserts, then the resolved rows, then the stale rows; the invariant holds in any case; the report counts exactly the failed statements |
| ComparisonPhase.RunLoaded | internal/comparison/comparison.go:58-165 | The verdict on the loaded data is recorded as Record says |
| ComparisonPhase.Run | internal/comparison/comparison.go:34-165 | A failed load is an error, and a failed load or an empty discovered set changes nothing; otherwise the verdict on the loaded data is recorded as Record says |
| ComparisonPhase.ActiveAfterCycle | internal/comparison/comparison.go:110-154 | For any clock: which rows are active after a clean cycle, exactly, and which dismissals survive it; a row confirmed by a clock behind the start of the cycle is resolved at once |
| ComparisonPhase.ConfirmedRowStays | internal/comparison/comparison.go:110-154 | A cycle that confirms an active row in time with the verdict it has and finds fresh traffic keeps its status, document and catalog entry, so a pushed row is not pushed again |
| ComparisonPhase.ActiveIffClassified | internal/comparison/comparison.go:110-154 | Under a monotone clock a row is active after a clean cycle exactly when it was classified, is not dismissed and has fresh traffic |
| ComparisonPhase.CycleIdempotent | internal/comparison/comparison.go:110-154 | Repeating a clean cycle on the same data and freshness changes no status |
| SpecGenPhase.Run | internal/specgen/specgen.go:38-109 | The active rows of the groups done wait with their own group's document and nothing else changed; a group for which no statement failed is done exactly when it has operations and a valid document; with nothing skipped every detected group is done, and each failed group has a failed statement or query of its own |
| SpecGenPhase.GenerateOne | internal/specgen/specgen.go:56-96 | One group: done with its document stored, failed, or without operations or a valid document |
| UnmanagedRepository.OpsOfExact | internal/store/unmanaged_repo.go:186-193 | In a reachable state the operations of a group are its active rows with a discovered row |
| UnmanagedRepository.UnmanagedRepo.GetGroupOperations | internal/store/unmanaged_repo.go:167-226 | Exactly the operations of the group, unless the query fails |
| SpecGenPhase.DocumentedIff | internal/specgen/specgen.go:56-83 | A group counts as documented exactly when it has an active row with a discovered one and the document made of its operations is valid |
| SpecGenPhase.NoneDetected | internal/specgen/specgen.go:38-109 | When every detected group is done no row is left DETECTED |
| SpecGenPhase.PushAfterSpecGen | internal/specgen/specgen.go:38-109 | A push after such a run leaves no pushed row of the group without the pushed document |
| Reconcile.ParseOwnerIff | internal/catalog/reconcile.go:139-145 | The scan returns a given owner exactly when the marker expression matches with that text: non-empty, no newline, no closing bracket after its first character |
| Reconcile.MarkerRoundTripIff | internal/catalog/reconcile.go:196-198 | parseOwner recovers the hostname from its marker before every suffix if and only if the hostname is such a text |
| Reconcile.EmptyHostname | internal/catalog/reconcile.go:196-198 | With an empty hostname the text behind the marker is read as an owner |
| Reconcile.PublishedIsOwned | internal/catalog/catalog.go:258-279 | A published description parses to the publishing hostname if and only if the hostname is not empty, has no newline and no closing bracket after its first character |
| Reconcile.PublishedUnownedIff | internal/catalog/catalog.go:258-279 | A published entry reads as unowned, so that reconciliation may delete it once untracked, if and only if the publishing hostname has a newline with no closing bracket between its first character and there |
| Reconcile.Reconciler.FetchAll | internal/catalog/reconcile.go:58-69 | Paging terminates and collects every entry of a stable listing exactly once, for any non-empty page sizes |
| Reconcile.Reconciler.Sweep | internal/catalog/reconcile.go:74-126 | Only unowned entries are deleted, only with cleanup on, and all of them if no delete fails; the reported counts are those of the three kinds |
| Reconcile.CensusCounts | internal/catalog/reconcile.go:80-104 | Every entry is counted once: unowned are the untracked ones without a marker, another controller's the untracked ones with a marker for another host, and the rest is its own |
| Reconcile.Reconciler.Run | internal/catalog/reconcile.go:39-135 | With cleanup on and no failure exactly the untracked entries without a parseable marker are removed, none at all for an empty hostname; in every case tracked and marked entries stay as they are; without a failure the run is done exactly when enabled, and every unowned entry is deleted when cleanup is on |
| Reconcile.ListedUnowned | internal/catalog/reconcile.go:74-104 | On a complete listing the entries that may be deleted are exactly the untracked, unmarked ones of the catalog |
| MatchPath.NormalizeTarget | internal/managed/matchpath.go:15-34 | The in-place loop rewrites exactly the bracketed segments to {id}; a target without any is returned as it is |
| MatchPath.NormalizedTargetOfPath | internal/managed/matchpath.go:15-34 | On a rooted target each segment is rewritten on its own and nothing else changes |
| MatchPath.NormalizedTargetIdempotent | internal/managed/matchpath.go:15-34 | Normalizing a target twice is normalizing it once, for every string |
| MatchPath.TargetSegmentExact | internal/managed/matchpath.go:23-29 | A segment in braces around a non-empty name becomes {id} and every other segment stays |
| MatchPath.ComputeMatchPath | internal/managed/matchpath.go:37-69 | Equals joining, rooting and trimming, followed by a single pass that collapses runs of slashes |
| MatchPath.JoinParts | internal/managed/matchpath.go:38-52 | The joined parts are base path, context if passed through, and target |
| MatchPath.CleanDoubleSlashes | internal/managed/matchpath.go:64-66 | The replacement loop terminates and equals the one-pass collapse |
| MatchPath.ReplaceKeepsCollapse | internal/managed/matchpath.go:64-66 | One replacement pass shortens every string with a double slash and keeps its collapse |
| MatchPath.MatchPathShape | internal/managed/matchpath.go:37-79 | The result is rooted and has no double slash; for a slash-led target its non-empty segments are those of base path, then context if passed through, then target |
| MatchPath.MatchPathTrailingSlash | internal/managed/matchpath.go:59-66 | A trailing slash survives if and only if the uncleaned path is the root or ends in at least two slashes |
| MatchPath.TrailingSlashSurvives | internal/managed/matchpath.go:59-66 | The target /a// becomes /a/ |
| MatchPath.ProcessOperations | internal/managed/matchpath.go:173-195 | The loop skips operations without a verb and OPTIONS and HEAD, and normalizes the others |
| MatchPath.ProcessedInOrder | internal/managed/matchpath.go:173-195 | Exactly the operations with a verb other than OPTIONS and HEAD are processed, in order, each with its verb in upper case, its raw and its normalized target, and the match path of the normalized one |
| Normalize.NormalizePath | internal/discovery/normalize.go:29-74 | Exactly the dynamic segments become {id}; a path without any is returned as it is |
| Normalize.MatchesAny | internal/discovery/normalize.go:76-83 | True exactly when some pattern matches |
| Normalize.NormalizedOfPath | internal/discovery/normalize.go:29-74 | On a rooted path each segment is rewritten on its own and nothing else changes |
| Normalize.NormalSegmentExact | internal/discovery/normalize.go:38-66 | An empty segment stays, one longer than 255 is a placeholder, and any other is one exactly when no exclude pattern but some builtin or user pattern matches it |
| Normalize.NormalizedTwice | internal/discovery/normalize.go:29-74 | Normalizing a rooted path again changes nothing |
| PathAgreement.MatchPathOfCanonical | internal/managed/matchpath.go:37-79 | On canonical inputs the match path is made of base, context if passed through, and rewritten target segments |
| PathAgreement.AgreementIff | internal/discovery/normalize.go:29-74 | A request made from a canonical target by replacing segments normalizes to the target's match path if and only if parameters are filled with dynamic segments and literals, base path and passed-through context are static |
| PathAgreement.ServesIff | internal/discovery/normalize.go:29-74 | A canonical request normalizes to the match path of a canonical target if and only if it has the right length, stands for base path and passed-through context with static segments, and fills the target |
| PathAgreement.ManagedIff | internal/comparison/matcher.go:29-61 | Among any managed operations made from canonical targets Match marks a request as managed if and only if it has the method of some operation and serves that operation's target |
| PathAgreement.ImportedInOrder | internal/managed/matchpath.go:173-195 | On canonical APIs the results come from the kept operations in order, with verb, raw target and the match path made of base, passed-through context and rewritten target segments |
| PathAgreement.ImportedManagedIff | internal/comparison/matcher.go:29-61 | From imported APIs to the match: a canonical request is managed if and only if some kept operation of some API has its method in upper case and a target that the request serves |
| PathAgreement.StaysManaged | internal/comparison/matcher.go:31-55 | Other operations beside the matching one do not make it unmanaged |
| PathAgreement.DocumentLoopIff | internal/specgen/specgen.go:365-383 | A canonical request path, normalized, written into a document and imported from it as a target, gives a match path equal to its normalized path if and only if its normalized segments have no bracketed literal but {id} |
| OASPath.ConvertToOASPath | internal/specgen/specgen.go:365-383 | The k-th placeholder is named after k; the parameters list names and positions of the placeholders |
| OASPath.ParamsDistinct | internal/specgen/specgen.go:365-383 | One parameter per placeholder, names pairwise distinct, each naming its own template segment, as section 4.7.9 (Path Item Object) of OpenAPI 3.0.3 asks |
| OASPath.RoundTripIff | internal/specgen/specgen.go:365-383 | NormalizeTarget undoes the conversion if and only if the path has one leading and no trailing slash and its only bracketed segments are {id} |
| OASPath.OasPathInjective | internal/specgen/specgen.go:365-383 | On such paths the conversion is injective |
| OASPath.TemplateEqualIff | internal/specgen/specgen.go:365-383 | Two paths share a template if and only if at every position they have the same literal, placeholders of the same number, or a placeholder and a literal that spells its parameter |
| OASPath.PlainTemplateEqualIff | internal/specgen/specgen.go:365-383 | When {id} is their only bracketed segment, if and only if they differ at most in slashes at their ends |
| OASPath.LiteralBracketsCollide | internal/specgen/specgen.go:365-383 | The paths /{id}/{id} and /{id}/{id2} share a template |
| OASPath.TrailingSlashCollides | internal/specgen/specgen.go:365-383 | Two different paths share a template when one has a trailing slash |
| OASPath.GroupByPath | internal/specgen/specgen.go:327-334 | One group per discovered path, with its template, parameters and operations in order |
| OASPath.BuildPaths | internal/specgen/specgen.go:336-362 | Whatever order the groups are visited in, every template is there and holds the complete item of a path with that template |
| OASPath.ItemExact | internal/specgen/specgen.go:336-362 | The item of a path holds under each lower-case method the last operation with it, the parameters exactly when the path has a placeholder, unless an operation is called that, and nothing else |
| OASPath.DropsNoneIff | internal/specgen/specgen.go:320-363 | No operation is dropped, in whatever order the groups are visited, if and only if no two discovered paths share a template in the sense of TemplateEqualIff and no two operations of one path have methods that differ in case only |
| OASPath.PlainDropsNoneIff | internal/specgen/specgen.go:320-363 | When {id} is the only bracketed segment: if and only if no two paths differ in slashes at their ends only, and the same about methods |
| OASPath.NoOperationDropped | internal/specgen/specgen.go:320-363 | On convertible paths: if and only if no two operations of one path have methods that differ in case only |
| NoiseFiltering.NewNoiseFilter | internal/discovery/filter.go:20-48 | The filter holds the configured sets, the domains in lower case |
| NoiseFiltering.ShouldFilter | internal/discovery/filter.go:62-97 | True exactly when an agent, a port, a domain without its port, an exact path or a case-insensitive path pattern excludes the signature |
| NoiseFiltering.FilterDomainExact | internal/discovery/filter.go:73-80 | The domain is compared in lower case without its port, except that a leading colon is kept |
| NoiseFiltering.Apply | internal/discovery/filter.go:51-60 | Exactly the signatures that are no noise, in their order |
| NoiseFiltering.SignalDescends | internal/discovery/filter.go:51-60 | Filtering keeps a descending list descending |
| Deduplication.Dedup | internal/discovery/dedup.go:13-47 | The loop over a map and a key order equals merging each signature into the record of its key in a list |
| Deduplication.RecordsAreGroups | internal/discovery/dedup.go:13-47 | One record per key that occurs, each the merge of exactly its group |
| Deduplication.RecordsPerOperation | internal/discovery/dedup.go:17-23 | Each signature has exactly one record with its method, normalized path, port and agent, and each record has such a signature |
| Deduplication.DedupKeepsHits | internal/discovery/dedup.go:26-27 | The sum of the hits is unchanged |
| Deduplication.MergedFields | internal/discovery/dedup.go:26-36 | A record has its group's total, all sample fields of one member, and everything else from the first member |
| Deduplication.RepresentativeIsMaxIff | internal/discovery/dedup.go:28-34 | The samples come from a member with the highest count if and only if the first such member comes first or has more hits than all before it together |
| Deduplication.RepresentativeNotMax | internal/discovery/dedup.go:28-34 | Counts 3, 2, 4: the samples of the first member stay |
| Deduplication.DescendingRecords | internal/discovery/dedup.go:13-47 | On input in descending order of hits each record is its group's first member, which has the highest count, with the group's total |
| DiscoveryPhase.DescendingDedup | internal/discovery/discovery.go:60-90 | When the query returns its rows in descending order, as it asks for, this holds after dropping rows, filtering noise, normalizing and merging |
| Deduplication.FirstSeenOrder | internal/discovery/dedup.go:38-46 | Records come in the order in which their keys were first seen |
| Enrichment.MatchRow | internal/discovery/enrichment.go:226-250 | The first signature with the row's URL and method whose time is missing or within half a second, or -1 |
| Enrichment.RowMatchesIff | internal/discovery/enrichment.go:226-250 | A row belongs to a signature with its URL and method whose time, when both are known, is at most 500 milliseconds away, or lies more than the longest duration before it, where the negation overflows |
| Enrichment.Attach | internal/discovery/enrichment.go:151-222 | The records after all rows of one observation point were attached in order |
| Enrichment.Complete | internal/discovery/enrichment.go:157-220 | One row: a server-side row replaces the place and fills an unknown domain, the rows of the network and the caller fill what is unknown |
| Enrichment.AttachKeeps | internal/discovery/enrichment.go:151-222 | Attaching changes neither hits nor identity of a record, and nothing known of its domain, network and caller |
| Enrichment.AttachPlaces | internal/discovery/enrichment.go:151-171 | The last server-side row of a record places it |
| Enrichment.AttachFills | internal/discovery/enrichment.go:151-222 | Each unknown field of domain, network and caller takes the first value that a row of the record offers, and keeps it |
| Enrichment.AttachNothing | internal/discovery/enrichment.go:151-222 | A record without rows is left as it was |
| Enrichment.FusedKnows | internal/discovery/enrichment.go:68-90 | After all three observation points a record still has its signature, and the domain it started with if it had one |
| Enrichment.FusedFields | internal/discovery/enrichment.go:68-90 | In the enriched record every field that the signature did not know has the first value offered by a row of the three replies, and the place is that of the last server-side row |
| Enrichment.Derive | internal/discovery/enrichment.go:93-99 | Ranging over the map in any order gives every record once with its derived fields and keeps the sum of the hits |
| Enrichment.Enrich | internal/discovery/enrichment.go:15-102 | One record per signature, in some order, with the hits untouched |
| DiscoveredRepository.DiscoveredRepo.UpsertOne | internal/store/discovered_repo.go:50-125 | A new row, or the hits added to the existing one and the columns of the conflict branch replaced, those of the network and the caller only by values that are not empty; a failed statement changes nothing |
| DiscoveredRepository.StoreExact | internal/store/discovered_repo.go:51-98 | By service, method and path: a new row is first and last seen now; a known one keeps its first sight, is last seen now, adds the hits, and takes exactly the columns of the conflict branch |
| DiscoveredRepository.LastSeenAfterBatch | internal/store/discovered_repo.go:25-48 | After a batch a row is last seen when its last stored record was written, and a row known before keeps its first sight |
| DiscoveredRepository.StoreKeeps | internal/store/discovered_repo.go:81-98 | Every row stays under the key of its own columns, no row goes, and a known host address is not lost |
| DiscoveredRepository.DiscoveredRepo.BatchUpsert | internal/store/discovered_repo.go:25-48 | Failed records are skipped, the others stored in order, and the two counts are right |
| DiscoveredRepository.StoreTotal | internal/store/discovered_repo.go:81-83 | Storing a record adds exactly its hits to the table's total, also when it merges onto a row |
| DiscoveredRepository.BatchTotal | internal/store/discovered_repo.go:25-48 | A batch adds the hits of all its records except the lost ones, also when records share a row |
| PipelineStates.PipelineStateRepo.Get | internal/store/pipeline_state_repo.go:26-41 | Without a failure the stored state, or none before the first run |
| PipelineStates.PipelineStateRepo.Advance | internal/store/pipeline_state_repo.go:44-58 | The watermark becomes the end, cut to microseconds, and the hits are added; a failed statement changes nothing |
| DiscoveryPhase.Phase.CalculateWindow | internal/discovery/discovery.go:130-152 | From the watermark, or one poll interval before the end on the first run, to now less the safety lag |
| DiscoveryPhase.QuerySignatures | internal/discovery/discovery.go:154-206 | The rows of the window cut to whole seconds, without those lacking a method, a path or hits |
| DiscoveryPhase.SignaturesExact | internal/discovery/discovery.go:188-206 | A row is used exactly when it has a method, a path and hits |
| DiscoveryPhase.NormalizeAll | internal/discovery/discovery.go:81-87 | Every signature gets its normalized path and keeps its original as the sample |
| DiscoveryPhase.PreparedHits | internal/discovery/discovery.go:72-90 | Normalizing and merging keep the sum of the hits |
| DiscoveryPhase.Phase.Process | internal/discovery/discovery.go:81-121 | The stored batch is that of the merged, enriched signatures; the table gains the kept hits less the lost ones; the state advances by the kept hits if the statement succeeds |
| DiscoveryPhase.Phase.RunWindow | internal/discovery/discovery.go:60-127 | Which outcome a non-empty window has, exactly, and what it does to the table and the state |
| DiscoveryPhase.OutcomeMeans | internal/discovery/discovery.go:60-79 | A window fails with its query, is stored exactly when some row with a method, a path and hits is no noise, and is quiet otherwise |
| DiscoveryPhase.Phase.Run | internal/discovery/discovery.go:46-128 | One cycle: the history grows by the cycle that happened, and table and stored state are those of the history, whatever failed and whatever the clock says; a cycle stops early, keeps its watermark or loses a record only when a statement or query failed |
| DiscoveryPhase.TableMatchesTotal | internal/discovery/discovery.go:103-121 | Over every run without failed upserts or watermark statements the hits in the table add up to records_processed |
| DiscoveryPhase.TableBalance | internal/discovery/discovery.go:103-121 | With failures the two differ exactly by the hits of failed upserts and of batches whose watermark statement failed |
| DiscoveryHistory.WatermarkNeverDecreases | internal/store/pipeline_state_repo.go:44-53 | Over every run, with failed queries, idle cycles and clocks moving backwards, the watermark never decreases |
| DiscoveryHistory.WindowsTile | internal/discovery/discovery.go:130-176 | Over every run each second from the first start to the watermark was queried by exactly one window that advanced it, and no other second by any |
| DiscoveryHistory.SameSecond | internal/store/pipeline_state_repo.go:44-53 | The cut to microseconds moves no time to another second |
| DiscoveryHistory.HitsBalance | internal/discovery/discovery.go:103-121 | Over every run stored plus dropped hits equal processed plus repeated hits |
| Circuit.CircuitBreaker.ShouldAttempt | internal/engine/circuit.go:45-58 | True exactly when closed, or open for longer than the backoff, which then becomes half-open |
| Circuit.CircuitBreaker.RecordSuccess | internal/engine/circuit.go:61-74 | Closed, without failures or backoff |
| Circuit.CircuitBreaker.RecordFailure | internal/engine/circuit.go:77-100 | One more failure; from the threshold on open with the capped exponential backoff |
| Circuit.SettledAfter | internal/engine/circuit.go:45-100 | Over every sequence of cycles with a positive threshold: never half-open between cycles, closed exactly below the threshold, and while open the backoff is the smaller of the cap and one minute times three to the failures above the threshold, at most 20 |
| Circuit.SettledIff | internal/engine/circuit.go:34-42 | That holds over all sequences if and only if the threshold is positive |
| Circuit.FailuresAreStreak | internal/engine/circuit.go:61-83 | The failure count is the number of failed attempts since the last success |
| Circuit.AttemptsSeparated | internal/engine/circuit.go:52-56 | After f failures in a row, f at least the threshold, the next attempt comes more than the backoff for f later |
| Circuit.AttemptIff | internal/engine/circuit.go:45-58 | The first cycle attempts; after that one does if and only if the last attempt succeeded, or the failures in a row are below the threshold, or more than their backoff has passed since the last one ended |
| Circuit.BackoffGrows | internal/engine/circuit.go:84-93 | A further failure never shortens the backoff, which never exceeds the cap and so fits 64 bits when the cap does |
| Circuit.BackoffNeverShrinks | internal/engine/circuit.go:77-100 | Over a run without a success the backoff never shrinks |
| Engine.EngineBackoffs | internal/engine/engine.go:55-57 | With the engine's settings the backoffs are 1, 3, 9 and 27 minutes and then 30 |
| Engine.Engine.SyncManaged | internal/engine/engine.go:106-118 | The sync runs when due and its breaker attempts; only a success moves its two timers |
| Engine.Engine.Phase2Fresh | internal/engine/engine.go:121-125 | Fresh when the last success is less than three intervals old; an interval of zero counts as ten minutes |
| Engine.Engine.KeepHouse | internal/engine/engine.go:154-173 | Cleanup and reconciliation run at most once a day, the latter only after a successful sync |
| Engine.Engine.RunPhases | internal/engine/engine.go:94-151 | The phases 1 to 5 that run, in order, and what they do to breakers and timers |
| Engine.Engine.RunCycle | internal/engine/engine.go:89-181 | One cycle: the phases that run, in order, and the whole new state of breakers, timers and flag |
| Engine.EngineSound | internal/engine/engine.go:89-181 | After every prefix of every run all three breakers are settled, and the flag for the first full cycle is set exactly when a managed sync has succeeded |
| Engine.FlagHonestIff | internal/engine/engine.go:94-156 | Over any run each of the five phases has run whenever the flag is set, if and only if the first successful sync, if any, happens with the other four phases on and the comparison of its cycle reads the clock within three intervals of it |
| Engine.HonestConfigIff | internal/engine/engine.go:94-156 | The flag keeps that promise over every run whose syncs are followed in time by the comparison check if and only if the managed sync is off or all five phases are on |
| Engine.FlagWithoutComparison | internal/engine/engine.go:153-156 | A first cycle whose sync succeeds sets the flag although no comparison ever ran, when the comparison is off or looks too late |
| Engine.RanIfOn | internal/engine/engine.go:94-151 | A phase that is off never runs, and the first cycle runs discovery, spec generation and catalog push exactly when they are on |
| Engine.GuardedRunIff | internal/engine/engine.go:94-151 | Over any run discovery and the catalog push run exactly when on and attempted by their breaker, which sees every cycle; the sync exactly when due and attempted by its breaker, which sees the due cycles; spec generation exactly when on |
| Engine.PhasesInOrder | internal/engine/engine.go:94-173 | The phases of a cycle run in their order, each at most once |
| Engine.SyncsSeparated | internal/engine/engine.go:107-118 | After a successful sync the next is not attempted before the poll interval has passed |
| Engine.ComparisonIffFresh | internal/engine/engine.go:120-131 | A comparison runs if and only if it is switched on and the last successful sync is less than three intervals old |
| Engine.IntervalsOf | internal/engine/engine.go:120-124 | Without a readable poll interval both intervals are ten minutes; zero counts as none for freshness only |
| Engine.ReconciliationsSeparated | internal/engine/engine.go:164-173 | Two reconciliations lie a day apart, and some sync succeeded before the first |
| Engine.ReconcileIff | internal/engine/engine.go:164-173 | Reconciliation runs if and only if it is on, some sync has succeeded, and the last one before ended 24 hours ago or more |
| Engine.CleanupIff | internal/engine/engine.go:158-162 | The cleanup runs in the first cycle, and later if and only if the last one ended 24 hours ago or more |

## Left out

- HTTP transport, authentication, multipart bodies, retries and the query language of the traffic store: only
  abstract replies and contracts remain.
- Connection pooling, transactions and concurrency between processes: statements run one after the other.
- Retention cleanup of discovered rows, and with it the foreign keys it relies on; purging inactive unmanaged
  rows is a step of the lifecycle runs. Accounting assumes that no discovered row is purged.
- 64-bit wrap-around of hit counts and of three times the sync interval: sums are unbounded integers.
- Circuit.BackoffGrows: the source computes the backoff in floating point, which is exact for caps up to 2^53
  nanoseconds (104 days); rounding of larger caps is not modelled. The engine's cap is 30 minutes.
- Unicode case mapping: lower and upper case are those of ASCII letters.
- Regular expressions: a configured pattern is an arbitrary predicate on a segment; only the ownership marker is
  modelled, as a scan.
- Enrichment.Derive: service key, service type and traffic origin are one arbitrary function of the record. The
  agent name, which nothing sets, is not a column here.
- DiscoveryPhase.QuerySignatures: the order and the number of the rows are the traffic store's, not the code's;
  DiscoveryPhase.DescendingDedup takes the order as its hypothesis, and a row limit may cut any answer.
- Document content beyond paths, parameters, parent name and server URL; a document that fails to assemble,
  validate or marshal is a missing one.
- Loading managed operations and endpoints from the database; they are input lists here.
- ServiceCatalog.Catalog.ListServices: entries that others add or remove while reconciliation pages are not
  modelled.
- Configuration loading, defaults and validation, logging, the health server and deployment.
