/** internal/engine/engine.go: one pipeline cycle, its breakers and its timers. */
module Engine {
  import opened Durations
  import opened Model
  import opened Circuit

  const THRESHOLD: int := 3
  const MAX_BACKOFF: int := 30 * MINUTE

  datatype PhaseName = Discovery | Managed | Comparison | SpecGen | Catalog | Reconciliation

  /** Which phases exist and are switched on; managedInterval is the parsed poll interval of the sync. */
  datatype Config = Config(discovery: bool, managed: bool, comparison: bool, specGen: bool, catalog: bool,
                           reconciliation: bool, managedInterval: Option<int>)

  /** The readings of the clock in one cycle, in the order in which they are taken. */
  datatype Clock = Clock(discoveryAt: int, discoveryDone: int, intervalAt: int, managedAt: int, managedDone: int,
                         managedRun: int, managedSuccess: int, freshAt: int, catalogAt: int, catalogDone: int,
                         cleanupAt: int, cleanupDone: int, reconcileAt: int, reconcileDone: int)

  /** Which of the phases that a breaker guards return without an error. */
  datatype Replies = Replies(discovery: bool, managed: bool, catalog: bool)

  /** The fields of the engine that change; a zero time is none. */
  datatype State = State(discovery: Breaker, managed: Breaker, catalog: Breaker, managedRun: Option<int>,
                         managedSuccess: Option<int>, cleanupRun: Option<int>, reconcileRun: Option<int>, firstFullCycle: bool)

  function DiscoveryTick(clock: Clock, replies: Replies): Tick {
    Tick(clock.discoveryAt, replies.discovery, clock.discoveryDone)
  }

  function ManagedTick(clock: Clock, replies: Replies): Tick {
    Tick(clock.managedAt, replies.managed, clock.managedDone)
  }

  function CatalogTick(clock: Clock, replies: Replies): Tick {
    Tick(clock.catalogAt, replies.catalog, clock.catalogDone)
  }

  function ScheduleInterval(cfg: Config): int {
    if cfg.managedInterval.Some? then cfg.managedInterval.value else 10 * MINUTE
  }

  /** For freshness an interval of zero counts as ten minutes too. */
  function FreshInterval(cfg: Config): int {
    if cfg.managedInterval.Some? && cfg.managedInterval.value != 0 then cfg.managedInterval.value else 10 * MINUTE
  }

  predicate ManagedDue(cfg: Config, s: State, clock: Clock) {
    cfg.managed && (s.managedRun.None? || Since(clock.intervalAt, s.managedRun.value) >= ScheduleInterval(cfg))
  }

  predicate ManagedRuns(cfg: Config, s: State, clock: Clock) {
    ManagedDue(cfg, s, clock) && Attempts(s.managed, clock.managedAt)
  }

  predicate ManagedSucceeds(cfg: Config, s: State, clock: Clock, replies: Replies) {
    ManagedRuns(cfg, s, clock) && replies.managed
  }

  function SuccessAfter(cfg: Config, s: State, clock: Clock, replies: Replies): Option<int> {
    if ManagedSucceeds(cfg, s, clock, replies) then Some(clock.managedSuccess) else s.managedSuccess
  }

  predicate ComparisonRuns(cfg: Config, s: State, clock: Clock, replies: Replies) {
    var success := SuccessAfter(cfg, s, clock, replies);
    cfg.comparison && success.Some? && Since(clock.freshAt, success.value) < 3 * FreshInterval(cfg)
  }

  predicate CleanupDue(last: Option<int>, clock: Clock) {
    last.None? || Since(clock.cleanupAt, last.value) >= DAY
  }

  predicate ReconciliationDue(last: Option<int>, clock: Clock) {
    last.None? || Since(clock.reconcileAt, last.value) >= DAY
  }

  predicate ReconciliationRuns(cfg: Config, s: State, clock: Clock, replies: Replies) {
    && cfg.reconciliation
    && (s.firstFullCycle || s.managedRun.Some? || ManagedSucceeds(cfg, s, clock, replies))
    && ReconciliationDue(s.reconcileRun, clock)
  }

  /** A breaker after a cycle that reaches its phase, or does not. */
  function GuardedStep(b: Breaker, reached: bool, t: Tick): Breaker {
    if reached then Ticked(b, THRESHOLD, MAX_BACKOFF, t) else b
  }

  function CycleStep(cfg: Config, s: State, clock: Clock, replies: Replies): State {
    State(
      GuardedStep(s.discovery, cfg.discovery, DiscoveryTick(clock, replies)),
      GuardedStep(s.managed, ManagedDue(cfg, s, clock), ManagedTick(clock, replies)),
      GuardedStep(s.catalog, cfg.catalog, CatalogTick(clock, replies)),
      if ManagedSucceeds(cfg, s, clock, replies) then Some(clock.managedRun) else s.managedRun,
      SuccessAfter(cfg, s, clock, replies),
      if CleanupDue(s.cleanupRun, clock) then Some(clock.cleanupDone) else s.cleanupRun,
      if ReconciliationRuns(cfg, s, clock, replies) then Some(clock.reconcileDone) else s.reconcileRun,
      s.firstFullCycle || s.managedRun.Some? || ManagedSucceeds(cfg, s, clock, replies))
  }

  function Append(phases: seq<PhaseName>, ran: bool, phase: PhaseName): seq<PhaseName> {
    if ran then phases + [phase] else phases
  }

  function FirstFive(cfg: Config, s: State, clock: Clock, replies: Replies): seq<PhaseName> {
    Append(Append(Append(Append(Append([], cfg.discovery && Attempts(s.discovery, clock.discoveryAt), Discovery),
                                ManagedRuns(cfg, s, clock), Managed),
                         ComparisonRuns(cfg, s, clock, replies), Comparison),
                  cfg.specGen, SpecGen),
           cfg.catalog && Attempts(s.catalog, clock.catalogAt), Catalog)
  }

  lemma FirstFiveIs(cfg: Config, s: State, clock: Clock, replies: Replies, success: Option<int>)
    ensures success == SuccessAfter(cfg, s, clock, replies) ==>
      FirstFive(cfg, s, clock, replies) ==
      Append(Append(Append(Append(Append([], cfg.discovery && Attempts(s.discovery, clock.discoveryAt), Discovery),
                                  ManagedRuns(cfg, s, clock), Managed),
                           cfg.comparison && success.Some? && Since(clock.freshAt, success.value) < 3 * FreshInterval(cfg), Comparison),
                    cfg.specGen, SpecGen),
             cfg.catalog && Attempts(s.catalog, clock.catalogAt), Catalog)
  {}

  function PhasesOf(cfg: Config, s: State, clock: Clock, replies: Replies): seq<PhaseName> {
    Append(FirstFive(cfg, s, clock, replies), ReconciliationRuns(cfg, s, clock, replies), Reconciliation)
  }

  function Started(): State {
    State(New(), New(), New(), None, None, None, None, false)
  }

  class Engine {
    const cfg: Config
    const discovery: CircuitBreaker
    const managed: CircuitBreaker
    const catalog: CircuitBreaker
    var managedRun: Option<int>
    var managedSuccess: Option<int>
    var cleanupRun: Option<int>
    var reconcileRun: Option<int>
    var firstFullCycle: bool

    /** The three breakers are distinct and made with the engine's settings. */
    predicate Valid()
      reads this
    {
      && discovery != managed && managed != catalog && discovery != catalog
      && discovery.threshold == managed.threshold == catalog.threshold == THRESHOLD
      && discovery.maxBackoff == managed.maxBackoff == catalog.maxBackoff == MAX_BACKOFF
    }

    function View(): State
      reads this, discovery, managed, catalog
    {
      State(discovery.View(), managed.View(), catalog.View(), managedRun, managedSuccess, cleanupRun, reconcileRun, firstFullCycle)
    }

    constructor (cfg: Config)
      ensures Valid() && View() == Started() && this.cfg == cfg
      ensures fresh(discovery) && fresh(managed) && fresh(catalog)
    {
      this.cfg := cfg;
      discovery := new CircuitBreaker(THRESHOLD, MAX_BACKOFF);
      managed := new CircuitBreaker(THRESHOLD, MAX_BACKOFF);
      catalog := new CircuitBreaker(THRESHOLD, MAX_BACKOFF);
      managedRun, managedSuccess, cleanupRun, reconcileRun := None, None, None, None;
      firstFullCycle := false;
    }

    /** Runs a phase under its breaker. */
    method Guarded(breaker: CircuitBreaker, at: int, ok: bool, done: int) returns (ran: bool)
      modifies breaker
      ensures ran <==> Attempts(old(breaker.View()), at)
      ensures breaker.View() == Ticked(old(breaker.View()), breaker.threshold, breaker.maxBackoff, Tick(at, ok, done))
    {
      ran := breaker.ShouldAttempt(at);
      if ran {
        if ok {
          breaker.RecordSuccess();
        } else {
          breaker.RecordFailure(done);
        }
      }
    }

    method ShouldRunManaged(now: int) returns (due: bool)
      ensures due <==> managedRun.None? || Since(now, managedRun.value) >= ScheduleInterval(cfg)
    {
      if managedRun.None? {
        return true;
      }
      return Since(now, managedRun.value) >= ScheduleInterval(cfg);
    }

    /** Phase 2, on its own interval and under its breaker. */
    method SyncManaged(clock: Clock, ok: bool) returns (ran: bool)
      requires Valid()
      modifies this`managedRun, this`managedSuccess, managed
      ensures ran <==> ManagedRuns(cfg, old(View()), clock)
      ensures managedRun == if ran && ok then Some(clock.managedRun) else old(managedRun)
      ensures managedSuccess == if ran && ok then Some(clock.managedSuccess) else old(managedSuccess)
      ensures managed.View() ==
        if ManagedDue(cfg, old(View()), clock)
        then Ticked(old(managed.View()), THRESHOLD, MAX_BACKOFF, Tick(clock.managedAt, ok, clock.managedDone))
        else old(managed.View())
    {
      hide Ticked, Attempts;
      ran := false;
      var due := false;
      if cfg.managed {
        due := ShouldRunManaged(clock.intervalAt);
      }
      if due {
        ran := Guarded(managed, clock.managedAt, ok, clock.managedDone);
        if ran && ok {
          managedRun := Some(clock.managedRun);
          managedSuccess := Some(clock.managedSuccess);
        }
      }
    }

    /** Cleanup and reconciliation, each at most once a day. */
    method KeepHouse(clock: Clock) returns (reconciled: bool)
      modifies this`firstFullCycle, this`cleanupRun, this`reconcileRun
      ensures firstFullCycle == (old(firstFullCycle) || managedRun.Some?)
      ensures cleanupRun == if CleanupDue(old(cleanupRun), clock) then Some(clock.cleanupDone) else old(cleanupRun)
      ensures reconciled <==> cfg.reconciliation && firstFullCycle && ReconciliationDue(old(reconcileRun), clock)
      ensures reconcileRun == if reconciled then Some(clock.reconcileDone) else old(reconcileRun)
    {
      reconciled := false;
      if !firstFullCycle && managedRun.Some? {
        firstFullCycle := true;
      }
      if cleanupRun.None? || Since(clock.cleanupAt, cleanupRun.value) >= DAY {
        cleanupRun := Some(clock.cleanupDone);
      }
      if cfg.reconciliation && firstFullCycle {
        if reconcileRun.None? || Since(clock.reconcileAt, reconcileRun.value) >= DAY {
          reconcileRun := Some(clock.reconcileDone);
          reconciled := true;
        }
      }
    }

    method Phase2Fresh(now: int) returns (isFresh: bool)
      ensures isFresh <==> managedSuccess.Some? && Since(now, managedSuccess.value) < 3 * FreshInterval(cfg)
    {
      var interval := if cfg.managedInterval.Some? then cfg.managedInterval.value else 0;
      if interval == 0 {
        interval := 10 * MINUTE;
      }
      isFresh := managedSuccess.Some? && Since(now, managedSuccess.value) < 3 * interval;
    }

    /** Phases 1 to 5. */
    method RunPhases(clock: Clock, replies: Replies) returns (phasesRun: seq<PhaseName>)
      requires Valid()
      modifies this`managedRun, this`managedSuccess, discovery, managed, catalog
      ensures discovery.View() == GuardedStep(old(discovery.View()), cfg.discovery, DiscoveryTick(clock, replies))
      ensures managed.View() ==
        GuardedStep(old(managed.View()), ManagedDue(cfg, old(View()), clock), ManagedTick(clock, replies))
      ensures catalog.View() == GuardedStep(old(catalog.View()), cfg.catalog, CatalogTick(clock, replies))
      ensures managedRun == if ManagedSucceeds(cfg, old(View()), clock, replies) then Some(clock.managedRun) else old(managedRun)
      ensures managedSuccess == SuccessAfter(cfg, old(View()), clock, replies)
      ensures phasesRun == FirstFive(cfg, old(View()), clock, replies)
    {
      hide Ticked, Attempts, New, Since, CircuitBreaker.View, Append, FreshInterval, ScheduleInterval, FirstFive, ComparisonRuns;
      ghost var before := View();
      phasesRun := [];
      var discovered := false;
      if cfg.discovery {
        discovered := Guarded(discovery, clock.discoveryAt, replies.discovery, clock.discoveryDone);
      }
      phasesRun := Append(phasesRun, discovered, Discovery);
      var synced := SyncManaged(clock, replies.managed);
      phasesRun := Append(phasesRun, synced, Managed);
      var phase2Fresh := Phase2Fresh(clock.freshAt);
      phasesRun := Append(phasesRun, cfg.comparison && phase2Fresh, Comparison);
      phasesRun := Append(phasesRun, cfg.specGen, SpecGen);
      var pushed := false;
      if cfg.catalog {
        pushed := Guarded(catalog, clock.catalogAt, replies.catalog, clock.catalogDone);
      }
      phasesRun := Append(phasesRun, pushed, Catalog);
      FirstFiveIs(cfg, before, clock, replies, managedSuccess);
    }

    method RunCycle(clock: Clock, replies: Replies) returns (phasesRun: seq<PhaseName>)
      requires Valid()
      modifies this, discovery, managed, catalog
      ensures Valid() && View() == CycleStep(cfg, old(View()), clock, replies)
      ensures phasesRun == PhasesOf(cfg, old(View()), clock, replies)
    {
      ghost var before := View();
      phasesRun := RunPhases(clock, replies);
      hide GuardedStep, Attempts, New, Since, CircuitBreaker.View, Append, FirstFive, SuccessAfter, ManagedDue, ManagedSucceeds,
           CleanupDue, ReconciliationDue;
      var reconciled := KeepHouse(clock);
      assert reconciled == ReconciliationRuns(cfg, before, clock, replies);
      phasesRun := Append(phasesRun, reconciled, Reconciliation);
    }
  }

  // ---------- Runs ----------

  datatype Cycle = Cycle(clock: Clock, replies: Replies)

  function StateAfter(cfg: Config, run: seq<Cycle>): State {
    if run == [] then Started()
    else CycleStep(cfg, StateAfter(cfg, run[..|run| - 1]), run[|run| - 1].clock, run[|run| - 1].replies)
  }

  /** The cycle at position i ran the phase. */
  predicate RanAt(cfg: Config, run: seq<Cycle>, i: nat, phase: PhaseName)
    requires i < |run|
  {
    phase in PhasesOf(cfg, StateAfter(cfg, run[..i]), run[i].clock, run[i].replies)
  }

  predicate SyncedAt(cfg: Config, run: seq<Cycle>, i: nat)
    requires i < |run|
  {
    RanAt(cfg, run, i, Managed) && run[i].replies.managed
  }

  lemma RanMeans(cfg: Config, run: seq<Cycle>, i: nat)
    requires i < |run|
    ensures var s := StateAfter(cfg, run[..i]);
      && (RanAt(cfg, run, i, Managed) <==> ManagedRuns(cfg, s, run[i].clock))
      && (SyncedAt(cfg, run, i) <==> ManagedSucceeds(cfg, s, run[i].clock, run[i].replies))
      && (RanAt(cfg, run, i, Comparison) <==> ComparisonRuns(cfg, s, run[i].clock, run[i].replies))
      && (RanAt(cfg, run, i, Reconciliation) <==> ReconciliationRuns(cfg, s, run[i].clock, run[i].replies))
  {
    hide StateAfter, Attempts, ManagedRuns, ComparisonRuns, ReconciliationRuns;
  }

  lemma StateSnoc(cfg: Config, run: seq<Cycle>, j: nat)
    requires j < |run|
    ensures StateAfter(cfg, run[..j + 1]) == CycleStep(cfg, StateAfter(cfg, run[..j]), run[j].clock, run[j].replies)
  {
    assert run[..j + 1][..j] == run[..j];
  }

  predicate Sound(s: State) {
    && Settled(s.discovery, THRESHOLD, MAX_BACKOFF)
    && Settled(s.managed, THRESHOLD, MAX_BACKOFF)
    && Settled(s.catalog, THRESHOLD, MAX_BACKOFF)
    && (s.managedRun.Some? <==> s.managedSuccess.Some?)
    && (s.firstFullCycle <==> s.managedRun.Some?)
  }

  lemma StepSound(cfg: Config, s: State, clock: Clock, replies: Replies)
    requires Sound(s)
    ensures Sound(CycleStep(cfg, s, clock, replies))
  {
    TickedSettled(s.discovery, THRESHOLD, MAX_BACKOFF, DiscoveryTick(clock, replies));
    TickedSettled(s.managed, THRESHOLD, MAX_BACKOFF, ManagedTick(clock, replies));
    TickedSettled(s.catalog, THRESHOLD, MAX_BACKOFF, CatalogTick(clock, replies));
    hide Ticked, Settled, Attempts;
  }

  /** After every prefix of a run each breaker is settled, and the flag for the first full cycle is set
      exactly when a managed sync has succeeded before. */
  lemma {:induction false} EngineSound(cfg: Config, run: seq<Cycle>, j: nat)
    requires j <= |run|
    ensures Sound(StateAfter(cfg, run[..j]))
    ensures StateAfter(cfg, run[..j]).firstFullCycle <==> exists i :: 0 <= i < j && SyncedAt(cfg, run, i)
    decreases j
  {
    if j > 0 {
      EngineSound(cfg, run, j - 1);
      StateSnoc(cfg, run, j - 1);
      StepSound(cfg, StateAfter(cfg, run[..j - 1]), run[j - 1].clock, run[j - 1].replies);
      RanMeans(cfg, run, j - 1);
      hide Ticked, Attempts, Settled, StateAfter, SyncedAt, RanAt;
    }
  }

  // ---------- The first full cycle ----------

  /** Whenever the flag is set, each of the five phases has run. */
  predicate FlagHonest(cfg: Config, run: seq<Cycle>) {
    forall j :: 0 <= j <= |run| && StateAfter(cfg, run[..j]).firstFullCycle ==> FiveRan(cfg, run, j)
  }

  predicate FiveRan(cfg: Config, run: seq<Cycle>, j: nat)
    requires j <= |run|
  {
    && RanBefore(cfg, run, j, Discovery) && RanBefore(cfg, run, j, Managed) && RanBefore(cfg, run, j, Comparison)
    && RanBefore(cfg, run, j, SpecGen) && RanBefore(cfg, run, j, Catalog)
  }

  predicate RanBefore(cfg: Config, run: seq<Cycle>, j: nat, phase: PhaseName)
    requires j <= |run|
  {
    exists i :: 0 <= i < j && RanAt(cfg, run, i, phase)
  }

  predicate FirstSync(cfg: Config, run: seq<Cycle>, i: nat)
    requires i < |run|
  {
    SyncedAt(cfg, run, i) && forall k :: 0 <= k < i ==> !SyncedAt(cfg, run, k)
  }

  /** The comparison of a cycle looks at the sync before it within three intervals. */
  predicate InTime(cfg: Config, clock: Clock) {
    Since(clock.freshAt, clock.managedSuccess) < 3 * FreshInterval(cfg)
  }

  predicate Prompt(cfg: Config, run: seq<Cycle>) {
    forall i :: 0 <= i < |run| && SyncedAt(cfg, run, i) ==> InTime(cfg, run[i].clock)
  }

  predicate OthersOn(cfg: Config) {
    cfg.discovery && cfg.comparison && cfg.specGen && cfg.catalog
  }

  lemma InPhases(cfg: Config, s: State, clock: Clock, replies: Replies)
    ensures var phases := PhasesOf(cfg, s, clock, replies);
      && (Discovery in phases <==> cfg.discovery && Attempts(s.discovery, clock.discoveryAt))
      && (Comparison in phases ==> cfg.comparison)
      && (SpecGen in phases <==> cfg.specGen)
      && (Catalog in phases <==> cfg.catalog && Attempts(s.catalog, clock.catalogAt))
  {
    forall phases, ran, phase, p
      ensures p in Append(phases, ran, phase) <==> p in phases || (ran && p == phase)
    {
    }
    hide Append, Attempts, ManagedRuns, ReconciliationRuns, Since;
  }

  function Rank(phase: PhaseName): nat {
    match phase
    case Discovery => 1
    case Managed => 2
    case Comparison => 3
    case SpecGen => 4
    case Catalog => 5
    case Reconciliation => 6
  }

  predicate Ranked(phases: seq<PhaseName>, top: nat) {
    && (forall i :: 0 <= i < |phases| ==> Rank(phases[i]) < top)
    && forall i, j :: 0 <= i < j < |phases| ==> Rank(phases[i]) < Rank(phases[j])
  }

  lemma RankedNext(phases: seq<PhaseName>, ran: bool, phase: PhaseName, top: nat)
    requires Ranked(phases, top) && top <= Rank(phase)
    ensures Ranked(Append(phases, ran, phase), Rank(phase) + 1)
  {
    hide Rank;
  }

  /** The phases of a cycle run in their order, each at most once. */
  lemma PhasesInOrder(cfg: Config, s: State, clock: Clock, replies: Replies)
    ensures Ranked(PhasesOf(cfg, s, clock, replies), 7)
  {
    hide Attempts, ManagedRuns, ComparisonRuns, ReconciliationRuns, Append, Ranked;
    assert Ranked([], 0) by { NoneRanked(); }
    var one := Append([], cfg.discovery && Attempts(s.discovery, clock.discoveryAt), Discovery);
    RankedNext([], cfg.discovery && Attempts(s.discovery, clock.discoveryAt), Discovery, 0);
    RankedNext(one, ManagedRuns(cfg, s, clock), Managed, 2);
    var two := Append(one, ManagedRuns(cfg, s, clock), Managed);
    RankedNext(two, ComparisonRuns(cfg, s, clock, replies), Comparison, 3);
    var three := Append(two, ComparisonRuns(cfg, s, clock, replies), Comparison);
    RankedNext(three, cfg.specGen, SpecGen, 4);
    var four := Append(three, cfg.specGen, SpecGen);
    RankedNext(four, cfg.catalog && Attempts(s.catalog, clock.catalogAt), Catalog, 5);
    RankedNext(FirstFive(cfg, s, clock, replies), ReconciliationRuns(cfg, s, clock, replies), Reconciliation, 6);
  }

  lemma NoneRanked()
    ensures Ranked([], 0)
  {}

  /** A phase that is off never runs; in the first cycle the phases other than the comparison run if on. */
  lemma RanIfOn(cfg: Config, run: seq<Cycle>, i: nat)
    requires i < |run|
    ensures RanAt(cfg, run, i, Discovery) ==> cfg.discovery
    ensures RanAt(cfg, run, i, Comparison) ==> cfg.comparison
    ensures RanAt(cfg, run, i, SpecGen) <==> cfg.specGen
    ensures RanAt(cfg, run, i, Catalog) ==> cfg.catalog
    ensures i == 0 ==> (RanAt(cfg, run, i, Discovery) <==> cfg.discovery) && (RanAt(cfg, run, i, Catalog) <==> cfg.catalog)
  {
    var s := StateAfter(cfg, run[..i]);
    InPhases(cfg, s, run[i].clock, run[i].replies);
    assert i == 0 ==> s == Started();
    hide StateAfter, PhasesOf;
  }

  /** Up to the first sync the comparison runs only beside that sync, if it is on and looks in time. */
  lemma ComparisonAtFirstSync(cfg: Config, run: seq<Cycle>, i: nat, k: nat)
    requires k <= i < |run| && FirstSync(cfg, run, i)
    ensures RanAt(cfg, run, k, Comparison) <==> k == i && cfg.comparison && InTime(cfg, run[i].clock)
  {
    EngineSound(cfg, run, k);
    RanMeans(cfg, run, k);
    hide StateAfter, RanAt, Settled, ManagedSucceeds, SyncedAt;
  }

  /** Once the flag is set a first sync lies behind. */
  lemma FlagFromFirstSync(cfg: Config, run: seq<Cycle>, j: nat) returns (i: nat)
    requires j <= |run| && StateAfter(cfg, run[..j]).firstFullCycle
    ensures i < j && FirstSync(cfg, run, i)
  {
    EngineSound(cfg, run, j);
    hide StateAfter, SyncedAt, Sound;
    i := SomeFirstSync(cfg, run, j);
  }

  lemma {:induction false} SomeFirstSync(cfg: Config, run: seq<Cycle>, j: nat) returns (i: nat)
    requires j <= |run| && exists k :: 0 <= k < j && SyncedAt(cfg, run, k)
    ensures i < j && FirstSync(cfg, run, i)
    decreases j
  {
    hide SyncedAt;
    if exists k :: 0 <= k < j - 1 && SyncedAt(cfg, run, k) {
      i := SomeFirstSync(cfg, run, j - 1);
    } else {
      i := j - 1;
    }
  }

  /** Whether all five phases have run by the end of the first sync's cycle. */
  lemma FiveRanIff(cfg: Config, run: seq<Cycle>, i: nat)
    requires i < |run| && FirstSync(cfg, run, i)
    ensures FiveRan(cfg, run, i + 1) <==> OthersOn(cfg) && InTime(cfg, run[i].clock)
  {
    hide StateAfter, RanAt;
    RanIfOn(cfg, run, 0);
    forall k | 0 <= k < i + 1
      ensures RanAt(cfg, run, k, Discovery) ==> cfg.discovery
      ensures RanAt(cfg, run, k, SpecGen) <==> cfg.specGen
      ensures RanAt(cfg, run, k, Catalog) ==> cfg.catalog
      ensures RanAt(cfg, run, k, Comparison) <==> k == i && cfg.comparison && InTime(cfg, run[i].clock)
    {
      RanIfOn(cfg, run, k);
      ComparisonAtFirstSync(cfg, run, i, k);
    }
    if OthersOn(cfg) && InTime(cfg, run[i].clock) {
      assert RanAt(cfg, run, i, Managed) && RanAt(cfg, run, i, Comparison);
      assert RanAt(cfg, run, 0, Discovery) && RanAt(cfg, run, 0, SpecGen) && RanAt(cfg, run, 0, Catalog);
      assert FiveRan(cfg, run, i + 1);
    }
    if FiveRan(cfg, run, i + 1) {
      assert RanBefore(cfg, run, i + 1, Comparison);
    }
  }

  /** When the flag is honest over a run: the first successful sync, if there is any, finds the other
      four phases on and the comparison of its cycle in time. */
  lemma FlagHonestIff(cfg: Config, run: seq<Cycle>)
    ensures FlagHonest(cfg, run) <==>
      forall i :: 0 <= i < |run| && FirstSync(cfg, run, i) ==> OthersOn(cfg) && InTime(cfg, run[i].clock)
  {
    hide StateAfter, RanAt, SyncedAt, InTime, FirstSync, OthersOn, FiveRan;
    if FlagHonest(cfg, run) {
      forall i | 0 <= i < |run| && FirstSync(cfg, run, i)
        ensures OthersOn(cfg) && InTime(cfg, run[i].clock)
      {
        SetAfterSync(cfg, run, i);
        FiveRanIff(cfg, run, i);
      }
    }
    if forall i :: 0 <= i < |run| && FirstSync(cfg, run, i) ==> OthersOn(cfg) && InTime(cfg, run[i].clock) {
      forall j | 0 <= j <= |run| && StateAfter(cfg, run[..j]).firstFullCycle
        ensures FiveRan(cfg, run, j)
      {
        var i := FlagFromFirstSync(cfg, run, j);
        FiveRanIff(cfg, run, i);
        FiveRanLater(cfg, run, i + 1, j);
      }
    }
  }

  lemma SetAfterSync(cfg: Config, run: seq<Cycle>, i: nat)
    requires i < |run| && FirstSync(cfg, run, i)
    ensures StateAfter(cfg, run[..i + 1]).firstFullCycle
  {
    EngineSound(cfg, run, i + 1);
    hide StateAfter, SyncedAt, Sound;
  }

  lemma FiveRanLater(cfg: Config, run: seq<Cycle>, i: nat, j: nat)
    requires i <= j <= |run| && FiveRan(cfg, run, i)
    ensures FiveRan(cfg, run, j)
  {
    hide RanAt;
  }

  /** One cycle whose sync succeeds sets the flag; its comparison has not run when it is off or too late. */
  lemma FlagWithoutComparison(cfg: Config, clock: Clock, replies: Replies)
    requires cfg.managed && replies.managed && (!cfg.comparison || !InTime(cfg, clock))
    ensures StateAfter(cfg, [Cycle(clock, replies)]).firstFullCycle
    ensures !RanAt(cfg, [Cycle(clock, replies)], 0, Comparison)
    ensures !FlagHonest(cfg, [Cycle(clock, replies)])
  {
    var run := [Cycle(clock, replies)];
    SyncsAtOnce(cfg, clock, replies);
    assert run[..1] == run;
    hide *;
    SetAfterSync(cfg, run, 0);
    ComparisonAtFirstSync(cfg, run, 0, 0);
    FlagHonestIff(cfg, run);
    OthersNeedComparison(cfg);
  }

  lemma OthersNeedComparison(cfg: Config)
    ensures OthersOn(cfg) ==> cfg.comparison
  {}

  lemma SyncsAtOnce(cfg: Config, clock: Clock, replies: Replies)
    requires cfg.managed && replies.managed
    ensures FirstSync(cfg, [Cycle(clock, replies)], 0)
  {
    var run := [Cycle(clock, replies)];
    assert run[..0] == [];
    RanMeans(cfg, run, 0);
  }

  lemma NeverSyncs(cfg: Config, run: seq<Cycle>)
    requires !cfg.managed
    ensures forall i :: 0 <= i < |run| ==> !SyncedAt(cfg, run, i)
  {
    hide StateAfter, SyncedAt, RanAt;
    forall i | 0 <= i < |run|
      ensures !SyncedAt(cfg, run, i)
    {
      RanMeans(cfg, run, i);
    }
  }

  /** Which configurations keep the flag honest over every run whose comparisons look in time: those
      without a managed sync, and those with all five phases on. */
  lemma HonestConfigIff(cfg: Config)
    requires 3 * FreshInterval(cfg) > MIN_DURATION
    ensures (forall run: seq<Cycle> :: Prompt(cfg, run) ==> FlagHonest(cfg, run)) <==> !cfg.managed || OthersOn(cfg)
  {
    hide StateAfter, SyncedAt, FlagHonest, OthersOn, FreshInterval, InTime;
    if !cfg.managed || OthersOn(cfg) {
      forall run: seq<Cycle> | Prompt(cfg, run)
        ensures FlagHonest(cfg, run)
      {
        FlagHonestIff(cfg, run);
        if !cfg.managed {
          NeverSyncs(cfg, run);
        }
      }
    } else {
      var clock := PromptClock(cfg);
      var run := [Cycle(clock, Replies(true, true, true))];
      SyncsAtOnce(cfg, clock, Replies(true, true, true));
      FlagHonestIff(cfg, run);
      assert Prompt(cfg, run);
    }
  }

  lemma PromptClock(cfg: Config) returns (clock: Clock)
    requires 3 * FreshInterval(cfg) > MIN_DURATION
    ensures InTime(cfg, clock)
  {
    clock := Clock(0, 0, 0, 0, 0, 0, 0, MIN_DURATION, 0, 0, 0, 0, 0, 0);
  }

  // ---------- Timers ----------

  lemma {:induction false} SyncTime(cfg: Config, run: seq<Cycle>, i: nat, j: nat)
    requires i < j <= |run| && SyncedAt(cfg, run, i) && forall k :: i < k < j ==> !SyncedAt(cfg, run, k)
    ensures StateAfter(cfg, run[..j]).managedRun == Some(run[i].clock.managedRun)
    ensures StateAfter(cfg, run[..j]).managedSuccess == Some(run[i].clock.managedSuccess)
    decreases j
  {
    hide *;
    SyncStep(cfg, run, j - 1);
    if i + 1 < j {
      SyncTime(cfg, run, i, j - 1);
      assert !SyncedAt(cfg, run, j - 1);
    }
  }

  lemma SyncStep(cfg: Config, run: seq<Cycle>, j: nat)
    requires j < |run|
    ensures var before, after := StateAfter(cfg, run[..j]), StateAfter(cfg, run[..j + 1]);
      && after.managedRun == (if SyncedAt(cfg, run, j) then Some(run[j].clock.managedRun) else before.managedRun)
      && after.managedSuccess == (if SyncedAt(cfg, run, j) then Some(run[j].clock.managedSuccess) else before.managedSuccess)
  {
    StateSnoc(cfg, run, j);
    RanMeans(cfg, run, j);
    hide GuardedStep, Attempts, StateAfter, SyncedAt, RanAt, ReconciliationRuns, ManagedSucceeds, CleanupDue;
  }

  /** After a successful sync the next one is not attempted before the poll interval has passed. */
  lemma SyncsSeparated(cfg: Config, run: seq<Cycle>, i: nat, j: nat)
    requires i < j < |run| && SyncedAt(cfg, run, i) && (forall k :: i < k < j ==> !SyncedAt(cfg, run, k))
    requires RanAt(cfg, run, j, Managed) && 0 <= ScheduleInterval(cfg) <= MAX_DURATION
    ensures run[j].clock.intervalAt - run[i].clock.managedRun >= ScheduleInterval(cfg)
  {
    SyncTime(cfg, run, i, j);
    RanMeans(cfg, run, j);
    hide Attempts, StateAfter, SyncedAt, RanAt;
  }

  // ---------- When each guarded phase runs ----------

  /** The sync is on, and no successful one before position j is more recent than the poll interval. */
  predicate SyncDueAt(cfg: Config, run: seq<Cycle>, j: nat)
    requires j < |run|
  {
    cfg.managed && forall i :: 0 <= i < j && LastSyncBefore(cfg, run, i, j) ==>
      run[j].clock.intervalAt - run[i].clock.managedRun >= ScheduleInterval(cfg)
  }

  predicate LastSyncBefore(cfg: Config, run: seq<Cycle>, i: nat, j: nat)
    requires i < j <= |run|
  {
    SyncedAt(cfg, run, i) && forall k :: i < k < j ==> !SyncedAt(cfg, run, k)
  }

  /** What the breaker of the sync sees: the cycles in which the sync is due. */
  function DueTicks(cfg: Config, run: seq<Cycle>, j: nat): seq<Tick>
    requires j <= |run|
  {
    if j == 0 then []
    else DueTicks(cfg, run, j - 1) + (if SyncDueAt(cfg, run, j - 1) then [ManagedTick(run[j - 1].clock, run[j - 1].replies)] else [])
  }

  /** What the breakers of discovery and of the catalog push see: every cycle. */
  function DiscoveryTicks(run: seq<Cycle>, j: nat): (ticks: seq<Tick>)
    requires j <= |run|
    ensures |ticks| == j
  {
    if j == 0 then [] else DiscoveryTicks(run, j - 1) + [DiscoveryTick(run[j - 1].clock, run[j - 1].replies)]
  }

  function CatalogTicks(run: seq<Cycle>, j: nat): (ticks: seq<Tick>)
    requires j <= |run|
    ensures |ticks| == j
  {
    if j == 0 then [] else CatalogTicks(run, j - 1) + [CatalogTick(run[j - 1].clock, run[j - 1].replies)]
  }

  lemma DueIff(cfg: Config, run: seq<Cycle>, j: nat)
    requires j < |run| && 0 <= ScheduleInterval(cfg) <= MAX_DURATION
    ensures ManagedDue(cfg, StateAfter(cfg, run[..j]), run[j].clock) <==> SyncDueAt(cfg, run, j)
  {
    EngineSound(cfg, run, j);
    hide StateAfter, SyncedAt, RanAt, Settled;
    if exists k :: 0 <= k < j && SyncedAt(cfg, run, k) {
      var i := LastSync(cfg, run, j);
      SyncTime(cfg, run, i, j);
      assert forall k :: 0 <= k < j && LastSyncBefore(cfg, run, k, j) ==> k == i;
      assert LastSyncBefore(cfg, run, i, j);
    }
  }

  lemma AfterSnoc(ticks: seq<Tick>, t: Tick)
    ensures After(ticks + [t], THRESHOLD, MAX_BACKOFF) == Ticked(After(ticks, THRESHOLD, MAX_BACKOFF), THRESHOLD, MAX_BACKOFF, t)
  {
    assert (ticks + [t])[..|ticks|] == ticks;
  }

  lemma BreakerStep(cfg: Config, run: seq<Cycle>, j: nat)
    requires j < |run|
    ensures var before, after := StateAfter(cfg, run[..j]), StateAfter(cfg, run[..j + 1]);
      && after.managed == GuardedStep(before.managed, ManagedDue(cfg, before, run[j].clock), ManagedTick(run[j].clock, run[j].replies))
      && after.discovery == GuardedStep(before.discovery, cfg.discovery, DiscoveryTick(run[j].clock, run[j].replies))
      && after.catalog == GuardedStep(before.catalog, cfg.catalog, CatalogTick(run[j].clock, run[j].replies))
  {
    StateSnoc(cfg, run, j);
    hide StateAfter, GuardedStep, ManagedDue, ManagedTick, DiscoveryTick, CatalogTick, ManagedSucceeds, SuccessAfter,
         ReconciliationRuns, CleanupDue;
  }

  lemma GuardedAfter(ticks: seq<Tick>, reached: bool, t: Tick)
    ensures After(ticks + (if reached then [t] else []), THRESHOLD, MAX_BACKOFF) ==
            GuardedStep(After(ticks, THRESHOLD, MAX_BACKOFF), reached, t)
  {
    AfterSnoc(ticks, t);
    hide After, Ticked;
    assert ticks + [] == ticks;
  }

  lemma {:induction false} SyncBreakerFollows(cfg: Config, run: seq<Cycle>, j: nat)
    requires j <= |run| && 0 <= ScheduleInterval(cfg) <= MAX_DURATION
    ensures StateAfter(cfg, run[..j]).managed == After(DueTicks(cfg, run, j), THRESHOLD, MAX_BACKOFF)
    decreases j
  {
    if j > 0 {
      SyncBreakerFollows(cfg, run, j - 1);
      BreakerStep(cfg, run, j - 1);
      DueIff(cfg, run, j - 1);
      GuardedAfter(DueTicks(cfg, run, j - 1), SyncDueAt(cfg, run, j - 1), ManagedTick(run[j - 1].clock, run[j - 1].replies));
      hide StateAfter, After, GuardedStep, ManagedDue, SyncDueAt, ManagedTick;
    }
  }

  lemma {:induction false} BreakersFollow(cfg: Config, run: seq<Cycle>, j: nat)
    requires j <= |run|
    ensures cfg.discovery ==> StateAfter(cfg, run[..j]).discovery == After(DiscoveryTicks(run, j), THRESHOLD, MAX_BACKOFF)
    ensures cfg.catalog ==> StateAfter(cfg, run[..j]).catalog == After(CatalogTicks(run, j), THRESHOLD, MAX_BACKOFF)
    decreases j
  {
    if j > 0 {
      BreakersFollow(cfg, run, j - 1);
      BreakerStep(cfg, run, j - 1);
      GuardedAfter(DiscoveryTicks(run, j - 1), true, DiscoveryTick(run[j - 1].clock, run[j - 1].replies));
      GuardedAfter(CatalogTicks(run, j - 1), true, CatalogTick(run[j - 1].clock, run[j - 1].replies));
      hide StateAfter, After, GuardedStep, ManagedDue, ManagedTick, DiscoveryTick, CatalogTick;
    }
  }

  lemma AttemptLast(ticks: seq<Tick>, t: Tick)
    ensures AttemptAt(ticks + [t], THRESHOLD, MAX_BACKOFF, |ticks|) <==> Attempts(After(ticks, THRESHOLD, MAX_BACKOFF), t.at)
  {
    assert (ticks + [t])[..|ticks|] == ticks;
  }

  /** Discovery and the catalog push run exactly when they are on and their breaker, which sees every
      cycle, attempts; the sync exactly when it is due and its breaker, which sees the due cycles, attempts;
      the documents are made in every cycle if at all. */
  lemma GuardedRunIff(cfg: Config, run: seq<Cycle>, j: nat)
    requires j < |run| && 0 <= ScheduleInterval(cfg) <= MAX_DURATION
    ensures RanAt(cfg, run, j, Discovery) <==> cfg.discovery && AttemptAt(DiscoveryTicks(run, j + 1), THRESHOLD, MAX_BACKOFF, j)
    ensures RanAt(cfg, run, j, Catalog) <==> cfg.catalog && AttemptAt(CatalogTicks(run, j + 1), THRESHOLD, MAX_BACKOFF, j)
    ensures SyncDueAt(cfg, run, j) ==> DueTicks(cfg, run, j + 1) != []
    ensures RanAt(cfg, run, j, Managed) <==>
      SyncDueAt(cfg, run, j) && AttemptAt(DueTicks(cfg, run, j + 1), THRESHOLD, MAX_BACKOFF, |DueTicks(cfg, run, j + 1)| - 1)
    ensures RanAt(cfg, run, j, SpecGen) <==> cfg.specGen
  {
    var clock, replies := run[j].clock, run[j].replies;
    BreakersFollow(cfg, run, j);
    SyncBreakerFollows(cfg, run, j);
    DueIff(cfg, run, j);
    AttemptLast(DueTicks(cfg, run, j), ManagedTick(clock, replies));
    AttemptLast(DiscoveryTicks(run, j), DiscoveryTick(clock, replies));
    AttemptLast(CatalogTicks(run, j), CatalogTick(clock, replies));
    InPhases(cfg, StateAfter(cfg, run[..j]), clock, replies);
    RanMeans(cfg, run, j);
    hide StateAfter, After, AttemptAt, Attempts, PhasesOf, ManagedDue, SyncDueAt;
  }

  /** Position i is the last successful sync up to position j. */
  predicate LastSyncUpTo(cfg: Config, run: seq<Cycle>, i: nat, j: nat)
    requires j < |run|
  {
    i <= j && SyncedAt(cfg, run, i) && forall k :: i < k <= j ==> !SyncedAt(cfg, run, k)
  }

  /** The last success up to and including a cycle is that of the last sync so far, if there was any. */
  lemma SuccessUpTo(cfg: Config, run: seq<Cycle>, j: nat) returns (i: Option<nat>)
    requires j < |run|
    ensures i.Some? ==> LastSyncUpTo(cfg, run, i.value, j)
    ensures i.None? ==> forall k: nat :: !LastSyncUpTo(cfg, run, k, j)
    ensures SuccessAfter(cfg, StateAfter(cfg, run[..j]), run[j].clock, run[j].replies) ==
      if i.Some? then Some(run[i.value].clock.managedSuccess) else None
  {
    EngineSound(cfg, run, j);
    RanMeans(cfg, run, j);
    hide StateAfter, RanAt, Settled, ManagedSucceeds, SyncedAt;
    if exists k :: 0 <= k < j + 1 && SyncedAt(cfg, run, k) {
      var last := LastSync(cfg, run, j + 1);
      i := Some(last);
      if last < j {
        SyncTime(cfg, run, last, j);
      }
    } else {
      i := None;
    }
  }

  lemma OneLastSync(cfg: Config, run: seq<Cycle>, i: nat, k: nat, j: nat)
    requires j < |run| && LastSyncUpTo(cfg, run, i, j) && LastSyncUpTo(cfg, run, k, j)
    ensures i == k
  {
    hide SyncedAt;
  }

  lemma ComparisonMeans(cfg: Config, run: seq<Cycle>, j: nat)
    requires j < |run| && 0 <= 3 * FreshInterval(cfg) <= MAX_DURATION
    ensures var success := SuccessAfter(cfg, StateAfter(cfg, run[..j]), run[j].clock, run[j].replies);
      RanAt(cfg, run, j, Comparison) <==>
        cfg.comparison && success.Some? && run[j].clock.freshAt - success.value < 3 * FreshInterval(cfg)
  {
    RanMeans(cfg, run, j);
    hide StateAfter, RanAt, SyncedAt, SuccessAfter;
  }

  /** A comparison runs exactly when it is switched on and the last successful sync, this cycle's
      included, is less than three intervals old; without such a sync it never runs. */
  lemma ComparisonIffFresh(cfg: Config, run: seq<Cycle>, j: nat)
    requires j < |run| && 0 <= 3 * FreshInterval(cfg) <= MAX_DURATION
    ensures RanAt(cfg, run, j, Comparison) <==>
      cfg.comparison &&
      exists i: nat :: LastSyncUpTo(cfg, run, i, j) && run[j].clock.freshAt - run[i].clock.managedSuccess < 3 * FreshInterval(cfg)
  {
    hide *;
    var i := SuccessUpTo(cfg, run, j);
    ComparisonMeans(cfg, run, j);
    forall k: nat | LastSyncUpTo(cfg, run, k, j)
      ensures i == Some(k)
    {
      if i.Some? {
        OneLastSync(cfg, run, i.value, k, j);
      }
    }
  }

  lemma {:induction false} LastSync(cfg: Config, run: seq<Cycle>, j: nat) returns (i: nat)
    requires j <= |run| && exists k :: 0 <= k < j && SyncedAt(cfg, run, k)
    ensures i < j && SyncedAt(cfg, run, i) && forall k :: i < k < j ==> !SyncedAt(cfg, run, k)
    decreases j
  {
    hide SyncedAt;
    if SyncedAt(cfg, run, j - 1) {
      i := j - 1;
    } else {
      i := LastSync(cfg, run, j - 1);
    }
  }

  lemma {:induction false} ReconcileTime(cfg: Config, run: seq<Cycle>, i: nat, j: nat)
    requires i < j <= |run| && RanAt(cfg, run, i, Reconciliation)
    requires forall k :: i < k < j ==> !RanAt(cfg, run, k, Reconciliation)
    ensures StateAfter(cfg, run[..j]).reconcileRun == Some(run[i].clock.reconcileDone)
    decreases j
  {
    hide *;
    ReconcileStep(cfg, run, j - 1);
    if i + 1 < j {
      ReconcileTime(cfg, run, i, j - 1);
      assert !RanAt(cfg, run, j - 1, Reconciliation);
    }
  }

  lemma ReconcileStep(cfg: Config, run: seq<Cycle>, j: nat)
    requires j < |run|
    ensures StateAfter(cfg, run[..j + 1]).reconcileRun ==
      if RanAt(cfg, run, j, Reconciliation) then Some(run[j].clock.reconcileDone) else StateAfter(cfg, run[..j]).reconcileRun
  {
    StateSnoc(cfg, run, j);
    RanMeans(cfg, run, j);
    hide GuardedStep, Attempts, StateAfter, SyncedAt, RanAt, ReconciliationRuns, ManagedSucceeds, SuccessAfter, CleanupDue;
  }

  /** Reconciliation waits for a successful sync, and two reconciliations lie a day apart. */
  lemma ReconciliationsSeparated(cfg: Config, run: seq<Cycle>, i: nat, j: nat)
    requires i < j < |run| && RanAt(cfg, run, i, Reconciliation) && RanAt(cfg, run, j, Reconciliation)
    requires forall k :: i < k < j ==> !RanAt(cfg, run, k, Reconciliation)
    ensures run[j].clock.reconcileAt - run[i].clock.reconcileDone >= DAY
    ensures exists k :: 0 <= k <= i && SyncedAt(cfg, run, k)
  {
    ReconcileTime(cfg, run, i, j);
    RanMeans(cfg, run, j);
    RanMeans(cfg, run, i);
    EngineSound(cfg, run, i);
    hide Attempts, Settled, StateAfter, SyncedAt, RanAt, ManagedSucceeds;
  }

  /** Position i is the last reconciliation before position j. */
  predicate LastReconciled(cfg: Config, run: seq<Cycle>, i: nat, j: nat)
    requires i < j <= |run|
  {
    RanAt(cfg, run, i, Reconciliation) && forall k :: i < k < j ==> !RanAt(cfg, run, k, Reconciliation)
  }

  lemma {:induction false} ReconciledBefore(cfg: Config, run: seq<Cycle>, j: nat) returns (last: Option<nat>)
    requires j <= |run|
    ensures last.Some? ==> last.value < j && LastReconciled(cfg, run, last.value, j)
    ensures last.None? ==> forall i :: 0 <= i < j ==> !RanAt(cfg, run, i, Reconciliation)
    ensures StateAfter(cfg, run[..j]).reconcileRun ==
      if last.Some? then Some(run[last.value].clock.reconcileDone) else None
    decreases j
  {
    hide RanAt, StateAfter;
    if j == 0 {
      last := None;
      assert StateAfter(cfg, run[..0]) == Started() by { NothingYet(cfg, run); }
    } else {
      ReconcileStep(cfg, run, j - 1);
      last := ReconciledBefore(cfg, run, j - 1);
      if RanAt(cfg, run, j - 1, Reconciliation) {
        last := Some(j - 1);
      }
    }
  }

  lemma NothingYet(cfg: Config, run: seq<Cycle>)
    ensures StateAfter(cfg, run[..0]) == Started()
  {}

  /** Reconciliation runs exactly when it is on, some sync has succeeded by then, and the last one before
      ended a day ago or more. */
  lemma ReconcileIff(cfg: Config, run: seq<Cycle>, j: nat)
    requires j < |run|
    ensures RanAt(cfg, run, j, Reconciliation) <==>
      && cfg.reconciliation
      && (exists k :: 0 <= k <= j && SyncedAt(cfg, run, k))
      && (forall i :: 0 <= i < j && LastReconciled(cfg, run, i, j) ==>
            run[j].clock.reconcileAt - run[i].clock.reconcileDone >= 86_400_000_000_000)
  {
    EngineSound(cfg, run, j);
    RanMeans(cfg, run, j);
    var last := ReconciledBefore(cfg, run, j);
    hide StateAfter, RanAt, SyncedAt, ManagedSucceeds, Settled;
    if last.Some? {
      assert forall i :: 0 <= i < j && LastReconciled(cfg, run, i, j) ==> i == last.value;
    }
  }

  // ---------- The daily cleanup ----------

  /** The cycle at position i cleaned up: it restarted the timer. */
  predicate CleanedAt(cfg: Config, run: seq<Cycle>, i: nat)
    requires i < |run|
  {
    CleanupDue(StateAfter(cfg, run[..i]).cleanupRun, run[i].clock)
  }

  predicate LastCleaned(cfg: Config, run: seq<Cycle>, i: nat, j: nat)
    requires i < j <= |run|
  {
    CleanedAt(cfg, run, i) && forall k :: i < k < j ==> !CleanedAt(cfg, run, k)
  }

  lemma CleanStep(cfg: Config, run: seq<Cycle>, j: nat)
    requires j < |run|
    ensures StateAfter(cfg, run[..j + 1]).cleanupRun ==
      if CleanedAt(cfg, run, j) then Some(run[j].clock.cleanupDone) else StateAfter(cfg, run[..j]).cleanupRun
  {
    StateSnoc(cfg, run, j);
    hide GuardedStep, StateAfter, ReconciliationRuns, ManagedSucceeds, SuccessAfter, CleanupDue;
  }

  lemma {:induction false} CleanedBefore(cfg: Config, run: seq<Cycle>, j: nat) returns (last: Option<nat>)
    requires j <= |run|
    ensures last.Some? ==> last.value < j && LastCleaned(cfg, run, last.value, j)
    ensures last.None? ==> forall i :: 0 <= i < j ==> !CleanedAt(cfg, run, i)
    ensures StateAfter(cfg, run[..j]).cleanupRun ==
      if last.Some? then Some(run[last.value].clock.cleanupDone) else None
    decreases j
  {
    hide CleanedAt, StateAfter;
    if j == 0 {
      last := None;
      assert StateAfter(cfg, run[..0]) == Started() by { NothingYet(cfg, run); }
    } else {
      CleanStep(cfg, run, j - 1);
      last := CleanedBefore(cfg, run, j - 1);
      if CleanedAt(cfg, run, j - 1) {
        last := Some(j - 1);
      }
    }
  }

  /** The cleanup runs in the first cycle, and then exactly when the last one ended a day ago or more. */
  lemma CleanupIff(cfg: Config, run: seq<Cycle>, j: nat)
    requires j < |run|
    ensures CleanedAt(cfg, run, j) <==>
      forall i :: 0 <= i < j && LastCleaned(cfg, run, i, j) ==>
        run[j].clock.cleanupAt - run[i].clock.cleanupDone >= 86_400_000_000_000
    ensures StateAfter(cfg, run[..j + 1]).cleanupRun ==
      if CleanedAt(cfg, run, j) then Some(run[j].clock.cleanupDone) else StateAfter(cfg, run[..j]).cleanupRun
  {
    CleanStep(cfg, run, j);
    var last := CleanedBefore(cfg, run, j);
    assert CleanedAt(cfg, run, j) <==> CleanupDue(StateAfter(cfg, run[..j]).cleanupRun, run[j].clock);
    hide StateAfter, CleanedAt;
    if last.Some? {
      assert forall i :: 0 <= i < j && LastCleaned(cfg, run, i, j) ==> i == last.value;
    }
  }

  /** Both intervals are the configured one, or ten minutes when there is none; only freshness takes zero
      for none too. */
  lemma IntervalsOf(cfg: Config)
    ensures cfg.managedInterval.None? ==> ScheduleInterval(cfg) == FreshInterval(cfg) == 600_000_000_000
    ensures cfg.managedInterval == Some(0) ==> ScheduleInterval(cfg) == 0 && FreshInterval(cfg) == 600_000_000_000
    ensures cfg.managedInterval.Some? && cfg.managedInterval.value != 0 ==>
      ScheduleInterval(cfg) == FreshInterval(cfg) == cfg.managedInterval.value
  {}

  /** With the engine's settings the backoffs are 1, 3, 9 and 27 minutes, and then 30. */
  lemma EngineBackoffs(failures: nat)
    requires failures >= THRESHOLD
    ensures BackoffAfter(failures, THRESHOLD, MAX_BACKOFF) ==
      60_000_000_000 * (if failures == 3 then 1 else if failures == 4 then 3 else if failures == 5 then 9
                        else if failures == 6 then 27 else 30)
  {
    assert Pow3(1) == 3 && Pow3(2) == 9 && Pow3(3) == 27 && Pow3(4) == 81;
    if failures >= 7 {
      Pow3Monotone(4, Min(failures - THRESHOLD, 20));
    }
  }
}
