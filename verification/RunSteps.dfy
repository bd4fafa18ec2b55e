/** The steps of a run by name: the list as the program goes through it, what
    state.json shows to be done once a given step is recorded, and what a finished
    run has done. */
module RunSteps {
  import opened Prelude
  import opened Checkpoint
  import opened Engine
  import opened RunPlan
  import P = Pipeline

  // ------------------------------------------------------------- the list, by name

  /** The items that are there, of a list that says of each whether it is. */
  function Chosen(all: seq<(bool, P.Item)>): seq<P.Item> {
    if all == [] then [] else (if all[0].0 then [all[0].1] else []) + Chosen(all[1..])
  }

  function Check(name: string): P.Item {
    P.Do(Key(Preflight, name), false)
  }

  function Does(phase: Phase, name: string): P.Item {
    P.Do(Key(phase, name), false)
  }

  /** A part of the whole list, from place n. */
  ghost predicate StandsAt(cfg: Config, n: nat, part: seq<(bool, P.Item)>) {
    n + |part| <= LAST && forall k :: 0 <= k < |part| ==> part[k] == (Present(cfg, n + k), ItemAt(n + k))
  }

  lemma {:induction false} PartOf(cfg: Config, n: nat, part: seq<(bool, P.Item)>)
    requires StandsAt(cfg, n, part)
    ensures ItemsFrom(cfg, n) == Chosen(part) + ItemsFrom(cfg, n + |part|)
    decreases |part|
  {
    hide Present, ItemAt;
    if part != [] {
      var rest := part[1..];
      forall k | 0 <= k < |rest|
        ensures rest[k] == (Present(cfg, n + 1 + k), ItemAt(n + 1 + k))
      {
        assert rest[k] == part[k + 1];
      }
      PartOf(cfg, n + 1, rest);
      assert part[0] == (Present(cfg, n), ItemAt(n));
    }
  }

  /** First the checks on the software. */
  lemma FirstSoftware(cfg: Config, part: seq<(bool, P.Item)>)
    requires part == [
               (true, Check("version")),
               (true, Check("target-release")),
               (true, Check("upgrade-direction")),
               (cfg.crosses, Check("stalwart-cli")),
               (cfg.crosses, Check("python3")),
               (!cfg.crosses, Check("external-tools")),
               (true, Check("deployment-kind"))]
    ensures Items(cfg) == Chosen(part) + ItemsFrom(cfg, 7)
  {
    hide ItemsFrom, Chosen;
    PartOf(cfg, 0, part);
  }

  /** Then those on the container. */
  lemma ThenTheContainer(cfg: Config, part: seq<(bool, P.Item)>)
    requires part == [
               (cfg.container, Check("container-inspect")),
               (cfg.container, P.Maybe(Key(Preflight, "container-runtime"))),
               (cfg.container, P.Maybe(Key(Preflight, "container-recreatable"))),
               (cfg.container, P.Maybe(Key(Preflight, "container-data-volume")))]
    ensures ItemsFrom(cfg, 7) == Chosen(part) + ItemsFrom(cfg, 11)
  {
    hide ItemsFrom, Chosen;
    PartOf(cfg, 7, part);
  }

  /** Then those on the store and the accounts, a save, and the gate. */
  lemma ThenTheStore(cfg: Config, part: seq<(bool, P.Item)>)
    requires part == [
               (true, Check("store-backend")),
               (true, Check("cluster-config")),
               (true, Check("disk-space")),
               (true, Check("admin-reachable")),
               (true, Check("account-snapshot")),
               (true, Check("admin-account-kind")),
               (cfg.crosses, Check("multi-tenancy")),
               (true, P.SaveState),
               (true, P.Gate)]
    ensures ItemsFrom(cfg, 11) == Chosen(part) + ItemsFrom(cfg, 20)
  {
    hide ItemsFrom, Chosen;
    PartOf(cfg, 11, part);
  }

  /** Then what is done around the stop of the service. */
  lemma ThenThePreparation(cfg: Config, part: seq<(bool, P.Item)>)
    requires part == [
               (cfg.container, Does(Stage, "stage-image")),
               (!cfg.container && cfg.fetches, Does(Stage, "stage-binary")),
               (cfg.crosses, Does(Backup, "settings-dump")),
               (true, Does(Backup, "preserve-binary")),
               (true, Does(Cutover, "stop-service")),
               (cfg.crosses, Does(Stage, "convert-settings")),
               (cfg.crosses, Does(Backup, "preserve-plan")),
               (cfg.crosses, Does(Recovery, "recovery-cycle"))]
    ensures ItemsFrom(cfg, 20) == Chosen(part) + ItemsFrom(cfg, 28)
  {
    hide ItemsFrom, Chosen;
    PartOf(cfg, 20, part);
  }

  /** Then the cutover of a container. */
  lemma ThenTheContainerCutover(cfg: Config, part: seq<(bool, P.Item)>)
    requires part == [
               (cfg.container, Does(Cutover, "preserve-container-definition")),
               (cfg.container, Does(Cutover, "container-is-recreatable")),
               (cfg.container, Does(Cutover, "retire-old-container")),
               (cfg.container, Does(Cutover, "create-container")),
               (cfg.container, Does(Cutover, "wait-running"))]
    ensures ItemsFrom(cfg, 28) == Chosen(part) + ItemsFrom(cfg, 33)
  {
    hide ItemsFrom, Chosen;
    PartOf(cfg, 28, part);
  }

  /** Or that of a binary. */
  lemma OrTheBinaryCutover(cfg: Config, part: seq<(bool, P.Item)>)
    requires part == [
               (!cfg.container, Does(Cutover, "verify-staged-binary")),
               (!cfg.container, Does(Cutover, "install-binary")),
               (!cfg.container, Does(Cutover, "install-config")),
               (!cfg.container, Does(Cutover, "update-service-definition")),
               (!cfg.container, Does(Cutover, "reload-service-definition")),
               (!cfg.container, Does(Cutover, "start-service"))]
    ensures ItemsFrom(cfg, 33) == Chosen(part) + ItemsFrom(cfg, 39)
  {
    hide ItemsFrom, Chosen;
    PartOf(cfg, 33, part);
  }

  /** And last the service's health, the quotas and the comparison. */
  lemma AndLast(cfg: Config, part: seq<(bool, P.Item)>)
    requires part == [
               (true, Does(Cutover, "wait-healthy")),
               (true, P.Do(Key(Cutover, "recalculate-quotas"), true)),
               (cfg.compares, Does(Validate, "content-integrity"))]
    ensures ItemsFrom(cfg, 39) == Chosen(part)
  {
    hide Chosen;
    PartOf(cfg, 39, part);
  }

  // The items by name, place by place.

  lemma PreparationNamed(cfg: Config, n: nat)
    requires 20 <= n < 28
    ensures n == 20 ==> ItemAt(n) == Does(Stage, "stage-image") && (Present(cfg, n) <==> cfg.container)
    ensures n == 21 ==> ItemAt(n) == Does(Stage, "stage-binary") && (Present(cfg, n) <==> !cfg.container && cfg.fetches)
    ensures n == 22 ==> ItemAt(n) == Does(Backup, "settings-dump") && (Present(cfg, n) <==> cfg.crosses)
    ensures n == 23 ==> ItemAt(n) == Does(Backup, "preserve-binary") && Present(cfg, n)
    ensures n == 24 ==> ItemAt(n) == Does(Cutover, "stop-service") && Present(cfg, n)
    ensures n == 25 ==> ItemAt(n) == Does(Stage, "convert-settings") && (Present(cfg, n) <==> cfg.crosses)
    ensures n == 26 ==> ItemAt(n) == Does(Backup, "preserve-plan") && (Present(cfg, n) <==> cfg.crosses)
    ensures n == 27 ==> ItemAt(n) == Does(Recovery, "recovery-cycle") && (Present(cfg, n) <==> cfg.crosses)
  {
  }

  lemma ContainerNamed(cfg: Config, n: nat)
    requires 28 <= n < 33
    ensures n == 28 ==>
              ItemAt(n) == Does(Cutover, "preserve-container-definition") && (Present(cfg, n) <==> cfg.container)
    ensures n == 29 ==> ItemAt(n) == Does(Cutover, "container-is-recreatable") && (Present(cfg, n) <==> cfg.container)
    ensures n == 30 ==> ItemAt(n) == Does(Cutover, "retire-old-container") && (Present(cfg, n) <==> cfg.container)
    ensures n == 31 ==> ItemAt(n) == Does(Cutover, "create-container") && (Present(cfg, n) <==> cfg.container)
    ensures n == 32 ==> ItemAt(n) == Does(Cutover, "wait-running") && (Present(cfg, n) <==> cfg.container)
  {
  }

  lemma BinaryNamed(cfg: Config, n: nat)
    requires 33 <= n < 39
    ensures n == 33 ==> ItemAt(n) == Does(Cutover, "verify-staged-binary") && (Present(cfg, n) <==> !cfg.container)
    ensures n == 34 ==> ItemAt(n) == Does(Cutover, "install-binary") && (Present(cfg, n) <==> !cfg.container)
    ensures n == 35 ==> ItemAt(n) == Does(Cutover, "install-config") && (Present(cfg, n) <==> !cfg.container)
    ensures n == 36 ==> ItemAt(n) == Does(Cutover, "update-service-definition") && (Present(cfg, n) <==> !cfg.container)
    ensures n == 37 ==> ItemAt(n) == Does(Cutover, "reload-service-definition") && (Present(cfg, n) <==> !cfg.container)
    ensures n == 38 ==> ItemAt(n) == Does(Cutover, "start-service") && (Present(cfg, n) <==> !cfg.container)
  {
  }

  lemma LastNamed(cfg: Config, n: nat)
    requires 39 <= n < 42
    ensures n == 39 ==> ItemAt(n) == Does(Cutover, "wait-healthy") && Present(cfg, n)
    ensures n == 40 ==> ItemAt(n) == P.Do(Key(Cutover, "recalculate-quotas"), true) && Present(cfg, n)
    ensures n == 41 ==> ItemAt(n) == Does(Validate, "content-integrity") && (Present(cfg, n) <==> cfg.compares)
  {
  }

  lemma SoftwareNamed(cfg: Config, n: nat)
    requires 0 <= n < 8
    ensures n == 0 ==> ItemAt(n) == Check("version") && Present(cfg, n)
    ensures n == 1 ==> ItemAt(n) == Check("target-release") && Present(cfg, n)
    ensures n == 2 ==> ItemAt(n) == Check("upgrade-direction") && Present(cfg, n)
    ensures n == 3 ==> ItemAt(n) == Check("stalwart-cli") && (Present(cfg, n) <==> cfg.crosses)
    ensures n == 4 ==> ItemAt(n) == Check("python3") && (Present(cfg, n) <==> cfg.crosses)
    ensures n == 5 ==> ItemAt(n) == Check("external-tools") && (Present(cfg, n) <==> !cfg.crosses)
    ensures n == 6 ==> ItemAt(n) == Check("deployment-kind") && Present(cfg, n)
    ensures n == 7 ==> ItemAt(n) == Check("container-inspect") && (Present(cfg, n) <==> cfg.container)
  {
  }

  lemma StoreNamed(cfg: Config, n: nat)
    requires 11 <= n < 18
    ensures n == 11 ==> ItemAt(n) == Check("store-backend") && Present(cfg, n)
    ensures n == 12 ==> ItemAt(n) == Check("cluster-config") && Present(cfg, n)
    ensures n == 13 ==> ItemAt(n) == Check("disk-space") && Present(cfg, n)
    ensures n == 14 ==> ItemAt(n) == Check("admin-reachable") && Present(cfg, n)
    ensures n == 15 ==> ItemAt(n) == Check("account-snapshot") && Present(cfg, n)
    ensures n == 16 ==> ItemAt(n) == Check("admin-account-kind") && Present(cfg, n)
    ensures n == 17 ==> ItemAt(n) == Check("multi-tenancy") && (Present(cfg, n) <==> cfg.crosses)
  {
  }

  // --------------------------------------------------- what is done before a step

  /** What is recorded is a step of the configuration. */
  lemma RecordedIsPresent<W(!new)>(prog: P.Program<W>, cfg: Config, world: W, ms: seq<P.Move<W>>,
        steps: seq<StepRecord>, n: nat)
    requires IsRun(prog, cfg) && Reachable(prog, world, ms, steps)
    requires n < LAST && P.IsStep(ItemAt(n)) && Recorded(steps, ItemAt(n).key)
    ensures Present(cfg, n)
  {
    hide Items, ItemAt, Present, Place, Recorded, P.WellFormed, P.Run, ItemsFrom;
    RunIsWellFormed(cfg);
    P.RecordedIsListed(prog, world, ms, ItemAt(n).key);
    var i :| 0 <= i < |Items(cfg)| && P.IsStep(Items(cfg)[i]) && Items(cfg)[i].key == ItemAt(n).key;
    ItemsAreItemsFrom(cfg);
    ItemsFromList(cfg, 0, i);
    KeyGivesPlace(Items(cfg)[i], ItemAt(n));
    PlaceOfItem(n);
  }

  lemma Before<W(!new)>(prog: P.Program<W>, cfg: Config, world: W, ms: seq<P.Move<W>>, steps: seq<StepRecord>,
        m: nat, n: nat)
    requires IsRun(prog, cfg) && Reachable(prog, world, ms, steps)
    requires m < n < LAST && P.IsStep(ItemAt(n)) && m != QUOTAS && ItemAt(m).Do?
    ensures Recorded(steps, ItemAt(n).key) ==> Present(cfg, n) && (Present(cfg, m) ==> IsDone(steps, ItemAt(m).key))
  {
    hide ItemAt, Present, Recorded, IsDone, P.Run;
    if Recorded(steps, ItemAt(n).key) {
      RecordedIsPresent(prog, cfg, world, ms, steps, n);
      if Present(cfg, m) {
        RecordedInOrder(prog, cfg, world, ms, steps, m, n);
      }
    }
  }

  /** The service is stopped only with the old binary preserved, the new release
      staged and, across the boundary, the settings dumped. */
  lemma StopsPrepared<W(!new)>(prog: P.Program<W>, cfg: Config, world: W, ms: seq<P.Move<W>>, steps: seq<StepRecord>)
    requires IsRun(prog, cfg) && Reachable(prog, world, ms, steps)
    requires Recorded(steps, Key(Cutover, "stop-service"))
    ensures IsDone(steps, Key(Backup, "preserve-binary"))
    ensures cfg.crosses ==> IsDone(steps, Key(Backup, "settings-dump"))
    ensures cfg.container ==> IsDone(steps, Key(Stage, "stage-image"))
    ensures !cfg.container && cfg.fetches ==> IsDone(steps, Key(Stage, "stage-binary"))
  {
    hide Recorded, IsDone, Reachable, IsRun, ItemAt, Present;
    PreparationNamed(cfg, 20);
    PreparationNamed(cfg, 21);
    PreparationNamed(cfg, 22);
    PreparationNamed(cfg, 23);
    PreparationNamed(cfg, 24);
    Before(prog, cfg, world, ms, steps, 23, 24);
    Before(prog, cfg, world, ms, steps, 22, 24);
    Before(prog, cfg, world, ms, steps, 20, 24);
    Before(prog, cfg, world, ms, steps, 21, 24);
  }

  /** The store is migrated only with the service stopped and the plan converted and
      preserved. */
  lemma MigratesStopped<W(!new)>(prog: P.Program<W>, cfg: Config, world: W, ms: seq<P.Move<W>>,
        steps: seq<StepRecord>)
    requires IsRun(prog, cfg) && Reachable(prog, world, ms, steps)
    requires Recorded(steps, Key(Recovery, "recovery-cycle"))
    ensures cfg.crosses
    ensures IsDone(steps, Key(Cutover, "stop-service")) && IsDone(steps, Key(Stage, "convert-settings"))
    ensures IsDone(steps, Key(Backup, "preserve-plan"))
  {
    hide Recorded, IsDone, Reachable, IsRun, ItemAt, Present;
    PreparationNamed(cfg, 24);
    PreparationNamed(cfg, 25);
    PreparationNamed(cfg, 26);
    PreparationNamed(cfg, 27);
    Before(prog, cfg, world, ms, steps, 24, 27);
    Before(prog, cfg, world, ms, steps, 25, 27);
    Before(prog, cfg, world, ms, steps, 26, 27);
  }

  /** Settings are converted only with the service stopped and the dump taken, and the
      plan is preserved only once converted. */
  lemma ConvertsStopped<W(!new)>(prog: P.Program<W>, cfg: Config, world: W, ms: seq<P.Move<W>>,
        steps: seq<StepRecord>)
    requires IsRun(prog, cfg) && Reachable(prog, world, ms, steps)
    ensures Recorded(steps, Key(Stage, "convert-settings")) ==>
              cfg.crosses && IsDone(steps, Key(Cutover, "stop-service")) && IsDone(steps, Key(Backup, "settings-dump"))
    ensures Recorded(steps, Key(Backup, "preserve-plan")) ==>
              cfg.crosses && IsDone(steps, Key(Stage, "convert-settings"))
  {
    hide Recorded, IsDone, Reachable, IsRun, ItemAt, Present;
    PreparationNamed(cfg, 22);
    PreparationNamed(cfg, 24);
    PreparationNamed(cfg, 25);
    PreparationNamed(cfg, 26);
    Before(prog, cfg, world, ms, steps, 24, 25);
    Before(prog, cfg, world, ms, steps, 22, 25);
    Before(prog, cfg, world, ms, steps, 25, 26);
  }

  /** The new binary replaces the old one only with that preserved, itself verified, the
      service stopped and, across the boundary, the store migrated. */
  lemma InstallsPreserved<W(!new)>(prog: P.Program<W>, cfg: Config, world: W, ms: seq<P.Move<W>>,
        steps: seq<StepRecord>)
    requires IsRun(prog, cfg) && Reachable(prog, world, ms, steps)
    requires Recorded(steps, Key(Cutover, "install-binary"))
    ensures !cfg.container
    ensures IsDone(steps, Key(Backup, "preserve-binary")) && IsDone(steps, Key(Cutover, "verify-staged-binary"))
    ensures IsDone(steps, Key(Cutover, "stop-service"))
    ensures cfg.crosses ==> IsDone(steps, Key(Recovery, "recovery-cycle"))
  {
    hide Recorded, IsDone, Reachable, IsRun, ItemAt, Present;
    PreparationNamed(cfg, 23);
    PreparationNamed(cfg, 24);
    PreparationNamed(cfg, 27);
    BinaryNamed(cfg, 33);
    BinaryNamed(cfg, 34);
    Before(prog, cfg, world, ms, steps, 23, 34);
    Before(prog, cfg, world, ms, steps, 33, 34);
    Before(prog, cfg, world, ms, steps, 24, 34);
    Before(prog, cfg, world, ms, steps, 27, 34);
  }

  /** A container is replaced only with its definition preserved, known to be one that
      can be recreated, stopped and, across the boundary, its store migrated; the new one
      is made after the old one is retired. */
  lemma RetiresPreserved<W(!new)>(prog: P.Program<W>, cfg: Config, world: W, ms: seq<P.Move<W>>,
        steps: seq<StepRecord>)
    requires IsRun(prog, cfg) && Reachable(prog, world, ms, steps)
    requires Recorded(steps, Key(Cutover, "retire-old-container"))
    ensures cfg.container
    ensures IsDone(steps, Key(Cutover, "preserve-container-definition"))
    ensures IsDone(steps, Key(Cutover, "container-is-recreatable")) && IsDone(steps, Key(Cutover, "stop-service"))
    ensures cfg.crosses ==> IsDone(steps, Key(Recovery, "recovery-cycle"))
  {
    hide Recorded, IsDone, Reachable, IsRun, ItemAt, Present;
    PreparationNamed(cfg, 24);
    PreparationNamed(cfg, 27);
    ContainerNamed(cfg, 28);
    ContainerNamed(cfg, 29);
    ContainerNamed(cfg, 30);
    Before(prog, cfg, world, ms, steps, 28, 30);
    Before(prog, cfg, world, ms, steps, 29, 30);
    Before(prog, cfg, world, ms, steps, 24, 30);
    Before(prog, cfg, world, ms, steps, 27, 30);
  }

  lemma CreatesRetired<W(!new)>(prog: P.Program<W>, cfg: Config, world: W, ms: seq<P.Move<W>>,
        steps: seq<StepRecord>)
    requires IsRun(prog, cfg) && Reachable(prog, world, ms, steps)
    ensures Recorded(steps, Key(Cutover, "container-is-recreatable")) ==>
              cfg.container && IsDone(steps, Key(Cutover, "preserve-container-definition"))
    ensures Recorded(steps, Key(Cutover, "create-container")) ==>
              cfg.container && IsDone(steps, Key(Cutover, "retire-old-container"))
    ensures Recorded(steps, Key(Cutover, "wait-running")) ==>
              cfg.container && IsDone(steps, Key(Cutover, "create-container"))
  {
    hide Recorded, IsDone, Reachable, IsRun, ItemAt, Present;
    ContainerNamed(cfg, 28);
    ContainerNamed(cfg, 29);
    ContainerNamed(cfg, 30);
    ContainerNamed(cfg, 31);
    ContainerNamed(cfg, 32);
    Before(prog, cfg, world, ms, steps, 28, 29);
    Before(prog, cfg, world, ms, steps, 30, 31);
    Before(prog, cfg, world, ms, steps, 31, 32);
  }

  /** The service starts only with everything of it replaced. */
  lemma StartsReplaced<W(!new)>(prog: P.Program<W>, cfg: Config, world: W, ms: seq<P.Move<W>>,
        steps: seq<StepRecord>)
    requires IsRun(prog, cfg) && Reachable(prog, world, ms, steps)
    requires Recorded(steps, Key(Cutover, "start-service"))
    ensures !cfg.container
    ensures IsDone(steps, Key(Cutover, "install-binary")) && IsDone(steps, Key(Cutover, "install-config"))
    ensures IsDone(steps, Key(Cutover, "update-service-definition"))
    ensures IsDone(steps, Key(Cutover, "reload-service-definition"))
  {
    hide Recorded, IsDone, Reachable, IsRun, ItemAt, Present;
    BinaryNamed(cfg, 34);
    BinaryNamed(cfg, 35);
    BinaryNamed(cfg, 36);
    BinaryNamed(cfg, 37);
    BinaryNamed(cfg, 38);
    Before(prog, cfg, world, ms, steps, 34, 38);
    Before(prog, cfg, world, ms, steps, 35, 38);
    Before(prog, cfg, world, ms, steps, 36, 38);
    Before(prog, cfg, world, ms, steps, 37, 38);
  }

  lemma ReplacesInOrder<W(!new)>(prog: P.Program<W>, cfg: Config, world: W, ms: seq<P.Move<W>>,
        steps: seq<StepRecord>)
    requires IsRun(prog, cfg) && Reachable(prog, world, ms, steps)
    ensures Recorded(steps, Key(Cutover, "install-config")) ==>
              !cfg.container && IsDone(steps, Key(Cutover, "install-binary"))
    ensures Recorded(steps, Key(Cutover, "update-service-definition")) ==>
              !cfg.container && IsDone(steps, Key(Cutover, "install-config"))
    ensures Recorded(steps, Key(Cutover, "reload-service-definition")) ==>
              !cfg.container && IsDone(steps, Key(Cutover, "update-service-definition"))
  {
    hide Recorded, IsDone, Reachable, IsRun, ItemAt, Present;
    BinaryNamed(cfg, 34);
    BinaryNamed(cfg, 35);
    BinaryNamed(cfg, 36);
    BinaryNamed(cfg, 37);
    Before(prog, cfg, world, ms, steps, 34, 35);
    Before(prog, cfg, world, ms, steps, 35, 36);
    Before(prog, cfg, world, ms, steps, 36, 37);
  }

  /** Its health is waited for once it was started, and only then are the quotas
      recalculated and the content compared. */
  lemma ChecksStarted<W(!new)>(prog: P.Program<W>, cfg: Config, world: W, ms: seq<P.Move<W>>,
        steps: seq<StepRecord>)
    requires IsRun(prog, cfg) && Reachable(prog, world, ms, steps)
    ensures Recorded(steps, Key(Cutover, "wait-healthy")) ==>
              && (!cfg.container ==> IsDone(steps, Key(Cutover, "start-service")))
              && (cfg.container ==> IsDone(steps, Key(Cutover, "wait-running")))
    ensures Recorded(steps, Key(Cutover, "recalculate-quotas")) ==> IsDone(steps, Key(Cutover, "wait-healthy"))
    ensures Recorded(steps, Key(Validate, "content-integrity")) ==>
              cfg.compares && IsDone(steps, Key(Cutover, "wait-healthy"))
  {
    hide Recorded, IsDone, Reachable, IsRun, ItemAt, Present;
    ContainerNamed(cfg, 32);
    BinaryNamed(cfg, 38);
    LastNamed(cfg, 39);
    LastNamed(cfg, 40);
    LastNamed(cfg, 41);
    Before(prog, cfg, world, ms, steps, 38, 39);
    Before(prog, cfg, world, ms, steps, 32, 39);
    Before(prog, cfg, world, ms, steps, 39, 40);
    Before(prog, cfg, world, ms, steps, 39, 41);
  }

  // -------------------------------------------------------------------- the checks

  /** The check is done, with another verdict than "fail". */
  predicate Passes(steps: seq<StepRecord>, name: string) {
    IsDone(steps, Key(Preflight, name)) && OutcomeOf(steps, Key(Preflight, name)).verdict != "fail"
  }

  lemma PassesBefore<W(!new)>(prog: P.Program<W>, cfg: Config, world: W, ms: seq<P.Move<W>>,
        steps: seq<StepRecord>, m: nat, n: nat)
    requires IsRun(prog, cfg) && Reachable(prog, world, ms, steps)
    requires m < GATE < n < LAST && ItemAt(m).Do? && P.IsStep(ItemAt(n)) && Recorded(steps, ItemAt(n).key)
    ensures Present(cfg, m) ==> IsDone(steps, ItemAt(m).key) && OutcomeOf(steps, ItemAt(m).key).verdict != "fail"
  {
    hide Items, ItemAt, Present, IsDone, Recorded, P.WellFormed, P.Run, P.RunEvents, OutcomeOf;
    if Present(cfg, m) {
      RunIsWellFormed(cfg);
      GateIsPresent(cfg);
      RecordedIsPresent(prog, cfg, world, ms, steps, n);
      RecordedInOrder(prog, cfg, world, ms, steps, m, n);
      var h, g := Positions(cfg, m, GATE);
      var g', j := Positions(cfg, GATE, n);
      SamePosition(cfg, g, g');
      P.PipelinePrefix(prog, world, ms, g, j);
    }
  }

  /** Nothing is staged, dumped, preserved or stopped before every check that each
      process comes by has passed. */
  lemma NothingBeforeTheChecks<W(!new)>(prog: P.Program<W>, cfg: Config, world: W, ms: seq<P.Move<W>>,
        steps: seq<StepRecord>, key: Key)
    requires IsRun(prog, cfg) && Reachable(prog, world, ms, steps)
    requires key in {Key(Stage, "stage-image"), Key(Stage, "stage-binary"), Key(Backup, "settings-dump"),
                     Key(Backup, "preserve-binary"), Key(Cutover, "stop-service")}
    requires Recorded(steps, key)
    ensures Passes(steps, "version") && Passes(steps, "target-release") && Passes(steps, "upgrade-direction")
    ensures Passes(steps, "deployment-kind") && Passes(steps, "store-backend") && Passes(steps, "cluster-config")
    ensures Passes(steps, "disk-space") && Passes(steps, "admin-reachable") && Passes(steps, "account-snapshot")
    ensures Passes(steps, "admin-account-kind")
    ensures cfg.crosses ==> Passes(steps, "stalwart-cli") && Passes(steps, "python3") && Passes(steps, "multi-tenancy")
    ensures !cfg.crosses ==> Passes(steps, "external-tools")
    ensures cfg.container ==> Passes(steps, "container-inspect")
  {
    hide Recorded, IsDone, Reachable, IsRun, ItemAt, Present, OutcomeOf;
    var n := PlaceOfStep(cfg, key);
    forall m | 0 <= m < 8
      ensures ItemAt(m).Do?
      ensures Present(cfg, m) ==> IsDone(steps, ItemAt(m).key) && OutcomeOf(steps, ItemAt(m).key).verdict != "fail"
    {
      SoftwareNamed(cfg, m);
      PassesBefore(prog, cfg, world, ms, steps, m, n);
    }
    forall m | 11 <= m < 18
      ensures ItemAt(m).Do?
      ensures Present(cfg, m) ==> IsDone(steps, ItemAt(m).key) && OutcomeOf(steps, ItemAt(m).key).verdict != "fail"
    {
      StoreNamed(cfg, m);
      PassesBefore(prog, cfg, world, ms, steps, m, n);
    }
    SoftwareNamed(cfg, 0);
    SoftwareNamed(cfg, 1);
    SoftwareNamed(cfg, 2);
    SoftwareNamed(cfg, 3);
    SoftwareNamed(cfg, 4);
    SoftwareNamed(cfg, 5);
    SoftwareNamed(cfg, 6);
    SoftwareNamed(cfg, 7);
    StoreNamed(cfg, 11);
    StoreNamed(cfg, 12);
    StoreNamed(cfg, 13);
    StoreNamed(cfg, 14);
    StoreNamed(cfg, 15);
    StoreNamed(cfg, 16);
    StoreNamed(cfg, 17);
  }

  lemma PlaceOfStep(cfg: Config, key: Key) returns (n: nat)
    requires key in {Key(Stage, "stage-image"), Key(Stage, "stage-binary"), Key(Backup, "settings-dump"),
                     Key(Backup, "preserve-binary"), Key(Cutover, "stop-service")}
    ensures GATE < n < LAST && P.IsStep(ItemAt(n)) && ItemAt(n).key == key
  {
    hide ItemAt, Present;
    n := if key == Key(Stage, "stage-image") then 20 else if key == Key(Stage, "stage-binary") then 21
    else if key == Key(Backup, "settings-dump") then 22 else if key == Key(Backup, "preserve-binary") then 23 else 24;
    PreparationNamed(cfg, n);
  }

  // --------------------------------------------------------------- a finished run

  /** Done in state.json exactly where the configuration has the step. */
  lemma DoneWhere<W(!new)>(prog: P.Program<W>, cfg: Config, world: W, ms: seq<P.Move<W>>, n: nat)
    requires IsRun(prog, cfg) && P.Run(prog, P.Start(world), ms).Some?
    requires var t := P.Run(prog, P.Start(world), ms).value; t.eng.proc.Idle? && t.pc == |prog.items|
    requires n < LAST && ItemAt(n).Do? && !ItemAt(n).tolerant
    ensures IsDone(P.Run(prog, P.Start(world), ms).value.eng.disk.steps, ItemAt(n).key) <==> Present(cfg, n)
  {
    hide Items, ItemAt, Present, IsDone, P.WellFormed, P.Run, ItemsFrom;
    var steps := P.Run(prog, P.Start(world), ms).value.eng.disk.steps;
    RunIsWellFormed(cfg);
    if Present(cfg, n) {
      ItemsAreItemsFrom(cfg);
      var i := IndexOfItem(cfg, 0, n);
      P.FinishedHasDone(prog, world, ms, i);
    } else if IsDone(steps, ItemAt(n).key) {
      DoneIsRecorded(steps, ItemAt(n).key);
      RecordedIsPresent(prog, cfg, world, ms, steps, n);
    }
  }

  lemma DoneIsRecorded(steps: seq<StepRecord>, key: Key)
    requires IsDone(steps, key)
    ensures Recorded(steps, key)
  {
  }

  ghost predicate IsFinished<W(!new)>(prog: P.Program<W>, world: W, ms: seq<P.Move<W>>, steps: seq<StepRecord>) {
    && P.Run(prog, P.Start(world), ms).Some?
    && var t := P.Run(prog, P.Start(world), ms).value;
       t.eng.proc.Idle? && t.pc == |prog.items| && t.eng.disk.steps == steps
  }

  /** A finished run has staged, dumped, preserved, stopped, converted and migrated, each
      where the deployment asks for it. */
  lemma FinishedPreparation<W(!new)>(prog: P.Program<W>, cfg: Config, world: W, ms: seq<P.Move<W>>,
        steps: seq<StepRecord>)
    requires IsRun(prog, cfg) && IsFinished(prog, world, ms, steps)
    ensures IsDone(steps, Key(Stage, "stage-image")) <==> cfg.container
    ensures IsDone(steps, Key(Stage, "stage-binary")) <==> !cfg.container && cfg.fetches
    ensures IsDone(steps, Key(Backup, "settings-dump")) <==> cfg.crosses
    ensures IsDone(steps, Key(Backup, "preserve-binary"))
    ensures IsDone(steps, Key(Cutover, "stop-service"))
    ensures IsDone(steps, Key(Stage, "convert-settings")) <==> cfg.crosses
    ensures IsDone(steps, Key(Backup, "preserve-plan")) <==> cfg.crosses
    ensures IsDone(steps, Key(Recovery, "recovery-cycle")) <==> cfg.crosses
  {
    hide IsRun, ItemAt, Present, IsDone, P.Run;
    PreparationNamed(cfg, 20);
    DoneWhere(prog, cfg, world, ms, 20);
    PreparationNamed(cfg, 21);
    DoneWhere(prog, cfg, world, ms, 21);
    PreparationNamed(cfg, 22);
    DoneWhere(prog, cfg, world, ms, 22);
    PreparationNamed(cfg, 23);
    DoneWhere(prog, cfg, world, ms, 23);
    PreparationNamed(cfg, 24);
    DoneWhere(prog, cfg, world, ms, 24);
    PreparationNamed(cfg, 25);
    DoneWhere(prog, cfg, world, ms, 25);
    PreparationNamed(cfg, 26);
    DoneWhere(prog, cfg, world, ms, 26);
    PreparationNamed(cfg, 27);
    DoneWhere(prog, cfg, world, ms, 27);
  }

  /** It has replaced the container, if there is one. */
  lemma FinishedContainer<W(!new)>(prog: P.Program<W>, cfg: Config, world: W, ms: seq<P.Move<W>>,
        steps: seq<StepRecord>)
    requires IsRun(prog, cfg) && IsFinished(prog, world, ms, steps)
    ensures IsDone(steps, Key(Cutover, "preserve-container-definition")) <==> cfg.container
    ensures IsDone(steps, Key(Cutover, "container-is-recreatable")) <==> cfg.container
    ensures IsDone(steps, Key(Cutover, "retire-old-container")) <==> cfg.container
    ensures IsDone(steps, Key(Cutover, "create-container")) <==> cfg.container
    ensures IsDone(steps, Key(Cutover, "wait-running")) <==> cfg.container
  {
    hide IsRun, ItemAt, Present, IsDone, P.Run;
    ContainerNamed(cfg, 28);
    DoneWhere(prog, cfg, world, ms, 28);
    ContainerNamed(cfg, 29);
    DoneWhere(prog, cfg, world, ms, 29);
    ContainerNamed(cfg, 30);
    DoneWhere(prog, cfg, world, ms, 30);
    ContainerNamed(cfg, 31);
    DoneWhere(prog, cfg, world, ms, 31);
    ContainerNamed(cfg, 32);
    DoneWhere(prog, cfg, world, ms, 32);
  }

  /** And otherwise the binary and what starts it. */
  lemma FinishedBinary<W(!new)>(prog: P.Program<W>, cfg: Config, world: W, ms: seq<P.Move<W>>,
        steps: seq<StepRecord>)
    requires IsRun(prog, cfg) && IsFinished(prog, world, ms, steps)
    ensures IsDone(steps, Key(Cutover, "verify-staged-binary")) <==> !cfg.container
    ensures IsDone(steps, Key(Cutover, "install-binary")) <==> !cfg.container
    ensures IsDone(steps, Key(Cutover, "install-config")) <==> !cfg.container
    ensures IsDone(steps, Key(Cutover, "update-service-definition")) <==> !cfg.container
    ensures IsDone(steps, Key(Cutover, "reload-service-definition")) <==> !cfg.container
    ensures IsDone(steps, Key(Cutover, "start-service")) <==> !cfg.container
  {
    hide IsRun, ItemAt, Present, IsDone, P.Run;
    BinaryNamed(cfg, 33);
    DoneWhere(prog, cfg, world, ms, 33);
    BinaryNamed(cfg, 34);
    DoneWhere(prog, cfg, world, ms, 34);
    BinaryNamed(cfg, 35);
    DoneWhere(prog, cfg, world, ms, 35);
    BinaryNamed(cfg, 36);
    DoneWhere(prog, cfg, world, ms, 36);
    BinaryNamed(cfg, 37);
    DoneWhere(prog, cfg, world, ms, 37);
    BinaryNamed(cfg, 38);
    DoneWhere(prog, cfg, world, ms, 38);
  }

  /** And it has seen the new instance healthy, with its content compared where there is
      a snapshot. */
  lemma FinishedChecks<W(!new)>(prog: P.Program<W>, cfg: Config, world: W, ms: seq<P.Move<W>>,
        steps: seq<StepRecord>)
    requires IsRun(prog, cfg) && IsFinished(prog, world, ms, steps)
    ensures IsDone(steps, Key(Cutover, "wait-healthy"))
    ensures IsDone(steps, Key(Validate, "content-integrity")) <==> cfg.compares
  {
    hide IsRun, ItemAt, Present, IsDone, P.Run;
    LastNamed(cfg, 39);
    DoneWhere(prog, cfg, world, ms, 39);
    LastNamed(cfg, 41);
    DoneWhere(prog, cfg, world, ms, 41);
  }
}
