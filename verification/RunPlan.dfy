/** The steps of one `run`, in order, for every kind of deployment:
    cmd/stalwart-migrate/run.go, with the checks of internal/preflight and the
    steps of internal/cutover and internal/validate it goes through. */
module RunPlan {
  import opened Checkpoint
  import opened History
  import opened HostFiles
  import M = Migration
  import P = Pipeline
  import R = Reachability

  /** What decides which steps a run has: whether it crosses the 0.15/0.16
      boundary, whether the deployment is a container, whether the target binary
      has to be fetched, and whether there is a snapshot to compare against. */
  datatype Config = Config(crosses: bool, container: bool, fetches: bool, compares: bool)

  const LAST := 42

  /** Every item any configuration can have, in order. */
  function ItemAt(n: nat): P.Item
    requires n < LAST
  {
    match n
    case 0 => P.Do(Key(Preflight, "version"), false)
    case 1 => P.Do(Key(Preflight, "target-release"), false)
    case 2 => P.Do(Key(Preflight, "upgrade-direction"), false)
    case 3 => P.Do(Key(Preflight, "stalwart-cli"), false)
    case 4 => P.Do(Key(Preflight, "python3"), false)
    case 5 => P.Do(Key(Preflight, "external-tools"), false)
    case 6 => P.Do(Key(Preflight, "deployment-kind"), false)
    case 7 => P.Do(Key(Preflight, "container-inspect"), false)
    case 8 => P.Maybe(Key(Preflight, "container-runtime"))
    case 9 => P.Maybe(Key(Preflight, "container-recreatable"))
    case 10 => P.Maybe(Key(Preflight, "container-data-volume"))
    case 11 => P.Do(Key(Preflight, "store-backend"), false)
    case 12 => P.Do(Key(Preflight, "cluster-config"), false)
    case 13 => P.Do(Key(Preflight, "disk-space"), false)
    case 14 => P.Do(Key(Preflight, "admin-reachable"), false)
    case 15 => P.Do(Key(Preflight, "account-snapshot"), false)
    case 16 => P.Do(Key(Preflight, "admin-account-kind"), false)
    case 17 => P.Do(Key(Preflight, "multi-tenancy"), false)
    case 18 => P.SaveState
    case 19 => P.Gate
    case 20 => P.Do(Key(Stage, "stage-image"), false)
    case 21 => P.Do(Key(Stage, "stage-binary"), false)
    case 22 => P.Do(Key(Backup, "settings-dump"), false)
    case 23 => P.Do(Key(Backup, "preserve-binary"), false)
    case 24 => P.Do(Key(Cutover, "stop-service"), false)
    case 25 => P.Do(Key(Stage, "convert-settings"), false)
    case 26 => P.Do(Key(Backup, "preserve-plan"), false)
    case 27 => P.Do(Key(Recovery, "recovery-cycle"), false)
    case 28 => P.Do(Key(Cutover, "preserve-container-definition"), false)
    case 29 => P.Do(Key(Cutover, "container-is-recreatable"), false)
    case 30 => P.Do(Key(Cutover, "retire-old-container"), false)
    case 31 => P.Do(Key(Cutover, "create-container"), false)
    case 32 => P.Do(Key(Cutover, "wait-running"), false)
    case 33 => P.Do(Key(Cutover, "verify-staged-binary"), false)
    case 34 => P.Do(Key(Cutover, "install-binary"), false)
    case 35 => P.Do(Key(Cutover, "install-config"), false)
    case 36 => P.Do(Key(Cutover, "update-service-definition"), false)
    case 37 => P.Do(Key(Cutover, "reload-service-definition"), false)
    case 38 => P.Do(Key(Cutover, "start-service"), false)
    case 39 => P.Do(Key(Cutover, "wait-healthy"), false)
    case 40 => P.Do(Key(Cutover, "recalculate-quotas"), true)
    case _ => P.Do(Key(Validate, "content-integrity"), false)
  }

  predicate Present(cfg: Config, n: nat) {
    match n
    case 3 => cfg.crosses
    case 4 => cfg.crosses
    case 5 => !cfg.crosses
    case 7 => cfg.container
    case 8 => cfg.container
    case 9 => cfg.container
    case 10 => cfg.container
    case 17 => cfg.crosses
    case 20 => cfg.container
    case 21 => !cfg.container && cfg.fetches
    case 22 => cfg.crosses
    case 25 => cfg.crosses
    case 26 => cfg.crosses
    case 27 => cfg.crosses
    case 28 => cfg.container
    case 29 => cfg.container
    case 30 => cfg.container
    case 31 => cfg.container
    case 32 => cfg.container
    case 33 => !cfg.container
    case 34 => !cfg.container
    case 35 => !cfg.container
    case 36 => !cfg.container
    case 37 => !cfg.container
    case 38 => !cfg.container
    case 41 => cfg.compares
    case _ => true
  }

  function ItemsFrom(cfg: Config, n: nat): seq<P.Item>
    requires n <= LAST
    decreases LAST - n
  {
    if n == LAST then []
    else (if Present(cfg, n) then [ItemAt(n)] else []) + ItemsFrom(cfg, n + 1)
  }

  /** The items of one run. */
  function Items(cfg: Config): seq<P.Item> {
    ItemsFrom(cfg, 0)
  }

  /** Where an item stands in the whole list, read off its key alone: any function
      of the key that does this shows that no two items are the same step, and
      lengths and letters are the cheapest thing to tell the names apart by. */
  function Place(item: P.Item): nat {
    match item
    case SaveState => 18
    case Gate => 19
    case Do(key, _) => PlaceOfKey(key)
    case Maybe(key) => PlaceOfKey(key)
  }

  function PlaceOfKey(key: Key): nat {
    var name := key.name;
    match key.phase
    case Preflight =>
      if |name| == 7 && name[0] == 'v' then 0
      else if |name| == 14 && name[0] == 't' then 1
      else if |name| == 17 && name[11] == 'e' then 2
      else if |name| == 12 then 3
      else if |name| == 7 && name[0] == 'p' then 4
      else if |name| == 14 && name[0] == 'e' then 5
      else if |name| == 15 && name[0] == 'd' then 6
      else if |name| == 17 && name[11] == 'n' then 7
      else if |name| == 17 && name[11] == 'u' then 8
      else if |name| == 21 && name[10] == 'r' then 9
      else if |name| == 21 && name[10] == 'd' then 10
      else if |name| == 13 && name[0] == 's' then 11
      else if |name| == 14 && name[0] == 'c' then 12
      else if |name| == 10 then 13
      else if |name| == 15 && name[0] == 'a' then 14
      else if |name| == 16 then 15
      else if |name| == 18 then 16
      else 17
    case Backup =>
      if |name| == 13 && name[0] == 's' then 22
      else if |name| == 15 then 23
      else 26
    case Stage =>
      if |name| == 11 then 20
      else if |name| == 12 then 21
      else 25
    case Recovery => 27
    case Cutover =>
      if |name| == 12 && name[5] == 's' then 24
      else if |name| == 29 then 28
      else if |name| == 24 then 29
      else if |name| == 20 && name[0] == 'r' then 30
      else if |name| == 16 then 31
      else if |name| == 12 && name[5] == 'r' then 32
      else if |name| == 20 && name[0] == 'v' then 33
      else if |name| == 14 && name[8] == 'b' then 34
      else if |name| == 14 && name[8] == 'c' then 35
      else if |name| == 25 && name[0] == 'u' then 36
      else if |name| == 25 && name[0] == 'r' then 37
      else if |name| == 13 then 38
      else if |name| == 12 && name[5] == 'h' then 39
      else 40
    case Validate => 41
  }

  lemma PlaceOfFirstCheck(n: nat)
    requires n < 6
    ensures Place(ItemAt(n)) == n
  {
  }

  lemma PlaceOfSecondCheck(n: nat)
    requires 6 <= n < 12
    ensures Place(ItemAt(n)) == n
  {
  }

  lemma PlaceOfThirdCheck(n: nat)
    requires 12 <= n < 20
    ensures Place(ItemAt(n)) == n
  {
  }

  lemma PlaceOfMiddle(n: nat)
    requires 20 <= n < 28
    ensures Place(ItemAt(n)) == n
  {
  }

  lemma PlaceOfInstall(n: nat)
    requires 28 <= n < 35
    ensures Place(ItemAt(n)) == n
  {
  }

  lemma PlaceOfStart(n: nat)
    requires 35 <= n < LAST
    ensures Place(ItemAt(n)) == n
  {
  }

  /** No two items are the same step. */
  lemma PlaceOfItem(n: nat)
    requires n < LAST
    ensures Place(ItemAt(n)) == n
  {
    hide Place, ItemAt;
    if n < 6 {
      PlaceOfFirstCheck(n);
    } else if n < 12 {
      PlaceOfSecondCheck(n);
    } else if n < 20 {
      PlaceOfThirdCheck(n);
    } else if n < 28 {
      PlaceOfMiddle(n);
    } else if n < 35 {
      PlaceOfInstall(n);
    } else {
      PlaceOfStart(n);
    }
  }

  ghost predicate InPlaces(items: seq<P.Item>, n: nat) {
    && (forall i :: 0 <= i < |items| ==> n <= Place(items[i]) < LAST)
    && (forall i, j :: 0 <= i < j < |items| ==> Place(items[i]) < Place(items[j]))
  }

  lemma PutFirst(items: seq<P.Item>, n: nat, item: P.Item)
    requires InPlaces(items, n + 1) && Place(item) == n < LAST
    ensures InPlaces([item] + items, n)
  {
    hide Place;
    var all := [item] + items;
    assert forall i :: 0 < i < |all| ==> all[i] == items[i - 1];
  }

  /** The items stand in strictly increasing places. */
  lemma {:induction false} ItemsInOrder(cfg: Config, n: nat)
    requires n <= LAST
    ensures InPlaces(ItemsFrom(cfg, n), n)
    decreases LAST - n
  {
    hide ItemAt, Place, Present;
    if n < LAST {
      PlaceOfItem(n);
      ItemsInOrder(cfg, n + 1);
      var rest := ItemsFrom(cfg, n + 1);
      if Present(cfg, n) {
        PutFirst(rest, n, ItemAt(n));
      } else {
        assert ItemsFrom(cfg, n) == rest;
      }
    }
  }

  /** Every item comes from the whole list, at its place, and is present. */
  lemma {:induction false} ItemsFromList(cfg: Config, n: nat, i: nat)
    requires n <= LAST && i < |ItemsFrom(cfg, n)|
    ensures var item := ItemsFrom(cfg, n)[i];
            Place(item) < LAST && item == ItemAt(Place(item)) && Present(cfg, Place(item))
    decreases LAST - n
  {
    hide ItemAt, Place, Present;
    PlaceOfItem(n);
    var rest := ItemsFrom(cfg, n + 1);
    if Present(cfg, n) {
      assert ItemsFrom(cfg, n) == [ItemAt(n)] + rest;
      if i > 0 {
        ItemsFromList(cfg, n + 1, i - 1);
      }
    } else {
      assert ItemsFrom(cfg, n) == rest;
      ItemsFromList(cfg, n + 1, i);
    }
  }

  /** Every present item of the whole list is there. */
  lemma {:induction false} IndexOfItem(cfg: Config, n: nat, m: nat) returns (i: nat)
    requires n <= m < LAST && Present(cfg, m)
    ensures i < |ItemsFrom(cfg, n)| && ItemsFrom(cfg, n)[i] == ItemAt(m)
    decreases LAST - n
  {
    hide ItemAt, Present;
    if n == m {
      i := 0;
    } else {
      i := IndexOfItem(cfg, n + 1, m);
      i := if Present(cfg, n) then i + 1 else i;
    }
  }

  // Places of the items that theorems below name.
  const GATE := 19
  const STAGE := 21
  const PRESERVE := 23
  const INSTALL := 34
  const UPDATE := 36
  const QUOTAS := 40

  lemma TolerantIsQuotas(n: nat)
    requires n < LAST && ItemAt(n).Do?
    ensures ItemAt(n).tolerant <==> n == QUOTAS
  {
  }

  /** Every run's list is well formed, and installs only after preserving. */
  lemma RunIsWellFormed(cfg: Config)
    ensures P.WellFormed(Items(cfg))
    ensures M.PreservesFirst(Items(cfg))
  {
    hide ItemsFrom, ItemAt, Place;
    var items := Items(cfg);
    ItemsInOrder(cfg, 0);
    SameKeySamePlace(cfg);
    forall t, g | 0 <= t < |items| && 0 <= g < |items| && items[t].Do? && items[t].tolerant && items[g].Gate?
      ensures g < t
    {
      ItemsFromList(cfg, 0, t);
      TolerantIsQuotas(Place(items[t]));
      GatePlace(items[g]);
    }
    forall j | 0 <= j < |items| && P.IsStep(items[j]) && items[j].key == M.INSTALL_BINARY
      ensures exists i :: 0 <= i < j && items[i] == P.Do(M.PRESERVE_BINARY, false)
    {
      PreservePlaces();
      InstallPlace(items[j]);
      var i := IndexOfItem(cfg, 0, PRESERVE);
      PlaceOfItem(PRESERVE);
    }
  }

  lemma GatePlace(item: P.Item)
    requires item.Gate?
    ensures Place(item) == GATE
  {
  }

  lemma PreservePlaces()
    ensures ItemAt(PRESERVE) == P.Do(M.PRESERVE_BINARY, false)
    ensures forall cfg :: Present(cfg, PRESERVE)
  {
  }

  lemma InstallPlace(item: P.Item)
    requires P.IsStep(item) && item.key == M.INSTALL_BINARY
    ensures Place(item) == INSTALL
  {
    assert |M.INSTALL_BINARY.name| == 14 && M.INSTALL_BINARY.name[8] == 'b';
  }

  lemma SameKeySamePlace(cfg: Config)
    ensures var items := Items(cfg);
            forall i, j :: 0 <= i < j < |items| && P.IsStep(items[i]) && P.IsStep(items[j]) ==>
                items[i].key != items[j].key
  {
    hide ItemAt, Place, Present, ItemsFrom;
    var items := Items(cfg);
    ItemsInOrder(cfg, 0);
    forall i, j | 0 <= i < j < |items| && P.IsStep(items[i]) && P.IsStep(items[j])
      ensures items[i].key != items[j].key
    {
      if items[i].key == items[j].key {
        KeyGivesPlace(items[i], items[j]);
      }
    }
  }

  lemma KeyGivesPlace(a: P.Item, b: P.Item)
    requires P.IsStep(a) && P.IsStep(b) && a.key == b.key
    ensures Place(a) == Place(b)
  {
  }

  // ------------------------------------------------------- what holds of a run

  predicate IsRun<W>(prog: P.Program<W>, cfg: Config) {
    prog.items == Items(cfg)
  }

  /** The records of state.json in some reachable state of a run. */
  ghost predicate Reachable<W(!new)>(prog: P.Program<W>, world: W, ms: seq<P.Move<W>>, steps: seq<StepRecord>) {
    P.Run(prog, P.Start(world), ms).Some? && P.Run(prog, P.Start(world), ms).value.eng.disk.steps == steps
  }

  /** Where two items of the whole list stand in a run's own. */
  lemma Positions(cfg: Config, m: nat, n: nat) returns (i: nat, j: nat)
    requires m < n < LAST && Present(cfg, m) && Present(cfg, n)
    ensures i < j < |Items(cfg)| && Items(cfg)[i] == ItemAt(m) && Items(cfg)[j] == ItemAt(n)
  {
    hide ItemAt, Present, Place, ItemsFrom;
    ItemsInOrder(cfg, 0);
    i := IndexOfItem(cfg, 0, m);
    j := IndexOfItem(cfg, 0, n);
    PlaceOfItem(m);
    PlaceOfItem(n);
  }

  /** In every reachable state.json of a run, a recorded step has every earlier
      step of its configuration done, excepting the three container checks that a
      process passes over when it cannot inspect the container, and the quota step:
      that is running exactly when the last event on it to reach the disk is a
      begin, and otherwise done or failed as its last reply there says. */
  lemma RecordedInOrder<W(!new)>(prog: P.Program<W>, cfg: Config, world: W, ms: seq<P.Move<W>>, steps: seq<StepRecord>,
        m: nat, n: nat)
    requires IsRun(prog, cfg) && Reachable(prog, world, ms, steps)
    requires m < n < LAST && Present(cfg, m) && Present(cfg, n) && ItemAt(m).Do? && P.IsStep(ItemAt(n))
    requires Recorded(steps, ItemAt(n).key)
    ensures var key, es := ItemAt(m).key, P.RunEvents(prog, P.Start(world), ms);
            if m == QUOTAS then
              && Recorded(steps, key) && StatusOf(steps, key) in {Running, Done, Failed} && Tells(es, steps, key)
              && (StatusOf(steps, key) == Running <==>
                    exists a: nat :: LastOnDisk(es, |es|, OnStep(key), a) && es[a].Begin?)
            else IsDone(steps, key)
  {
    hide Items, ItemAt, Present, IsDone, Recorded, P.WellFormed, M.PreservesFirst, P.Run, P.RunEvents, Tells,
         LastOnDisk;
    RunIsWellFormed(cfg);
    var i, j := Positions(cfg, m, n);
    P.PipelinePrefix(prog, world, ms, i, j);
    TolerantIsQuotas(m);
    if m == QUOTAS {
      P.TolerantStatus(prog, world, ms, i, j);
    }
  }

  /** Both ways the quota step can be left running behind a later step, on every
      list that has one: its start was not saved; or it failed, and a later process
      was killed in its body, with every save landing. */
  lemma QuotaMayStayRunning(cfg: Config, n: nat) returns (unsaved: R.Moves, killed: R.Moves)
    requires QUOTAS < n < LAST && Present(cfg, n) && P.IsStep(ItemAt(n))
    ensures LeavesRunning(R.Anything(Items(cfg)), unsaved, RECALCULATE, ItemAt(n).key)
    ensures LeavesRunning(R.Anything(Items(cfg)), killed, RECALCULATE, ItemAt(n).key) && R.AllSaved(killed)
  {
    hide Items, ItemAt, Present, IsDone, P.WellFormed, M.PreservesFirst, P.Run, StatusOf;
    RunIsWellFormed(cfg);
    QuotasIsTolerant(cfg);
    var q, j := Positions(cfg, QUOTAS, n);
    unsaved := R.UnsavedStart(Items(cfg), q, j);
    killed := R.KilledOnResume(Items(cfg), q, j);
  }

  /** A run from the start that ends with one step running and another done in state.json. */
  ghost predicate LeavesRunning(prog: P.Program<int>, ms: R.Moves, running: Key, done: Key) {
    && P.Run(prog, P.Start(0), ms).Some?
    && StatusOf(P.Run(prog, P.Start(0), ms).value.eng.disk.steps, running) == Running
    && IsDone(P.Run(prog, P.Start(0), ms).value.eng.disk.steps, done)
  }

  const RECALCULATE := Key(Cutover, "recalculate-quotas")

  lemma QuotasIsTolerant(cfg: Config)
    ensures Present(cfg, QUOTAS) && ItemAt(QUOTAS) == P.Do(RECALCULATE, true)
  {
  }

  lemma ItemsAreItemsFrom(cfg: Config)
    ensures Items(cfg) == ItemsFrom(cfg, 0)
  {
  }

  /** A failing preflight verdict, except on one of those three checks, is
      permanent for the run: it stays recorded, and no step after preflight ever is. */
  lemma FailedPreflightIsFinal<W(!new)>(prog: P.Program<W>, cfg: Config, world: W, before: seq<P.Move<W>>,
        after: seq<P.Move<W>>, m: nat, n: nat)
    requires IsRun(prog, cfg)
    requires m < GATE < n < LAST && Present(cfg, m) && Present(cfg, n) && ItemAt(m).Do? && P.IsStep(ItemAt(n))
    requires P.Run(prog, P.Start(world), before).Some?
    requires P.Refused(P.Run(prog, P.Start(world), before).value.eng.disk.steps, ItemAt(m).key)
    requires P.Run(prog, P.Run(prog, P.Start(world), before).value, after).Some?
    ensures var steps := P.Run(prog, P.Run(prog, P.Start(world), before).value, after).value.eng.disk.steps;
            P.Refused(steps, ItemAt(m).key) && !Recorded(steps, ItemAt(n).key)
  {
    hide Items, ItemAt, Present, IsDone, Recorded, P.WellFormed, M.PreservesFirst, P.Refused, P.Run;
    RunIsWellFormed(cfg);
    GateIsPresent(cfg);
    var h, g := Positions(cfg, m, GATE);
    var g', j := Positions(cfg, GATE, n);
    SamePosition(cfg, g, g');
    P.BlockedForever(prog, world, before, after, h, g, j);
  }

  lemma OnlyChecksAreMaybe(n: nat)
    requires n < LAST && ItemAt(n).Maybe?
    ensures ItemAt(n).key.phase == Preflight && n < GATE
  {
  }

  /** The gate is the only one. */
  lemma OnlyGate(cfg: Config, i: nat, j: nat)
    requires i < |Items(cfg)| && j < |Items(cfg)| && Items(cfg)[i].Gate? && Items(cfg)[j].Gate?
    ensures i == j
  {
    hide ItemAt, Present, Place, ItemsFrom;
    ItemsInOrder(cfg, 0);
    GatePlace(Items(cfg)[i]);
    GatePlace(Items(cfg)[j]);
  }

  /** A refusal by a check that can be passed over does not block: in some run of
      the list it is on record and a step after the gate is recorded all the same. */
  lemma PassedOverRefusalDoesNotBlock(cfg: Config, m: nat, n: nat) returns (before: R.Moves, after: R.Moves)
    requires m < GATE < n < LAST && Present(cfg, m) && Present(cfg, n) && ItemAt(m).Maybe? && P.IsStep(ItemAt(n))
    ensures Breaks(R.Anything(Items(cfg)), 0, before, after, ItemAt(m).key, ItemAt(n).key)
  {
    hide Items, ItemAt, Present, P.WellFormed, M.PreservesFirst, P.Run, P.Refused, Recorded;
    RunIsWellFormed(cfg);
    GateIsPresent(cfg);
    var i, g := Positions(cfg, m, GATE);
    var g', j := Positions(cfg, GATE, n);
    SamePosition(cfg, g, g');
    forall k | i < k < g
      ensures !Items(cfg)[k].Gate?
    {
      if Items(cfg)[k].Gate? { OnlyGate(cfg, k, g); }
    }
    assert ItemAt(n).Do? by {
      if ItemAt(n).Maybe? { OnlyChecksAreMaybe(n); }
    }
    before, after := R.RefusalPassedOver(Items(cfg), i, g, j);
  }

  /** A run in which the check is refused and the later step recorded after that. */
  ghost predicate Breaks<W(!new)>(prog: P.Program<W>, world: W, before: seq<P.Move<W>>, after: seq<P.Move<W>>,
        check: Key, later: Key) {
    && P.Run(prog, P.Start(world), before).Some?
    && P.Refused(P.Run(prog, P.Start(world), before).value.eng.disk.steps, check)
    && P.Run(prog, P.Run(prog, P.Start(world), before).value, after).Some?
    && Recorded(P.Run(prog, P.Run(prog, P.Start(world), before).value, after).value.eng.disk.steps, later)
  }

  /** Whatever its steps do, no run of the list gets past a refusal by check m. */
  ghost predicate RefusalIsFinal(cfg: Config, m: nat)
    requires m < LAST && P.IsStep(ItemAt(m))
  {
    forall prog: P.Program<int>, world, before, after, n: nat ::
      IsRun(prog, cfg) && GATE < n < LAST && Present(cfg, n) && P.IsStep(ItemAt(n)) ==>
        !Breaks(prog, world, before, after, ItemAt(m).key, ItemAt(n).key)
  }

  /** A preflight refusal is final for the run exactly when its check is one that
      every process comes by. */
  lemma RefusalIsFinalExactly(cfg: Config, m: nat)
    requires m < GATE && Present(cfg, m) && P.IsStep(ItemAt(m))
    ensures RefusalIsFinal(cfg, m) <==> ItemAt(m).Do?
  {
    hide Items, ItemAt, Present, P.Run, P.Refused, Recorded, P.WellFormed;
    if ItemAt(m).Do? {
      forall prog: P.Program<int>, world, before, after, n: nat |
          IsRun(prog, cfg) && GATE < n < LAST && Present(cfg, n) && P.IsStep(ItemAt(n))
        ensures !Breaks(prog, world, before, after, ItemAt(m).key, ItemAt(n).key)
      {
        if Breaks(prog, world, before, after, ItemAt(m).key, ItemAt(n).key) {
          FailedPreflightIsFinal(prog, cfg, world, before, after, m, n);
        }
      }
    } else {
      QuotasIsTolerant(cfg);
      var before, after := PassedOverRefusalDoesNotBlock(cfg, m, QUOTAS);
      assert IsRun(R.Anything(Items(cfg)), cfg);
    }
  }

  lemma SamePosition(cfg: Config, i: nat, j: nat)
    requires i < |Items(cfg)| && j < |Items(cfg)| && Items(cfg)[i] == Items(cfg)[j]
    ensures i == j
  {
    hide ItemAt, Present, Place;
    ItemsInOrder(cfg, 0);
  }

  lemma GateIsPresent(cfg: Config)
    ensures Present(cfg, GATE) && ItemAt(GATE).Gate?
  {
  }

  /** Over every run of a binary deployment, through any kills, failed saves and
      resumes, the operator's binary and unit are never lost. */
  lemma RunLosesNothing(prog: P.Program<Files>, cfg: Config, p: Paths, oldBinary: string, oldUnit: string,
        w: Files, ms: seq<P.Move<Files>>)
    requires IsRun(prog, cfg) && !cfg.container && M.Respects(prog, p) && p.Apart()
    requires M.Original(p, oldBinary, oldUnit, w)
    requires P.Run(prog, P.Start(w), ms).Some?
    ensures var t := P.Run(prog, P.Start(w), ms).value;
            && M.OldBinaryKept(p, oldBinary, t.world)
            && M.UnitSafe(p, oldUnit, t.world)
  {
    hide M.Respects, M.Original, M.OldBinaryKept, M.UnitSafe, Items, P.WellFormed, M.PreservesFirst, M.Promised, P.Run;
    RunIsWellFormed(cfg);
    M.NothingIsLost(prog, p, oldBinary, oldUnit, w, ms);
  }

  /** A run that finishes, however often it was interrupted, leaves the old
      binary and the old unit preserved and the live unit rewritten. */
  lemma FinishedRunIsMigrated(prog: P.Program<Files>, cfg: Config, p: Paths, oldBinary: string,
        oldUnit: string, w: Files, ms: seq<P.Move<Files>>)
    requires IsRun(prog, cfg) && !cfg.container && M.Respects(prog, p) && p.Apart()
    requires M.Original(p, oldBinary, oldUnit, w)
    requires P.Run(prog, P.Start(w), ms).Some?
    requires var t := P.Run(prog, P.Start(w), ms).value; t.eng.proc.Idle? && t.pc == |prog.items|
    ensures var t := P.Run(prog, P.Start(w), ms).value;
            && Readable(t.world, p.binary + ".v" + p.sourceVersion)
            && t.world[p.binary + ".v" + p.sourceVersion].value == oldBinary
            && Readable(t.world, p.unit + ".pre-" + p.runID) && t.world[p.unit + ".pre-" + p.runID].value == oldUnit
            && M.IsRewritten(p, oldUnit, t.world)
  {
    hide M.Respects, M.IsRewritten, Items, P.WellFormed, M.PreservesFirst, P.Run, ItemAt, Present;
    RunIsWellFormed(cfg);
    assert Items(cfg) == ItemsFrom(cfg, 0) by { ItemsAreItemsFrom(cfg); }
    BinarySteps(cfg);
    var i := IndexOfItem(cfg, 0, PRESERVE);
    var j := IndexOfItem(cfg, 0, UPDATE);
    M.FinishedKeepsPromises(prog, p, oldBinary, oldUnit, w, ms, i, j);
  }

  lemma BinarySteps(cfg: Config)
    requires !cfg.container
    ensures Present(cfg, PRESERVE) && ItemAt(PRESERVE) == P.Do(M.PRESERVE_BINARY, false)
    ensures Present(cfg, UPDATE) && ItemAt(UPDATE) == P.Do(M.UPDATE_UNIT, false)
  {
  }
}
