/** What a finished run of a binary deployment has made of the operator's files, and
    when a run can finish. */
module MigratedFiles {
  import opened Prelude
  import opened AtomicFile
  import opened Checkpoint
  import opened HostFiles
  import opened RunPlan
  import opened ResumedRun
  import opened UnitFile
  import C = CleanRun
  import M = Migration
  import P = Pipeline
  import S = Resume

  // ------------------------------------------------- the world between two places

  /** The items of a run that come before place n. */
  function Upto(cfg: Config, n: nat): seq<P.Item>
    requires n <= LAST
  {
    if n == 0 then [] else Upto(cfg, n - 1) + if Present(cfg, n - 1) then [ItemAt(n - 1)] else []
  }

  lemma NextPlace(cfg: Config, n: nat)
    requires n < LAST
    ensures Upto(cfg, n) + ItemsFrom(cfg, n) == Upto(cfg, n + 1) + ItemsFrom(cfg, n + 1)
  {
    hide ItemAt, Present;
    var own := if Present(cfg, n) then [ItemAt(n)] else [];
    assert ItemsFrom(cfg, n) == own + ItemsFrom(cfg, n + 1);
    assert Upto(cfg, n + 1) == Upto(cfg, n) + own;
  }

  lemma {:induction false} UptoAndFrom(cfg: Config, n: nat)
    requires n <= LAST
    ensures Items(cfg) == Upto(cfg, n) + ItemsFrom(cfg, n)
  {
    hide ItemAt, Present, Items, ItemsFrom;
    if n == 0 {
      ItemsAreItemsFrom(cfg);
    } else {
      UptoAndFrom(cfg, n - 1);
      NextPlace(cfg, n - 1);
    }
  }

  /** The files once every step before place n has had its effect. */
  function Before(cfg: Config, p: Paths, target: string, w: Files, n: nat): Option<Files>
    requires n <= LAST
  {
    if n == 0 then Some(w)
    else
      match Before(cfg, p, target, w, n - 1)
      case None => None
      case Some(x) =>
        if Present(cfg, n - 1) && ItemAt(n - 1).Do? then FileEffect(p, target, ItemAt(n - 1).key, x) else Some(x)
  }

  lemma CanonNext(cfg: Config, p: Paths, target: string, says: Says, w: Files, i: nat)
    requires i < |Items(cfg)|
    ensures var effect := RunEffect(cfg, p, target, says);
            var c := S.Canon(Items(cfg), effect, w, i);
            S.Canon(Items(cfg), effect, w, i + 1)
            == if c.Some? && Items(cfg)[i].Do? then FileEffect(p, target, Items(cfg)[i].key, c.value) else c
  {
    hide FileEffect, Items;
    var items, effect := Items(cfg), RunEffect(cfg, p, target, says);
    var c := S.Canon(items, effect, w, i);
    if c.Some? && items[i].Do? {
      assert effect(i, c.value) == match FileEffect(p, target, items[i].key, c.value)
                                   case None => None
                                   case Some(after) => Some((after, says(i)));
    }
  }

  lemma {:induction false} CanonIsBefore(cfg: Config, p: Paths, target: string, says: Says, w: Files, n: nat)
    requires n <= LAST
    ensures |Upto(cfg, n)| <= |Items(cfg)|
    ensures S.Canon(Items(cfg), RunEffect(cfg, p, target, says), w, |Upto(cfg, n)|) == Before(cfg, p, target, w, n)
  {
    hide ItemAt, Present, FileEffect, Items, ItemsFrom, S.Canon, RunEffect;
    UptoAndFrom(cfg, n);
    if n == 0 {
      NoCanon(Items(cfg), RunEffect(cfg, p, target, says), w);
    } else {
      CanonIsBefore(cfg, p, target, says, w, n - 1);
      if Present(cfg, n - 1) {
        assert Upto(cfg, n)[|Upto(cfg, n - 1)|] == ItemAt(n - 1);
        CanonNext(cfg, p, target, says, w, |Upto(cfg, n - 1)|);
      }
    }
  }

  lemma NoCanon(items: seq<P.Item>, effect: S.Effect<Files>, w: Files)
    ensures S.Canon(items, effect, w, 0) == Some(w)
  {
  }

  predicate FilePlace(n: nat) {
    n in {STAGE, PRESERVE, INSTALL, UPDATE}
  }

  lemma OnlyFilePlaces(n: nat)
    requires n < LAST && ItemAt(n).Do? && !FilePlace(n)
    ensures !MovesFiles(ItemAt(n).key)
  {
    hide ItemAt, Place;
    PlaceOfItem(n);
    FilePlaces();
  }

  lemma {:induction false} BeforeStays(cfg: Config, p: Paths, target: string, w: Files, m: nat, n: nat)
    requires m <= n <= LAST && forall k :: m <= k < n ==> !FilePlace(k)
    ensures Before(cfg, p, target, w, n) == Before(cfg, p, target, w, m)
  {
    hide ItemAt, Present, PreserveBinaryEffect, InstallBinaryEffect, UpdateUnitEffect;
    if m < n {
      BeforeStays(cfg, p, target, w, m, n - 1);
      if ItemAt(n - 1).Do? {
        OnlyFilePlaces(n - 1);
      }
    }
  }

  // ---------------------------------------------------------- what a run comes to

  function Staged(cfg: Config, p: Paths, target: string, w: Files): Files {
    if cfg.fetches then w[p.staged := Intact(target)] else w
  }

  /** The four file steps one after another, on nothing but the files. */
  function Migrated(cfg: Config, p: Paths, target: string, w: Files): Option<Files> {
    match PreserveBinaryEffect(p, Staged(cfg, p, target, w))
    case None => None
    case Some(kept) =>
      match InstallBinaryEffect(p, kept)
      case None => None
      case Some(installed) => UpdateUnitEffect(p, installed)
  }

  lemma FileItems(cfg: Config)
    requires !cfg.container
    ensures ItemAt(STAGE) == P.Do(STAGE_BINARY, false) && (Present(cfg, STAGE) <==> cfg.fetches)
    ensures ItemAt(PRESERVE) == P.Do(M.PRESERVE_BINARY, false) && Present(cfg, PRESERVE)
    ensures ItemAt(INSTALL) == P.Do(M.INSTALL_BINARY, false) && Present(cfg, INSTALL)
    ensures ItemAt(UPDATE) == P.Do(M.UPDATE_UNIT, false) && Present(cfg, UPDATE)
    ensures STAGE_BINARY !in {M.PRESERVE_BINARY, M.INSTALL_BINARY, M.UPDATE_UNIT}
  {
  }

  lemma BeforeIsMigrated(cfg: Config, p: Paths, target: string, w: Files, n: nat)
    requires !cfg.container && UPDATE < n <= LAST
    ensures Before(cfg, p, target, w, n) == Migrated(cfg, p, target, w)
  {
    hide ItemAt, Present, PreserveBinaryEffect, InstallBinaryEffect, UpdateUnitEffect;
    FileItems(cfg);
    M.KeysDiffer();
    BeforeStays(cfg, p, target, w, 0, STAGE);
    assert Before(cfg, p, target, w, STAGE + 1) == Some(Staged(cfg, p, target, w));
    BeforeStays(cfg, p, target, w, STAGE + 1, PRESERVE);
    BeforeStays(cfg, p, target, w, PRESERVE + 1, INSTALL);
    BeforeStays(cfg, p, target, w, INSTALL + 1, UPDATE);
    BeforeStays(cfg, p, target, w, UPDATE + 1, n);
  }

  ghost predicate Finishes(prog: P.Program<Files>, w: Files, ms: seq<P.Move<Files>>) {
    P.Run(prog, P.Start(w), ms).Some? && S.Finished(prog, P.Run(prog, P.Start(w), ms).value)
  }

  /** Where the list has its quota step. */
  lemma QuotasAfterUpto(cfg: Config, n: nat)
    requires n < |Items(cfg)| && Items(cfg)[n] == ItemAt(QUOTAS)
    ensures n == |Upto(cfg, QUOTAS)|
  {
    hide ItemAt, Present, Items, ItemsFrom;
    UptoAndFrom(cfg, QUOTAS);
    QuotasIsTolerant(cfg);
    FirstOfRest(cfg, QUOTAS);
    SamePosition(cfg, n, |Upto(cfg, QUOTAS)|);
  }

  lemma FirstOfRest(cfg: Config, n: nat)
    requires n < LAST && Present(cfg, n)
    ensures ItemsFrom(cfg, n) != [] && ItemsFrom(cfg, n)[0] == ItemAt(n)
  {
    hide ItemAt, Present;
  }

  /** However often it was interrupted, a run that finishes has made of the files
      what the four steps make of them one after another. */
  lemma FinishedRunIs(cfg: Config, p: Paths, target: string, says: Says, w: Files, ms: seq<P.Move<Files>>)
    requires !cfg.container && Finishes(FileProgram(cfg, p, target, says), w, ms)
    ensures Migrated(cfg, p, target, w) == Some(P.Run(FileProgram(cfg, p, target, says), P.Start(w), ms).value.world)
  {
    hide Items, P.Run, S.Premises, IsDone, OutcomeOf, Migrated, Before, S.Canon;
    var n := FileRunIsResumable(cfg, p, target, says);
    S.FinishedIsCanonical(FileProgram(cfg, p, target, says), RunEffect(cfg, p, target, says), w, n, ms);
    QuotasAfterUpto(cfg, n);
    CanonIsBefore(cfg, p, target, says, w, QUOTAS);
    BeforeIsMigrated(cfg, p, target, w, QUOTAS);
  }

  // ------------------------------------------------------- when a run can finish

  /** No check before the gate says "fail". */
  ghost predicate ChecksPass(cfg: Config, says: Says) {
    forall i: nat, g: nat :: i < g < |Items(cfg)| && Items(cfg)[i].Do? && Items(cfg)[g].Gate? ==>
      says(i).verdict != P.FAIL
  }

  lemma FileStepsPerform(cfg: Config, p: Paths, target: string, says: Says)
    requires ChecksPass(cfg, says)
    ensures C.Performs(FileProgram(cfg, p, target, says), RunEffect(cfg, p, target, says))
    ensures C.NoRefusal(FileProgram(cfg, p, target, says), RunEffect(cfg, p, target, says))
  {
    hide Items, FileEffect;
    var prog, effect, items := FileProgram(cfg, p, target, says), RunEffect(cfg, p, target, says), Items(cfg);
    forall i: nat, w | i < |items| && items[i].Do? && effect(i, w).Some?
      ensures prog.completes(i, w, effect(i, w).value.0, effect(i, w).value.1)
      ensures effect(i, w).value.1 == says(i)
    {
      assert FileEffect(p, target, items[i].key, w).Some?;
    }
  }

  lemma ARunFinishes(cfg: Config, p: Paths, target: string, says: Says, w: Files) returns (ms: seq<P.Move<Files>>)
    requires !cfg.container && Migrated(cfg, p, target, w).Some? && ChecksPass(cfg, says)
    ensures Finishes(FileProgram(cfg, p, target, says), w, ms)
  {
    hide Items, P.Run, Migrated, Before, FileEffect, P.WellFormed, M.PreservesFirst, S.Canon, C.Performs, C.NoRefusal;
    RunIsWellFormed(cfg);
    CanonIsBefore(cfg, p, target, says, w, LAST);
    BeforeIsMigrated(cfg, p, target, w, LAST);
    UptoAndFrom(cfg, LAST);
    assert Upto(cfg, LAST) == Items(cfg);
    FileStepsPerform(cfg, p, target, says);
    ms := C.FinishesWhen(FileProgram(cfg, p, target, says), RunEffect(cfg, p, target, says), w);
  }

  lemma AfterGate(cfg: Config, g: nat) returns (j: nat)
    requires !cfg.container && g < |Items(cfg)| && Items(cfg)[g].Gate?
    ensures g < j < |Items(cfg)| && Items(cfg)[j] == P.Do(M.PRESERVE_BINARY, false)
  {
    hide ItemAt, Present, Items, Place;
    FileItems(cfg);
    GateIsPresent(cfg);
    PlaceOfItem(GATE);
    var g';
    g', j := Positions(cfg, GATE, PRESERVE);
    OnlyGate(cfg, g, g');
  }

  lemma NotTolerant(items: seq<P.Item>, i: nat, g: nat)
    requires P.WellFormed(items) && i < g < |items| && items[i].Do? && items[g].Gate?
    ensures !items[i].tolerant
  {
  }

  lemma DoneIsRecorded(steps: seq<StepRecord>, key: Key)
    requires IsDone(steps, key)
    ensures Recorded(steps, key)
  {
  }

  /** A run that finished was not stopped at the gate. */
  lemma FinishedChecksPass(cfg: Config, p: Paths, target: string, says: Says, w: Files, ms: seq<P.Move<Files>>)
    requires !cfg.container && Finishes(FileProgram(cfg, p, target, says), w, ms)
    ensures ChecksPass(cfg, says)
  {
    hide Items, P.Run, S.Premises, IsDone, OutcomeOf, P.WellFormed, ItemAt, Present, P.RunEvents, M.PreservesFirst;
    var prog, effect, items := FileProgram(cfg, p, target, says), RunEffect(cfg, p, target, says), Items(cfg);
    var n := FileRunIsResumable(cfg, p, target, says);
    RunIsWellFormed(cfg);
    S.FinishedIsCanonical(prog, effect, w, n, ms);
    forall i: nat, g: nat | i < g < |items| && items[i].Do? && items[g].Gate?
      ensures says(i).verdict != P.FAIL
    {
      var j := AfterGate(cfg, g);
      DoneIsRecorded(P.Run(prog, P.Start(w), ms).value.eng.disk.steps, items[j].key);
      P.PipelinePrefix(prog, w, ms, g, j);
      NotTolerant(items, i, g);
    }
  }

  /** From given files, and with what its steps say, a run can finish exactly when each
      file step in turn finds what it needs and no check before the gate says "fail". */
  lemma CanFinishExactly(cfg: Config, p: Paths, target: string, says: Says, w: Files)
    requires !cfg.container
    ensures (exists ms :: Finishes(FileProgram(cfg, p, target, says), w, ms))
            <==> Migrated(cfg, p, target, w).Some? && ChecksPass(cfg, says)
  {
    hide Finishes, Migrated, ChecksPass;
    forall ms | Finishes(FileProgram(cfg, p, target, says), w, ms)
      ensures Migrated(cfg, p, target, w).Some? && ChecksPass(cfg, says)
    {
      FinishedRunIs(cfg, p, target, says, w, ms);
      FinishedChecksPass(cfg, p, target, says, w, ms);
    }
    if Migrated(cfg, p, target, w).Some? && ChecksPass(cfg, says) {
      var ms := ARunFinishes(cfg, p, target, says, w);
    }
  }

  /** The staged binary is none of the operator's own files. */
  predicate StagedApart(p: Paths) {
    p.staged !in {p.binary, p.OldBinary(), p.unit, p.OldUnit()}
  }

  /** What the file steps need, of the files a run starts from. */
  predicate Ready(cfg: Config, p: Paths, w: Files) {
    && p.sourceVersion != "" && (p.OldBinary() in w || p.binary in w)
    && (cfg.fetches || Readable(w, p.staged))
    && UpdateUnitEffect(p, w).Some?
  }

  /** The unit's step finds what it needs exactly when it would have at the start. */
  lemma UnitUntouched(p: Paths, w: Files, x: Files)
    requires p.unit in w <==> p.unit in x
    requires p.unit in w ==> x[p.unit] == w[p.unit]
    requires p.OldUnit() in w <==> p.OldUnit() in x
    requires p.OldUnit() in w ==> x[p.OldUnit()] == w[p.OldUnit()]
    ensures UpdateUnitEffect(p, x).Some? <==> UpdateUnitEffect(p, w).Some?
  {
    hide Rewritten;
  }

  /** The binary's steps, seen from the start: where the old bytes and the new ones go. */
  lemma Installed(cfg: Config, p: Paths, target: string, w: Files)
    requires p.Apart() && StagedApart(p)
    ensures Migrated(cfg, p, target, w).Some? <==> Ready(cfg, p, w)
    ensures Migrated(cfg, p, target, w).Some? ==>
              var x, staged := Migrated(cfg, p, target, w).value, Staged(cfg, p, target, w);
              && Readable(staged, p.staged) && p.binary in x && x[p.binary] == staged[p.staged]
              && p.OldBinary() in x
              && x[p.OldBinary()] == if p.OldBinary() in w then w[p.OldBinary()] else w[p.binary]
  {
    hide UpdateUnitEffect;
    PreservedElsewhere(p);
    var staged := Staged(cfg, p, target, w);
    if PreserveBinaryEffect(p, staged).Some? && InstallBinaryEffect(p, PreserveBinaryEffect(p, staged).value).Some? {
      var x := InstallBinaryEffect(p, PreserveBinaryEffect(p, staged).value).value;
      UnitUntouched(p, w, x);
      if UpdateUnitEffect(p, x).Some? {
        UnitStepKeepsBinaries(p, x);
      }
    }
  }

  lemma UnitStepKeepsBinaries(p: Paths, w: Files)
    requires p.Apart() && UpdateUnitEffect(p, w).Some?
    ensures var x := UpdateUnitEffect(p, w).value;
            && (p.binary in x <==> p.binary in w) && (p.binary in w ==> x[p.binary] == w[p.binary])
            && (p.OldBinary() in x <==> p.OldBinary() in w)
            && (p.OldBinary() in w ==> x[p.OldBinary()] == w[p.OldBinary()])
  {
    hide Rewritten;
  }

  /** A run that finishes has kept the old binary's bytes exactly when nothing different
      was at the preserved path, or the new binary is the same. */
  lemma OldBinarySurvivesExactly(cfg: Config, p: Paths, target: string, says: Says, oldBinary: string, w: Files,
        ms: seq<P.Move<Files>>)
    requires !cfg.container && p.Apart() && StagedApart(p) && p.binary in w && w[p.binary] == Intact(oldBinary)
    requires Finishes(FileProgram(cfg, p, target, says), w, ms)
    ensures Readable(Staged(cfg, p, target, w), p.staged)
    ensures M.OldBinaryKept(p, oldBinary, P.Run(FileProgram(cfg, p, target, says), P.Start(w), ms).value.world)
            <==> || p.OldBinary() !in w || w[p.OldBinary()] == Intact(oldBinary)
                 || Staged(cfg, p, target, w)[p.staged] == Intact(oldBinary)
  {
    hide P.Run, FileProgram, Migrated, Staged, Ready;
    FinishedRunIs(cfg, p, target, says, w, ms);
    Installed(cfg, p, target, w);
  }

  // ------------------------------------------------- the theorems on files, met

  /** These runs are among those that nothing is lost in. */
  lemma FileProgramRespects(cfg: Config, p: Paths, target: string, says: Says)
    requires StagedApart(p)
    ensures M.Respects(FileProgram(cfg, p, target, says), p)
  {
    hide Items, FileEffect, FileLeaves, M.Completes, M.Leaves, StagedApart;
    var prog := FileProgram(cfg, p, target, says);
    forall i: nat, w, after, o | i < |prog.items| && P.IsStep(prog.items[i]) && prog.completes(i, w, after, o)
      ensures M.Completes(p, prog.items[i].key, w, after)
    {
      EffectRespects(p, target, prog.items[i].key, w, after);
    }
    forall i: nat, w, after | i < |prog.items| && P.IsStep(prog.items[i]) && prog.interrupts(i, w, after)
      ensures M.Leaves(p, prog.items[i].key, w, after)
    {
      EffectRespects(p, target, prog.items[i].key, w, after);
    }
  }

  lemma EffectRespects(p: Paths, target: string, key: Key, w: Files, after: Files)
    requires StagedApart(p)
    ensures FileEffect(p, target, key, w) == Some(after) ==> M.Completes(p, key, w, after)
    ensures FileLeaves(p, key, w, after) ==> M.Leaves(p, key, w, after)
  {
    hide PreserveBinaryEffect, InstallBinaryEffect, UpdateUnitEffect;
    assert STAGE_BINARY !in {M.PRESERVE_BINARY, M.INSTALL_BINARY, M.UPDATE_UNIT};
    if key == STAGE_BINARY && after - {p.staged} == w - {p.staged} {
      StagingKeepsFiles(p, w, after);
    }
  }

  lemma StagingKeepsFiles(p: Paths, w: Files, after: Files)
    requires StagedApart(p) && after - {p.staged} == w - {p.staged}
    ensures M.SameFiles(p, w, after)
  {
    forall path | path != p.staged
      ensures path in w <==> path in after
      ensures path in w ==> after[path] == w[path]
    {
      assert path in w <==> path in w - {p.staged};
      assert path in after <==> path in after - {p.staged};
      assert path in w ==> (w - {p.staged})[path] == w[path];
      assert path in after ==> (after - {p.staged})[path] == after[path];
    }
  }

  /** Where a migration starts from its original files and can be done, some run does
      it: both originals are preserved, the new binary is in place and the unit rewritten. */
  lemma SomeRunMigrates(cfg: Config, p: Paths, target: string, says: Says, oldBinary: string, oldUnit: string,
        w: Files)
    returns (ms: seq<P.Move<Files>>)
    requires !cfg.container && p.Apart() && StagedApart(p) && M.Original(p, oldBinary, oldUnit, w)
    requires Ready(cfg, p, w) && ChecksPass(cfg, says)
    ensures Finishes(FileProgram(cfg, p, target, says), w, ms)
    ensures var x := P.Run(FileProgram(cfg, p, target, says), P.Start(w), ms).value.world;
            && Readable(x, p.binary + ".v" + p.sourceVersion)
            && x[p.binary + ".v" + p.sourceVersion].value == oldBinary
            && Readable(x, p.unit + ".pre-" + p.runID) && x[p.unit + ".pre-" + p.runID].value == oldUnit
            && p.staged in Staged(cfg, p, target, w) && p.binary in x
            && x[p.binary] == Staged(cfg, p, target, w)[p.staged]
            && M.IsRewritten(p, oldUnit, x)
  {
    hide P.Run, FileProgram, Migrated, Staged, Ready, ChecksPass, M.Respects, M.IsRewritten, M.Original;
    Installed(cfg, p, target, w);
    ms := ARunFinishes(cfg, p, target, says, w);
    FinishedRunIs(cfg, p, target, says, w, ms);
    FileProgramRespects(cfg, p, target, says);
    assert IsRun(FileProgram(cfg, p, target, says), cfg) by { ItsItems(cfg, p, target, says); }
    FinishedRunIsMigrated(FileProgram(cfg, p, target, says), cfg, p, oldBinary, oldUnit, w, ms);
  }

  lemma ItsItems(cfg: Config, p: Paths, target: string, says: Says)
    ensures FileProgram(cfg, p, target, says).items == Items(cfg)
  {
    hide Items;
  }
}
