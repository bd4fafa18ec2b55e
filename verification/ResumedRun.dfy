/** Resume equivalence for the real list of a run, with the step that stages the new
    binary and the three that move the operator's files as the ones that change the world. */
module ResumedRun {
  import opened Prelude
  import opened AtomicFile
  import opened Checkpoint
  import opened HostFiles
  import opened RunPlan
  import M = Migration
  import P = Pipeline
  import S = Resume

  const STAGE_BINARY := Key(Stage, "stage-binary")

  predicate MovesFiles(key: Key) {
    key in {STAGE_BINARY, M.PRESERVE_BINARY, M.INSTALL_BINARY, M.UPDATE_UNIT}
  }

  /** What a step does to the files; target is the content of the release it stages. */
  function FileEffect(p: Paths, target: string, key: Key, w: Files): Option<Files> {
    if key == STAGE_BINARY then Some(w[p.staged := Intact(target)])
    else if key == M.PRESERVE_BINARY then PreserveBinaryEffect(p, w)
    else if key == M.INSTALL_BINARY then InstallBinaryEffect(p, w)
    else if key == M.UPDATE_UNIT then UpdateUnitEffect(p, w)
    else Some(w)
  }

  /** Staging writes its file in place, so an attempt may leave anything there. */
  predicate FileLeaves(p: Paths, key: Key, w: Files, after: Files) {
    if key == STAGE_BINARY then after - {p.staged} == w - {p.staged}
    else if key == M.PRESERVE_BINARY then PreserveBinaryLeaves(p, w, after)
    else if key == M.INSTALL_BINARY then InstallBinaryLeaves(p, w, after)
    else if key == M.UPDATE_UNIT then UpdateUnitLeaves(p, w, after)
    else after == w
  }

  /** What each step says when it succeeds. */
  type Says = nat -> Outcome

  /** A run of a binary deployment as a program on files: interrupted bodies leave any
      of their stages. */
  function FileProgram(cfg: Config, p: Paths, target: string, says: Says): P.Program<Files> {
    var items := Items(cfg);
    P.Program(items,
              (i: nat, w, after, o) =>
                && i < |items| && P.IsStep(items[i])
                && FileEffect(p, target, items[i].key, w) == Some(after) && o == says(i),
              (i: nat, w, after) => i < |items| && P.IsStep(items[i]) && FileLeaves(p, items[i].key, w, after))
  }

  function RunEffect(cfg: Config, p: Paths, target: string, says: Says): S.Effect<Files> {
    var items := Items(cfg);
    (i: nat, w) =>
      if i < |items| && P.IsStep(items[i]) then
        match FileEffect(p, target, items[i].key, w)
        case None => None
        case Some(after) => Some((after, says(i)))
      else None
  }

  /** No step before the quota step is tolerant, and from there on, as in the checks
      that can be passed over, no file is touched. */
  lemma QuietFromQuotas(cfg: Config) returns (n: nat)
    ensures n < |Items(cfg)| && Items(cfg)[n] == ItemAt(QUOTAS)
    ensures forall i :: 0 <= i < n && Items(cfg)[i].Do? ==> !Items(cfg)[i].tolerant
    ensures forall i :: 0 <= i < |Items(cfg)| && P.IsStep(Items(cfg)[i]) && (n <= i || Items(cfg)[i].Maybe?) ==>
              !MovesFiles(Items(cfg)[i].key)
  {
    hide Items, ItemAt, Present, Place, MovesFiles, ItemsFrom;
    QuotasIsTolerant(cfg);
    ItemsAreItemsFrom(cfg);
    n := IndexOfItem(cfg, 0, QUOTAS);
    PlaceOfItem(QUOTAS);
    ItemsInOrder(cfg, 0);
    forall i | 0 <= i < n && Items(cfg)[i].Do?
      ensures !Items(cfg)[i].tolerant
    {
      ItemsFromList(cfg, 0, i);
      TolerantIsQuotas(Place(Items(cfg)[i]));
    }
    forall i | 0 <= i < |Items(cfg)| && P.IsStep(Items(cfg)[i]) && (n <= i || Items(cfg)[i].Maybe?)
      ensures !MovesFiles(Items(cfg)[i].key)
    {
      ItemsFromList(cfg, 0, i);
      NoFileStep(Items(cfg)[i]);
    }
  }

  lemma NoFileStep(item: P.Item)
    requires P.IsStep(item) && Place(item) < LAST && item == ItemAt(Place(item)) &&
        (Place(item) >= QUOTAS || item.Maybe?)
    ensures !MovesFiles(item.key)
  {
    hide ItemAt, Place;
    FilePlaces();
    if item.Maybe? {
      OnlyChecksAreMaybe(Place(item));
    }
  }

  lemma FilePlaces()
    ensures forall item: P.Item :: P.IsStep(item) ==>
              && (item.key == STAGE_BINARY ==> Place(item) == STAGE)
              && (item.key == M.PRESERVE_BINARY ==> Place(item) == PRESERVE)
              && (item.key == M.INSTALL_BINARY ==> Place(item) == INSTALL)
              && (item.key == M.UPDATE_UNIT ==> Place(item) == UPDATE)
  {
  }

  /** The file steps and their list meet what resume equivalence asks. */
  lemma FileRunIsResumable(cfg: Config, p: Paths, target: string, says: Says) returns (n: nat)
    ensures S.Premises(FileProgram(cfg, p, target, says), RunEffect(cfg, p, target, says), n)
    ensures n < |Items(cfg)| && Items(cfg)[n] == ItemAt(QUOTAS)
  {
    hide Items, ItemAt, FileEffect, FileLeaves, P.WellFormed;
    n := QuietFromQuotas(cfg);
    RunIsWellFormed(cfg);
    var prog, effect := FileProgram(cfg, p, target, says), RunEffect(cfg, p, target, says);
    forall i: nat, w, after | prog.interrupts(i, w, after)
      ensures effect(i, after) == effect(i, w)
      ensures S.Quiet(prog, n, i) ==> after == w
    {
      FileStepIsRetrySafe(p, target, Items(cfg)[i].key, w, after);
    }
    forall i: nat, w | effect(i, w).Some?
      ensures effect(i, effect(i, w).value.0) == effect(i, w)
    {
      FileStepIsRetrySafe(p, target, Items(cfg)[i].key, w, effect(i, w).value.0);
    }
    forall i: nat, w, after, o | S.Quiet(prog, n, i) && prog.completes(i, w, after, o)
      ensures after == w
    {
      FileStepIsRetrySafe(p, target, Items(cfg)[i].key, w, after);
    }
  }

  lemma FileStepIsRetrySafe(p: Paths, target: string, key: Key, w: Files, after: Files)
    requires FileLeaves(p, key, w, after) || FileEffect(p, target, key, w) == Some(after)
    ensures FileEffect(p, target, key, after) == FileEffect(p, target, key, w)
    ensures !MovesFiles(key) ==> after == w
  {
    hide PreserveBinaryEffect, InstallBinaryEffect, UpdateUnitEffect;
    if key == STAGE_BINARY {
      StagingIsRetrySafe(p, target, w, after);
    } else {
      StepsAreRetrySafe(p, w, after);
    }
  }

  lemma StagingIsRetrySafe(p: Paths, target: string, w: Files, after: Files)
    requires after - {p.staged} == w - {p.staged} || after == w[p.staged := Intact(target)]
    ensures after[p.staged := Intact(target)] == w[p.staged := Intact(target)]
  {
    assert after[p.staged := Intact(target)] == (after - {p.staged})[p.staged := Intact(target)];
    assert w[p.staged := Intact(target)] == (w - {p.staged})[p.staged := Intact(target)];
  }

  /** However often a run is interrupted, once it finishes its files and recorded
      outcomes are those of any other finished run from the same files, such as
      one never interrupted. */
  lemma InterruptedRunEndsTheSame(cfg: Config, p: Paths, target: string, says: Says, w: Files,
        ms: seq<P.Move<Files>>, clean: seq<P.Move<Files>>)
    requires !cfg.container
    requires var prog := FileProgram(cfg, p, target, says);
             && P.Run(prog, P.Start(w), ms).Some? && S.Finished(prog, P.Run(prog, P.Start(w), ms).value)
             && P.Run(prog, P.Start(w), clean).Some? && S.Finished(prog, P.Run(prog, P.Start(w), clean).value)
    ensures var prog, items := FileProgram(cfg, p, target, says), Items(cfg);
            var t, u := P.Run(prog, P.Start(w), ms).value, P.Run(prog, P.Start(w), clean).value;
            && t.world == u.world
            && forall i :: 0 <= i < |items| && items[i].Do? && !items[i].tolerant ==>
                 && IsDone(t.eng.disk.steps, items[i].key) && IsDone(u.eng.disk.steps, items[i].key)
                 && OutcomeOf(t.eng.disk.steps, items[i].key) == OutcomeOf(u.eng.disk.steps, items[i].key)
  {
    hide Items, P.Run, S.Premises, IsDone, OutcomeOf;
    var n := FileRunIsResumable(cfg, p, target, says);
    S.ResumeEquivalence(FileProgram(cfg, p, target, says), RunEffect(cfg, p, target, says), w, n, ms, clean);
  }
}
