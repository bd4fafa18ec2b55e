/** Safety of the operator's own files over every run of a migration: the steps
    of HostFiles placed in the pipeline, with every other step free to do
    anything except touch the four paths they own. */
module Migration {
  import opened Prelude
  import opened AtomicFile
  import opened Checkpoint
  import opened UnitFile
  import opened HostFiles
  import Engine
  import P = Pipeline

  const PRESERVE_BINARY := Key(Backup, "preserve-binary")
  const INSTALL_BINARY := Key(Cutover, "install-binary")
  const UPDATE_UNIT := Key(Cutover, "update-service-definition")

  /** The four owned paths hold the same files. */
  predicate SameFiles(p: Paths, w: Files, after: Files) {
    && (p.binary in w <==> p.binary in after) && (p.binary in w ==> after[p.binary] == w[p.binary])
    && (p.OldBinary() in w <==> p.OldBinary() in after)
    && (p.OldBinary() in w ==> after[p.OldBinary()] == w[p.OldBinary()])
    && (p.unit in w <==> p.unit in after) && (p.unit in w ==> after[p.unit] == w[p.unit])
    && (p.OldUnit() in w <==> p.OldUnit() in after) && (p.OldUnit() in w ==> after[p.OldUnit()] == w[p.OldUnit()])
  }

  /** What a step's body may leave when it succeeds, and otherwise. */
  predicate Completes(p: Paths, key: Key, w: Files, after: Files) {
    if key == PRESERVE_BINARY then PreserveBinaryEffect(p, w) == Some(after)
    else if key == INSTALL_BINARY then InstallBinaryEffect(p, w) == Some(after)
    else if key == UPDATE_UNIT then UpdateUnitEffect(p, w) == Some(after)
    else SameFiles(p, w, after)
  }

  predicate Leaves(p: Paths, key: Key, w: Files, after: Files) {
    if key == PRESERVE_BINARY then PreserveBinaryLeaves(p, w, after)
    else if key == INSTALL_BINARY then InstallBinaryLeaves(p, w, after)
    else if key == UPDATE_UNIT then UpdateUnitLeaves(p, w, after)
    else SameFiles(p, w, after)
  }

  ghost predicate Respects(prog: P.Program<Files>, p: Paths) {
    && (forall i: nat, w, after, o :: i < |prog.items| && P.IsStep(prog.items[i]) && prog.completes(i, w, after, o) ==>
          Completes(p, prog.items[i].key, w, after))
    && (forall i: nat, w, after :: i < |prog.items| && P.IsStep(prog.items[i]) && prog.interrupts(i, w, after) ==>
          Leaves(p, prog.items[i].key, w, after))
  }

  /** Installing comes after preserving, which must succeed. */
  ghost predicate PreservesFirst(items: seq<P.Item>) {
    forall j :: 0 <= j < |items| && P.IsStep(items[j]) && items[j].key == INSTALL_BINARY ==>
      exists i :: 0 <= i < j && items[i] == P.Do(PRESERVE_BINARY, false)
  }

  /** The old binary is at one of its two paths: the preserved one if anything
      is there, else its own. */
  predicate BinarySafe(p: Paths, oldBinary: File<string>, w: Files) {
    if p.OldBinary() in w then w[p.OldBinary()] == oldBinary
    else p.binary in w && w[p.binary] == oldBinary
  }

  predicate IsRewritten(p: Paths, oldUnit: string, w: Files) {
    && p.unit in w
    && Rewritten(oldUnit, p.binary, p.config).Success?
    && w[p.unit] == Intact(Rewritten(oldUnit, p.binary, p.config).value)
  }

  /** A preserved unit is the original, and the live unit is the original or,
      once the original is preserved, its rewrite. */
  predicate UnitSafe(p: Paths, oldUnit: string, w: Files) {
    && (p.OldUnit() in w ==> w[p.OldUnit()] == Intact(oldUnit))
    && ((p.unit in w && w[p.unit] == Intact(oldUnit)) || (p.OldUnit() in w && IsRewritten(p, oldUnit, w)))
  }

  predicate Safe(p: Paths, oldBinary: File<string>, oldUnit: string, w: Files) {
    BinarySafe(p, oldBinary, w) && UnitSafe(p, oldUnit, w)
  }

  /** What the records promise about the files. */
  predicate Promised(p: Paths, oldUnit: string, steps: seq<StepRecord>, w: Files) {
    && (IsDone(steps, PRESERVE_BINARY) ==> p.OldBinary() in w)
    && (IsDone(steps, UPDATE_UNIT) ==> p.OldUnit() in w && IsRewritten(p, oldUnit, w))
  }

  lemma KeysDiffer()
    ensures PRESERVE_BINARY != INSTALL_BINARY && PRESERVE_BINARY != UPDATE_UNIT && INSTALL_BINARY != UPDATE_UNIT
  {
    assert |INSTALL_BINARY.name| != |UPDATE_UNIT.name|;
  }

  /** One body, successful or not, keeps the files safe, provided installing
      happens only once the old binary is preserved. */
  lemma BodyKeepsSafe(p: Paths, oldBinary: File<string>, oldUnit: string, key: Key, w: Files, after: Files)
    requires p.Apart() && Safe(p, oldBinary, oldUnit, w)
    requires key == INSTALL_BINARY ==> p.OldBinary() in w
    requires Completes(p, key, w, after) || Leaves(p, key, w, after)
    ensures Safe(p, oldBinary, oldUnit, after)
    ensures p.OldBinary() in w ==> p.OldBinary() in after
    ensures p.OldUnit() in w ==> p.OldUnit() in after
    ensures key != UPDATE_UNIT && p.unit in w ==> p.unit in after && after[p.unit] == w[p.unit]
    ensures Completes(p, key, w, after) ==>
              && (key == PRESERVE_BINARY ==> p.OldBinary() in after)
              && (key == UPDATE_UNIT ==> p.OldUnit() in after && IsRewritten(p, oldUnit, after))
  {
    hide Rewritten;
    KeysDiffer();
    PreservedElsewhere(p);
  }

  /** The files are safe, and neither disk nor memory promises too much. */
  ghost predicate Holds(p: Paths, oldBinary: File<string>, oldUnit: string, eng: Engine.State, w: Files) {
    && Safe(p, oldBinary, oldUnit, w)
    && Promised(p, oldUnit, eng.disk.steps, w)
    && (!eng.proc.Dead? ==> Promised(p, oldUnit, eng.proc.mem.steps, w))
  }

  ghost predicate Inv(prog: P.Program<Files>, p: Paths, oldBinary: File<string>, oldUnit: string,
        s: P.Position<Files>) {
    P.Inv(prog, s) && Holds(p, oldBinary, oldUnit, s.eng, s.world)
  }

  ghost predicate Premises(prog: P.Program<Files>, p: Paths) {
    P.WellFormed(prog.items) && PreservesFirst(prog.items) && Respects(prog, p) && p.Apart()
  }

  /** A body that runs has the world of its step to itself: what the records
      promise stays true, and its own success adds its own promise. */
  lemma BodyKeepsPromises(prog: P.Program<Files>, p: Paths, oldBinary: File<string>, oldUnit: string,
        s: P.Position<Files>, after: Files)
    requires Premises(prog, p) && Inv(prog, p, oldBinary, oldUnit, s) && s.eng.proc.InStep?
    requires Completes(p, s.eng.proc.key, s.world, after) || Leaves(p, s.eng.proc.key, s.world, after)
    ensures Safe(p, oldBinary, oldUnit, after)
    ensures Promised(p, oldUnit, s.eng.disk.steps, after)
    ensures Completes(p, s.eng.proc.key, s.world, after) ==>
              && (s.eng.proc.key == PRESERVE_BINARY ==> p.OldBinary() in after)
              && (s.eng.proc.key == UPDATE_UNIT ==> p.OldUnit() in after && IsRewritten(p, oldUnit, after))
  {
    hide Rewritten, Completes, Leaves, Respects, P.Ordered, SameFiles;
    var key := s.eng.proc.key;
    if key == INSTALL_BINARY {
      var i :| 0 <= i < s.pc && prog.items[i] == P.Do(PRESERVE_BINARY, false);
      assert P.ItemPassed(prog.items, s.eng.proc.mem.steps, i);
    }
    BodyKeepsSafe(p, oldBinary, oldUnit, key, s.world, after);
  }

  /** Recording a step keeps the promises, if it adds none that is broken. */
  lemma PutKeepsPromised(p: Paths, oldUnit: string, steps: seq<StepRecord>, rec: StepRecord, w: Files)
    requires Promised(p, oldUnit, steps, w)
    requires rec.status == Done && rec.key == PRESERVE_BINARY ==> p.OldBinary() in w
    requires rec.status == Done && rec.key == UPDATE_UNIT ==> p.OldUnit() in w && IsRewritten(p, oldUnit, w)
    ensures Promised(p, oldUnit, Put(steps, rec), w)
  {
    hide IsRewritten, Put;
    PutFrame(steps, rec);
    var a, b := PRESERVE_BINARY, UPDATE_UNIT;
    assert rec.key == a || IsDone(Put(steps, rec), a) == IsDone(steps, a);
    assert rec.key == b || IsDone(Put(steps, rec), b) == IsDone(steps, b);
  }

  lemma FinishKeepsHolds(prog: P.Program<Files>, p: Paths, oldBinary: File<string>, oldUnit: string,
        s: P.Position<Files>, m: P.Move<Files>)
    requires Premises(prog, p) && Inv(prog, p, oldBinary, oldUnit, s)
    requires m.Finish? && P.Next(prog, s, m).Some?
    ensures var t := P.Next(prog, s, m).value; Holds(p, oldBinary, oldUnit, t.eng, t.world)
  {
    hide IsRewritten, Completes, Leaves, Safe, Promised, P.Ordered, P.Passed, P.WellFormed, PreservesFirst, Put;
    var steps, key := s.eng.proc.mem.steps, s.eng.proc.key;
    BodyKeepsPromises(prog, p, oldBinary, oldUnit, s, m.after);
    match m.reply
    case Succeeds(o) => PutKeepsPromised(p, oldUnit, steps, StepRecord(key, Done, o, ""), m.after);
    case Fails(e) => PutKeepsPromised(p, oldUnit, steps, StepRecord(key, Failed, OutcomeOf(steps, key), e), m.after);
  }

  /** Moves without a body leave the world alone and mark nothing done. */
  lemma OtherMoveKeepsHolds(prog: P.Program<Files>, p: Paths, oldBinary: File<string>, oldUnit: string,
        s: P.Position<Files>, m: P.Move<Files>)
    requires Holds(p, oldBinary, oldUnit, s.eng, s.world) && P.Next(prog, s, m).Some?
    requires !m.Finish? && !m.Die?
    ensures var t := P.Next(prog, s, m).value; Holds(p, oldBinary, oldUnit, t.eng, t.world)
  {
    hide Safe, Promised, Put;
    if m.BeginStep? {
      PutKeepsPromised(p, oldUnit, s.eng.proc.mem.steps,
                       StepRecord(prog.items[s.pc].key, Running, NO_OUTCOME, ""), s.world);
    }
  }

  lemma NextKeepsHolds(prog: P.Program<Files>, p: Paths, oldBinary: File<string>, oldUnit: string,
        s: P.Position<Files>, m: P.Move<Files>)
    requires Premises(prog, p) && Inv(prog, p, oldBinary, oldUnit, s) && P.Next(prog, s, m).Some?
    ensures var t := P.Next(prog, s, m).value; Holds(p, oldBinary, oldUnit, t.eng, t.world)
  {
    hide Rewritten, Completes, Leaves, Safe, Promised, P.Ordered, P.Passed, P.WellFormed, PreservesFirst;
    match m
    case Finish(_, _, _) => FinishKeepsHolds(prog, p, oldBinary, oldUnit, s, m);
    case Die(after) => BodyKeepsPromises(prog, p, oldBinary, oldUnit, s, after);
    case _ => OtherMoveKeepsHolds(prog, p, oldBinary, oldUnit, s, m);
  }

  lemma {:induction false} RunKeepsInv(prog: P.Program<Files>, p: Paths, oldBinary: File<string>,
        oldUnit: string, s: P.Position<Files>, ms: seq<P.Move<Files>>)
    requires Premises(prog, p) && Inv(prog, p, oldBinary, oldUnit, s) && P.Run(prog, s, ms).Some?
    ensures Inv(prog, p, oldBinary, oldUnit, P.Run(prog, s, ms).value)
    decreases |ms|
  {
    hide P.Inv, Holds, PreservesFirst, Respects, P.WellFormed;
    if ms != [] {
      NextKeepsHolds(prog, p, oldBinary, oldUnit, s, ms[0]);
      P.NextKeepsInv(prog, s, ms[0]);
      RunKeepsInv(prog, p, oldBinary, oldUnit, P.Next(prog, s, ms[0]).value, ms[1..]);
    }
  }

  /** Where a run starts: the binary and the unit in place, and at the two
      preserved paths nothing but, at most, an earlier copy of the same file. */
  predicate Original(p: Paths, oldBinary: string, oldUnit: string, w: Files) {
    && p.binary in w && w[p.binary] == Intact(oldBinary)
    && (p.OldBinary() in w ==> w[p.OldBinary()] == Intact(oldBinary))
    && p.unit in w && w[p.unit] == Intact(oldUnit)
    && (p.OldUnit() in w ==> w[p.OldUnit()] == Intact(oldUnit))
  }

  predicate OldBinaryKept(p: Paths, oldBinary: string, w: Files) {
    || (p.OldBinary() in w && w[p.OldBinary()] == Intact(oldBinary))
    || (p.binary in w && w[p.binary] == Intact(oldBinary))
  }

  /** Over every run, through any kills, failed saves and resumes: the old
      binary's bytes are at one of its two paths; a preserved unit is the
      original; the live unit is the original or its rewrite; and the records
      do not lie about either. */
  lemma NothingIsLost(prog: P.Program<Files>, p: Paths, oldBinary: string, oldUnit: string, w: Files,
        ms: seq<P.Move<Files>>)
    requires Premises(prog, p) && Original(p, oldBinary, oldUnit, w)
    requires P.Run(prog, P.Start(w), ms).Some?
    ensures var t := P.Run(prog, P.Start(w), ms).value;
            && OldBinaryKept(p, oldBinary, t.world)
            && UnitSafe(p, oldUnit, t.world)
            && Promised(p, oldUnit, t.eng.disk.steps, t.world)
  {
    hide Rewritten, P.Inv, Premises;
    P.StartInv(prog, w);
    RunKeepsInv(prog, p, Intact(oldBinary), oldUnit, P.Start(w), ms);
  }

  /** A finished run has kept both promises. */
  lemma FinishedKeepsPromises(prog: P.Program<Files>, p: Paths, oldBinary: string, oldUnit: string, w: Files,
        ms: seq<P.Move<Files>>, i: nat, j: nat)
    requires Premises(prog, p) && Original(p, oldBinary, oldUnit, w)
    requires P.Run(prog, P.Start(w), ms).Some?
    requires var t := P.Run(prog, P.Start(w), ms).value; t.eng.proc.Idle? && t.pc == |prog.items|
    requires i < |prog.items| && prog.items[i] == P.Do(PRESERVE_BINARY, false)
    requires j < |prog.items| && prog.items[j] == P.Do(UPDATE_UNIT, false)
    ensures var t := P.Run(prog, P.Start(w), ms).value;
            && p.OldBinary() in t.world && t.world[p.OldBinary()] == Intact(oldBinary)
            && p.OldUnit() in t.world && t.world[p.OldUnit()] == Intact(oldUnit)
            && IsRewritten(p, oldUnit, t.world)
  {
    hide IsRewritten, P.Run, Premises, P.Ordered;
    P.StartInv(prog, w);
    assert Inv(prog, p, Intact(oldBinary), oldUnit, P.Start(w));
    RunKeepsInv(prog, p, Intact(oldBinary), oldUnit, P.Start(w), ms);
    var t := P.Run(prog, P.Start(w), ms).value;
    assert P.ItemPassed(prog.items, t.eng.proc.mem.steps, i);
    assert P.ItemPassed(prog.items, t.eng.proc.mem.steps, j);
  }

  /** Preserving and then installing a different binary keeps the old bytes
      exactly when nothing else was already at the preserved path. */
  lemma OldBytesSurviveExactly(p: Paths, w: Files)
    requires p.sourceVersion != "" && p.binary in w && Readable(w, p.staged)
    requires p.staged != p.binary && p.staged != p.OldBinary()
    requires w[p.staged] != w[p.binary]
    ensures PreserveBinaryEffect(p, w).Some?
    ensures var kept := PreserveBinaryEffect(p, w).value;
            && InstallBinaryEffect(p, kept).Some?
            && var done := InstallBinaryEffect(p, kept).value;
            && (w[p.binary] in {done[p.binary], done[p.OldBinary()]}
                <==> p.OldBinary() !in w || w[p.OldBinary()] == w[p.binary])
  {
    PreservedElsewhere(p);
  }
}
