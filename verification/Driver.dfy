/** One process working through a list of steps, as runRun and cutover.Run do:
    call RunStep for each in turn, stop at the first error of a step that must
    succeed, at a refused gate or at a failed save. Proved to be a run of the
    pipeline, whatever the environment does. */
module Driver {
  import opened Prelude
  import opened AtomicFile
  import opened Checkpoint
  import opened CheckpointStore
  import E = Engine
  import P = Pipeline

  function Notes<W>(rs: seq<Recording>): seq<P.Move<W>> {
    seq(|rs|, i requires 0 <= i < |rs| => P.Note(rs[i].name, rs[i].artifact))
  }

  /** The moves one RunStep call amounts to, given the world its body leaves. */
  function StepMoves<W>(mem: Snapshot, key: Key, tolerant: bool, env: StepEnv, world: W, after: W): seq<P.Move<W>> {
    if IsDone(mem.steps, key) then [P.SkipDone]
    else if ResultOf(env.startFault).WriteError? then [P.BeginStep(false)]
    else if !Lands(env.startFault) then [P.Leave]
    else [P.BeginStep(true)] + BodyMoves(tolerant, env, world, after)
  }

  /** From inside the body. */
  function BodyMoves<W>(tolerant: bool, env: StepEnv, world: W, after: W): seq<P.Move<W>> {
    if env.startFault.KillAfterRename? then [P.Die(world)] else Notes(env.recorded) + EndMoves(tolerant, env, after)
  }

  function EndMoves<W>(tolerant: bool, env: StepEnv, after: W): seq<P.Move<W>> {
    if env.reply.None? || (ResultOf(env.endFault).Killed? && !Lands(env.endFault)) then [P.Die(after)]
    else
      var finish := P.Finish(env.reply.value, Lands(env.endFault), after);
      if env.endFault.KillAfterRename? && (env.reply.value.Succeeds? || tolerant) then [finish, P.Leave] else [finish]
  }

  /** Whether the process goes on after one RunStep call. */
  predicate GoesOn(mem: Snapshot, key: Key, tolerant: bool, env: StepEnv) {
    if IsDone(mem.steps, key) then true
    else if ResultOf(env.startFault).WriteError? then tolerant
    else if ResultOf(env.startFault).Killed? || env.reply.None? || ResultOf(env.endFault).Killed? then false
    else (env.reply.value.Succeeds? && env.endFault.NoFault?) || tolerant
  }

  /** The program allows the body's behaviour: what it leaves when it completes,
      fails, or is killed, before it did anything or after it did everything. */
  ghost predicate Allows<W>(p: P.Program<W>, i: nat, env: StepEnv, world: W, after: W) {
    && p.interrupts(i, world, world)
    && (match env.reply
        case None => p.interrupts(i, world, after)
        case Some(Fails(_)) => p.interrupts(i, world, after)
        case Some(Succeeds(o)) =>
          p.completes(i, world, after, o) && (ResultOf(env.endFault).Killed? ==> p.interrupts(i, world, after)))
  }

  /** Where a position at a step is after one RunStep call. */
  function StepAfter<W>(s: P.Position<W>, key: Key, tolerant: bool, env: StepEnv, after: W): P.Position<W>
    requires s.eng.proc.Idle?
  {
    var mem := s.eng.proc.mem;
    var eng := RunStepAfter(s.eng.disk, mem, key, env);
    var ran := !IsDone(mem.steps, key) && ResultOf(env.startFault).Written?;
    var goOn := GoesOn(mem, key, tolerant, env);
    var past := StepAdvances(mem, key, tolerant, env);
    P.Position(if goOn then eng else P.Ended(eng),
               s.pc + if past then 1 else 0,
               if ran then after else s.world,
               s.blocking || (past && StepIsRefused(mem, key, env)))
  }

  /** Whether the step the process came by has, or now gets, the verdict "fail". */
  predicate StepIsRefused(mem: Snapshot, key: Key, env: StepEnv) {
    if IsDone(mem.steps, key) then P.Refused(mem.steps, key)
    else ResultOf(env.startFault).Written? && env.reply.Some? && env.reply.value.Succeeds?
         && env.reply.value.outcome.verdict == P.FAIL
  }

  /** The item is a step with this key, which may or may not be tolerant. */
  predicate IsStepOf(item: P.Item, key: Key, tolerant: bool) {
    item == P.Do(key, tolerant) || (item == P.Maybe(key) && !tolerant)
  }

  /** Whether the process was past the step when it ended or went on. */
  predicate StepAdvances(mem: Snapshot, key: Key, tolerant: bool, env: StepEnv) {
    if IsDone(mem.steps, key) then true
    else if ResultOf(env.startFault).WriteError? then tolerant
    else if ResultOf(env.startFault).Killed? || env.reply.None? then false
    else if !(Lands(env.endFault) || ResultOf(env.endFault).WriteError?) then false
    else (env.reply.value.Succeeds? && Lands(env.endFault)) || tolerant
  }

  /** The position of a process inside the body of the step it stands at. */
  function Inside<W>(s: P.Position<W>, key: Key): P.Position<W>
    requires s.eng.proc.Idle?
  {
    var begun := E.BeginMem(s.eng.proc.mem, key);
    P.Position(E.State(begun, E.InStep(begun, key)), s.pc, s.world, s.blocking)
  }

  lemma EnterStep<W>(p: P.Program<W>, s: P.Position<W>, key: Key, tolerant: bool)
    requires s.eng.proc.Idle? && s.pc < |p.items| && IsStepOf(p.items[s.pc], key, tolerant)
    requires !IsDone(s.eng.proc.mem.steps, key)
    ensures P.Next(p, s, P.BeginStep(true)) == Some(Inside(s, key))
  {
    hide IsDone, Begun;
  }

  /** A body's recordings change what memory holds of artifacts. */
  lemma {:induction false} NotesRun<W>(p: P.Program<W>, s: P.Position<W>, rs: seq<Recording>, more: seq<P.Move<W>>)
    requires !s.eng.proc.Dead?
    ensures P.Run(p, s, Notes(rs) + more) == P.Run(p, Noted(s, rs), more)
    decreases |rs|
  {
    hide P.Run;
    if rs == [] {
      assert Notes(rs) + more == more;
    } else {
      var before, r := rs[..|rs| - 1], rs[|rs| - 1];
      assert Notes(rs) + more == Notes(before) + ([P.Note(r.name, r.artifact)] + more);
      NotesRun(p, s, before, [P.Note(r.name, r.artifact)] + more);
      P.RunCons(p, Noted(s, before), P.Note(r.name, r.artifact), more);
    }
  }

  function Noted<W>(s: P.Position<W>, rs: seq<Recording>): P.Position<W>
    requires !s.eng.proc.Dead?
  {
    s.(eng := s.eng.(proc := s.eng.proc.(mem := RecordAll(s.eng.proc.mem, rs))))
  }

  /** From inside the body, after its recordings: the process dies there, or its
      reply is recorded. */
  lemma EndStep<W>(p: P.Program<W>, s: P.Position<W>, key: Key, tolerant: bool, env: StepEnv, after: W)
    requires s.eng.proc.Idle? && s.pc < |p.items| && IsStepOf(p.items[s.pc], key, tolerant)
    requires Allows(p, s.pc, env, s.world, after)
    requires !IsDone(s.eng.proc.mem.steps, key) && env.startFault.NoFault?
    ensures P.Run(p, Noted(Inside(s, key), env.recorded), EndMoves(tolerant, env, after))
            == Some(StepAfter(s, key, tolerant, env, after))
  {
    hide Begun, Completed, FailedWith, StatusOf, IsDone, Recorded, RecordAll, P.Refused;
    var inside := Noted(Inside(s, key), env.recorded);
    BegunIsRunning(s.eng.proc.mem.steps, key);
    RecordAllKeepsSteps(E.BeginMem(s.eng.proc.mem, key), env.recorded);
    var ms := EndMoves(tolerant, env, after);
    assert ms == [ms[0]] + ms[1..];
    P.RunCons(p, inside, ms[0], ms[1..]);
    if |ms| > 1 {
      assert ms[1..] == [ms[1]] + [];
      P.RunCons(p, P.Next(p, inside, ms[0]).value, ms[1], []);
    }
  }

  /** From inside the body to where the driver goes next. */
  lemma LeaveStep<W>(p: P.Program<W>, s: P.Position<W>, key: Key, tolerant: bool, env: StepEnv, after: W)
    requires s.eng.proc.Idle? && s.pc < |p.items| && IsStepOf(p.items[s.pc], key, tolerant)
    requires Allows(p, s.pc, env, s.world, after)
    requires !IsDone(s.eng.proc.mem.steps, key) && Lands(env.startFault)
    ensures P.Run(p, Inside(s, key), BodyMoves(tolerant, env, s.world, after))
            == Some(StepAfter(s, key, tolerant, env, after))
  {
    hide EndMoves, Notes, StatusOf, IsDone, Recorded, RecordAll, Begun, Completed, FailedWith, P.Refused;
    if env.startFault.KillAfterRename? {
      P.RunOne(p, Inside(s, key), P.Die(s.world));
    } else {
      NotesRun(p, Inside(s, key), env.recorded, EndMoves(tolerant, env, after));
      EndStep(p, s, key, tolerant, env, after);
    }
  }

  /** One RunStep call is a run of the pipeline from a step to what follows it. */
  lemma StepIsARun<W>(p: P.Program<W>, s: P.Position<W>, key: Key, tolerant: bool, env: StepEnv, after: W)
    requires s.eng.proc.Idle? && s.pc < |p.items| && IsStepOf(p.items[s.pc], key, tolerant)
    requires Allows(p, s.pc, env, s.world, after)
    ensures P.Run(p, s, StepMoves(s.eng.proc.mem, key, tolerant, env, s.world, after))
            == Some(StepAfter(s, key, tolerant, env, after))
  {
    hide Begun, Completed, FailedWith, StatusOf, IsDone, Recorded, P.Blocked, Allows, BodyMoves, RecordAll, P.Refused;
    var mem := s.eng.proc.mem;
    if !IsDone(mem.steps, key) && Lands(env.startFault) {
      EnterStep(p, s, key, tolerant);
      P.RunCons(p, s, P.BeginStep(true), BodyMoves(tolerant, env, s.world, after));
      LeaveStep(p, s, key, tolerant, env, after);
    } else {
      P.RunOne(p, s, StepMoves(mem, key, tolerant, env, s.world, after)[0]);
    }
  }

  /** How the process left an item: past it, or ended. */
  datatype Progress = Past | Ended

  lemma RunNothing<W>(p: P.Program<W>, s: P.Position<W>)
    ensures P.Run(p, s, []) == Some(s)
  {
  }

  lemma GoesOnWhen(disk: Snapshot, mem: Snapshot, key: Key, tolerant: bool, env: StepEnv)
    ensures GoesOn(mem, key, tolerant, env)
            <==> !RunStepAfter(disk, mem, key, env).proc.Dead? && (Clean(mem, key, env) || tolerant)
    ensures GoesOn(mem, key, tolerant, env) ==> StepAdvances(mem, key, tolerant, env)
  {
    BegunIsRunning(mem.steps, key);
    RecordAllKeepsSteps(E.BeginMem(mem, key), env.recorded);
  }

  /** The verdict the process comes by is the one the record then holds. */
  lemma RefusedAfter(disk: Snapshot, mem: Snapshot, key: Key, tolerant: bool, env: StepEnv)
    requires GoesOn(mem, key, tolerant, env)
    ensures var after := RunStepAfter(disk, mem, key, env);
            after.proc.Idle? && (StepIsRefused(mem, key, env) <==> P.Refused(after.proc.mem.steps, key))
  {
    hide Put, IndexOf, StatusOf, OutcomeOf, Recorded, RecordAll;
    var begun := Begun(mem.steps, key);
    BegunIsRunning(mem.steps, key);
    RecordAllKeepsSteps(E.BeginMem(mem, key), env.recorded);
    if env.reply.Some? {
      match env.reply.value
      case Succeeds(o) => PutFrame(begun, StepRecord(key, Done, o, ""));
      case Fails(e) => PutFrame(begun, StepRecord(key, Failed, OutcomeOf(begun, key), e));
    }
  }

  /** One step: RunStep, and what the process makes of its result. */
  method DriveStep<W(!new)>(store: Store, rs: RunState, key: Key, tolerant: bool, env: StepEnv, blocking0: bool,
                            ghost p: P.Program<W>, ghost s: P.Position<W>, ghost after: W)
    returns (progress: Progress, blocking: bool, ghost ms: seq<P.Move<W>>, ghost t: P.Position<W>)
    requires store.HasDisk() && s.pc < |p.items| && IsStepOf(p.items[s.pc], key, tolerant)
    requires s.eng == E.State(store.Disk(), E.Idle(MemOf(rs))) && s.blocking == blocking0
    requires Allows(p, s.pc, env, s.world, after)
    requires env.startTemp !in store.dir.temps && env.endTemp !in store.dir.temps
    modifies rs, store.dir
    ensures store.HasDisk() && P.Run(p, s, ms) == Some(t)
    ensures progress.Past? ==>
              && t.pc == s.pc + 1 && t.eng == E.State(store.Disk(), E.Idle(MemOf(rs))) && t.blocking == blocking
              && store.dir.temps == old(store.dir.temps)
    ensures progress.Ended? ==> t.eng == E.State(store.Disk(), E.Dead)
  {
    hide RunStepEvents, RunStepAfter, Allows, StepMoves, StepAdvances, StepIsRefused, GoesOn, Clean, P.Run, StatusOf,
         OutcomeOf, Replied;
    ghost var mem, disk := MemOf(rs), store.Disk();
    StepIsARun(p, s, key, tolerant, env, after);
    RunStepIsARun(disk, mem, key, env);
    ms, t := StepMoves(mem, key, tolerant, env, s.world, after), StepAfter(s, key, tolerant, env, after);
    GoesOnWhen(disk, mem, key, tolerant, env);
    var r := store.RunStep(rs, key, env);
    progress := if !r.ProcessDied? && (r.Finished? || tolerant) then Past else Ended;
    var fails := match r
      case Finished(o) => o.verdict == P.FAIL
      case ResultNotSaved(o) => o.verdict == P.FAIL
      case _ => false;
    blocking := blocking0 || fails;
    if progress.Past? {
      RefusedAfter(disk, mem, key, tolerant, env);
      assert fails <==> P.Refused(MemOf(rs).steps, key);
    }
  }

  /** One item of the list. */
  method DriveItem<W(!new)>(store: Store, rs: RunState, items: seq<P.Item>, i: nat, facts: bool, env: StepEnv,
        blocking0: bool,
                            ghost p: P.Program<W>, ghost s: P.Position<W>, ghost after: W)
    returns (progress: Progress, blocking: bool, ghost ms: seq<P.Move<W>>, ghost t: P.Position<W>)
    requires store.HasDisk() && p.items == items && i < |items| && s.pc == i
    requires s.eng == E.State(store.Disk(), E.Idle(MemOf(rs))) && s.blocking == blocking0
    requires Allows(p, i, env, s.world, after)
    requires env.startTemp !in store.dir.temps && env.endTemp !in store.dir.temps
    modifies rs, store.dir
    ensures store.HasDisk() && P.Run(p, s, ms) == Some(t)
    ensures progress.Past? ==>
              && t.pc == i + 1 && t.eng == E.State(store.Disk(), E.Idle(MemOf(rs))) && t.blocking == blocking
              && store.dir.temps == old(store.dir.temps)
    ensures progress.Ended? ==> t.eng == E.State(store.Disk(), E.Dead)
  {
    hide Allows, P.Run;
    blocking := blocking0;
    match items[i]
    case Do(key, tolerant) =>
      progress, blocking, ms, t := DriveStep(store, rs, key, tolerant, env, blocking0, p, s, after);
    case Maybe(key) =>
      if facts {
        progress, blocking, ms, t := DriveStep(store, rs, key, false, env, blocking0, p, s, after);
      } else {
        ms := [P.PassOver];
        P.RunOne(p, s, P.PassOver);
        t := P.Next(p, s, P.PassOver).value;
        progress := Past;
      }
    case SaveState =>
      var w := store.Save(rs, env.startTemp, env.startFault);
      if w == Killed && !Lands(env.startFault) {
        ms := [P.Leave];
        P.RunOne(p, s, P.Leave);
        t := P.Next(p, s, P.Leave).value;
        progress := Ended;
      } else if w == Killed {
        ms := [P.SaveNow(true)] + [P.Leave];
        P.RunCons(p, s, P.SaveNow(true), [P.Leave]);
        P.RunOne(p, P.Next(p, s, P.SaveNow(true)).value, P.Leave);
        t := P.Next(p, P.Next(p, s, P.SaveNow(true)).value, P.Leave).value;
        progress := Ended;
      } else {
        ms := [P.SaveNow(w == Written)];
        P.RunOne(p, s, ms[0]);
        t := P.Next(p, s, ms[0]).value;
        progress := if w == Written then Past else Ended;
      }
    case Gate =>
      ms := [P.CheckGate];
      P.RunOne(p, s, P.CheckGate);
      t := P.Next(p, s, P.CheckGate).value;
      progress := if blocking then Ended else Past;
  }

  /** One process from its start on the loaded state to its end. notes holds the
      artifacts recorded between steps, before each item; facts says whether the
      process has what the steps it may pass over need: it takes all of them or none.
      The ghost results are the pipeline moves it made and the position they lead to:
      when it goes past every item, that of the live process, with the run's state in
      memory and on disk; otherwise one with no process. */
  method Drive<W(!new)>(store: Store, rs: RunState, items: seq<P.Item>, notes: seq<seq<Recording>>, facts: bool,
                        envs: seq<StepEnv>,
                        ghost p: P.Program<W>, ghost start: P.Position<W>, ghost leaves: (nat, W) -> W)
    returns (finished: bool, ghost ms: seq<P.Move<W>>, ghost t: P.Position<W>)
    requires store.HasDisk() && p.items == items && |envs| == |notes| == |items|
    requires start.eng == E.State(store.Disk(), E.Idle(MemOf(rs))) && start.pc == 0 && !start.blocking
    requires forall i, w :: 0 <= i < |items| ==> Allows(p, i, envs[i], w, leaves(i, w))
    requires forall i :: 0 <= i < |items| ==>
               envs[i].startTemp !in store.dir.temps && envs[i].endTemp !in store.dir.temps
    modifies rs, store.dir
    ensures store.HasDisk()
    ensures P.Run(p, start, ms) == Some(t)
    ensures finished ==> t.pc == |items| && t.eng == E.State(store.Disk(), E.Idle(MemOf(rs)))
    ensures !finished ==> t.eng == E.State(store.Disk(), E.Dead)
  {
    hide P.Next, P.Run, RunStepAfter, GoesOn, StepMoves, Allows, RunStepEvents;
    ms, t := [], start;
    var blocking := false;
    RunNothing(p, start);
    for i := 0 to |items|
      invariant store.HasDisk() && P.Run(p, start, ms) == Some(t)
      invariant t.pc == i && t.eng == E.State(store.Disk(), E.Idle(MemOf(rs))) && t.blocking == blocking
      invariant store.dir.temps == old(store.dir.temps)
    {
      NotesRun(p, t, notes[i], []);
      assert Notes(notes[i]) + [] == Notes<W>(notes[i]);
      RunNothing(p, Noted(t, notes[i]));
      P.RunAppend(p, start, ms, Notes(notes[i]));
      store.RecordArtifacts(rs, notes[i]);
      ms, t := ms + Notes(notes[i]), Noted(t, notes[i]);
      var progress;
      ghost var more, next;
      progress, blocking, more, next :=
        DriveItem(store, rs, items, i, facts, envs[i], blocking, p, t, leaves(i, t.world));
      P.RunAppend(p, start, ms, more);
      ms, t := ms + more, next;
      if progress == Ended {
        return false, ms, t;
      }
    }
    return true, ms, t;
  }
}
