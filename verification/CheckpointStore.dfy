/** internal/checkpoint/store.go: saving, loading and the RunStep protocol,
    proved to be a run of the engine whatever the environment does. */
module CheckpointStore {
  import opened Prelude
  import opened AtomicFile
  import opened Checkpoint
  import opened Engine

  /** The environment of one RunStep call: the temporary names and faults of
      its two saves, the artifacts the body records, in order, and what it then
      reports (None when the process dies inside it). */
  datatype StepEnv = StepEnv(
    startTemp: string, startFault: Fault,
    recorded: seq<Recording>, reply: Option<Reply>,
    endTemp: string, endFault: Fault)

  datatype Recording = Recording(name: string, artifact: Artifact)

  function Records(rs: seq<Recording>): seq<Event> {
    seq(|rs|, i requires 0 <= i < |rs| => Record(rs[i].name, rs[i].artifact))
  }

  function RecordAll(mem: Snapshot, rs: seq<Recording>): Snapshot {
    if rs == [] then mem
    else
      var last := rs[|rs| - 1];
      RecordMem(RecordAll(mem, rs[..|rs| - 1]), last.name, last.artifact)
  }

  datatype StepResult =
    | Finished(outcome: Outcome)
    | StartNotSaved
    | BodyFailed(error: string)
    | BodyFailedNotSaved(error: string)
    | ResultNotSaved(lost: Outcome)
    | ProcessDied

  /** The engine events one RunStep call amounts to. */
  function RunStepEvents(mem: Snapshot, key: Key, env: StepEnv): seq<Event> {
    if IsDone(mem.steps, key) then [Skip(key)]
    else if ResultOf(env.startFault).WriteError? then [Begin(key, false)]
    else if !Lands(env.startFault) then [Quit]
    else if env.startFault.KillAfterRename? then [Begin(key, true), Kill(key)]
    else [Begin(key, true)] + (Records(env.recorded) + EndEvents(key, env))
  }

  /** The events after the body's recordings. */
  function EndEvents(key: Key, env: StepEnv): seq<Event> {
    if env.reply.None? then [Kill(key)]
    else if ResultOf(env.endFault).WriteError? then [Return(key, env.reply.value, false)]
    else if !Lands(env.endFault) then [Kill(key)]
    else if env.endFault.KillAfterRename? then [Return(key, env.reply.value, true), Quit]
    else [Return(key, env.reply.value, true)]
  }

  /** Whether a RunStep call returns without an error: the step was done
      already, or its body succeeded and both saves did. */
  predicate Clean(mem: Snapshot, key: Key, env: StepEnv) {
    || IsDone(mem.steps, key)
    || (env.startFault.NoFault? && env.reply.Some? && env.reply.value.Succeeds? && env.endFault.NoFault?)
  }

  /** Where one RunStep call takes (disk, memory). */
  function RunStepAfter(disk: Snapshot, mem: Snapshot, key: Key, env: StepEnv): State {
    if IsDone(mem.steps, key) then State(disk, Idle(mem))
    else
      var begun := BeginMem(mem, key);
      if ResultOf(env.startFault).WriteError? then State(disk, Idle(begun))
      else if !Lands(env.startFault) then State(disk, Dead)
      else if env.startFault.KillAfterRename? || env.reply.None?
              || !Recorded(RecordAll(begun, env.recorded).steps, key) then
        State(begun, Dead)
      else
        var settled := ReturnMem(RecordAll(begun, env.recorded), key, env.reply.value);
        State(if Lands(env.endFault) then settled else begun,
              if ResultOf(env.endFault).Killed? then Dead else Idle(settled))
  }

  lemma BegunIsRunning(steps: seq<StepRecord>, key: Key)
    ensures Recorded(Begun(steps, key), key) && StatusOf(Begun(steps, key), key) == Running
  {
    PutFrame(steps, StepRecord(key, Running, NO_OUTCOME, ""));
  }

  lemma ExecPrefix(s: State, e: Event, es: seq<Event>)
    requires Step(s, e).Some?
    ensures Exec(s, [e] + es) == Exec(Step(s, e).value, es)
  {
    assert ([e] + es)[1..] == es;
  }

  lemma ExecOne(s: State, e: Event)
    ensures Exec(s, [e]) == Step(s, e)
  {
    assert [e][1..] == [];
  }

  /** Recording changes artifacts in memory, and nothing else. */
  lemma {:induction false} RecordAllKeepsSteps(mem: Snapshot, rs: seq<Recording>)
    ensures RecordAll(mem, rs).steps == mem.steps
  {
    if rs != [] {
      RecordAllKeepsSteps(mem, rs[..|rs| - 1]);
    }
  }

  lemma RecordAllNext(mem: Snapshot, rs: seq<Recording>, r: Recording)
    ensures RecordAll(mem, rs + [r]) == RecordMem(RecordAll(mem, rs), r.name, r.artifact)
  {
    assert (rs + [r])[..|rs|] == rs;
  }

  /** After a body's recordings an artifact is what the last one of its name gave. */
  lemma {:induction false} RecordedLast(mem: Snapshot, rs: seq<Recording>, i: nat)
    requires i < |rs| && forall j :: i < j < |rs| ==> rs[j].name != rs[i].name
    ensures rs[i].name in RecordAll(mem, rs).artifacts
    ensures RecordAll(mem, rs).artifacts[rs[i].name] == rs[i].artifact
  {
    if i < |rs| - 1 {
      RecordedLast(mem, rs[..|rs| - 1], i);
    }
  }

  /** And otherwise what it was. */
  lemma {:induction false} NotRecorded(mem: Snapshot, rs: seq<Recording>, name: string)
    requires forall i :: 0 <= i < |rs| ==> rs[i].name != name
    ensures name in RecordAll(mem, rs).artifacts <==> name in mem.artifacts
    ensures name in mem.artifacts ==> RecordAll(mem, rs).artifacts[name] == mem.artifacts[name]
  {
    if rs != [] {
      NotRecorded(mem, rs[..|rs| - 1], name);
    }
  }

  /** The recordings of a body are events of the process inside it. */
  lemma {:induction false} RecordsRun(s: State, rs: seq<Recording>, more: seq<Event>)
    requires !s.proc.Dead?
    ensures Exec(s, Records(rs) + more) == Exec(s.(proc := s.proc.(mem := RecordAll(s.proc.mem, rs))), more)
    decreases |rs|
  {
    if rs == [] {
      assert Records(rs) + more == more;
    } else {
      var before, r := rs[..|rs| - 1], rs[|rs| - 1];
      assert Records(rs) + more == Records(before) + ([Record(r.name, r.artifact)] + more);
      RecordsRun(s, before, [Record(r.name, r.artifact)] + more);
      ExecPrefix(s.(proc := s.proc.(mem := RecordAll(s.proc.mem, before))), Record(r.name, r.artifact), more);
    }
  }

  /** From inside the body: what it recorded, and how it ended. */
  lemma BodyIsARun(disk: Snapshot, mem: Snapshot, key: Key, env: StepEnv)
    requires Recorded(mem.steps, key)
    ensures var m := RecordAll(mem, env.recorded);
            && Recorded(m.steps, key)
            && Exec(State(disk, InStep(mem, key)), Records(env.recorded) + EndEvents(key, env))
               == Some(if env.reply.None? then State(disk, Dead)
                       else var settled := ReturnMem(m, key, env.reply.value);
                       State(if Lands(env.endFault) then settled else disk,
                             if ResultOf(env.endFault).Killed? then Dead else Idle(settled)))
  {
    hide Completed, FailedWith;
    RecordAllKeepsSteps(mem, env.recorded);
    RecordsRun(State(disk, InStep(mem, key)), env.recorded, EndEvents(key, env));
    var inside := State(disk, InStep(RecordAll(mem, env.recorded), key));
    var es := EndEvents(key, env);
    assert es == [es[0]] + es[1..];
    ExecPrefix(inside, es[0], es[1..]);
    if |es| > 1 {
      ExecOne(Step(inside, es[0]).value, es[1]);
    }
  }

  /** One RunStep call is a run of the engine. */
  lemma RunStepIsARun(disk: Snapshot, mem: Snapshot, key: Key, env: StepEnv)
    ensures Exec(State(disk, Idle(mem)), RunStepEvents(mem, key, env)) == Some(RunStepAfter(disk, mem, key, env))
  {
    hide Begun, Completed, FailedWith, StatusOf, EndEvents, Records, RecordAll;
    var s := State(disk, Idle(mem));
    var es := RunStepEvents(mem, key, env);
    BegunIsRunning(mem.steps, key);
    assert es == [es[0]] + es[1..];
    ExecPrefix(s, es[0], es[1..]);
    if !IsDone(mem.steps, key) && Lands(env.startFault) {
      var begun := BeginMem(mem, key);
      if env.startFault.KillAfterRename? {
        assert es[1..] == [Kill(key)];
        ExecOne(State(begun, InStep(begun, key)), Kill(key));
      } else {
        assert es[1..] == Records(env.recorded) + EndEvents(key, env);
        BodyIsARun(begun, begun, key, env);
      }
    }
  }

  /** How the second half of RunStep ends, by the body's reply and what befalls the
      save of it: what is returned, and what memory and disk then say of the step. */
  predicate Replied(reply: Option<Reply>, fault: Fault, r: StepResult, key: Key, mem: seq<StepRecord>,
        disk: seq<StepRecord>)
  {
    match reply
    case None => r == ProcessDied && StatusOf(disk, key) == Running
    case Some(Succeeds(o)) =>
      (match fault
       case NoFault => r == Finished(o) && IsDone(mem, key) && OutcomeOf(mem, key) == o && disk == mem
       case FailAt(_) => r == ResultNotSaved(o) && IsDone(mem, key) && StatusOf(disk, key) == Running
       case KillAt(_) => r == ProcessDied && StatusOf(disk, key) == Running
       case KillAfterRename => r == ProcessDied && IsDone(disk, key) && OutcomeOf(disk, key) == o)
    case Some(Fails(e)) =>
      (match fault
       case NoFault => r == BodyFailed(e) && StatusOf(mem, key) == Failed && ErrorOf(mem, key) == e && disk == mem
       case FailAt(_) =>
         && r == BodyFailedNotSaved(e) && StatusOf(mem, key) == Failed && ErrorOf(mem, key) == e
         && StatusOf(disk, key) == Running
       case KillAt(_) => r == ProcessDied && StatusOf(disk, key) == Running
       case KillAfterRename => r == ProcessDied && StatusOf(disk, key) == Failed && ErrorOf(disk, key) == e)
  }

  ghost function MemOf(rs: RunState): Snapshot
    reads rs
  {
    Snapshot(rs.steps, rs.artifacts)
  }

  class Store {
    const statePath: string
    const dir: Dir<Snapshot>

    constructor (statePath: string, dir: Dir<Snapshot>)
      ensures this.statePath == statePath && this.dir == dir
    {
      this.statePath, this.dir := statePath, dir;
    }

    ghost predicate HasDisk()
      reads this, dir
    {
      statePath in dir.files && dir.files[statePath].Intact?
    }

    ghost function Disk(): Snapshot
      requires HasDisk()
      reads this, dir
    {
      dir.files[statePath].value
    }

    /** Starts a run and saves its empty state; a failed save leaves no run. */
    method Create(temp: string, fault: Fault) returns (w: WriteResult, rs: RunState)
      requires temp !in dir.temps
      modifies dir
      ensures fresh(rs) && MemOf(rs) == FRESH.disk
      ensures w == ResultOf(fault)
      ensures Lands(fault) ==> HasDisk() && Disk() == FRESH.disk
      ensures !Lands(fault) ==> dir.files == old(dir.files)
    {
      rs := new RunState(Snapshot([], map[]));
      w := Save(rs, temp, fault);
    }

    /** Reads the state back; a file that is missing, torn or cannot be read is an error. */
    method Load(readErrs: bool) returns (r: Result<RunState, string>)
      ensures r.Success? <==> HasDisk() && !readErrs
      ensures r.Success? ==> fresh(r.value) && MemOf(r.value) == Disk()
    {
      if statePath !in dir.files || readErrs {
        return Failure("load run");
      }
      match dir.files[statePath]
      case Torn =>
        return Failure("parse run");
      case Intact(saved) =>
        var rs := new RunState(saved);
        return Success(rs);
    }

    /** Replaces state.json by the whole in-memory state, or leaves it alone. */
    method Save(rs: RunState, temp: string, fault: Fault) returns (w: WriteResult)
      requires temp !in dir.temps
      modifies dir
      ensures w == ResultOf(fault)
      ensures dir.files == if Lands(fault) then old(dir.files)[statePath := Intact(MemOf(rs))] else old(dir.files)
      ensures w != Killed ==> dir.temps == old(dir.temps)
    {
      w := dir.WriteAtomic(statePath, temp, Snapshot(rs.steps, rs.artifacts), fault);
    }

    /** What a body does to the run's state: it records artifacts. */
    method RecordArtifacts(rs: RunState, recorded: seq<Recording>)
      modifies rs
      ensures MemOf(rs) == RecordAll(old(MemOf(rs)), recorded)
    {
      ghost var start := MemOf(rs);
      for i := 0 to |recorded|
        invariant MemOf(rs) == RecordAll(start, recorded[..i])
      {
        RecordAllNext(start, recorded[..i], recorded[i]);
        assert recorded[..i + 1] == recorded[..i] + [recorded[i]];
        rs.RecordArtifact(recorded[i].name, recorded[i].artifact);
      }
      assert recorded[..|recorded|] == recorded;
    }

    /** The second half of RunStep: the body has replied, and its reply is
        recorded and saved. */
    method Settle(rs: RunState, key: Key, reply: Reply, temp: string, fault: Fault)
      returns (r: StepResult)
      requires HasDisk() && temp !in dir.temps
      requires Recorded(rs.steps, key)
      modifies rs, dir
      ensures HasDisk()
      ensures MemOf(rs) == ReturnMem(old(MemOf(rs)), key, reply)
      ensures Disk() == if Lands(fault) then MemOf(rs) else old(Disk())
      ensures match reply
              case Succeeds(o) =>
                && IsDone(rs.steps, key) && OutcomeOf(rs.steps, key) == o
                && r == (match fault
                         case NoFault => Finished(o)
                         case FailAt(_) => ResultNotSaved(o)
                         case KillAt(_) => ProcessDied
                         case KillAfterRename => ProcessDied)
              case Fails(e) =>
                && StatusOf(rs.steps, key) == Failed && ErrorOf(rs.steps, key) == e
                && r == (match fault
                         case NoFault => BodyFailed(e)
                         case FailAt(_) => BodyFailedNotSaved(e)
                         case KillAt(_) => ProcessDied
                         case KillAfterRename => ProcessDied)
      ensures !r.ProcessDied? ==> dir.temps == old(dir.temps)
      ensures dir.files.Keys == old(dir.files.Keys)
      ensures forall p :: p in dir.files && p != statePath ==> dir.files[p] == old(dir.files[p])
    {
      match reply {
        case Succeeds(outcome) =>
          PutFrame(rs.steps, StepRecord(key, Done, outcome, ""));
          rs.Complete(key, outcome);
        case Fails(error) =>
          PutFrame(rs.steps, StepRecord(key, Failed, OutcomeOf(rs.steps, key), error));
          PutError(rs.steps, StepRecord(key, Failed, OutcomeOf(rs.steps, key), error));
          rs.Fail(key, error);
      }
      var w := Save(rs, temp, fault);
      if w == Killed {
        return ProcessDied;
      }
      match reply {
        case Succeeds(outcome) =>
          return if w == Written then Finished(outcome) else ResultNotSaved(outcome);
        case Fails(error) =>
          return if w == Written then BodyFailed(error) else BodyFailedNotSaved(error);
      }
    }

    /** Runs the step's body unless it is already done, saving before and after.
        Whatever the environment does, the call is a run of the engine from
        (disk, memory) to (disk, memory), and state.json is whole throughout. */
    method RunStep(rs: RunState, key: Key, env: StepEnv) returns (r: StepResult)
      requires HasDisk()
      requires env.startTemp !in dir.temps && env.endTemp !in dir.temps
      modifies rs, dir
      ensures HasDisk()
      ensures Exec(State(old(Disk()), Idle(old(MemOf(rs)))), RunStepEvents(old(MemOf(rs)), key, env))
              == Some(State(Disk(), if r.ProcessDied? then Dead else Idle(MemOf(rs))))
      ensures r.Finished? <==> Clean(old(MemOf(rs)), key, env)
      ensures old(IsDone(rs.steps, key)) ==>
                && r == Finished(old(OutcomeOf(rs.steps, key)))
                && MemOf(rs) == old(MemOf(rs)) && dir.files == old(dir.files)
      ensures !old(IsDone(rs.steps, key)) ==>
                match env.startFault
                case FailAt(_) => r == StartNotSaved && StatusOf(rs.steps, key) == Running && Disk() == old(Disk())
                case KillAt(_) => r == ProcessDied && Disk() == old(Disk())
                case KillAfterRename => r == ProcessDied && StatusOf(Disk().steps, key) == Running
                case NoFault => Replied(env.reply, env.endFault, r, key, rs.steps, Disk().steps)
      ensures r.Finished? ==> IsDone(rs.steps, key) && OutcomeOf(rs.steps, key) == r.outcome
      ensures r.BodyFailed? || (r.Finished? && !old(IsDone(rs.steps, key))) ==> Disk() == MemOf(rs)
      ensures r.ResultNotSaved? ==> IsDone(rs.steps, key) && OutcomeOf(rs.steps, key) == r.lost
      ensures r.BodyFailed? || r.BodyFailedNotSaved? ==> StatusOf(rs.steps, key) == Failed
      ensures !r.ProcessDied? ==> (StatusOf(rs.steps, key) == Running <==> r.StartNotSaved?)
      ensures !r.ProcessDied? ==> dir.temps == old(dir.temps)
      ensures dir.files.Keys == old(dir.files.Keys)
      ensures forall p :: p in dir.files && p != statePath ==> dir.files[p] == old(dir.files[p])
    {
      RunStepIsARun(Disk(), MemOf(rs), key, env);
      var status := rs.GetStatus(key);
      if status == Done {
        var outcome := rs.GetOutcome(key);
        return Finished(outcome);
      }

      BegunIsRunning(rs.steps, key);
      rs.Begin(key);
      var w := Save(rs, env.startTemp, env.startFault);
      if w == WriteError {
        return StartNotSaved;
      }
      if w == Killed {
        return ProcessDied;
      }
      RecordAllKeepsSteps(MemOf(rs), env.recorded);
      RecordArtifacts(rs, env.recorded);
      if env.reply.None? {
        return ProcessDied;
      }
      r := Settle(rs, key, env.reply.value, env.endTemp, env.endFault);
    }
  }
}
