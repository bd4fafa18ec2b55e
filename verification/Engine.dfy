/** The checkpoint engine as a transition system over one run id: what is in
    state.json, and what the one process working on the run (if any) holds in
    memory. A run is any finite sequence of events, across any number of
    processes, failed saves and kills. */
module Engine {
  import opened Prelude
  import opened Checkpoint

  /** What the body of a step reports. */
  datatype Reply = Succeeds(outcome: Outcome) | Fails(error: string)

  datatype Proc =
    | Dead
    | Idle(mem: Snapshot)
    | InStep(mem: Snapshot, key: Key)   // between the first save of RunStep and the last

  datatype State = State(disk: Snapshot, proc: Proc)

  datatype Event =
    | Load                              // a process starts on what state.json holds
    | Skip(key: Key)                    // RunStep finds the step done
    | Begin(key: Key, saved: bool)      // RunStep begins the step and saves
    | Return(key: Key, reply: Reply, saved: bool)   // the body returns, and RunStep records its reply and saves
    | Record(name: string, artifact: Artifact)   // RecordArtifact, inside a body or between steps
    | Persist(saved: bool)              // a save outside any step
    | Quit                              // the process ends, or is killed, outside a step's body
    | Kill(key: Key)                    // the process is killed inside a step's body

  const FRESH := State(Snapshot([], map[]), Dead)

  function BeginMem(mem: Snapshot, key: Key): Snapshot {
    mem.(steps := Begun(mem.steps, key))
  }

  function ReturnMem(mem: Snapshot, key: Key, reply: Reply): Snapshot
    requires Recorded(mem.steps, key)
  {
    mem.(steps := match reply
                  case Succeeds(o) => Completed(mem.steps, key, o)
                  case Fails(e) => FailedWith(mem.steps, key, e))
  }

  function RecordMem(mem: Snapshot, name: string, artifact: Artifact): Snapshot {
    mem.(artifacts := mem.artifacts[name := artifact])
  }

  /** The state after one event, or None when the event cannot happen. */
  function Step(s: State, e: Event): Option<State> {
    match e
    case Load =>
      if s.proc.Dead? then Some(s.(proc := Idle(s.disk))) else None
    case Skip(k) =>
      if s.proc.Idle? && IsDone(s.proc.mem.steps, k) then Some(s) else None
    case Begin(k, saved) =>
      if s.proc.Idle? && !IsDone(s.proc.mem.steps, k) then
        var mem := BeginMem(s.proc.mem, k);
        Some(if saved then State(mem, InStep(mem, k)) else State(s.disk, Idle(mem)))
      else None
    case Return(k, reply, saved) =>
      if s.proc.InStep? && s.proc.key == k && Recorded(s.proc.mem.steps, k) then
        var mem := ReturnMem(s.proc.mem, k, reply);
        Some(State(if saved then mem else s.disk, Idle(mem)))
      else None
    case Record(name, artifact) =>
      if s.proc.Dead? then None
      else Some(s.(proc := s.proc.(mem := RecordMem(s.proc.mem, name, artifact))))
    case Persist(saved) =>
      if s.proc.Idle? then Some(s.(disk := if saved then s.proc.mem else s.disk)) else None
    case Quit =>
      if s.proc.Idle? then Some(s.(proc := Dead)) else None
    case Kill(k) =>
      if s.proc.InStep? && s.proc.key == k then Some(s.(proc := Dead)) else None
  }

  function Exec(s: State, es: seq<Event>): Option<State>
    decreases |es|
  {
    if es == [] then Some(s)
    else
      match Step(s, es[0])
      case None => None
      case Some(t) => Exec(t, es[1..])
  }

  /** Everything done in a is done in b with the same outcome. */
  ghost predicate DoneAgrees(a: seq<StepRecord>, b: seq<StepRecord>) {
    forall k :: IsDone(a, k) ==> IsDone(b, k) && OutcomeOf(b, k) == OutcomeOf(a, k)
  }

  ghost predicate Inv(s: State) {
    && UniqueKeys(s.disk.steps)
    && (!s.proc.Dead? ==> UniqueKeys(s.proc.mem.steps) && DoneAgrees(s.disk.steps, s.proc.mem.steps))
    && (s.proc.InStep? ==>
          && Recorded(s.proc.mem.steps, s.proc.key)
          && s.disk.steps == s.proc.mem.steps
          && StatusOf(s.disk.steps, s.proc.key) == Running)
  }

  /** One event keeps the invariant, and keeps what is done on disk. */
  lemma StepKeepsInv(s: State, e: Event)
    requires Inv(s) && Step(s, e).Some?
    ensures Inv(Step(s, e).value)
    ensures DoneAgrees(s.disk.steps, Step(s, e).value.disk.steps)
  {
    match e
    case Begin(k, saved) =>
      PutFrame(s.proc.mem.steps, StepRecord(k, Running, NO_OUTCOME, ""));
    case Return(k, reply, saved) =>
      match reply {
        case Succeeds(o) => PutFrame(s.proc.mem.steps, StepRecord(k, Done, o, ""));
        case Fails(err) => PutFrame(s.proc.mem.steps, StepRecord(k, Failed, OutcomeOf(s.proc.mem.steps, k), err));
      }
    case _ =>
  }

  /** In every run, records stay unique, a process never holds less done work
      than the disk, and the disk shows a step as running whenever its body
      executes. Return is enabled whenever a body returns, so the panics in
      Complete and Fail are unreachable. */
  lemma {:induction false} RunKeepsInv(s: State, es: seq<Event>)
    requires Inv(s) && Exec(s, es).Some?
    ensures Inv(Exec(s, es).value)
    ensures DoneAgrees(s.disk.steps, Exec(s, es).value.disk.steps)
    decreases |es|
  {
    if es != [] {
      StepKeepsInv(s, es[0]);
      RunKeepsInv(Step(s, es[0]).value, es[1..]);
    }
  }

  lemma ReachableInv(es: seq<Event>)
    requires Exec(FRESH, es).Some?
    ensures Inv(Exec(FRESH, es).value)
  {
    RunKeepsInv(FRESH, es);
  }

  /** How the executions of one step's body ended over a run. */
  datatype Tally = Tally(executions: nat, failures: nat, kills: nat, lostResults: nat, keptResults: nat)

  /** What one event adds to the tally of a step. */
  function Counted(e: Event, key: Key): Tally {
    match e
    case Begin(k, saved) => Tally(if k == key && saved then 1 else 0, 0, 0, 0, 0)
    case Return(k, reply, saved) =>
      if k != key then Tally(0, 0, 0, 0, 0)
      else if reply.Fails? then Tally(0, 1, 0, 0, 0)
      else if saved then Tally(0, 0, 0, 0, 1)
      else Tally(0, 0, 0, 1, 0)
    case Kill(k) => Tally(0, 0, if k == key then 1 else 0, 0, 0)
    case _ => Tally(0, 0, 0, 0, 0)
  }

  function TallyOf(es: seq<Event>, key: Key): Tally {
    if es == [] then Tally(0, 0, 0, 0, 0)
    else
      var d, t := Counted(es[0], key), TallyOf(es[1..], key);
      Tally(d.executions + t.executions, d.failures + t.failures, d.kills + t.kills,
            d.lostResults + t.lostResults, d.keptResults + t.keptResults)
  }

  function Executing(s: State, key: Key): nat {
    if s.proc.InStep? && s.proc.key == key then 1 else 0
  }

  lemma CountedOnce(s: State, e: Event, key: Key)
    requires Inv(s) && Step(s, e).Some?
    ensures var t := Step(s, e).value;
            var d := Counted(e, key);
            && d.executions + Executing(s, key)
               == d.failures + d.kills + d.lostResults + d.keptResults + Executing(t, key)
            && d.keptResults <= 1
            && (d.keptResults == 1 ==> IsDone(t.disk.steps, key))
            && (IsDone(s.disk.steps, key) ==> d.executions == 0 && d.keptResults == 0 && Executing(s, key) == 0)
  {
    if e.Return? && e.reply.Succeeds? {
      PutFrame(s.proc.mem.steps, StepRecord(e.key, Done, e.reply.outcome, ""));
    }
  }

  /** Exact accounting between any two states of a run. */
  lemma {:induction false} Accounting(s: State, es: seq<Event>, key: Key)
    requires Inv(s) && Exec(s, es).Some?
    ensures var t := Exec(s, es).value;
            var n := TallyOf(es, key);
            && n.executions + Executing(s, key)
               == n.failures + n.kills + n.lostResults + n.keptResults + Executing(t, key)
            && n.keptResults <= 1
            && (n.keptResults == 1 ==> IsDone(t.disk.steps, key) && Executing(t, key) == 0)
            && (IsDone(s.disk.steps, key) ==> n.executions == 0 && n.keptResults == 0 && Executing(t, key) == 0)
    decreases |es|
  {
    hide Step, Counted, IsDone;
    if es == [] {
      DoneIsNotExecuting(s, key);
    } else {
      var mid := Step(s, es[0]).value;
      StepKeepsInv(s, es[0]);
      CountedOnce(s, es[0], key);
      Accounting(mid, es[1..], key);
      RunKeepsInv(mid, es[1..]);
    }
  }

  lemma DoneIsNotExecuting(s: State, key: Key)
    requires Inv(s)
    ensures IsDone(s.disk.steps, key) ==> Executing(s, key) == 0
  {
  }

  /** Done on disk is absorbing: through any further failed saves, kills and
      resumes the step stays done with the same outcome, and its body never
      executes again. */
  lemma DoneIsAbsorbing(before: seq<Event>, after: seq<Event>, key: Key)
    requires Exec(FRESH, before).Some?
    requires IsDone(Exec(FRESH, before).value.disk.steps, key)
    requires Exec(Exec(FRESH, before).value, after).Some?
    ensures var s, t := Exec(FRESH, before).value, Exec(Exec(FRESH, before).value, after).value;
            && IsDone(t.disk.steps, key)
            && OutcomeOf(t.disk.steps, key) == OutcomeOf(s.disk.steps, key)
            && TallyOf(after, key).executions == 0
  {
    ReachableInv(before);
    RunKeepsInv(Exec(FRESH, before).value, after);
    Accounting(Exec(FRESH, before).value, after, key);
  }

  /** A step's body executes at most once more than it fails, is killed, or
      succeeds without its result reaching the disk. */
  lemma ExecutionBound(es: seq<Event>, key: Key)
    requires Exec(FRESH, es).Some?
    ensures var n := TallyOf(es, key);
            n.executions <= 1 + n.failures + n.kills + n.lostResults
  {
    Accounting(FRESH, es, key);
  }
}
