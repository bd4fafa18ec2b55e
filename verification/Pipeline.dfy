/** A fixed list of checkpointed steps, run by one process after another until
    one reaches the end: the shape of runRun and cutover.Run. The world the
    steps act on is abstract; a program says which worlds a step's body may
    leave when it succeeds and when it fails or is killed. */
module Pipeline {
  import opened Prelude
  import opened Checkpoint
  import opened Engine
  import opened History

  datatype Item =
    | Do(key: Key, tolerant: bool)   // a step; a tolerant one may fail without ending the process
    | Maybe(key: Key)                // a step a process passes over when it lacks the facts for it
    | SaveState                      // a save between steps
    | Gate                           // stop if the process has come by the verdict "fail"

  datatype Program<!W> = Program(
    items: seq<Item>,
    completes: (nat, W, W, Outcome) -> bool,
    interrupts: (nat, W, W) -> bool)

  /** The engine's state, where the running process is in the list and whether it
      has come by the verdict "fail" (meaningful while one is alive), and the world. */
  datatype Position<W> = Position(eng: State, pc: nat, world: W, blocking: bool)

  datatype Move<W> =
    | Launch
    | SkipDone
    | PassOver
    | BeginStep(saved: bool)
    | Finish(reply: Reply, saved: bool, after: W)
    | Note(name: string, artifact: Artifact)
    | SaveNow(saved: bool)
    | CheckGate
    | Leave
    | Die(after: W)

  const FAIL := "fail"

  predicate Refused(steps: seq<StepRecord>, key: Key) {
    IsDone(steps, key) && OutcomeOf(steps, key).verdict == FAIL
  }

  predicate IsStep(item: Item) {
    item.Do? || item.Maybe?
  }

  /** Some step that every process comes by has been refused before item g. */
  predicate Blocked(items: seq<Item>, steps: seq<StepRecord>, g: nat)
    requires g <= |items|
  {
    exists i :: 0 <= i < g && items[i].Do? && Refused(steps, items[i].key)
  }

  /** Ends the process. */
  function Ended(eng: State): State {
    eng.(proc := Dead)
  }

  function Advance<W>(s: Position<W>, eng: State, goOn: bool, world: W, fail: bool): Position<W> {
    if goOn then Position(eng, s.pc + 1, world, s.blocking || fail)
    else Position(Ended(eng), s.pc, world, s.blocking)
  }

  function Next<W>(p: Program<W>, s: Position<W>, m: Move<W>): Option<Position<W>> {
    match m
    case Launch =>
      (match Step(s.eng, Load)
       case None => None
       case Some(eng) => Some(Position(eng, 0, s.world, false)))
    case Leave =>
      (match Step(s.eng, Quit)
       case None => None
       case Some(eng) => Some(s.(eng := eng)))
    case Note(name, artifact) =>
      (match Step(s.eng, Record(name, artifact))
       case None => None
       case Some(eng) => Some(s.(eng := eng)))
    case _ =>
      if s.eng.proc.Dead? || s.pc >= |p.items| then None else NextItem(p, s, m)
  }

  /** What the process does at the item it has reached. */
  function NextItem<W>(p: Program<W>, s: Position<W>, m: Move<W>): Option<Position<W>>
    requires !s.eng.proc.Dead? && s.pc < |p.items|
  {
    match p.items[s.pc]
    case Do(key, tolerant) => NextInStep(p, s, key, tolerant, m)
    case Maybe(key) =>
      if m.PassOver? then
        if s.eng.proc.Idle? then Some(Advance(s, s.eng, true, s.world, false)) else None
      else NextInStep(p, s, key, false, m)
    case SaveState =>
      if m.SaveNow? then
        match Step(s.eng, Persist(m.saved))
        case None => None
        case Some(eng) => Some(Advance(s, eng, m.saved, s.world, false))
      else None
    case Gate =>
      if m.CheckGate? && s.eng.proc.Idle? then Some(Advance(s, s.eng, !s.blocking, s.world, false))
      else None
  }

  /** What the process does at a step. */
  function NextInStep<W>(p: Program<W>, s: Position<W>, key: Key, tolerant: bool, m: Move<W>): Option<Position<W>>
    requires !s.eng.proc.Dead? && s.pc < |p.items|
  {
    match m
    case SkipDone =>
      (match Step(s.eng, Skip(key))
       case None => None
       case Some(eng) => Some(Advance(s, eng, true, s.world, Refused(s.eng.proc.mem.steps, key))))
    case BeginStep(saved) =>
      (match Step(s.eng, Begin(key, saved))
       case None => None
       case Some(eng) => Some(if saved then s.(eng := eng) else Advance(s, eng, tolerant, s.world, false)))
    case Finish(reply, saved, after) =>
      if match reply
         case Succeeds(o) => p.completes(s.pc, s.world, after, o)
         case Fails(_) => p.interrupts(s.pc, s.world, after)
      then
        match Step(s.eng, Return(key, reply, saved))
        case None => None
        case Some(eng) =>
          Some(Advance(s, eng, (reply.Succeeds? && saved) || tolerant, after,
                       reply.Succeeds? && reply.outcome.verdict == FAIL))
      else None
    case Die(after) =>
      if p.interrupts(s.pc, s.world, after) then
        match Step(s.eng, Kill(key))
        case None => None
        case Some(eng) => Some(Position(eng, s.pc, after, s.blocking))
      else None
    case _ => None
  }

  function Run<W>(p: Program<W>, s: Position<W>, ms: seq<Move<W>>): Option<Position<W>>
    decreases |ms|
  {
    if ms == [] then Some(s)
    else
      match Next(p, s, ms[0])
      case None => None
      case Some(t) => Run(p, t, ms[1..])
  }

  function Start<W>(world: W): Position<W> {
    Position(FRESH, 0, world, false)
  }

  /** Steps have distinct keys, and every gate comes before every tolerant step. */
  ghost predicate WellFormed(items: seq<Item>) {
    && (forall i, j :: 0 <= i < j < |items| && IsStep(items[i]) && IsStep(items[j]) ==> items[i].key != items[j].key)
    && (forall t, g :: 0 <= t < |items| && 0 <= g < |items| && items[t].Do? && items[t].tolerant && items[g].Gate? ==>
          g < t)
  }

  predicate ItemPassed(items: seq<Item>, steps: seq<StepRecord>, i: nat)
    requires i < |items|
  {
    match items[i]
    case Do(k, tolerant) => if tolerant then Recorded(steps, k) else IsDone(steps, k)
    case Maybe(_) => true
    case SaveState => true
    case Gate => !Blocked(items, steps, i)
  }

  ghost predicate Passed(items: seq<Item>, steps: seq<StepRecord>, n: nat)
    requires n <= |items|
  {
    forall i :: 0 <= i < n ==> ItemPassed(items, steps, i)
  }

  /** Nothing is recorded out of order: a recorded step has everything before it behind it. */
  ghost predicate Ordered(items: seq<Item>, steps: seq<StepRecord>) {
    forall j :: 0 <= j < |items| && IsStep(items[j]) && Recorded(steps, items[j].key) ==> Passed(items, steps, j)
  }

  ghost predicate Inv<W>(p: Program<W>, s: Position<W>) {
    && Engine.Inv(s.eng)
    && Ordered(p.items, s.eng.disk.steps)
    && (!s.eng.proc.Dead? ==>
          && s.pc <= |p.items|
          && Ordered(p.items, s.eng.proc.mem.steps)
          && Passed(p.items, s.eng.proc.mem.steps, s.pc)
          && (Blocked(p.items, s.eng.proc.mem.steps, s.pc) ==> s.blocking))
    && (s.eng.proc.InStep? ==>
          s.pc < |p.items| && IsStep(p.items[s.pc]) && p.items[s.pc].key == s.eng.proc.key)
  }

  lemma RecordedPassed(items: seq<Item>, steps: seq<StepRecord>, i: nat, j: nat)
    requires i < j < |items| && IsStep(items[j]) && Recorded(steps, items[j].key) && Ordered(items, steps)
    ensures ItemPassed(items, steps, i)
  {
    assert Passed(items, steps, j);
  }

  /** The step must be done before a process goes past it. */
  predicate MustPass(item: Item) {
    item.Do? && !item.tolerant
  }

  /** Updating the record of the step a process stands at keeps the order. */
  lemma PutKeepsPassed(items: seq<Item>, steps: seq<StepRecord>, pc: nat, rec: StepRecord, n: nat)
    requires WellFormed(items) && pc < |items| && IsStep(items[pc]) && rec.key == items[pc].key
    requires n <= |items| && Passed(items, steps, n)
    requires n <= pc || !MustPass(items[pc])
    ensures Passed(items, Put(steps, rec), n)
  {
    PutFrame(steps, rec);
    var after := Put(steps, rec);
    forall i | 0 <= i < n
      ensures ItemPassed(items, after, i)
    {
      assert ItemPassed(items, steps, i);
      if items[i].Gate? && Blocked(items, after, i) {
        var k :| 0 <= k < i && items[k].Do? && Refused(after, items[k].key);
        assert k != pc;
        assert Refused(steps, items[k].key);
      }
    }
  }

  /** What a process has come by changes only by the step it stands at. */
  lemma PutKeepsBlocked(items: seq<Item>, steps: seq<StepRecord>, pc: nat, rec: StepRecord)
    requires WellFormed(items) && pc < |items| && IsStep(items[pc]) && rec.key == items[pc].key
    ensures Blocked(items, Put(steps, rec), pc) == Blocked(items, steps, pc)
    ensures Blocked(items, Put(steps, rec), pc + 1) ==>
              Blocked(items, steps, pc) || (rec.status == Done && rec.outcome.verdict == FAIL)
  {
    hide Put, StatusOf, OutcomeOf, Recorded;
    PutFrame(steps, rec);
    forall i | 0 <= i < pc && items[i].Do?
      ensures Refused(Put(steps, rec), items[i].key) == Refused(steps, items[i].key)
    {
      assert items[i].key != rec.key;
    }
  }

  lemma PutKeepsOrdered(items: seq<Item>, steps: seq<StepRecord>, pc: nat, rec: StepRecord)
    requires WellFormed(items) && pc < |items| && IsStep(items[pc]) && rec.key == items[pc].key
    requires Ordered(items, steps) && Passed(items, steps, pc) && !IsDone(steps, rec.key)
    ensures Ordered(items, Put(steps, rec)) && Passed(items, Put(steps, rec), pc)
    ensures rec.status == Done || !MustPass(items[pc]) ==> Passed(items, Put(steps, rec), pc + 1)
    ensures Blocked(items, Put(steps, rec), pc) == Blocked(items, steps, pc)
    ensures Blocked(items, Put(steps, rec), pc + 1) ==>
              Blocked(items, steps, pc) || (rec.status == Done && rec.outcome.verdict == FAIL)
  {
    hide Put, OutcomeOf, Recorded, Blocked;
    PutFrame(steps, rec);
    PutKeepsBlocked(items, steps, pc, rec);
    PutKeepsPassed(items, steps, pc, rec, pc);
    assert rec.status == Done || !MustPass(items[pc]) ==> ItemPassed(items, Put(steps, rec), pc);
    forall j | 0 <= j < |items| && IsStep(items[j]) && Recorded(Put(steps, rec), items[j].key)
      ensures Passed(items, Put(steps, rec), j)
    {
      if j != pc {
        assert Recorded(steps, items[j].key);
        if j > pc && MustPass(items[pc]) {
          RecordedPassed(items, steps, pc, j);
          assert false;
        } else {
          PutKeepsPassed(items, steps, pc, rec, j);
        }
      }
    }
  }

  lemma BeginKeepsInv<W>(p: Program<W>, s: Position<W>, saved: bool)
    requires WellFormed(p.items) && Inv(p, s) && Next(p, s, BeginStep(saved)).Some?
    ensures Inv(p, Next(p, s, BeginStep(saved)).value)
    ensures DoneAgrees(s.eng.disk.steps, Next(p, s, BeginStep(saved)).value.eng.disk.steps)
  {
    var key := p.items[s.pc].key;
    var mem := s.eng.proc.mem;
    StepKeepsInv(s.eng, Begin(key, saved));
    PutKeepsOrdered(p.items, mem.steps, s.pc, StepRecord(key, Running, NO_OUTCOME, ""));
    assert BeginMem(mem, key).steps == Put(mem.steps, StepRecord(key, Running, NO_OUTCOME, ""));
  }

  lemma FinishKeepsInv<W>(p: Program<W>, s: Position<W>, m: Move<W>)
    requires WellFormed(p.items) && Inv(p, s) && m.Finish? && Next(p, s, m).Some?
    ensures Inv(p, Next(p, s, m).value)
    ensures DoneAgrees(s.eng.disk.steps, Next(p, s, m).value.eng.disk.steps)
  {
    var key := p.items[s.pc].key;
    var steps := s.eng.proc.mem.steps;
    StepKeepsInv(s.eng, Return(key, m.reply, m.saved));
    var rec := match m.reply
      case Succeeds(o) => StepRecord(key, Done, o, "")
      case Fails(e) => StepRecord(key, Failed, OutcomeOf(steps, key), e);
    PutKeepsOrdered(p.items, steps, s.pc, rec);
    assert ReturnMem(s.eng.proc.mem, key, m.reply).steps == Put(steps, rec);
  }

  /** Going past an item without touching the engine. */
  lemma PassKeepsInv<W>(p: Program<W>, s: Position<W>, m: Move<W>)
    requires WellFormed(p.items) && Inv(p, s) && Next(p, s, m).Some?
    requires m.SkipDone? || m.PassOver? || m.CheckGate?
    ensures Inv(p, Next(p, s, m).value)
    ensures s.eng.disk == Next(p, s, m).value.eng.disk
  {
    hide Ordered, UniqueKeys, DoneAgrees, Put, IndexOf, Recorded;
  }

  lemma NextKeepsInv<W>(p: Program<W>, s: Position<W>, m: Move<W>)
    requires WellFormed(p.items) && Inv(p, s) && Next(p, s, m).Some?
    ensures Inv(p, Next(p, s, m).value)
    ensures DoneAgrees(s.eng.disk.steps, Next(p, s, m).value.eng.disk.steps)
  {
    hide Ordered, OutcomeOf, UniqueKeys, Put, IndexOf;
    match m
    case BeginStep(saved) => BeginKeepsInv(p, s, saved);
    case Finish(_, _, _) => FinishKeepsInv(p, s, m);
    case Note(name, artifact) => StepKeepsInv(s.eng, Record(name, artifact));
    case SaveNow(saved) => StepKeepsInv(s.eng, Persist(saved));
    case SkipDone => PassKeepsInv(p, s, m);
    case PassOver => PassKeepsInv(p, s, m);
    case CheckGate => PassKeepsInv(p, s, m);
    case _ =>
  }

  lemma StartInv<W>(p: Program<W>, world: W)
    ensures Inv(p, Start(world))
  {
  }

  lemma {:induction false} RunKeepsInv<W>(p: Program<W>, s: Position<W>, ms: seq<Move<W>>)
    requires WellFormed(p.items) && Inv(p, s) && Run(p, s, ms).Some?
    ensures Inv(p, Run(p, s, ms).value)
    ensures DoneAgrees(s.eng.disk.steps, Run(p, s, ms).value.eng.disk.steps)
    decreases |ms|
  {
    if ms != [] {
      NextKeepsInv(p, s, ms[0]);
      RunKeepsInv(p, Next(p, s, ms[0]).value, ms[1..]);
    }
  }

  /** A refusal recorded before a gate is permanent: however often the run is
      resumed, no step after the gate is ever recorded. */
  lemma BlockedForever<W>(p: Program<W>, world: W, before: seq<Move<W>>, after: seq<Move<W>>, h: nat, g: nat, j: nat)
    requires WellFormed(p.items) && h < g < j < |p.items|
    requires p.items[h].Do? && p.items[g].Gate? && IsStep(p.items[j])
    requires Run(p, Start(world), before).Some?
    requires Refused(Run(p, Start(world), before).value.eng.disk.steps, p.items[h].key)
    requires Run(p, Run(p, Start(world), before).value, after).Some?
    ensures var steps := Run(p, Run(p, Start(world), before).value, after).value.eng.disk.steps;
            Refused(steps, p.items[h].key) && !Recorded(steps, p.items[j].key)
  {
    RunKeepsInv(p, Start(world), before);
    var s := Run(p, Start(world), before).value;
    RunKeepsInv(p, s, after);
    var steps := Run(p, s, after).value.eng.disk.steps;
    assert Refused(steps, p.items[h].key);
    if Recorded(steps, p.items[j].key) {
      RecordedPassed(p.items, steps, g, j);
      assert false;
    }
  }

  // ---------------------------------------------------------- a run, seen by the engine

  /** The engine event of a move, if it has one; a process that does not go on also quits. */
  function EventOf<W>(p: Program<W>, s: Position<W>, m: Move<W>): Option<Event> {
    match m
    case Launch => Some(Load)
    case Leave => Some(Quit)
    case Note(name, artifact) => Some(Record(name, artifact))
    case SaveNow(saved) => Some(Persist(saved))
    case PassOver => None
    case CheckGate => None
    case _ =>
      if s.pc < |p.items| && IsStep(p.items[s.pc]) then
        var key := p.items[s.pc].key;
        match m
        case SkipDone => Some(Skip(key))
        case BeginStep(saved) => Some(Begin(key, saved))
        case Finish(reply, saved, _) => Some(Return(key, reply, saved))
        case Die(_) => Some(Kill(key))
        case _ => None
      else None
  }

  function MoveEvents<W>(p: Program<W>, s: Position<W>, m: Move<W>): seq<Event> {
    var own := match EventOf(p, s, m) case None => [] case Some(e) => [e];
    var t := Next(p, s, m);
    if t.Some? && t.value.eng.proc.Dead? && !m.Leave? && !m.Die? then own + [Quit] else own
  }

  function RunEvents<W>(p: Program<W>, s: Position<W>, ms: seq<Move<W>>): seq<Event>
    decreases |ms|
  {
    if ms == [] || Next(p, s, ms[0]).None? then []
    else MoveEvents(p, s, ms[0]) + RunEvents(p, Next(p, s, ms[0]).value, ms[1..])
  }

  lemma MoveIsExec<W>(p: Program<W>, s: Position<W>, m: Move<W>)
    requires Next(p, s, m).Some?
    ensures Exec(s.eng, MoveEvents(p, s, m)) == Some(Next(p, s, m).value.eng)
  {
    hide Begun, Completed, FailedWith, Recorded, IsDone, Refused;
    var es := MoveEvents(p, s, m);
    if |es| == 1 {
      assert es[1..] == [];
    } else if |es| == 2 {
      assert es[1..] == [es[1]] && [es[1]][1..] == [];
      var t := Step(s.eng, es[0]).value;
      assert Exec(t, [es[1]]) == Step(t, es[1]);
    }
  }

  lemma {:induction false} ExecAppend(s: State, es: seq<Event>, more: seq<Event>)
    requires Exec(s, es).Some?
    ensures Exec(s, es + more) == Exec(Exec(s, es).value, more)
    decreases |es|
  {
    hide Step;
    if es == [] {
      assert es + more == more;
    } else {
      assert (es + more)[1..] == es[1..] + more;
      ExecAppend(Step(s, es[0]).value, es[1..], more);
    }
  }

  /** A run of the pipeline is a run of the engine. */
  lemma {:induction false} RunIsExec<W>(p: Program<W>, s: Position<W>, ms: seq<Move<W>>)
    requires Run(p, s, ms).Some?
    ensures Exec(s.eng, RunEvents(p, s, ms)) == Some(Run(p, s, ms).value.eng)
    decreases |ms|
  {
    hide Next, MoveEvents, Step;
    if ms != [] {
      var t := Next(p, s, ms[0]).value;
      MoveIsExec(p, s, ms[0]);
      RunIsExec(p, t, ms[1..]);
      ExecAppend(s.eng, MoveEvents(p, s, ms[0]), RunEvents(p, t, ms[1..]));
    }
  }

  /** In every reachable state.json, a recorded step has every earlier step done,
      and no step before a gate that precedes it was refused. A tolerant one is at
      least recorded, and its record is what the last event on it to reach the disk
      said. Nothing is said of steps that can be passed over. */
  lemma PipelinePrefix<W>(p: Program<W>, world: W, ms: seq<Move<W>>, i: nat, j: nat)
    requires WellFormed(p.items) && Run(p, Start(world), ms).Some?
    requires i < j < |p.items| && IsStep(p.items[j])
    requires Recorded(Run(p, Start(world), ms).value.eng.disk.steps, p.items[j].key)
    ensures var steps := Run(p, Start(world), ms).value.eng.disk.steps;
            match p.items[i]
            case Do(k, tolerant) =>
              if tolerant then Recorded(steps, k) && Tells(RunEvents(p, Start(world), ms), steps, k)
              else IsDone(steps, k)
            case Maybe(_) => true
            case SaveState => true
            case Gate => forall h :: 0 <= h < i && p.items[h].Do? ==> !Refused(steps, p.items[h].key)
  {
    hide Tells, RunEvents;
    RunKeepsInv(p, Start(world), ms);
    RecordedPassed(p.items, Run(p, Start(world), ms).value.eng.disk.steps, i, j);
    if p.items[i].Do? {
      RunIsExec(p, Start(world), ms);
      StatusOnDisk(RunEvents(p, Start(world), ms), p.items[i].key);
    }
  }

  /** Over every run, a tolerant step behind a later recorded one is running, done
      or failed in state.json: running exactly when the last event on it that
      reached the disk is a begin, and otherwise as its last reply there says. */
  lemma TolerantStatus<W>(p: Program<W>, world: W, ms: seq<Move<W>>, i: nat, j: nat)
    requires WellFormed(p.items) && Run(p, Start(world), ms).Some?
    requires i < j < |p.items| && p.items[i].Do? && p.items[i].tolerant && IsStep(p.items[j])
    requires Recorded(Run(p, Start(world), ms).value.eng.disk.steps, p.items[j].key)
    ensures var es, steps, key := RunEvents(p, Start(world), ms), Run(p, Start(world), ms).value.eng.disk.steps,
        p.items[i].key;
            && Recorded(steps, key) && StatusOf(steps, key) in {Running, Done, Failed}
            && (StatusOf(steps, key) == Running <==>
                  exists a: nat :: LastOnDisk(es, |es|, OnStep(key), a) && es[a].Begin?)
            && Tells(es, steps, key)
  {
    hide Run, RunEvents, Tells, LastOnDisk;
    PipelinePrefix(p, world, ms, i, j);
    RunIsExec(p, Start(world), ms);
    RunningExactly(RunEvents(p, Start(world), ms), p.items[i].key);
  }

  lemma RunCons<W>(p: Program<W>, s: Position<W>, m: Move<W>, ms: seq<Move<W>>)
    requires Next(p, s, m).Some?
    ensures Run(p, s, [m] + ms) == Run(p, Next(p, s, m).value, ms)
  {
    assert ([m] + ms)[1..] == ms;
  }

  lemma RunOne<W>(p: Program<W>, s: Position<W>, m: Move<W>)
    ensures Run(p, s, [m]) == Next(p, s, m)
  {
    assert [m][1..] == [];
  }

  lemma RunTwo<W>(p: Program<W>, s: Position<W>, m: Move<W>, m': Move<W>)
    requires Next(p, s, m).Some?
    ensures Run(p, s, [m, m']) == Next(p, Next(p, s, m).value, m')
  {
    hide Next;
    assert [m] + [m'] == [m, m'];
    RunCons(p, s, m, [m']);
    RunOne(p, Next(p, s, m).value, m');
  }

  lemma {:induction false} RunAppend<W>(p: Program<W>, s: Position<W>, ms: seq<Move<W>>, more: seq<Move<W>>)
    requires Run(p, s, ms).Some?
    ensures Run(p, s, ms + more) == Run(p, Run(p, s, ms).value, more)
    decreases |ms|
  {
    hide Next;
    if ms == [] {
      assert ms + more == more;
    } else {
      assert (ms + more)[1..] == ms[1..] + more;
      RunAppend(p, Next(p, s, ms[0]).value, ms[1..], more);
    }
  }

  // ------------------------------------------------------------- only listed steps

  predicate Listed(items: seq<Item>, key: Key) {
    exists i :: 0 <= i < |items| && IsStep(items[i]) && items[i].key == key
  }

  ghost predicate OnlyListed(items: seq<Item>, steps: seq<StepRecord>) {
    forall key :: Recorded(steps, key) ==> Listed(items, key)
  }

  lemma PutKeepsListed(items: seq<Item>, steps: seq<StepRecord>, rec: StepRecord)
    requires OnlyListed(items, steps) && Listed(items, rec.key)
    ensures OnlyListed(items, Put(steps, rec))
  {
    hide Put, Recorded, Listed;
    PutFrame(steps, rec);
  }

  lemma NextKeepsListed<W>(p: Program<W>, s: Position<W>, m: Move<W>)
    requires Inv(p, s) && Next(p, s, m).Some?
    requires OnlyListed(p.items, s.eng.disk.steps)
    requires !s.eng.proc.Dead? ==> OnlyListed(p.items, s.eng.proc.mem.steps)
    ensures var t := Next(p, s, m).value.eng;
            OnlyListed(p.items, t.disk.steps) && (!t.proc.Dead? ==> OnlyListed(p.items, t.proc.mem.steps))
  {
    hide Put, Recorded, StatusOf, OutcomeOf, Ordered, Passed, Blocked, OnlyListed, Listed, UniqueKeys, DoneAgrees;
    if m.BeginStep? || m.Finish? {
      var steps, key := s.eng.proc.mem.steps, p.items[s.pc].key;
      assert Listed(p.items, key) by { IsListed(p.items, s.pc); }
      if m.BeginStep? {
        PutKeepsListed(p.items, steps, StepRecord(key, Running, NO_OUTCOME, ""));
      } else {
        match m.reply
        case Succeeds(o) => PutKeepsListed(p.items, steps, StepRecord(key, Done, o, ""));
        case Fails(e) => PutKeepsListed(p.items, steps, StepRecord(key, Failed, OutcomeOf(steps, key), e));
      }
    }
  }

  lemma IsListed(items: seq<Item>, i: nat)
    requires i < |items| && IsStep(items[i])
    ensures Listed(items, items[i].key)
  {
  }

  lemma {:induction false} RunKeepsListed<W>(p: Program<W>, s: Position<W>, ms: seq<Move<W>>)
    requires WellFormed(p.items) && Inv(p, s) && Run(p, s, ms).Some?
    requires OnlyListed(p.items, s.eng.disk.steps)
    requires !s.eng.proc.Dead? ==> OnlyListed(p.items, s.eng.proc.mem.steps)
    ensures OnlyListed(p.items, Run(p, s, ms).value.eng.disk.steps)
    decreases |ms|
  {
    hide Next, Inv, OnlyListed, WellFormed;
    if ms != [] {
      NextKeepsListed(p, s, ms[0]);
      NextKeepsInv(p, s, ms[0]);
      RunKeepsListed(p, Next(p, s, ms[0]).value, ms[1..]);
    }
  }

  /** No reachable state.json records anything but steps of the list. */
  lemma RecordedIsListed<W>(p: Program<W>, world: W, ms: seq<Move<W>>, key: Key)
    requires WellFormed(p.items) && Run(p, Start(world), ms).Some?
    requires Recorded(Run(p, Start(world), ms).value.eng.disk.steps, key)
    ensures exists i :: 0 <= i < |p.items| && IsStep(p.items[i]) && p.items[i].key == key
  {
    hide Run;
    RunKeepsListed(p, Start(world), ms);
  }

  // --------------------------------------------------------------- a finished run

  /** Memory and disk agree on which steps that must succeed are done. */
  ghost predicate SameDone(items: seq<Item>, a: seq<StepRecord>, b: seq<StepRecord>) {
    forall i :: 0 <= i < |items| && MustPass(items[i]) ==> IsDone(a, items[i].key) == IsDone(b, items[i].key)
  }

  lemma PutKeepsSameDone(items: seq<Item>, mem: seq<StepRecord>, disk: seq<StepRecord>, rec: StepRecord)
    requires SameDone(items, mem, disk)
    requires rec.status == Done || IsDone(mem, rec.key) ==>
               forall i :: 0 <= i < |items| && MustPass(items[i]) ==> items[i].key != rec.key
    ensures SameDone(items, Put(mem, rec), disk)
  {
    hide Put, StatusOf;
    PutFrame(mem, rec);
    forall i | 0 <= i < |items| && MustPass(items[i])
      ensures IsDone(Put(mem, rec), items[i].key) == IsDone(disk, items[i].key)
    {
      if items[i].key == rec.key {
        assert rec.status != Done && !IsDone(mem, rec.key);
      }
    }
  }

  lemma BeginKeepsSameDone<W>(p: Program<W>, s: Position<W>, saved: bool)
    requires WellFormed(p.items) && Inv(p, s) && Next(p, s, BeginStep(saved)).Some?
    requires SameDone(p.items, s.eng.proc.mem.steps, s.eng.disk.steps)
    ensures var t := Next(p, s, BeginStep(saved)).value.eng;
            !t.proc.Dead? ==> SameDone(p.items, t.proc.mem.steps, t.disk.steps)
  {
    hide Put, Recorded, StatusOf, OutcomeOf, Inv, WellFormed, SameDone, IsDone, MustPass;
    PutKeepsSameDone(p.items, s.eng.proc.mem.steps, s.eng.disk.steps,
                     StepRecord(p.items[s.pc].key, Running, NO_OUTCOME, ""));
    SameDoneItself(p.items, Put(s.eng.proc.mem.steps, StepRecord(p.items[s.pc].key, Running, NO_OUTCOME, "")));
  }

  lemma SameDoneItself(items: seq<Item>, steps: seq<StepRecord>)
    ensures SameDone(items, steps, steps)
  {
  }

  /** The process goes on from an unsaved reply only at a tolerant step. */
  lemma FinishKeepsSameDone<W>(p: Program<W>, s: Position<W>, m: Move<W>)
    requires WellFormed(p.items) && Inv(p, s) && m.Finish? && Next(p, s, m).Some?
    requires SameDone(p.items, s.eng.proc.mem.steps, s.eng.disk.steps)
    ensures var t := Next(p, s, m).value.eng; !t.proc.Dead? ==> SameDone(p.items, t.proc.mem.steps, t.disk.steps)
  {
    hide Put, Recorded, StatusOf, OutcomeOf, Ordered, Passed, Blocked, UniqueKeys, DoneAgrees, SameDone, IsDone;
    var steps, key := s.eng.proc.mem.steps, p.items[s.pc].key;
    var rec := match m.reply
      case Succeeds(o) => StepRecord(key, Done, o, "")
      case Fails(e) => StepRecord(key, Failed, OutcomeOf(steps, key), e);
    SameDoneItself(p.items, Put(steps, rec));
    if !m.saved && p.items[s.pc].Do? && p.items[s.pc].tolerant {
      PutKeepsSameDone(p.items, steps, s.eng.disk.steps, rec);
    }
  }

  lemma NextKeepsSameDone<W>(p: Program<W>, s: Position<W>, m: Move<W>)
    requires WellFormed(p.items) && Inv(p, s) && Next(p, s, m).Some?
    requires !s.eng.proc.Dead? ==> SameDone(p.items, s.eng.proc.mem.steps, s.eng.disk.steps)
    ensures var t := Next(p, s, m).value.eng; !t.proc.Dead? ==> SameDone(p.items, t.proc.mem.steps, t.disk.steps)
  {
    hide Put, Recorded, StatusOf, OutcomeOf, Inv, WellFormed, SameDone, IsDone, Refused;
    match m
    case BeginStep(saved) => BeginKeepsSameDone(p, s, saved);
    case Finish(_, _, _) => FinishKeepsSameDone(p, s, m);
    case Launch => SameDoneItself(p.items, s.eng.disk.steps);
    case SaveNow(_) => SameDoneItself(p.items, s.eng.proc.mem.steps);
    case _ =>
  }

  lemma {:induction false} RunKeepsSameDone<W>(p: Program<W>, s: Position<W>, ms: seq<Move<W>>)
    requires WellFormed(p.items) && Inv(p, s) && Run(p, s, ms).Some?
    requires !s.eng.proc.Dead? ==> SameDone(p.items, s.eng.proc.mem.steps, s.eng.disk.steps)
    ensures var t := Run(p, s, ms).value.eng; !t.proc.Dead? ==> SameDone(p.items, t.proc.mem.steps, t.disk.steps)
    decreases |ms|
  {
    hide Next, Inv, SameDone, WellFormed;
    if ms != [] {
      NextKeepsSameDone(p, s, ms[0]);
      NextKeepsInv(p, s, ms[0]);
      RunKeepsSameDone(p, Next(p, s, ms[0]).value, ms[1..]);
    }
  }

  /** In the state.json of a run that has gone past every item, every step that must
      succeed is done. */
  lemma FinishedHasDone<W>(p: Program<W>, world: W, ms: seq<Move<W>>, i: nat)
    requires WellFormed(p.items) && Run(p, Start(world), ms).Some?
    requires var t := Run(p, Start(world), ms).value; t.eng.proc.Idle? && t.pc == |p.items|
    requires i < |p.items| && MustPass(p.items[i])
    ensures IsDone(Run(p, Start(world), ms).value.eng.disk.steps, p.items[i].key)
  {
    hide Run, IsDone;
    RunKeepsInv(p, Start(world), ms);
    RunKeepsSameDone(p, Start(world), ms);
    assert ItemPassed(p.items, Run(p, Start(world), ms).value.eng.proc.mem.steps, i);
  }
}
