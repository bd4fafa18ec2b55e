/** Runs that reach a chosen item of a list: what shows that a state can happen. */
module Reachability {
  import opened Prelude
  import opened Checkpoint
  import opened Engine
  import P = Pipeline

  type Moves = seq<P.Move<int>>

  /** A program on a list whose steps may do anything. */
  function Anything(items: seq<P.Item>): P.Program<int> {
    P.Program(items, (i, w, after, o) => true, (i, w, after) => true)
  }

  /** A process at item pc. */
  function At(disk: Snapshot, mem: Snapshot, pc: nat, blocking: bool): P.Position<int> {
    P.Position(State(disk, Idle(mem)), pc, 0, blocking)
  }

  /** No save failed. */
  predicate AllSaved(ms: Moves) {
    forall i :: 0 <= i < |ms| ==>
      && (ms[i].BeginStep? ==> ms[i].saved) && (ms[i].Finish? ==> ms[i].saved) && (ms[i].SaveNow? ==> ms[i].saved)
  }

  predicate SameRecord(a: seq<StepRecord>, b: seq<StepRecord>, key: Key) {
    && Recorded(a, key) == Recorded(b, key) && StatusOf(a, key) == StatusOf(b, key)
    && OutcomeOf(a, key) == OutcomeOf(b, key)
  }

  /** The item is a step of a process that passes over what it may, unless it has the facts. */
  predicate Takes(item: P.Item, facts: bool) {
    item.Do? || (item.Maybe? && facts)
  }

  /** Every step a process takes in items[i..n] is done, and none is refused. */
  ghost predicate AllPassed(items: seq<P.Item>, steps: seq<StepRecord>, i: nat, n: nat, facts: bool)
    requires n <= |items|
  {
    forall k :: i <= k < n && Takes(items[k], facts) ==> IsDone(steps, items[k].key) && !P.Refused(steps, items[k].key)
  }

  ghost predicate NoneRefused(items: seq<P.Item>, steps: seq<StepRecord>, i: nat, n: nat, facts: bool)
    requires n <= |items|
  {
    forall k :: i <= k < n && Takes(items[k], facts) ==> !P.Refused(steps, items[k].key)
  }

  /** Nothing is known otherwise of a step that is not taken in items[i..n]. */
  ghost predicate OthersSame(items: seq<P.Item>, a: seq<StepRecord>, b: seq<StepRecord>, i: nat, n: nat, facts: bool)
    requires n <= |items|
  {
    forall key :: (forall k :: i <= k < n && Takes(items[k], facts) ==> items[k].key != key) ==> SameRecord(a, b, key)
  }

  /** The snapshot once a step's body has replied. */
  function Replied(mem: Snapshot, key: Key, reply: Reply): Snapshot {
    mem.(steps := Put(Begun(mem.steps, key),
                      match reply
                      case Succeeds(o) => StepRecord(key, Done, o, "")
                      case Fails(e) => StepRecord(key, Failed, NO_OUTCOME, e)))
  }

  lemma RepliedFrame(mem: Snapshot, key: Key, reply: Reply)
    ensures var steps := Replied(mem, key, reply).steps;
            && Recorded(steps, key)
            && (forall k :: k != key ==> SameRecord(steps, mem.steps, k))
            && match reply
               case Succeeds(o) => IsDone(steps, key) && OutcomeOf(steps, key) == o
               case Fails(_) => StatusOf(steps, key) == Failed
  {
    hide Put, Recorded, OutcomeOf, StatusOf;
    PutFrame(mem.steps, StepRecord(key, Running, NO_OUTCOME, ""));
    match reply
    case Succeeds(o) => PutFrame(Begun(mem.steps, key), StepRecord(key, Done, o, ""));
    case Fails(e) => PutFrame(Begun(mem.steps, key), StepRecord(key, Failed, NO_OUTCOME, e));
  }

  /** Running a step that is not done: a saved begin, and a saved reply. */
  lemma RunBody(items: seq<P.Item>, disk: Snapshot, mem: Snapshot, pc: nat, blocking: bool, reply: Reply)
    requires pc < |items| && P.IsStep(items[pc]) && !IsDone(mem.steps, items[pc].key)
    requires reply.Succeeds? || (items[pc].Do? && items[pc].tolerant)
    ensures var after := Replied(mem, items[pc].key, reply);
            P.Run(Anything(items), At(disk, mem, pc, blocking), [P.BeginStep(true), P.Finish(reply, true, 0)])
            == Some(At(after, after, pc + 1, blocking || (reply.Succeeds? && reply.outcome.verdict == P.FAIL)))
  {
    hide Put, IsDone, OutcomeOf, Recorded, P.Run;
    var key := items[pc].key;
    PutFrame(mem.steps, StepRecord(key, Running, NO_OUTCOME, ""));
    P.RunTwo(Anything(items), At(disk, mem, pc, blocking), P.BeginStep(true), P.Finish(reply, true, 0));
  }

  /** Going past one item that, if taken, was not refused. */
  lemma Pass(items: seq<P.Item>, disk: Snapshot, mem: Snapshot, pc: nat, blocking: bool, facts: bool)
    returns (ms: Moves, d: Snapshot, m: Snapshot)
    requires pc < |items| && NoneRefused(items, mem.steps, pc, pc + 1, facts) && (items[pc].Gate? ==> !blocking)
    ensures P.Run(Anything(items), At(disk, mem, pc, blocking), ms) == Some(At(d, m, pc + 1, blocking))
    ensures AllSaved(ms)
    ensures AllPassed(items, m.steps, pc, pc + 1, facts) && OthersSame(items, m.steps, mem.steps, pc, pc + 1, facts)
    ensures disk == mem ==> d == m
    ensures Takes(items[pc], facts) && !IsDone(mem.steps, items[pc].key) ==> d == m
  {
    hide IsDone, Put, OutcomeOf, Recorded, P.Run;
    var p, s := Anything(items), At(disk, mem, pc, blocking);
    if Takes(items[pc], facts) && !IsDone(mem.steps, items[pc].key) {
      var reply := Succeeds(NO_OUTCOME);
      RunBody(items, disk, mem, pc, blocking, reply);
      RepliedFrame(mem, items[pc].key, reply);
      m := Replied(mem, items[pc].key, reply);
      d, ms := m, [P.BeginStep(true), P.Finish(reply, true, 0)];
    } else {
      var move := match items[pc]
        case SaveState => P.SaveNow(true)
        case Gate => P.CheckGate
        case Maybe(_) => if facts then P.SkipDone else P.PassOver
        case Do(_, _) => P.SkipDone;
      d, m, ms := if items[pc].SaveState? then mem else disk, mem, [move];
      P.RunOne(p, s, move);
    }
  }

  /** Going from item i to item n, past steps none of which was refused. */
  lemma {:induction false} Walk(items: seq<P.Item>, disk: Snapshot, mem: Snapshot, i: nat, n: nat, blocking: bool,
        facts: bool)
    returns (ms: Moves, d: Snapshot, m: Snapshot)
    requires P.WellFormed(items) && i <= n <= |items| && NoneRefused(items, mem.steps, i, n, facts)
    requires blocking ==> forall k :: i <= k < n ==> !items[k].Gate?
    ensures P.Run(Anything(items), At(disk, mem, i, blocking), ms) == Some(At(d, m, n, blocking))
    ensures AllSaved(ms)
    ensures AllPassed(items, m.steps, i, n, facts) && OthersSame(items, m.steps, mem.steps, i, n, facts)
    ensures disk == mem ==> d == m
    ensures i < n && Takes(items[n - 1], facts) && !IsDone(mem.steps, items[n - 1].key) ==> d == m
    decreases n
  {
    hide IsDone, P.Refused, P.Next, AllPassed, OthersSame;
    if i == n {
      NoWalk(items, mem.steps, i, facts);
      ms, d, m := [], disk, mem;
    } else {
      var first, d', m' := Walk(items, disk, mem, i, n - 1, blocking, facts);
      NotYet(items, m'.steps, mem.steps, i, n - 1, facts);
      var last;
      last, d, m := Pass(items, d', m', n - 1, blocking, facts);
      Join(items, mem.steps, m'.steps, m.steps, i, n - 1, n, facts);
      P.RunAppend(Anything(items), At(disk, mem, i, blocking), first, last);
      ms := first + last;
    }
  }

  lemma SameRecordSame(a: seq<StepRecord>, b: seq<StepRecord>, key: Key)
    requires SameRecord(a, b, key)
    ensures IsDone(a, key) == IsDone(b, key) && P.Refused(a, key) == P.Refused(b, key)
  {
  }

  /** Walking to an item leaves what is known of it. */
  lemma NotYet(items: seq<P.Item>, after: seq<StepRecord>, before: seq<StepRecord>, i: nat, k: nat,
        facts: bool)
    requires P.WellFormed(items) && k < |items| && OthersSame(items, after, before, i, k, facts)
    ensures P.IsStep(items[k]) ==>
              && IsDone(after, items[k].key) == IsDone(before, items[k].key)
              && P.Refused(after, items[k].key) == P.Refused(before, items[k].key)
  {
    hide IsDone, P.Refused, SameRecord;
    if P.IsStep(items[k]) {
      assert SameRecord(after, before, items[k].key);
      SameRecordSame(after, before, items[k].key);
    }
  }

  /** One walk after another. */
  lemma Join(items: seq<P.Item>, a: seq<StepRecord>, b: seq<StepRecord>, c: seq<StepRecord>, i: nat, k: nat, n: nat,
        facts: bool)
    requires P.WellFormed(items) && i <= k <= n <= |items|
    requires AllPassed(items, b, i, k, facts) && OthersSame(items, b, a, i, k, facts)
    requires AllPassed(items, c, k, n, facts) && OthersSame(items, c, b, k, n, facts)
    ensures AllPassed(items, c, i, n, facts) && OthersSame(items, c, a, i, n, facts)
  {
    hide IsDone, P.Refused, SameRecord;
    forall j | i <= j < k && Takes(items[j], facts)
      ensures IsDone(c, items[j].key) && !P.Refused(c, items[j].key)
    {
      assert SameRecord(c, b, items[j].key);
      SameRecordSame(c, b, items[j].key);
    }
    forall key | forall j :: i <= j < n && Takes(items[j], facts) ==> items[j].key != key
      ensures SameRecord(c, a, key)
    {
      assert SameRecord(c, b, key) && SameRecord(b, a, key);
      SameRecordTransitive(c, b, a, key);
    }
  }

  lemma SameRecordTransitive(a: seq<StepRecord>, b: seq<StepRecord>, c: seq<StepRecord>, key: Key)
    requires SameRecord(a, b, key) && SameRecord(b, c, key)
    ensures SameRecord(a, c, key)
  {
  }

  lemma NoWalk(items: seq<P.Item>, steps: seq<StepRecord>, i: nat, facts: bool)
    requires i <= |items|
    ensures AllPassed(items, steps, i, i, facts) && OthersSame(items, steps, steps, i, i, facts)
  {
  }

  // -------------------------------------------------------------------- three runs

  lemma FreshNotDone(key: Key)
    ensures !IsDone(FRESH.disk.steps, key) && !P.Refused(FRESH.disk.steps, key)
  {
  }

  /** A first process comes to item n with every step before it done. */
  lemma ReachItem(items: seq<P.Item>, n: nat) returns (ms: Moves, d: Snapshot)
    requires P.WellFormed(items) && n <= |items|
    ensures P.Run(Anything(items), P.Start(0), ms) == Some(At(d, d, n, false))
    ensures AllSaved(ms) && AllPassed(items, d.steps, 0, n, true)
    ensures forall k :: n <= k < |items| && P.IsStep(items[k]) ==>
              !IsDone(d.steps, items[k].key) && !P.Refused(d.steps, items[k].key)
  {
    hide IsDone, P.Refused, OthersSame, AllPassed, P.Run;
    forall k | 0 <= k < |items| && P.IsStep(items[k])
      ensures !IsDone(FRESH.disk.steps, items[k].key) && !P.Refused(FRESH.disk.steps, items[k].key)
    {
      FreshNotDone(items[k].key);
    }
    var m;
    ms, d, m := Walk(items, FRESH.disk, FRESH.disk, 0, n, false, true);
    forall k | n <= k < |items| && P.IsStep(items[k])
      ensures !IsDone(d.steps, items[k].key) && !P.Refused(d.steps, items[k].key)
    {
      Beyond(items, d.steps, FRESH.disk.steps, 0, n, k, true);
    }
    P.RunCons(Anything(items), P.Start(0), P.Launch, ms);
    ms := [P.Launch] + ms;
  }

  /** A walk leaves what is known of a step that it does not take. */
  lemma Beyond(items: seq<P.Item>, after: seq<StepRecord>, before: seq<StepRecord>, i: nat, n: nat, k: nat,
        facts: bool)
    requires P.WellFormed(items) && i <= n <= |items| && OthersSame(items, after, before, i, n, facts)
    requires k < |items| && P.IsStep(items[k]) && (k < i || n <= k || !Takes(items[k], facts))
    ensures SameRecord(after, before, items[k].key)
    ensures IsDone(after, items[k].key) == IsDone(before, items[k].key)
    ensures P.Refused(after, items[k].key) == P.Refused(before, items[k].key)
  {
    hide IsDone, P.Refused, SameRecord;
    assert SameRecord(after, before, items[k].key);
    SameRecordSame(after, before, items[k].key);
  }

  /** Beginning a step. */
  lemma BeginFrame(mem: Snapshot, key: Key)
    ensures var steps := BeginMem(mem, key).steps;
            Recorded(steps, key) && StatusOf(steps, key) == Running
            && forall k :: k != key ==> SameRecord(steps, mem.steps, k)
  {
    hide Put, Recorded, StatusOf, OutcomeOf;
    PutFrame(mem.steps, StepRecord(key, Running, NO_OUTCOME, ""));
  }

  /** A tolerant step whose start is not saved, and a later step done. */
  lemma UnsavedStart(items: seq<P.Item>, q: nat, j: nat) returns (ms: Moves)
    requires P.WellFormed(items) && q < j < |items| && P.IsStep(items[j])
    requires items[q].Do? && items[q].tolerant
    ensures P.Run(Anything(items), P.Start(0), ms).Some?
    ensures var steps := P.Run(Anything(items), P.Start(0), ms).value.eng.disk.steps;
            StatusOf(steps, items[q].key) == Running && IsDone(steps, items[j].key)
  {
    hide IsDone, P.Refused, OthersSame, P.Run, P.Next, SameRecord, StatusOf;
    var p := Anything(items);
    var first, d := ReachItem(items, q);
    var mem := BeginMem(d, items[q].key);
    BeginFrame(d, items[q].key);
    BeginUnsaved(items, d, q);
    forall k | q + 1 <= k < j + 1 && P.IsStep(items[k])
      ensures !P.Refused(mem.steps, items[k].key) && !IsDone(mem.steps, items[k].key)
    {
      SameRecordSame(mem.steps, d.steps, items[k].key);
    }
    var rest, d', m' := Walk(items, d, mem, q + 1, j + 1, false, true);
    Beyond(items, m'.steps, mem.steps, q + 1, j + 1, q, true);
    StatusSame(m'.steps, mem.steps, items[q].key);
    P.RunAppend(p, P.Start(0), first, [P.BeginStep(false)]);
    P.RunAppend(p, P.Start(0), first + [P.BeginStep(false)], rest);
    ms := first + [P.BeginStep(false)] + rest;
  }

  lemma StatusSame(a: seq<StepRecord>, b: seq<StepRecord>, key: Key)
    requires SameRecord(a, b, key)
    ensures StatusOf(a, key) == StatusOf(b, key) && Recorded(a, key) == Recorded(b, key)
  {
  }

  lemma BeginUnsaved(items: seq<P.Item>, d: Snapshot, q: nat)
    requires q < |items| && items[q].Do? && items[q].tolerant && !IsDone(d.steps, items[q].key)
    ensures P.Run(Anything(items), At(d, d, q, false), [P.BeginStep(false)])
            == Some(At(d, BeginMem(d, items[q].key), q + 1, false))
  {
    hide Begun, IsDone;
    P.RunOne(Anything(items), At(d, d, q, false), P.BeginStep(false));
  }

  /** A tolerant step that failed, a later step done, and a later process killed in
      the body of the failed step: every save landed. */
  lemma KilledOnResume(items: seq<P.Item>, q: nat, j: nat) returns (ms: Moves)
    requires P.WellFormed(items) && q < j < |items| && P.IsStep(items[j])
    requires items[q].Do? && items[q].tolerant
    ensures P.Run(Anything(items), P.Start(0), ms).Some?
    ensures var steps := P.Run(Anything(items), P.Start(0), ms).value.eng.disk.steps;
            StatusOf(steps, items[q].key) == Running && IsDone(steps, items[j].key)
    ensures AllSaved(ms)
  {
    hide IsDone, P.Refused, OthersSame, P.Run, P.Next, SameRecord, StatusOf;
    var p, n := Anything(items), |items|;
    var first, failed := FailTolerant(items, q);
    var again, d, _ := Walk(items, failed, failed, 0, q, false, true);
    NotYet(items, d.steps, failed.steps, 0, q, true);
    KillInBody(items, d, q);
    var mem := BeginMem(d, items[q].key);
    BeginFrame(d, items[q].key);
    Beyond(items, d.steps, failed.steps, 0, q, j, true);
    SameRecordSame(mem.steps, d.steps, items[j].key);
    P.RunAppend(p, P.Start(0), first, again);
    P.RunAppend(p, P.Start(0), first + again, [P.BeginStep(true), P.Die(0)]);
    ms := first + again + [P.BeginStep(true), P.Die(0)];
  }

  /** A first process goes through the list, and only the tolerant step fails; the
      next process starts. */
  lemma FailTolerant(items: seq<P.Item>, q: nat) returns (ms: Moves, d: Snapshot)
    requires P.WellFormed(items) && q < |items| && items[q].Do? && items[q].tolerant
    ensures P.Run(Anything(items), P.Start(0), ms) == Some(At(d, d, 0, false)) && AllSaved(ms)
    ensures AllPassed(items, d.steps, 0, q, true) && AllPassed(items, d.steps, q + 1, |items|, true)
    ensures !IsDone(d.steps, items[q].key)
  {
    hide IsDone, P.Refused, OthersSame, P.Run, P.Next, SameRecord, StatusOf;
    var p, key, reply := Anything(items), items[q].key, Fails("");
    var first, before := ReachItem(items, q);
    var failed := Replied(before, key, reply);
    RunBody(items, before, before, q, false, reply);
    RepliedFrame(before, key, reply);
    FailedNotDone(failed.steps, key);
    forall k | 0 <= k < |items| && P.IsStep(items[k]) && k != q
      ensures IsDone(failed.steps, items[k].key) == IsDone(before.steps, items[k].key)
      ensures P.Refused(failed.steps, items[k].key) == P.Refused(before.steps, items[k].key)
    {
      SameRecordSame(failed.steps, before.steps, items[k].key);
    }
    var rest, d', m' := Walk(items, failed, failed, q + 1, |items|, false, true);
    forall k | 0 <= k <= q && P.IsStep(items[k])
      ensures IsDone(d'.steps, items[k].key) == IsDone(failed.steps, items[k].key)
      ensures P.Refused(d'.steps, items[k].key) == P.Refused(failed.steps, items[k].key)
    {
      Beyond(items, d'.steps, failed.steps, q + 1, |items|, k, true);
    }
    d := d';
    Restart(items, d, |items|, false);
    P.RunAppend(p, P.Start(0), first, [P.BeginStep(true), P.Finish(reply, true, 0)]);
    P.RunAppend(p, P.Start(0), first + [P.BeginStep(true), P.Finish(reply, true, 0)], rest);
    P.RunAppend(p, P.Start(0), first + [P.BeginStep(true), P.Finish(reply, true, 0)] + rest, [P.Leave, P.Launch]);
    ms := first + [P.BeginStep(true), P.Finish(reply, true, 0)] + rest + [P.Leave, P.Launch];
  }

  lemma FailedNotDone(steps: seq<StepRecord>, key: Key)
    requires StatusOf(steps, key) == Failed
    ensures !IsDone(steps, key)
  {
  }

  /** One process ends and the next starts. */
  lemma Restart(items: seq<P.Item>, d: Snapshot, pc: nat, blocking: bool)
    ensures P.Run(Anything(items), At(d, d, pc, blocking), [P.Leave, P.Launch]) == Some(At(d, d, 0, false))
  {
    hide P.Run;
    P.RunTwo(Anything(items), At(d, d, pc, blocking), P.Leave, P.Launch);
  }

  lemma KillInBody(items: seq<P.Item>, d: Snapshot, q: nat)
    requires q < |items| && P.IsStep(items[q]) && !IsDone(d.steps, items[q].key)
    ensures P.Run(Anything(items), At(d, d, q, false), [P.BeginStep(true), P.Die(0)])
            == Some(P.Position(State(BeginMem(d, items[q].key), Dead), q, 0, false))
  {
    hide Begun, IsDone, P.Run;
    P.RunTwo(Anything(items), At(d, d, q, false), P.BeginStep(true), P.Die(0));
  }

  const REFUSAL := Outcome(P.FAIL, "", "")

  /** A check that can be passed over is refused, and the process stops at the gate;
      the next process has no facts, so it passes over every such check, goes through
      the gate and begins a later step. */
  lemma RefusalPassedOver(items: seq<P.Item>, i: nat, g: nat, j: nat) returns (before: Moves, after: Moves)
    requires P.WellFormed(items) && i < g < j < |items|
    requires items[i].Maybe? && items[g].Gate? && items[j].Do? && forall k :: i < k < g ==> !items[k].Gate?
    ensures P.Run(Anything(items), P.Start(0), before).Some?
    ensures P.Refused(P.Run(Anything(items), P.Start(0), before).value.eng.disk.steps, items[i].key)
    ensures P.Run(Anything(items), P.Run(Anything(items), P.Start(0), before).value, after).Some?
    ensures var stopped := P.Run(Anything(items), P.Start(0), before).value;
            var steps := P.Run(Anything(items), stopped, after).value.eng.disk.steps;
            P.Refused(steps, items[i].key) && Recorded(steps, items[j].key)
  {
    hide IsDone, P.Refused, OthersSame, P.Run, P.Next, SameRecord, StatusOf, Recorded;
    var d;
    before, d := StopAtGate(items, i, g);
    var p, stopped := Anything(items), P.Position(State(d, Dead), g, 0, true);
    Relaunch(items, d, g);
    var walk, d', _ := Walk(items, d, d, 0, j, false, false);
    Beyond(items, d'.steps, d.steps, 0, j, i, false);
    Beyond(items, d'.steps, d.steps, 0, j, j, false);
    BeginStep(items, d', j);
    BeginFrame(d', items[j].key);
    SameRecordSame(BeginMem(d', items[j].key).steps, d'.steps, items[i].key);
    P.RunAppend(p, stopped, [P.Launch], walk);
    P.RunAppend(p, stopped, [P.Launch] + walk, [P.BeginStep(true)]);
    after := [P.Launch] + walk + [P.BeginStep(true)];
  }

  lemma StopAtGate(items: seq<P.Item>, i: nat, g: nat) returns (ms: Moves, d: Snapshot)
    requires P.WellFormed(items) && i < g < |items|
    requires items[i].Maybe? && items[g].Gate? && forall k :: i < k < g ==> !items[k].Gate?
    ensures P.Run(Anything(items), P.Start(0), ms) == Some(P.Position(State(d, Dead), g, 0, true))
    ensures P.Refused(d.steps, items[i].key)
    ensures forall k :: 0 <= k < |items| && P.IsStep(items[k]) && k != i ==> !P.Refused(d.steps, items[k].key)
    ensures forall k :: g < k < |items| && P.IsStep(items[k]) ==> !IsDone(d.steps, items[k].key)
  {
    hide IsDone, P.Refused, OthersSame, P.Run, P.Next, SameRecord, StatusOf;
    var p, key, reply := Anything(items), items[i].key, Succeeds(REFUSAL);
    var first, start := ReachItem(items, i);
    var refused := Replied(start, key, reply);
    RunBody(items, start, start, i, false, reply);
    RepliedFrame(start, key, reply);
    DoneRefused(refused.steps, key);
    forall k | 0 <= k < |items| && P.IsStep(items[k]) && k != i
      ensures P.Refused(refused.steps, items[k].key) == P.Refused(start.steps, items[k].key)
      ensures IsDone(refused.steps, items[k].key) == IsDone(start.steps, items[k].key)
    {
      SameRecordSame(refused.steps, start.steps, items[k].key);
    }
    var rest, d', _ := Walk(items, refused, refused, i + 1, g, true, true);
    forall k | 0 <= k < |items| && P.IsStep(items[k]) && (k <= i || g <= k)
      ensures P.Refused(d'.steps, items[k].key) == P.Refused(refused.steps, items[k].key)
      ensures IsDone(d'.steps, items[k].key) == IsDone(refused.steps, items[k].key)
    {
      Beyond(items, d'.steps, refused.steps, i + 1, g, k, true);
    }
    d := d';
    StopHere(items, d, g);
    P.RunAppend(p, P.Start(0), first, [P.BeginStep(true), P.Finish(reply, true, 0)]);
    P.RunAppend(p, P.Start(0), first + [P.BeginStep(true), P.Finish(reply, true, 0)], rest);
    P.RunAppend(p, P.Start(0), first + [P.BeginStep(true), P.Finish(reply, true, 0)] + rest, [P.CheckGate]);
    ms := first + [P.BeginStep(true), P.Finish(reply, true, 0)] + rest + [P.CheckGate];
  }

  lemma DoneRefused(steps: seq<StepRecord>, key: Key)
    requires IsDone(steps, key) && OutcomeOf(steps, key) == REFUSAL
    ensures P.Refused(steps, key)
  {
  }

  lemma StopHere(items: seq<P.Item>, d: Snapshot, g: nat)
    requires g < |items| && items[g].Gate?
    ensures P.Run(Anything(items), At(d, d, g, true), [P.CheckGate]) == Some(P.Position(State(d, Dead), g, 0, true))
  {
    P.RunOne(Anything(items), At(d, d, g, true), P.CheckGate);
  }

  lemma Relaunch(items: seq<P.Item>, d: Snapshot, g: nat)
    ensures P.Run(Anything(items), P.Position(State(d, Dead), g, 0, true), [P.Launch]) == Some(At(d, d, 0, false))
  {
    P.RunOne(Anything(items), P.Position(State(d, Dead), g, 0, true), P.Launch);
  }

  lemma BeginStep(items: seq<P.Item>, d: Snapshot, j: nat)
    requires j < |items| && P.IsStep(items[j]) && !IsDone(d.steps, items[j].key)
    ensures var mem := BeginMem(d, items[j].key);
            P.Run(Anything(items), At(d, d, j, false), [P.BeginStep(true)])
            == Some(P.Position(State(mem, InStep(mem, items[j].key)), j, 0, false))
  {
    hide Begun, IsDone;
    P.RunOne(Anything(items), At(d, d, j, false), P.BeginStep(true));
  }
}
