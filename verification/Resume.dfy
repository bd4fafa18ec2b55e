/** Resume equivalence: interrupted and resumed runs end like uninterrupted ones. */
module Resume {
  import opened Prelude
  import opened Checkpoint
  import opened Engine
  import P = Pipeline

  /** What a step does when nothing goes wrong: None when it must fail. */
  type Effect<!W> = (nat, W) -> Option<(W, Outcome)>

  /** A step that succeeds does what its effect says. */
  ghost predicate Deterministic<W(!new)>(p: P.Program<W>, effect: Effect<W>) {
    forall i, w, after, o :: p.completes(i, w, after, o) ==> effect(i, w) == Some((after, o))
  }

  /** Running a step again from any world it was interrupted in, or from the one
      it completed in, has the effect it had the first time. */
  ghost predicate RetrySafe<W(!new)>(p: P.Program<W>, effect: Effect<W>) {
    && (forall i, w, after :: p.interrupts(i, w, after) ==> effect(i, after) == effect(i, w))
    && (forall i, w :: effect(i, w).Some? ==> effect(i, effect(i, w).value.0) == effect(i, w))
  }

  /** Every step before n ends the process when it fails; the steps from n on,
      and those that can be passed over, leave alone the world the others work on. */
  ghost predicate QuietFrom<W(!new)>(p: P.Program<W>, n: nat) {
    && n <= |p.items|
    && (forall i :: 0 <= i < n && p.items[i].Do? ==> !p.items[i].tolerant)
    && (forall i, w, after, o :: Quiet(p, n, i) && p.completes(i, w, after, o) ==> after == w)
    && (forall i, w, after :: Quiet(p, n, i) && p.interrupts(i, w, after) ==> after == w)
  }

  predicate Quiet<W>(p: P.Program<W>, n: nat, i: nat) {
    i >= n || (i < |p.items| && p.items[i].Maybe?)
  }

  ghost predicate Premises<W(!new)>(p: P.Program<W>, effect: Effect<W>, n: nat) {
    P.WellFormed(p.items) && Deterministic(p, effect) && RetrySafe(p, effect) && QuietFrom(p, n)
  }

  /** The world the uninterrupted run has when it reaches item i. */
  function Canon<W>(items: seq<P.Item>, effect: Effect<W>, world: W, i: nat): Option<W>
    requires i <= |items|
  {
    if i == 0 then Some(world)
    else
      match Canon(items, effect, world, i - 1)
      case None => None
      case Some(w) =>
        if !items[i - 1].Do? then Some(w)
        else match effect(i - 1, w)
             case None => None
             case Some((after, _)) => Some(after)
  }

  lemma {:induction false} CanonStays<W>(items: seq<P.Item>, effect: Effect<W>, world: W, i: nat, j: nat)
    requires i <= j <= |items|
    requires forall k :: i <= k < j ==> !items[k].Do?
    ensures Canon(items, effect, world, j) == Canon(items, effect, world, i)
  {
    if i < j {
      CanonStays(items, effect, world, i, j - 1);
    }
  }

  /** The first step before n that is not done, or n. */
  function Frontier(items: seq<P.Item>, steps: seq<StepRecord>, n: nat, from: nat): (f: nat)
    requires from <= n <= |items|
    ensures from <= f <= n
    ensures forall i :: from <= i < f && items[i].Do? ==> IsDone(steps, items[i].key)
    ensures f < n ==> items[f].Do? && !IsDone(steps, items[f].key)
    decreases n - from
  {
    if from == n || (items[from].Do? && !IsDone(steps, items[from].key)) then from
    else Frontier(items, steps, n, from + 1)
  }

  lemma FrontierIs(items: seq<P.Item>, steps: seq<StepRecord>, n: nat, f: nat)
    requires f <= n <= |items|
    requires forall i :: 0 <= i < f && items[i].Do? ==> IsDone(steps, items[i].key)
    requires f < n ==> items[f].Do? && !IsDone(steps, items[f].key)
    ensures Frontier(items, steps, n, 0) == f
  {
  }

  /** The outcome the uninterrupted run records for step i. */
  ghost predicate CanonicalOutcome<W>(p: P.Program<W>, effect: Effect<W>, world: W, n: nat, i: nat, o: Outcome)
    requires n <= |p.items|
  {
    var w := Canon(p.items, effect, world, if i < n then i else n);
    w.Some? && effect(i, w.value).Some? && effect(i, w.value).value.1 == o
  }

  ghost predicate OutcomesCanonical<W>(p: P.Program<W>, effect: Effect<W>, world: W, n: nat, steps: seq<StepRecord>)
    requires n <= |p.items|
  {
    forall i :: 0 <= i < |p.items| && p.items[i].Do? && IsDone(steps, p.items[i].key) ==>
      CanonicalOutcome(p, effect, world, n, i, OutcomeOf(steps, p.items[i].key))
  }

  /** The world is one from which the step at the frontier f still has its
      canonical effect. */
  ghost predicate WorldFits<W>(p: P.Program<W>, effect: Effect<W>, world: W, n: nat, f: nat, w: W)
    requires f <= n <= |p.items|
  {
    var c := Canon(p.items, effect, world, f);
    c.Some? && (if f < n then effect(f, w) == effect(f, c.value) else w == c.value)
  }

  ghost predicate Fits<W>(p: P.Program<W>, effect: Effect<W>, world: W, n: nat, eng: State, w: W)
    requires n <= |p.items|
  {
    && OutcomesCanonical(p, effect, world, n, eng.disk.steps)
    && WorldFits(p, effect, world, n, Frontier(p.items, eng.disk.steps, n, 0), w)
    && (!eng.proc.Dead? ==>
          && OutcomesCanonical(p, effect, world, n, eng.proc.mem.steps)
          && SameDone(p.items, eng.proc.mem.steps, eng.disk.steps))
  }

  /** Memory and disk agree on which steps that must succeed are done. */
  ghost predicate SameDone(items: seq<P.Item>, a: seq<StepRecord>, b: seq<StepRecord>) {
    forall i :: 0 <= i < |items| && items[i].Do? && !items[i].tolerant ==>
      IsDone(a, items[i].key) == IsDone(b, items[i].key)
  }

  ghost predicate Inv<W>(p: P.Program<W>, effect: Effect<W>, world: W, n: nat, s: P.Position<W>)
    requires n <= |p.items|
  {
    P.Inv(p, s) && Fits(p, effect, world, n, s.eng, s.world)
  }

  /** Once a process has come as far as item i, the frontier is no earlier. */
  lemma FrontierPast<W(!new)>(p: P.Program<W>, effect: Effect<W>, world: W, n: nat, s: P.Position<W>)
    requires n <= |p.items| && Inv(p, effect, world, n, s) && !s.eng.proc.Dead?
    requires forall i :: 0 <= i < n && p.items[i].Do? ==> !p.items[i].tolerant
    requires s.pc < n ==> s.pc < |p.items| && p.items[s.pc].Do? && !IsDone(s.eng.proc.mem.steps, p.items[s.pc].key)
    ensures Frontier(p.items, s.eng.disk.steps, n, 0) == if s.pc < n then s.pc else n
  {
    var steps := s.eng.disk.steps;
    var f := if s.pc < n then s.pc else n;
    forall i | 0 <= i < f && p.items[i].Do?
      ensures IsDone(steps, p.items[i].key)
    {
      assert P.ItemPassed(p.items, s.eng.proc.mem.steps, i);
    }
    FrontierIs(p.items, steps, n, f);
  }

  /** Same done steps, same frontier. */
  lemma FrontierSame(items: seq<P.Item>, a: seq<StepRecord>, b: seq<StepRecord>, n: nat)
    requires n <= |items|
    requires forall i :: 0 <= i < n && items[i].Do? ==> IsDone(a, items[i].key) == IsDone(b, items[i].key)
    ensures Frontier(items, a, n, 0) == Frontier(items, b, n, 0)
  {
    FrontierIs(items, b, n, Frontier(items, a, n, 0));
  }

  /** Where the frontier goes when the step at it gets done: its canonical
      effect is the world the next step finds. */
  lemma FrontierMoves<W(!new)>(p: P.Program<W>, effect: Effect<W>, world: W, n: nat, steps: seq<StepRecord>,
        done: seq<StepRecord>, f: nat, w: W, after: W, o: Outcome)
    requires P.WellFormed(p.items) && P.Ordered(p.items, steps)
    requires f < n <= |p.items| && Frontier(p.items, steps, n, 0) == f && Recorded(steps, p.items[f].key)
    requires forall i :: 0 <= i < n && p.items[i].Do? ==> !p.items[i].tolerant
    requires done == Put(steps, StepRecord(p.items[f].key, Done, o, ""))
    requires WorldFits(p, effect, world, n, f, w) && effect(f, w) == Some((after, o))
    ensures WorldFits(p, effect, world, n, Frontier(p.items, done, n, 0), after)
    ensures CanonicalOutcome(p, effect, world, n, f, o)
  {
    hide Put, IndexOf, OutcomeOf, P.Blocked;
    PutFrame(steps, StepRecord(p.items[f].key, Done, o, ""));
    var g := Frontier(p.items, done, n, 0);
    assert g > f;
    forall i | f < i < g
      ensures !p.items[i].Do?
    {
      if p.items[i].Do? {
        assert p.items[i].key != p.items[f].key;
        assert IsDone(done, p.items[i].key);
        P.RecordedPassed(p.items, steps, f, i);
        assert false;
      }
    }
    CanonStays(p.items, effect, world, f + 1, g);
  }

  lemma SuccessFacts<W(!new)>(p: P.Program<W>, effect: Effect<W>, n: nat, i: nat, w: W, after: W, o: Outcome)
    requires Premises(p, effect, n) && p.completes(i, w, after, o)
    ensures effect(i, w) == Some((after, o)) && effect(i, after) == effect(i, w)
    ensures Quiet(p, n, i) ==> after == w
  {
  }

  lemma InterruptFacts<W(!new)>(p: P.Program<W>, effect: Effect<W>, n: nat, i: nat, w: W, after: W)
    requires Premises(p, effect, n) && p.interrupts(i, w, after)
    ensures effect(i, after) == effect(i, w)
    ensures Quiet(p, n, i) ==> after == w
  {
  }

  /** One more step done with its canonical outcome. */
  lemma OutcomeRecorded<W(!new)>(p: P.Program<W>, effect: Effect<W>, world: W, n: nat, steps: seq<StepRecord>,
        pc: nat, o: Outcome)
    requires n <= |p.items| && P.WellFormed(p.items) && OutcomesCanonical(p, effect, world, n, steps)
    requires pc < |p.items| && P.IsStep(p.items[pc])
    requires p.items[pc].Do? ==> CanonicalOutcome(p, effect, world, n, pc, o)
    ensures OutcomesCanonical(p, effect, world, n, Put(steps, StepRecord(p.items[pc].key, Done, o, "")))
  {
    hide CanonicalOutcome, Put, StatusOf, OutcomeOf;
    PutFrame(steps, StepRecord(p.items[pc].key, Done, o, ""));
  }

  /** A success, recorded or lost: both what memory then says and what the disk
      still says fit the world it left. */
  lemma SuccessFits<W(!new)>(p: P.Program<W>, effect: Effect<W>, world: W, n: nat, s: P.Position<W>, after: W,
        o: Outcome)
    requires Premises(p, effect, n) && Inv(p, effect, world, n, s) && s.eng.proc.InStep?
    requires p.completes(s.pc, s.world, after, o)
    ensures var done := Completed(s.eng.proc.mem.steps, s.eng.proc.key, o);
            && OutcomesCanonical(p, effect, world, n, done)
            && WorldFits(p, effect, world, n, Frontier(p.items, done, n, 0), after)
            && WorldFits(p, effect, world, n, Frontier(p.items, s.eng.disk.steps, n, 0), after)
  {
    hide Deterministic, RetrySafe, OutcomesCanonical, P.Passed, P.Ordered, P.Blocked, Put, IndexOf, UniqueKeys,
         DoneAgrees;
    SuccessFacts(p, effect, n, s.pc, s.world, after, o);
    var steps, rec := s.eng.proc.mem.steps, StepRecord(s.eng.proc.key, Done, o, "");
    PutFrame(steps, rec);
    if p.items[s.pc].Do? {
      FrontierPast(p, effect, world, n, s);
    }
    if !Quiet(p, n, s.pc) {
      FrontierMoves(p, effect, world, n, steps, Put(steps, rec), s.pc, s.world, after, o);
    } else {
      FrontierSame(p.items, steps, Put(steps, rec), n);
    }
    OutcomeRecorded(p, effect, world, n, steps, s.pc, o);
  }

  /** A failure or a kill leaves a world that fits just as well. */
  lemma InterruptFits<W(!new)>(p: P.Program<W>, effect: Effect<W>, world: W, n: nat, s: P.Position<W>, after: W)
    requires Premises(p, effect, n) && Inv(p, effect, world, n, s) && s.eng.proc.InStep?
    requires p.interrupts(s.pc, s.world, after)
    ensures WorldFits(p, effect, world, n, Frontier(p.items, s.eng.disk.steps, n, 0), after)
  {
    InterruptFacts(p, effect, n, s.pc, s.world, after);
    if p.items[s.pc].Do? {
      FrontierPast(p, effect, world, n, s);
    }
  }

  /** Recording anything but done leaves done steps and their outcomes as they were. */
  lemma UndoneRecords<W(!new)>(p: P.Program<W>, effect: Effect<W>, world: W, n: nat, steps: seq<StepRecord>,
        rec: StepRecord)
    requires n <= |p.items| && OutcomesCanonical(p, effect, world, n, steps)
    requires !IsDone(steps, rec.key) && rec.status != Done
    ensures OutcomesCanonical(p, effect, world, n, Put(steps, rec))
    ensures Frontier(p.items, Put(steps, rec), n, 0) == Frontier(p.items, steps, n, 0)
    ensures forall k :: IsDone(Put(steps, rec), k) == IsDone(steps, k)
  {
    hide Put, IndexOf;
    PutFrame(steps, rec);
    FrontierSame(p.items, steps, Put(steps, rec), n);
  }

  /** Recording a step's end leaves memory and disk agreeing on the steps that
      must succeed, saved or not, unless it loses the success of such a step. */
  lemma SameDoneAfter(items: seq<P.Item>, steps: seq<StepRecord>, pc: nat, rec: StepRecord)
    requires P.WellFormed(items) && pc < |items| && P.IsStep(items[pc]) && items[pc].key == rec.key
    requires !IsDone(steps, rec.key)
    ensures SameDone(items, Put(steps, rec), Put(steps, rec))
    ensures rec.status != Done || !P.MustPass(items[pc]) ==> SameDone(items, Put(steps, rec), steps)
  {
    PutFrame(steps, rec);
  }

  lemma FinishKeepsFits<W(!new)>(p: P.Program<W>, effect: Effect<W>, world: W, n: nat, s: P.Position<W>, m: P.Move<W>)
    requires Premises(p, effect, n) && Inv(p, effect, world, n, s)
    requires m.Finish? && P.Next(p, s, m).Some?
    ensures var t := P.Next(p, s, m).value; Fits(p, effect, world, n, t.eng, t.world)
  {
    hide OutcomesCanonical, WorldFits, SameDone, P.Ordered, P.Passed, P.WellFormed, Deterministic, RetrySafe,
         UniqueKeys, DoneAgrees, Put;
    var steps, key := s.eng.proc.mem.steps, p.items[s.pc].key;
    match m.reply
    case Succeeds(o) =>
      SuccessFits(p, effect, world, n, s, m.after, o);
      SameDoneAfter(p.items, steps, s.pc, StepRecord(key, Done, o, ""));
    case Fails(e) =>
      var rec := StepRecord(key, Failed, OutcomeOf(steps, key), e);
      InterruptFits(p, effect, world, n, s, m.after);
      UndoneRecords(p, effect, world, n, steps, rec);
      SameDoneAfter(p.items, steps, s.pc, rec);
  }

  lemma BeginKeepsFits<W(!new)>(p: P.Program<W>, effect: Effect<W>, world: W, n: nat, s: P.Position<W>, saved: bool)
    requires Premises(p, effect, n) && Inv(p, effect, world, n, s)
    requires P.Next(p, s, P.BeginStep(saved)).Some?
    ensures var t := P.Next(p, s, P.BeginStep(saved)).value; Fits(p, effect, world, n, t.eng, t.world)
  {
    hide OutcomesCanonical, WorldFits, P.Ordered, P.Passed, P.WellFormed, Deterministic, RetrySafe, UniqueKeys,
         DoneAgrees,
         Put, IndexOf;
    var steps, rec := s.eng.proc.mem.steps, StepRecord(p.items[s.pc].key, Running, NO_OUTCOME, "");
    UndoneRecords(p, effect, world, n, steps, rec);
    FrontierSame(p.items, s.eng.disk.steps, Put(steps, rec), n);
  }

  /** Moves that touch neither a step's record nor the world. */
  lemma QuietMoveKeepsFits<W(!new)>(p: P.Program<W>, effect: Effect<W>, world: W, n: nat, s: P.Position<W>,
        m: P.Move<W>)
    requires n <= |p.items| && Fits(p, effect, world, n, s.eng, s.world) && P.Next(p, s, m).Some?
    requires forall i :: 0 <= i < n && p.items[i].Do? ==> !p.items[i].tolerant
    requires !m.BeginStep? && !m.Finish? && !m.Die?
    ensures var t := P.Next(p, s, m).value; Fits(p, effect, world, n, t.eng, t.world)
  {
    hide OutcomesCanonical, WorldFits, IsDone, OutcomeOf;
    if m.SaveNow? {
      FrontierSame(p.items, s.eng.disk.steps, s.eng.proc.mem.steps, n);
    }
  }

  lemma NextKeepsFits<W(!new)>(p: P.Program<W>, effect: Effect<W>, world: W, n: nat, s: P.Position<W>, m: P.Move<W>)
    requires Premises(p, effect, n) && Inv(p, effect, world, n, s) && P.Next(p, s, m).Some?
    ensures var t := P.Next(p, s, m).value; Fits(p, effect, world, n, t.eng, t.world)
  {
    match m
    case BeginStep(saved) => BeginKeepsFits(p, effect, world, n, s, saved);
    case Finish(_, _, _) => FinishKeepsFits(p, effect, world, n, s, m);
    case Die(after) => InterruptFits(p, effect, world, n, s, after);
    case _ => QuietMoveKeepsFits(p, effect, world, n, s, m);
  }

  lemma {:induction false} RunKeepsInv<W(!new)>(p: P.Program<W>, effect: Effect<W>, world: W, n: nat,
        s: P.Position<W>, ms: seq<P.Move<W>>)
    requires Premises(p, effect, n) && Inv(p, effect, world, n, s) && P.Run(p, s, ms).Some?
    ensures Inv(p, effect, world, n, P.Run(p, s, ms).value)
    decreases |ms|
  {
    if ms != [] {
      NextKeepsFits(p, effect, world, n, s, ms[0]);
      P.NextKeepsInv(p, s, ms[0]);
      RunKeepsInv(p, effect, world, n, P.Next(p, s, ms[0]).value, ms[1..]);
    }
  }

  ghost predicate Finished<W>(p: P.Program<W>, s: P.Position<W>) {
    s.eng.proc.Idle? && s.pc == |p.items|
  }

  /** A run that finishes leaves the uninterrupted run's world, and every step
      that must succeed is done on disk with the uninterrupted run's outcome. */
  lemma FinishedIsCanonical<W(!new)>(p: P.Program<W>, effect: Effect<W>, world: W, n: nat, ms: seq<P.Move<W>>)
    requires Premises(p, effect, n)
    requires P.Run(p, P.Start(world), ms).Some? && Finished(p, P.Run(p, P.Start(world), ms).value)
    ensures var t := P.Run(p, P.Start(world), ms).value;
            && Canon(p.items, effect, world, n) == Some(t.world)
            && forall i :: 0 <= i < |p.items| && p.items[i].Do? && !p.items[i].tolerant ==>
                 && IsDone(t.eng.disk.steps, p.items[i].key)
                 && CanonicalOutcome(p, effect, world, n, i, OutcomeOf(t.eng.disk.steps, p.items[i].key))
  {
    var s := P.Start(world);
    var f := Frontier(p.items, [], n, 0);
    CanonStays(p.items, effect, world, 0, f);
    RunKeepsInv(p, effect, world, n, s, ms);
    var t := P.Run(p, s, ms).value;
    FrontierPast(p, effect, world, n, t);
    forall i | 0 <= i < |p.items| && p.items[i].Do? && !p.items[i].tolerant
      ensures IsDone(t.eng.disk.steps, p.items[i].key)
    {
      assert P.ItemPassed(p.items, t.eng.proc.mem.steps, i);
    }
  }

  /** Any two runs that finish from the same world, one of which may be the
      uninterrupted one, leave the same world and the same recorded outcomes. */
  lemma ResumeEquivalence<W(!new)>(p: P.Program<W>, effect: Effect<W>, world: W, n: nat, ms: seq<P.Move<W>>,
        clean: seq<P.Move<W>>)
    requires Premises(p, effect, n)
    requires P.Run(p, P.Start(world), ms).Some? && Finished(p, P.Run(p, P.Start(world), ms).value)
    requires P.Run(p, P.Start(world), clean).Some? && Finished(p, P.Run(p, P.Start(world), clean).value)
    ensures var t, u := P.Run(p, P.Start(world), ms).value, P.Run(p, P.Start(world), clean).value;
            && t.world == u.world
            && forall i :: 0 <= i < |p.items| && p.items[i].Do? && !p.items[i].tolerant ==>
                 && IsDone(t.eng.disk.steps, p.items[i].key) && IsDone(u.eng.disk.steps, p.items[i].key)
                 && OutcomeOf(t.eng.disk.steps, p.items[i].key) == OutcomeOf(u.eng.disk.steps, p.items[i].key)
  {
    FinishedIsCanonical(p, effect, world, n, ms);
    FinishedIsCanonical(p, effect, world, n, clean);
  }
}
