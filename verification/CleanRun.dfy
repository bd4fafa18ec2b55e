/** The uninterrupted run: when every step can have its effect and none before a gate
    is refused, one process goes through the whole list. */
module CleanRun {
  import opened Prelude
  import opened Checkpoint
  import opened Engine
  import P = Pipeline
  import R = Reachability
  import S = Resume

  /** A process past the first n items, with state.json as its memory. */
  function At<W>(d: Snapshot, n: nat, world: W, blocking: bool): P.Position<W> {
    P.Position(State(d, Idle(d)), n, world, blocking)
  }

  /** Whenever the effect of a step is defined the step may have it. */
  ghost predicate Performs<W(!new)>(p: P.Program<W>, effect: S.Effect<W>) {
    forall i: nat, w :: i < |p.items| && p.items[i].Do? && effect(i, w).Some? ==>
      p.completes(i, w, effect(i, w).value.0, effect(i, w).value.1)
  }

  /** No step before a gate has the verdict "fail". */
  ghost predicate NoRefusal<W(!new)>(p: P.Program<W>, effect: S.Effect<W>) {
    forall i: nat, g: nat, w :: i < g < |p.items| && p.items[i].Do? && p.items[g].Gate? && effect(i, w).Some? ==>
      effect(i, w).value.1.verdict != P.FAIL
  }

  /** No step from n on is done, and a verdict "fail" came after the last gate. */
  ghost predicate Fresh(items: seq<P.Item>, d: Snapshot, n: nat, blocking: bool) {
    && (forall k :: n <= k < |items| && P.IsStep(items[k]) ==> !IsDone(d.steps, items[k].key))
    && (blocking ==> forall g :: n <= g < |items| ==> !items[g].Gate?)
  }

  /** One step, begun and finished with its effect. */
  lemma DoStep<W(!new)>(p: P.Program<W>, effect: S.Effect<W>, d: Snapshot, n: nat, w: W, b: bool)
    returns (ms: seq<P.Move<W>>, d': Snapshot, b': bool)
    requires P.WellFormed(p.items) && Performs(p, effect) && NoRefusal(p, effect) && Fresh(p.items, d, n, b)
    requires n < |p.items| && p.items[n].Do? && effect(n, w).Some?
    ensures P.Run(p, At(d, n, w, b), ms) == Some(At(d', n + 1, effect(n, w).value.0, b'))
    ensures Fresh(p.items, d', n + 1, b')
  {
    hide Put, IsDone, Recorded, OutcomeOf, StatusOf, P.Run, P.Refused;
    var key, after, o := p.items[n].key, effect(n, w).value.0, effect(n, w).value.1;
    d', b' := R.Replied(d, key, Succeeds(o)), b || o.verdict == P.FAIL;
    ms := [P.BeginStep(true), P.Finish(Succeeds(o), true, after)];
    PutFrame(d.steps, StepRecord(key, Running, NO_OUTCOME, ""));
    P.RunTwo(p, At(d, n, w, b), ms[0], ms[1]);
    R.RepliedFrame(d, key, Succeeds(o));
    forall k | n + 1 <= k < |p.items| && P.IsStep(p.items[k])
      ensures !IsDone(d'.steps, p.items[k].key)
    {
      R.SameRecordSame(d'.steps, d.steps, p.items[k].key);
    }
  }

  /** One item that is not such a step. */
  lemma PassItem<W(!new)>(p: P.Program<W>, d: Snapshot, n: nat, w: W, b: bool) returns (ms: seq<P.Move<W>>)
    requires n < |p.items| && !p.items[n].Do? && Fresh(p.items, d, n, b)
    ensures P.Run(p, At(d, n, w, b), ms) == Some(At(d, n + 1, w, b))
  {
    hide P.Run, IsDone;
    var move := match p.items[n]
      case SaveState => P.SaveNow(true)
      case Gate => P.CheckGate
      case _ => P.PassOver;
    ms := [move];
    P.RunOne(p, At(d, n, w, b), move);
  }

  /** As far as the canonical world is defined, one process comes there. */
  lemma {:induction false} ComesTo<W(!new)>(p: P.Program<W>, effect: S.Effect<W>, world: W, n: nat)
    returns (ms: seq<P.Move<W>>, d: Snapshot, b: bool)
    requires P.WellFormed(p.items) && Performs(p, effect) && NoRefusal(p, effect)
    requires n <= |p.items| && S.Canon(p.items, effect, world, n).Some?
    ensures P.Run(p, P.Start(world), ms) == Some(At(d, n, S.Canon(p.items, effect, world, n).value, b))
    ensures Fresh(p.items, d, n, b)
  {
    hide P.Run, P.Next, IsDone, P.WellFormed, Performs, NoRefusal;
    if n == 0 {
      ms, d, b := [P.Launch], FRESH.disk, false;
      Starts(p, world);
    } else {
      var first;
      first, d, b := ComesTo(p, effect, world, n - 1);
      var w, last := S.Canon(p.items, effect, world, n - 1).value, [];
      if p.items[n - 1].Do? {
        last, d, b := DoStep(p, effect, d, n - 1, w, b);
      } else {
        last := PassItem(p, d, n - 1, w, b);
      }
      P.RunAppend(p, P.Start(world), first, last);
      ms := first + last;
    }
  }

  lemma Starts<W(!new)>(p: P.Program<W>, world: W)
    ensures P.Run(p, P.Start(world), [P.Launch]) == Some(At(FRESH.disk, 0, world, false))
    ensures Fresh(p.items, FRESH.disk, 0, false)
  {
    hide P.Run;
    P.RunOne(p, P.Start(world), P.Launch);
  }

  /** Some run finishes in the canonical world, if that is defined to the end. */
  lemma FinishesWhen<W(!new)>(p: P.Program<W>, effect: S.Effect<W>, world: W) returns (ms: seq<P.Move<W>>)
    requires P.WellFormed(p.items) && Performs(p, effect) && NoRefusal(p, effect)
    requires S.Canon(p.items, effect, world, |p.items|).Some?
    ensures P.Run(p, P.Start(world), ms).Some?
    ensures var t := P.Run(p, P.Start(world), ms).value;
            S.Finished(p, t) && Some(t.world) == S.Canon(p.items, effect, world, |p.items|)
  {
    hide P.Run, S.Canon, P.WellFormed, Performs, NoRefusal;
    var d, b;
    ms, d, b := ComesTo(p, effect, world, |p.items|);
  }
}
