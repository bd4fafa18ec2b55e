/** What state.json holds, told from the events of a run alone: every entry is
    what the last event on it that reached the disk said. */
module History {
  import opened Prelude
  import opened Checkpoint
  import opened Engine

  /** A save that landed. */
  predicate Saves(e: Event) {
    match e
    case Begin(_, saved) => saved
    case Return(_, _, saved) => saved
    case Persist(saved) => saved
    case _ => false
  }

  /** No process started between events a and b. */
  predicate SameProcess(es: seq<Event>, a: nat, b: nat)
    requires b < |es|
  {
    forall i :: a < i <= b ==> !es[i].Load?
  }

  /** Before event n, the process of event a saved what event a did. */
  predicate Reaches(es: seq<Event>, n: nat, a: nat)
    requires n <= |es|
  {
    exists b :: a <= b < n && Saves(es[b]) && SameProcess(es, a, b)
  }

  /** What events are about: a step's record, or an artifact. */
  type Subject = Event -> bool

  function OnStep(key: Key): Subject {
    (e: Event) => (e.Begin? || e.Return?) && e.key == key
  }

  function OnArtifact(name: string): Subject {
    (e: Event) => e.Record? && e.name == name
  }

  /** Of the events on a subject that reached the disk before event n, a is the last. */
  predicate LastOnDisk(es: seq<Event>, n: nat, about: Subject, a: nat)
    requires n <= |es|
  {
    && a < n && about(es[a]) && Reaches(es, n, a)
    && forall c :: a < c < n && about(es[c]) ==> !Reaches(es, n, c)
  }

  // ---------------------------------------------------------------------- sources

  /** The event memory has its subject from, after n events. */
  function MemSource(es: seq<Event>, n: nat, about: Subject): Option<nat>
    requires n <= |es|
  {
    if n == 0 then None
    else if es[n - 1].Load? then DiskSource(es, n - 1, about)
    else if about(es[n - 1]) then Some(n - 1)
    else MemSource(es, n - 1, about)
  }

  /** The event the disk has its subject from. */
  function DiskSource(es: seq<Event>, n: nat, about: Subject): Option<nat>
    requires n <= |es|
  {
    if n == 0 then None
    else if Saves(es[n - 1]) then
      if about(es[n - 1]) then Some(n - 1) else MemSource(es, n - 1, about)
    else DiskSource(es, n - 1, about)
  }

  /** Event a is in the memory of the process at n. */
  predicate Held(es: seq<Event>, n: nat, a: nat)
    requires n <= |es|
  {
    a < n && (Reaches(es, n, a) || SameProcess(es, a, n - 1))
  }

  lemma ReachesNext(es: seq<Event>, n: nat, a: nat)
    requires a <= n < |es|
    ensures Reaches(es, n + 1, a) <==> Reaches(es, n, a) || (Saves(es[n]) && SameProcess(es, a, n))
  {
    if Saves(es[n]) && SameProcess(es, a, n) {
      assert a <= n < n + 1;
    }
  }

  lemma HeldNext(es: seq<Event>, n: nat, a: nat)
    requires a < n < |es|
    ensures SameProcess(es, a, n) <==> SameProcess(es, a, n - 1) && !es[n].Load?
    ensures Held(es, n + 1, a) <==> if es[n].Load? then Reaches(es, n, a) else Held(es, n, a)
    ensures Reaches(es, n + 1, a) <==> if Saves(es[n]) then Held(es, n, a) else Reaches(es, n, a)
  {
    hide Reaches;
    ReachesNext(es, n, a);
  }

  ghost predicate IsLast(es: seq<Event>, n: nat, about: Subject, holds: nat -> bool, source: Option<nat>)
    requires n <= |es|
  {
    match source
    case None => forall c :: 0 <= c < n && about(es[c]) ==> !holds(c)
    case Some(a) =>
      && a < n && about(es[a]) && holds(a)
      && forall c :: a < c < n && about(es[c]) ==> !holds(c)
  }

  /** The sources are the last events that reached the disk, or that memory holds. */
  lemma {:induction false} SourcesAreLast(es: seq<Event>, n: nat, about: Subject)
    requires n <= |es| && forall e :: about(e) ==> !e.Load?
    ensures IsLast(es, n, about, (a: nat) => Held(es, n, a), MemSource(es, n, about))
    ensures IsLast(es, n, about, (a: nat) => Reaches(es, n, a), DiskSource(es, n, about))
  {
    hide Reaches, SameProcess, Held;
    if n > 0 {
      var m := n - 1;
      SourcesAreLast(es, m, about);
      forall c: nat | c < m
        ensures Held(es, n, c) <==> if es[m].Load? then Reaches(es, m, c) else Held(es, m, c)
        ensures Reaches(es, n, c) <==> if Saves(es[m]) then Held(es, m, c) else Reaches(es, m, c)
      {
        HeldNext(es, m, c);
      }
      JustNow(es, m);
    }
  }

  lemma JustNow(es: seq<Event>, n: nat)
    requires n < |es|
    ensures Held(es, n + 1, n)
    ensures Reaches(es, n + 1, n) <==> Saves(es[n])
  {
    if Saves(es[n]) {
      assert SameProcess(es, n, n);
    }
  }

  lemma DiskSourceIsLast(es: seq<Event>, n: nat, about: Subject)
    requires n <= |es| && forall e :: about(e) ==> !e.Load?
    ensures forall a: nat :: LastOnDisk(es, n, about, a) <==> DiskSource(es, n, about) == Some(a)
  {
    hide Reaches;
    SourcesAreLast(es, n, about);
    var source := DiskSource(es, n, about);
    forall a: nat
      ensures LastOnDisk(es, n, about, a) <==> source == Some(a)
    {
      if LastOnDisk(es, n, about, a) && source.Some? {
        assert !(a < source.value) && !(source.value < a);
      }
    }
  }

  // ------------------------------------------------------------------ step records

  /** The status an event on a step gives it. */
  function Said(e: Event): Status
    requires e.Begin? || e.Return?
  {
    match e
    case Begin(_, _) => Running
    case Return(_, reply, _) => if reply.Succeeds? then Done else Failed
  }

  ghost predicate StepFrom(steps: seq<StepRecord>, es: seq<Event>, key: Key, source: Option<nat>) {
    match source
    case None => !Recorded(steps, key)
    case Some(a) =>
      && a < |es| && OnStep(key)(es[a])
      && Recorded(steps, key) && StatusOf(steps, key) == Said(es[a])
      && (es[a].Return? && es[a].reply.Succeeds? ==> OutcomeOf(steps, key) == es[a].reply.outcome)
      && (es[a].Return? && es[a].reply.Fails? ==> ErrorOf(steps, key) == es[a].reply.error)
  }

  lemma ExecNext(s: State, es: seq<Event>, n: nat)
    requires n < |es| && Exec(s, es[..n + 1]).Some?
    ensures Exec(s, es[..n]).Some? && Step(Exec(s, es[..n]).value, es[n]) == Exec(s, es[..n + 1])
  {
    hide Step;
    assert es[..n + 1] == es[..n] + [es[n]];
    ExecLast(s, es[..n], es[n]);
  }

  lemma {:induction false} ExecLast(s: State, es: seq<Event>, e: Event)
    requires Exec(s, es + [e]).Some?
    ensures Exec(s, es).Some? && Exec(s, es + [e]) == Step(Exec(s, es).value, e)
    decreases |es|
  {
    hide Step;
    if es == [] {
      assert es + [e] == [e] && [e][1..] == [];
    } else {
      assert (es + [e])[1..] == es[1..] + [e];
      ExecLast(Step(s, es[0]).value, es[1..], e);
    }
  }

  lemma PutKnown(steps: seq<StepRecord>, rec: StepRecord)
    ensures var after := Put(steps, rec);
            && Recorded(after, rec.key) && StatusOf(after, rec.key) == rec.status
            && OutcomeOf(after, rec.key) == rec.outcome && ErrorOf(after, rec.key) == rec.error
            && forall k :: k != rec.key ==>
                 && Recorded(after, k) == Recorded(steps, k) && StatusOf(after, k) == StatusOf(steps, k)
                 && OutcomeOf(after, k) == OutcomeOf(steps, k) && ErrorOf(after, k) == ErrorOf(steps, k)
  {
    hide Put, Recorded, StatusOf, OutcomeOf, ErrorOf;
    PutFrame(steps, rec);
    PutError(steps, rec);
  }

  /** One event on the step, or on another. */
  lemma StepFromNext(s: State, e: Event, es: seq<Event>, n: nat, key: Key, mem: Option<nat>, disk: Option<nat>)
    requires n < |es| && e == es[n] && Step(s, e).Some?
    requires StepFrom(s.disk.steps, es, key, disk)
    requires !s.proc.Dead? ==> StepFrom(s.proc.mem.steps, es, key, mem)
    ensures var t := Step(s, e).value;
            var mem' := if e.Load? then disk else if OnStep(key)(e) then Some(n) else mem;
            && (!t.proc.Dead? ==> StepFrom(t.proc.mem.steps, es, key, mem'))
            && StepFrom(t.disk.steps, es, key, if Saves(e) then mem' else disk)
  {
    hide Put, Recorded, StatusOf, OutcomeOf, ErrorOf;
    match e
    case Begin(k, saved) =>
      PutKnown(s.proc.mem.steps, StepRecord(k, Running, NO_OUTCOME, ""));
    case Return(k, reply, saved) =>
      match reply {
        case Succeeds(o) => PutKnown(s.proc.mem.steps, StepRecord(k, Done, o, ""));
        case Fails(err) => PutKnown(s.proc.mem.steps, StepRecord(k, Failed, OutcomeOf(s.proc.mem.steps, k), err));
      }
    case _ =>
  }

  lemma {:induction false} StepSources(es: seq<Event>, n: nat, key: Key)
    requires n <= |es| && Exec(FRESH, es[..n]).Some?
    ensures var s := Exec(FRESH, es[..n]).value;
            && StepFrom(s.disk.steps, es, key, DiskSource(es, n, OnStep(key)))
            && (!s.proc.Dead? ==> StepFrom(s.proc.mem.steps, es, key, MemSource(es, n, OnStep(key))))
  {
    hide Step, StepFrom, Exec;
    if n == 0 {
      NothingYet(es, key);
    } else {
      ExecNext(FRESH, es, n - 1);
      StepSources(es, n - 1, key);
      StepFromNext(Exec(FRESH, es[..n - 1]).value, es[n - 1], es, n - 1, key,
                   MemSource(es, n - 1, OnStep(key)), DiskSource(es, n - 1, OnStep(key)));
    }
  }

  lemma NothingYet(es: seq<Event>, key: Key)
    ensures Exec(FRESH, es[..0]) == Some(FRESH)
    ensures StepFrom(FRESH.disk.steps, es, key, None)
  {
  }

  /** The step's record in state.json is what the last event on it to reach the
      disk said: running when that was a begin, done or failed when it was a reply. */
  ghost predicate Tells(es: seq<Event>, steps: seq<StepRecord>, key: Key) {
    && (Recorded(steps, key) <==> exists a: nat :: LastOnDisk(es, |es|, OnStep(key), a))
    && (forall a: nat :: LastOnDisk(es, |es|, OnStep(key), a) ==>
          && StatusOf(steps, key) == Said(es[a])
          && (es[a].Return? && es[a].reply.Succeeds? ==> OutcomeOf(steps, key) == es[a].reply.outcome)
          && (es[a].Return? && es[a].reply.Fails? ==> ErrorOf(steps, key) == es[a].reply.error))
  }

  lemma StatusOnDisk(es: seq<Event>, key: Key)
    requires Exec(FRESH, es).Some?
    ensures Tells(es, Exec(FRESH, es).value.disk.steps, key)
  {
    hide Step, Exec, LastOnDisk;
    assert es[..|es|] == es;
    StepSources(es, |es|, key);
    DiskSourceIsLast(es, |es|, OnStep(key));
  }

  /** So a recorded step is running, done or failed, and running exactly when the
      last event on it to reach the disk is a begin. */
  lemma RunningExactly(es: seq<Event>, key: Key)
    requires Exec(FRESH, es).Some? && Recorded(Exec(FRESH, es).value.disk.steps, key)
    ensures var status := StatusOf(Exec(FRESH, es).value.disk.steps, key);
            && status in {Running, Done, Failed}
            && (status == Running <==> exists a: nat :: LastOnDisk(es, |es|, OnStep(key), a) && es[a].Begin?)
  {
    hide Step, Exec, LastOnDisk;
    StatusOnDisk(es, key);
  }

  /** The body of a begin at a has not returned before event c. */
  predicate InBodyUntil(es: seq<Event>, a: nat, c: nat)
    requires c <= |es|
  {
    a < c && forall i :: a < i < c ==> es[i].Record?
  }

  lemma {:induction false} BodyIsLive(es: seq<Event>, a: nat, c: nat, key: Key)
    requires Exec(FRESH, es).Some? && a < c <= |es| && es[a] == Begin(key, true) && InBodyUntil(es, a, c)
    ensures Exec(FRESH, es[..c]).Some? && Exec(FRESH, es[..c]).value.proc.InStep?
    ensures Exec(FRESH, es[..c]).value.proc.key == key
  {
    hide Exec;
    ExecPrefixes(FRESH, es, c);
    ExecNext(FRESH, es, c - 1);
    if a < c - 1 {
      BodyIsLive(es, a, c - 1, key);
    }
  }

  lemma {:induction false} ExecPrefixes(s: State, es: seq<Event>, n: nat)
    requires n <= |es| && Exec(s, es).Some?
    ensures Exec(s, es[..n]).Some?
    decreases |es| - n
  {
    hide Step, Exec;
    if n == |es| {
      assert es[..n] == es;
    } else {
      ExecPrefixes(s, es, n + 1);
      ExecNext(s, es, n);
    }
  }

  /** Where the body of a begin ends: the process is killed in it, it returns, or
      it is executing still. */
  lemma {:induction false} BodyEnds(es: seq<Event>, a: nat, c0: nat, key: Key) returns (c: nat)
    requires Exec(FRESH, es).Some? && a < c0 <= |es| && es[a] == Begin(key, true) && InBodyUntil(es, a, c0)
    ensures c0 <= c <= |es| && InBodyUntil(es, a, c)
    ensures c == |es| || es[c] == Kill(key) || (es[c].Return? && es[c].key == key)
    decreases |es| - c0
  {
    hide Exec;
    c := c0;
    BodyIsLive(es, a, c, key);
    if c < |es| {
      ExecPrefixes(FRESH, es, c + 1);
      ExecNext(FRESH, es, c);
      if es[c].Record? {
        c := BodyEnds(es, a, c + 1, key);
      }
    }
  }

  /** Why state.json shows a step as running: its begin was saved only later, by
      another save of its process; or its body was killed; or its reply never
      reached the disk; or its body executes now. */
  lemma WhyRunning(es: seq<Event>, a: nat, key: Key) returns (c: nat)
    requires Exec(FRESH, es).Some? && LastOnDisk(es, |es|, OnStep(key), a) && es[a].Begin?
    ensures a < c <= |es|
    ensures es[a].saved ==> InBodyUntil(es, a, c)
    ensures es[a].saved ==>
              || (c == |es| && Exec(FRESH, es).value.proc.InStep? && Exec(FRESH, es).value.proc.key == key)
              || (c < |es| && es[c] == Kill(key))
              || (c < |es| && es[c].Return? && es[c].key == key && !Reaches(es, |es|, c))
    ensures !es[a].saved ==> c < |es| && Saves(es[c]) && SameProcess(es, a, c)
  {
    hide Exec;
    if es[a].saved {
      c := BodyEnds(es, a, a + 1, key);
      BodyIsLive(es, a, c, key);
      assert es[..|es|] == es;
    } else {
      c :| a <= c < |es| && Saves(es[c]) && SameProcess(es, a, c);
    }
  }

  // --------------------------------------------------------------------- artifacts

  ghost predicate ArtifactFrom(artifacts: map<string, Artifact>, es: seq<Event>, name: string, source: Option<nat>) {
    match source
    case None => name !in artifacts
    case Some(a) => a < |es| && OnArtifact(name)(es[a]) && name in artifacts && artifacts[name] == es[a].artifact
  }

  lemma {:induction false} ArtifactSources(es: seq<Event>, n: nat, name: string)
    requires n <= |es| && Exec(FRESH, es[..n]).Some?
    ensures var s := Exec(FRESH, es[..n]).value;
            && ArtifactFrom(s.disk.artifacts, es, name, DiskSource(es, n, OnArtifact(name)))
            && (!s.proc.Dead? ==> ArtifactFrom(s.proc.mem.artifacts, es, name, MemSource(es, n, OnArtifact(name))))
  {
    hide Exec, Begun, Completed, FailedWith, Recorded, IsDone;
    if n == 0 {
      NoArtifactYet(es, name);
    } else {
      ExecNext(FRESH, es, n - 1);
      ArtifactSources(es, n - 1, name);
    }
  }

  lemma NoArtifactYet(es: seq<Event>, name: string)
    ensures Exec(FRESH, es[..0]) == Some(FRESH)
    ensures ArtifactFrom(FRESH.disk.artifacts, es, name, None)
  {
  }

  /** An artifact is in state.json exactly when a recording of it reached the disk,
      and it is the one the last such recording gave. */
  lemma ArtifactsOnDisk(es: seq<Event>, name: string)
    requires Exec(FRESH, es).Some?
    ensures var artifacts := Exec(FRESH, es).value.disk.artifacts;
            && (name in artifacts <==> exists a: nat :: LastOnDisk(es, |es|, OnArtifact(name), a))
            && forall a: nat :: LastOnDisk(es, |es|, OnArtifact(name), a) ==>
                 name in artifacts && artifacts[name] == es[a].artifact
  {
    hide Step, Exec, LastOnDisk;
    assert es[..|es|] == es;
    ArtifactSources(es, |es|, name);
    DiskSourceIsLast(es, |es|, OnArtifact(name));
  }

  /** Without a save that lands the disk stays as it is. */
  lemma {:induction false} DiskStays(es: seq<Event>, r: nat, l: nat)
    requires r <= l <= |es| && Exec(FRESH, es[..l]).Some?
    requires forall b :: r <= b < l ==> !Saves(es[b])
    ensures Exec(FRESH, es[..r]).Some? && Exec(FRESH, es[..l]).value.disk == Exec(FRESH, es[..r]).value.disk
  {
    hide Exec;
    if r < l {
      ExecNext(FRESH, es, l - 1);
      DiskStays(es, r, l - 1);
    }
  }

  /** The process that recorded an artifact at r, for the last time under its name
      and where the disk did not have it, is followed by one that loads at l. What
      it loads has the artifact exactly when some save landed in between. */
  lemma ArtifactSurvives(es: seq<Event>, r: nat, l: nat, name: string, artifact: Artifact)
    requires r < l < |es| && es[r] == Record(name, artifact) && es[l].Load?
    requires forall i :: r < i < l ==> !es[i].Load? && !(es[i].Record? && es[i].name == name)
    requires Exec(FRESH, es[..l + 1]).Some? && Exec(FRESH, es[..r]).Some?
    requires var d := Exec(FRESH, es[..r]).value.disk.artifacts; !(name in d && d[name] == artifact)
    ensures var t := Exec(FRESH, es[..l + 1]).value;
            && t.proc.Idle?
            && (name in t.proc.mem.artifacts && t.proc.mem.artifacts[name] == artifact
                <==> exists b :: r < b < l && Saves(es[b]))
  {
    hide Exec;
    ExecNext(FRESH, es, l);
    var s := Exec(FRESH, es[..l]).value;
    if b :| r < b < l && Saves(es[b]) {
      assert SameProcess(es, r, b);
      assert LastOnDisk(es, l, OnArtifact(name), r);
      DiskSourceIsLast(es, l, OnArtifact(name));
      ArtifactSources(es, l, name);
    } else {
      DiskStays(es, r, l);
    }
  }

  /** An artifact that a body records before it is killed is not what the next
      process loads, if the disk did not have it before. */
  lemma KilledBodyForgets(es: seq<Event>, r: nat, c: nat, key: Key, name: string, artifact: Artifact)
    requires r < c && c + 1 < |es| && es[r] == Record(name, artifact) && es[c] == Kill(key) && es[c + 1].Load?
    requires forall i :: r < i < c ==> es[i].Record? && es[i].name != name
    requires Exec(FRESH, es[..c + 2]).Some? && Exec(FRESH, es[..r]).Some?
    requires var d := Exec(FRESH, es[..r]).value.disk.artifacts; !(name in d && d[name] == artifact)
    ensures var t := Exec(FRESH, es[..c + 2]).value;
            t.proc.Idle? && !(name in t.proc.mem.artifacts && t.proc.mem.artifacts[name] == artifact)
  {
    hide Exec;
    ArtifactSurvives(es, r, c + 1, name, artifact);
  }
}
