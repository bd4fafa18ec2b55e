/** The records of one migration run and the rules for updating them:
    internal/checkpoint/types.go and step.go. */
module Checkpoint {

  datatype Phase = Preflight | Backup | Stage | Recovery | Cutover | Validate

  /** Steps are identified by phase and name together. */
  datatype Key = Key(phase: Phase, name: string)

  datatype Status = Pending | Running | Done | Failed

  datatype Outcome = Outcome(verdict: string, detail: string, extra: string)

  const NO_OUTCOME := Outcome("", "", "")

  datatype StepRecord = StepRecord(key: Key, status: Status, outcome: Outcome, error: string)

  datatype Artifact = Artifact(path: string, sha256: string, size: nat)

  /** What one state.json holds. */
  datatype Snapshot = Snapshot(steps: seq<StepRecord>, artifacts: map<string, Artifact>)

  predicate Recorded(steps: seq<StepRecord>, key: Key) {
    exists i :: 0 <= i < |steps| && steps[i].key == key
  }

  ghost predicate UniqueKeys(steps: seq<StepRecord>) {
    forall i, j :: 0 <= i < j < |steps| ==> steps[i].key != steps[j].key
  }

  /** The first record of a step, or -1. */
  function IndexOf(steps: seq<StepRecord>, key: Key): (i: int)
    ensures -1 <= i < |steps|
    ensures i == -1 <==> !Recorded(steps, key)
    ensures i != -1 ==> steps[i].key == key && forall j :: 0 <= j < i ==> steps[j].key != key
  {
    if steps == [] then -1
    else if steps[0].key == key then 0
    else
      var r := IndexOf(steps[1..], key);
      assert Recorded(steps[1..], key) ==> Recorded(steps, key);
      assert Recorded(steps, key) ==> Recorded(steps[1..], key) by {
        if Recorded(steps, key) {
          var k :| 0 <= k < |steps| && steps[k].key == key;
          assert steps[1..][k - 1].key == key;
        }
      }
      if r == -1 then -1 else r + 1
  }

  function StatusOf(steps: seq<StepRecord>, key: Key): Status {
    var i := IndexOf(steps, key);
    if i == -1 then Pending else steps[i].status
  }

  predicate IsDone(steps: seq<StepRecord>, key: Key) {
    StatusOf(steps, key) == Done
  }

  function OutcomeOf(steps: seq<StepRecord>, key: Key): Outcome {
    var i := IndexOf(steps, key);
    if i == -1 then NO_OUTCOME else steps[i].outcome
  }

  function ErrorOf(steps: seq<StepRecord>, key: Key): string {
    var i := IndexOf(steps, key);
    if i == -1 then "" else steps[i].error
  }

  /** Puts a record in place of the one with its key, or at the end. */
  function Put(steps: seq<StepRecord>, rec: StepRecord): seq<StepRecord> {
    var i := IndexOf(steps, rec.key);
    if i == -1 then steps + [rec] else steps[i := rec]
  }

  function Begun(steps: seq<StepRecord>, key: Key): seq<StepRecord> {
    Put(steps, StepRecord(key, Running, NO_OUTCOME, ""))
  }

  function Completed(steps: seq<StepRecord>, key: Key, outcome: Outcome): seq<StepRecord>
    requires Recorded(steps, key)
  {
    Put(steps, StepRecord(key, Done, outcome, ""))
  }

  function FailedWith(steps: seq<StepRecord>, key: Key, error: string): seq<StepRecord>
    requires Recorded(steps, key)
  {
    Put(steps, StepRecord(key, Failed, OutcomeOf(steps, key), error))
  }

  /** Putting a record changes what is known of its own key and of no other,
      keeps one record per key, and never moves or forgets a record. */
  lemma PutFrame(steps: seq<StepRecord>, rec: StepRecord)
    ensures Recorded(Put(steps, rec), rec.key)
    ensures StatusOf(Put(steps, rec), rec.key) == rec.status
    ensures OutcomeOf(Put(steps, rec), rec.key) == rec.outcome
    ensures forall k :: k != rec.key ==>
              && Recorded(Put(steps, rec), k) == Recorded(steps, k)
              && StatusOf(Put(steps, rec), k) == StatusOf(steps, k)
              && OutcomeOf(Put(steps, rec), k) == OutcomeOf(steps, k)
    ensures UniqueKeys(steps) ==> UniqueKeys(Put(steps, rec))
    ensures |steps| <= |Put(steps, rec)|
    ensures forall i :: 0 <= i < |steps| ==> Put(steps, rec)[i].key == steps[i].key
  {
    var i := IndexOf(steps, rec.key);
    var after := Put(steps, rec);
    var at := if i == -1 then |steps| else i;
    assert after[at] == rec;
    assert IndexOf(after, rec.key) == at;
    forall k | k != rec.key
      ensures Recorded(after, k) == Recorded(steps, k)
      ensures StatusOf(after, k) == StatusOf(steps, k)
      ensures OutcomeOf(after, k) == OutcomeOf(steps, k)
    {
      var a, b := IndexOf(after, k), IndexOf(steps, k);
      if b != -1 { assert after[b].key == k; }
      if a != -1 { assert a < |steps| && steps[a].key == k; }
      assert a == b;
    }
  }

  /** The same of the error a record holds. */
  lemma PutError(steps: seq<StepRecord>, rec: StepRecord)
    ensures ErrorOf(Put(steps, rec), rec.key) == rec.error
    ensures forall k :: k != rec.key ==> ErrorOf(Put(steps, rec), k) == ErrorOf(steps, k)
  {
    var i := IndexOf(steps, rec.key);
    var after := Put(steps, rec);
    var at := if i == -1 then |steps| else i;
    assert after[at] == rec && IndexOf(after, rec.key) == at;
    forall k | k != rec.key
      ensures ErrorOf(after, k) == ErrorOf(steps, k)
    {
      var a, b := IndexOf(after, k), IndexOf(steps, k);
      if b != -1 { assert after[b].key == k; }
      if a != -1 { assert a < |steps| && steps[a].key == k; }
      assert a == b;
    }
  }

  /** The in-memory state of one run, updated in place. */
  class RunState {
    var steps: seq<StepRecord>
    var artifacts: map<string, Artifact>

    constructor (saved: Snapshot)
      ensures steps == saved.steps && artifacts == saved.artifacts
    {
      steps, artifacts := saved.steps, saved.artifacts;
    }

    method StepIndex(key: Key) returns (index: int)
      ensures index == IndexOf(steps, key)
    {
      for i := 0 to |steps|
        invariant forall j :: 0 <= j < i ==> steps[j].key != key
      {
        if steps[i].key == key {
          return i;
        }
      }
      return -1;
    }

    method GetStatus(key: Key) returns (status: Status)
      ensures status == StatusOf(steps, key)
    {
      var i := StepIndex(key);
      return if i >= 0 then steps[i].status else Pending;
    }

    method GetOutcome(key: Key) returns (outcome: Outcome)
      ensures outcome == OutcomeOf(steps, key)
    {
      var i := StepIndex(key);
      return if i >= 0 then steps[i].outcome else NO_OUTCOME;
    }

    /** Marks a step as running, creating or resetting its record. */
    method Begin(key: Key)
      modifies this`steps
      ensures steps == Begun(old(steps), key)
    {
      var i := StepIndex(key);
      if i >= 0 {
        steps := steps[i := steps[i].(status := Running, outcome := NO_OUTCOME, error := "")];
      } else {
        steps := steps + [StepRecord(key, Running, NO_OUTCOME, "")];
      }
    }

    /** Marks a step done. The source panics when Begin was never called, which
        the precondition rules out. */
    method Complete(key: Key, outcome: Outcome)
      requires Recorded(steps, key)
      modifies this`steps
      ensures steps == Completed(old(steps), key, outcome)
    {
      var i := StepIndex(key);
      steps := steps[i := steps[i].(status := Done, outcome := outcome, error := "")];
    }

    /** Marks a step failed, keeping whatever outcome its record has. */
    method Fail(key: Key, error: string)
      requires Recorded(steps, key)
      modifies this`steps
      ensures steps == FailedWith(old(steps), key, error)
    {
      var i := StepIndex(key);
      steps := steps[i := steps[i].(status := Failed, error := error)];
    }

    method RecordArtifact(name: string, artifact: Artifact)
      modifies this`artifacts
      ensures artifacts == old(artifacts)[name := artifact]
    {
      artifacts := artifacts[name := artifact];
    }
  }
}
