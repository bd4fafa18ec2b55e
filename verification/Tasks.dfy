/** internal/stalwartapi/task.go: waiting for quota tasks to leave the queue,
    against a server that may answer anything. */
module Tasks {
  import opened Prelude
  import opened Order

  datatype TaskStatus = TaskStatus(kind: string, reason: string)

  /** One turn of the loop: the queue's answer, and what the clock and the
      context say after it. */
  datatype Poll = Unreadable | Answered(found: map<string, TaskStatus>, expired: bool, cancelled: bool)

  datatype TaskFailure = TaskFailure(id: string, reason: string)

  datatype WaitResult = AllGone | CannotPoll | TimedOut | Cancelled | StillWaiting

  /** What one answer means for a task that was still waited on. */
  datatype Fate = Queued | Left | Failed(reason: string)

  const FAILED := "Failed"

  function FateIn(p: Poll, id: string): Fate
    requires p.Answered?
  {
    if id !in p.found then Left
    else if p.found[id].kind == FAILED then Failed(p.found[id].reason)
    else Queued
  }

  /** What the first n answers mean for a task: the first that settles it counts. */
  function FateOf(polls: seq<Poll>, n: nat, id: string): Fate
    requires n <= |polls| && forall i :: 0 <= i < n ==> polls[i].Answered?
  {
    if n == 0 then Queued
    else if FateOf(polls, n - 1, id) != Queued then FateOf(polls, n - 1, id)
    else FateIn(polls[n - 1], id)
  }

  ghost predicate Partition(asked: set<string>, remaining: set<string>, failures: seq<TaskFailure>, left: set<string>) {
    && asked == remaining + Ids(failures) + left
    && remaining !! Ids(failures) && remaining !! left && Ids(failures) !! left
    && forall i, j :: 0 <= i < j < |failures| ==> failures[i].id != failures[j].id
  }

  function Ids(failures: seq<TaskFailure>): set<string> {
    set f | f in failures :: f.id
  }

  /** The ids waited on, failed and left are those whose fate says so. */
  ghost predicate Faithful(polls: seq<Poll>, n: nat, asked: set<string>, remaining: set<string>,
        failures: seq<TaskFailure>, left: set<string>)
    requires n <= |polls| && forall i :: 0 <= i < n ==> polls[i].Answered?
  {
    && (forall id :: id in remaining <==> id in asked && FateOf(polls, n, id).Queued?)
    && (forall id :: id in left <==> id in asked && FateOf(polls, n, id).Left?)
    && (forall f :: f in failures ==> f.id in asked && FateOf(polls, n, f.id) == Failed(f.reason))
    && (forall id :: id in asked && FateOf(polls, n, id).Failed? ==> id in Ids(failures))
  }

  /** Applies one answer to the tasks still waited on, in any order. */
  method Apply(polls: seq<Poll>, n: nat, asked: set<string>, remaining0: set<string>, failures0: seq<TaskFailure>,
               seen0: set<string>, ghost left0: set<string>)
    returns (remaining: set<string>, failures: seq<TaskFailure>, seen: set<string>, ghost left: set<string>)
    requires n < |polls| && forall i :: 0 <= i <= n ==> polls[i].Answered?
    requires Partition(asked, remaining0, failures0, left0) && Faithful(polls, n, asked, remaining0, failures0, left0)
    requires seen0 == Ids(failures0)
    ensures Partition(asked, remaining, failures, left) && Faithful(polls, n + 1, asked, remaining, failures, left)
    ensures seen == Ids(failures)
  {
    remaining, failures, seen, left := remaining0, failures0, seen0, left0;
    var rest := remaining0;
    while rest != {}
      invariant rest <= remaining <= remaining0
      invariant Partition(asked, remaining, failures, left) && seen == Ids(failures)
      invariant forall id :: id in remaining && id !in rest ==> FateIn(polls[n], id).Queued?
      invariant forall id :: id in remaining0 && id !in remaining ==> !FateIn(polls[n], id).Queued?
      invariant forall id :: id in left <==>
                  id in left0 || (id in remaining0 && id !in rest && FateIn(polls[n], id).Left?)
      invariant forall f :: f in failures ==>
                  f in failures0 || (f.id in remaining0 && FateIn(polls[n], f.id) == Failed(f.reason))
      invariant forall id :: id in Ids(failures0) ==> id in Ids(failures)
      invariant forall id :: id in remaining0 && id !in rest && FateIn(polls[n], id).Failed? ==> id in Ids(failures)
      decreases rest
    {
      var id :| id in rest;
      rest := rest - {id};
      if id !in polls[n].found {
        remaining := remaining - {id};
        left := left + {id};
      } else {
        var status := polls[n].found[id];
        // A task still waited on has never failed, so the second test is idle.
        assert id !in seen;
        if status.kind == FAILED && id !in seen {
          seen := seen + {id};
          IdsNext(failures, TaskFailure(id, status.reason));
          failures := failures + [TaskFailure(id, status.reason)];
          remaining := remaining - {id};
        }
      }
    }
  }

  lemma IdsNext(failures: seq<TaskFailure>, f: TaskFailure)
    ensures Ids(failures + [f]) == Ids(failures) + {f.id}
  {
    assert forall g :: g in failures + [f] <==> g in failures || g == f;
  }

  /** Fate is the first answer that settles it, and no later answer changes it. */
  lemma {:induction false} FateIsFirstSettled(polls: seq<Poll>, n: nat, id: string, k: nat)
    requires k < n <= |polls| && forall i :: 0 <= i < n ==> polls[i].Answered?
    requires forall i :: 0 <= i < k ==> FateIn(polls[i], id).Queued?
    requires !FateIn(polls[k], id).Queued?
    ensures FateOf(polls, n, id) == FateIn(polls[k], id)
  {
    if n == k + 1 {
      StillQueued(polls, k, id);
    } else {
      FateIsFirstSettled(polls, n - 1, id, k);
    }
  }

  lemma {:induction false} StillQueued(polls: seq<Poll>, n: nat, id: string)
    requires n <= |polls| && forall i :: 0 <= i < n ==> polls[i].Answered?
    requires forall i :: 0 <= i < n ==> FateIn(polls[i], id).Queued?
    ensures FateOf(polls, n, id).Queued?
  {
    if n > 0 {
      StillQueued(polls, n - 1, id);
    }
  }

  predicate SortedById(failures: seq<TaskFailure>) {
    forall i, j :: 0 <= i < j < |failures| ==> Less(failures[i].id, failures[j].id)
  }

  /** sort.Slice on failures of distinct tasks. */
  method SortFailures(failures: seq<TaskFailure>) returns (r: seq<TaskFailure>)
    requires forall i, j :: 0 <= i < j < |failures| ==> failures[i].id != failures[j].id
    ensures SortedById(r)
    ensures forall f :: f in r <==> f in failures
    ensures forall i, j :: 0 <= i < j < |r| ==> r[i].id != r[j].id
  {
    hide Less, Sorted;
    var ids := SortKeys(Ids(failures));
    SortedIn(Ids(failures));
    r := [];
    for i := 0 to |ids|
      invariant |r| == i && forall k :: 0 <= k < i ==> r[k] in failures && r[k].id == ids[k]
    {
      assert ids[i] in Ids(failures);
      var f :| f in failures && f.id == ids[i];
      r := r + [f];
    }
    forall i, j | 0 <= i < j < |r|
      ensures r[i].id != r[j].id
    {
      AscendingDistinct(ids, i, j);
    }
    forall f | f in failures
      ensures f in r
    {
      assert f.id in ids;
      var k :| 0 <= k < |ids| && ids[k] == f.id;
      assert r[k] == f;
    }
  }

  /** The order of the failures does not matter to what they say. */
  lemma OrderIsIrrelevant(polls: seq<Poll>, n: nat, asked: set<string>, remaining: set<string>, left: set<string>,
                          failures: seq<TaskFailure>, r: seq<TaskFailure>)
    requires n <= |polls| && forall i :: 0 <= i < n ==> polls[i].Answered?
    requires Partition(asked, remaining, failures, left) && Faithful(polls, n, asked, remaining, failures, left)
    requires forall f :: f in r <==> f in failures
    requires forall i, j :: 0 <= i < j < |r| ==> r[i].id != r[j].id
    ensures Partition(asked, remaining, r, left) && Faithful(polls, n, asked, remaining, r, left)
  {
    hide FateOf;
    assert Ids(r) == Ids(failures);
  }

  /** Some task has not been settled by the first n answers. */
  ghost predicate Waiting(polls: seq<Poll>, n: nat, asked: set<string>)
    requires n <= |polls| && forall i :: 0 <= i < n ==> polls[i].Answered?
  {
    exists id :: id in asked && FateOf(polls, n, id).Queued?
  }

  lemma SomeIsWaiting(polls: seq<Poll>, n: nat, asked: set<string>, remaining: set<string>,
        failures: seq<TaskFailure>, left: set<string>)
    requires n <= |polls| && forall i :: 0 <= i < n ==> polls[i].Answered?
    requires Faithful(polls, n, asked, remaining, failures, left) && remaining != {}
    ensures Waiting(polls, n, asked)
  {
    var id :| id in remaining;
    assert id in asked && FateOf(polls, n, id).Queued?;
  }

  lemma NothingYet(polls: seq<Poll>, asked: set<string>)
    ensures Partition(asked, asked, [], {}) && Faithful(polls, 0, asked, asked, [], {})
    ensures Ids([]) == {}
  {
  }

  function Asked(taskIDs: seq<string>): set<string> {
    set id | id in taskIDs
  }

  /** WaitForTasks: it asks only while something is waited on. n counts the
      answers used; the ghost results are the ids still waited on and those that
      left the queue. */
  method WaitForTasks(taskIDs: seq<string>, polls: seq<Poll>)
    returns (failures: seq<TaskFailure>, result: WaitResult, n: nat, ghost remaining: set<string>,
        ghost left: set<string>)
    ensures n <= |polls| && forall i :: 0 <= i < n ==> polls[i].Answered?
    ensures Partition(Asked(taskIDs), remaining, failures, left)
    ensures Faithful(polls, n, Asked(taskIDs), remaining, failures, left)
    ensures result.AllGone? <==> remaining == {}
    ensures result.AllGone? ==> SortedById(failures)
    ensures result.CannotPoll? ==> n < |polls| && polls[n].Unreadable?
    ensures result.TimedOut? ==> n > 0 && polls[n - 1].expired
    ensures result.Cancelled? ==> n > 0 && polls[n - 1].cancelled && !polls[n - 1].expired
    ensures (result.CannotPoll? || result.StillWaiting?) && n > 0 ==> !polls[n - 1].expired && !polls[n - 1].cancelled
    ensures result.StillWaiting? ==> n == |polls|
    ensures forall k :: 0 <= k < n - 1 ==> !polls[k].expired && !polls[k].cancelled
    ensures forall k :: 0 <= k < n ==> Waiting(polls, k, Asked(taskIDs))
  {
    hide Less, FateOf, Faithful, Partition, Waiting;
    failures, n, left := [], 0, {};
    var asked := Asked(taskIDs);
    var waiting := asked;
    remaining := asked;
    if taskIDs == [] {
      NothingYet(polls, asked);
      assert asked == {};
      result := AllGone;
      return;
    }
    assert taskIDs[0] in asked;
    NothingYet(polls, asked);
    var seen: set<string> := {};
    while n < |polls|
      invariant n <= |polls| && forall i :: 0 <= i < n ==> polls[i].Answered?
      invariant remaining == waiting && waiting != {}
      invariant Partition(asked, remaining, failures, left) && Faithful(polls, n, asked, remaining, failures, left)
      invariant seen == Ids(failures)
      invariant forall k :: 0 <= k < n ==> !polls[k].expired && !polls[k].cancelled
      invariant forall k :: 0 <= k < n ==> Waiting(polls, k, asked)
    {
      SomeIsWaiting(polls, n, asked, remaining, failures, left);
      if polls[n].Unreadable? {
        result := CannotPoll;
        return;
      }
      waiting, failures, seen, left := Apply(polls, n, asked, waiting, failures, seen, left);
      var poll := polls[n];
      n := n + 1;
      remaining := waiting;
      if waiting == {} {
        var sorted := SortFailures(failures);
        OrderIsIrrelevant(polls, n, asked, waiting, left, failures, sorted);
        failures := sorted;
        result := AllGone;
        return;
      }
      if poll.expired {
        result := TimedOut;
        return;
      }
      if poll.cancelled {
        result := Cancelled;
        return;
      }
    }
    result := StillWaiting;
  }

  // ------------------------------------------------------- what the answers said

  /** The answer shows the task in the queue, and not failed. */
  predicate ShowsQueued(p: Poll, id: string) {
    p.Answered? && id in p.found && p.found[id].kind != "Failed"
  }

  /** The answer shows the task failed, for this reason. */
  predicate ShowsFailed(p: Poll, id: string, reason: string) {
    p.Answered? && id in p.found && p.found[id].kind == "Failed" && p.found[id].reason == reason
  }

  /** The first k answers show the task in the queue. */
  predicate QueuedUntil(polls: seq<Poll>, k: nat, id: string)
    requires k <= |polls|
  {
    forall i :: 0 <= i < k ==> ShowsQueued(polls[i], id)
  }

  lemma {:induction false} FateTells(polls: seq<Poll>, n: nat, id: string)
    requires n <= |polls| && forall i :: 0 <= i < n ==> polls[i].Answered?
    ensures FateOf(polls, n, id).Queued? <==> QueuedUntil(polls, n, id)
    ensures FateOf(polls, n, id).Left? <==>
              exists k :: 0 <= k < n && QueuedUntil(polls, k, id) && id !in polls[k].found
    ensures forall reason :: FateOf(polls, n, id) == Failed(reason) <==>
              exists k :: 0 <= k < n && QueuedUntil(polls, k, id) && ShowsFailed(polls[k], id, reason)
  {
    if n > 0 {
      FateTells(polls, n - 1, id);
    }
  }

  /** What WaitForTasks says of the tasks asked for, in terms of the answers: one that is
      waited on was in the queue in each, one that left was in it until it was not there,
      and one reported failed was in it until it was shown as failed for that reason. */
  lemma WhatWaitingSays(polls: seq<Poll>, n: nat, asked: set<string>, remaining: set<string>,
        failures: seq<TaskFailure>, left: set<string>)
    requires n <= |polls| && forall i :: 0 <= i < n ==> polls[i].Answered?
    requires Partition(asked, remaining, failures, left) && Faithful(polls, n, asked, remaining, failures, left)
    ensures forall id :: id in remaining <==> id in asked && QueuedUntil(polls, n, id)
    ensures forall id :: id in left <==>
              id in asked && exists k :: 0 <= k < n && QueuedUntil(polls, k, id) && id !in polls[k].found
    ensures forall f :: f in failures <==>
              f.id in asked
              && exists k :: 0 <= k < n && QueuedUntil(polls, k, f.id) && ShowsFailed(polls[k], f.id, f.reason)
  {
    hide FateOf, QueuedUntil, ShowsFailed, Partition;
    forall id
      ensures FateOf(polls, n, id).Queued? <==> QueuedUntil(polls, n, id)
      ensures FateOf(polls, n, id).Left? <==>
                exists k :: 0 <= k < n && QueuedUntil(polls, k, id) && id !in polls[k].found
    {
      FateTells(polls, n, id);
    }
    forall f
      ensures f in failures <==> f.id in asked && FateOf(polls, n, f.id) == Failed(f.reason)
    {
      if f.id in asked && FateOf(polls, n, f.id) == Failed(f.reason) {
        var g :| g in failures && g.id == f.id;
        assert g == f;
      }
    }
    forall f: TaskFailure
      ensures FateOf(polls, n, f.id) == Failed(f.reason) <==>
                exists k :: 0 <= k < n && QueuedUntil(polls, k, f.id) && ShowsFailed(polls[k], f.id, f.reason)
    {
      FateTells(polls, n, f.id);
    }
  }
}
