/** Plans and their tasks: the task and plan enumerations and defaults, the
    `progress` and `deadTasksCount` virtuals, and the `checkAutoComplete`
    document method. */
module PlanModel {
  import opened Common
  import opened Text

  datatype TaskStatus = Todo | Blocked | Done

  datatype BlockedReason = TechnicalIssue | WaitingOnCoFounder | ExternalDependency

  datatype Task = Task(
    id: TaskId,
    title: string,
    status: TaskStatus,
    blockedReason: Option<BlockedReason>,
    completedBy: Option<UserId>,
    lastUpdated: Time)

  datatype PlanStatus = Pending | Completed

  datatype Plan = Plan(
    id: PlanId,
    title: string,
    description: string,
    createdBy: UserId,
    status: PlanStatus,
    tasks: seq<Task>)

  /** A task sub-document built from `{ title }`: the title trimmed, status
      TODO, no blocked reason, nobody credited, updated now. */
  function NewTask(id: TaskId, title: string, now: Time): Task
  {
    Task(id, Trim(title), Todo, None, None, now)
  }

  /** The sub-document's `required` validator on the trimmed title. */
  predicate SavableTask(t: Task)
  {
    t.title != []
  }

  /** The bookkeeping every task mutation keeps: a task is credited to a
      founder exactly when it is DONE, and only a BLOCKED task has a reason. */
  predicate TaskBookkept(t: Task)
  {
    (t.status == Done <==> t.completedBy.Some?) && (t.blockedReason.Some? ==> t.status == Blocked)
  }

  /** Task ids are unique within a plan, and every task has a title and its bookkeeping. */
  ghost predicate TasksWellFormed(tasks: seq<Task>)
  {
    (forall i, j :: 0 <= i < j < |tasks| ==> tasks[i].id != tasks[j].id)
    && forall i :: 0 <= i < |tasks| ==> SavableTask(tasks[i]) && TaskBookkept(tasks[i])
  }

  /** The tasks of a plan created with a list of task titles, under fresh ids. */
  function NewTasks(ids: seq<TaskId>, titles: seq<string>, now: Time): (ts: seq<Task>)
    requires |ids| == |titles|
    ensures |ts| == |titles|
    ensures forall i :: 0 <= i < |ts| ==> ts[i] == NewTask(ids[i], titles[i], now)
  {
    seq(|titles|, i requires 0 <= i < |titles| => NewTask(ids[i], titles[i], now))
  }

  /** Fresh ids and non-blank titles make the tasks of a new plan well-formed. */
  lemma NewTasksWellFormed(ids: seq<TaskId>, titles: seq<string>, now: Time)
    requires |ids| == |titles|
    requires forall i, j :: 0 <= i < j < |ids| ==> ids[i] != ids[j]
    requires forall i :: 0 <= i < |titles| ==> !IsBlank(titles[i])
    ensures TasksWellFormed(NewTasks(ids, titles, now))
  {
  }

  /** Appending a task under a fresh id, with a title, keeps the tasks well-formed. */
  lemma PushTaskWellFormed(tasks: seq<Task>, t: Task)
    requires TasksWellFormed(tasks) && SavableTask(t) && TaskBookkept(t)
    requires forall j :: 0 <= j < |tasks| ==> tasks[j].id != t.id
    ensures TasksWellFormed(tasks + [t])
  {
    var r := tasks + [t];
    assert forall j :: 0 <= j < |tasks| ==> r[j] == tasks[j];
  }

  /** `plan.tasks.id(id)`: the position of the task with that id. */
  function FindTask(tasks: seq<Task>, id: TaskId): Option<nat>
  {
    IndexOf(tasks, (t: Task) => t.id, id)
  }

  /** `plan.tasks.pull(id)`: every task with that id removed, the others kept in order. */
  function WithoutTask(tasks: seq<Task>, id: TaskId): (r: seq<Task>)
    ensures |r| <= |tasks|
  {
    if tasks == [] then []
    else
      var last := tasks[|tasks| - 1];
      WithoutTask(tasks[..|tasks| - 1], id) + (if last.id == id then [] else [last])
  }

  /** The tasks kept are exactly the tasks whose id differs. */
  lemma {:induction false} WithoutTaskMembers(tasks: seq<Task>, id: TaskId)
    ensures forall t :: t in WithoutTask(tasks, id) <==> t in tasks && t.id != id
  {
    if tasks != [] {
      var init := tasks[..|tasks| - 1];
      WithoutTaskMembers(init, id);
      assert tasks == init + [tasks[|tasks| - 1]];
    }
  }

  /** Removing a task keeps the rest of the plan's tasks well-formed. */
  lemma {:induction false} WithoutTaskWellFormed(tasks: seq<Task>, id: TaskId)
    requires TasksWellFormed(tasks)
    ensures TasksWellFormed(WithoutTask(tasks, id))
  {
    if tasks != [] {
      var init := tasks[..|tasks| - 1];
      var last := tasks[|tasks| - 1];
      assert TasksWellFormed(init) by {
        forall i, j | 0 <= i < j < |init|
          ensures init[i].id != init[j].id
        {
          assert init[i] == tasks[i] && init[j] == tasks[j];
        }
      }
      WithoutTaskWellFormed(init, id);
      WithoutTaskMembers(init, id);
      var r := WithoutTask(tasks, id);
      var front := WithoutTask(init, id);
      if last.id != id {
        forall i | 0 <= i < |front|
          ensures front[i].id != last.id
        {
          assert front[i] in init;
          var k :| 0 <= k < |init| && init[k] == front[i];
          assert tasks[k] == front[i];
        }
        assert r == front + [last];
        forall i, j | 0 <= i < j < |r|
          ensures r[i].id != r[j].id
        {
          if j == |r| - 1 {
            assert r[i] == front[i];
          } else {
            assert r[i] == front[i] && r[j] == front[j];
          }
        }
      }
    }
  }

  /** Removing an id no task has changes nothing. */
  lemma {:induction false} WithoutAbsentTask(tasks: seq<Task>, id: TaskId)
    requires forall i :: 0 <= i < |tasks| ==> tasks[i].id != id
    ensures WithoutTask(tasks, id) == tasks
  {
    if tasks != [] {
      WithoutAbsentTask(tasks[..|tasks| - 1], id);
      assert tasks[..|tasks| - 1] + [tasks[|tasks| - 1]] == tasks;
    }
  }

  /** With unique ids, removing the id of the task at `k` drops exactly that task. */
  lemma {:induction false} WithoutPresentTask(tasks: seq<Task>, id: TaskId, k: nat)
    requires forall i, j :: 0 <= i < j < |tasks| ==> tasks[i].id != tasks[j].id
    requires k < |tasks| && tasks[k].id == id
    ensures WithoutTask(tasks, id) == tasks[..k] + tasks[k + 1..]
  {
    var init := tasks[..|tasks| - 1];
    var last := tasks[|tasks| - 1];
    assert WithoutTask(tasks, id) == WithoutTask(init, id) + (if last.id == id then [] else [last]);
    if k == |tasks| - 1 {
      forall i | 0 <= i < |init|
        ensures init[i].id != id
      {
        assert init[i] == tasks[i];
      }
      WithoutAbsentTask(init, id);
      assert tasks[..k] + tasks[k + 1..] == init;
    } else {
      assert last.id != id;
      assert forall i, j :: 0 <= i < j < |init| ==> init[i].id != init[j].id by {
        forall i, j | 0 <= i < j < |init|
          ensures init[i].id != init[j].id
        {
          assert init[i] == tasks[i] && init[j] == tasks[j];
        }
      }
      WithoutPresentTask(init, id, k);
      calc {
        WithoutTask(tasks, id);
        WithoutTask(init, id) + [last];
        (init[..k] + init[k + 1..]) + [last];
        init[..k] + (init[k + 1..] + [last]);
        { assert init[..k] == tasks[..k]; assert init[k + 1..] + [last] == tasks[k + 1..]; }
        tasks[..k] + tasks[k + 1..];
      }
    }
  }

  predicate IsDone(t: Task)
  {
    t.status == Done
  }

  predicate AllDone(tasks: seq<Task>)
  {
    forall i :: 0 <= i < |tasks| ==> tasks[i].status == Done
  }

  /** The `progress` virtual: the rounded percentage of DONE tasks, 0 for a plan without tasks. */
  function Progress(tasks: seq<Task>): (r: int)
    ensures |tasks| == 0 ==> r == 0
    ensures |tasks| > 0 ==> r == RoundPercent(CountIf(tasks, IsDone), |tasks|)
    ensures 0 <= r <= 100
    ensures |tasks| > 0 && AllDone(tasks) ==> r == 100
    ensures (forall i :: 0 <= i < |tasks| ==> tasks[i].status != Done) ==> r == 0
  {
    CountIfBound(tasks, IsDone);
    if |tasks| == 0 then 0
    else
      RoundPercentBounds(CountIf(tasks, IsDone), |tasks|);
      RoundPercent(CountIf(tasks, IsDone), |tasks|)
  }

  /** Five days, the age past which a task that is not DONE counts as dead. */
  const DeadAge: Time := 5 * DayMs

  /** A task that is not DONE and was last updated strictly before `cutoff`. */
  predicate IsDeadBefore(t: Task, cutoff: Time)
  {
    t.status != Done && t.lastUpdated < cutoff
  }

  /** The `deadTasksCount` virtual: the tasks not DONE whose last update is
      strictly earlier than five days before `now`. */
  function DeadTasksCount(tasks: seq<Task>, now: Time): (r: nat)
    ensures r <= |tasks|
    ensures r == 0 <==> forall i :: 0 <= i < |tasks| ==> !IsDeadBefore(tasks[i], now - DeadAge)
    ensures r == |tasks| <==> forall i :: 0 <= i < |tasks| ==> IsDeadBefore(tasks[i], now - DeadAge)
  {
    CountIfBound(tasks, (t: Task) => IsDeadBefore(t, now - DeadAge));
    CountIf(tasks, (t: Task) => IsDeadBefore(t, now - DeadAge))
  }

  /** A DONE task is never dead, so a plan whose tasks are all DONE has none. */
  lemma DoneTasksAreNotDead(tasks: seq<Task>, now: Time)
    requires AllDone(tasks)
    ensures DeadTasksCount(tasks, now) == 0
  {
  }

  /** Dead tasks never outnumber the tasks that are not DONE. */
  lemma DeadTasksAreOpen(tasks: seq<Task>, now: Time)
    ensures DeadTasksCount(tasks, now) <= CountIf(tasks, (t: Task) => t.status != Done)
  {
    CountIfMonotone(tasks, (t: Task) => IsDeadBefore(t, now - DeadAge), (t: Task) => t.status != Done);
  }

  /** The status `checkAutoComplete` leaves: COMPLETED when there are tasks and
      all are DONE, otherwise the status it had. */
  function AutoCompleted(status: PlanStatus, tasks: seq<Task>): PlanStatus
  {
    if |tasks| > 0 && AllDone(tasks) then Completed else status
  }

  /** Auto-completion never reverts a plan to PENDING, and marks it COMPLETED
      exactly when it has tasks and all are DONE (or it already was). */
  lemma AutoCompletedMeaning(status: PlanStatus, tasks: seq<Task>)
    ensures status == Completed ==> AutoCompleted(status, tasks) == Completed
    ensures AutoCompleted(status, tasks) == Completed <==> (status == Completed || (|tasks| > 0 && AllDone(tasks)))
    ensures |tasks| > 0 && AllDone(tasks) ==> Progress(tasks) == 100
  {
  }

  /** A plan document loaded from the store; `checkAutoComplete` changes it in place. */
  class PlanDocument {
    var id: PlanId
    var title: string
    var description: string
    var createdBy: UserId
    var status: PlanStatus
    var tasks: seq<Task>

    constructor Load(p: Plan)
      ensures Value() == p
    {
      id, title, description, createdBy, status, tasks := p.id, p.title, p.description, p.createdBy, p.status, p.tasks;
    }

    /** What `save()` writes back. */
    function Value(): Plan
      reads this
    {
      Plan(id, title, description, createdBy, status, tasks)
    }

    /** `plan.tasks.push(task)`. */
    method PushTask(t: Task)
      modifies this
      ensures Value() == old(Value()).(tasks := old(tasks) + [t])
    {
      tasks := tasks + [t];
    }

    /** Replaces the task at position `k` by its updated version. */
    method SetTask(k: nat, t: Task)
      requires k < |tasks|
      modifies this
      ensures Value() == old(Value()).(tasks := old(tasks)[k := t])
    {
      tasks := tasks[k := t];
    }

    /** `plan.tasks.pull(id)`: keeps, in order, every task whose id differs. */
    method PullTask(id: TaskId)
      modifies this
      ensures Value() == old(Value()).(tasks := WithoutTask(old(tasks), id))
    {
      var kept := [];
      var i := 0;
      while i < |tasks|
        invariant i <= |tasks|
        invariant kept == WithoutTask(tasks[..i], id)
      {
        assert tasks[..i + 1][..i] == tasks[..i];
        if tasks[i].id != id {
          kept := kept + [tasks[i]];
        }
        i := i + 1;
      }
      assert tasks[..i] == tasks;
      tasks := kept;
    }

    method CheckAutoComplete()
      modifies this
      ensures Value() == old(Value()).(status := AutoCompleted(old(status), old(tasks)))
    {
      if |tasks| > 0 && forall i :: 0 <= i < |tasks| ==> tasks[i].status == Done {
        status := Completed;
      }
    }
  }
}
