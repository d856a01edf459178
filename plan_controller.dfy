/** The plan endpoints, all behind the ACTIVE-only route guard: creating a
    plan, adding a task, changing a task's status, deleting a task. A plan
    is loaded as a document, changed in place, and saved back. */
module PlanController {
  import opened Common
  import opened Text
  import opened Models
  import opened PlanModel
  import opened Store

  const MsgTitleRequired: string := "Plan title is required"
  const MsgPlanNotFound: string := "Plan not found"
  const MsgTaskNotFound: string := "Task not found"

  /** The stored form of a task status string; anything else fails the enum validator on save. */
  function ParseTaskStatus(s: string): (r: Option<TaskStatus>)
    ensures r == Some(Todo) <==> s == "TODO"
    ensures r == Some(Blocked) <==> s == "BLOCKED"
    ensures r == Some(Done) <==> s == "DONE"
  {
    if s == "TODO" then Some(Todo)
    else if s == "BLOCKED" then Some(Blocked)
    else if s == "DONE" then Some(Done)
    else None
  }

  /** The stored form of a blocked-reason string. */
  function ParseBlockedReason(s: string): (r: Option<BlockedReason>)
    ensures r.Some? <==> s in {"Technical issue", "Waiting on co-founder", "External dependency"}
  {
    if s == "Technical issue" then Some(TechnicalIssue)
    else if s == "Waiting on co-founder" then Some(WaitingOnCoFounder)
    else if s == "External dependency" then Some(ExternalDependency)
    else None
  }

  /** What an `updateTask` body asks for: a new status (none when the body's
      status is falsy) and a reason, given only with the status BLOCKED. */
  datatype TaskPatch = TaskPatch(status: Option<TaskStatus>, reason: Option<BlockedReason>)

  /** Reads an `updateTask` body. A status or reason outside its enum is
      stored as given and rejected by the validator on save, a 500. */
  function ReadTaskPatch(status: Option<string>, blockedReason: Option<string>): (r: Result<TaskPatch>)
    ensures r.Err? ==> r.failure == ServerError
    ensures r.Ok? && r.value.status.Some? ==> Truthy(status) && ParseTaskStatus(status.value) == r.value.status
    ensures r.Ok? && r.value.status.None? ==> !Truthy(status)
    ensures r.Ok? && r.value.reason.Some? ==>
      status == Some("BLOCKED") && Truthy(blockedReason) && ParseBlockedReason(blockedReason.value) == r.value.reason
    ensures r.Ok? <==> ((!Truthy(status) || ParseTaskStatus(status.value).Some?)
      && (status == Some("BLOCKED") && Truthy(blockedReason) ==> ParseBlockedReason(blockedReason.value).Some?))
  {
    if Truthy(status) && ParseTaskStatus(status.value).None? then Err(ServerError)
    else if status == Some("BLOCKED") && Truthy(blockedReason) && ParseBlockedReason(blockedReason.value).None? then
      Err(ServerError)
    else
      var st := if Truthy(status) then ParseTaskStatus(status.value) else None;
      var reason := if status == Some("BLOCKED") && Truthy(blockedReason) then ParseBlockedReason(blockedReason.value) else None;
      Ok(TaskPatch(st, reason))
  }

  /** The task after `updateTask`'s assignments, by `caller` at `now`. */
  function ApplyTaskPatch(t: Task, patch: TaskPatch, caller: UserId, now: Time): (r: Task)
    ensures r.id == t.id && r.title == t.title
  {
    var stamped :=
      if patch.status.Some? then
        t.(status := patch.status.value, lastUpdated := now,
           completedBy := if patch.status.value == Done then Some(caller) else None)
      else t;
    if patch.status == Some(Blocked) && patch.reason.Some? then stamped.(blockedReason := patch.reason)
    else if patch.status != Some(Blocked) then stamped.(blockedReason := None)
    else stamped
  }

  /** A status change sets the status, refreshes `lastUpdated`, and credits
      the caller exactly when the task becomes DONE; without a status the
      status, stamp and credit stay. The reason is kept only for BLOCKED. */
  lemma ApplyTaskPatchMeaning(t: Task, patch: TaskPatch, caller: UserId, now: Time)
    ensures var r := ApplyTaskPatch(t, patch, caller, now);
      (patch.status.Some? ==>
        r.status == patch.status.value && r.lastUpdated == now
        && (r.completedBy == Some(caller) <==> r.status == Done)
        && (r.status != Done ==> r.completedBy.None?))
      && (patch.status.None? ==> r.status == t.status && r.lastUpdated == t.lastUpdated && r.completedBy == t.completedBy)
      && (patch.status == Some(Blocked) && patch.reason.Some? ==> r.blockedReason == patch.reason)
      && (patch.status == Some(Blocked) && patch.reason.None? ==> r.blockedReason == t.blockedReason)
      && (patch.status != Some(Blocked) ==> r.blockedReason.None?)
  {
  }

  /** Every status change keeps a task's bookkeeping: credited exactly when
      DONE, a reason only while BLOCKED. */
  lemma ApplyTaskPatchKeepsBookkeeping(t: Task, patch: TaskPatch, caller: UserId, now: Time)
    requires TaskBookkept(t)
    requires patch.reason.Some? ==> patch.status == Some(Blocked)
    ensures TaskBookkept(ApplyTaskPatch(t, patch, caller, now))
  {
  }

  /** Deleting the only unfinished task of a plan with other tasks completes it. */
  lemma DeletingLastOpenTaskCompletes(status: PlanStatus, tasks: seq<Task>, k: nat)
    requires forall i, j :: 0 <= i < j < |tasks| ==> tasks[i].id != tasks[j].id
    requires k < |tasks| && |tasks| >= 2
    requires forall i :: 0 <= i < |tasks| && i != k ==> tasks[i].status == Done
    ensures AutoCompleted(status, WithoutTask(tasks, tasks[k].id)) == Completed
  {
    WithoutPresentTask(tasks, tasks[k].id, k);
    var r := tasks[..k] + tasks[k + 1..];
    forall i | 0 <= i < |r|
      ensures r[i].status == Done
    {
      if i < k {
        assert r[i] == tasks[i];
      } else {
        assert r[i] == tasks[i + 1];
      }
    }
  }

  /** The plan document `Plan.create` saves from a present title, or the
      `required` validator's failure (500) when the title or a task title is
      blank once trimmed. The plan is PENDING, its description defaults to '',
      its tasks (built from the given titles under fresh ids) to none. */
  function NewPlan(caller: UserId, title: string, description: Option<string>,
                   taskTitles: Option<seq<string>>, newId: PlanId, taskIds: seq<TaskId>, now: Time): (r: Result<Plan>)
    requires taskTitles.Some? ==> |taskIds| == |taskTitles.value|
    ensures r.Ok? <==> (!IsBlank(title)
      && (taskTitles.Some? ==> forall i :: 0 <= i < |taskTitles.value| ==> !IsBlank(taskTitles.value[i])))
    ensures r.Err? ==> r.failure == ServerError
    ensures r.Ok? ==> r.value.id == newId && r.value.title == Trim(title) && r.value.createdBy == caller
    ensures r.Ok? ==> r.value.status == PlanStatus.Pending
    ensures r.Ok? ==> r.value.description == if Truthy(description) then Trim(description.value) else ""
    ensures r.Ok? ==> r.value.tasks == if taskTitles.Some? then NewTasks(taskIds, taskTitles.value, now) else []
  {
    var tasks := if taskTitles.Some? then NewTasks(taskIds, taskTitles.value, now) else [];
    var desc := if Truthy(description) then Trim(description.value) else "";
    if IsBlank(title) || exists i :: 0 <= i < |tasks| && tasks[i].title == [] then Err(ServerError)
    else Ok(Plan(newId, Trim(title), desc, caller, PlanStatus.Pending, tasks))
  }

  /** `createPlan`: a falsy title is refused (400); otherwise the plan
      `NewPlan` builds is appended to the store, or nothing is saved when it
      fails validation. */
  method CreatePlan(db: Db, caller: UserId, title: Option<string>, description: Option<string>,
                    taskTitles: Option<seq<string>>, newId: PlanId, taskIds: seq<TaskId>, now: Time)
    returns (r: Result<Plan>)
    requires db.Valid() && IsActiveCaller(db, caller)
    requires forall i :: 0 <= i < |db.plans| ==> db.plans[i].id != newId
    requires taskTitles.Some? ==> |taskIds| == |taskTitles.value|
    requires forall i, j :: 0 <= i < j < |taskIds| ==> taskIds[i] != taskIds[j]
    modifies db
    ensures db.Valid()
    ensures !Truthy(title) ==> r == Err(Failure(400, MsgTitleRequired))
    ensures Truthy(title) ==> r == NewPlan(caller, title.value, description, taskTitles, newId, taskIds, now)
    ensures r.Err? ==> unchanged(db)
    ensures r.Ok? ==> db.plans == old(db.plans) + [r.value]
    ensures r.Ok? ==> unchanged(db`users, db`activities, db`attendance, db`requests, db`resets, db`messages)
  {
    if !Truthy(title) {
      return Err(Failure(400, MsgTitleRequired));
    }
    r := NewPlan(caller, title.value, description, taskTitles, newId, taskIds, now);
    if r.Err? {
      return;
    }
    if taskTitles.Some? {
      NewTasksWellFormed(taskIds, taskTitles.value, now);
    }
    AppendPlanKeepsWellFormed(db.plans, r.value);
    db.SetPlans(db.plans + [r.value]);
  }

  /** `addTask`: a missing plan is not found; a task whose title is missing
      or blank fails the `required` validator (500). The task is appended,
      earlier tasks and the plan's status stay as they were. */
  method AddTask(db: Db, caller: UserId, planId: PlanId, title: Option<string>, taskId: TaskId, now: Time)
    returns (r: Result<Plan>)
    requires db.Valid() && IsActiveCaller(db, caller)
    requires forall i :: 0 <= i < |db.plans| ==> forall j :: 0 <= j < |db.plans[i].tasks| ==> db.plans[i].tasks[j].id != taskId
    modifies db
    ensures db.Valid()
    ensures FindPlan(old(db.plans), planId).None? ==> r == Err(Failure(404, MsgPlanNotFound))
    ensures FindPlan(old(db.plans), planId).Some? && r.Err? ==> r.failure == ServerError
    ensures r.Ok? <==> FindPlan(old(db.plans), planId).Some? && title.Some? && !IsBlank(title.value)
    ensures r.Err? ==> unchanged(db)
    ensures r.Ok? ==> var k := FindPlan(old(db.plans), planId).value;
      r.value == old(db.plans)[k].(tasks := old(db.plans)[k].tasks + [NewTask(taskId, title.value, now)])
      && db.plans == old(db.plans)[k := r.value]
    ensures r.Ok? ==> unchanged(db`users, db`activities, db`attendance, db`requests, db`resets, db`messages)
  {
    var found := FindPlan(db.plans, planId);
    if found.None? {
      return Err(Failure(404, MsgPlanNotFound));
    }
    var k := found.value;
    if title.None? || IsBlank(title.value) {
      return Err(ServerError);
    }
    var plan := new PlanDocument.Load(db.plans[k]);
    var task := NewTask(taskId, title.value, now);
    plan.PushTask(task);
    var saved := plan.Value();
    assert forall j :: 0 <= j < |db.plans[k].tasks| ==> db.plans[k].tasks[j].id != taskId;
    PushTaskWellFormed(db.plans[k].tasks, task);
    PlanUpdateKeepsWellFormed(db.plans, k, saved);
    db.SetPlans(db.plans[k := saved]);
    r := Ok(saved);
  }

  /** `updateTask`: a missing plan or task is not found; a status or reason
      outside its enum fails on save (500). Otherwise the task is patched and
      the plan auto-completed. */
  method UpdateTask(db: Db, caller: UserId, planId: PlanId, taskId: TaskId,
                    status: Option<string>, blockedReason: Option<string>, now: Time)
    returns (r: Result<Plan>)
    requires db.Valid() && IsActiveCaller(db, caller)
    modifies db
    ensures db.Valid()
    ensures FindPlan(old(db.plans), planId).None? ==> r == Err(Failure(404, MsgPlanNotFound))
    ensures FindPlan(old(db.plans), planId).Some?
      && FindTask(old(db.plans)[FindPlan(old(db.plans), planId).value].tasks, taskId).None?
      ==> r == Err(Failure(404, MsgTaskNotFound))
    ensures r.Ok? <==> (FindPlan(old(db.plans), planId).Some?
      && FindTask(old(db.plans)[FindPlan(old(db.plans), planId).value].tasks, taskId).Some?
      && ReadTaskPatch(status, blockedReason).Ok?)
    ensures r.Err? ==> unchanged(db)
    ensures r.Ok? ==>
      var k := FindPlan(old(db.plans), planId).value;
      var p := old(db.plans)[k];
      var j := FindTask(p.tasks, taskId).value;
      var tasks := p.tasks[j := ApplyTaskPatch(p.tasks[j], ReadTaskPatch(status, blockedReason).value, caller, now)];
      r.value == p.(tasks := tasks, status := AutoCompleted(p.status, tasks))
      && db.plans == old(db.plans)[k := r.value]
    ensures r.Ok? ==> unchanged(db`users, db`activities, db`attendance, db`requests, db`resets, db`messages)
  {
    var found := FindPlan(db.plans, planId);
    if found.None? {
      return Err(Failure(404, MsgPlanNotFound));
    }
    var k := found.value;
    var at := FindTask(db.plans[k].tasks, taskId);
    if at.None? {
      return Err(Failure(404, MsgTaskNotFound));
    }
    var patch := ReadTaskPatch(status, blockedReason);
    if patch.Err? {
      return Err(patch.failure);
    }
    var j := at.value;
    var plan := new PlanDocument.Load(db.plans[k]);
    var task := ApplyTaskPatch(plan.tasks[j], patch.value, caller, now);
    ApplyTaskPatchKeepsBookkeeping(plan.tasks[j], patch.value, caller, now);
    plan.SetTask(j, task);
    plan.CheckAutoComplete();
    var saved := plan.Value();
    PlanUpdateKeepsWellFormed(db.plans, k, saved);
    db.SetPlans(db.plans[k := saved]);
    r := Ok(saved);
  }

  /** `deleteTask`: a missing plan is not found (a missing task is not an
      error); every task with that id is pulled and the plan auto-completed. */
  method DeleteTask(db: Db, caller: UserId, planId: PlanId, taskId: TaskId) returns (r: Result<Plan>)
    requires db.Valid() && IsActiveCaller(db, caller)
    modifies db
    ensures db.Valid()
    ensures r.Err? <==> FindPlan(old(db.plans), planId).None?
    ensures r.Err? ==> r.failure == Failure(404, MsgPlanNotFound) && unchanged(db)
    ensures r.Ok? ==>
      var k := FindPlan(old(db.plans), planId).value;
      var p := old(db.plans)[k];
      var tasks := WithoutTask(p.tasks, taskId);
      r.value == p.(tasks := tasks, status := AutoCompleted(p.status, tasks))
      && db.plans == old(db.plans)[k := r.value]
    ensures r.Ok? ==> unchanged(db`users, db`activities, db`attendance, db`requests, db`resets, db`messages)
  {
    var found := FindPlan(db.plans, planId);
    if found.None? {
      return Err(Failure(404, MsgPlanNotFound));
    }
    var k := found.value;
    var plan := new PlanDocument.Load(db.plans[k]);
    plan.PullTask(taskId);
    plan.CheckAutoComplete();
    var saved := plan.Value();
    WithoutTaskWellFormed(db.plans[k].tasks, taskId);
    PlanUpdateKeepsWellFormed(db.plans, k, saved);
    db.SetPlans(db.plans[k := saved]);
    r := Ok(saved);
  }
}
