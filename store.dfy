/** The database: one collection per model, held by a single mutable store.
    Its validity predicate joins two kinds of facts about what has been
    saved: what the schemas' `required` validators, unique indexes and
    ObjectIds enforce, and invariants that only the modelled handlers keep
    (see `Db.Valid`). */
module Store {
  import opened Common
  import opened Models
  import opened PlanModel
  import opened ReactivationModel

  /** Every stored user passed the `required` validators. */
  ghost predicate UsersSavable(users: map<UserId, User>)
  {
    forall u :: u in users ==> SavableUser(users[u])
  }

  /** Plan ids are unique, every plan has a title and well-formed tasks. */
  ghost predicate PlansWellFormed(plans: seq<Plan>)
  {
    (forall i, j :: 0 <= i < j < |plans| ==> plans[i].id != plans[j].id)
    && forall i :: 0 <= i < |plans| ==> plans[i].title != [] && TasksWellFormed(plans[i].tasks)
  }

  /** No request holds two ballots of one voter. No index enforces this: the
      find-or-push ballot update of `vote` keeps it. */
  ghost predicate BallotsDistinct(requests: map<RequestId, ReactivationRequest>)
  {
    forall id :: id in requests ==> VotersDistinct(requests[id].votes)
  }

  /** No founder has two PENDING requests. No index enforces this: the
      pending-request check of `createRequest` keeps it. */
  ghost predicate OnePendingEach(requests: map<RequestId, ReactivationRequest>)
  {
    forall a, b :: a in requests && b in requests && a != b
      && requests[a].status.Pending? && requests[b].status.Pending?
      ==> requests[a].requester != requests[b].requester
  }

  /** Saving a user whose name and email are those already stored keeps the
      users collection valid. */
  lemma UserUpdateKeepsValid(users: map<UserId, User>, id: UserId, u: User)
    requires UsersSavable(users) && EmailsUnique(users) && id in users
    requires u.name == users[id].name && u.email == users[id].email
    ensures UsersSavable(users[id := u]) && EmailsUnique(users[id := u])
  {
  }

  /** Saving a user that passes the `required` validators under an email no
      other user holds, whether as a new document or over `id`'s old one,
      keeps the users collection valid. */
  lemma SaveUserKeepsValid(users: map<UserId, User>, id: UserId, u: User)
    requires UsersSavable(users) && EmailsUnique(users) && SavableUser(u)
    requires forall v :: v in users && v != id ==> users[v].email != u.email
    ensures UsersSavable(users[id := u]) && EmailsUnique(users[id := u])
  {
  }

  /** Saving a plan under its own id, with a title and well-formed tasks,
      keeps the plans collection well-formed. */
  lemma PlanUpdateKeepsWellFormed(plans: seq<Plan>, k: nat, p: Plan)
    requires PlansWellFormed(plans) && k < |plans|
    requires p.id == plans[k].id && p.title != [] && TasksWellFormed(p.tasks)
    ensures PlansWellFormed(plans[k := p])
  {
  }

  /** Inserting a plan under a fresh id, with a title and well-formed tasks,
      keeps the plans collection well-formed. */
  lemma AppendPlanKeepsWellFormed(plans: seq<Plan>, p: Plan)
    requires PlansWellFormed(plans)
    requires forall i :: 0 <= i < |plans| ==> plans[i].id != p.id
    requires p.title != [] && TasksWellFormed(p.tasks)
    ensures PlansWellFormed(plans + [p])
  {
    var r := plans + [p];
    assert forall i :: 0 <= i < |plans| ==> r[i] == plans[i];
  }

  /** Saving a request with the same requester, distinct voters, and a status
      that is PENDING only if it was PENDING before keeps the requests
      collection valid. */
  lemma RequestUpdateKeepsValid(requests: map<RequestId, ReactivationRequest>, id: RequestId, r: ReactivationRequest)
    requires BallotsDistinct(requests) && OnePendingEach(requests) && id in requests
    requires r.requester == requests[id].requester && VotersDistinct(r.votes)
    requires r.status.Pending? ==> requests[id].status.Pending?
    ensures BallotsDistinct(requests[id := r]) && OnePendingEach(requests[id := r])
  {
  }

  /** `User.findOne({ email })`: the user whose stored email is `email`, if
      any; with unique emails there is at most one. */
  method FindByEmail(users: map<UserId, User>, email: string) returns (r: Option<UserId>)
    ensures r.Some? ==> r.value in users && users[r.value].email == email
    ensures r.None? ==> forall u :: u in users ==> users[u].email != email
  {
    if exists u :: u in users && users[u].email == email {
      var u :| u in users && users[u].email == email;
      r := Some(u);
    } else {
      r := None;
    }
  }

  /** The position of the plan with id `id` (`Plan.findById`). */
  function FindPlan(plans: seq<Plan>, id: PlanId): Option<nat>
  {
    IndexOf(plans, (p: Plan) => p.id, id)
  }

  class Db {
    var users: map<UserId, User>
    var activities: map<DayKey, Activity>
    var attendance: map<DayKey, Attendance>
    var plans: seq<Plan>
    var requests: map<RequestId, ReactivationRequest>
    var resets: map<string, PasswordReset>
    var messages: seq<Message>

    /** The state every modelled handler starts from and leaves.
        Enforced by the schemas and the store: required user fields, the
        unique email, the (user, date) unique indexes of attendance and
        activities, the unique reset code, unique plan and task ObjectIds and
        the required titles. Kept only by the modelled handlers: the task
        bookkeeping inside `PlansWellFormed` (by `updateTask`), one ballot per
        voter (by `vote`) and one PENDING request per founder (by
        `createRequest`). A store produced by paths this model leaves out
        (client task fields in `createPlan`, two racing `createRequest`
        calls) can break the second group, and `requires db.Valid()`
        excludes it. */
    ghost predicate Valid()
      reads this
    {
      UsersSavable(users) && EmailsUnique(users)
      && ActivitiesKeyed(activities) && AttendanceKeyed(attendance)
      && PlansWellFormed(plans)
      && BallotsDistinct(requests) && OnePendingEach(requests)
      && ResetsKeyed(resets)
    }

    constructor Empty()
      ensures Valid()
      ensures users == map[] && activities == map[] && attendance == map[]
      ensures plans == [] && requests == map[] && resets == map[] && messages == []
    {
      users, activities, attendance := map[], map[], map[];
      plans, requests, resets, messages := [], map[], map[], [];
    }

    /** Writes back the users collection; the store's other collections are untouched. */
    method SetUsers(us: map<UserId, User>)
      requires Valid() && UsersSavable(us) && EmailsUnique(us)
      modifies this
      ensures Valid() && users == us
      ensures unchanged(`activities, `attendance, `plans, `requests, `resets, `messages)
    {
      users := us;
    }

    /** Writes back the attendance collection. */
    method SetAttendance(att: map<DayKey, Attendance>)
      requires Valid() && AttendanceKeyed(att)
      modifies this
      ensures Valid() && attendance == att
      ensures unchanged(`users, `activities, `plans, `requests, `resets, `messages)
    {
      attendance := att;
    }

    /** Writes back the activities collection. */
    method SetActivities(acts: map<DayKey, Activity>)
      requires Valid() && ActivitiesKeyed(acts)
      modifies this
      ensures Valid() && activities == acts
      ensures unchanged(`users, `attendance, `plans, `requests, `resets, `messages)
    {
      activities := acts;
    }

    /** Writes back the plans collection. */
    method SetPlans(ps: seq<Plan>)
      requires Valid() && PlansWellFormed(ps)
      modifies this
      ensures Valid() && plans == ps
      ensures unchanged(`users, `activities, `attendance, `requests, `resets, `messages)
    {
      plans := ps;
    }

    /** Writes back the reactivation requests collection. */
    method SetRequests(rs: map<RequestId, ReactivationRequest>)
      requires Valid() && BallotsDistinct(rs) && OnePendingEach(rs)
      modifies this
      ensures Valid() && requests == rs
      ensures unchanged(`users, `activities, `attendance, `plans, `resets, `messages)
    {
      requests := rs;
    }

    /** Writes back the password reset collection. */
    method SetResets(rs: map<string, PasswordReset>)
      requires Valid() && ResetsKeyed(rs)
      modifies this
      ensures Valid() && resets == rs
      ensures unchanged(`users, `activities, `attendance, `plans, `requests, `messages)
    {
      resets := rs;
    }
  }

  /** The ACTIVE users of a collection. */
  function ActiveUsers(users: map<UserId, User>): (s: set<UserId>)
    ensures forall u :: u in s <==> u in users && users[u].status == Active
  {
    set u | u in users && users[u].status == Active
  }

  /** The `requireActive` route guard: the caller exists and is ACTIVE. */
  ghost predicate IsActiveCaller(db: Db, caller: UserId)
    reads db
  {
    caller in db.users && db.users[caller].status == Active
  }
}
