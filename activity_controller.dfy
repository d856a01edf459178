/** Posting the day's activity: the activity itself is created or replaced,
    the founder's attendance record for the day is forced to PRESENT, and
    the absence streak is reset. */
module ActivityController {
  import opened Common
  import opened Text
  import opened Models
  import opened Store
  import AttendanceCron

  const MsgContentRequired: string := "Activity content is required"

  /** The content guard: missing, empty or whitespace-only content is refused;
      what is stored is the content as the schema's `trim` setter leaves it. */
  function CheckContent(content: Option<string>): (r: Result<string>)
    ensures r.Ok? <==> content.Some? && !IsBlank(content.value)
    ensures r.Ok? ==> r.value == Trim(content.value) && r.value != []
    ensures r.Err? ==> r.failure == Failure(400, MsgContentRequired)
  {
    if !Truthy(content) || IsBlank(content.value) then Err(Failure(400, MsgContentRequired))
    else Ok(Trim(content.value))
  }

  /** `Activity.findOne({ user, date: today })`: the founder's activity of the day, or null. */
  function GetTodayActivity(db: Db, caller: UserId, today: string): (r: Option<Activity>)
    requires db.Valid()
    reads db
    ensures r.Some? <==> (caller, today) in db.activities
    ensures r.Some? ==> r.value.user == caller && r.value.date == today
  {
    Lookup(db.activities, (caller, today))
  }

  /** The record posting leaves for the day: the existing one turned PRESENT,
      whatever its status was (LEAVE included), or a new PRESENT one. */
  function PostedRecord(att: map<DayKey, Attendance>, caller: UserId, today: string): (a: Attendance)
    requires AttendanceKeyed(att)
    ensures a.user == caller && a.date == today && a.status == Present
    ensures (caller, today) in att ==> a == att[(caller, today)].(status := Present)
    ensures (caller, today) !in att ==> a == NewAttendance(caller, today, Present)
  {
    AttendanceCron.MarkDay(Lookup(att, (caller, today)), caller, today, true)
  }

  /** The writes of a successful post: the activity upserted, the day's
      record made PRESENT, the absence streak reset. */
  method RecordPost(db: Db, activity: Activity)
    requires db.Valid() && activity.user in db.users
    modifies db
    ensures db.Valid()
    ensures db.activities == old(db.activities)[(activity.user, activity.date) := activity]
    ensures db.attendance == old(db.attendance)[(activity.user, activity.date) :=
                               PostedRecord(old(db.attendance), activity.user, activity.date)]
    ensures db.users == old(db.users)[activity.user := old(db.users)[activity.user].(consecutiveAbsences := 0)]
    ensures unchanged(db`plans, db`requests, db`resets, db`messages)
  {
    var key := (activity.user, activity.date);
    var attendance := db.attendance[key := PostedRecord(db.attendance, activity.user, activity.date)];
    var u := db.users[activity.user].(consecutiveAbsences := 0);
    UserUpdateKeepsValid(db.users, activity.user, u);
    var users := db.users[activity.user := u];
    db.SetActivities(db.activities[key := activity]);
    db.SetAttendance(attendance);
    db.SetUsers(users);
  }

  /** `createActivity`, behind the ACTIVE-only route guard. */
  method CreateActivity(db: Db, caller: UserId, content: Option<string>, today: string) returns (r: Result<Activity>)
    requires db.Valid() && IsActiveCaller(db, caller)
    modifies db
    ensures db.Valid()
    ensures r.Ok? <==> content.Some? && !IsBlank(content.value)
    ensures r.Err? ==> r.failure == Failure(400, MsgContentRequired) && unchanged(db)
    ensures r.Ok? ==> r.value == Activity(caller, Trim(content.value), today)
    ensures r.Ok? ==> db.activities == old(db.activities)[(caller, today) := r.value]
    ensures r.Ok? ==> GetTodayActivity(db, caller, today) == Some(r.value)
    ensures r.Ok? ==> db.attendance == old(db.attendance)[(caller, today) := PostedRecord(old(db.attendance), caller, today)]
    ensures r.Ok? ==> db.users == old(db.users)[caller := old(db.users)[caller].(consecutiveAbsences := 0)]
    ensures r.Ok? ==> unchanged(db`plans, db`requests, db`resets, db`messages)
  {
    var checked := CheckContent(content);
    if checked.Err? {
      return Err(checked.failure);
    }
    var activity := Activity(caller, checked.value, today);
    RecordPost(db, activity);
    r := Ok(activity);
  }
}
