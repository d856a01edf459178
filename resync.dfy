/** The one-off resync of absence streaks: each founder's streak is
    recomputed as the run of ABSENT records at the head of the history,
    most recent first. */
module Resync {
  import opened Common
  import opened Models
  import opened Store
  import opened History

  /** The length of the longest prefix of ABSENT statuses. */
  function LeadingAbsences(ss: seq<AttendanceStatus>): (n: nat)
    ensures n <= |ss|
    ensures forall i :: 0 <= i < n ==> ss[i] == Absent
    ensures n < |ss| ==> ss[n] != Absent
  {
    if ss == [] || ss[0] != Absent then 0 else 1 + LeadingAbsences(ss[1..])
  }

  /** The run spans the whole history exactly when every record is ABSENT,
      and is empty for an empty history or one whose latest record is PRESENT or LEAVE. */
  lemma LeadingAbsencesMeaning(ss: seq<AttendanceStatus>)
    ensures LeadingAbsences(ss) == |ss| <==> forall i :: 0 <= i < |ss| ==> ss[i] == Absent
    ensures ss == [] || ss[0] != Absent ==> LeadingAbsences(ss) == 0
  {
  }

  function Statuses(records: seq<Attendance>): (ss: seq<AttendanceStatus>)
    ensures |ss| == |records| && forall i :: 0 <= i < |ss| ==> ss[i] == records[i].status
  {
    seq(|records|, i requires 0 <= i < |records| => records[i].status)
  }

  /** The counting loop: count ABSENT records, stopping at the first other one. */
  method CountLeadingAbsences(records: seq<Attendance>) returns (n: nat)
    ensures n == LeadingAbsences(Statuses(records))
  {
    n := 0;
    var i := 0;
    while i < |records|
      invariant 0 <= i <= |records| && n == i
      invariant forall j :: 0 <= j < i ==> records[j].status == Absent
    {
      if records[i].status == Absent {
        n := n + 1;
      } else {
        break;
      }
      i := i + 1;
    }
    ghost var ss := Statuses(records);
    StreakIsLeadingRun(ss, n);
  }

  /** A prefix of ABSENT statuses followed by the end or by another status is the leading run. */
  lemma {:induction false} StreakIsLeadingRun(ss: seq<AttendanceStatus>, n: nat)
    requires n <= |ss| && (forall i :: 0 <= i < n ==> ss[i] == Absent) && (n < |ss| ==> ss[n] != Absent)
    ensures LeadingAbsences(ss) == n
  {
    if n > 0 {
      StreakIsLeadingRun(ss[1..], n - 1);
    }
  }

  /** The founder's streak as the resync recomputes it. */
  ghost function RecomputedStreak(att: map<DayKey, Attendance>, user: UserId): nat
  {
    LeadingAbsences(Statuses(RecordsNewestFirst(att, user)))
  }

  /** The users collection after the resync: every founder's streak recomputed, nothing else changed. */
  ghost function ResyncedUsers(users: map<UserId, User>, att: map<DayKey, Attendance>): map<UserId, User>
  {
    map u | u in users :: users[u].(consecutiveAbsences := RecomputedStreak(att, u))
  }

  /** A second resync changes nothing. */
  lemma ResyncIdempotent(users: map<UserId, User>, att: map<DayKey, Attendance>)
    ensures ResyncedUsers(ResyncedUsers(users, att), att) == ResyncedUsers(users, att)
  {
  }

  /** The streak never exceeds the founder's number of records, and reaches it
      exactly when every record is ABSENT. */
  lemma RecomputedStreakBounds(att: map<DayKey, Attendance>, user: UserId)
    ensures RecomputedStreak(att, user) <= |DatesOf(att, user)|
    ensures RecomputedStreak(att, user) == |DatesOf(att, user)|
      <==> forall i :: 0 <= i < |RecordsNewestFirst(att, user)| ==> RecordsNewestFirst(att, user)[i].status == Absent
  {
    LeadingAbsencesMeaning(Statuses(RecordsNewestFirst(att, user)));
  }

  /** One founder's history, newest first, and its leading ABSENT run. */
  method RecomputeStreak(att: map<DayKey, Attendance>, user: UserId) returns (streak: nat)
    ensures streak == RecomputedStreak(att, user)
  {
    var records := FindNewestFirst(att, user, |DatesOf(att, user)|);
    assert records == RecordsNewestFirst(att, user);
    streak := CountLeadingAbsences(records);
  }

  /** `resyncConsecutiveAbsences`: for every founder, count the leading ABSENT
      records of the newest-first history and save the founder when the stored
      streak differs. */
  method ResyncConsecutiveAbsences(db: Db)
    requires db.Valid()
    modifies db
    ensures db.Valid()
    ensures db.users == ResyncedUsers(old(db.users), db.attendance)
    ensures unchanged(db`attendance, db`activities, db`plans, db`requests, db`resets, db`messages)
  {
    var users := db.users;
    var pending := users.Keys;
    while pending != {}
      invariant pending <= old(db.users).Keys
      invariant users == PartlyResynced(old(db.users), db.attendance, old(db.users).Keys - pending)
      invariant UsersSavable(users) && EmailsUnique(users)
      modifies {}
      decreases |pending|
    {
      var uid :| uid in pending;
      var streak := RecomputeStreak(db.attendance, uid);
      var u := users[uid];
      if u.consecutiveAbsences != streak {
        u := u.(consecutiveAbsences := streak);
      }
      ResyncIteration(old(db.users), db.attendance, pending, uid, users, u);
      users := users[uid := u];
      pending := pending - {uid};
    }
    ResyncDone(old(db.users), db.attendance, pending);
    db.SetUsers(users);
  }

  /** The users collection once the founders of `done` have been resynced. */
  ghost function PartlyResynced(users: map<UserId, User>, att: map<DayKey, Attendance>, done: set<UserId>)
    : map<UserId, User>
  {
    map u | u in users :: if u in done then users[u].(consecutiveAbsences := RecomputedStreak(att, u)) else users[u]
  }

  lemma ResyncDone(users0: map<UserId, User>, att: map<DayKey, Attendance>, pending: set<UserId>)
    requires pending == {}
    ensures PartlyResynced(users0, att, users0.Keys - pending) == ResyncedUsers(users0, att)
  {
    assert users0.Keys - pending == users0.Keys;
  }

  lemma ResyncIteration(users0: map<UserId, User>, att: map<DayKey, Attendance>, pending: set<UserId>, uid: UserId,
                        users: map<UserId, User>, u: User)
    requires uid in pending && pending <= users0.Keys
    requires users == PartlyResynced(users0, att, users0.Keys - pending) && UsersSavable(users) && EmailsUnique(users)
    requires u == users[uid].(consecutiveAbsences := RecomputedStreak(att, uid))
    ensures users[uid := u] == PartlyResynced(users0, att, users0.Keys - (pending - {uid}))
    ensures UsersSavable(users[uid := u]) && EmailsUnique(users[uid := u])
    ensures pending - {uid} <= users0.Keys && |pending - {uid}| < |pending|
  {
    TakeOne(users0.Keys, pending, uid);
    UserUpdateKeepsValid(users, uid, u);
  }
}
