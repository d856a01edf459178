/** The daily attendance run: every founder ACTIVE when the run starts is
    marked PRESENT (an activity was posted that day) or ABSENT, the absence
    streak and the OUT threshold are applied, and then every founder's
    consistency score is recomputed from their attendance records. */
module AttendanceCron {
  import opened Common
  import opened Models
  import opened Store

  /** Three missed days in a row put a founder OUT. */
  const OutThreshold: nat := 3

  /** The record the run leaves for one founder and day: with an activity, the
      existing record turned PRESENT (or a new PRESENT one); without, the
      existing record untouched (or a new ABSENT one). */
  function MarkDay(existing: Option<Attendance>, user: UserId, date: string, posted: bool): (a: Attendance)
    ensures posted ==> a.status == Present
    ensures existing.Some? ==> a.user == existing.value.user && a.date == existing.value.date
    ensures existing.None? ==> a == NewAttendance(user, date, a.status)
    ensures !posted && existing.Some? ==> a == existing.value
    ensures !posted && existing.None? ==> a.status == Absent
    ensures existing.Some? ==> a.reason == existing.value.reason && a.reasonText == existing.value.reasonText
  {
    match existing
    case None => NewAttendance(user, date, if posted then Present else Absent)
    case Some(rec) => if posted then rec.(status := Present) else rec
  }

  /** The founder after one day: an activity resets the streak; a missed day
      lengthens it, flags a pending absence reason, and at the threshold puts
      the founder OUT. */
  function TallyUser(u: User, posted: bool): (r: User)
    ensures r.name == u.name && r.email == u.email && r.password == u.password && r.avatar == u.avatar
    ensures r.consistencyScore == u.consistencyScore
    ensures posted ==> r == u.(consecutiveAbsences := 0)
    ensures !posted ==> r.consecutiveAbsences == u.consecutiveAbsences + 1 && r.pendingAbsenceReason
    ensures !posted ==> (r.status == Out <==> (u.consecutiveAbsences + 1 >= OutThreshold || u.status == Out))
    ensures !posted && u.consecutiveAbsences + 1 < OutThreshold ==> r.status == u.status
  {
    if posted then u.(consecutiveAbsences := 0)
    else
      var c := u.consecutiveAbsences + 1;
      u.(consecutiveAbsences := c, pendingAbsenceReason := true, status := if c >= OutThreshold then Out else u.status)
  }

  /** The (user, date) keys of a set of founders. */
  function DayKeys(us: set<UserId>, date: string): (ks: set<DayKey>)
    ensures forall k :: k in ks <==> k.0 in us && k.1 == date
  {
    set u | u in us :: (u, date)
  }

  /** The attendance collection once the founders of `done` have been handled for `date`. */
  function MarkedAttendance(att: map<DayKey, Attendance>, acts: map<DayKey, Activity>, done: set<UserId>, date: string)
    : map<DayKey, Attendance>
  {
    map k | k in att.Keys + DayKeys(done, date) ::
      if k.0 in done && k.1 == date then MarkDay(Lookup(att, k), k.0, date, k in acts) else att[k]
  }

  /** The users collection once the founders of `done` have been handled for `date`. */
  function MarkedUsers(users: map<UserId, User>, acts: map<DayKey, Activity>, done: set<UserId>, date: string)
    : map<UserId, User>
  {
    map u | u in users :: if u in done then TallyUser(users[u], (u, date) in acts) else users[u]
  }

  /** `Attendance.countDocuments({ user })`. */
  function RecordsOf(att: map<DayKey, Attendance>, user: UserId): set<DayKey>
  {
    set k | k in att && k.0 == user
  }

  /** `Attendance.countDocuments({ user, status: 'PRESENT' })`. */
  function PresentOf(att: map<DayKey, Attendance>, user: UserId): (ks: set<DayKey>)
    ensures ks <= RecordsOf(att, user)
    ensures |ks| <= |RecordsOf(att, user)|
  {
    var ks := set k | k in att && k.0 == user && att[k].status == Present;
    SubsetSize(ks, RecordsOf(att, user));
    ks
  }

  lemma {:induction false} SubsetSize<T>(a: set<T>, b: set<T>)
    requires a <= b
    ensures |a| <= |b|
    decreases |b|
  {
    if a != {} {
      var x :| x in a;
      SubsetSize(a - {x}, b - {x});
    }
  }

  /** The founder's score after recalculation: the rounded share of PRESENT
      records, or the old score for a founder without records. */
  function Rescore(u: User, id: UserId, att: map<DayKey, Attendance>): (r: User)
    ensures r == u.(consistencyScore := r.consistencyScore)
    ensures |RecordsOf(att, id)| == 0 ==> r == u
    ensures |RecordsOf(att, id)| > 0 ==>
      r.consistencyScore == RoundPercent(|PresentOf(att, id)|, |RecordsOf(att, id)|)
    ensures |RecordsOf(att, id)| > 0 ==> 0 <= r.consistencyScore <= 100
  {
    var total := |RecordsOf(att, id)|;
    if total > 0 then
      var present := |PresentOf(att, id)|;
      RoundPercentBounds(present, total);
      u.(consistencyScore := RoundPercent(present, total))
    else u
  }

  /** The users collection once the founders of `done` have been rescored. */
  function Rescored(users: map<UserId, User>, att: map<DayKey, Attendance>, done: set<UserId>): map<UserId, User>
  {
    map u | u in users :: if u in done then Rescore(users[u], u, att) else users[u]
  }

  /** The attendance collection after `processAttendance(date)`. */
  function DayAttendance(users: map<UserId, User>, att: map<DayKey, Attendance>, acts: map<DayKey, Activity>, date: string)
    : map<DayKey, Attendance>
  {
    MarkedAttendance(att, acts, ActiveUsers(users), date)
  }

  /** The users collection after `processAttendance(date)`. */
  function DayUsers(users: map<UserId, User>, att: map<DayKey, Attendance>, acts: map<DayKey, Activity>, date: string)
    : map<UserId, User>
  {
    Rescored(MarkedUsers(users, acts, ActiveUsers(users), date), DayAttendance(users, att, acts, date), users.Keys)
  }

  lemma MarkedAttendanceStep(att: map<DayKey, Attendance>, acts: map<DayKey, Activity>, done: set<UserId>, date: string, uid: UserId)
    requires uid !in done
    ensures Lookup(MarkedAttendance(att, acts, done, date), (uid, date)) == Lookup(att, (uid, date))
    ensures MarkedAttendance(att, acts, done + {uid}, date)
      == MarkedAttendance(att, acts, done, date)[(uid, date) := MarkDay(Lookup(att, (uid, date)), uid, date, (uid, date) in acts)]
  {
    var before := MarkedAttendance(att, acts, done, date);
    var after := MarkedAttendance(att, acts, done + {uid}, date);
    var m := before[(uid, date) := MarkDay(Lookup(att, (uid, date)), uid, date, (uid, date) in acts)];
    assert after.Keys == m.Keys;
  }

  lemma MarkedUsersStep(users: map<UserId, User>, acts: map<DayKey, Activity>, done: set<UserId>, date: string, uid: UserId)
    requires uid !in done && uid in users
    ensures MarkedUsers(users, acts, done, date)[uid] == users[uid]
    ensures MarkedUsers(users, acts, done + {uid}, date)
      == MarkedUsers(users, acts, done, date)[uid := TallyUser(users[uid], (uid, date) in acts)]
  {
  }

  lemma RescoredStep(users: map<UserId, User>, att: map<DayKey, Attendance>, done: set<UserId>, uid: UserId)
    requires uid !in done && uid in users
    ensures Rescored(users, att, done)[uid] == users[uid]
    ensures Rescored(users, att, done + {uid}) == Rescored(users, att, done)[uid := Rescore(users[uid], uid, att)]
  {
  }

  /** `recalculateConsistencyScores`: every founder, whatever the status, with
      at least one attendance record gets the rounded share of PRESENT records. */
  method RecalculateConsistencyScores(db: Db)
    requires db.Valid()
    modifies db
    ensures db.Valid()
    ensures db.users == Rescored(old(db.users), db.attendance, old(db.users).Keys)
    ensures unchanged(db`attendance, db`activities, db`plans, db`requests, db`resets, db`messages)
  {
    var users := db.users;
    var pending := users.Keys;
    while pending != {}
      invariant pending <= old(db.users).Keys
      invariant users == Rescored(old(db.users), db.attendance, old(db.users).Keys - pending)
      invariant UsersSavable(users) && EmailsUnique(users)
      modifies {}
      decreases |pending|
    {
      var uid :| uid in pending;
      var total := |RecordsOf(db.attendance, uid)|;
      var present := |PresentOf(db.attendance, uid)|;
      var u := users[uid];
      if total > 0 {
        u := u.(consistencyScore := RoundPercent(present, total));
      }
      RescoreIteration(old(db.users), db.attendance, pending, uid, users, u);
      users := users[uid := u];
      pending := pending - {uid};
    }
    assert old(db.users).Keys - pending == old(db.users).Keys;
    db.SetUsers(users);
  }

  lemma RescoreIteration(users0: map<UserId, User>, att: map<DayKey, Attendance>, pending: set<UserId>, uid: UserId,
                         users: map<UserId, User>, u: User)
    requires uid in pending && pending <= users0.Keys
    requires users == Rescored(users0, att, users0.Keys - pending) && UsersSavable(users) && EmailsUnique(users)
    requires u == if |RecordsOf(att, uid)| > 0
      then users[uid].(consistencyScore := RoundPercent(|PresentOf(att, uid)|, |RecordsOf(att, uid)|))
      else users[uid]
    ensures users[uid := u] == Rescored(users0, att, users0.Keys - (pending - {uid}))
    ensures UsersSavable(users[uid := u]) && EmailsUnique(users[uid := u])
    ensures pending - {uid} <= users0.Keys && |pending - {uid}| < |pending|
  {
    var done := users0.Keys - pending;
    TakeOne(users0.Keys, pending, uid);
    RescoredStep(users0, att, done, uid);
    UserUpdateKeepsValid(users, uid, u);
  }

  /** The body of the per-founder loop: the founder's record for the day is
      created or turned PRESENT, and the founder's streak updated. */
  method MarkFounder(att: map<DayKey, Attendance>, user: User, uid: UserId, date: string, posted: bool)
    returns (next: map<DayKey, Attendance>, u: User)
    ensures next == att[(uid, date) := MarkDay(Lookup(att, (uid, date)), uid, date, posted)]
    ensures u == TallyUser(user, posted)
  {
    var key := (uid, date);
    var existing := Lookup(att, key);
    next, u := att, user;
    if posted {
      if existing.None? {
        next := att[key := NewAttendance(uid, date, Present)];
      } else if existing.value.status != Present {
        next := att[key := existing.value.(status := Present)];
      } else {
        assert att == att[key := existing.value];
      }
      if u.consecutiveAbsences > 0 {
        u := u.(consecutiveAbsences := 0);
      }
    } else {
      if existing.None? {
        next := att[key := NewAttendance(uid, date, Absent)];
      } else {
        assert att == att[key := existing.value];
      }
      u := u.(consecutiveAbsences := u.consecutiveAbsences + 1, pendingAbsenceReason := true);
      if u.consecutiveAbsences >= OutThreshold {
        u := u.(status := Out);
      }
    }
  }

  /** The per-founder loop of `processAttendance(date)` over the founders
      ACTIVE at the start. */
  method MarkActive(users0: map<UserId, User>, att0: map<DayKey, Attendance>, acts: map<DayKey, Activity>, date: string)
    returns (users: map<UserId, User>, att: map<DayKey, Attendance>)
    requires AttendanceKeyed(att0) && UsersSavable(users0) && EmailsUnique(users0)
    ensures att == MarkedAttendance(att0, acts, ActiveUsers(users0), date)
    ensures users == MarkedUsers(users0, acts, ActiveUsers(users0), date)
    ensures AttendanceKeyed(att) && UsersSavable(users) && EmailsUnique(users)
  {
    var active := ActiveUsers(users0);
    users, att := users0, att0;
    var pending := active;
    while pending != {}
      invariant MarkedSoFar(users0, att0, acts, active, pending, date, users, att)
      decreases |pending|
    {
      var uid :| uid in pending;
      MarkIteration(users0, att0, acts, active, pending, date, uid, users, att);
      var posted := (uid, date) in acts;
      var next, u := MarkFounder(att, users[uid], uid, date, posted);
      att, users := next, users[uid := u];
      pending := pending - {uid};
    }
    assert active - pending == active;
  }

  /** The loop state of `MarkActive`: the founders of `active` no longer
      `pending` have been handled. */
  ghost predicate MarkedSoFar(users0: map<UserId, User>, att0: map<DayKey, Attendance>, acts: map<DayKey, Activity>,
                              active: set<UserId>, pending: set<UserId>, date: string,
                              users: map<UserId, User>, att: map<DayKey, Attendance>)
  {
    && active == ActiveUsers(users0) && pending <= active
    && att == MarkedAttendance(att0, acts, active - pending, date) && AttendanceKeyed(att)
    && users == MarkedUsers(users0, acts, active - pending, date) && UsersSavable(users) && EmailsUnique(users)
  }

  /** `processAttendance(date)`: the per-founder marking over the founders
      ACTIVE at the start, then the score recalculation. */
  method ProcessAttendance(db: Db, date: string)
    requires db.Valid()
    modifies db
    ensures db.Valid()
    ensures db.attendance == DayAttendance(old(db.users), old(db.attendance), old(db.activities), date)
    ensures db.users == DayUsers(old(db.users), old(db.attendance), old(db.activities), date)
    ensures unchanged(db`activities, db`plans, db`requests, db`resets, db`messages)
  {
    ghost var users0, att0, acts := db.users, db.attendance, db.activities;
    var users, att := MarkActive(db.users, db.attendance, db.activities, date);
    assert users.Keys == users0.Keys;
    db.SetUsers(users);
    db.SetAttendance(att);
    RecalculateConsistencyScores(db);
    assert db.attendance == DayAttendance(users0, att0, acts, date);
    assert db.users == Rescored(users, att, users0.Keys);
  }

  lemma MarkIteration(users0: map<UserId, User>, att0: map<DayKey, Attendance>, acts: map<DayKey, Activity>,
                      active: set<UserId>, pending: set<UserId>, date: string, uid: UserId,
                      users: map<UserId, User>, att: map<DayKey, Attendance>)
    requires MarkedSoFar(users0, att0, acts, active, pending, date, users, att) && uid in pending
    ensures uid in users && users[uid] == users0[uid]
    ensures MarkedSoFar(users0, att0, acts, active, pending - {uid}, date,
      users[uid := TallyUser(users[uid], (uid, date) in acts)],
      att[(uid, date) := MarkDay(Lookup(att, (uid, date)), uid, date, (uid, date) in acts)])
    ensures |pending - {uid}| < |pending|
  {
    TakeOne(active, pending, uid);
    MarkAttendanceIteration(att0, acts, active - pending, date, uid, att);
    MarkedUsersStep(users0, acts, active - pending, date, uid);
    UserUpdateKeepsValid(users, uid, TallyUser(users[uid], (uid, date) in acts));
  }

  lemma MarkAttendanceIteration(att0: map<DayKey, Attendance>, acts: map<DayKey, Activity>,
                                done: set<UserId>, date: string, uid: UserId, att: map<DayKey, Attendance>)
    requires uid !in done
    requires att == MarkedAttendance(att0, acts, done, date) && AttendanceKeyed(att)
    ensures att[(uid, date) := MarkDay(Lookup(att, (uid, date)), uid, date, (uid, date) in acts)]
      == MarkedAttendance(att0, acts, done + {uid}, date)
    ensures AttendanceKeyed(att[(uid, date) := MarkDay(Lookup(att, (uid, date)), uid, date, (uid, date) in acts)])
  {
    MarkedAttendanceStep(att0, acts, done, date, uid);
  }

  // ------------------------------------------------------------ properties

  /** A founder ACTIVE at the start who posted that day ends it with a PRESENT
      record (an existing one keeps its reason), a zero streak and an
      unchanged status. */
  lemma PostedDayIsPresent(users: map<UserId, User>, att: map<DayKey, Attendance>, acts: map<DayKey, Activity>,
                           date: string, u: UserId)
    requires u in users && users[u].status == Active && (u, date) in acts
    ensures (u, date) in DayAttendance(users, att, acts, date)
    ensures DayAttendance(users, att, acts, date)[(u, date)].status == Present
    ensures (u, date) in att ==> DayAttendance(users, att, acts, date)[(u, date)] == att[(u, date)].(status := Present)
    ensures u in DayUsers(users, att, acts, date)
    ensures DayUsers(users, att, acts, date)[u].consecutiveAbsences == 0
    ensures DayUsers(users, att, acts, date)[u].status == Active
    ensures DayUsers(users, att, acts, date)[u].pendingAbsenceReason == users[u].pendingAbsenceReason
  {
    assert (u, date) in DayKeys(ActiveUsers(users), date);
  }

  /** A founder ACTIVE at the start who posted nothing keeps an existing
      record of that day as it was (even LEAVE) or gets a new ABSENT one; the
      streak grows by one, a reason is asked for, and the founder is OUT
      exactly when the streak reaches three. */
  lemma MissedDay(users: map<UserId, User>, att: map<DayKey, Attendance>, acts: map<DayKey, Activity>,
                  date: string, u: UserId)
    requires u in users && users[u].status == Active && (u, date) !in acts
    ensures (u, date) in DayAttendance(users, att, acts, date)
    ensures DayAttendance(users, att, acts, date)[(u, date)]
      == if (u, date) in att then att[(u, date)] else NewAttendance(u, date, Absent)
    ensures u in DayUsers(users, att, acts, date)
    ensures DayUsers(users, att, acts, date)[u].consecutiveAbsences == users[u].consecutiveAbsences + 1
    ensures DayUsers(users, att, acts, date)[u].pendingAbsenceReason
    ensures DayUsers(users, att, acts, date)[u].status
      == if users[u].consecutiveAbsences + 1 >= OutThreshold then Out else Active
  {
    assert (u, date) in DayKeys(ActiveUsers(users), date);
  }

  /** Founders OUT or on LEAVE at the start are not examined: their records
      are untouched and only their score is recomputed. */
  lemma InactiveUntouched(users: map<UserId, User>, att: map<DayKey, Attendance>, acts: map<DayKey, Activity>,
                          date: string, u: UserId)
    requires u in users && users[u].status != Active
    ensures u in DayUsers(users, att, acts, date)
    ensures DayUsers(users, att, acts, date)[u]
      == users[u].(consistencyScore := DayUsers(users, att, acts, date)[u].consistencyScore)
    ensures forall k: DayKey :: k.0 == u ==> (k in DayAttendance(users, att, acts, date) <==> k in att)
    ensures forall k: DayKey :: k.0 == u && k in att ==> DayAttendance(users, att, acts, date)[k] == att[k]
  {
  }

  /** Records of other days are never touched, and no record is removed. */
  lemma OtherDaysUntouched(users: map<UserId, User>, att: map<DayKey, Attendance>, acts: map<DayKey, Activity>,
                           date: string)
    ensures att.Keys <= DayAttendance(users, att, acts, date).Keys
    ensures forall k: DayKey :: k.1 != date ==> (k in DayAttendance(users, att, acts, date) <==> k in att)
    ensures forall k: DayKey :: k.1 != date && k in att ==> DayAttendance(users, att, acts, date)[k] == att[k]
  {
  }

  /** After the run every founder with at least one record holds a score in
      [0, 100], the rounded share of PRESENT records; a founder without
      records keeps the old score; every founder examined has a record. */
  lemma ScoresInRange(users: map<UserId, User>, att: map<DayKey, Attendance>, acts: map<DayKey, Activity>,
                      date: string)
    ensures DayUsers(users, att, acts, date).Keys == users.Keys
    ensures forall u :: u in users && |RecordsOf(DayAttendance(users, att, acts, date), u)| > 0 ==>
      DayUsers(users, att, acts, date)[u].consistencyScore
        == RoundPercent(|PresentOf(DayAttendance(users, att, acts, date), u)|,
                        |RecordsOf(DayAttendance(users, att, acts, date), u)|)
    ensures forall u :: u in users && |RecordsOf(DayAttendance(users, att, acts, date), u)| > 0 ==>
      0 <= DayUsers(users, att, acts, date)[u].consistencyScore <= 100
    ensures forall u :: u in users && |RecordsOf(DayAttendance(users, att, acts, date), u)| == 0 ==>
      DayUsers(users, att, acts, date)[u].consistencyScore == users[u].consistencyScore
    ensures forall u :: u in users && users[u].status == Active ==>
      |RecordsOf(DayAttendance(users, att, acts, date), u)| > 0
  {
    var d := DayAttendance(users, att, acts, date);
    forall u | u in users && users[u].status == Active
      ensures |RecordsOf(d, u)| > 0
    {
      assert (u, date) in DayKeys(ActiveUsers(users), date);
      assert (u, date) in RecordsOf(d, u);
    }
  }

  /** The run is not idempotent: running it twice for the same day with no
      activity counts the missed day twice. */
  lemma RerunCountsTwice(users: map<UserId, User>, att: map<DayKey, Attendance>, acts: map<DayKey, Activity>,
                         date: string, u: UserId)
    requires u in users && users[u].status == Active && (u, date) !in acts
    requires users[u].consecutiveAbsences + 1 < OutThreshold
    ensures u in DayUsers(DayUsers(users, att, acts, date), DayAttendance(users, att, acts, date), acts, date)
    ensures DayUsers(DayUsers(users, att, acts, date), DayAttendance(users, att, acts, date), acts, date)[u]
      .consecutiveAbsences == users[u].consecutiveAbsences + 2
  {
    MissedDay(users, att, acts, date, u);
    MissedDay(DayUsers(users, att, acts, date), DayAttendance(users, att, acts, date), acts, date, u);
  }

  /** Three runs in a row with no activity put a founder with a clean streak OUT. */
  lemma ThreeMissedDaysOut(users: map<UserId, User>, att: map<DayKey, Attendance>, acts: map<DayKey, Activity>,
                           d1: string, d2: string, d3: string, u: UserId)
    requires u in users && users[u].status == Active && users[u].consecutiveAbsences == 0
    requires (u, d1) !in acts && (u, d2) !in acts && (u, d3) !in acts
    ensures var users1, att1 := DayUsers(users, att, acts, d1), DayAttendance(users, att, acts, d1);
            var users2, att2 := DayUsers(users1, att1, acts, d2), DayAttendance(users1, att1, acts, d2);
            u in DayUsers(users2, att2, acts, d3) && DayUsers(users2, att2, acts, d3)[u].status == Out
  {
    var users1, att1 := DayUsers(users, att, acts, d1), DayAttendance(users, att, acts, d1);
    MissedDay(users, att, acts, d1, u);
    var users2, att2 := DayUsers(users1, att1, acts, d2), DayAttendance(users1, att1, acts, d2);
    MissedDay(users1, att1, acts, d2, u);
    MissedDay(users2, att2, acts, d3, u);
  }
}
