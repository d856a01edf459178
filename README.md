# Zevenz startup management — a verified model of the backend core

This project models, in Dafny, the server core of Zevenz: a small tool in
which a team of co-founders log a daily activity, are marked PRESENT or
ABSENT by a nightly attendance run, lose their ACTIVE status after three
missed days in a row, and get it back through a vote of the other ACTIVE
founders. The core also covers login and the founder-assisted password
reset, plans with tasks (progress, dead tasks, auto-completion), the
profile endpoints and the dashboard statistics.

The model is organised after the backend:

- `common.dfy`, `text.dfy`, `ordering.dfy`: shared vocabulary (`Option`,
  `Result`, HTTP failures), JavaScript's `trim` / `toLowerCase` /
  `toUpperCase`, the binary string order in which dates and names are
  sorted, the newest-first listing of `sort({ date: -1 }).limit(n)`, and the
  percentage rounding (`Math.round(part / total * 100)`).
- `models.dfy`, `plan_model.dfy`, `reactivation_model.dfy`: the Mongoose
  schemas, as datatypes with their defaults and setters. Plan and
  reactivation-request documents are loaded into small classes
  (`PlanDocument`, `RequestDocument`) whose methods (`checkAutoComplete`,
  `checkResolution`, the ballot update, `tasks.push`/`pull`) change them in
  place before they are saved back.
- `store.dfy`: the database as one mutable object `Db`, one field per
  collection. Its `Valid()` predicate joins two groups of facts. The
  `required` validators, unique indexes and ObjectIds enforce the first:
  required user fields and titles, unique emails, attendance and activities
  keyed by (founder, date), reset codes keyed by code, unique plan and task
  ids. No index enforces the second; the modelled handlers keep it: at most
  one PENDING request per founder (the pending check of `createRequest`),
  one ballot per voter (the find-or-push of `vote`), and a task credited
  exactly when DONE with a reason only when BLOCKED (`updateTask`). Every
  handler requires `Valid()`, so the model excludes stores that the paths
  it leaves out can produce: task fields a client passes to `createPlan`,
  and two `createRequest` calls racing past the pending check.
- `history.dfy`: a founder's attendance history, newest first.
- `attendance_cron.dfy`, `resync.dfy`: the nightly run
  (`processAttendance`, `recalculateConsistencyScores`) and the one-off
  streak resync script, as loops over the founders.
- `validation.dfy`: the request validators and sanitisers.
- One file per controller: activities, attendance, auth, profile, founders,
  plans, reactivation and the dashboard.

Each handler is a method on `Db`. Its contract gives the answer (an
`Ok` value, or an `Err` with the HTTP status and the message the handler
sends) and the new state of every collection.

The clock, today's date and the date windows derived from it are
parameters. So are fresh document ids, the random reset code and the random
temporary password. bcrypt is idealised: `Bcrypt(secret)` matches exactly
its own secret. The `requireActive` route guard becomes the precondition
`IsActiveCaller(db, caller)`. Where a handler calls `save()` on a document
that fails a `required` or `enum` validator, the model answers
`ServerError`, which is what the handler's catch block sends.

Two places where the code and its own comments or neighbours disagree are
followed as written:

- The dashboard counts a task as dead when `lastUpdated <= fiveDaysAgo`
  (dashboardController.js line 75). The plan's `deadTasksCount` virtual uses
  a strict `<` (Plan.js line 67). `DeadCountCoversVirtual` and
  `DeadCountsDisagreeAtCutoff` prove how the two counts relate for one
  shared cutoff, exactly five 24-hour days before `now`.
- `deleteAccount` purges chat messages with `Message.deleteMany({ user })`,
  but messages store their owner under `sender`. With Mongoose 7 or later
  the filter reaches the database as written (its `strictQuery` default is
  off) and matches no message, so `DeleteAccount` leaves the messages
  collection unchanged.

## Model

| member | source | states |
|---|---|---|
| Models.CompareHashed | backend/src/models/User.js:47-55 | the pre-save hash and `comparePassword` accept exactly the password that was set |
| Models.NormalizeEmailIdempotent | backend/src/models/User.js:10-16 | the email setters (lowercase, trim) are idempotent and amount to lower-casing the trimmed string |
| Models.NewUserDefaults | backend/src/models/User.js:30-41 | a new user is ACTIVE, scored 100, with no absences and nothing pending; the name is trimmed and the email trimmed and lower-cased |
| Text.TrimMeaning | backend/src/middleware/validation.js:19 | a string is blank exactly when all its characters are whitespace; a trimmed string neither starts nor ends with whitespace |
| Text.TrimIdempotent | backend/src/middleware/validation.js:19 | trimming twice is trimming once |
| Text.ToLowerMeaning | backend/src/middleware/validation.js:110 | lower-casing keeps the length and every non-letter, leaves no upper-case letter, and is idempotent |
| Text.ToUpperMeaning | backend/src/controllers/authController.js:122 | upper-casing keeps the length, leaves no lower-case letter, and is idempotent |
| Text.TrimToLower | backend/src/models/User.js:14-15 | lower-casing and trimming commute, so the order in which the two email setters run does not matter |
| Common.Lookup | backend/src/controllers/activityController.js:96-97 | `findOne` on a keyed collection finds a document exactly when the key is stored, and returns that document |
| Common.CountIfBound | backend/src/models/Plan.js:59 | a filtered count is at most the length; it equals the length exactly when every element passes, and is 0 exactly when none does |
| Common.CountIfPartition | backend/src/models/ReactivationRequest.js:37-43 | two filters that split every element between them count the whole sequence |
| Common.CountIfMonotone | backend/src/models/Plan.js:64-69 | a weaker filter keeps at least as many elements |
| Common.RoundPercent | backend/src/jobs/attendanceCron.js:106 | the result is the integer nearest to 100 * part / total, with halves rounded up |
| Common.RoundPercentBounds | backend/src/jobs/attendanceCron.js:105-108 | the percentage of a part of a whole lies in [0, 100]; it is 0 for an empty part and 100 for the whole |
| Ordering.NewestFirstOfMeaning | backend/src/controllers/attendanceController.js:14-16 | the newest-first listing holds every date once, in strictly descending order |
| Ordering.NewestFirst | backend/src/controllers/attendanceController.js:14-16 | the selection loop returns the `limit` latest dates, newest first |
| History.DatesOf | backend/src/controllers/attendanceController.js:14 | the dates of a founder's records are exactly the dates stored under that founder |
| History.RecordsNewestFirstStored | backend/src/controllers/attendanceController.js:14-16 | every listed record is the founder's stored record of its own date |
| History.RecordsNewestFirstDescending | backend/src/controllers/attendanceController.js:14-16 | dates strictly decrease along the listing |
| History.RecordsNewestFirstComplete | backend/src/controllers/attendanceController.js:14-16 | every stored record of the founder is listed |
| History.FindNewestFirst | backend/resyncAttendance.js:22-23 | the query returns the first `limit` records of the complete newest-first history |
| Store.FindByEmail | backend/src/controllers/authController.js:29 | `findOne({ email })` finds a user holding that email, or reports that none does |
| Common.IndexOf | backend/src/controllers/planController.js:90-98 | `Plan.findById` and `plan.tasks.id` find an element carrying that id, or report that none does |
| Store.ActiveUsers | backend/src/jobs/attendanceCron.js:24 | `find({ status: 'ACTIVE' })` returns exactly the ACTIVE users |
| Store.SaveUserKeepsValid | backend/src/models/User.js:10-16 | saving a user that passes the validators, under an email no other user holds, keeps emails unique |
| Store.UserUpdateKeepsValid | backend/src/models/User.js:4-41 | saving a user whose name and email are unchanged keeps the collection valid |
| Store.AppendPlanKeepsWellFormed | backend/src/models/Plan.js:30-54 | inserting a plan with a fresh id, a title and well-formed tasks keeps the plans well-formed |
| Store.PlanUpdateKeepsWellFormed | backend/src/models/Plan.js:30-54 | saving a plan over itself with a title and well-formed tasks keeps the plans well-formed |
| Store.RequestUpdateKeepsValid | backend/src/models/ReactivationRequest.js:16-34 | saving a request with the same requester, distinct voters and no return to PENDING keeps one pending request per founder and one ballot per voter |
| Store.Db.SetUsers | backend/src/models/User.js:4-41 | writing the users back keeps the store valid and changes no other collection |
| Store.Db.SetAttendance | backend/src/models/Attendance.js:32 | writing the attendance back keeps the store valid and changes no other collection |
| Store.Db.SetActivities | backend/src/models/Activity.js:23 | writing the activities back keeps the store valid and changes no other collection |
| Store.Db.SetPlans | backend/src/models/Plan.js:30-54 | writing the plans back keeps the store valid and changes no other collection |
| Store.Db.SetRequests | backend/src/models/ReactivationRequest.js:16-34 | writing the requests back keeps the store valid and changes no other collection |
| Store.Db.SetResets | backend/src/models/PasswordReset.js:9-13 | writing the reset codes back keeps the store valid and changes no other collection |
| PlanModel.NewTasks | backend/src/controllers/planController.js:18 | the tasks of a new plan are one new TODO task per given title, in order |
| PlanModel.NewTasksWellFormed | backend/src/models/Plan.js:3-28 | fresh distinct ids and non-blank titles make well-formed tasks |
| PlanModel.PushTaskWellFormed | backend/src/controllers/planController.js:72 | pushing a task with a fresh id and a title keeps the tasks well-formed |
| PlanModel.WithoutTaskMembers | backend/src/controllers/planController.js:142 | `tasks.pull(id)` keeps exactly the tasks whose id differs |
| PlanModel.WithoutTaskWellFormed | backend/src/controllers/planController.js:142 | pulling a task keeps the remaining tasks well-formed |
| PlanModel.WithoutAbsentTask | backend/src/controllers/planController.js:142 | pulling an id no task carries changes nothing |
| PlanModel.WithoutPresentTask | backend/src/controllers/planController.js:142 | with unique ids, pulling the id of the task at `k` removes exactly that task |
| PlanModel.Progress | backend/src/models/Plan.js:57-61 | progress is 0 for a plan without tasks and otherwise the rounded percentage of DONE tasks; it lies in [0, 100], is 100 when every task is DONE and 0 when none is |
| PlanModel.DeadTasksCount | backend/src/models/Plan.js:64-69 | the count is 0 exactly when no task is open and last updated strictly before the five-day cutoff, and is every task exactly when all are |
| PlanModel.DoneTasksAreNotDead | backend/src/models/Plan.js:67 | a plan whose tasks are all DONE has no dead task |
| PlanModel.DeadTasksAreOpen | backend/src/models/Plan.js:64-69 | dead tasks never outnumber the tasks that are not DONE |
| PlanModel.AutoCompletedMeaning | backend/src/models/Plan.js:72-76 | auto-completion never reverts a plan to PENDING; it leaves COMPLETED exactly when the plan already was or has tasks that are all DONE, which is also when progress is 100 |
| PlanModel.PlanDocument.Load | backend/src/controllers/planController.js:90 | the loaded document holds the stored plan |
| PlanModel.PlanDocument.PushTask | backend/src/controllers/planController.js:72 | the task is appended and nothing else changes |
| PlanModel.PlanDocument.SetTask | backend/src/controllers/planController.js:100-116 | the task at position `k` is replaced and nothing else changes |
| PlanModel.PlanDocument.PullTask | backend/src/controllers/planController.js:142 | the in-place loop leaves the tasks `WithoutTask` describes and nothing else changes |
| PlanModel.PlanDocument.CheckAutoComplete | backend/src/models/Plan.js:72-76 | the status becomes the auto-completed status and nothing else changes |
| ReactivationModel.TalliesPartition | backend/src/models/ReactivationRequest.js:37-43 | the YES and NO tallies add up to the ballots cast |
| ReactivationModel.Majority | backend/src/models/ReactivationRequest.js:51 | the majority is `ceil(n / 2)`: twice it lies between n and n + 1 |
| ReactivationModel.Decide | backend/src/models/ReactivationRequest.js:46-63 | a resolution is APPROVED or REJECTED, never PENDING |
| ReactivationModel.FullTurnoutResolves | backend/src/models/ReactivationRequest.js:51-60 | once the whole electorate has voted, the request is resolved |
| ReactivationModel.TieApproves | backend/src/models/ReactivationRequest.js:53-56 | a full-turnout tie in an even electorate approves, because YES is checked first |
| ReactivationModel.NoDoubleMajority | backend/src/models/ReactivationRequest.js:53-60 | both tallies reach the majority only in a full-turnout tie, so the test order matters only then |
| ReactivationModel.EmptyElectorateApproves | backend/src/models/ReactivationRequest.js:51-56 | with nobody else ACTIVE, the majority is 0 and any vote approves |
| ReactivationModel.PutVoteMeaning | backend/src/controllers/reactivationController.js:88-96 | after the upsert the voter's ballot is the new choice, other ballots are untouched, the list grows only for a first vote, and no voter holds two ballots |
| ReactivationModel.RequestDocument.Load | backend/src/controllers/reactivationController.js:77 | the loaded document holds the stored request |
| ReactivationModel.RequestDocument.CastVote | backend/src/controllers/reactivationController.js:88-96 | the in-place loop updates the voter's existing ballot or pushes a new one, as `PutVote` says, and nothing else changes |
| ReactivationModel.RequestDocument.CheckResolution | backend/src/models/ReactivationRequest.js:46-63 | a request that is no longer PENDING is untouched and unresolved; a PENDING one takes the majority rule's outcome, recorded with the resolution time |
| AttendanceCron.MarkDay | backend/src/jobs/attendanceCron.js:39-67 | with an activity the day's record is PRESENT (an existing one keeps its reason); without one an existing record is left as it was, otherwise a new ABSENT record is created |
| AttendanceCron.TallyUser | backend/src/jobs/attendanceCron.js:52-79 | an activity resets the streak; a missed day adds one to it, flags a pending reason, and makes the founder OUT at three |
| AttendanceCron.DayKeys | backend/src/jobs/attendanceCron.js:26-31 | the keys examined are exactly (founder, date) for the founders handled |
| AttendanceCron.PresentOf | backend/src/jobs/attendanceCron.js:99-103 | the PRESENT records are among the founder's records |
| AttendanceCron.Rescore | backend/src/jobs/attendanceCron.js:105-108 | only the score changes; a founder without records keeps the old one, otherwise it is the rounded percentage of PRESENT records, in [0, 100] |
| AttendanceCron.RecalculateConsistencyScores | backend/src/jobs/attendanceCron.js:95-110 | the loop rescores every founder, whatever the status, and changes nothing else |
| AttendanceCron.MarkFounder | backend/src/jobs/attendanceCron.js:28-79 | one founder's record for the day and streak are updated as `MarkDay` and `TallyUser` say |
| AttendanceCron.MarkActive | backend/src/jobs/attendanceCron.js:26-83 | the loop over the founders ACTIVE at the start leaves the marked attendance and users, and keeps the store's keys and unique emails |
| AttendanceCron.ProcessAttendance | backend/src/jobs/attendanceCron.js:19-92 | the run leaves exactly the attendance and users that the per-founder marking, followed by rescoring, describe |
| AttendanceCron.PostedDayIsPresent | backend/src/jobs/attendanceCron.js:39-56 | an ACTIVE founder who posted ends the day with a PRESENT record, a zero streak and an unchanged status |
| AttendanceCron.MissedDay | backend/src/jobs/attendanceCron.js:58-79 | an ACTIVE founder who posted nothing keeps an existing record (even LEAVE) or gets an ABSENT one; the streak grows by one, a reason is asked for, and the founder is OUT exactly when the streak reaches three |
| AttendanceCron.InactiveUntouched | backend/src/jobs/attendanceCron.js:24 | founders OUT or on LEAVE at the start keep their records and every field except the score |
| AttendanceCron.OtherDaysUntouched | backend/src/jobs/attendanceCron.js:26-83 | no record is removed and no record of another day changes |
| AttendanceCron.ScoresInRange | backend/src/jobs/attendanceCron.js:95-110 | after the run every founder with a record has the rounded percentage of PRESENT records as score, in [0, 100]; one without keeps the old score; every founder examined has a record |
| AttendanceCron.RerunCountsTwice | backend/src/jobs/attendanceCron.js:58-71 | running the same day twice without an activity counts the missed day twice: the run is not idempotent |
| AttendanceCron.ThreeMissedDaysOut | backend/src/jobs/attendanceCron.js:75-79 | three runs in a row without an activity put a founder with a clean streak OUT |
| Resync.LeadingAbsences | backend/resyncAttendance.js:26-34 | the run is a prefix of ABSENT statuses followed by the end or by another status |
| Resync.LeadingAbsencesMeaning | backend/resyncAttendance.js:26-34 | the run spans the whole history exactly when every record is ABSENT, and is empty when the latest record is not ABSENT |
| Resync.CountLeadingAbsences | backend/resyncAttendance.js:26-34 | the counting loop with its `break` returns the leading ABSENT run |
| Resync.StreakIsLeadingRun | backend/resyncAttendance.js:26-34 | any ABSENT prefix that stops at the end or at another status is the leading run |
| Resync.ResyncIdempotent | backend/resyncAttendance.js:20-45 | a second resync changes nothing |
| Resync.RecomputedStreakBounds | backend/resyncAttendance.js:22-34 | the streak is at most the number of records and equals it exactly when every record is ABSENT |
| Resync.RecomputeStreak | backend/resyncAttendance.js:22-34 | one founder's history is read newest first and its leading ABSENT run counted |
| Resync.ResyncConsecutiveAbsences | backend/resyncAttendance.js:20-45 | every founder's streak is recomputed and nothing else changes |
| Validation.IsValidEmailMatchesPattern | backend/src/middleware/validation.js:4-7 | the index test accepts exactly the language of `/^[^\s@]+@[^\s@]+\.[^\s@]+$/` |
| Validation.ValidEmailHasOneAt | backend/src/middleware/validation.js:4-7 | a valid email has exactly one '@' and no whitespace |
| Validation.StripScripts | backend/src/middleware/validation.js:20 | script removal never lengthens the string or adds a character, and leaves a string without '<' alone |
| Validation.StripTags | backend/src/middleware/validation.js:21 | tag removal leaves no '<' followed by a '>', adds no character, and leaves a string without '<' alone |
| Validation.SanitizeStringMeaning | backend/src/middleware/validation.js:16-22 | a sanitised string holds no tag and only characters of its input; a string without '<' is only trimmed |
| Validation.SanitizeValue | backend/src/middleware/validation.js:17 | a value that is not a string is returned unchanged, and a string comes back without tags |
| Validation.SanitizedBodyFrame | backend/src/middleware/validation.js:115-124 | sanitising keeps the body's keys and touches neither unlisted fields nor non-string values |
| Validation.SanitizedBodyCleans | backend/src/middleware/validation.js:115-124 | every listed field holding a non-empty string comes back as a string without tags |
| Validation.SanitizeBody | backend/src/middleware/validation.js:115-124 | the middleware loop rewrites the body as `SanitizedBody` describes |
| Validation.KeepAlnum | backend/src/middleware/validation.js:72 | only ASCII letters and digits remain, and a code made only of them is unchanged |
| Validation.NormalizeResetCodeMeaning | backend/src/middleware/validation.js:72 | a normalised code holds only A-Z and 0-9, and normalising it again changes nothing |
| Validation.ValidateLogin | backend/src/middleware/validation.js:25-41 | the request passes exactly when both fields are present and the email is valid; the email then passes on as the sanitised lower-cased input, hence without tags or upper-case letters, the password untouched |
| Validation.ValidateResetRequest | backend/src/middleware/validation.js:44-57 | the request passes exactly when the email is present and valid; it passes on as the sanitised lower-cased input, hence without tags or upper-case letters |
| Validation.ValidatePasswordReset | backend/src/middleware/validation.js:60-75 | the request passes exactly when the code is present and the password has at least six characters; the code passes on normalised |
| Validation.ValidateActivity | backend/src/middleware/validation.js:78-91 | content passes exactly when present, not blank and at most 5000 characters; it passes on as the sanitised input, hence without tags and at most 5000 characters long |
| Validation.ValidateCredentials | backend/src/middleware/validation.js:94-112 | the request passes exactly when both fields are present, the email is valid and the name has 2 to 100 characters; both pass on sanitised, the email lower-cased first, hence without tags |
| ActivityController.CheckContent | backend/src/controllers/activityController.js:17-19 | content is accepted exactly when present and not blank; the stored content is the trimmed content, otherwise the answer is 400 |
| ActivityController.GetTodayActivity | backend/src/controllers/activityController.js:93-101 | the founder's activity of the day is found exactly when one is stored |
| ActivityController.PostedRecord | backend/src/controllers/activityController.js:38-42 | the day's record becomes PRESENT: the existing one (whatever its status, LEAVE included) with its reason kept, or a new one |
| ActivityController.RecordPost | backend/src/controllers/activityController.js:22-46 | the activity is upserted, the day's record made PRESENT and the streak reset; nothing else changes |
| ActivityController.CreateActivity | backend/src/controllers/activityController.js:12-52 | blank content is refused and changes nothing; otherwise the activity is stored and is today's activity, the day is PRESENT and the streak is 0 |
| AttendanceController.GetMyAttendance | backend/src/controllers/attendanceController.js:12-21 | at most 30 records, the founder's latest, newest first |
| AttendanceController.RequestLeave | backend/src/controllers/attendanceController.js:85-99 | the upsert leaves one LEAVE record for the day, whatever was stored before; a given reason field is stored, an omitted one keeps the stored value or the null default; nothing else changes |
| AttendanceController.SubmitAbsenceReason | backend/src/controllers/attendanceController.js:60-80 | a missing record is not found and nothing changes; otherwise only the given reason fields change (omitted ones keep their values), never the status, and the pending-reason flag is cleared |
| AttendanceController.StatusCountsPartition | backend/src/controllers/attendanceController.js:110-124 | the PRESENT, ABSENT and LEAVE counts add up to the number of records |
| AttendanceController.StatsOf | backend/src/controllers/attendanceController.js:110-124 | the three counts add up to the total, and every day is present exactly when all records are PRESENT |
| AttendanceController.Since | backend/src/controllers/attendanceController.js:110-113 | the `$gte` filter keeps exactly the records dated on or after the start |
| AttendanceController.SinceDescending | backend/src/controllers/attendanceController.js:110-113 | filtering keeps a descending listing descending |
| AttendanceController.RecordsSinceStored | backend/src/controllers/attendanceController.js:110-113 | every counted record is the founder's stored record of its date, dated on or after the start |
| AttendanceController.RecordsSinceAscending | backend/src/controllers/attendanceController.js:110-113 | the counted records come in strictly ascending date order |
| AttendanceController.RecordsSinceComplete | backend/src/controllers/attendanceController.js:110-113 | every stored record of the founder dated on or after the start is counted |
| AttendanceController.GetAttendanceStats | backend/src/controllers/attendanceController.js:104-129 | the statistics are those of the founder's records since the start |
| AttendanceController.ParseIntBlank | backend/src/controllers/attendanceController.js:28 | `parseInt` of a missing-looking (blank) parameter is NaN |
| AttendanceController.ParseIntDecimal | backend/src/controllers/attendanceController.js:28 | `parseInt` of a string of decimal digits is its value |
| AttendanceController.TeamDays | backend/src/controllers/attendanceController.js:28 | `parseInt(days) || 30`: a missing, non-numeric or zero parameter gives 30, otherwise the parsed number |
| AttendanceController.GroupTeamAttendance | backend/src/controllers/attendanceController.js:43-49 | every cell of the grid is the stored record of that founder and day, and every record from the start date on has a cell |
| AuthController.Login | backend/src/controllers/authController.js:21-49 | missing fields give 400; login succeeds exactly when some user holds the normalised email with that password; an unknown email and a wrong password both give 401 |
| AuthController.GeneratedCodeIsNormal | backend/src/controllers/authController.js:14-16 | a generated code survives the validator's normalisation and the handler's upper-casing unchanged |
| AuthController.WithoutResetsOf | backend/src/controllers/authController.js:81 | `deleteMany({ user })` keeps exactly the other users' codes |
| AuthController.ReissueKeepsKeyed | backend/src/controllers/authController.js:80-92 | deleting a user's codes and storing a new one keeps codes unique and leaves that user only the new code |
| AuthController.RequestPasswordReset | backend/src/controllers/authController.js:66-103 | a missing email gives 400 and an unknown one 404, both changing nothing; otherwise the user's old codes go and the new one, valid for 24 hours, is their only code |
| AuthController.RedeemableReset | backend/src/controllers/authController.js:121-125 | a code is redeemable exactly when its upper-cased form is stored, unused and unexpired |
| AuthController.ResetPassword | backend/src/controllers/authController.js:108-154 | missing fields or a short password give 400; an unusable code gives 400, a vanished user 404, and no error changes anything; otherwise the password is replaced and the code cannot be redeemed again |
| AuthController.GetPendingResets | backend/src/controllers/authController.js:159-170 | exactly the codes that are unused and unexpired at `now` |
| AuthController.ExpireResets | backend/src/models/PasswordReset.js:36 | the TTL index drops exactly the expired codes, and never a redeemable one |
| ProfileController.ProfileEdited | backend/src/controllers/profileController.js:27-37 | each provided field is assigned through the setters, and every other field is kept |
| ProfileController.FindOtherByEmail | backend/src/controllers/profileController.js:30-33 | the lookup reports exactly whether another user holds the email |
| ProfileController.UpdateProfile | backend/src/controllers/profileController.js:22-43 | an email held by another founder gives 400 and a field the setters leave empty gives 500, neither changing anything; otherwise the edited user is saved |
| ProfileController.ChangePassword | backend/src/controllers/profileController.js:48-71 | a wrong current password is checked before the new one's length; the password changes exactly when both pass, and the new one then matches |
| ProfileController.UploadAvatar | backend/src/controllers/profileController.js:76-92 | a missing avatar gives 400 and changes nothing; otherwise it replaces the stored one and is echoed back |
| ProfileController.WithoutUser | backend/src/controllers/profileController.js:109-110 | `deleteMany({ user })` keeps exactly the documents of other founders |
| ProfileController.DeleteAccount | backend/src/controllers/profileController.js:97-122 | a wrong password deletes nothing; otherwise the founder's user document, activities and attendance go, everyone else's stay, and messages, plans, requests and codes are untouched |
| FoundersController.GenerateCredentials | backend/src/controllers/foundersController.js:39-80 | missing fields and a taken email give 400; otherwise an ACTIVE founder is created whose returned credentials log in |
| FoundersController.ListedBeforeTotal | backend/src/controllers/foundersController.js:9-11 | of any two founders, one may be listed before the other |
| FoundersController.ListedBeforeTransitive | backend/src/controllers/foundersController.js:9-11 | the listing order is transitive |
| FoundersController.InsertFounder | backend/src/controllers/foundersController.js:9-11 | insertion adds the founder once and keeps every other entry |
| FoundersController.InsertFounderOrdered | backend/src/controllers/foundersController.js:9-11 | inserting into an ordered list keeps it ordered |
| FoundersController.GetFounders | backend/src/controllers/foundersController.js:7-16 | every founder is listed once, ordered by status and then by name |
| PlanController.ParseTaskStatus | backend/src/models/Plan.js:3-28 | exactly the three enum strings are accepted, each as its own status |
| PlanController.ParseBlockedReason | backend/src/models/Plan.js:3-28 | exactly the three enum strings are accepted |
| PlanController.ReadTaskPatch | backend/src/controllers/planController.js:100-116 | a status is applied only when truthy, a reason only with BLOCKED; a value outside its enum fails on save (500) |
| PlanController.ApplyTaskPatchMeaning | backend/src/controllers/planController.js:100-116 | a status change sets the status and the stamp and credits the caller exactly when the task becomes DONE; without one, the status, stamp and credit stay; a reason is kept only for BLOCKED |
| PlanController.ApplyTaskPatchKeepsBookkeeping | backend/src/controllers/planController.js:100-116 | after any update a task is credited exactly when DONE and has a reason only when BLOCKED |
| PlanController.DeletingLastOpenTaskCompletes | backend/src/controllers/planController.js:142-143 | deleting the only unfinished task of a plan with other tasks completes the plan |
| PlanController.NewPlan | backend/src/controllers/planController.js:10-19 | the plan is created, PENDING and trimmed, exactly when the title and every task title are non-blank; otherwise a 500 |
| PlanController.CreatePlan | backend/src/controllers/planController.js:6-26 | a falsy title gives 400; otherwise `NewPlan`'s plan is appended, or nothing changes when it fails |
| PlanController.AddTask | backend/src/controllers/planController.js:63-80 | a missing plan gives 404 and a blank title 500, neither changing anything; otherwise the task is appended and nothing else in the plan changes |
| PlanController.UpdateTask | backend/src/controllers/planController.js:85-128 | a missing plan or task gives 404 and a value outside its enum 500; otherwise the task is patched and the plan auto-completed |
| PlanController.DeleteTask | backend/src/controllers/planController.js:133-151 | only a missing plan is an error (404); every task with the id is pulled and the plan auto-completed |
| ReactivationController.FindPending | backend/src/controllers/reactivationController.js:46-49 | the founder's PENDING request is found, or none exists |
| ReactivationController.GetMyRequest | backend/src/controllers/reactivationController.js:22-33 | the caller's PENDING request, or null exactly when there is none |
| ReactivationController.CreateRequest | backend/src/controllers/reactivationController.js:38-64 | only an OUT founder without a pending request opens one, PENDING with no votes; any refusal changes nothing |
| ReactivationController.ParseVote | backend/src/controllers/reactivationController.js:73-75 | exactly "YES" and "NO" are votes |
| ReactivationController.Electorate | backend/src/controllers/reactivationController.js:99-102 | the electorate is the ACTIVE founders other than the requester: one fewer than the ACTIVE founders when the requester is ACTIVE, all of them otherwise |
| ReactivationController.VotedMeaning | backend/src/controllers/reactivationController.js:88-105 | a vote records the voter's ballot once and leaves the others alone; it approves exactly when YES reaches the majority, rejects exactly when only NO does, and otherwise leaves the request PENDING |
| ReactivationController.Reactivated | backend/src/controllers/reactivationController.js:107-112 | the requester becomes ACTIVE with a zero streak, and every other founder is unchanged |
| ReactivationController.CastAndResolve | backend/src/controllers/reactivationController.js:88-105 | the in-place update and `checkResolution` give the request and resolution `Voted` describes |
| ReactivationController.Vote | backend/src/controllers/reactivationController.js:69-123 | a bad vote gives 400, a missing request 404 and a resolved request 400, none changing anything; otherwise the ballot is saved and an approval reactivates the requester |
| DashboardController.TasksDone | backend/src/controllers/dashboardController.js:49-56 | the nested loops count the tasks of all plans credited to the founder |
| DashboardController.DeadTaskCount | backend/src/controllers/dashboardController.js:69-79 | the nested loops count the open tasks last updated at or before the five-day cutoff |
| DashboardController.DeadCountCoversVirtual | backend/src/controllers/dashboardController.js:75 | for one shared cutoff the dashboard never counts fewer dead tasks than the plans' virtuals add up to, and counts the same unless an open task sits exactly at the cutoff |
| DashboardController.DeadCountsDisagreeAtCutoff | backend/src/models/Plan.js:67 | a task updated exactly five days ago is dead on the dashboard but not in the plan's own count |
| DashboardController.ActivityCount | backend/src/controllers/dashboardController.js:46 | the count is 0 exactly when the founder has no activity |
| DashboardController.TotalTasksDoneCounts | backend/src/controllers/dashboardController.js:44-66 | over distinct founders, the `tasksDone` figures add up to the tasks credited to any of them, so no task is counted twice |
| DashboardController.TotalTasksDoneBound | backend/src/controllers/dashboardController.js:44-66 | the `tasksDone` figures never add up to more than the number of tasks |
| DashboardController.ContributionData | backend/src/controllers/dashboardController.js:41-66 | one correct row per founder, each founder once, with the task total bounded by the number of tasks |
| DashboardController.DaysUpToMembers | backend/src/controllers/dashboardController.js:29-30 | the strip keeps exactly the window's dates up to today |
| DashboardController.DaysUpToAscending | backend/src/controllers/dashboardController.js:24-30 | the strip's dates stay in ascending order |
| DashboardController.EntriesMeaning | backend/src/controllers/dashboardController.js:32-37 | one entry per day, marked present exactly when the caller posted on it |
| DashboardController.AttendanceTrend | backend/src/controllers/dashboardController.js:15-38 | the loop skips dates after today and marks each other date present exactly when the caller posted on it |
| DashboardController.GetStats | backend/src/controllers/dashboardController.js:8-89 | the strip, the contributions and the dead-task count as above, with the dead count at least the plans' virtuals |
| DashboardController.CompletedInMeaning | backend/src/controllers/dashboardController.js:111-118 | a plan lists exactly one entry per task credited to the founder, under that plan's title |
| DashboardController.CompletedAcrossCount | backend/src/controllers/dashboardController.js:107-120 | the contributions page lists as many tasks as the dashboard's `tasksDone` counts |
| DashboardController.CompletedTasks | backend/src/controllers/dashboardController.js:107-120 | the nested loops push the credited tasks in plan order, then task order |
| DashboardController.LatestActivitiesMeaning | backend/src/controllers/dashboardController.js:102-104 | the listed activities are the founder's own, strictly newest first, and all of them when there are no more than ten |
| DashboardController.RecentActivities | backend/src/controllers/dashboardController.js:102-104 | the query returns the ten latest activities, newest first |
| DashboardController.GetFounderContributions | backend/src/controllers/dashboardController.js:94-135 | an unknown founder gives 404; otherwise the founder's fields, ten latest activities and every credited task |

## Left out

- Endpoints outside the modelled core: listing activities (`getMyActivities`, `getAllActivities`), reactivation listings (`getRequests`), plan listings (`getAllPlans`, `getPlan`), `getMe`, founder profiles and the chat controller.
- The HTTP layer, JWT issuing and checking, the `protect` middleware, and the cron scheduler (`initAttendanceCron`). The `requireActive` guard is a precondition.
- Clock and date arithmetic. Today, yesterday, the 30-day start and the dashboard's 30-date window are parameters. The five-day cutoff is modelled as exactly five 24-hour days before `now`, the plan virtual's arithmetic (Plan.js line 65). The dashboard steps back five calendar days in local time (`setDate(getDate() - 5)`), which differs by an hour across a daylight-saving change, so `DeadCountCoversVirtual` holds for a clock without daylight saving (such as UTC). The weekday label (`toLocaleDateString`) and time zones are not modelled.
- bcrypt internals: a hash is modelled as the secret it was made from. The pre-save hook's "hash only if modified" test is folded into the methods that set a password.
- The random reset code and temporary password (parameters) and fresh ObjectIds (parameters). Ids are compared as values rather than as `toString()` results.
- Text.ToLower: case mapping covers ASCII letters only; Unicode case mapping is not modelled, and string length counts characters, not UTF-16 code units.
- Common.RoundPercent: uses exact integer rounding, halves up. `Math.round` over floating point can differ at ratios whose exact value is a half but whose floating-point product is not.
- AttendanceController.TeamDays: `parseInt` is modelled for decimal and `0x` numerals with unbounded integers. Floating-point precision loss for very long numerals is not modelled.
- The `enum` validators on attendance status and reason strings: callers pass values of the datatypes. Non-string JSON values in request bodies are modelled only in `SanitizeValue`.
- Concurrency: two requests racing on the unique indexes, and the `Promise.all` in `getStats`. Handlers run one at a time. `ContributionData` leaves the order of rows to the store.
- The delay of the MongoDB TTL monitor: `ExpireResets` removes expired codes at once.
- FoundersController.GetFounders: founders with equal status and name may come in either order, as the store leaves them.
- PlanController.NewPlan: tasks in the `createPlan` body are modelled as their titles; other task fields given by a client are not modelled.
- ProfileController.DeleteAccount: the chat purge is modelled as written under Mongoose 7 or later, where it removes no message because messages have no `user` field. Under Mongoose 6, whose `strictQuery` default strips the unknown `user` key, the purge would become `deleteMany({})` and delete every message; that version is not modelled.
- Mongoose version: the project's `package.json` is not part of this model; Mongoose 7 or later is assumed. Keys left undefined in an update document are dropped (so `AttendanceController.RequestLeave` and `AttendanceController.SubmitAbsenceReason` keep a stored reason the body leaves out), and query filters are not stripped of unknown keys.
- AttendanceCron.ProcessAttendance: an exception thrown part-way through the run (which the source logs and abandons) is not modelled; the run completes.
- Console logging and the resync script's process exit.
