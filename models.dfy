/** The User, Attendance, Activity, PasswordReset and Message documents: their
    fields, enumerations, defaults, the setters the schemas apply on assignment
    (`trim`, `lowercase`), and the uniqueness the schemas' indexes enforce. */
module Models {
  import opened Common
  import opened Text

  datatype UserStatus = Active | Out | Leave

  /** The stored enum string; the store sorts users by it. */
  function StatusName(s: UserStatus): string
  {
    match s
    case Active => "ACTIVE"
    case Out => "OUT"
    case Leave => "LEAVE"
  }

  /** A bcrypt hash, idealised: it records the secret it was made from, and
      `comparePassword` succeeds exactly for that secret. */
  datatype PasswordHash = Bcrypt(secret: string)

  function HashPassword(plain: string): PasswordHash
  {
    Bcrypt(plain)
  }

  predicate ComparePassword(candidate: string, stored: PasswordHash)
  {
    stored.secret == candidate
  }

  datatype User = User(
    name: string,
    email: string,
    password: PasswordHash,
    avatar: Option<string>,
    status: UserStatus,
    consistencyScore: int,
    consecutiveAbsences: nat,
    pendingAbsenceReason: bool)

  /** The `lowercase` and `trim` setters of the email path; Mongoose applies
      them on assignment and to query filters on that path alike. */
  function NormalizeEmail(email: string): string
  {
    Trim(ToLower(email))
  }

  /** `User.create({ name, email, password, status: 'ACTIVE' })`: setters,
      the pre-save hash, and the schema defaults for every other field. */
  function NewUser(name: string, email: string, password: string): User
  {
    User(Trim(name), NormalizeEmail(email), HashPassword(password), None, Active, 100, 0, false)
  }

  /** The schema's `required` validators, run on save after the setters. */
  predicate SavableUser(u: User)
  {
    u.name != [] && u.email != []
  }

  datatype AttendanceStatus = Present | Absent | Leave

  datatype Reason = Health | Personal | WorkConflict | Burnout | Other

  datatype Attendance = Attendance(
    user: UserId,
    date: string,
    status: AttendanceStatus,
    reason: Option<Reason>,
    reasonText: Option<string>)

  /** A record created with an explicit status: `reason` and `reasonText` take their null defaults. */
  function NewAttendance(user: UserId, date: string, status: AttendanceStatus): Attendance
  {
    Attendance(user, date, status, None, None)
  }

  /** The compound unique index (user, date) of attendance and activities is the store's key. */
  type DayKey = (UserId, string)

  datatype Activity = Activity(user: UserId, content: string, date: string)

  datatype PasswordReset = PasswordReset(
    user: UserId,
    code: string,
    email: string,
    userName: string,
    expiresAt: Time,
    used: bool)

  const ResetLifetime: Time := 24 * 60 * 60 * 1000

  /** A reset record with the schema defaults: it expires 24 hours after
      creation and is unused. */
  function NewPasswordReset(user: UserId, code: string, email: string, userName: string, now: Time): PasswordReset
  {
    PasswordReset(user, code, email, userName, now + ResetLifetime, false)
  }

  /** The filter `{ used: false, expiresAt: { $gt: now } }`. */
  predicate Usable(r: PasswordReset, now: Time)
  {
    !r.used && r.expiresAt > now
  }

  /** A chat message; its owner is stored under `sender`. */
  datatype Message = Message(sender: UserId, content: string)

  ghost predicate AttendanceKeyed(attendance: map<DayKey, Attendance>)
  {
    forall k :: k in attendance ==> attendance[k].user == k.0 && attendance[k].date == k.1
  }

  ghost predicate ActivitiesKeyed(activities: map<DayKey, Activity>)
  {
    forall k :: k in activities ==> activities[k].user == k.0 && activities[k].date == k.1
  }

  /** The unique index on `email`. */
  ghost predicate EmailsUnique(users: map<UserId, User>)
  {
    forall u, v :: u in users && v in users && u != v ==> users[u].email != users[v].email
  }

  /** The unique index on `code` is the reset store's key. */
  ghost predicate ResetsKeyed(resets: map<string, PasswordReset>)
  {
    forall c :: c in resets ==> resets[c].code == c
  }

  /** A hash matches exactly the secret it was made from. */
  lemma CompareHashed(candidate: string, plain: string)
    ensures ComparePassword(candidate, HashPassword(plain)) <==> candidate == plain
  {
  }

  /** Normalising a stored email again changes nothing: the setters are idempotent. */
  lemma NormalizeEmailIdempotent(email: string)
    ensures NormalizeEmail(NormalizeEmail(email)) == NormalizeEmail(email)
    ensures NormalizeEmail(email) == ToLower(Trim(email))
  {
    var x := ToLower(email);
    ToLowerMeaning(email);
    assert ToLower(x) == x;
    TrimToLower(x);
    TrimIdempotent(x);
    calc {
      NormalizeEmail(NormalizeEmail(email));
      Trim(ToLower(Trim(x)));
      { TrimToLower(x); }
      Trim(Trim(ToLower(x)));
      Trim(Trim(x));
      Trim(x);
    }
    TrimToLower(email);
  }

  /** The setters' postcondition: a stored name is trimmed, a stored email
      trimmed and lower-cased. */
  ghost predicate FieldsNormal(u: User)
  {
    Trim(u.name) == u.name && NormalizeEmail(u.email) == u.email
  }

  /** A new user is ACTIVE, scored 100, with no absences and nothing pending,
      its name trimmed and its email stored lower-cased and trimmed. */
  lemma NewUserDefaults(name: string, email: string, password: string)
    ensures NewUser(name, email, password).status == Active
    ensures NewUser(name, email, password).consistencyScore == 100
    ensures NewUser(name, email, password).consecutiveAbsences == 0
    ensures !NewUser(name, email, password).pendingAbsenceReason
    ensures NewUser(name, email, password).email == ToLower(Trim(email))
    ensures FieldsNormal(NewUser(name, email, password))
  {
    NormalizeEmailIdempotent(email);
    TrimIdempotent(name);
  }
}
