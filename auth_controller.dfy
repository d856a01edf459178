/** Login and the founder-assisted password reset: a founder asks for a
    reset code, another founder redeems it with a new password. */
module AuthController {
  import opened Common
  import opened Text
  import opened Models
  import opened Store
  import Validation

  const MsgProvideCredentials: string := "Please provide email and password"
  const MsgInvalidCredentials: string := "Invalid email or password"
  const MsgProvideEmail: string := "Please provide your email"
  const MsgNoAccount: string := "No account found with this email"
  const MsgProvideResetFields: string := "Please provide reset code and new password"
  const MsgPasswordShort: string := "Password must be at least 6 characters"
  const MsgInvalidCode: string := "Invalid or expired reset code"
  const MsgUserNotFound: string := "User not found"

  /** Some user is stored under `email` with password `password`. */
  ghost predicate HasAccount(users: map<UserId, User>, email: string, password: string)
  {
    exists u :: u in users && users[u].email == email && ComparePassword(password, users[u].password)
  }

  /** `login`. Missing fields are refused first; an unknown email and a wrong
      password get the same answer. The token is not modelled: the result is
      the logged-in user. */
  method Login(db: Db, email: Option<string>, password: Option<string>) returns (r: Result<UserId>)
    requires db.Valid()
    ensures !Truthy(email) || !Truthy(password) ==> r == Err(Failure(400, MsgProvideCredentials))
    ensures Truthy(email) && Truthy(password) && r.Err? ==> r.failure == Failure(401, MsgInvalidCredentials)
    ensures r.Ok? <==> Truthy(email) && Truthy(password) && HasAccount(db.users, NormalizeEmail(email.value), password.value)
    ensures r.Ok? ==> r.value in db.users && db.users[r.value].email == NormalizeEmail(email.value)
    ensures r.Ok? ==> ComparePassword(password.value, db.users[r.value].password)
  {
    if !Truthy(email) || !Truthy(password) {
      return Err(Failure(400, MsgProvideCredentials));
    }
    var found := FindByEmail(db.users, NormalizeEmail(email.value));
    if found.None? || !ComparePassword(password.value, db.users[found.value].password) {
      return Err(Failure(401, MsgInvalidCredentials));
    }
    r := Ok(found.value);
  }

  /** The shape of `generateResetCode`: four random bytes in upper-case hex. */
  predicate IsGeneratedCode(code: string)
  {
    |code| == 8 && forall i :: 0 <= i < |code| ==> '0' <= code[i] <= '9' || 'A' <= code[i] <= 'F'
  }

  /** A generated code is what the reset validator's normalisation and the
      handler's upper-casing produce from it: handing it back unchanged redeems it. */
  lemma GeneratedCodeIsNormal(code: string)
    requires IsGeneratedCode(code)
    ensures Validation.NormalizeResetCode(code) == code
    ensures ToUpper(code) == code
  {
    assert forall i :: 0 <= i < |code| ==> Validation.IsAsciiAlnum(code[i]);
    assert Validation.KeepAlnum(code) == code;
  }

  /** `PasswordReset.deleteMany({ user })`. */
  function WithoutResetsOf(resets: map<string, PasswordReset>, user: UserId): (r: map<string, PasswordReset>)
    ensures forall c :: c in r <==> c in resets && resets[c].user != user
    ensures forall c :: c in r ==> r[c] == resets[c]
  {
    map c | c in resets && resets[c].user != user :: resets[c]
  }

  /** Deleting a user's codes and storing a new one for them keeps the store
      keyed by code and leaves that user exactly the new code. */
  lemma ReissueKeepsKeyed(resets: map<string, PasswordReset>, user: UserId, reset: PasswordReset)
    requires ResetsKeyed(resets) && reset.user == user
    ensures ResetsKeyed(WithoutResetsOf(resets, user))
    ensures ResetsKeyed(WithoutResetsOf(resets, user)[reset.code := reset])
    ensures var m := WithoutResetsOf(resets, user)[reset.code := reset];
      forall c :: c in m && m[c].user == user ==> c == reset.code
  {
  }

  /** `requestPasswordReset` with the generated `code`. A missing email is
      refused, an unknown one not found. Otherwise the user's earlier codes
      are deleted and the new one stored; a code already held by another user
      breaks the unique index (500) after the deletion. */
  method RequestPasswordReset(db: Db, email: Option<string>, code: string, now: Time) returns (r: Result<PasswordReset>)
    requires db.Valid() && IsGeneratedCode(code)
    modifies db
    ensures db.Valid()
    ensures !Truthy(email) ==> r == Err(Failure(400, MsgProvideEmail)) && unchanged(db)
    ensures Truthy(email) && (forall u :: u in old(db.users) ==> old(db.users)[u].email != NormalizeEmail(email.value))
      ==> r == Err(Failure(404, MsgNoAccount)) && unchanged(db)
    ensures r.Err? && r.failure.status == 500 ==> r.failure == ServerError && Truthy(email)
    ensures r.Err? && r.failure.status == 500 ==> exists u :: (u in old(db.users)
      && old(db.users)[u].email == NormalizeEmail(email.value)
      && code in WithoutResetsOf(old(db.resets), u) && db.resets == WithoutResetsOf(old(db.resets), u))
    ensures r.Err? ==> r.failure.status in {400, 404, 500}
    ensures r.Ok? ==> Truthy(email) && r.value.user in old(db.users)
    ensures r.Ok? ==> old(db.users)[r.value.user].email == NormalizeEmail(email.value)
    ensures r.Ok? ==> r.value == NewPasswordReset(r.value.user, code, old(db.users)[r.value.user].email,
                                                  old(db.users)[r.value.user].name, now)
    ensures r.Ok? ==> db.resets == WithoutResetsOf(old(db.resets), r.value.user)[code := r.value]
    ensures r.Ok? ==> forall c :: c in db.resets && db.resets[c].user == r.value.user ==> c == code
    ensures unchanged(db`users, db`activities, db`attendance, db`plans, db`requests, db`messages)
  {
    if !Truthy(email) {
      return Err(Failure(400, MsgProvideEmail));
    }
    var found := FindByEmail(db.users, NormalizeEmail(email.value));
    if found.None? {
      return Err(Failure(404, MsgNoAccount));
    }
    var uid := found.value;
    var user := db.users[uid];
    var reset := NewPasswordReset(uid, code, user.email, user.name, now);
    var kept := WithoutResetsOf(db.resets, uid);
    ReissueKeepsKeyed(db.resets, uid, reset);
    db.SetResets(kept);
    if code in kept {
      return Err(ServerError);
    }
    db.SetResets(kept[code := reset]);
    r := Ok(reset);
  }

  /** The reset record a code redeems at `now`: stored under the upper-cased
      code, unused and unexpired. */
  function RedeemableReset(resets: map<string, PasswordReset>, code: string, now: Time): (r: Option<PasswordReset>)
    ensures r.Some? <==> ToUpper(code) in resets && Usable(resets[ToUpper(code)], now)
    ensures r.Some? ==> r.value == resets[ToUpper(code)]
  {
    var c := ToUpper(code);
    if c in resets && Usable(resets[c], now) then Some(resets[c]) else None
  }

  /** `resetPassword`, for a logged-in founder. Missing fields and a short
      password are refused before any lookup; a code that is unknown, used or
      expired is refused; then the code's user gets the new password and the
      code is spent, so it cannot be redeemed again. */
  method ResetPassword(db: Db, code: Option<string>, newPassword: Option<string>, now: Time) returns (r: Result<UserId>)
    requires db.Valid()
    modifies db
    ensures db.Valid()
    ensures !Truthy(code) || !Truthy(newPassword) ==> r == Err(Failure(400, MsgProvideResetFields))
    ensures Truthy(code) && Truthy(newPassword) && |newPassword.value| < 6 ==> r == Err(Failure(400, MsgPasswordShort))
    ensures (Truthy(code) && Truthy(newPassword) && |newPassword.value| >= 6
             && RedeemableReset(old(db.resets), code.value, now).None?)
            ==> r == Err(Failure(400, MsgInvalidCode))
    ensures (Truthy(code) && Truthy(newPassword) && |newPassword.value| >= 6
             && RedeemableReset(old(db.resets), code.value, now).Some?
             && RedeemableReset(old(db.resets), code.value, now).value.user !in old(db.users))
            ==> r == Err(Failure(404, MsgUserNotFound))
    ensures r.Ok? <==> (Truthy(code) && Truthy(newPassword) && |newPassword.value| >= 6
                        && RedeemableReset(old(db.resets), code.value, now).Some?
                        && RedeemableReset(old(db.resets), code.value, now).value.user in old(db.users))
    ensures r.Err? ==> unchanged(db)
    ensures r.Ok? ==> var c := ToUpper(code.value);
      r.value == old(db.resets)[c].user
      && db.users == old(db.users)[r.value := old(db.users)[r.value].(password := HashPassword(newPassword.value))]
      && db.resets == old(db.resets)[c := old(db.resets)[c].(used := true)]
    ensures r.Ok? ==> forall t :: RedeemableReset(db.resets, code.value, t).None?
    ensures unchanged(db`activities, db`attendance, db`plans, db`requests, db`messages)
  {
    if !Truthy(code) || !Truthy(newPassword) {
      return Err(Failure(400, MsgProvideResetFields));
    }
    if |newPassword.value| < 6 {
      return Err(Failure(400, MsgPasswordShort));
    }
    var reset := RedeemableReset(db.resets, code.value, now);
    if reset.None? {
      return Err(Failure(400, MsgInvalidCode));
    }
    var uid := reset.value.user;
    if uid !in db.users {
      return Err(Failure(404, MsgUserNotFound));
    }
    var u := db.users[uid].(password := HashPassword(newPassword.value));
    UserUpdateKeepsValid(db.users, uid, u);
    db.SetUsers(db.users[uid := u]);
    var c := ToUpper(code.value);
    db.SetResets(db.resets[c := reset.value.(used := true)]);
    r := Ok(uid);
  }

  /** `getPendingResets`: the codes still redeemable at `now`. */
  function GetPendingResets(db: Db, now: Time): (r: map<string, PasswordReset>)
    reads db
    ensures forall c :: c in r <==> c in db.resets && Usable(db.resets[c], now)
    ensures forall c :: c in r ==> r[c] == db.resets[c] && !r[c].used && r[c].expiresAt > now
  {
    map c | c in db.resets && Usable(db.resets[c], now) :: db.resets[c]
  }

  /** The TTL index on `expiresAt`: the store drops every record whose expiry
      has been reached. A code still redeemable is never dropped. */
  method ExpireResets(db: Db, now: Time)
    requires db.Valid()
    modifies db
    ensures db.Valid()
    ensures forall c :: c in db.resets <==> c in old(db.resets) && old(db.resets)[c].expiresAt > now
    ensures forall c :: c in db.resets ==> db.resets[c] == old(db.resets)[c]
    ensures forall c :: c in old(db.resets) && Usable(old(db.resets)[c], now) ==> c in db.resets
    ensures unchanged(db`users, db`activities, db`attendance, db`plans, db`requests, db`messages)
  {
    db.SetResets(map c | c in db.resets && db.resets[c].expiresAt > now :: db.resets[c]);
  }
}
