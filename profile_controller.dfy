/** The founder's own account: renaming, changing the email, the password or
    the avatar, and deleting the account with what hangs off it. */
module ProfileController {
  import opened Common
  import opened Text
  import opened Models
  import opened Store

  const MsgEmailInUse: string := "Email already in use"
  const MsgCurrentPasswordWrong: string := "Current password is incorrect"
  const MsgNewPasswordShort: string := "New password must be at least 6 characters"
  const MsgAvatarRequired: string := "Avatar is required"
  const MsgPasswordWrong: string := "Password is incorrect"

  /** Some user other than `id` holds `email`. */
  ghost predicate EmailTakenByOther(users: map<UserId, User>, id: UserId, email: string)
  {
    exists v :: v in users && v != id && users[v].email == email
  }

  /** The document `updateProfile` would save: each provided field assigned
      through the schema's setters, the others left as stored. */
  function ProfileEdited(u: User, name: Option<string>, email: Option<string>): (e: User)
    ensures e.name == (if Truthy(name) then Trim(name.value) else u.name)
    ensures e.email == (if Truthy(email) then NormalizeEmail(email.value) else u.email)
    ensures e == u.(name := e.name, email := e.email)
  {
    var named := if Truthy(name) then u.(name := Trim(name.value)) else u;
    if Truthy(email) then named.(email := NormalizeEmail(email.value)) else named
  }

  /** `findOne({ email, _id: { $ne: id } })`: another user holding `email`. */
  method FindOtherByEmail(users: map<UserId, User>, id: UserId, email: string) returns (taken: bool)
    ensures taken <==> EmailTakenByOther(users, id, email)
  {
    taken := exists v :: v in users && v != id && users[v].email == email;
  }

  /** `updateProfile`. An email held by another founder is refused before
      anything is saved; a field left out keeps its value; a name or email
      that the `trim` setter leaves empty fails the `required` validator,
      which the handler reports as a server error. */
  method UpdateProfile(db: Db, caller: UserId, name: Option<string>, email: Option<string>) returns (r: Result<User>)
    requires db.Valid() && caller in db.users
    modifies db
    ensures db.Valid()
    ensures (Truthy(email) && EmailTakenByOther(old(db.users), caller, NormalizeEmail(email.value)))
            ==> r == Err(Failure(400, MsgEmailInUse))
    ensures r.Err? ==> unchanged(db) && r.failure.status in {400, 500}
    ensures r.Err? && r.failure.status == 500 ==> r.failure == ServerError
    ensures r.Err? && r.failure.status == 500 ==> !SavableUser(ProfileEdited(old(db.users)[caller], name, email))
    ensures r.Ok? <==> (!(Truthy(email) && EmailTakenByOther(old(db.users), caller, NormalizeEmail(email.value)))
                        && SavableUser(ProfileEdited(old(db.users)[caller], name, email)))
    ensures r.Ok? ==> r.value == ProfileEdited(old(db.users)[caller], name, email)
    ensures r.Ok? ==> db.users == old(db.users)[caller := r.value]
    ensures unchanged(db`activities, db`attendance, db`plans, db`requests, db`resets, db`messages)
  {
    var u := db.users[caller];
    if Truthy(email) {
      var taken := FindOtherByEmail(db.users, caller, NormalizeEmail(email.value));
      if taken {
        return Err(Failure(400, MsgEmailInUse));
      }
    }
    var edited := ProfileEdited(u, name, email);
    if !SavableUser(edited) {
      return Err(ServerError);
    }
    SaveUserKeepsValid(db.users, caller, edited);
    db.SetUsers(db.users[caller := edited]);
    r := Ok(edited);
  }

  /** `changePassword`. The current password is checked first (a missing one
      makes the hash comparison throw, a server error), then the new one's
      length; the stored password changes only when both pass. */
  method ChangePassword(db: Db, caller: UserId, currentPassword: Option<string>, newPassword: Option<string>)
    returns (r: Result<()>)
    requires db.Valid() && caller in db.users
    modifies db
    ensures db.Valid()
    ensures currentPassword.None? ==> r == Err(ServerError)
    ensures (currentPassword.Some? && !ComparePassword(currentPassword.value, old(db.users)[caller].password))
            ==> r == Err(Failure(400, MsgCurrentPasswordWrong))
    ensures (currentPassword.Some? && ComparePassword(currentPassword.value, old(db.users)[caller].password)
             && (!Truthy(newPassword) || |newPassword.value| < 6))
            ==> r == Err(Failure(400, MsgNewPasswordShort))
    ensures r.Ok? <==> (currentPassword.Some? && ComparePassword(currentPassword.value, old(db.users)[caller].password)
                        && Truthy(newPassword) && |newPassword.value| >= 6)
    ensures r.Err? ==> unchanged(db)
    ensures r.Ok? ==> db.users == old(db.users)[caller := old(db.users)[caller].(password := HashPassword(newPassword.value))]
    ensures r.Ok? ==> ComparePassword(newPassword.value, db.users[caller].password)
    ensures unchanged(db`activities, db`attendance, db`plans, db`requests, db`resets, db`messages)
  {
    if currentPassword.None? {
      return Err(ServerError);
    }
    if !ComparePassword(currentPassword.value, db.users[caller].password) {
      return Err(Failure(400, MsgCurrentPasswordWrong));
    }
    if !Truthy(newPassword) || |newPassword.value| < 6 {
      return Err(Failure(400, MsgNewPasswordShort));
    }
    var u := db.users[caller].(password := HashPassword(newPassword.value));
    UserUpdateKeepsValid(db.users, caller, u);
    db.SetUsers(db.users[caller := u]);
    r := Ok(());
  }

  /** `uploadAvatar`: a missing or empty avatar is refused; otherwise it
      replaces the stored one and is echoed back. */
  method UploadAvatar(db: Db, caller: UserId, avatar: Option<string>) returns (r: Result<string>)
    requires db.Valid() && caller in db.users
    modifies db
    ensures db.Valid()
    ensures r.Ok? <==> Truthy(avatar)
    ensures r.Err? ==> r.failure == Failure(400, MsgAvatarRequired) && unchanged(db)
    ensures r.Ok? ==> r.value == avatar.value
    ensures r.Ok? ==> db.users == old(db.users)[caller := old(db.users)[caller].(avatar := avatar)]
    ensures unchanged(db`activities, db`attendance, db`plans, db`requests, db`resets, db`messages)
  {
    if !Truthy(avatar) {
      return Err(Failure(400, MsgAvatarRequired));
    }
    var u := db.users[caller].(avatar := avatar);
    UserUpdateKeepsValid(db.users, caller, u);
    db.SetUsers(db.users[caller := u]);
    r := Ok(avatar.value);
  }

  /** The documents of a day-keyed collection that do not belong to `user`
      (`deleteMany({ user })`). */
  function WithoutUser<V>(m: map<DayKey, V>, user: UserId): (r: map<DayKey, V>)
    ensures forall k :: k in r <==> k in m && k.0 != user
    ensures forall k :: k in r ==> r[k] == m[k]
  {
    map k | k in m && k.0 != user :: m[k]
  }

  /** `deleteAccount`. A wrong password deletes nothing (a missing one makes
      the comparison throw). Otherwise the founder's activities, attendance
      and user document go, and everyone else's stay. The chat purge filters
      on a field messages do not have, so messages stay too; plans, requests
      and reset codes that mention the founder are left as they are. */
  method DeleteAccount(db: Db, caller: UserId, password: Option<string>) returns (r: Result<()>)
    requires db.Valid() && caller in db.users
    modifies db
    ensures db.Valid()
    ensures password.None? ==> r == Err(ServerError)
    ensures r.Ok? <==> password.Some? && ComparePassword(password.value, old(db.users)[caller].password)
    ensures r.Err? ==> unchanged(db)
    ensures r.Err? && password.Some? ==> r.failure == Failure(400, MsgPasswordWrong)
    ensures r.Ok? ==> db.activities == WithoutUser(old(db.activities), caller)
    ensures r.Ok? ==> db.attendance == WithoutUser(old(db.attendance), caller)
    ensures r.Ok? ==> db.users == old(db.users) - {caller}
    ensures r.Ok? ==> caller !in db.users
    ensures r.Ok? ==> forall k :: k in db.activities ==> db.activities[k].user != caller
    ensures r.Ok? ==> forall k :: k in db.attendance ==> db.attendance[k].user != caller
    ensures unchanged(db`plans, db`requests, db`resets, db`messages)
  {
    if password.None? {
      return Err(ServerError);
    }
    if !ComparePassword(password.value, db.users[caller].password) {
      return Err(Failure(400, MsgPasswordWrong));
    }
    db.SetActivities(WithoutUser(db.activities, caller));
    db.SetAttendance(WithoutUser(db.attendance, caller));
    db.SetUsers(db.users - {caller});
    r := Ok(());
  }
}
