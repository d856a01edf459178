/** The founders directory: issuing credentials for a new founder, and the
    order in which the team is listed. */
module FoundersController {
  import opened Common
  import opened Models
  import opened Ordering
  import opened Store
  import AuthController

  const MsgNameEmailRequired: string := "Name and email are required"
  const MsgEmailInUse: string := "Email already in use"

  datatype Credentials = Credentials(email: string, password: string)

  /** `generateCredentials`, behind the ACTIVE-only route guard. The email is
      looked up as stored (lower-cased, then trimmed by the path's setters);
      a taken one is refused. The temporary password comes from the random
      generator and is a parameter. A name or email the `trim` setter leaves
      empty fails the `required` validator: a server error. The credentials
      returned log the new founder in. */
  method GenerateCredentials(db: Db, caller: UserId, name: Option<string>, email: Option<string>,
                             tempPassword: string, newId: UserId) returns (r: Result<Credentials>)
    requires db.Valid() && IsActiveCaller(db, caller) && newId !in db.users
    modifies db
    ensures db.Valid()
    ensures !Truthy(name) || !Truthy(email) ==> r == Err(Failure(400, MsgNameEmailRequired))
    ensures (Truthy(name) && Truthy(email)
             && exists u :: u in old(db.users) && old(db.users)[u].email == NormalizeEmail(email.value))
            ==> r == Err(Failure(400, MsgEmailInUse))
    ensures r.Err? ==> unchanged(db) && r.failure.status in {400, 500}
    ensures r.Err? && r.failure.status == 500 ==> r.failure == ServerError
    ensures r.Err? && r.failure.status == 500 ==> !SavableUser(NewUser(name.value, email.value, tempPassword))
    ensures r.Ok? <==> (Truthy(name) && Truthy(email)
                        && (forall u :: u in old(db.users) ==> old(db.users)[u].email != NormalizeEmail(email.value))
                        && SavableUser(NewUser(name.value, email.value, tempPassword)))
    ensures r.Ok? ==> db.users == old(db.users)[newId := NewUser(name.value, email.value, tempPassword)]
    ensures r.Ok? ==> db.users[newId].status == Active
    ensures r.Ok? ==> r.value == Credentials(db.users[newId].email, tempPassword)
    ensures r.Ok? ==> AuthController.HasAccount(db.users, NormalizeEmail(r.value.email), r.value.password)
    ensures unchanged(db`activities, db`attendance, db`plans, db`requests, db`resets, db`messages)
  {
    if !Truthy(name) || !Truthy(email) {
      return Err(Failure(400, MsgNameEmailRequired));
    }
    var existing := FindByEmail(db.users, NormalizeEmail(email.value));
    if existing.Some? {
      return Err(Failure(400, MsgEmailInUse));
    }
    var founder := NewUser(name.value, email.value, tempPassword);
    if !SavableUser(founder) {
      return Err(ServerError);
    }
    SaveUserKeepsValid(db.users, newId, founder);
    db.SetUsers(db.users[newId := founder]);
    NormalizeEmailIdempotent(email.value);
    CompareHashed(tempPassword, tempPassword);
    r := Ok(Credentials(founder.email, tempPassword));
  }

  /** The sort `{ status: 1, name: 1 }`: by the stored status string, then by
      name, both in the store's string order; `a` may come before `b`. */
  predicate ListedBefore(a: User, b: User)
  {
    var sa, sb := StatusName(a.status), StatusName(b.status);
    Less(sa, sb) || (sa == sb && (Less(a.name, b.name) || a.name == b.name))
  }

  lemma ListedBeforeTotal(a: User, b: User)
    ensures ListedBefore(a, b) || ListedBefore(b, a)
  {
    if StatusName(a.status) != StatusName(b.status) {
      LessTotal(StatusName(a.status), StatusName(b.status));
    } else if a.name != b.name {
      LessTotal(a.name, b.name);
    }
  }

  lemma ListedBeforeTransitive(a: User, b: User, c: User)
    requires ListedBefore(a, b) && ListedBefore(b, c)
    ensures ListedBefore(a, c)
  {
    var sa, sb, sc := StatusName(a.status), StatusName(b.status), StatusName(c.status);
    if Less(sa, sb) && Less(sb, sc) {
      LessTransitive(sa, sb, sc);
    } else if sa == sb && sb == sc && Less(a.name, b.name) && Less(b.name, c.name) {
      LessTransitive(a.name, b.name, c.name);
    }
  }

  /** Every listed id is a user, and the list follows the sort order. */
  ghost predicate FoundersOrdered(users: map<UserId, User>, ids: seq<UserId>)
  {
    (forall i :: 0 <= i < |ids| ==> ids[i] in users)
    && forall i, j :: 0 <= i < j < |ids| && ids[i] in users && ids[j] in users
         ==> ListedBefore(users[ids[i]], users[ids[j]])
  }

  /** `u` placed before the first listed founder it may precede. */
  function InsertFounder(users: map<UserId, User>, u: UserId, ids: seq<UserId>): (r: seq<UserId>)
    requires u in users && forall i :: 0 <= i < |ids| ==> ids[i] in users
    ensures multiset(r) == multiset(ids) + multiset{u}
    ensures forall i :: 0 <= i < |r| ==> r[i] in users
  {
    if ids == [] then [u]
    else if ListedBefore(users[u], users[ids[0]]) then [u] + ids
    else
      assert ids == [ids[0]] + ids[1..];
      [ids[0]] + InsertFounder(users, u, ids[1..])
  }

  /** Putting in front of an ordered list a founder who may precede each of
      its members keeps it ordered. */
  lemma PrependOrdered(users: map<UserId, User>, x: UserId, ids: seq<UserId>)
    requires x in users && FoundersOrdered(users, ids)
    requires forall k :: 0 <= k < |ids| ==> ListedBefore(users[x], users[ids[k]])
    ensures FoundersOrdered(users, [x] + ids)
  {
    var r := [x] + ids;
    forall i, j | 0 <= i < j < |r|
      ensures ListedBefore(users[r[i]], users[r[j]])
    {
      assert r[j] == ids[j - 1];
      if i > 0 {
        assert r[i] == ids[i - 1];
      }
    }
  }

  /** Inserting into an ordered list keeps it ordered. */
  lemma {:induction false} InsertFounderOrdered(users: map<UserId, User>, u: UserId, ids: seq<UserId>)
    requires u in users && FoundersOrdered(users, ids)
    ensures FoundersOrdered(users, InsertFounder(users, u, ids))
  {
    if ids == [] {
    } else if ListedBefore(users[u], users[ids[0]]) {
      forall k | 0 <= k < |ids|
        ensures ListedBefore(users[u], users[ids[k]])
      {
        if k > 0 {
          ListedBeforeTransitive(users[u], users[ids[0]], users[ids[k]]);
        }
      }
      PrependOrdered(users, u, ids);
    } else {
      ListedBeforeTotal(users[u], users[ids[0]]);
      var tail := ids[1..];
      assert FoundersOrdered(users, tail) by {
        forall i, j | 0 <= i < j < |tail|
          ensures ListedBefore(users[tail[i]], users[tail[j]])
        {
          assert tail[i] == ids[i + 1] && tail[j] == ids[j + 1];
        }
      }
      InsertFounderOrdered(users, u, tail);
      var rest := InsertFounder(users, u, tail);
      forall k | 0 <= k < |rest|
        ensures ListedBefore(users[ids[0]], users[rest[k]])
      {
        var x := rest[k];
        assert x in multiset(rest);
        if x != u {
          assert x in multiset(tail);
          var m :| 0 <= m < |tail| && tail[m] == x;
          assert ids[m + 1] == x;
        }
      }
      PrependOrdered(users, ids[0], rest);
    }
  }

  /** `getFounders`: every founder once, ordered by status, then by name.
      Founders with equal status and name may come in either order. */
  method GetFounders(db: Db) returns (ids: seq<UserId>)
    ensures multiset(ids) == multiset(db.users.Keys)
    ensures FoundersOrdered(db.users, ids)
  {
    ids := [];
    var rest := db.users.Keys;
    while rest != {}
      invariant rest <= db.users.Keys
      invariant multiset(ids) + multiset(rest) == multiset(db.users.Keys)
      invariant FoundersOrdered(db.users, ids)
      decreases |rest|
    {
      var u :| u in rest;
      InsertFounderOrdered(db.users, u, ids);
      ids := InsertFounder(db.users, u, ids);
      assert multiset(rest) == multiset(rest - {u}) + multiset{u};
      rest := rest - {u};
    }
  }
}
