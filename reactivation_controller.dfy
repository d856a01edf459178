/** The reactivation endpoints: an OUT founder opens a request, ACTIVE
    founders vote on it, and an approved request puts the founder back to
    ACTIVE. */
module ReactivationController {
  import opened Common
  import opened Models
  import opened ReactivationModel
  import opened Store

  const MsgOnlyOut: string := "Only OUT founders can request reactivation"
  const MsgAlreadyPending: string := "You already have a pending request"
  const MsgBadVote: string := "Vote must be YES or NO"
  const MsgRequestNotFound: string := "Request not found"
  const MsgAlreadyResolved: string := "This request has already been resolved"

  /** The founder has an open (PENDING) request. */
  predicate HasPending(requests: map<RequestId, ReactivationRequest>, user: UserId)
  {
    exists id :: id in requests && requests[id].requester == user && requests[id].status.Pending?
  }

  /** `findOne({ requester: user, status: 'PENDING' })`: the founder's open
      request, if any; there is at most one. */
  method FindPending(requests: map<RequestId, ReactivationRequest>, user: UserId) returns (r: Option<RequestId>)
    ensures r.Some? ==> r.value in requests && requests[r.value].requester == user && requests[r.value].status.Pending?
    ensures r.None? ==> forall id :: id in requests ==> !(requests[id].requester == user && requests[id].status.Pending?)
  {
    if exists id :: id in requests && requests[id].requester == user && requests[id].status.Pending? {
      var id :| id in requests && requests[id].requester == user && requests[id].status.Pending?;
      r := Some(id);
    } else {
      r := None;
    }
  }

  /** `getMyRequest`: the caller's PENDING request, or null. */
  method GetMyRequest(db: Db, caller: UserId) returns (r: Option<ReactivationRequest>)
    requires db.Valid()
    ensures r.Some? ==> r.value.requester == caller && r.value.status.Pending? && r.value in db.requests.Values
    ensures r.None? ==> forall id :: id in db.requests ==>
      !(db.requests[id].requester == caller && db.requests[id].status.Pending?)
  {
    var id := FindPending(db.requests, caller);
    r := if id.Some? then Some(db.requests[id.value]) else None;
  }

  /** `createRequest`: only an OUT founder without an open request may open
      one; it starts PENDING with no votes. `newId` is the new document's id. */
  method CreateRequest(db: Db, caller: UserId, newId: RequestId) returns (r: Result<ReactivationRequest>)
    requires db.Valid() && caller in db.users && newId !in db.requests
    modifies db
    ensures db.Valid()
    ensures old(db.users)[caller].status != Out ==> r == Err(Failure(400, MsgOnlyOut))
    ensures old(db.users)[caller].status == Out && r.Err? ==> r == Err(Failure(400, MsgAlreadyPending))
    ensures r.Ok? <==> old(db.users)[caller].status == Out && !HasPending(old(db.requests), caller)
    ensures r.Err? ==> unchanged(db)
    ensures r.Ok? ==> r.value == NewRequest(caller) && db.requests == old(db.requests)[newId := r.value]
    ensures r.Ok? ==> unchanged(db`users, db`activities, db`attendance, db`plans, db`resets, db`messages)
  {
    if db.users[caller].status != Out {
      return Err(Failure(400, MsgOnlyOut));
    }
    var existing := FindPending(db.requests, caller);
    if existing.Some? {
      return Err(Failure(400, MsgAlreadyPending));
    }
    var request := NewRequest(caller);
    db.SetRequests(db.requests[newId := request]);
    r := Ok(request);
  }

  /** The vote string of the request body, if it is one of the two choices. */
  function ParseVote(vote: Option<string>): (r: Option<VoteChoice>)
    ensures r == Some(Yes) <==> vote == Some("YES")
    ensures r == Some(No) <==> vote == Some("NO")
    ensures r.None? <==> vote != Some("YES") && vote != Some("NO")
  {
    if vote == Some("YES") then Some(Yes)
    else if vote == Some("NO") then Some(No)
    else None
  }

  /** The electorate of a request: the ACTIVE founders other than the requester. */
  function Electorate(users: map<UserId, User>, requester: UserId): (n: nat)
    ensures requester in ActiveUsers(users) ==> n == |ActiveUsers(users)| - 1
    ensures requester !in ActiveUsers(users) ==> n == |ActiveUsers(users)|
  {
    |ActiveUsers(users) - {requester}|
  }

  /** The request after `voter`'s ballot and the resolution check, with the resolution reached. */
  function Voted(req: ReactivationRequest, voter: UserId, choice: VoteChoice, electorate: nat, now: Time)
    : (ReactivationRequest, Option<RequestStatus>)
  {
    var cast := req.(votes := PutVote(req.votes, voter, choice));
    var resolution := Decide(YesVotes(cast.votes), NoVotes(cast.votes), electorate);
    (if resolution.Some? then cast.(status := resolution.value, resolvedAt := Some(now)) else cast, resolution)
  }

  /** A vote on a PENDING request records the voter's choice once, leaves the
      other ballots alone, approves exactly when the YES ballots reach the
      majority, rejects exactly when only the NO ballots do, and otherwise
      leaves the request PENDING and unresolved. */
  lemma VotedMeaning(req: ReactivationRequest, voter: UserId, choice: VoteChoice, electorate: nat, now: Time)
    requires req.status.Pending?
    ensures var (out, res) := Voted(req, voter, choice, electorate, now);
      out.requester == req.requester
      && BallotOf(out.votes, voter) == Some(choice)
      && (forall w :: w != voter ==> BallotOf(out.votes, w) == BallotOf(req.votes, w))
      && (VotersDistinct(req.votes) ==> VotersDistinct(out.votes))
      && (res == Some(Approved) <==> YesVotes(out.votes) >= Majority(electorate))
      && (res == Some(Rejected) <==> YesVotes(out.votes) < Majority(electorate) <= NoVotes(out.votes))
      && (res.None? ==> out.status.Pending? && out.resolvedAt == req.resolvedAt)
      && (res.Some? ==> out.status == res.value && out.resolvedAt == Some(now))
  {
    PutVoteMeaning(req.votes, voter, choice);
  }

  /** `User.findByIdAndUpdate(requester, { status: 'ACTIVE', consecutiveAbsences: 0 })`;
      a deleted requester is not recreated. */
  function Reactivated(users: map<UserId, User>, requester: UserId): (r: map<UserId, User>)
    ensures r.Keys == users.Keys
    ensures requester in users ==> r[requester].status == Active && r[requester].consecutiveAbsences == 0
    ensures forall u :: u in users && u != requester ==> r[u] == users[u]
  {
    if requester in users then users[requester := users[requester].(status := Active, consecutiveAbsences := 0)]
    else users
  }

  lemma ReactivatedKeepsValid(users: map<UserId, User>, requester: UserId)
    requires UsersSavable(users) && EmailsUnique(users)
    ensures UsersSavable(Reactivated(users, requester)) && EmailsUnique(Reactivated(users, requester))
  {
  }

  lemma VotedKeepsValid(requests: map<RequestId, ReactivationRequest>, id: RequestId, voter: UserId,
                        choice: VoteChoice, electorate: nat, now: Time)
    requires BallotsDistinct(requests) && OnePendingEach(requests) && id in requests && requests[id].status.Pending?
    ensures var out := Voted(requests[id], voter, choice, electorate, now).0;
      BallotsDistinct(requests[id := out]) && OnePendingEach(requests[id := out])
  {
    var out := Voted(requests[id], voter, choice, electorate, now).0;
    PutVoteMeaning(requests[id].votes, voter, choice);
    RequestUpdateKeepsValid(requests, id, out);
  }

  /** The in-place part of `vote`: load the request, record the ballot, run `checkResolution`. */
  method CastAndResolve(stored: ReactivationRequest, voter: UserId, choice: VoteChoice, electorate: nat, now: Time)
    returns (out: ReactivationRequest, resolution: Option<RequestStatus>)
    requires stored.status.Pending?
    ensures (out, resolution) == Voted(stored, voter, choice, electorate, now)
  {
    var request := new RequestDocument.Load(stored);
    request.CastVote(voter, choice);
    resolution := request.CheckResolution(electorate, now);
    out := request.Value();
  }

  /** `vote`, behind the ACTIVE-only route guard. The vote string is checked
      before any lookup; a missing request is not found; a resolved request
      takes no vote. Otherwise the ballot is recorded, the request resolved
      against the ACTIVE founders other than the requester, and an approval
      reactivates the requester. */
  method Vote(db: Db, caller: UserId, id: RequestId, vote: Option<string>, now: Time)
    returns (r: Result<(ReactivationRequest, Option<RequestStatus>)>)
    requires db.Valid() && IsActiveCaller(db, caller)
    modifies db
    ensures db.Valid()
    ensures ParseVote(vote).None? ==> r == Err(Failure(400, MsgBadVote))
    ensures ParseVote(vote).Some? && id !in old(db.requests) ==> r == Err(Failure(404, MsgRequestNotFound))
    ensures ParseVote(vote).Some? && id in old(db.requests) && !old(db.requests)[id].status.Pending?
      ==> r == Err(Failure(400, MsgAlreadyResolved))
    ensures r.Ok? <==> ParseVote(vote).Some? && id in old(db.requests) && old(db.requests)[id].status.Pending?
    ensures r.Err? ==> unchanged(db)
    ensures r.Ok? ==> r.value == Voted(old(db.requests)[id], caller, ParseVote(vote).value,
      Electorate(old(db.users), old(db.requests)[id].requester), now)
    ensures r.Ok? ==> db.requests == old(db.requests)[id := r.value.0]
    ensures r.Ok? && r.value.1 == Some(Approved) ==> db.users == Reactivated(old(db.users), old(db.requests)[id].requester)
    ensures r.Ok? && r.value.1 != Some(Approved) ==> db.users == old(db.users)
    ensures r.Ok? ==> unchanged(db`activities, db`attendance, db`plans, db`resets, db`messages)
  {
    var choice := ParseVote(vote);
    if choice.None? {
      return Err(Failure(400, MsgBadVote));
    }
    if id !in db.requests {
      return Err(Failure(404, MsgRequestNotFound));
    }
    var stored := db.requests[id];
    if !stored.status.Pending? {
      return Err(Failure(400, MsgAlreadyResolved));
    }
    var electorate := Electorate(db.users, stored.requester);
    var out, resolution := CastAndResolve(stored, caller, choice.value, electorate, now);
    if resolution == Some(Approved) {
      var users := Reactivated(db.users, stored.requester);
      ReactivatedKeepsValid(db.users, stored.requester);
      db.SetUsers(users);
    }
    VotedKeepsValid(db.requests, id, caller, choice.value, electorate, now);
    db.SetRequests(db.requests[id := out]);
    r := Ok((out, resolution));
  }
}
