/** Reactivation requests: the ballots cast on them, the yes/no tallies, the
    majority rule of `checkResolution`, and the one-ballot-per-voter update
    the vote handler performs. */
module ReactivationModel {
  import opened Common

  datatype VoteChoice = Yes | No

  datatype Ballot = Ballot(voter: UserId, vote: VoteChoice)

  datatype RequestStatus = Pending | Approved | Rejected

  datatype ReactivationRequest = ReactivationRequest(
    requester: UserId,
    status: RequestStatus,
    votes: seq<Ballot>,
    resolvedAt: Option<Time>)

  /** `ReactivationRequest.create({ requester })`: PENDING, no votes, unresolved. */
  function NewRequest(requester: UserId): ReactivationRequest
  {
    ReactivationRequest(requester, Pending, [], None)
  }

  predicate IsYes(b: Ballot) { b.vote == Yes }
  predicate IsNo(b: Ballot) { b.vote == No }

  /** The `yesVotes` virtual. */
  function YesVotes(votes: seq<Ballot>): nat
  {
    CountIf(votes, IsYes)
  }

  /** The `noVotes` virtual. */
  function NoVotes(votes: seq<Ballot>): nat
  {
    CountIf(votes, IsNo)
  }

  /** Every ballot is a YES or a NO, so the two tallies add up to the ballots cast. */
  lemma TalliesPartition(votes: seq<Ballot>)
    ensures YesVotes(votes) + NoVotes(votes) == |votes|
  {
    CountIfPartition(votes, IsYes, IsNo);
  }

  /** `Math.ceil(n / 2)`. */
  function Majority(electorate: nat): (m: nat)
    ensures electorate <= 2 * m <= electorate + 1
  {
    (electorate + 1) / 2
  }

  /** The outcome `checkResolution` reaches for a PENDING request: APPROVED once the
      YES ballots reach the majority (tested first), REJECTED once the NO
      ballots do, otherwise no resolution yet. */
  function Decide(yes: nat, no: nat, electorate: nat): (r: Option<RequestStatus>)
    ensures r != Some(Pending)
  {
    if yes >= Majority(electorate) then Some(Approved)
    else if no >= Majority(electorate) then Some(Rejected)
    else None
  }

  /** Once every member of a non-empty electorate has voted (and nobody else
      has), the request is resolved. */
  lemma FullTurnoutResolves(yes: nat, no: nat, electorate: nat)
    requires yes + no == electorate
    ensures Decide(yes, no, electorate).Some?
  {
  }

  /** A tie in an even electorate where everyone voted is an approval: the YES
      count is compared with the majority first. */
  lemma TieApproves(half: nat)
    ensures Decide(half, half, 2 * half) == Some(Approved)
  {
    assert Majority(2 * half) == half;
  }

  /** Without a tie, both tallies can never reach the majority together, so
      the order of the two tests matters only for a tie. */
  lemma NoDoubleMajority(yes: nat, no: nat, electorate: nat)
    requires yes + no <= electorate
    requires yes >= Majority(electorate) && no >= Majority(electorate)
    ensures yes == no && 2 * yes == electorate
  {
  }

  /** With nobody in the electorate the majority is 0, so any tally approves. */
  lemma EmptyElectorateApproves(yes: nat, no: nat)
    ensures Decide(yes, no, 0) == Some(Approved)
  {
  }

  /** The ballot of `voter`, the first one cast under that id. */
  function BallotOf(votes: seq<Ballot>, voter: UserId): Option<VoteChoice>
  {
    if votes == [] then None
    else if votes[0].voter == voter then Some(votes[0].vote)
    else BallotOf(votes[1..], voter)
  }

  /** No voter holds two ballots. */
  predicate VotersDistinct(votes: seq<Ballot>)
  {
    forall i, j :: 0 <= i < j < |votes| ==> votes[i].voter != votes[j].voter
  }

  /** The vote handler's ballot update: overwrite the choice of the voter's
      existing ballot, or append a new ballot when the voter has none. */
  function PutVote(votes: seq<Ballot>, voter: UserId, choice: VoteChoice): seq<Ballot>
  {
    if votes == [] then [Ballot(voter, choice)]
    else if votes[0].voter == voter then [votes[0].(vote := choice)] + votes[1..]
    else [votes[0]] + PutVote(votes[1..], voter, choice)
  }

  /** After the update the voter's ballot is the new choice, every other voter's
      ballot is untouched, the list grows only for a first-time voter, and no
      voter ends up with two ballots. */
  lemma {:induction false} PutVoteMeaning(votes: seq<Ballot>, voter: UserId, choice: VoteChoice)
    ensures BallotOf(PutVote(votes, voter, choice), voter) == Some(choice)
    ensures forall w :: w != voter ==> BallotOf(PutVote(votes, voter, choice), w) == BallotOf(votes, w)
    ensures |PutVote(votes, voter, choice)| == if BallotOf(votes, voter).Some? then |votes| else |votes| + 1
    ensures VotersDistinct(votes) ==> VotersDistinct(PutVote(votes, voter, choice))
  {
    if votes != [] && votes[0].voter != voter {
      var r := PutVote(votes, voter, choice);
      var tail := PutVote(votes[1..], voter, choice);
      PutVoteMeaning(votes[1..], voter, choice);
      assert r[1..] == tail;
      if VotersDistinct(votes) {
        VoterListed(votes[1..], voter, choice);
        forall j | 0 < j < |r|
          ensures r[0].voter != r[j].voter
        {
          assert r[j] == tail[j - 1];
        }
      }
    }
  }

  /** Every voter of the updated list already voted or is the new voter. */
  lemma {:induction false} VoterListed(votes: seq<Ballot>, voter: UserId, choice: VoteChoice)
    ensures forall j :: 0 <= j < |PutVote(votes, voter, choice)| ==>
      PutVote(votes, voter, choice)[j].voter == voter
      || exists k :: 0 <= k < |votes| && votes[k].voter == PutVote(votes, voter, choice)[j].voter
  {
    if votes != [] && votes[0].voter != voter {
      VoterListed(votes[1..], voter, choice);
      var r := PutVote(votes, voter, choice);
      forall j | 1 <= j < |r|
        ensures r[j].voter == voter || exists k :: 0 <= k < |votes| && votes[k].voter == r[j].voter
      {
        assert r[j] == PutVote(votes[1..], voter, choice)[j - 1];
        if r[j].voter != voter {
          var k :| 0 <= k < |votes[1..]| && votes[1..][k].voter == r[j].voter;
          assert votes[k + 1].voter == r[j].voter;
        }
      }
    }
  }

  /** The update in terms of the first ballot of `voter`, at `i`, or of its
      absence (`i == |votes|`). */
  lemma {:induction false} PutVoteAt(votes: seq<Ballot>, voter: UserId, choice: VoteChoice, i: nat)
    requires i <= |votes| && forall k :: 0 <= k < i ==> votes[k].voter != voter
    requires i < |votes| ==> votes[i].voter == voter
    ensures i < |votes| ==> PutVote(votes, voter, choice) == votes[..i] + [votes[i].(vote := choice)] + votes[i + 1..]
    ensures i == |votes| ==> PutVote(votes, voter, choice) == votes + [Ballot(voter, choice)]
  {
    if i > 0 {
      var tail := votes[1..];
      PutVoteAt(tail, voter, choice, i - 1);
      assert votes == [votes[0]] + tail;
      if i < |votes| {
        assert tail[..i - 1] == votes[1..i] && tail[i - 1] == votes[i] && tail[i..] == votes[i + 1..];
        assert [votes[0]] + votes[1..i] == votes[..i];
      }
    }
  }

  /** A request document loaded from the store; the vote handler and
      `checkResolution` change it in place before `save()`. */
  class RequestDocument {
    var requester: UserId
    var status: RequestStatus
    var votes: seq<Ballot>
    var resolvedAt: Option<Time>

    constructor Load(r: ReactivationRequest)
      ensures Value() == r
    {
      requester, status, votes, resolvedAt := r.requester, r.status, r.votes, r.resolvedAt;
    }

    /** What `save()` writes back. */
    function Value(): ReactivationRequest
      reads this
    {
      ReactivationRequest(requester, status, votes, resolvedAt)
    }

    /** Record `voter`'s choice: change the existing ballot or push a new one. */
    method CastVote(voter: UserId, choice: VoteChoice)
      modifies this
      ensures Value() == old(Value()).(votes := PutVote(old(votes), voter, choice))
    {
      var vs := votes;
      var i := 0;
      while i < |vs| && vs[i].voter != voter
        invariant 0 <= i <= |vs|
        invariant forall k :: 0 <= k < i ==> vs[k].voter != voter
        modifies {}
      {
        i := i + 1;
      }
      PutVoteAt(vs, voter, choice, i);
      if i < |vs| {
        votes := vs[..i] + [vs[i].(vote := choice)] + vs[i + 1..];
      } else {
        votes := vs + [Ballot(voter, choice)];
      }
    }

    /** `checkResolution(totalActiveFounders)`: nothing for a request that is no
        longer PENDING; otherwise the outcome of the majority rule, recorded in
        the status together with the resolution time. */
    method CheckResolution(electorate: nat, now: Time) returns (resolution: Option<RequestStatus>)
      modifies this
      ensures old(status) != Pending ==> resolution == None && Value() == old(Value())
      ensures old(status) == Pending ==> resolution == Decide(YesVotes(votes), NoVotes(votes), electorate)
      ensures resolution == None ==> Value() == old(Value())
      ensures resolution.Some? ==> Value() == old(Value()).(status := resolution.value, resolvedAt := Some(now))
    {
      if status != Pending {
        return None;
      }
      var yes := YesVotes(votes);
      var no := NoVotes(votes);
      var majority := Majority(electorate);
      if yes >= majority {
        status, resolvedAt := Approved, Some(now);
        resolution := Some(Approved);
      } else if no >= majority {
        status, resolvedAt := Rejected, Some(now);
        resolution := Some(Rejected);
      } else {
        resolution := None;
      }
    }
  }
}
