/**
 * The ballot routes: the candidate list and vote casting. The one-vote rule is
 * the UNIQUE constraint on `votes.user_id`: the insert itself is refused
 * (SQLSTATE 23505) when the user already has a row, and the handler turns that
 * refusal into 409.
 */
module Ballot {
  import opened Wrappers
  import opened JsText
  import opened Records
  import opened Http

  const AlreadyVoted := "You have already voted."
  const VoteCastMessage := "Vote cast successfully!"

  /** GET /api/candidates: every candidate row, in ascending id order. */
  function ListCandidates(s: Store, fault: bool): (o: Outcome)
    ensures o.store == s
    ensures o.response.status == 500 <==> fault
    ensures !fault ==> o.response.status == 200 && o.response.body.CandidateList?
    ensures !fault ==> forall c :: c in o.response.body.candidates <==> c in s.candidates
    ensures !fault && Valid(s) ==>
              forall i, j :: 0 <= i < j < |o.response.body.candidates| ==>
                o.response.body.candidates[i].id < o.response.body.candidates[j].id
  {
    if fault then Reply(500, "Server error fetching candidates.", s)
    else Outcome(Response(200, CandidateList(s.candidates)), s)
  }

  /** How the store answers `INSERT INTO votes (user_id, candidate_id)`. */
  datatype InsertResult = Inserted(s: Store) | UniqueViolation | ForeignKeyViolation

  /**
   * The insert: refused by the unique index when the user already voted, then
   * by the reference checks when the schema declares them and a referenced row
   * is missing; otherwise one row is appended with the next serial id.
   */
  function InsertVote(s: Store, userId: int, candidateId: int): (r: InsertResult)
    ensures r.UniqueViolation? <==> HasVoted(s.votes, userId)
    ensures r.ForeignKeyViolation? <==>
              !HasVoted(s.votes, userId) && s.refs != Unenforced
              && !(HasUser(s.users, userId) && HasCandidate(s.candidates, candidateId))
    ensures r.Inserted? ==>
              r.s == s.(votes := s.votes + [Vote(s.nextVoteId, userId, candidateId)], nextVoteId := s.nextVoteId + 1)
  {
    if HasVoted(s.votes, userId) then UniqueViolation
    else if s.refs != Unenforced && !(HasUser(s.users, userId) && HasCandidate(s.candidates, candidateId)) then
      ForeignKeyViolation
    else
      Inserted(s.(votes := s.votes + [Vote(s.nextVoteId, userId, candidateId)], nextVoteId := s.nextVoteId + 1))
  }

  /**
   * POST /api/vote. A falsy `candidateId` (absent or 0) is refused before the
   * store is touched; an id outside the `integer` column's range is refused
   * when bound, before the unique check; a second vote by the same user is
   * refused by the unique constraint with 409; any other store error answers 500.
   */
  function CastVote(claims: Claims, candidateId: Option<int>, s: Store, fault: bool): (o: Outcome)
    ensures o.response.status in {201, 400, 409, 500}
    ensures o.response.status == 400 <==> FalsyNumber(candidateId)
    ensures o.response.status == 409 <==>
              !FalsyNumber(candidateId) && !fault && FitsInteger(candidateId.value) && HasVoted(s.votes, claims.userId)
    ensures o.response.status == 201 <==>
              && !FalsyNumber(candidateId) && !fault && FitsInteger(candidateId.value)
              && !HasVoted(s.votes, claims.userId)
              && (s.refs == Unenforced || (HasUser(s.users, claims.userId) && HasCandidate(s.candidates, candidateId.value)))
    ensures o.response.status == 409 ==> o.response.body == Message(AlreadyVoted)
    ensures o.response.status == 201 ==>
              && !HasVoted(s.votes, claims.userId)
              && o.store.votes == s.votes + [Vote(s.nextVoteId, claims.userId, candidateId.value)]
              && o.store == s.(votes := o.store.votes, nextVoteId := s.nextVoteId + 1)
    ensures o.response.status != 201 ==> o.store == s
  {
    if FalsyNumber(candidateId) then Reply(400, "Candidate ID is required.", s)
    else if fault || !FitsInteger(candidateId.value) then Reply(500, "Server error while casting vote.", s)
    else
      match InsertVote(s, claims.userId, candidateId.value)
      case Inserted(s') => Outcome(Response(201, Message(VoteCastMessage)), s')
      case UniqueViolation => Reply(409, AlreadyVoted, s)
      case ForeignKeyViolation => Reply(500, "Server error while casting vote.", s)
  }

  /** Casting a vote keeps the store valid: still at most one vote per user. */
  lemma CastVoteKeepsValid(claims: Claims, candidateId: Option<int>, s: Store, fault: bool)
    requires Valid(s)
    ensures Valid(CastVote(claims, candidateId, s, fault).store)
    ensures OneVotePerUser(CastVote(claims, candidateId, s, fault).store.votes)
  {
    var o := CastVote(claims, candidateId, s, fault);
    if o.response.status == 201 {
      var s' := o.store;
      var n := |s.votes|;
      assert forall i :: 0 <= i < n ==> s'.votes[i] == s.votes[i] && s.votes[i] in s.votes;
      assert forall v :: v in s'.votes ==> v in s.votes || v == s'.votes[n];
    }
  }

  /**
   * One person, one vote: once a user's vote is accepted, every later vote by
   * that user is refused (400 for a falsy id, 409 otherwise, barring a store
   * failure) and leaves the ledger as it is.
   */
  lemma SecondVoteRefused(claims: Claims, first: Option<int>, second: Option<int>, s: Store, fault: bool)
    requires CastVote(claims, first, s, false).response.status == 201
    ensures var s' := CastVote(claims, first, s, false).store;
            var o := CastVote(claims, second, s', fault);
            && o.store == s'
            && o.response.status != 201
            && (!FalsyNumber(second) && !fault && FitsInteger(second.value) ==>
                  o.response == Response(409, Message(AlreadyVoted)))
  {
    var s' := CastVote(claims, first, s, false).store;
    assert s'.votes[|s.votes|] in s'.votes;
  }

  /** A first vote naming a candidate the schema accepts is cast: one more row in the ledger. */
  lemma FirstVoteAccepted(claims: Claims, candidateId: int, s: Store)
    requires Valid(s) && candidateId != 0 && FitsInteger(candidateId)
    requires !HasVoted(s.votes, claims.userId)
    requires s.refs == Unenforced || (HasUser(s.users, claims.userId) && HasCandidate(s.candidates, candidateId))
    ensures CastVote(claims, Some(candidateId), s, false).response == Response(201, Message(VoteCastMessage))
    ensures |CastVote(claims, Some(candidateId), s, false).store.votes| == |s.votes| + 1
  {
  }
}
