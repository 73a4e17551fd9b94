/**
 * The candidate registry routes: create, update and delete, all admin-only.
 * The role test comes before any read or write; name and party are required
 * for create and update, and a falsy description is stored as ''.
 */
module Registry {
  import opened Wrappers
  import opened JsText
  import opened Records
  import opened Http
  import opened Ballot

  const NameAndPartyRequired := "Candidate name and party are required."
  const CandidateNotFound := "Candidate not found."

  function FindCandidate(candidates: seq<Candidate>, id: int): (r: Option<Candidate>)
    ensures r.None? <==> !HasCandidate(candidates, id)
    ensures r.Some? ==> r.value in candidates && r.value.id == id
  {
    if |candidates| == 0 then None
    else if candidates[0].id == id then Some(candidates[0])
    else FindCandidate(candidates[1..], id)
  }

  /** `UPDATE candidates SET name, party, description WHERE id = $4`. */
  function ReplaceCandidate(candidates: seq<Candidate>, id: int, name: string, party: string, description: string)
    : seq<Candidate>
  {
    seq(|candidates|, i requires 0 <= i < |candidates| =>
      if candidates[i].id == id then candidates[i].(name := name, party := party, description := description)
      else candidates[i])
  }

  /** `DELETE FROM candidates WHERE id = $1`. */
  function RemoveCandidate(candidates: seq<Candidate>, id: int): (r: seq<Candidate>)
    ensures forall c :: c in r <==> c in candidates && c.id != id
    ensures CandidatesOrdered(candidates) ==> CandidatesOrdered(r)
    decreases |candidates|
  {
    if |candidates| == 0 then []
    else
      var rest := RemoveCandidate(candidates[1..], id);
      assert forall c :: c in candidates <==> c == candidates[0] || c in candidates[1..];
      if candidates[0].id == id then rest
      else
        assert forall k :: 0 <= k < |rest| ==> rest[k] in candidates[1..];
        [candidates[0]] + rest
  }

  /** ON DELETE CASCADE: the votes for the deleted candidate go with it. */
  function RemoveVotesFor(votes: seq<Vote>, candidateId: int): (r: seq<Vote>)
    ensures forall v :: v in r <==> v in votes && v.candidateId != candidateId
    ensures VotesOrdered(votes) ==> VotesOrdered(r)
    decreases |votes|
  {
    if |votes| == 0 then []
    else
      var rest := RemoveVotesFor(votes[1..], candidateId);
      assert forall v :: v in votes <==> v == votes[0] || v in votes[1..];
      if votes[0].candidateId == candidateId then rest
      else
        assert forall k :: 0 <= k < |rest| ==> rest[k] in votes[1..];
        [votes[0]] + rest
  }

  /** POST /api/admin/candidates. */
  function CreateCandidate(claims: Claims, name: Option<string>, party: Option<string>, description: Option<string>,
                           s: Store, fault: bool): (o: Outcome)
    ensures !IsAdmin(claims) ==> o == Reply(403, ForbiddenMessage, s)
    ensures o.response.status == 403 <==> !IsAdmin(claims)
    ensures o.response.status == 400 <==> IsAdmin(claims) && (FalsyText(name) || FalsyText(party))
    ensures o.response.status == 500 <==> IsAdmin(claims) && !FalsyText(name) && !FalsyText(party) && fault
    ensures o.response.status in {201, 400, 403, 500}
    ensures o.response.status == 201 ==>
              && IsAdmin(claims) && !fault
              && var c := Candidate(s.nextCandidateId, name.value, party.value, OrEmpty(description), None);
                 && o.response.body == CandidateSaved("Candidate added successfully!", c)
                 && o.store == s.(candidates := s.candidates + [c], nextCandidateId := s.nextCandidateId + 1)
    ensures o.response.status != 201 ==> o.store == s
  {
    if !IsAdmin(claims) then Reply(403, ForbiddenMessage, s)
    else if FalsyText(name) || FalsyText(party) then Reply(400, NameAndPartyRequired, s)
    else if fault then Reply(500, "Server error while adding candidate.", s)
    else
      var c := Candidate(s.nextCandidateId, name.value, party.value, OrEmpty(description), None);
      Outcome(Response(201, CandidateSaved("Candidate added successfully!", c)),
              s.(candidates := s.candidates + [c], nextCandidateId := s.nextCandidateId + 1))
  }

  /**
   * PUT /api/admin/candidates/:id. `id` is None when the path segment is not an
   * integer; it and an integer outside the column's range are refused by the
   * store (500).
   */
  function UpdateCandidate(claims: Claims, id: Option<int>, name: Option<string>, party: Option<string>,
                           description: Option<string>, s: Store, fault: bool): (o: Outcome)
    ensures !IsAdmin(claims) ==> o == Reply(403, ForbiddenMessage, s)
    ensures o.response.status == 400 <==> IsAdmin(claims) && (FalsyText(name) || FalsyText(party))
    ensures o.response.status in {200, 400, 403, 404, 500}
    ensures o.response.status == 403 <==> !IsAdmin(claims)
    ensures o.response.status == 500 <==>
              IsAdmin(claims) && !FalsyText(name) && !FalsyText(party)
              && (fault || id.None? || !FitsInteger(id.value))
    ensures o.response.status == 404 <==>
              IsAdmin(claims) && !FalsyText(name) && !FalsyText(party) && !fault && id.Some?
              && FitsInteger(id.value) && !HasCandidate(s.candidates, id.value)
    ensures o.response.status == 200 <==>
              IsAdmin(claims) && !FalsyText(name) && !FalsyText(party) && !fault && id.Some?
              && FitsInteger(id.value) && HasCandidate(s.candidates, id.value)
    ensures o.response.status == 200 ==>
              && id.Some? && HasCandidate(s.candidates, id.value)
              && |o.store.candidates| == |s.candidates|
              && o.store == s.(candidates := o.store.candidates)
              && forall i :: 0 <= i < |s.candidates| ==>
                   o.store.candidates[i]
                   == (if s.candidates[i].id == id.value
                       then s.candidates[i].(name := name.value, party := party.value, description := OrEmpty(description))
                       else s.candidates[i])
    ensures o.response.status == 200 ==>
              var updated := FindCandidate(s.candidates, id.value).value
                               .(name := name.value, party := party.value, description := OrEmpty(description));
              && o.response.body == CandidateSaved("Candidate updated successfully!", updated)
              && updated in o.store.candidates
    ensures o.response.status != 200 ==> o.store == s
  {
    if !IsAdmin(claims) then Reply(403, ForbiddenMessage, s)
    else if FalsyText(name) || FalsyText(party) then Reply(400, NameAndPartyRequired, s)
    else if fault || id.None? || !FitsInteger(id.value) then Reply(500, "Server error while updating candidate.", s)
    else
      match FindCandidate(s.candidates, id.value)
      case None => Reply(404, CandidateNotFound, s)
      case Some(c) =>
        var desc := OrEmpty(description);
        var updated := c.(name := name.value, party := party.value, description := desc);
        Outcome(Response(200, CandidateSaved("Candidate updated successfully!", updated)),
                s.(candidates := ReplaceCandidate(s.candidates, id.value, name.value, party.value, desc)))
  }

  /** Whether some vote still names the candidate. */
  predicate HasVotesFor(votes: seq<Vote>, candidateId: int) {
    exists v :: v in votes && v.candidateId == candidateId
  }

  /**
   * DELETE /api/admin/candidates/:id. With a restricting reference a candidate
   * that has votes cannot be deleted (the store error answers 500); with a
   * cascading one its votes are deleted with it.
   */
  function DeleteCandidate(claims: Claims, id: Option<int>, s: Store, fault: bool): (o: Outcome)
    ensures !IsAdmin(claims) ==> o == Reply(403, ForbiddenMessage, s)
    ensures o.response.status in {200, 403, 404, 500}
    ensures o.response.status == 403 <==> !IsAdmin(claims)
    ensures o.response.status == 500 <==>
              IsAdmin(claims)
              && (fault || id.None? || !FitsInteger(id.value)
                  || (s.refs == RestrictDelete && HasCandidate(s.candidates, id.value) && HasVotesFor(s.votes, id.value)))
    ensures o.response.status == 404 <==>
              IsAdmin(claims) && !fault && id.Some? && FitsInteger(id.value) && !HasCandidate(s.candidates, id.value)
    ensures o.response.status == 200 <==>
              IsAdmin(claims) && !fault && id.Some? && FitsInteger(id.value) && HasCandidate(s.candidates, id.value)
              && !(s.refs == RestrictDelete && HasVotesFor(s.votes, id.value))
    ensures o.response.status == 200 ==>
              && id.Some? && HasCandidate(s.candidates, id.value)
              && (forall c :: c in o.store.candidates <==> c in s.candidates && c.id != id.value)
              && (s.refs == RestrictDelete ==> !HasVotesFor(s.votes, id.value))
              && (forall v :: v in o.store.votes <==>
                    v in s.votes && (s.refs != CascadeDelete || v.candidateId != id.value))
              && o.store == s.(candidates := o.store.candidates, votes := o.store.votes)
    ensures o.response.status != 200 ==> o.store == s
  {
    if !IsAdmin(claims) then Reply(403, ForbiddenMessage, s)
    else if fault || id.None? || !FitsInteger(id.value) then Reply(500, "Server error while deleting candidate.", s)
    else if !HasCandidate(s.candidates, id.value) then Reply(404, CandidateNotFound, s)
    else if s.refs == RestrictDelete && HasVotesFor(s.votes, id.value) then
      Reply(500, "Server error while deleting candidate.", s)
    else
      var votes := if s.refs == CascadeDelete then RemoveVotesFor(s.votes, id.value) else s.votes;
      Outcome(Response(200, Message("Candidate deleted successfully!")),
              s.(candidates := RemoveCandidate(s.candidates, id.value), votes := votes))
  }

  lemma CreateCandidateKeepsValid(claims: Claims, name: Option<string>, party: Option<string>,
                                  description: Option<string>, s: Store, fault: bool)
    requires Valid(s)
    ensures Valid(CreateCandidate(claims, name, party, description, s, fault).store)
  {
    var o := CreateCandidate(claims, name, party, description, s, fault);
    if o.response.status == 201 {
      var s' := o.store;
      var n := |s.candidates|;
      assert forall i :: 0 <= i < n ==> s'.candidates[i] == s.candidates[i] && s.candidates[i] in s.candidates;
      forall v | v in s'.votes && s'.refs != Unenforced
        ensures HasUser(s'.users, v.userId) && HasCandidate(s'.candidates, v.candidateId)
      {
        var c :| c in s.candidates && c.id == v.candidateId;
        assert c in s'.candidates;
      }
    }
  }

  lemma UpdateCandidateKeepsValid(claims: Claims, id: Option<int>, name: Option<string>, party: Option<string>,
                                  description: Option<string>, s: Store, fault: bool)
    requires Valid(s)
    ensures Valid(UpdateCandidate(claims, id, name, party, description, s, fault).store)
  {
    var o := UpdateCandidate(claims, id, name, party, description, s, fault);
    if o.response.status == 200 {
      var s' := o.store;
      assert forall i :: 0 <= i < |s.candidates| ==> s'.candidates[i].id == s.candidates[i].id;
      SameIdsSameRows(s.candidates, s'.candidates, s.nextCandidateId);
    }
  }

  /** Rewriting candidate rows in place without touching their ids keeps every id fact. */
  lemma SameIdsSameRows(before: seq<Candidate>, after: seq<Candidate>, next: int)
    requires |before| == |after|
    requires forall i :: 0 <= i < |before| ==> after[i].id == before[i].id
    ensures CandidatesOrdered(before) ==> CandidatesOrdered(after)
    ensures (forall c :: c in before ==> 1 <= c.id < next) ==> (forall c :: c in after ==> 1 <= c.id < next)
    ensures forall id :: HasCandidate(before, id) ==> HasCandidate(after, id)
  {
    if forall c :: c in before ==> 1 <= c.id < next {
      forall c | c in after ensures 1 <= c.id < next {
        var i :| 0 <= i < |after| && after[i] == c;
        assert before[i] in before;
      }
    }
    forall id | HasCandidate(before, id) ensures HasCandidate(after, id) {
      var c :| c in before && c.id == id;
      var i :| 0 <= i < |before| && before[i] == c;
      assert after[i] in after;
    }
  }

  lemma DeleteCandidateKeepsValid(claims: Claims, id: Option<int>, s: Store, fault: bool)
    requires Valid(s)
    ensures Valid(DeleteCandidate(claims, id, s, fault).store)
  {
    var o := DeleteCandidate(claims, id, s, fault);
    if o.response.status == 200 {
      var s' := o.store;
      if s.refs == CascadeDelete {
        OrderedVotesOneEach(s.votes, s'.votes);
      } else {
        assert s'.votes == s.votes;
      }
      forall v | v in s'.votes && s'.refs != Unenforced
        ensures HasUser(s'.users, v.userId) && HasCandidate(s'.candidates, v.candidateId)
      {
        var c :| c in s.candidates && c.id == v.candidateId;
        assert c in s'.candidates;
      }
    }
  }

  /** A vote subsequence, still ordered by id, still holds one vote per user. */
  lemma OrderedVotesOneEach(votes: seq<Vote>, kept: seq<Vote>)
    requires OneVotePerUser(votes) && VotesOrdered(votes)
    requires VotesOrdered(kept)
    requires forall v :: v in kept ==> v in votes
    ensures OneVotePerUser(kept)
  {
    forall i, j | 0 <= i < j < |kept| ensures kept[i].userId != kept[j].userId {
      assert kept[i] in votes && kept[j] in votes;
      var p :| 0 <= p < |votes| && votes[p] == kept[i];
      var q :| 0 <= q < |votes| && votes[q] == kept[j];
      assert p != q;
    }
  }

  /**
   * Create then list: a created candidate appears in the candidate list with
   * exactly the submitted name and party, and the description or ''.
   */
  lemma CreateThenList(claims: Claims, name: string, party: string, description: Option<string>, s: Store)
    requires IsAdmin(claims) && name != "" && party != ""
    ensures var o := CreateCandidate(claims, Some(name), Some(party), description, s, false);
            var listed := ListCandidates(o.store, false).response.body.candidates;
            && o.response.status == 201
            && exists c :: c in listed && c.id == s.nextCandidateId
                           && c.name == name && c.party == party && c.description == OrEmpty(description)
  {
    var o := CreateCandidate(claims, Some(name), Some(party), description, s, false);
    assert o.store.candidates[|s.candidates|] in o.store.candidates;
  }

  /** A successful delete removes exactly one candidate row. */
  lemma DeleteRemovesOne(claims: Claims, id: int, s: Store)
    requires Valid(s)
    requires DeleteCandidate(claims, Some(id), s, false).response.status == 200
    ensures |DeleteCandidate(claims, Some(id), s, false).store.candidates| == |s.candidates| - 1
  {
    var cs := s.candidates;
    var k :| 0 <= k < |cs| && cs[k].id == id;
    RemoveOrdered(cs, k);
  }

  lemma {:induction false} RemoveOrdered(candidates: seq<Candidate>, k: nat)
    requires CandidatesOrdered(candidates) && k < |candidates|
    ensures RemoveCandidate(candidates, candidates[k].id) == candidates[..k] + candidates[k + 1..]
    decreases |candidates|
  {
    var id := candidates[k].id;
    var rest := candidates[1..];
    if k == 0 {
      TailAbove(candidates);
      KeepAll(rest, id);
    } else {
      assert CandidatesOrdered(rest);
      assert rest[k - 1] == candidates[k];
      RemoveOrdered(rest, k - 1);
      assert candidates[0].id < id;
      RemoveCons(candidates, id);
      SliceShift(candidates, k);
    }
  }

  /** In an id-ordered table every later row has a larger id than the first. */
  lemma TailAbove(candidates: seq<Candidate>)
    requires CandidatesOrdered(candidates) && |candidates| > 0
    ensures forall c :: c in candidates[1..] ==> c.id > candidates[0].id
  {
    forall c | c in candidates[1..] ensures c.id > candidates[0].id {
      var i :| 0 <= i < |candidates[1..]| && candidates[1..][i] == c;
      assert candidates[i + 1] == c;
    }
  }

  /** A first row with another id is kept in front. */
  lemma RemoveCons(candidates: seq<Candidate>, id: int)
    requires |candidates| > 0 && candidates[0].id != id
    ensures RemoveCandidate(candidates, id) == [candidates[0]] + RemoveCandidate(candidates[1..], id)
  {
  }

  lemma SliceShift(s: seq<Candidate>, k: nat)
    requires 0 < k < |s|
    ensures [s[0]] + (s[1..][..k - 1] + s[1..][k..]) == s[..k] + s[k + 1..]
  {
    assert s[1..][..k - 1] == s[1..k];
    assert s[1..][k..] == s[k + 1..];
    assert [s[0]] + s[1..k] == s[..k];
  }

  lemma {:induction false} KeepAll(candidates: seq<Candidate>, id: int)
    requires forall c :: c in candidates ==> c.id > id
    ensures RemoveCandidate(candidates, id) == candidates
    decreases |candidates|
  {
    if |candidates| > 0 {
      KeepAll(candidates[1..], id);
    }
  }
}
