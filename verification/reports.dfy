/** The read-only reporting routes: admin statistics, vote distribution, voter turnout, public results. */
module Reports {
  import opened Records
  import opened Tally
  import opened Http

  /** GET /api/admin/stats: vote rows, voter-role users, candidate rows. */
  function GetStats(claims: Claims, s: Store, fault: bool): (o: Outcome)
    ensures o.store == s
    ensures !IsAdmin(claims) ==> o == Reply(403, ForbiddenMessage, s)
    ensures IsAdmin(claims) && !fault ==>
              o.response == Response(200, Stats(|s.votes|, CountVoters(s.users), |s.candidates|))
    ensures IsAdmin(claims) && fault ==> o.response.status == 500
  {
    if !IsAdmin(claims) then Reply(403, ForbiddenMessage, s)
    else if fault then Reply(500, "Server error while fetching admin statistics.", s)
    else Outcome(Response(200, Stats(|s.votes|, CountVoters(s.users), |s.candidates|)), s)
  }

  /** GET /api/admin/vote-distribution: candidate names with their counts, most votes first. */
  function GetVoteDistribution(claims: Claims, s: Store, fault: bool): (o: Outcome)
    ensures o.store == s
    ensures !IsAdmin(claims) ==> o == Reply(403, ForbiddenMessage, s)
    ensures IsAdmin(claims) && !fault ==>
              && o.response == Response(200, Distribution(VoteDistribution(s.candidates, s.votes)))
              && |o.response.body.rows| == |s.candidates|
              && forall i, j :: 0 <= i < j < |o.response.body.rows| ==>
                   o.response.body.rows[i].votes >= o.response.body.rows[j].votes
    ensures IsAdmin(claims) && fault ==> o.response.status == 500
  {
    if !IsAdmin(claims) then Reply(403, ForbiddenMessage, s)
    else if fault then Reply(500, "Server error while fetching vote distribution.", s)
    else
      DistributionRanked(s.candidates, s.votes);
      Outcome(Response(200, Distribution(VoteDistribution(s.candidates, s.votes))), s)
  }

  /** GET /api/admin/voter-turnout: "Voted" is distinct voters, "Not Voted" the voter-role rest. */
  function GetVoterTurnout(claims: Claims, s: Store, fault: bool): (o: Outcome)
    ensures o.store == s
    ensures !IsAdmin(claims) ==> o == Reply(403, ForbiddenMessage, s)
    ensures IsAdmin(claims) && !fault ==>
              && o.response.status == 200 && o.response.body.TurnoutSplit?
              && o.response.body.voted == |VotedUsers(s.votes)|
              && o.response.body.voted + o.response.body.notVoted == CountVoters(s.users)
              && (Valid(s) ==> o.response.body.voted == |s.votes|)
    ensures IsAdmin(claims) && fault ==> o.response.status == 500
  {
    if !IsAdmin(claims) then Reply(403, ForbiddenMessage, s)
    else if fault then Reply(500, "Server error while fetching voter turnout.", s)
    else
      var t := VoterTurnout(s.users, s.votes);
      Outcome(Response(200, TurnoutSplit(t.voted, t.notVoted)), s)
  }

  /** GET /api/results: public, no token needed. */
  function GetResults(s: Store, fault: bool): (o: Outcome)
    ensures o.store == s
    ensures fault <==> o.response.status == 500
    ensures !fault ==>
              && o.response.status == 200
              && o.response.body == ResultsBody(ComputeResults(s.candidates, s.votes))
              && o.response.body.results.totalVotes == |s.votes|
  {
    if fault then Reply(500, "Server error while fetching results.", s)
    else Outcome(Response(200, ResultsBody(ComputeResults(s.candidates, s.votes))), s)
  }

  /**
   * The results a valid store publishes: every candidate once, ordered by
   * count, and, when the schema keeps votes pointing at stored candidates, the
   * counts add up to `totalVotes`.
   */
  lemma ResultsOfValidStore(s: Store)
    requires Valid(s)
    ensures var r := ComputeResults(s.candidates, s.votes);
            && r.totalVotes == |s.votes|
            && |r.rows| == |s.candidates|
            && (forall i, j :: 0 <= i < j < |r.rows| ==> r.rows[i].id != r.rows[j].id)
            && (forall i, j :: 0 <= i < j < |r.rows| ==> r.rows[i].votes >= r.rows[j].votes)
            && (s.refs != Unenforced ==> SumRowVotes(r.rows) == r.totalVotes)
  {
    ResultsDistinct(s.candidates, s.votes);
    ResultsRanked(s.candidates, s.votes);
    ResultsMatchLedger(s.candidates, s.votes);
  }

  /** Three candidates with 5, 3 and 2 votes: 50.0%, 30.0% and 20.0% of 10. */
  lemma FiveThreeTwo()
    ensures Percent(5, 10) == 500 && Percent(3, 10) == 300 && Percent(2, 10) == 200
    ensures Percent(1, 16) == 63
  {
  }
}
