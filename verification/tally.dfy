/**
 * The aggregate queries behind the results and admin dashboards, over the
 * `candidates` and `votes` relations: the LEFT JOIN / GROUP BY / ORDER BY
 * votes DESC tally, the rounded percentages, and the voted / not-voted split.
 */
module Tally {
  import opened Wrappers
  import opened Records

  /** `COUNT(v.id)` in the group of one candidate: the votes naming it. */
  function CountFor(votes: seq<Vote>, candidateId: int): (n: nat)
    ensures n <= |votes|
    ensures n == 0 <==> forall v :: v in votes ==> v.candidateId != candidateId
    decreases |votes|
  {
    if |votes| == 0 then 0
    else
      var last := votes[|votes| - 1];
      assert forall v :: v in votes ==> v in votes[..|votes| - 1] || v == last;
      CountFor(votes[..|votes| - 1], candidateId) + (if last.candidateId == candidateId then 1 else 0)
  }

  /** One group of the join: a candidate row with its vote count. */
  datatype Tally = Tally(candidate: Candidate, votes: nat)

  /** `candidates c LEFT JOIN votes v ON c.id = v.candidate_id GROUP BY c.id`, in candidate order. */
  function JoinCounts(candidates: seq<Candidate>, votes: seq<Vote>): seq<Tally>
    decreases |candidates|
  {
    if |candidates| == 0 then []
    else [Tally(candidates[0], CountFor(votes, candidates[0].id))] + JoinCounts(candidates[1..], votes)
  }

  function SumVotes(rows: seq<Tally>): nat
    decreases |rows|
  {
    if |rows| == 0 then 0 else rows[0].votes + SumVotes(rows[1..])
  }

  /** Number of candidate rows with this id (0 or 1 once ids are distinct). */
  function Occurrences(candidates: seq<Candidate>, id: int): nat
    decreases |candidates|
  {
    if |candidates| == 0 then 0
    else (if candidates[0].id == id then 1 else 0) + Occurrences(candidates[1..], id)
  }

  /** Number of votes whose candidate is still stored. */
  function Referenced(candidates: seq<Candidate>, votes: seq<Vote>): nat
    decreases |votes|
  {
    if |votes| == 0 then 0
    else
      Referenced(candidates, votes[..|votes| - 1])
      + (if HasCandidate(candidates, votes[|votes| - 1].candidateId) then 1 else 0)
  }

  /** The join has one group per candidate, each holding its own count. */
  lemma {:induction false} JoinCountsShape(candidates: seq<Candidate>, votes: seq<Vote>)
    ensures |JoinCounts(candidates, votes)| == |candidates|
    ensures forall i :: 0 <= i < |candidates| ==>
              JoinCounts(candidates, votes)[i] == Tally(candidates[i], CountFor(votes, candidates[i].id))
    decreases |candidates|
  {
    if |candidates| > 0 {
      JoinCountsShape(candidates[1..], votes);
    }
  }

  /** One more vote raises the sum of the groups by the number of groups it belongs to. */
  lemma {:induction false} SumAfterVote(candidates: seq<Candidate>, votes: seq<Vote>, v: Vote)
    ensures SumVotes(JoinCounts(candidates, votes + [v]))
         == SumVotes(JoinCounts(candidates, votes)) + Occurrences(candidates, v.candidateId)
    decreases |candidates|
  {
    if |candidates| > 0 {
      SumAfterVote(candidates[1..], votes, v);
      assert (votes + [v])[..|votes + [v]| - 1] == votes;
    }
  }

  /** With distinct candidate ids, a vote belongs to one group exactly when its candidate exists. */
  lemma {:induction false} OccurrencesOfDistinct(candidates: seq<Candidate>, id: int)
    requires CandidatesOrdered(candidates)
    ensures Occurrences(candidates, id) == (if HasCandidate(candidates, id) then 1 else 0)
    decreases |candidates|
  {
    if |candidates| > 0 {
      var rest := candidates[1..];
      OccurrencesOfDistinct(rest, id);
      assert forall c :: c in candidates <==> c == candidates[0] || c in rest;
    }
  }

  /**
   * The tally agrees with the ledger: the per-candidate counts add up to the
   * number of votes whose candidate is stored.
   */
  lemma {:induction false} SumIsReferenced(candidates: seq<Candidate>, votes: seq<Vote>)
    requires CandidatesOrdered(candidates)
    ensures SumVotes(JoinCounts(candidates, votes)) == Referenced(candidates, votes)
    decreases |votes|
  {
    if |votes| == 0 {
      ZeroVotesSumZero(candidates);
    } else {
      var init := votes[..|votes| - 1];
      var last := votes[|votes| - 1];
      assert votes == init + [last];
      SumIsReferenced(candidates, init);
      SumAfterVote(candidates, init, last);
      OccurrencesOfDistinct(candidates, last.candidateId);
    }
  }

  lemma {:induction false} ZeroVotesSumZero(candidates: seq<Candidate>)
    ensures SumVotes(JoinCounts(candidates, [])) == 0
    decreases |candidates|
  {
    if |candidates| > 0 {
      ZeroVotesSumZero(candidates[1..]);
    }
  }

  /** Every vote counts towards a group exactly when every vote names a stored candidate. */
  lemma {:induction false} ReferencedAll(candidates: seq<Candidate>, votes: seq<Vote>)
    ensures Referenced(candidates, votes) <= |votes|
    ensures Referenced(candidates, votes) == |votes| <==>
              forall v :: v in votes ==> HasCandidate(candidates, v.candidateId)
    decreases |votes|
  {
    if |votes| > 0 {
      var init := votes[..|votes| - 1];
      var last := votes[|votes| - 1];
      ReferencedAll(candidates, init);
      assert forall v :: v in votes <==> v in init || v == last;
    }
  }

  /** `ORDER BY votes DESC`. */
  predicate RankedByVotes(rows: seq<Tally>) {
    forall i, j :: 0 <= i < j < |rows| ==> rows[i].votes >= rows[j].votes
  }

  /** No candidate appears in two groups. */
  predicate DistinctCandidates(rows: seq<Tally>) {
    forall i, j :: 0 <= i < j < |rows| ==> rows[i].candidate.id != rows[j].candidate.id
  }

  /** Places `t` before the first group with no more votes than it, keeping earlier ties first. */
  function InsertByVotes(t: Tally, rows: seq<Tally>): (r: seq<Tally>)
    requires RankedByVotes(rows)
    ensures RankedByVotes(r)
    ensures multiset(r) == multiset(rows) + multiset{t}
    ensures SumVotes(r) == SumVotes(rows) + t.votes
    decreases |rows|
  {
    if |rows| == 0 then [t]
    else if t.votes >= rows[0].votes then
      assert ([t] + rows)[1..] == rows;
      [t] + rows
    else
      var tail := InsertByVotes(t, rows[1..]);
      assert rows == [rows[0]] + rows[1..];
      HeadBoundsInsert(rows[0].votes, t, rows[1..], tail);
      assert ([rows[0]] + tail)[1..] == tail;
      [rows[0]] + tail
  }

  /** A count that bounds `t` and every row also bounds any reordering of them. */
  lemma HeadBoundsInsert(h: nat, t: Tally, rows: seq<Tally>, r: seq<Tally>)
    requires t.votes <= h
    requires forall k :: 0 <= k < |rows| ==> rows[k].votes <= h
    requires multiset(r) == multiset(rows) + multiset{t}
    ensures forall k :: 0 <= k < |r| ==> r[k].votes <= h
  {
    forall k | 0 <= k < |r| ensures r[k].votes <= h {
      assert r[k] in multiset(r);
      if r[k] != t {
        assert r[k] in rows;
      }
    }
  }

  /** Stable sort of the groups by descending vote count. */
  function Rank(rows: seq<Tally>): (r: seq<Tally>)
    ensures RankedByVotes(r)
    ensures multiset(r) == multiset(rows)
    ensures SumVotes(r) == SumVotes(rows)
    decreases |rows|
  {
    if |rows| == 0 then []
    else
      assert rows == [rows[0]] + rows[1..];
      InsertByVotes(rows[0], Rank(rows[1..]))
  }

  /** A reordering of groups with distinct candidates still has distinct candidates. */
  lemma {:induction false} PermutationKeepsDistinct(a: seq<Tally>, b: seq<Tally>)
    requires multiset(a) == multiset(b)
    requires DistinctCandidates(a)
    ensures DistinctCandidates(b)
  {
    forall i, j | 0 <= i < j < |b| ensures b[i].candidate.id != b[j].candidate.id {
      if b[i].candidate.id == b[j].candidate.id {
        var bi, bj := b[i], b[j];
        assert bi in multiset(a) && bj in multiset(a);
        var p :| 0 <= p < |a| && a[p] == bi;
        var q :| 0 <= q < |a| && a[q] == bj;
        if p == q {
          assert b == b[..j] + [bj] + b[j + 1..];
          assert b[..j] == b[..i] + [bi] + b[i + 1..j];
          assert multiset(b)[bi] >= 2;
          OneOccurrence(a, p);
          assert false;
        }
      }
    }
  }

  /** In a sequence with distinct candidates, each group occurs once. */
  lemma {:induction false} OneOccurrence(a: seq<Tally>, p: nat)
    requires DistinctCandidates(a) && p < |a|
    ensures multiset(a)[a[p]] == 1
    decreases |a|
  {
    var x := a[p];
    assert a == a[..p] + [x] + a[p + 1..];
    assert x !in a[..p] by {
      forall k | 0 <= k < p ensures a[k] != x {
        assert a[k].candidate.id != a[p].candidate.id;
      }
    }
    assert x !in a[p + 1..] by {
      forall k | p < k < |a| ensures a[k] != x {
        assert a[p].candidate.id != a[k].candidate.id;
      }
    }
    assert multiset(a[..p])[x] == 0 && multiset(a[p + 1..])[x] == 0;
  }

  /** The ranked join: each stored candidate once, with its count, ordered by count. */
  function RankedTally(candidates: seq<Candidate>, votes: seq<Vote>): seq<Tally> {
    Rank(JoinCounts(candidates, votes))
  }

  /** Each group of the ranked join is a stored candidate with its own count. */
  lemma RankedTallyCounts(candidates: seq<Candidate>, votes: seq<Vote>)
    ensures |RankedTally(candidates, votes)| == |candidates|
    ensures forall i :: 0 <= i < |RankedTally(candidates, votes)| ==>
              && RankedTally(candidates, votes)[i].candidate in candidates
              && RankedTally(candidates, votes)[i].votes == CountFor(votes, RankedTally(candidates, votes)[i].candidate.id)
  {
    var j := JoinCounts(candidates, votes);
    var r := RankedTally(candidates, votes);
    JoinCountsShape(candidates, votes);
    assert |r| == |multiset(r)| == |multiset(j)| == |j|;
    forall i | 0 <= i < |r| ensures r[i].candidate in candidates && r[i].votes == CountFor(votes, r[i].candidate.id) {
      assert r[i] in multiset(j);
    }
  }

  /** Every stored candidate has a group, zero-vote candidates included. */
  lemma RankedTallyCovers(candidates: seq<Candidate>, votes: seq<Vote>, c: Candidate)
    requires c in candidates
    ensures exists i :: 0 <= i < |RankedTally(candidates, votes)|
                        && RankedTally(candidates, votes)[i] == Tally(c, CountFor(votes, c.id))
  {
    var j := JoinCounts(candidates, votes);
    JoinCountsShape(candidates, votes);
    var k :| 0 <= k < |candidates| && candidates[k] == c;
    assert j[k] in multiset(RankedTally(candidates, votes));
  }

  /** With distinct candidate ids no candidate has two groups. */
  lemma RankedTallyDistinct(candidates: seq<Candidate>, votes: seq<Vote>)
    requires CandidatesOrdered(candidates)
    ensures DistinctCandidates(RankedTally(candidates, votes))
  {
    var j := JoinCounts(candidates, votes);
    JoinCountsShape(candidates, votes);
    assert DistinctCandidates(j);
    PermutationKeepsDistinct(j, RankedTally(candidates, votes));
  }

  /** The candidate and vote counts add up when no vote is dangling. */
  lemma RankedTallySum(candidates: seq<Candidate>, votes: seq<Vote>)
    requires CandidatesOrdered(candidates)
    ensures SumVotes(RankedTally(candidates, votes)) == Referenced(candidates, votes)
    ensures (forall v :: v in votes ==> HasCandidate(candidates, v.candidateId)) <==>
              SumVotes(RankedTally(candidates, votes)) == |votes|
  {
    SumIsReferenced(candidates, votes);
    ReferencedAll(candidates, votes);
  }

  /**
   * `(votes / totalVotes * 100).toFixed(1)`, in tenths of a percent: 0 when there
   * are no votes, otherwise the nearest tenth with halves rounded up.
   */
  function Percent(votes: nat, total: nat): (tenths: nat)
    ensures total == 0 ==> tenths == 0
    ensures votes <= total ==> tenths <= 1000
  {
    if total == 0 then 0
    else
      var q := (2000 * votes + total) / (2 * total);
      assert votes <= total ==> q <= 1000 by {
        if votes <= total {
          PercentRounding(votes, total);
          assert (2 * total) * q < (2 * total) * 1001;
          MulCancel(q, 1001, 2 * total);
        }
      }
      q
  }

  /** The percentage is the nearest tenth of `votes / total * 100`, a tie going up. */
  lemma PercentRounding(votes: nat, total: nat)
    requires total > 0
    ensures var tenths := (2000 * votes + total) / (2 * total);
            2 * total * tenths <= 2000 * votes + total < 2 * total * tenths + 2 * total
  {
  }

  /** `Percent` as the nearest tenth: scaled by `2 * total`, within half a tenth below and above. */
  lemma PercentIsNearestTenth(votes: nat, total: nat)
    requires total > 0
    ensures 2 * total * Percent(votes, total) <= 2000 * votes + total < 2 * total * Percent(votes, total) + 2 * total
  {
    PercentRounding(votes, total);
  }

  lemma MulCancel(a: int, b: int, c: int)
    requires c > 0 && c * a < c * b
    ensures a < b
  {
  }

  function SumTenths(rows: seq<Tally>, total: nat): nat
    decreases |rows|
  {
    if |rows| == 0 then 0 else Percent(rows[0].votes, total) + SumTenths(rows[1..], total)
  }

  /** Scaled by `2 * total`, each group's rounding error is at most half a tenth. */
  lemma {:induction false} SumTenthsScaled(rows: seq<Tally>, total: nat)
    requires total > 0
    ensures 2 * total * SumTenths(rows, total) <= 2000 * SumVotes(rows) + |rows| * total
    ensures 2000 * SumVotes(rows) <= 2 * total * SumTenths(rows, total) + |rows| * total
    decreases |rows|
  {
    if |rows| > 0 {
      var rest := rows[1..];
      SumTenthsScaled(rest, total);
      var p := Percent(rows[0].votes, total);
      PercentIsNearestTenth(rows[0].votes, total);
      var s' := SumTenths(rest, total);
      var n' := |rest|;
      assert SumTenths(rows, total) == p + s';
      assert SumVotes(rows) == rows[0].votes + SumVotes(rest);
      assert |rows| == n' + 1;
      Distribute(2 * total, p, s');
      Distribute(total, n', 1);
      Commute(total, n' + 1);
      Commute(total, n');
    }
  }

  lemma Distribute(a: int, b: int, c: int)
    ensures a * (b + c) == a * b + a * c
  {
  }

  lemma Commute(a: int, b: int)
    ensures a * b == b * a
  {
  }

  /**
   * With no dangling votes and at least one vote, the rounded percentages of the
   * `n` candidates add up to 100 within `n` half-tenths.
   */
  lemma PercentagesNearHundred(rows: seq<Tally>, total: nat)
    requires total > 0 && SumVotes(rows) == total
    ensures 2 * SumTenths(rows, total) <= 2000 + |rows|
    ensures 2000 <= 2 * SumTenths(rows, total) + |rows|
  {
    SumTenthsScaled(rows, total);
    var s := SumTenths(rows, total);
    var n := |rows|;
    assert 2 * total * s == total * (2 * s);
    Commute(n, total);
    Distribute(total, 2000, n);
    Distribute(total, 2 * s, n);
    CancelTotal(total, s, n);
  }

  lemma CancelTotal(t: int, s: int, n: int)
    requires t > 0
    requires t * (2 * s) <= t * (2000 + n)
    requires t * 2000 <= t * (2 * s + n)
    ensures 2 * s <= 2000 + n && 2000 <= 2 * s + n
  {
    if 2 * s > 2000 + n {
      MulMono(t, 2 * s, 2001 + n);
      Distribute(t, 2000 + n, 1);
    }
    if 2000 > 2 * s + n {
      MulMono(t, 2000, 2 * s + n + 1);
      Distribute(t, 2 * s + n, 1);
    }
  }

  lemma MulMono(t: int, x: int, y: int)
    requires t >= 0 && x >= y
    ensures t * x >= t * y
  {
    Distribute(t, y, x - y);
  }

  /** A row of the public results: the candidate's columns, its count and its percentage in tenths. */
  datatype ResultRow = ResultRow(id: int, name: string, party: string, description: string, votes: nat, percentage: nat)

  datatype Results = Results(rows: seq<ResultRow>, totalVotes: nat)

  function ResultRows(rows: seq<Tally>, total: nat): (r: seq<ResultRow>)
    ensures |r| == |rows|
    ensures forall i :: 0 <= i < |r| ==>
              && r[i].id == rows[i].candidate.id && r[i].name == rows[i].candidate.name
              && r[i].party == rows[i].candidate.party && r[i].description == rows[i].candidate.description
              && r[i].votes == rows[i].votes && r[i].percentage == Percent(rows[i].votes, total)
  {
    seq(|rows|, i requires 0 <= i < |rows| =>
      var c := rows[i].candidate;
      ResultRow(c.id, c.name, c.party, c.description, rows[i].votes, Percent(rows[i].votes, total)))
  }

  /**
   * The public results: the ranked tally with each count turned into a
   * percentage of `COUNT(*) FROM votes`.
   */
  function ComputeResults(candidates: seq<Candidate>, votes: seq<Vote>): (r: Results)
    ensures r.totalVotes == |votes|
    ensures |r.rows| == |candidates|
  {
    RankedTallyCounts(candidates, votes);
    Results(ResultRows(RankedTally(candidates, votes), |votes|), |votes|)
  }

  /** The result rows are ordered by non-increasing vote count. */
  lemma ResultsRanked(candidates: seq<Candidate>, votes: seq<Vote>)
    ensures var rows := ComputeResults(candidates, votes).rows;
            forall i, j :: 0 <= i < j < |rows| ==> rows[i].votes >= rows[j].votes
  {
  }

  /** Every candidate appears in the results with its columns and its count (once: see `ResultsDistinct`). */
  lemma ResultsCoverCandidates(candidates: seq<Candidate>, votes: seq<Vote>, c: Candidate)
    requires c in candidates
    ensures var rows := ComputeResults(candidates, votes).rows;
            exists i :: 0 <= i < |rows| && rows[i].id == c.id && rows[i].name == c.name
                        && rows[i].party == c.party && rows[i].description == c.description
                        && rows[i].votes == CountFor(votes, c.id)
  {
    var ranked := RankedTally(candidates, votes);
    RankedTallyCovers(candidates, votes, c);
    var i :| 0 <= i < |ranked| && ranked[i] == Tally(c, CountFor(votes, c.id));
    assert ComputeResults(candidates, votes).rows[i].id == c.id;
  }

  /** With distinct candidate ids no candidate appears twice in the results. */
  lemma ResultsDistinct(candidates: seq<Candidate>, votes: seq<Vote>)
    requires CandidatesOrdered(candidates)
    ensures var rows := ComputeResults(candidates, votes).rows;
            forall i, j :: 0 <= i < j < |rows| ==> rows[i].id != rows[j].id
  {
    RankedTallyDistinct(candidates, votes);
  }

  /**
   * Each row's count is its candidate's share of the ledger, and its percentage
   * lies in [0, 100], and is 0 for everyone while no vote has been cast.
   */
  lemma ResultsPercentages(candidates: seq<Candidate>, votes: seq<Vote>)
    ensures var r := ComputeResults(candidates, votes);
            forall i :: 0 <= i < |r.rows| ==>
              && r.rows[i].votes <= r.totalVotes
              && r.rows[i].percentage == Percent(r.rows[i].votes, r.totalVotes)
              && r.rows[i].percentage <= 1000
              && (r.totalVotes == 0 ==> r.rows[i].percentage == 0)
  {
    var ranked := RankedTally(candidates, votes);
    RankedTallyCounts(candidates, votes);
    var rows := ComputeResults(candidates, votes).rows;
    forall i | 0 <= i < |rows| ensures rows[i].votes <= |votes| {
      assert rows[i].votes == CountFor(votes, ranked[i].candidate.id);
    }
  }

  /** The per-candidate counts of the results add up to `totalVotes` exactly when no vote is dangling. */
  lemma ResultsMatchLedger(candidates: seq<Candidate>, votes: seq<Vote>)
    requires CandidatesOrdered(candidates)
    ensures var r := ComputeResults(candidates, votes);
            (forall v :: v in votes ==> HasCandidate(candidates, v.candidateId)) <==>
              SumRowVotes(r.rows) == r.totalVotes
  {
    RankedTallySum(candidates, votes);
    RowVotesMatch(RankedTally(candidates, votes), |votes|);
  }

  function SumRowVotes(rows: seq<ResultRow>): nat
    decreases |rows|
  {
    if |rows| == 0 then 0 else rows[0].votes + SumRowVotes(rows[1..])
  }

  function SumRowPercentages(rows: seq<ResultRow>): nat
    decreases |rows|
  {
    if |rows| == 0 then 0 else rows[0].percentage + SumRowPercentages(rows[1..])
  }

  lemma {:induction false} RowVotesMatch(rows: seq<Tally>, total: nat)
    ensures SumRowVotes(ResultRows(rows, total)) == SumVotes(rows)
    ensures SumRowPercentages(ResultRows(rows, total)) == SumTenths(rows, total)
    decreases |rows|
  {
    if |rows| > 0 {
      RowVotesMatch(rows[1..], total);
      assert ResultRows(rows, total)[1..] == ResultRows(rows[1..], total);
    }
  }

  /** With votes and no dangling vote, the displayed percentages add up to 100 within rounding. */
  lemma ResultPercentagesNearHundred(candidates: seq<Candidate>, votes: seq<Vote>)
    requires CandidatesOrdered(candidates)
    requires |votes| > 0
    requires forall v :: v in votes ==> HasCandidate(candidates, v.candidateId)
    ensures var r := ComputeResults(candidates, votes);
            && 2 * SumRowPercentages(r.rows) <= 2000 + |candidates|
            && 2000 <= 2 * SumRowPercentages(r.rows) + |candidates|
  {
    var ranked := RankedTally(candidates, votes);
    RankedTallySum(candidates, votes);
    RowVotesMatch(ranked, |votes|);
    PercentagesNearHundred(ranked, |votes|);
  }

  /** `SELECT c.name, COUNT(v.id) AS votes ... ORDER BY votes DESC`: the admin chart rows. */
  datatype NameVotes = NameVotes(name: string, votes: nat)

  /** The chart rows of a ranked tally: each group's candidate name and count. */
  function NameRows(rows: seq<Tally>): (r: seq<NameVotes>)
    ensures |r| == |rows|
    ensures forall i :: 0 <= i < |r| ==> r[i] == NameVotes(rows[i].candidate.name, rows[i].votes)
  {
    seq(|rows|, i requires 0 <= i < |rows| => NameVotes(rows[i].candidate.name, rows[i].votes))
  }

  function VoteDistribution(candidates: seq<Candidate>, votes: seq<Vote>): (r: seq<NameVotes>)
    ensures |r| == |candidates|
  {
    RankedTallyCounts(candidates, votes);
    NameRows(RankedTally(candidates, votes))
  }

  /** The chart rows come most votes first. */
  lemma DistributionRanked(candidates: seq<Candidate>, votes: seq<Vote>)
    ensures var r := VoteDistribution(candidates, votes);
            forall i, j :: 0 <= i < j < |r| ==> r[i].votes >= r[j].votes
  {
    var ranked := RankedTally(candidates, votes);
    assert RankedByVotes(ranked);
  }

  /** Every stored candidate has its chart row, zero-vote candidates included. */
  lemma DistributionCovers(candidates: seq<Candidate>, votes: seq<Vote>, c: Candidate)
    requires c in candidates
    ensures NameVotes(c.name, CountFor(votes, c.id)) in VoteDistribution(candidates, votes)
  {
    RankedTallyCovers(candidates, votes, c);
    var i :| 0 <= i < |RankedTally(candidates, votes)| && RankedTally(candidates, votes)[i] == Tally(c, CountFor(votes, c.id));
    assert VoteDistribution(candidates, votes)[i] == NameVotes(c.name, CountFor(votes, c.id));
  }

  /** Each chart row is a stored candidate's name with that candidate's count. */
  lemma DistributionCounts(candidates: seq<Candidate>, votes: seq<Vote>)
    ensures var r := VoteDistribution(candidates, votes);
            forall i :: 0 <= i < |r| ==>
              exists c :: c in candidates && c.name == r[i].name && r[i].votes == CountFor(votes, c.id)
  {
    var ranked := RankedTally(candidates, votes);
    var r := VoteDistribution(candidates, votes);
    RankedTallyCounts(candidates, votes);
    forall i | 0 <= i < |r| ensures exists c :: c in candidates && c.name == r[i].name && r[i].votes == CountFor(votes, c.id) {
      var c := ranked[i].candidate;
      assert c in candidates && c.name == r[i].name && r[i].votes == CountFor(votes, c.id);
    }
  }

  /** `COUNT(DISTINCT user_id) FROM votes`. */
  function VotedUsers(votes: seq<Vote>): set<int> {
    set v | v in votes :: v.userId
  }

  /** `COUNT(*) FROM users WHERE role = 'voter'`. */
  function CountVoters(users: seq<User>): nat
    decreases |users|
  {
    if |users| == 0 then 0
    else CountVoters(users[..|users| - 1]) + (if users[|users| - 1].role == Voter then 1 else 0)
  }

  /** The voter-turnout split: "Voted" and "Not Voted". */
  datatype Turnout = Turnout(voted: nat, notVoted: int)

  function VoterTurnout(users: seq<User>, votes: seq<Vote>): (t: Turnout)
    ensures t.voted <= |votes|
    ensures OneVotePerUser(votes) ==> t.voted == |votes|
    ensures t.voted + t.notVoted == CountVoters(users)
  {
    DistinctVotersBound(votes);
    Turnout(|VotedUsers(votes)|, CountVoters(users) - |VotedUsers(votes)|)
  }

  /** Distinct voters never outnumber ballots, and match them under one vote per user. */
  lemma {:induction false} DistinctVotersBound(votes: seq<Vote>)
    ensures |VotedUsers(votes)| <= |votes|
    ensures OneVotePerUser(votes) ==> |VotedUsers(votes)| == |votes|
    decreases |votes|
  {
    if |votes| > 0 {
      var init := votes[..|votes| - 1];
      var last := votes[|votes| - 1];
      DistinctVotersBound(init);
      assert VotedUsers(votes) == VotedUsers(init) + {last.userId} by {
        assert forall v :: v in votes <==> v in init || v == last;
      }
      if OneVotePerUser(votes) {
        assert OneVotePerUser(init);
      }
    }
  }

  /** Ids of the users whose role is voter. */
  function VoterIds(users: seq<User>): set<int> {
    set u | u in users && u.role == Voter :: u.id
  }

  lemma {:induction false} VoterIdsBound(users: seq<User>)
    ensures |VoterIds(users)| <= CountVoters(users)
    decreases |users|
  {
    if |users| > 0 {
      var init := users[..|users| - 1];
      var last := users[|users| - 1];
      VoterIdsBound(init);
      assert forall u :: u in users <==> u in init || u == last;
      if last.role == Voter {
        assert VoterIds(users) == VoterIds(init) + {last.id};
      } else {
        assert VoterIds(users) == VoterIds(init);
      }
    }
  }

  /** "Not Voted" is non-negative when only voter-role users have voted. */
  lemma NotVotedNonNegative(users: seq<User>, votes: seq<Vote>)
    requires forall v :: v in votes ==> exists u :: u in users && u.id == v.userId && u.role == Voter
    ensures VoterTurnout(users, votes).notVoted >= 0
  {
    assert VotedUsers(votes) <= VoterIds(users);
    SubsetCard(VotedUsers(votes), VoterIds(users));
    VoterIdsBound(users);
  }

  lemma SubsetCard(a: set<int>, b: set<int>)
    requires a <= b
    ensures |a| <= |b|
  {
    assert b == a + (b - a);
  }

  /** The vote route does not check the caller's role, so an admin's ballot can drive "Not Voted" below zero. */
  lemma NotVotedCanBeNegative()
    ensures var admin := User(1, None, "root@admin.gmail.com", Digest("h"), Admin);
            VoterTurnout([admin], [Vote(1, 1, 1)]) == Turnout(1, -1)
  {
    var admin := User(1, None, "root@admin.gmail.com", Digest("h"), Admin);
    assert VotedUsers([Vote(1, 1, 1)]) == {1};
    assert [admin][..0] == [];
  }
}
