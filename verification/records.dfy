/**
 * The relational store behind the API, as in-memory relations: the `users`,
 * `candidates` and `votes` tables, their serial id counters, and the schema
 * facts the handlers depend on.
 */
module Records {
  import opened Wrappers

  /** `role` column: 'voter' | 'admin'. */
  datatype Role = Voter | Admin

  /** The text stored in the `role` column and copied into token claims. */
  function RoleName(r: Role): string {
    match r
    case Voter => "voter"
    case Admin => "admin"
  }

  /** The payload `{ userId, role }` a signed token carries. */
  datatype Claims = Claims(userId: int, role: string)

  /** A bcrypt digest; its structure is never inspected by the handlers. */
  datatype Digest = Digest(text: string)

  /** A row of `users`; `fullName` is null when an admin account is created without one. */
  datatype User = User(id: int, fullName: Option<string>, email: string, password: Digest, role: Role)

  /** A row of `candidates`. */
  datatype Candidate = Candidate(id: int, name: string, party: string, description: string, imageUrl: Option<string>)

  /** A row of `votes`. */
  datatype Vote = Vote(id: int, userId: int, candidateId: int)

  /**
   * The id columns and `votes.candidate_id` are Postgres `integer`: a parameter
   * outside this range is refused when it is bound (SQLSTATE 22003), before any
   * constraint is looked at.
   */
  predicate FitsInteger(x: int) {
    -0x8000_0000 <= x <= 0x7fff_ffff
  }

  /**
   * What the schema does with the references `votes.user_id -> users.id` and
   * `votes.candidate_id -> candidates.id`: not declared at all, declared and
   * refusing to delete a referenced candidate, or declared with ON DELETE CASCADE.
   */
  datatype VoteRefs = Unenforced | RestrictDelete | CascadeDelete

  datatype Store = Store(
    users: seq<User>,
    candidates: seq<Candidate>,
    votes: seq<Vote>,
    nextUserId: int,
    nextCandidateId: int,
    nextVoteId: int,
    refs: VoteRefs)

  predicate HasUser(users: seq<User>, id: int) {
    exists u :: u in users && u.id == id
  }

  predicate EmailTaken(users: seq<User>, email: string) {
    exists u :: u in users && u.email == email
  }

  predicate HasCandidate(candidates: seq<Candidate>, id: int) {
    exists c :: c in candidates && c.id == id
  }

  predicate HasVoted(votes: seq<Vote>, userId: int) {
    exists v :: v in votes && v.userId == userId
  }

  /** `SELECT ... FROM users WHERE email = $1`, first row. */
  function FindUserByEmail(users: seq<User>, email: string): (r: Option<User>)
    ensures r.None? <==> !EmailTaken(users, email)
    ensures r.Some? ==> r.value in users && r.value.email == email
  {
    if |users| == 0 then None
    else if users[0].email == email then Some(users[0])
    else FindUserByEmail(users[1..], email)
  }

  /** `SELECT ... FROM users WHERE id = $1`, first row. */
  function FindUserById(users: seq<User>, id: int): (r: Option<User>)
    ensures r.None? <==> !HasUser(users, id)
    ensures r.Some? ==> r.value in users && r.value.id == id
  {
    if |users| == 0 then None
    else if users[0].id == id then Some(users[0])
    else FindUserById(users[1..], id)
  }

  predicate UsersOrdered(users: seq<User>) {
    forall i, j :: 0 <= i < j < |users| ==> users[i].id < users[j].id
  }

  predicate CandidatesOrdered(candidates: seq<Candidate>) {
    forall i, j :: 0 <= i < j < |candidates| ==> candidates[i].id < candidates[j].id
  }

  predicate VotesOrdered(votes: seq<Vote>) {
    forall i, j :: 0 <= i < j < |votes| ==> votes[i].id < votes[j].id
  }

  /** No two users share an email: what the register handlers maintain. */
  predicate UniqueEmails(users: seq<User>) {
    forall i, j :: 0 <= i < j < |users| ==> users[i].email != users[j].email
  }

  /** The UNIQUE constraint on `votes.user_id`: one person, one vote. */
  predicate OneVotePerUser(votes: seq<Vote>) {
    forall i, j :: 0 <= i < j < |votes| ==> votes[i].userId != votes[j].userId
  }

  /** Every vote points at a stored user and a stored candidate. */
  predicate VotesReferenceRows(s: Store) {
    forall v :: v in s.votes ==> HasUser(s.users, v.userId) && HasCandidate(s.candidates, v.candidateId)
  }

  /**
   * The state every handler preserves: serial ids below their counters and
   * increasing in row order, unique emails, one vote per user, and, when the
   * schema declares the vote references, no dangling vote.
   */
  predicate Valid(s: Store) {
    && 1 <= s.nextUserId && 1 <= s.nextCandidateId && 1 <= s.nextVoteId
    && (forall u :: u in s.users ==> 1 <= u.id < s.nextUserId)
    && (forall c :: c in s.candidates ==> 1 <= c.id < s.nextCandidateId)
    && (forall v :: v in s.votes ==> 1 <= v.id < s.nextVoteId)
    && UsersOrdered(s.users)
    && CandidatesOrdered(s.candidates)
    && VotesOrdered(s.votes)
    && UniqueEmails(s.users)
    && OneVotePerUser(s.votes)
    && (s.refs != Unenforced ==> VotesReferenceRows(s))
  }

  /** A fresh database: empty tables, serials starting at 1. */
  function EmptyStore(refs: VoteRefs): (s: Store)
    ensures Valid(s)
    ensures s.users == [] && s.candidates == [] && s.votes == []
  {
    Store([], [], [], 1, 1, 1, refs)
  }

  /** Under unique emails, an email picks out at most one row. */
  lemma UniqueEmailRow(users: seq<User>, u: User, w: User)
    requires UniqueEmails(users)
    requires u in users && w in users && u.email == w.email
    ensures u == w
  {
    var i :| 0 <= i < |users| && users[i] == u;
    var j :| 0 <= j < |users| && users[j] == w;
  }
}
