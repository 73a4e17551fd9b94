/** Responses of the API: a status code and a JSON body, plus the store the request leaves behind. */
module Http {
  import opened Wrappers
  import opened Records
  import opened Tally

  /** The two versions of the server: the earlier subset and the complete one. */
  datatype Version = Early | Current

  /** The key under which the login response carries the user's full name. */
  function NameKey(v: Version): string {
    match v
    case Early => "fullName"
    case Current => "full_name"
  }

  /** The user columns the API hands back: `id, full_name, email, role`. */
  datatype PublicUser = PublicUser(id: int, fullName: Option<string>, email: string, role: Role)

  function Public(u: User): PublicUser {
    PublicUser(u.id, u.fullName, u.email, u.role)
  }

  /** A signed token: the claims it carries and its lifetime. */
  datatype TokenGrant = TokenGrant(claims: Claims, expiresInSeconds: nat)

  datatype Body =
    | Message(text: string)
      /** `RETURNING id, email, role` of a freshly inserted user. */
    | UserCreated(text: string, id: int, email: string, role: Role)
    | LoggedIn(text: string, token: TokenGrant, user: PublicUser, nameKey: string)
    | Profile(user: PublicUser)
    | CandidateList(candidates: seq<Candidate>)
    | CandidateSaved(text: string, candidate: Candidate)
    | Stats(totalVotes: nat, registeredVoters: nat, activeCandidates: nat)
    | Distribution(rows: seq<NameVotes>)
      /** `[{ name: 'Voted', value }, { name: 'Not Voted', value }]`. */
    | TurnoutSplit(voted: nat, notVoted: int)
    | ResultsBody(results: Results)
      /** Express's own answer for a route the server does not define. */
    | NoSuchRoute

  datatype Response = Response(status: int, body: Body)

  datatype Outcome = Outcome(response: Response, store: Store)

  /** A plain `{ message }` answer that leaves the store as it was. */
  function Reply(status: int, text: string, s: Store): Outcome {
    Outcome(Response(status, Message(text)), s)
  }

  predicate Succeeded(o: Outcome) {
    o.response.status == 200 || o.response.status == 201
  }

  const ForbiddenMessage := "Forbidden: Access is restricted to administrators."

  /** The role test every admin route runs on `req.user` first. */
  predicate IsAdmin(claims: Claims) {
    claims.role == "admin"
  }
}
