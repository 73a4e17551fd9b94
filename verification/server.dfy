/**
 * The API as a whole: routing, the bearer-token gate on protected routes, and
 * the handler each route reaches. One request is one transition
 * (request, store) -> (response, store'); requests are taken one at a time.
 */
module Server {
  import opened Wrappers
  import opened JsText
  import opened Records
  import opened AuthGate
  import opened Http
  import opened Accounts
  import opened Ballot
  import opened Registry
  import opened Reports

  datatype Route =
    | PostRegister(fullName: Option<string>, email: Option<string>, password: Option<string>)
    | PostLogin(email: Option<string>, password: Option<string>)
    | GetProfileRoute
    | GetCandidates
    | PostVote(candidateId: Option<int>)
    | PostAdminRegister(adminFullName: Option<string>, adminEmail: string, adminPassword: Option<string>)
    | PostCandidate(name: Option<string>, party: Option<string>, description: Option<string>)
    | PutCandidate(id: Option<int>, newName: Option<string>, newParty: Option<string>, newDescription: Option<string>)
    | DeleteCandidateRoute(deleteId: Option<int>)
    | GetAdminStats
    | GetAdminVoteDistribution
    | GetAdminVoterTurnout
    | GetPublicResults
  {
    /** Routes mounted behind `protect`. */
    predicate Protected() {
      !(this.PostRegister? || this.PostLogin? || this.GetPublicResults?)
    }

    /** The admin routes, all under `/api/admin/`. */
    predicate AdminOnly() {
      || this.PostAdminRegister? || this.PostCandidate? || this.PutCandidate? || this.DeleteCandidateRoute?
      || this.GetAdminStats? || this.GetAdminVoteDistribution? || this.GetAdminVoterTurnout?
    }

    /** Routes that never write. */
    predicate ReadOnly() {
      || this.PostLogin? || this.GetProfileRoute? || this.GetCandidates? || this.GetAdminStats?
      || this.GetAdminVoteDistribution? || this.GetAdminVoterTurnout? || this.GetPublicResults?
    }
  }

  /** The `Authorization` header and the route with its parsed body. */
  datatype Request = Request(authorization: Option<string>, route: Route)

  /** The foreign code the server calls: bcrypt and JWT verification. */
  datatype Env = Env(crypto: Crypto, verify: string -> Option<Claims>)

  /** The earlier server defines only the register, login, profile, candidates and vote routes. */
  predicate Defined(version: Version, route: Route) {
    || version == Current
    || route.PostRegister? || route.PostLogin? || route.GetProfileRoute? || route.GetCandidates? || route.PostVote?
  }

  /** A route handler after the gate let the request through with `claims`. */
  function Dispatch(env: Env, claims: Claims, route: Route, s: Store, fault: bool): Outcome
    requires route.Protected()
  {
    match route
    case GetProfileRoute => GetProfile(claims, s, fault)
    case GetCandidates => ListCandidates(s, fault)
    case PostVote(candidateId) => CastVote(claims, candidateId, s, fault)
    case PostAdminRegister(fullName, email, password) =>
      AdminRegister(env.crypto, claims, fullName, email, password, s, fault)
    case PostCandidate(name, party, description) => CreateCandidate(claims, name, party, description, s, fault)
    case PutCandidate(id, name, party, description) =>
      UpdateCandidate(claims, id, name, party, description, s, fault)
    case DeleteCandidateRoute(id) => DeleteCandidate(claims, id, s, fault)
    case GetAdminStats => GetStats(claims, s, fault)
    case GetAdminVoteDistribution => GetVoteDistribution(claims, s, fault)
    case GetAdminVoterTurnout => GetVoterTurnout(claims, s, fault)
  }

  /**
   * Serves one request. `fault` stands for any failure of the store or of a
   * library call inside a handler's try block, all of which answer 500.
   */
  function Serve(version: Version, env: Env, req: Request, s: Store, fault: bool): (o: Outcome)
    ensures !Defined(version, req.route) ==> o == Outcome(Response(404, NoSuchRoute), s)
    ensures req.route.PostRegister? ==>
              o == Register(env.crypto, req.route.fullName, req.route.email, req.route.password, s, fault)
    ensures req.route.PostLogin? ==> o == Login(version, env.crypto, req.route.email, req.route.password, s, fault)
    ensures req.route.GetPublicResults? && version == Current ==> o == GetResults(s, fault)
    ensures Defined(version, req.route) && req.route.Protected() ==>
              (match ProtectFixed(req.authorization, env.verify)
               case NoToken => o == Reply(401, NoTokenMessage, s)
               case TokenFailed => o == Reply(401, TokenFailedMessage, s)
               case TokenFailedThenNoToken => false
               case Proceed(claims) => o == Dispatch(env, claims, req.route, s, fault))
  {
    if !Defined(version, req.route) then Outcome(Response(404, NoSuchRoute), s)
    else
      match req.route
      case PostRegister(fullName, email, password) => Register(env.crypto, fullName, email, password, s, fault)
      case PostLogin(email, password) => Login(version, env.crypto, email, password, s, fault)
      case GetPublicResults => GetResults(s, fault)
      case _ =>
        match ProtectFixed(req.authorization, env.verify)
        case NoToken => Reply(401, NoTokenMessage, s)
        case TokenFailed => Reply(401, TokenFailedMessage, s)
        case Proceed(claims) => Dispatch(env, claims, req.route, s, fault)
  }

  /** Every route keeps the store valid: unique emails, one vote per user, ordered serial ids. */
  lemma ServeKeepsValid(version: Version, env: Env, req: Request, s: Store, fault: bool)
    requires Valid(s)
    ensures Valid(Serve(version, env, req, s, fault).store)
  {
    if Defined(version, req.route) && req.route.Protected() {
      match ProtectFixed(req.authorization, env.verify) {
        case NoToken =>
        case TokenFailed =>
        case Proceed(claims) =>
          match req.route {
            case PostVote(candidateId) => CastVoteKeepsValid(claims, candidateId, s, fault);
            case PostAdminRegister(fullName, email, password) =>
              AdminRegisterKeepsValid(env.crypto, claims, fullName, email, password, s, fault);
            case PostCandidate(name, party, description) =>
              CreateCandidateKeepsValid(claims, name, party, description, s, fault);
            case PutCandidate(id, name, party, description) =>
              UpdateCandidateKeepsValid(claims, id, name, party, description, s, fault);
            case DeleteCandidateRoute(id) => DeleteCandidateKeepsValid(claims, id, s, fault);
            case _ =>
          }
      }
    } else if req.route.PostRegister? {
      RegisterKeepsValid(env.crypto, req.route.fullName, req.route.email, req.route.password, s, fault);
    }
  }

  /** A request that is not answered 200 or 201 leaves the store exactly as it was. */
  lemma RejectedLeavesStore(version: Version, env: Env, req: Request, s: Store, fault: bool)
    ensures !Succeeded(Serve(version, env, req, s, fault)) ==> Serve(version, env, req, s, fault).store == s
  {
  }

  /** Read routes never write, whatever they answer. */
  lemma ReadsLeaveStore(version: Version, env: Env, req: Request, s: Store, fault: bool)
    requires req.route.ReadOnly()
    ensures Serve(version, env, req, s, fault).store == s
  {
  }

  /** A store failure never changes the store. */
  lemma FaultLeavesStore(version: Version, env: Env, req: Request, s: Store)
    ensures Serve(version, env, req, s, true).store == s
  {
  }

  /**
   * The admin gate comes before any store access: a verified non-admin caller
   * of an admin route gets 403 whatever the store holds and whether or not the
   * store would fail, and nothing changes.
   */
  lemma AdminGateBeforeStore(env: Env, req: Request, claims: Claims, s1: Store, f1: bool, s2: Store, f2: bool)
    requires req.route.AdminOnly()
    requires ProtectFixed(req.authorization, env.verify) == Proceed(claims)
    requires !IsAdmin(claims)
    ensures Serve(Current, env, req, s1, f1).response.status == 403
    ensures Serve(Current, env, req, s1, f1).response == Serve(Current, env, req, s2, f2).response
    ensures Serve(Current, env, req, s1, f1).store == s1
  {
  }

  /** Without a token the verifier accepts, no protected handler runs: 401 and no change. */
  lemma ProtectedNeedsToken(version: Version, env: Env, req: Request, s: Store, fault: bool)
    requires Defined(version, req.route) && req.route.Protected()
    requires !ProtectFixed(req.authorization, env.verify).Proceed?
    ensures Serve(version, env, req, s, fault).response.status == 401
    ensures Serve(version, env, req, s, fault).store == s
  {
  }

  /**
   * The two server versions answer every request of the earlier subset alike,
   * except the name key of a successful login.
   */
  lemma VersionsAgree(env: Env, req: Request, s: Store, fault: bool)
    requires Defined(Early, req.route)
    ensures Serve(Early, env, req, s, fault).store == Serve(Current, env, req, s, fault).store
    ensures Serve(Early, env, req, s, fault).response.status == Serve(Current, env, req, s, fault).response.status
    ensures !req.route.PostLogin? ==> Serve(Early, env, req, s, fault) == Serve(Current, env, req, s, fault)
    ensures var early := Serve(Early, env, req, s, fault).response.body;
            var current := Serve(Current, env, req, s, fault).response.body;
            early.LoggedIn? ==> current == early.(nameKey := "full_name") && early.nameKey == "fullName"
  {
  }

  /**
   * End to end, one vote per user: once a voter's first vote was accepted,
   * every later vote leaves the ledger as it is, and one with a truthy id in
   * the column's range gets 409 "You have already voted." through the gate.
   */
  lemma SecondVoteThroughServer(version: Version, env: Env, auth: Option<string>, first: Option<int>,
                                second: Option<int>, s: Store)
    requires ProtectFixed(auth, env.verify).Proceed?
    requires Serve(version, env, Request(auth, PostVote(first)), s, false).response.status == 201
    ensures var s' := Serve(version, env, Request(auth, PostVote(first)), s, false).store;
            var o := Serve(version, env, Request(auth, PostVote(second)), s', false);
            && o.store == s'
            && o.response.status != 201
            && (!FalsyNumber(second) && FitsInteger(second.value) ==> o == Reply(409, AlreadyVoted, s'))
  {
    var claims := ProtectFixed(auth, env.verify).user;
    SecondVoteRefused(claims, first, second, s, false);
  }
}
