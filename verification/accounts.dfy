/**
 * Account routes: voter registration, login, the caller's profile, and admin
 * registration. bcrypt is an oracle pair: `hash` (the digest stored for a
 * password) and `matches` (`bcrypt.compare`).
 */
module Accounts {
  import opened Wrappers
  import opened JsText
  import opened Records
  import opened Http

  datatype Crypto = Crypto(hash: string -> Digest, matches: (string, Digest) -> bool)

  const AdminEmailDomain := "@admin.gmail.com"
  /** `expiresIn: '1h'`. */
  const TokenLifetimeSeconds := 3600
  const InvalidCredentials := "Invalid credentials."

  /** The store after inserting one user row with the next serial id. */
  function AddUser(s: Store, fullName: Option<string>, email: string, password: Digest, role: Role): (s': Store)
    ensures s'.users == s.users + [User(s.nextUserId, fullName, email, password, role)]
    ensures s'.nextUserId == s.nextUserId + 1
    ensures s'.candidates == s.candidates && s'.votes == s.votes
    ensures s'.nextCandidateId == s.nextCandidateId && s'.nextVoteId == s.nextVoteId && s'.refs == s.refs
  {
    s.(users := s.users + [User(s.nextUserId, fullName, email, password, role)], nextUserId := s.nextUserId + 1)
  }

  /**
   * POST /api/register. Any falsy field is refused before the store is read;
   * a taken email is refused; otherwise one voter row is inserted (the role
   * column's default is 'voter'). A store failure answers 500.
   */
  function Register(crypto: Crypto, fullName: Option<string>, email: Option<string>, password: Option<string>,
                    s: Store, fault: bool): (o: Outcome)
    ensures o.response.status in {201, 400, 409, 500}
    ensures o.response.status == 400 <==> FalsyText(fullName) || FalsyText(email) || FalsyText(password)
    ensures o.response.status == 409 <==>
              !FalsyText(fullName) && !FalsyText(email) && !FalsyText(password) && !fault
              && EmailTaken(s.users, email.value)
    ensures o.response.status == 500 <==>
              !FalsyText(fullName) && !FalsyText(email) && !FalsyText(password) && fault
    ensures o.response.status == 201 ==>
              o.store == AddUser(s, fullName, email.value, crypto.hash(password.value), Voter)
              && o.response.body == UserCreated("User registered successfully!", s.nextUserId, email.value, Voter)
    ensures o.response.status != 201 ==> o.store == s
  {
    if FalsyText(fullName) || FalsyText(email) || FalsyText(password) then
      Reply(400, "All fields are required.", s)
    else if fault then
      Reply(500, "Server error during registration.", s)
    else if FindUserByEmail(s.users, email.value).Some? then
      Reply(409, "User with this email already exists.", s)
    else
      var s' := AddUser(s, fullName, email.value, crypto.hash(password.value), Voter);
      Outcome(Response(201, UserCreated("User registered successfully!", s.nextUserId, email.value, Voter)), s')
  }

  /**
   * POST /api/login. An unknown email and a wrong password both answer the same
   * 401; a match issues a one-hour token carrying the stored id and role.
   */
  function Login(version: Version, crypto: Crypto, email: Option<string>, password: Option<string>,
                 s: Store, fault: bool): (o: Outcome)
    ensures o.store == s
    ensures o.response.status in {200, 400, 401, 500}
    ensures o.response.status == 400 <==> FalsyText(email) || FalsyText(password)
    ensures o.response.status == 401 ==> o.response.body == Message(InvalidCredentials)
    ensures o.response.status == 401 <==>
              !FalsyText(email) && !FalsyText(password) && !fault
              && (!EmailTaken(s.users, email.value)
                  || !crypto.matches(password.value, FindUserByEmail(s.users, email.value).value.password))
    ensures o.response.status == 200 <==>
              !FalsyText(email) && !FalsyText(password) && !fault && EmailTaken(s.users, email.value)
              && crypto.matches(password.value, FindUserByEmail(s.users, email.value).value.password)
    ensures o.response.status == 200 ==>
              exists u :: u in s.users && u.email == email.value && crypto.matches(password.value, u.password)
                          && o.response.body == LoggedIn("Login successful!",
                                                         TokenGrant(Claims(u.id, RoleName(u.role)), TokenLifetimeSeconds),
                                                         Public(u), NameKey(version))
  {
    if FalsyText(email) || FalsyText(password) then
      Reply(400, "Email and password are required.", s)
    else if fault then
      Reply(500, "Server error during login.", s)
    else
      match FindUserByEmail(s.users, email.value)
      case None => Reply(401, InvalidCredentials, s)
      case Some(u) =>
        if !crypto.matches(password.value, u.password) then Reply(401, InvalidCredentials, s)
        else
          var grant := TokenGrant(Claims(u.id, RoleName(u.role)), TokenLifetimeSeconds);
          Outcome(Response(200, LoggedIn("Login successful!", grant, Public(u), NameKey(version))), s)
  }

  /** GET /api/profile: the row of the caller's `userId`, or 404 when there is none. */
  function GetProfile(claims: Claims, s: Store, fault: bool): (o: Outcome)
    ensures o.store == s
    ensures o.response.status in {200, 404, 500}
    ensures o.response.status == 500 <==> fault
    ensures o.response.status == 404 <==> !fault && !HasUser(s.users, claims.userId)
    ensures o.response.status == 200 ==>
              exists u :: u in s.users && u.id == claims.userId && o.response.body == Profile(Public(u))
  {
    if fault then Reply(500, "Server error fetching profile.", s)
    else
      match FindUserById(s.users, claims.userId)
      case None => Reply(404, "User not found", s)
      case Some(u) => Outcome(Response(200, Profile(Public(u))), s)
  }

  /**
   * POST /api/admin/register. The caller must hold the admin role and the new
   * email must end in the admin domain, both checked before the store is read;
   * then a taken email is refused and one admin row is inserted. A missing
   * password makes bcrypt throw, which answers 500.
   */
  function AdminRegister(crypto: Crypto, claims: Claims, fullName: Option<string>, email: string,
                         password: Option<string>, s: Store, fault: bool): (o: Outcome)
    ensures !IsAdmin(claims) ==>
              o == Reply(403, "Forbidden: Only admins can create new admin accounts.", s)
    ensures o.response.status == 403 <==> !IsAdmin(claims)
    ensures o.response.status == 201 <==>
              IsAdmin(claims) && EndsWith(email, AdminEmailDomain) && !fault && !EmailTaken(s.users, email)
              && password.Some?
    ensures o.response.status == 400 <==> IsAdmin(claims) && !EndsWith(email, AdminEmailDomain)
    ensures o.response.status == 409 <==>
              IsAdmin(claims) && EndsWith(email, AdminEmailDomain) && !fault && EmailTaken(s.users, email)
    ensures o.response.status == 201 ==>
              password.Some?
              && o.store == AddUser(s, fullName, email, crypto.hash(password.value), Admin)
              && o.response.body == UserCreated("Admin user registered successfully!", s.nextUserId, email, Admin)
    ensures o.response.status != 201 ==> o.store == s
    ensures o.response.status in {201, 400, 403, 409, 500}
  {
    if !IsAdmin(claims) then
      Reply(403, "Forbidden: Only admins can create new admin accounts.", s)
    else if !EndsWith(email, AdminEmailDomain) then
      Reply(400, "Invalid email domain for an admin account.", s)
    else if fault then
      Reply(500, "Server error during admin registration.", s)
    else if FindUserByEmail(s.users, email).Some? then
      Reply(409, "User with this email already exists.", s)
    else if password.None? then
      Reply(500, "Server error during admin registration.", s)
    else
      var s' := AddUser(s, fullName, email, crypto.hash(password.value), Admin);
      Outcome(Response(201, UserCreated("Admin user registered successfully!", s.nextUserId, email, Admin)), s')
  }

  /** Adding a user under an unused email keeps the store valid: emails stay unique. */
  lemma AddUserKeepsValid(s: Store, fullName: Option<string>, email: string, password: Digest, role: Role)
    requires Valid(s)
    requires !EmailTaken(s.users, email)
    ensures Valid(AddUser(s, fullName, email, password, role))
  {
    var s' := AddUser(s, fullName, email, password, role);
    var n := |s.users|;
    assert forall i :: 0 <= i < n ==> s'.users[i] == s.users[i] && s.users[i] in s.users;
    forall v | v in s'.votes && s'.refs != Unenforced
      ensures HasUser(s'.users, v.userId) && HasCandidate(s'.candidates, v.candidateId)
    {
      var u :| u in s.users && u.id == v.userId;
      assert u in s'.users;
    }
  }

  /** Registration keeps the store valid, so no two users ever share an email. */
  lemma RegisterKeepsValid(crypto: Crypto, fullName: Option<string>, email: Option<string>, password: Option<string>,
                           s: Store, fault: bool)
    requires Valid(s)
    ensures Valid(Register(crypto, fullName, email, password, s, fault).store)
  {
    if !FalsyText(fullName) && !FalsyText(email) && !FalsyText(password) && !fault && !EmailTaken(s.users, email.value) {
      AddUserKeepsValid(s, fullName, email.value, crypto.hash(password.value), Voter);
    }
  }

  /** Admin registration keeps the store valid. */
  lemma AdminRegisterKeepsValid(crypto: Crypto, claims: Claims, fullName: Option<string>, email: string,
                                password: Option<string>, s: Store, fault: bool)
    requires Valid(s)
    ensures Valid(AdminRegister(crypto, claims, fullName, email, password, s, fault).store)
  {
    if IsAdmin(claims) && EndsWith(email, AdminEmailDomain) && !fault && !EmailTaken(s.users, email) && password.Some? {
      AddUserKeepsValid(s, fullName, email, crypto.hash(password.value), Admin);
    }
  }

  /**
   * No user enumeration: every refused login gets the same response, whether
   * the email is unknown or the password is wrong.
   */
  lemma LoginRefusalsIndistinguishable(version: Version, crypto: Crypto,
                                       e1: Option<string>, p1: Option<string>, s1: Store,
                                       e2: Option<string>, p2: Option<string>, s2: Store)
    requires Login(version, crypto, e1, p1, s1, false).response.status == 401
    requires Login(version, crypto, e2, p2, s2, false).response.status == 401
    ensures Login(version, crypto, e1, p1, s1, false).response == Login(version, crypto, e2, p2, s2, false).response
  {
  }

  /** Either kind of bad credential is refused with 401 "Invalid credentials.". */
  lemma BadCredentialsRefused(version: Version, crypto: Crypto, email: string, password: string, s: Store)
    requires email != "" && password != ""
    requires !EmailTaken(s.users, email)
             || (forall u :: u in s.users && u.email == email ==> !crypto.matches(password, u.password))
    ensures Login(version, crypto, Some(email), Some(password), s, false).response
            == Response(401, Message(InvalidCredentials))
  {
  }

  /**
   * Register then log in: with a hash the password matches, a new voter can
   * log in at once and receives a token for its new id and the role 'voter'.
   */
  lemma RegisterThenLogin(version: Version, crypto: Crypto, fullName: string, email: string, password: string, s: Store)
    requires Valid(s)
    requires fullName != "" && email != "" && password != ""
    requires !EmailTaken(s.users, email)
    requires crypto.matches(password, crypto.hash(password))
    ensures var reg := Register(crypto, Some(fullName), Some(email), Some(password), s, false);
            && reg.response.status == 201
            && Login(version, crypto, Some(email), Some(password), reg.store, false).response
               == Response(200, LoggedIn("Login successful!",
                                         TokenGrant(Claims(s.nextUserId, "voter"), TokenLifetimeSeconds),
                                         PublicUser(s.nextUserId, Some(fullName), email, Voter), NameKey(version)))
  {
    var reg := Register(crypto, Some(fullName), Some(email), Some(password), s, false);
    var s' := reg.store;
    var newUser := User(s.nextUserId, Some(fullName), email, crypto.hash(password), Voter);
    assert s'.users == s.users + [newUser];
    AddUserKeepsValid(s, Some(fullName), email, crypto.hash(password), Voter);
    assert newUser in s'.users;
    var found := FindUserByEmail(s'.users, email);
    UniqueEmailRow(s'.users, found.value, newUser);
  }

  /** A second registration with the same email is refused and changes nothing. */
  lemma SecondRegistrationConflicts(crypto: Crypto, fullName: string, email: string, password: string,
                                    fullName2: string, password2: string, s: Store)
    requires fullName != "" && email != "" && password != "" && fullName2 != "" && password2 != ""
    requires Register(crypto, Some(fullName), Some(email), Some(password), s, false).response.status == 201
    ensures var s' := Register(crypto, Some(fullName), Some(email), Some(password), s, false).store;
            Register(crypto, Some(fullName2), Some(email), Some(password2), s', false)
            == Reply(409, "User with this email already exists.", s')
  {
    var s' := Register(crypto, Some(fullName), Some(email), Some(password), s, false).store;
    assert s'.users[|s.users|] in s'.users;
  }
}
