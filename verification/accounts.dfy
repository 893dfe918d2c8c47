/** User accounts: sign-in and the two registration services.

    The password encoder and the token generator are opaque: they are
    parameters of the operations that use them, as functions whose only
    known properties are the ones a lemma states as a premise.
 */
module Accounts {
  import opened Wrappers
  import Seqs
  import PricingRules

  /** `User.UserRole`. */
  datatype UserRole = RIDER | OPERATOR

  /** `role.name()`. */
  function RoleName(r: UserRole): string {
    match r
    case RIDER => "RIDER"
    case OPERATOR => "OPERATOR"
  }

  /** `User`. A null pending balance is `None`. */
  datatype User = User(
    id: int,
    fullName: string,
    address: string,
    email: string,
    username: string,
    passwordHash: string,
    paymentInfo: Option<string>,
    role: UserRole,
    membershipStatus: PricingRules.MembershipStatus,
    pendingBalance: Option<real>)

  /** The `users` table in storage order, and the next IDENTITY value. */
  datatype UserRepo = UserRepo(users: seq<User>, nextId: int)

  /** Ids, usernames and emails are unique, and every id was issued before `nextId`. */
  predicate WellFormed(repo: UserRepo) {
    && (forall i, j :: 0 <= i < j < |repo.users| ==>
          repo.users[i].id != repo.users[j].id
          && repo.users[i].username != repo.users[j].username
          && repo.users[i].email != repo.users[j].email)
    && (forall i :: 0 <= i < |repo.users| ==> repo.users[i].id < repo.nextId)
  }

  /** `findByUsername`: the position of the user with that username. */
  function FindByUsername(users: seq<User>, username: string): (r: Option<nat>)
    ensures r.Some? ==> r.value < |users| && users[r.value].username == username
    ensures r.None? <==> forall i :: 0 <= i < |users| ==> users[i].username != username
  {
    Seqs.IndexOf(users, (u: User) => u.username == username)
  }

  /** `findById`: the position of the user with that id. */
  function FindById(users: seq<User>, id: int): (r: Option<nat>)
    ensures r.Some? ==> r.value < |users| && users[r.value].id == id
    ensures r.Some? ==> forall j :: 0 <= j < r.value ==> users[j].id != id
    ensures r.None? <==> forall i :: 0 <= i < |users| ==> users[i].id != id
  {
    Seqs.IndexOf(users, (u: User) => u.id == id)
  }

  /** The lookup by id only looks at ids. */
  lemma FindByIdSameIds(a: seq<User>, b: seq<User>, id: int)
    requires |a| == |b| && forall j :: 0 <= j < |a| ==> a[j].id == b[j].id
    ensures FindById(a, id) == FindById(b, id)
  {
    var fa := FindById(a, id);
    var fb := FindById(b, id);
    if fa.Some? {
      assert b[fa.value].id == id;
    }
    if fb.Some? {
      assert a[fb.value].id == id;
    }
  }

  predicate ExistsByEmail(users: seq<User>, email: string) {
    exists i :: 0 <= i < |users| && users[i].email == email
  }

  predicate ExistsByUsername(users: seq<User>, username: string) {
    exists i :: 0 <= i < |users| && users[i].username == username
  }

  /** `LoginResponseDTO`. */
  datatype LoginResponse = LoginResponse(token: string, username: string, fullName: string, role: string, id: int)

  const BadCredentials: string := "Invalid username or password"

  /** `AuthenticationService.authenticate`. `matches(raw, hash)` is the
      encoder's check and `generateToken(username, role)` the token
      generator. An unknown username and a wrong password fail alike. */
  function Authenticate(repo: UserRepo, username: string, password: string,
                        matches: (string, string) -> bool,
                        generateToken: (string, string) -> string): (r: Result<LoginResponse>)
    ensures r.Err? <==> !ExistsByUsername(repo.users, username)
                        || !matches(password, repo.users[FindByUsername(repo.users, username).value].passwordHash)
    ensures r.Err? ==> r.error == IllegalArgument(BadCredentials)
    ensures r.Ok? ==> var u := repo.users[FindByUsername(repo.users, username).value];
                      r.value == LoginResponse(generateToken(u.username, RoleName(u.role)), u.username,
                                               u.fullName, RoleName(u.role), u.id)
  {
    match FindByUsername(repo.users, username)
    case None => Err(IllegalArgument(BadCredentials))
    case Some(i) =>
      var u := repo.users[i];
      if !matches(password, u.passwordHash) then Err(IllegalArgument(BadCredentials))
      else Ok(LoginResponse(generateToken(u.username, RoleName(u.role)), u.username, u.fullName, RoleName(u.role), u.id))
  }

  /** `RegistrationRequestDTO`. */
  datatype Registration = Registration(
    fullName: string, address: string, email: string, username: string, password: string, paymentInfo: Option<string>)

  /** The user a registration stores under `id`: always a RIDER with no
      membership and a zero balance, and only the encoder's output kept. */
  function NewUser(id: int, req: Registration, encode: string -> string): (u: User)
    ensures u.role == RIDER && u.passwordHash == encode(req.password)
    ensures u.fullName == req.fullName && u.address == req.address && u.email == req.email
    ensures u.username == req.username && u.paymentInfo == req.paymentInfo
    ensures u.id == id && u.membershipStatus == PricingRules.NONE && u.pendingBalance == Some(0.0)
  {
    User(id, req.fullName, req.address, req.email, req.username, encode(req.password), req.paymentInfo,
         RIDER, PricingRules.NONE, Some(0.0))
  }

  /** `userRepository.save(new user)`: the row gets the next id. */
  function Insert(repo: UserRepo, req: Registration, encode: string -> string): (r: (User, UserRepo))
    ensures r.0 == NewUser(repo.nextId, req, encode)
    ensures r.1 == UserRepo(repo.users + [r.0], repo.nextId + 1)
  {
    var u := NewUser(repo.nextId, req, encode);
    (u, UserRepo(repo.users + [u], repo.nextId + 1))
  }

  const EmailInUse: string := "Email already in use"
  const UsernameTaken: string := "Username already taken"

  /** `AuthenticationService.register`: the email is checked before the username. */
  function Register(repo: UserRepo, req: Registration, encode: string -> string): (r: Result<UserRepo>)
    ensures ExistsByEmail(repo.users, req.email) ==> r == Err(IllegalArgument(EmailInUse))
    ensures !ExistsByEmail(repo.users, req.email) && ExistsByUsername(repo.users, req.username)
            ==> r == Err(IllegalArgument(UsernameTaken))
    ensures r.Ok? <==> !ExistsByEmail(repo.users, req.email) && !ExistsByUsername(repo.users, req.username)
    ensures r.Ok? ==> r.value == UserRepo(repo.users + [NewUser(repo.nextId, req, encode)], repo.nextId + 1)
  {
    if ExistsByEmail(repo.users, req.email) then Err(IllegalArgument(EmailInUse))
    else if ExistsByUsername(repo.users, req.username) then Err(IllegalArgument(UsernameTaken))
    else Ok(Insert(repo, req, encode).1)
  }

  const UsernameExists: string := "Username already exists"
  const EmailExists: string := "Email already exists"

  /** `RegistrationService.register`: the username is checked before the
      email, and the saved user is returned. */
  function RegisterUser(repo: UserRepo, req: Registration, encode: string -> string): (r: Result<(User, UserRepo)>)
    ensures ExistsByUsername(repo.users, req.username) ==> r == Err(IllegalArgument(UsernameExists))
    ensures !ExistsByUsername(repo.users, req.username) && ExistsByEmail(repo.users, req.email)
            ==> r == Err(IllegalArgument(EmailExists))
    ensures r.Ok? <==> !ExistsByEmail(repo.users, req.email) && !ExistsByUsername(repo.users, req.username)
    ensures r.Ok? ==> r.value.0 == NewUser(repo.nextId, req, encode)
                      && r.value.1 == UserRepo(repo.users + [r.value.0], repo.nextId + 1)
  {
    if ExistsByUsername(repo.users, req.username) then Err(IllegalArgument(UsernameExists))
    else if ExistsByEmail(repo.users, req.email) then Err(IllegalArgument(EmailExists))
    else Ok(Insert(repo, req, encode))
  }

  /** The two registration services accept the same requests and store the
      same row; they differ only in which duplicate they report first. */
  lemma RegistrationsAgree(repo: UserRepo, req: Registration, encode: string -> string)
    ensures Register(repo, req, encode).Ok? <==> RegisterUser(repo, req, encode).Ok?
    ensures Register(repo, req, encode).Ok? ==> Register(repo, req, encode).value == RegisterUser(repo, req, encode).value.1
    ensures ExistsByEmail(repo.users, req.email) && ExistsByUsername(repo.users, req.username) ==>
            Register(repo, req, encode) == Err(IllegalArgument(EmailInUse))
            && RegisterUser(repo, req, encode) == Err(IllegalArgument(UsernameExists))
  {
  }

  /** Registering keeps usernames, emails and ids unique. */
  lemma RegisterKeepsWellFormed(repo: UserRepo, req: Registration, encode: string -> string)
    requires WellFormed(repo)
    requires Register(repo, req, encode).Ok?
    ensures WellFormed(Register(repo, req, encode).value)
  {
    var r := Register(repo, req, encode).value;
    var u := NewUser(repo.nextId, req, encode);
    assert r.users == repo.users + [u];
    forall i | 0 <= i < |repo.users|
      ensures repo.users[i].username != u.username && repo.users[i].email != u.email && repo.users[i].id != u.id
    {
      assert repo.users[i].email != req.email;
      assert repo.users[i].username != req.username;
    }
  }

  /** A freshly registered rider can sign in with the password they
      registered with, provided the encoder's check accepts its own output. */
  lemma LoginAfterRegister(repo: UserRepo, req: Registration, encode: string -> string,
                           matches: (string, string) -> bool, generateToken: (string, string) -> string)
    requires Register(repo, req, encode).Ok?
    requires matches(req.password, encode(req.password))
    ensures var r := Authenticate(Register(repo, req, encode).value, req.username, req.password, matches, generateToken);
            r.Ok? && r.value.username == req.username && r.value.role == "RIDER" && r.value.id == repo.nextId
            && r.value.token == generateToken(req.username, "RIDER")
  {
    var repo' := Register(repo, req, encode).value;
    var u := NewUser(repo.nextId, req, encode);
    assert repo'.users[|repo.users|] == u;
    var i := FindByUsername(repo'.users, req.username).value;
    assert i == |repo.users| by {
      assert forall j :: 0 <= j < |repo.users| ==> repo'.users[j].username != req.username;
    }
  }
}
