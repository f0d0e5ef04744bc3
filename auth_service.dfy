/** AuthService: registration of customers (who start out pending), the
    approval gate in front of login, and profile and password changes of the
    signed-in user. Password encoding, the AuthenticationManager and the JWT
    are outside the model: their results come in as parameters. */
module AuthService {
  import opened Wrappers
  import opened Store
  import opened UserEntity
  import UserApprovalService

  datatype RegisterRequest = RegisterRequest(username: string, email: string, password: string,
                                             firstName: Option<string>, lastName: Option<string>,
                                             phoneNumber: Option<string>)

  datatype AuthResponse = AuthResponse(token: Option<string>, tokenType: string, id: nat, username: string,
                                       email: string, role: string, message: string, approvalRequired: bool)

  datatype UpdateProfileRequest = UpdateProfileRequest(
    firstName: Option<string>, lastName: Option<string>, phoneNumber: Option<string>,
    address: Option<string>, city: Option<string>, state: Option<string>,
    zipCode: Option<string>, country: Option<string>)

  datatype AuthError =
    | UsernameExists                  // "Username already exists"
    | EmailExists                     // "Email already exists"
    | InvalidCredentials              // "Invalid credentials"
    | AccountRejected(reason: string) // "Your account has been rejected. Reason: <reason>"
    | AccountPending                  // "Your account is pending admin approval. ..."
    | AccountLocked                   // the AuthenticationManager's LockedException
    | AuthenticationFailed            // the AuthenticationManager's BadCredentialsException
    | UserNotFound                    // "User not found"
    | IncorrectPassword               // "Current password is incorrect"

  const BearerType := "Bearer"
  const RegisteredMessage := "Registration successful! Your account is pending admin approval. You will receive an email once approved."
  const LoginMessage := "Login successful"
  const NoReason := "No reason provided"

  /** The record register stores: a fresh customer with the request's
      details and the encoded password, as the insert hook leaves it. */
  function Registered(req: RegisterRequest, encodedPassword: string, now: Instant): (u: User)
    ensures u.username == req.username && u.email == req.email && u.password == encodedPassword
    ensures u.firstName == req.firstName && u.lastName == req.lastName && u.phoneNumber == req.phoneNumber
  {
    OnCreate(NewUser(req.username, req.email, encodedPassword)
               .(firstName := req.firstName, lastName := req.lastName, phoneNumber := req.phoneNumber), now)
  }

  /** A registered user is an active customer, not approved, PENDING, and so
      neither enabled nor unlocked for Spring Security. */
  lemma RegisteredIsPendingCustomer(req: RegisterRequest, encodedPassword: string, now: Instant)
    ensures Registered(req, encodedPassword, now).role == Customer
    ensures Registered(req, encodedPassword, now).isActive
    ensures !Registered(req, encodedPassword, now).approved
    ensures Registered(req, encodedPassword, now).accountStatus == Pending
    ensures !IsEnabled(Registered(req, encodedPassword, now)) && !IsAccountNonLocked(Registered(req, encodedPassword, now))
  {
  }

  /** register: a taken username is refused first, then a taken email;
      otherwise the pending customer is stored and the answer carries no
      token and says approval is required. */
  method Register(users: Table<User>, req: RegisterRequest, encodedPassword: string, now: Instant)
    returns (r: Result<AuthResponse, AuthError>)
    requires users.Valid() && UniqueAccounts(users.rows) && AdminsApproved(users.rows)
    modifies users
    ensures users.Valid() && UniqueAccounts(users.rows) && AdminsApproved(users.rows)
    ensures UsernameTaken(old(users.rows), req.username) ==> r == Err(UsernameExists)
    ensures !UsernameTaken(old(users.rows), req.username) && EmailTaken(old(users.rows), req.email) ==> r == Err(EmailExists)
    ensures r.Ok? <==> !UsernameTaken(old(users.rows), req.username) && !EmailTaken(old(users.rows), req.email)
    ensures r.Err? ==> users.rows == old(users.rows) && users.nextId == old(users.nextId)
    ensures r.Ok? ==>
      && users.rows == old(users.rows)[old(users.nextId) := Registered(req, encodedPassword, now)]
      && r.value == AuthResponse(None, BearerType, old(users.nextId), req.username, req.email, "CUSTOMER",
                                 RegisteredMessage, true)
  {
    if UsernameTaken(users.rows, req.username) {
      return Err(UsernameExists);
    }
    if EmailTaken(users.rows, req.email) {
      return Err(EmailExists);
    }
    var u := Registered(req, encodedPassword, now);
    RegisteredIsPendingCustomer(req, encodedPassword, now);
    InsertKeepsInvariants(users.rows, users.nextId, u);
    var id := users.Insert(u);
    r := Ok(AuthResponse(None, BearerType, id, u.username, u.email, RoleName(u.role), RegisteredMessage, true));
  }

  /** login: an unknown username is refused, then an account that is not
      approved with status APPROVED (with the stored rejection reason when it
      is REJECTED). Only then does the AuthenticationManager run: Spring's
      DaoAuthenticationProvider refuses an account that is locked
      (`isAccountNonLocked`) before it compares passwords, and
      `passwordMatches` is the encoder's verdict on the password. Its
      `isEnabled` test is the same `isActive && approved` and so never
      decides on its own. Success hands out `token`. */
  function Login(users: map<nat, User>, username: string, passwordMatches: bool, token: string)
    : (r: Result<AuthResponse, AuthError>)
    requires UniqueAccounts(users)
    ensures FindByUsername(users, username).None? ==> r == Err(InvalidCredentials)
    ensures FindByUsername(users, username).Some? ==>
      var id := FindByUsername(users, username).value;
      var u := users[id];
      && (!IsApprovedAccount(u) && u.accountStatus == Rejected ==> r == Err(AccountRejected(u.rejectionReason.GetOr(NoReason))))
      && (!IsApprovedAccount(u) && u.accountStatus != Rejected ==> r == Err(AccountPending))
      && (IsApprovedAccount(u) && !IsAccountNonLocked(u) ==> r == Err(AccountLocked))
      && (IsApprovedAccount(u) && IsAccountNonLocked(u) && IsEnabled(u) && !passwordMatches ==> r == Err(AuthenticationFailed))
      && (IsApprovedAccount(u) && IsAccountNonLocked(u) && IsEnabled(u) && passwordMatches ==>
            r == Ok(AuthResponse(Some(token), BearerType, id, username, u.email, RoleName(u.role), LoginMessage, false)))
  {
    match FindByUsername(users, username)
    case None => Err(InvalidCredentials)
    case Some(id) =>
      var u := users[id];
      if !u.approved || u.accountStatus != Approved then
        if u.accountStatus == Rejected then Err(AccountRejected(u.rejectionReason.GetOr(NoReason)))
        else Err(AccountPending)
      else if !IsAccountNonLocked(u) then Err(AccountLocked)
      else if !passwordMatches then Err(AuthenticationFailed)
      else Ok(AuthResponse(Some(token), BearerType, id, u.username, u.email, RoleName(u.role), LoginMessage, false))
  }

  /** Login succeeds exactly for an approved, enabled account whose password
      checks out, and the gate runs before the password: for an account that
      is not approved the answer does not depend on the password at all. */
  lemma LoginGate(users: map<nat, User>, username: string, passwordMatches: bool, token: string,
                  passwordMatches': bool, token': string)
    requires UniqueAccounts(users)
    ensures Login(users, username, passwordMatches, token).Ok? <==>
      && UsernameTaken(users, username) && passwordMatches
      && IsApprovedAccount(users[FindByUsername(users, username).value])
      && IsEnabled(users[FindByUsername(users, username).value])
    ensures Login(users, username, passwordMatches, token).Ok? ==> Login(users, username, passwordMatches, token).value.token == Some(token)
    ensures UsernameTaken(users, username) && !IsApprovedAccount(users[FindByUsername(users, username).value]) ==>
      Login(users, username, passwordMatches, token) == Login(users, username, passwordMatches', token')
  {
  }

  /** A freshly registered customer cannot log in, whatever the password:
      login answers that the account is pending. */
  lemma RegisteredCannotLogin(users: map<nat, User>, id: nat, req: RegisterRequest, encodedPassword: string,
                              now: Instant, passwordMatches: bool, token: string)
    requires id !in users && UniqueAccounts(users) && AdminsApproved(users)
    requires !UsernameTaken(users, req.username) && !EmailTaken(users, req.email)
    ensures UniqueAccounts(users[id := Registered(req, encodedPassword, now)])
    ensures Login(users[id := Registered(req, encodedPassword, now)], req.username, passwordMatches, token) == Err(AccountPending)
  {
    var u := Registered(req, encodedPassword, now);
    RegisteredIsPendingCustomer(req, encodedPassword, now);
    InsertKeepsInvariants(users, id, u);
    assert FindByUsername(users[id := u], req.username) == Some(id);
  }

  /** Once an administrator approves an active account, the same customer
      logs in with the right password; a deactivated account stays locked
      out even when approved. */
  lemma ApprovedCanLogin(users: map<nat, User>, id: nat, adminId: nat, now: Instant, token: string)
    requires id in users && UniqueAccounts(users) && AdminsApproved(users)
    ensures UniqueAccounts(users[id := UserApprovalService.ApprovedBy(users[id], adminId, now)])
    ensures users[id].isActive ==>
      Login(users[id := UserApprovalService.ApprovedBy(users[id], adminId, now)], users[id].username, true, token).Ok?
    ensures !users[id].isActive ==>
      Login(users[id := UserApprovalService.ApprovedBy(users[id], adminId, now)], users[id].username, true, token) == Err(AccountLocked)
  {
    var v := UserApprovalService.ApprovedBy(users[id], adminId, now);
    ReplaceKeepsInvariants(users, id, v);
    assert FindByUsername(users[id := v], users[id].username) == Some(id);
  }

  /** getCurrentUser: the signed-in user, by id. */
  function CurrentUser(users: map<nat, User>, callerId: nat): (r: Result<User, AuthError>)
    ensures r.Ok? <==> callerId in users
    ensures r.Ok? ==> r.value == users[callerId]
    ensures r.Err? ==> r.error == UserNotFound
  {
    if callerId in users then Ok(users[callerId]) else Err(UserNotFound)
  }

  /** The eight profile fields taken from the request. */
  function WithProfile(u: User, req: UpdateProfileRequest): (r: User)
    ensures r.firstName == req.firstName && r.lastName == req.lastName && r.phoneNumber == req.phoneNumber
    ensures r.address == req.address && r.city == req.city && r.state == req.state
    ensures r.zipCode == req.zipCode && r.country == req.country
    ensures r.(firstName := u.firstName, lastName := u.lastName, phoneNumber := u.phoneNumber,
               address := u.address, city := u.city, state := u.state,
               zipCode := u.zipCode, country := u.country) == u
  {
    u.(firstName := req.firstName, lastName := req.lastName, phoneNumber := req.phoneNumber,
       address := req.address, city := req.city, state := req.state,
       zipCode := req.zipCode, country := req.country)
  }

  /** updateProfile: overwrites exactly the eight profile fields of the
      signed-in user. The update hook runs on the save; since administrators
      in the table are approved it changes nothing. */
  method UpdateProfile(users: Table<User>, callerId: nat, req: UpdateProfileRequest, now: Instant)
    returns (r: Result<User, AuthError>)
    requires users.Valid() && UniqueAccounts(users.rows) && AdminsApproved(users.rows)
    modifies users
    ensures users.Valid() && UniqueAccounts(users.rows) && AdminsApproved(users.rows)
    ensures users.nextId == old(users.nextId)
    ensures r.Ok? <==> callerId in old(users.rows)
    ensures r.Err? ==> r.error == UserNotFound && users.rows == old(users.rows)
    ensures r.Ok? ==> r.value == WithProfile(old(users.rows)[callerId], req) &&
                      users.rows == old(users.rows)[callerId := r.value]
  {
    if callerId !in users.rows {
      return Err(UserNotFound);
    }
    var u := WithProfile(users.rows[callerId], req);
    ReplaceKeepsInvariants(users.rows, callerId, u);
    users.rows := users.rows[callerId := OnUpdate(u, now)];
    r := Ok(u);
  }

  /** changePassword: `currentMatches` is the encoder's verdict on the
      current password and `encodedNew` the encoded new one. */
  method ChangePassword(users: Table<User>, callerId: nat, currentMatches: bool, encodedNew: string, now: Instant)
    returns (r: Result<(), AuthError>)
    requires users.Valid() && UniqueAccounts(users.rows) && AdminsApproved(users.rows)
    modifies users
    ensures users.Valid() && UniqueAccounts(users.rows) && AdminsApproved(users.rows)
    ensures users.nextId == old(users.nextId)
    ensures callerId !in old(users.rows) ==> r == Err(UserNotFound)
    ensures callerId in old(users.rows) && !currentMatches ==> r == Err(IncorrectPassword)
    ensures r.Ok? <==> callerId in old(users.rows) && currentMatches
    ensures r.Err? ==> users.rows == old(users.rows)
    ensures r.Ok? ==> users.rows == old(users.rows)[callerId := old(users.rows)[callerId].(password := encodedNew)]
  {
    if callerId !in users.rows {
      return Err(UserNotFound);
    }
    if !currentMatches {
      return Err(IncorrectPassword);
    }
    var u := users.rows[callerId].(password := encodedNew);
    ReplaceKeepsInvariants(users.rows, callerId, u);
    users.rows := users.rows[callerId := OnUpdate(u, now)];
    r := Ok(());
  }
}
