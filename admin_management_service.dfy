/** AdminManagementService: administrators create, list, update and delete
    other administrator accounts. */
module AdminManagementService {
  import opened Wrappers
  import opened Store
  import opened UserEntity

  datatype CreateAdminRequest = CreateAdminRequest(username: string, email: string, password: Option<string>,
                                                   firstName: Option<string>, lastName: Option<string>,
                                                   phoneNumber: Option<string>)

  datatype AdminError =
    | UsernameExists   // "Username already exists"
    | EmailExists      // "Email already exists"
    | AdminNotFound    // "Admin not found" (the target, or the signed-in administrator)
    | CannotDeleteSelf // "You cannot delete your own admin account"
    | LastAdmin        // "Cannot delete the last admin account"
    | NotAnAdmin       // "User is not an admin"

  /** getAllAdmins (`findByRole(ADMIN)`), as the set of ids. */
  function AdminIds(users: map<nat, User>): (r: set<nat>)
    ensures forall id :: id in r <==> id in users && users[id].role == Admin
  {
    set id | id in users && users[id].role == Admin
  }

  /** `countByRole(ADMIN)` */
  function CountAdmins(users: map<nat, User>): (r: nat)
    ensures r == 0 <==> forall id :: id in users ==> users[id].role != Admin
  {
    |AdminIds(users)|
  }

  /** The administrator createAdmin builds: active, approved, APPROVED, and
      approved by the administrator who created it. */
  function NewAdmin(req: CreateAdminRequest, encodedPassword: string, creatorId: nat, now: Instant): (u: User)
    ensures u.username == req.username && u.email == req.email && u.password == encodedPassword
    ensures u.role == Admin && u.isActive && IsApprovedAccount(u)
    ensures u.approvedBy == Some(creatorId) && u.approvedAt == Some(now)
  {
    NewUser(req.username, req.email, encodedPassword)
      .(firstName := req.firstName, lastName := req.lastName, phoneNumber := req.phoneNumber,
        role := Admin, isActive := true, approved := true, accountStatus := Approved,
        approvedAt := Some(now), approvedBy := Some(creatorId))
  }

  /** The insert hook finds nothing left to do on a new administrator. */
  lemma NewAdminUnchangedByHook(req: CreateAdminRequest, encodedPassword: string, creatorId: nat, now: Instant)
    ensures OnCreate(NewAdmin(req, encodedPassword, creatorId, now), now) == NewAdmin(req, encodedPassword, creatorId, now)
  {
  }

  /** createAdmin: a taken username is refused first, then a taken email,
      then a missing signed-in administrator; otherwise the new
      administrator is stored, already approved. */
  method CreateAdmin(users: Table<User>, creatorId: nat, req: CreateAdminRequest, encodedPassword: string, now: Instant)
    returns (r: Result<nat, AdminError>)
    requires users.Valid() && UniqueAccounts(users.rows) && AdminsApproved(users.rows)
    modifies users
    ensures users.Valid() && UniqueAccounts(users.rows) && AdminsApproved(users.rows)
    ensures UsernameTaken(old(users.rows), req.username) ==> r == Err(UsernameExists)
    ensures !UsernameTaken(old(users.rows), req.username) && EmailTaken(old(users.rows), req.email) ==> r == Err(EmailExists)
    ensures r.Ok? <==> !UsernameTaken(old(users.rows), req.username) && !EmailTaken(old(users.rows), req.email) &&
                       creatorId in old(users.rows)
    ensures r.Err? ==> users.rows == old(users.rows) && users.nextId == old(users.nextId)
    ensures r.Ok? ==> r.value == old(users.nextId) &&
                      users.rows == old(users.rows)[r.value := NewAdmin(req, encodedPassword, creatorId, now)]
    ensures r.Ok? ==> CountAdmins(users.rows) == CountAdmins(old(users.rows)) + 1
  {
    if UsernameTaken(users.rows, req.username) {
      return Err(UsernameExists);
    }
    if EmailTaken(users.rows, req.email) {
      return Err(EmailExists);
    }
    if creatorId !in users.rows {
      return Err(AdminNotFound);
    }
    var u := NewAdmin(req, encodedPassword, creatorId, now);
    NewAdminUnchangedByHook(req, encodedPassword, creatorId, now);
    InsertKeepsInvariants(users.rows, users.nextId, u);
    AdminIdsAfterInsert(users.rows, users.nextId, u);
    var id := users.Insert(OnCreate(u, now));
    r := Ok(id);
  }

  lemma {:induction false} AdminIdsAfterInsert(users: map<nat, User>, id: nat, u: User)
    requires id !in users && u.role == Admin
    ensures AdminIds(users[id := u]) == AdminIds(users) + {id}
    ensures CountAdmins(users[id := u]) == CountAdmins(users) + 1
  {
    assert AdminIds(users[id := u]) == AdminIds(users) + {id};
  }

  lemma {:induction false} AdminIdsAfterRemove(users: map<nat, User>, id: nat)
    requires id in users && users[id].role == Admin
    ensures AdminIds(users - {id}) == AdminIds(users) - {id}
    ensures CountAdmins(users - {id}) == CountAdmins(users) - 1
  {
    assert AdminIds(users - {id}) == AdminIds(users) - {id};
  }

  /** deleteAdmin: the target must exist, the signed-in administrator must
      exist and be someone else, there must be more than one administrator,
      and only then must the target be an administrator. */
  method DeleteAdmin(users: Table<User>, callerId: nat, adminId: nat) returns (r: Result<(), AdminError>)
    requires users.Valid() && UniqueAccounts(users.rows) && AdminsApproved(users.rows)
    modifies users
    ensures users.Valid() && UniqueAccounts(users.rows) && AdminsApproved(users.rows)
    ensures users.nextId == old(users.nextId)
    ensures adminId !in old(users.rows) ==> r == Err(AdminNotFound)
    ensures adminId in old(users.rows) && callerId == adminId ==> r == Err(CannotDeleteSelf)
    ensures (adminId in old(users.rows) && callerId in old(users.rows) && callerId != adminId &&
             CountAdmins(old(users.rows)) <= 1) ==> r == Err(LastAdmin)
    ensures r.Ok? <==> adminId in old(users.rows) && callerId in old(users.rows) && callerId != adminId &&
                       CountAdmins(old(users.rows)) > 1 && old(users.rows)[adminId].role == Admin
    ensures r.Err? ==> users.rows == old(users.rows)
    ensures r.Ok? ==> users.rows == old(users.rows) - {adminId}
    ensures r.Ok? ==> CountAdmins(users.rows) == CountAdmins(old(users.rows)) - 1 >= 1
  {
    if adminId !in users.rows {
      return Err(AdminNotFound);
    }
    if callerId !in users.rows {
      return Err(AdminNotFound);
    }
    if adminId == callerId {
      return Err(CannotDeleteSelf);
    }
    if CountAdmins(users.rows) <= 1 {
      return Err(LastAdmin);
    }
    if users.rows[adminId].role != Admin {
      return Err(NotAnAdmin);
    }
    AdminIdsAfterRemove(users.rows, adminId);
    users.rows := users.rows - {adminId};
    r := Ok(());
  }

  /** The fields updateAdmin writes: names and phone always, the email when
      it differs, the password when a non-empty one is given. */
  function Updated(u: User, req: CreateAdminRequest, encodedPassword: string): (r: User)
    ensures r.firstName == req.firstName && r.lastName == req.lastName && r.phoneNumber == req.phoneNumber
    ensures r.email == req.email
    ensures r.password == (if req.password.Some? && |req.password.value| > 0 then encodedPassword else u.password)
    ensures r.(firstName := u.firstName, lastName := u.lastName, phoneNumber := u.phoneNumber,
               email := u.email, password := u.password) == u
  {
    u.(firstName := req.firstName, lastName := req.lastName, phoneNumber := req.phoneNumber,
       email := req.email,
       password := if req.password.Some? && |req.password.value| > 0 then encodedPassword else u.password)
  }

  /** Storing an updated record whose email is its own or unused keeps the
      table's invariants. */
  lemma UpdateKeepsInvariants(users: map<nat, User>, id: nat, v: User)
    requires id in users && UniqueAccounts(users) && AdminsApproved(users)
    requires v.username == users[id].username && v.role == users[id].role
    requires v.email == users[id].email || !EmailTaken(users, v.email)
    requires v.role == Admin ==> IsApprovedAccount(v)
    ensures UniqueAccounts(users[id := v]) && AdminsApproved(users[id := v])
  {
    var m := users[id := v];
    forall a, b | a in m && b in m && a != b
      ensures m[a].username != m[b].username && m[a].email != m[b].email
    {
      if a == id {
        assert b in users;
      } else if b == id {
        assert a in users;
      }
    }
  }

  /** updateAdmin: the target must exist and be an administrator; a changed
      email must not belong to anyone; the password is replaced only when a
      non-empty one is given. */
  method UpdateAdmin(users: Table<User>, adminId: nat, req: CreateAdminRequest, encodedPassword: string, now: Instant)
    returns (r: Result<User, AdminError>)
    requires users.Valid() && UniqueAccounts(users.rows) && AdminsApproved(users.rows)
    modifies users
    ensures users.Valid() && UniqueAccounts(users.rows) && AdminsApproved(users.rows)
    ensures users.nextId == old(users.nextId)
    ensures adminId !in old(users.rows) ==> r == Err(AdminNotFound)
    ensures adminId in old(users.rows) && old(users.rows)[adminId].role != Admin ==> r == Err(NotAnAdmin)
    ensures r.Ok? <==> adminId in old(users.rows) && old(users.rows)[adminId].role == Admin &&
                       (old(users.rows)[adminId].email == req.email || !EmailTaken(old(users.rows), req.email))
    ensures r.Err? ==> users.rows == old(users.rows)
    ensures r.Ok? ==> r.value == Updated(old(users.rows)[adminId], req, encodedPassword) &&
                      users.rows == old(users.rows)[adminId := r.value]
  {
    if adminId !in users.rows {
      return Err(AdminNotFound);
    }
    var admin := users.rows[adminId];
    if admin.role != Admin {
      return Err(NotAnAdmin);
    }
    if admin.email != req.email && EmailTaken(users.rows, req.email) {
      return Err(EmailExists);
    }
    var v := Updated(admin, req, encodedPassword);
    UpdateKeepsInvariants(users.rows, adminId, v);
    users.rows := users.rows[adminId := OnUpdate(v, now)];
    r := Ok(v);
  }
}
