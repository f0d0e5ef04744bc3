/** The User entity: role, approval fields, the JPA lifecycle hooks that
    auto-approve administrators, and the Spring Security view of a user. */
module UserEntity {
  import opened Wrappers

  /** A point in time, as handed in by the caller (the model has no clock). */
  type Instant = int

  datatype Role = Customer | Admin
  datatype AccountStatus = Pending | Approved | Rejected

  datatype User = User(
    username: string,
    email: string,
    password: string,
    firstName: Option<string>,
    lastName: Option<string>,
    phoneNumber: Option<string>,
    role: Role,
    isActive: bool,
    approved: bool,
    accountStatus: AccountStatus,
    approvedAt: Option<Instant>,
    approvedBy: Option<nat>,
    rejectionReason: Option<string>,
    address: Option<string>,
    city: Option<string>,
    state: Option<string>,
    zipCode: Option<string>,
    country: Option<string>)

  /** `new User()` with its credentials set: the field initialisers make it an
      active, unapproved, pending customer. */
  function NewUser(username: string, email: string, password: string): (u: User)
    ensures u.username == username && u.email == email && u.password == password
    ensures u.role == Customer && u.isActive && !u.approved && u.accountStatus == Pending
    ensures u.approvedAt == None && u.approvedBy == None && u.rejectionReason == None
  {
    User(username, email, password, None, None, None, Customer, true, false, Pending,
         None, None, None, None, None, None, None, None)
  }

  /** The approval test shared by login and the request filter. */
  predicate IsApprovedAccount(u: User) {
    u.approved && u.accountStatus == Approved
  }

  /** `@PrePersist onCreate`: an administrator is stored approved. */
  function OnCreate(u: User, now: Instant): (r: User)
    ensures r.role == u.role && r.username == u.username && r.email == u.email
    ensures r.role == Admin ==> IsApprovedAccount(r)
    ensures u.role == Customer ==> r == u
  {
    if u.role == Admin then
      u.(approved := true, accountStatus := Approved, approvedAt := Some(now))
    else u
  }

  /** `@PreUpdate onUpdate`: an administrator found unapproved is approved
      again; customers and approved administrators are left alone. */
  function OnUpdate(u: User, now: Instant): (r: User)
    ensures r.role == u.role && r.username == u.username && r.email == u.email
    ensures r.role == Admin ==> r.approved
    ensures (u.role == Customer || u.approved) ==> r == u
  {
    if u.role == Admin && !u.approved then
      u.(approved := true, accountStatus := Approved, approvedAt := Some(now))
    else u
  }

  /** `isEnabled()`: a deactivated or unapproved account is disabled. */
  predicate IsEnabled(u: User): (r: bool)
    ensures r ==> u.isActive && u.approved
    ensures !u.isActive || !u.approved ==> !r
  {
    u.isActive && u.approved
  }

  /** `isAccountNonLocked()`: the same test, so a locked account is always a
      disabled one and the other way round. */
  predicate IsAccountNonLocked(u: User): (r: bool)
    ensures r <==> IsEnabled(u)
  {
    u.isActive && u.approved
  }

  function RoleName(r: Role): string {
    match r
    case Customer => "CUSTOMER"
    case Admin => "ADMIN"
  }

  /** `getAuthorities()`: exactly one authority, ROLE_ and the role's name. */
  function Authorities(u: User): (r: seq<string>)
    ensures |r| == 1
  {
    ["ROLE_" + RoleName(u.role)]
  }

  /** Spring's `hasRole(name)`. */
  predicate HasRole(u: User, name: string) {
    "ROLE_" + name in Authorities(u)
  }

  /** The authority names the role exactly: `hasRole('ADMIN')` holds for
      administrators and for nobody else, likewise for customers. */
  lemma HasRoleIffRole(u: User)
    ensures HasRole(u, "ADMIN") <==> u.role == Admin
    ensures HasRole(u, "CUSTOMER") <==> u.role == Customer
  {
    if u.role == Customer {
      assert ("ROLE_" + "ADMIN")[5] != ("ROLE_" + "CUSTOMER")[5];
    } else {
      assert ("ROLE_" + "CUSTOMER")[5] != ("ROLE_" + "ADMIN")[5];
    }
  }

  /** Every administrator in the table is approved with status APPROVED; the
      hooks keep it so. */
  ghost predicate AdminsApproved(users: map<nat, User>) {
    forall id :: id in users && users[id].role == Admin ==> IsApprovedAccount(users[id])
  }

  /** Usernames and emails are unique columns. */
  ghost predicate UniqueAccounts(users: map<nat, User>) {
    forall a, b :: a in users && b in users && a != b ==>
      users[a].username != users[b].username && users[a].email != users[b].email
  }

  predicate UsernameTaken(users: map<nat, User>, username: string) {
    exists id :: id in users && users[id].username == username
  }

  predicate EmailTaken(users: map<nat, User>, email: string) {
    exists id :: id in users && users[id].email == email
  }

  /** `findByUsername`: with unique usernames there is at most one match. */
  function FindByUsername(users: map<nat, User>, username: string): (r: Option<nat>)
    requires UniqueAccounts(users)
    ensures r.Some? <==> UsernameTaken(users, username)
    ensures r.Some? ==> r.value in users && users[r.value].username == username
    ensures forall id :: id in users && users[id].username == username ==> r == Some(id)
  {
    if UsernameTaken(users, username) then
      var id :| id in users && users[id].username == username; Some(id)
    else None
  }

  /** Storing a new user whose username and email are free, and which is
      approved if it is an administrator, keeps the table's invariants. */
  lemma InsertKeepsInvariants(users: map<nat, User>, id: nat, v: User)
    requires id !in users && UniqueAccounts(users) && AdminsApproved(users)
    requires !UsernameTaken(users, v.username) && !EmailTaken(users, v.email)
    requires v.role == Admin ==> IsApprovedAccount(v)
    ensures UniqueAccounts(users[id := v]) && AdminsApproved(users[id := v])
  {
    var m := users[id := v];
    forall a, b | a in m && b in m && a != b
      ensures m[a].username != m[b].username && m[a].email != m[b].email
    {
      if a == id {
        assert b in users;
      } else if b == id {
        assert a in users;
      }
    }
  }

  /** Replacing a user by a record with the same role, username and email
      keeps the table's invariants. */
  lemma ReplaceKeepsInvariants(users: map<nat, User>, id: nat, v: User)
    requires id in users && UniqueAccounts(users) && AdminsApproved(users)
    requires v.username == users[id].username && v.email == users[id].email && v.role == users[id].role
    requires v.role == Admin ==> IsApprovedAccount(v)
    ensures UniqueAccounts(users[id := v]) && AdminsApproved(users[id := v])
  {
  }

  /** Saving an administrator whose approval was taken away gives it back. */
  lemma OnUpdateRestoresAdmin(u: User, now: Instant)
    requires u.role == Admin && !u.approved
    ensures IsApprovedAccount(OnUpdate(u, now)) && IsEnabled(OnUpdate(u, now)) == u.isActive
  {
  }
}
