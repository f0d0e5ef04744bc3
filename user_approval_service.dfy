/** UserApprovalService: administrators approve or reject customer accounts,
    list them and count them by account status. */
module UserApprovalService {
  import opened Wrappers
  import opened Store
  import opened UserEntity

  datatype ApprovalError =
    | UserNotFound      // "User not found"
    | AlreadyApproved   // "User is already approved"
    | AlreadyRejected   // "User is already rejected"
    | AdminNotFound     // "Admin not found"

  /** The fields approveUser sets. */
  function ApprovedBy(u: User, adminId: nat, now: Instant): (r: User)
    ensures IsApprovedAccount(r) && r.approvedBy == Some(adminId) && r.approvedAt == Some(now)
    ensures r.rejectionReason == None
    ensures r.(approved := u.approved, accountStatus := u.accountStatus, approvedAt := u.approvedAt,
               approvedBy := u.approvedBy, rejectionReason := u.rejectionReason) == u
  {
    u.(approved := true, accountStatus := Approved, approvedAt := Some(now),
       approvedBy := Some(adminId), rejectionReason := None)
  }

  /** The fields rejectUser sets. */
  function RejectedWith(u: User, reason: Option<string>): (r: User)
    ensures !r.approved && r.accountStatus == Rejected && r.rejectionReason == reason
    ensures r.approvedAt == None && r.approvedBy == None
    ensures r.(approved := u.approved, accountStatus := u.accountStatus, approvedAt := u.approvedAt,
               approvedBy := u.approvedBy, rejectionReason := u.rejectionReason) == u
  {
    u.(approved := false, accountStatus := Rejected, rejectionReason := reason,
       approvedAt := None, approvedBy := None)
  }

  /** approveUser: the user must exist and not be APPROVED already (a
      REJECTED user may be approved), then the acting administrator must
      exist; the user becomes approved by that administrator. The stored row
      is what the update hook makes of it, which here changes nothing. */
  method ApproveUser(users: Table<User>, id: nat, adminId: nat, now: Instant) returns (r: Result<User, ApprovalError>)
    requires users.Valid() && UniqueAccounts(users.rows) && AdminsApproved(users.rows)
    modifies users
    ensures users.Valid() && UniqueAccounts(users.rows) && AdminsApproved(users.rows)
    ensures users.nextId == old(users.nextId)
    ensures id !in old(users.rows) ==> r == Err(UserNotFound)
    ensures id in old(users.rows) && old(users.rows)[id].accountStatus == Approved ==> r == Err(AlreadyApproved)
    ensures r.Ok? <==> id in old(users.rows) && old(users.rows)[id].accountStatus != Approved && adminId in old(users.rows)
    ensures r.Err? ==> users.rows == old(users.rows)
    ensures r.Ok? ==> r.value == ApprovedBy(old(users.rows)[id], adminId, now) && users.rows == old(users.rows)[id := r.value]
  {
    if id !in users.rows {
      return Err(UserNotFound);
    }
    var u := users.rows[id];
    if u.accountStatus == Approved {
      return Err(AlreadyApproved);
    }
    if adminId !in users.rows {
      return Err(AdminNotFound);
    }
    var v := ApprovedBy(u, adminId, now);
    ReplaceKeepsInvariants(users.rows, id, v);
    users.rows := users.rows[id := OnUpdate(v, now)];
    r := Ok(v);
  }

  /** rejectUser: the user must exist and not be REJECTED already (an
      APPROVED user may be rejected). The returned record is the rejected
      one; the stored row is what the update hook makes of it, so a rejected
      administrator is stored approved again. */
  method RejectUser(users: Table<User>, id: nat, reason: Option<string>, now: Instant) returns (r: Result<User, ApprovalError>)
    requires users.Valid() && UniqueAccounts(users.rows) && AdminsApproved(users.rows)
    modifies users
    ensures users.Valid() && UniqueAccounts(users.rows) && AdminsApproved(users.rows)
    ensures users.nextId == old(users.nextId)
    ensures id !in old(users.rows) ==> r == Err(UserNotFound)
    ensures r.Ok? <==> id in old(users.rows) && old(users.rows)[id].accountStatus != Rejected
    ensures r.Err? ==> users.rows == old(users.rows)
    ensures r.Err? && id in old(users.rows) ==> r == Err(AlreadyRejected)
    ensures r.Ok? ==> r.value == RejectedWith(old(users.rows)[id], reason) &&
                      users.rows == old(users.rows)[id := OnUpdate(r.value, now)]
    ensures r.Ok? && old(users.rows)[id].role == Customer ==> users.rows[id] == r.value
  {
    if id !in users.rows {
      return Err(UserNotFound);
    }
    var u := users.rows[id];
    if u.accountStatus == Rejected {
      return Err(AlreadyRejected);
    }
    var v := RejectedWith(u, reason);
    ReplaceKeepsInvariants(users.rows, id, OnUpdate(v, now));
    users.rows := users.rows[id := OnUpdate(v, now)];
    r := Ok(v);
  }

  /** What rejecting an administrator leaves in the table: the update hook
      approves it again, with the rejection reason still set. */
  lemma RejectedAdminStaysApproved(u: User, reason: Option<string>, now: Instant)
    requires u.role == Admin
    ensures IsApprovedAccount(OnUpdate(RejectedWith(u, reason), now))
    ensures OnUpdate(RejectedWith(u, reason), now).rejectionReason == reason
    ensures OnUpdate(RejectedWith(u, reason), now).approvedBy == None
  {
  }

  /** Approval and rejection undo each other's guard: an approved account can
      only be rejected next and a rejected one only approved. */
  lemma TransitionsAlternate(u: User, adminId: nat, reason: Option<string>, now: Instant)
    ensures ApprovedBy(u, adminId, now).accountStatus == Approved && ApprovedBy(u, adminId, now).accountStatus != Rejected
    ensures RejectedWith(u, reason).accountStatus == Rejected && RejectedWith(u, reason).accountStatus != Approved
    ensures ApprovedBy(RejectedWith(u, reason), adminId, now) == ApprovedBy(u, adminId, now)
    ensures RejectedWith(ApprovedBy(u, adminId, now), reason) == RejectedWith(u, reason)
  {
  }

  // ---------------------------------------------------------------------
  // Listings and counts

  /** getPendingUsers, as the set of ids. */
  function PendingUsers(users: map<nat, User>): (r: set<nat>)
    ensures forall id :: id in r <==> id in users && users[id].accountStatus == Pending
  {
    IdsWithStatus(users, Pending)
  }

  /** getAllUsers: every user except administrators. */
  function NonAdminUsers(users: map<nat, User>): (r: set<nat>)
    ensures forall id :: id in r <==> id in users && users[id].role != Admin
  {
    set id | id in users && users[id].role != Admin
  }

  /** Administrators are never pending, so every pending user is on the
      listing of all users. */
  lemma PendingAreListed(users: map<nat, User>)
    requires AdminsApproved(users)
    ensures PendingUsers(users) <= NonAdminUsers(users)
  {
  }

  function IdsWithStatus(users: map<nat, User>, s: AccountStatus): (r: set<nat>)
    ensures forall id :: id in r <==> id in users && users[id].accountStatus == s
  {
    set id | id in users && users[id].accountStatus == s
  }

  datatype UserStats = UserStats(total: nat, pending: nat, approved: nat, rejected: nat)

  /** getUserStatistics */
  function UserStatistics(users: map<nat, User>): (r: UserStats)
    ensures r.total == |users|
    ensures r.pending + r.approved + r.rejected == r.total
    ensures r.pending == |PendingUsers(users)|
    ensures r.approved == |IdsWithStatus(users, Approved)|
    ensures r.rejected == |IdsWithStatus(users, Rejected)|
  {
    StatusCountsPartition(users);
    UserStats(|users|, |IdsWithStatus(users, Pending)|, |IdsWithStatus(users, Approved)|,
              |IdsWithStatus(users, Rejected)|)
  }

  /** Every user has exactly one of the three statuses. */
  lemma StatusCountsPartition(users: map<nat, User>)
    ensures |IdsWithStatus(users, Pending)| + |IdsWithStatus(users, Approved)| +
            |IdsWithStatus(users, Rejected)| == |users|
  {
    StatusSetsCover(users);
    ThreeWayPartition(users.Keys, IdsWithStatus(users, Pending), IdsWithStatus(users, Approved),
                      IdsWithStatus(users, Rejected));
  }

  lemma StatusSetsCover(users: map<nat, User>)
    ensures IdsWithStatus(users, Pending) + IdsWithStatus(users, Approved) + IdsWithStatus(users, Rejected) == users.Keys
  {
    forall id | id in users
      ensures id in IdsWithStatus(users, users[id].accountStatus)
    {
    }
  }

  /** Three pairwise disjoint sets covering `all` split its size. */
  lemma ThreeWayPartition<T>(all: set<T>, a: set<T>, b: set<T>, c: set<T>)
    requires a + b + c == all
    requires a * b == {} && a * c == {} && b * c == {}
    ensures |a| + |b| + |c| == |all|
  {
    assert (a + b) * c == {};
  }

  /** Approving a pending user moves exactly one user from the pending
      count to the approved count. */
  lemma ApprovalMovesOneCount(users: map<nat, User>, id: nat, adminId: nat, now: Instant)
    requires id in users && users[id].accountStatus == Pending
    ensures UserStatistics(users[id := ApprovedBy(users[id], adminId, now)]).pending + 1 == UserStatistics(users).pending
    ensures UserStatistics(users[id := ApprovedBy(users[id], adminId, now)]).approved == UserStatistics(users).approved + 1
    ensures UserStatistics(users[id := ApprovedBy(users[id], adminId, now)]).rejected == UserStatistics(users).rejected
  {
    var u' := users[id := ApprovedBy(users[id], adminId, now)];
    assert IdsWithStatus(u', Pending) + {id} == IdsWithStatus(users, Pending);
    assert IdsWithStatus(u', Approved) == IdsWithStatus(users, Approved) + {id};
    assert IdsWithStatus(u', Rejected) == IdsWithStatus(users, Rejected);
  }
}
