/** UserApprovalFilter: on the order, cart and checkout endpoints, a signed-in
    customer whose account is not approved is answered 403 Forbidden; every
    other request goes on down the filter chain. */
module UserApprovalFilter {
  import opened Wrappers
  import opened Text
  import opened UserEntity
  import AuthService

  /** The parts of Spring's Authentication the filter looks at:
      `isAuthenticated()`, whether the principal is "anonymousUser", and
      `getName()`. */
  datatype Authentication = Authentication(isAuthenticated: bool, anonymous: bool, name: string)

  datatype Decision = Continue | Forbidden

  const OrdersPrefix := "/api/orders"
  const CartPrefix := "/api/cart"
  const CheckoutPrefix := "/api/checkout"

  /** `requiresApproval(path)`: the order, cart and checkout endpoints, all
      under "/api/"; the public catalogue under "/api/products" is not among
      them. */
  predicate RequiresApproval(path: string): (r: bool)
    ensures r ==> StartsWith(path, "/api/")
    ensures StartsWith(path, "/api/products") ==> !r
  {
    assert StartsWith(path, "/api/products") ==> path[5] == "/api/products"[5] == 'p';
    assert StartsWith(path, OrdersPrefix) ==> path[5] == OrdersPrefix[5] == 'o';
    assert StartsWith(path, CartPrefix) ==> path[5] == CartPrefix[5] == 'c';
    assert StartsWith(path, CheckoutPrefix) ==> path[5] == CheckoutPrefix[5] == 'c';
    StartsWith(path, OrdersPrefix) || StartsWith(path, CartPrefix) || StartsWith(path, CheckoutPrefix)
  }

  /** `doFilterInternal`, as the decision it takes. */
  function Filter(users: map<nat, User>, auth: Option<Authentication>, path: string): (d: Decision)
    requires UniqueAccounts(users)
    ensures d == Forbidden <==>
      && auth.Some? && auth.value.isAuthenticated && !auth.value.anonymous
      && RequiresApproval(path)
      && UsernameTaken(users, auth.value.name)
      && users[FindByUsername(users, auth.value.name).value].role == Customer
      && !IsApprovedAccount(users[FindByUsername(users, auth.value.name).value])
  {
    if auth.Some? && auth.value.isAuthenticated && !auth.value.anonymous && RequiresApproval(path) then
      match FindByUsername(users, auth.value.name)
      case None => Continue
      case Some(id) =>
        var u := users[id];
        if u.role == Admin then Continue
        else if !u.approved || u.accountStatus != Approved then
          assert u.role == Customer && !IsApprovedAccount(u);
          assert FindByUsername(users, auth.value.name).value == id;
          Forbidden
        else Continue
    else Continue
  }

  /** Anything under a protected prefix is protected too. */
  lemma {:induction false} RequiresApprovalExtends(path: string, rest: string)
    requires RequiresApproval(path)
    ensures RequiresApproval(path + rest)
  {
    var p := if StartsWith(path, OrdersPrefix) then OrdersPrefix
             else if StartsWith(path, CartPrefix) then CartPrefix else CheckoutPrefix;
    assert StartsWith(path, p);
    assert (path + rest)[..|p|] == path[..|p|];
  }

  /** Requests the filter always lets through: unauthenticated or anonymous
      ones, ones to other paths, and ones from administrators. */
  lemma FilterPasses(users: map<nat, User>, auth: Option<Authentication>, path: string)
    requires UniqueAccounts(users)
    ensures auth.None? ==> Filter(users, auth, path) == Continue
    ensures auth.Some? && (!auth.value.isAuthenticated || auth.value.anonymous) ==> Filter(users, auth, path) == Continue
    ensures !RequiresApproval(path) ==> Filter(users, auth, path) == Continue
    ensures (auth.Some? && auth.value.isAuthenticated && !auth.value.anonymous &&
             !UsernameTaken(users, auth.value.name)) ==> Filter(users, auth, path) == Continue
    ensures (auth.Some? && UsernameTaken(users, auth.value.name) &&
             users[FindByUsername(users, auth.value.name).value].role == Admin) ==> Filter(users, auth, path) == Continue
  {
  }

  /** The filter and login agree: whoever login admits is never stopped, and
      a signed-in customer whom login would turn away as pending or rejected
      is stopped on the order endpoints. */
  lemma FilterAgreesWithLogin(users: map<nat, User>, name: string, token: string, path: string)
    requires UniqueAccounts(users)
    ensures AuthService.Login(users, name, true, token).Ok? ==>
      Filter(users, Some(Authentication(true, false, name)), path) == Continue
    ensures UsernameTaken(users, name) && users[FindByUsername(users, name).value].role == Customer &&
            (AuthService.Login(users, name, true, token) == Err(AuthService.AccountPending) ||
             (AuthService.Login(users, name, true, token).Err? &&
              AuthService.Login(users, name, true, token).error.AccountRejected?)) &&
            RequiresApproval(path) ==>
      Filter(users, Some(Authentication(true, false, name)), path) == Forbidden
  {
  }
}
