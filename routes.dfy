/**
 * The route table (routes/api.php): which middleware stands in front of each
 * controller action, and what a request must bring to get through: nothing
 * for the two public routes, a signed-in user (`auth:api`) for the rest, and
 * inside the two role groups a role the role middleware admits. A request is
 * carried out when the route lets it through AND the action's own check
 * grants it.
 */
module Routes {
  import opened Wrappers
  import opened Domain
  import opened RoleMiddleware
  import UserManagement
  import TableManagement
  import RestaurantManagement
  import ReservationManagement

  /** The controller actions the routes lead to. */
  datatype Action =
    | Register | Login
    | ValidateToken | Profile | RefreshToken | Logout
    | GetUsers | StoreUser | UpdateUser | DestroyUser
    | StoreRestaurant | UpdateRestaurant | DestroyRestaurant
    | TableIndex | TableStore | TableShow | TableUpdate | TableDestroy | TablesByRestaurant
    | RestaurantIndex | RestaurantShow
    | ReservationIndex | ReservationStore | ReservationShow | ReservationUpdate | ReservationDestroy
    | ReservationsByRestaurant | MyReservations

  datatype Verb = Get | Post | Put | Patch | Delete

  /** The method and path of each action (`apiResource` expands to the five reservation routes; its `PATCH` twin of the update is in `Dispatch`). */
  function Endpoint(a: Action): (Verb, string)
  {
    match a
    case Register => (Post, "register")
    case Login => (Post, "login")
    case ValidateToken => (Post, "validate-token")
    case Profile => (Get, "profile")
    case RefreshToken => (Get, "refresh-token")
    case Logout => (Get, "logout")
    case GetUsers => (Get, "users")
    case StoreUser => (Post, "users")
    case UpdateUser => (Put, "users/{user}")
    case DestroyUser => (Delete, "users/{user}")
    case StoreRestaurant => (Post, "restaurants")
    case UpdateRestaurant => (Put, "restaurants/{restaurant}")
    case DestroyRestaurant => (Delete, "restaurants/{restaurant}")
    case TableIndex => (Get, "tables")
    case TableStore => (Post, "tables")
    case TableShow => (Get, "tables/{table}")
    case TableUpdate => (Put, "tables/{table}")
    case TableDestroy => (Delete, "tables/{table}")
    case TablesByRestaurant => (Get, "restaurants/{id_restaurant}/tables")
    case RestaurantIndex => (Get, "restaurants")
    case RestaurantShow => (Get, "restaurants/{restaurant}")
    case ReservationIndex => (Get, "reservations")
    case ReservationStore => (Post, "reservations")
    case ReservationShow => (Get, "reservations/{reservation}")
    case ReservationUpdate => (Put, "reservations/{reservation}")
    case ReservationDestroy => (Delete, "reservations/{reservation}")
    case ReservationsByRestaurant => (Get, "restaurants/{id_restaurant}/reservations")
    case MyReservations => (Get, "my-reservations")
  }

  /**
   * The router: the action registered for a method and a path, or None when
   * no route matches (the framework then answers 404).
   */
  function Dispatch(verb: Verb, path: string): Option<Action>
  {
    match verb
    case Get =>
      if path == "profile" then Some(Profile)
      else if path == "refresh-token" then Some(RefreshToken)
      else if path == "logout" then Some(Logout)
      else if path == "users" then Some(GetUsers)
      else if path == "tables" then Some(TableIndex)
      else if path == "tables/{table}" then Some(TableShow)
      else if path == "restaurants/{id_restaurant}/tables" then Some(TablesByRestaurant)
      else if path == "restaurants" then Some(RestaurantIndex)
      else if path == "restaurants/{restaurant}" then Some(RestaurantShow)
      else if path == "reservations" then Some(ReservationIndex)
      else if path == "reservations/{reservation}" then Some(ReservationShow)
      else if path == "restaurants/{id_restaurant}/reservations" then Some(ReservationsByRestaurant)
      else if path == "my-reservations" then Some(MyReservations)
      else None
    case Post =>
      if path == "register" then Some(Register)
      else if path == "login" then Some(Login)
      else if path == "validate-token" then Some(ValidateToken)
      else if path == "users" then Some(StoreUser)
      else if path == "restaurants" then Some(StoreRestaurant)
      else if path == "tables" then Some(TableStore)
      else if path == "reservations" then Some(ReservationStore)
      else None
    case Put =>
      if path == "users/{user}" then Some(UpdateUser)
      else if path == "restaurants/{restaurant}" then Some(UpdateRestaurant)
      else if path == "tables/{table}" then Some(TableUpdate)
      else if path == "reservations/{reservation}" then Some(ReservationUpdate)
      else None
    case Patch =>
      if path == "reservations/{reservation}" then Some(ReservationUpdate)
      else None
    case Delete =>
      if path == "users/{user}" then Some(DestroyUser)
      else if path == "restaurants/{restaurant}" then Some(DestroyRestaurant)
      else if path == "tables/{table}" then Some(TableDestroy)
      else if path == "reservations/{reservation}" then Some(ReservationDestroy)
      else None
  }

  /** Every action's own method and path lead the router back to that action. */
  lemma DispatchFindsEveryAction(a: Action)
    ensures Dispatch(Endpoint(a).0, Endpoint(a).1) == Some(a)
  {
    if Endpoint(a).0 == Get {
      DispatchFindsGetActions(a);
    } else if Endpoint(a).0 == Post {
      DispatchFindsPostActions(a);
    } else if Endpoint(a).0 == Put {
      DispatchFindsPutActions(a);
    } else {
      DispatchFindsDeleteActions(a);
    }
  }

  /** `apiResource` also routes `PATCH reservations/{reservation}` to the update, and no other `PATCH`. */
  lemma PatchReachesOnlyReservationUpdate(path: string)
    ensures Dispatch(Patch, path).Some? <==> path == "reservations/{reservation}"
    ensures Dispatch(Patch, path).Some? ==> Dispatch(Patch, path) == Dispatch(Put, path) == Some(ReservationUpdate)
  {
  }

  /** The same, one method at a time. */
  lemma DispatchFindsGetActions(a: Action)
    requires Endpoint(a).0 == Get
    ensures Dispatch(Get, Endpoint(a).1) == Some(a)
  {
  }

  lemma DispatchFindsPostActions(a: Action)
    requires Endpoint(a).0 == Post
    ensures Dispatch(Post, Endpoint(a).1) == Some(a)
  {
  }

  lemma DispatchFindsPutActions(a: Action)
    requires Endpoint(a).0 == Put
    ensures Dispatch(Put, Endpoint(a).1) == Some(a)
  {
  }

  lemma DispatchFindsDeleteActions(a: Action)
    requires Endpoint(a).0 == Delete
    ensures Dispatch(Delete, Endpoint(a).1) == Some(a)
  {
  }

  /** No two actions share a method and a path. */
  lemma EndpointsAreDistinct(a: Action, b: Action)
    ensures Endpoint(a) == Endpoint(b) ==> a == b
  {
    DispatchFindsEveryAction(a);
    DispatchFindsEveryAction(b);
  }

  /** The middleware in front of a route: none, `auth:api` alone, or `auth:api` and `check.role:<param>`. */
  datatype Guard = Public | Authenticated | Roles(param: string)

  /** The admin group (`check.role:admin`). */
  predicate AdminGroup(a: Action)
  {
    a.GetUsers? || a.StoreUser? || a.UpdateUser? || a.DestroyUser?
    || a.StoreRestaurant? || a.UpdateRestaurant? || a.DestroyRestaurant?
  }

  /** The staff group (`check.role:admin:supervisor`): every table route. */
  predicate StaffGroup(a: Action)
  {
    a.TableIndex? || a.TableStore? || a.TableShow? || a.TableUpdate? || a.TableDestroy? || a.TablesByRestaurant?
  }

  /** The two routes outside the `auth:api` group. */
  predicate PublicRoute(a: Action)
  {
    a.Register? || a.Login?
  }

  /** The route table. */
  function GuardOf(a: Action): Guard
  {
    if PublicRoute(a) then Public
    else if AdminGroup(a) then Roles("admin")
    else if StaffGroup(a) then Roles("admin:supervisor")
    else Authenticated
  }

  /** The middleware chain of a guard: `auth:api` answers 401 without a user, then the role middleware decides. */
  function Gate(g: Guard, actor: Option<Actor>): (o: Outcome)
    ensures g.Public? ==> o == Next
    ensures !g.Public? && actor.None? ==> o == Deny(Unauthenticated)
  {
    match g
    case Public => Next
    case Authenticated => if actor.None? then Deny(Unauthenticated) else Next
    case Roles(param) => if actor.None? then Deny(Unauthenticated) else Handle(actor, param)
  }

  /** A request is carried out when the route lets it through and the action's own check grants it. */
  predicate Permitted(a: Action, actor: Option<Actor>, actionGrants: bool)
  {
    Gate(GuardOf(a), actor) == Next && actionGrants
  }

  /** Registration and login need no token. */
  lemma PublicRoutesNeedNoToken(a: Action, actor: Option<Actor>)
    requires PublicRoute(a)
    ensures Gate(GuardOf(a), actor) == Next
  {
  }

  /** Every route but the two public ones answers 401 to a request without a user. */
  lemma OtherRoutesNeedAUser(a: Action)
    ensures Gate(GuardOf(a), None) == Next <==> PublicRoute(a)
  {
  }

  /** User management and restaurant creation, update and deletion admit admins only. */
  lemma AdminRoutesAdmitOnlyAdmins(a: Action, actor: Option<Actor>)
    requires AdminGroup(a)
    ensures Gate(GuardOf(a), actor) == Next <==> actor.Some? && actor.value.role == Admin
    ensures actor.Some? && actor.value.role != Admin ==> Gate(GuardOf(a), actor) == Deny(Forbidden)
  {
    AdminAdmitsOnlyAdmin(actor);
  }

  /** Every table route admits admins and supervisors, and refuses customers with 403. */
  lemma TableRoutesAdmitStaff(a: Action, actor: Option<Actor>)
    requires StaffGroup(a)
    ensures Gate(GuardOf(a), actor) == Next <==> actor.Some? && actor.value.role != Customer
    ensures actor.Some? && actor.value.role == Customer ==> Gate(GuardOf(a), actor) == Deny(Forbidden)
  {
    assert GuardOf(a) == Roles("admin:supervisor");
    StaffAdmitsAdminAndSupervisor(actor);
  }

  /** Restaurant reads, reservations, the profile and the token routes need only a signed-in user. */
  lemma RemainingRoutesNeedOnlyAUser(a: Action, actor: Option<Actor>)
    requires !PublicRoute(a) && !AdminGroup(a) && !StaffGroup(a)
    ensures Gate(GuardOf(a), actor) == Next <==> actor.Some?
  {
  }

  /**
   * A supervisor never reaches the restaurant update, although that action
   * has a supervisor branch: the route admits admins only, so whatever the
   * restaurant, the request is permitted exactly for an admin.
   */
  lemma RestaurantUpdateIsAdminOnly(actor: Actor, restaurants: map<nat, Restaurant>, rid: nat)
    ensures Permitted(UpdateRestaurant, Some(actor), RestaurantManagement.CheckRestaurantAccess(actor, restaurants, rid))
        <==> actor.role == Admin
  {
    AdminRoutesAdmitOnlyAdmins(UpdateRestaurant, Some(actor));
  }

  /**
   * Likewise the user update and deletion: their supervisor and customer
   * branches are unreachable, and only an admin is ever permitted.
   */
  lemma UserManagementIsAdminOnly(actor: Actor, target: User)
    ensures Permitted(UpdateUser, Some(actor), UserManagement.CheckUserAccess(actor, target)) <==> actor.role == Admin
    ensures Permitted(DestroyUser, Some(actor), UserManagement.MayDelete(actor, target)) ==> actor.role == Admin
  {
    AdminRoutesAdmitOnlyAdmins(UpdateUser, Some(actor));
    AdminRoutesAdmitOnlyAdmins(DestroyUser, Some(actor));
  }

  /**
   * On the table routes the guard adds nothing to the table endpoints' own
   * restaurant check, which already refuses customers.
   */
  lemma TableGuardIsRedundant(a: Action, actor: Actor, restaurants: map<nat, Restaurant>, rid: nat)
    requires StaffGroup(a)
    ensures Permitted(a, Some(actor), TableManagement.CheckRestaurantAccess(actor, restaurants, rid))
        <==> TableManagement.CheckRestaurantAccess(actor, restaurants, rid)
  {
    TableRoutesAdmitStaff(a, Some(actor));
  }

  /** On the reservation routes the permission of a signed-in user is the reservation check alone. */
  lemma ReservationPermissionIsAccess(actor: Actor, restaurants: map<nat, Restaurant>, r: Reservation)
    ensures Permitted(ReservationShow, Some(actor), ReservationManagement.CheckReservationAccess(actor, restaurants, r))
        <==> ReservationManagement.CheckReservationAccess(actor, restaurants, r)
    ensures !Permitted(ReservationShow, None, true)
  {
  }
}
