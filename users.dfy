/**
 * User management (app/Http/Controllers/Api/ApiController.php): the access
 * rule between an actor and a user account, registration with its role and
 * provenance rules, the listing, the update with its role-change rule and the
 * deletion with its ban on deleting one's own account.
 */
module UserManagement {
  import opened Wrappers
  import opened Domain
  import opened Persistence

  /**
   * `checkUserAccess`: an admin manages every account, a supervisor the
   * accounts whose `user_created_by` is its own address, a customer only the
   * account with its own address.
   */
  predicate CheckUserAccess(actor: Actor, target: User)
  {
    match actor.role
    case Admin => true
    case Supervisor => target.createdBy == Some(actor.email)
    case Customer => actor.email == target.email
  }

  datatype RegisterRequest = RegisterRequest(name: string, email: string, role: Option<string>, formatOk: bool)

  /** The validated `user_role` of a registration, if one was sent. */
  function RequestedRole(req: RegisterRequest): Option<Role>
  {
    if req.role.Some? then ParseRole(req.role.value) else None
  }

  /**
   * The validation step of `register`: the format rules (`formatOk`), an
   * address no account uses yet, and a role name among the three.
   */
  predicate RegisterValid(users: map<nat, User>, req: RegisterRequest)
  {
    && req.formatOk
    && !EmailTaken(users, req.email, None)
    && (req.role.Some? ==> ParseRole(req.role.value).Some?)
  }

  /**
   * The role and `user_created_by` that `register` gives the new account, or
   * None where it answers 403. `actor` is None for an unauthenticated call.
   * Only an admin creates an account with a role other than customer, an
   * account created by a signed-in user records that user's address, and a
   * customer creates nothing.
   */
  function NewAccount(actor: Option<Actor>, requested: Option<Role>): (r: Option<(Role, Option<string>)>)
    ensures r.Some? && r.value.0 != Customer ==> actor.Some? && actor.value.role == Admin
    ensures r.Some? ==> r.value.1 == (if actor.Some? then Some(actor.value.email) else None)
    ensures actor.Some? && actor.value.role == Customer ==> r.None?
    ensures (actor.None? || actor.value.role == Supervisor) ==>
      (r.Some? <==> requested in {None, Some(Customer)})
    ensures actor.Some? && actor.value.role == Admin ==> r.Some? && r.value.0 == requested.GetOr(Customer)
  {
    match actor
    case None =>
      if requested.Some? && requested.value != Customer then None else Some((Customer, None))
    case Some(a) =>
      match a.role
      case Supervisor =>
        if requested.Some? && requested.value != Customer then None else Some((Customer, Some(a.email)))
      case Admin => Some((requested.GetOr(Customer), Some(a.email)))
      case Customer => None
  }

  /**
   * `register`: 422 on a failed validation, 403 where `NewAccount` refuses,
   * otherwise 200 and exactly one new account under a fresh id.
   */
  method Register(db: Database, actor: Option<Actor>, req: RegisterRequest) returns (code: Code)
    requires db.Valid()
    modifies db
    ensures db.Valid()
    ensures !RegisterValid(old(db.users), req) ==> code == Unprocessable
    ensures RegisterValid(old(db.users), req) ==>
      code == (if NewAccount(actor, RequestedRole(req)).Some? then Ok else Forbidden)
    ensures code != Ok ==> unchanged(db)
    ensures code == Ok ==>
      && old(db.nextUserId) !in old(db.users)
      && var account := NewAccount(actor, RequestedRole(req)).value;
         db.users == old(db.users)[old(db.nextUserId) := User(req.name, req.email, account.0, account.1, ActiveUser)]
    ensures unchanged(db`restaurants, db`tables, db`reservations)
  {
    if !RegisterValid(db.users, req) {
      return Unprocessable;
    }
    var account := NewAccount(actor, RequestedRole(req));
    if account.None? {
      return Forbidden;
    }
    var id := db.nextUserId;
    db.users := db.users[id := User(req.name, req.email, account.value.0, account.value.1, ActiveUser)];
    db.nextUserId := id + 1;
    code := Ok;
  }

  /** One entry of the `$data` list that `getUsers` answers with. */
  datatype UserSummary = UserSummary(id: nat, name: string, email: string, role: Role, createdBy: Option<string>)

  function Summarize(id: nat, u: User): UserSummary
  {
    UserSummary(id, u.name, u.email, u.role, u.createdBy)
  }

  /** The query of `getUsers`: every account for an admin, those it created for a supervisor. */
  predicate Listed(actor: Actor, u: User)
  {
    actor.role == Admin || u.createdBy == Some(actor.email)
  }

  /**
   * `getUsers`: 403 for a customer; otherwise the accounts the actor may
   * manage according to `checkUserAccess`, each summarized.
   */
  method GetUsers(db: Database, actor: Actor) returns (code: Code, data: map<nat, UserSummary>)
    ensures code == (if actor.role == Customer then Forbidden else Ok)
    ensures code == Forbidden ==> data == map[]
    ensures code == Ok ==> data.Keys == set i | i in db.users && CheckUserAccess(actor, db.users[i])
    ensures forall i :: i in data ==> i in db.users && data[i] == Summarize(i, db.users[i])
  {
    if actor.role == Customer {
      return Forbidden, map[];
    }
    data := map[];
    var todo := db.users.Keys;
    while todo != {}
      invariant todo <= db.users.Keys
      invariant forall i :: i in data ==> i in db.users && i !in todo && Listed(actor, db.users[i])
      invariant forall i :: i in data ==> data[i] == Summarize(i, db.users[i])
      invariant forall i :: i in db.users && i !in todo && Listed(actor, db.users[i]) ==> i in data
      decreases todo
    {
      var i :| i in todo;
      if Listed(actor, db.users[i]) {
        data := data[i := Summarize(i, db.users[i])];
      }
      todo := todo - {i};
    }
    code := Ok;
  }

  datatype UserUpdate = UserUpdate(name: Option<string>, email: Option<string>, role: Option<string>, formatOk: bool)

  /**
   * The validation of `update`: the format rules, an address no other
   * account uses, and, for an admin only, a role name among the three.
   */
  predicate UpdateValid(users: map<nat, User>, id: nat, actor: Actor, req: UserUpdate)
  {
    && req.formatOk
    && (req.email.Some? ==> !EmailTaken(users, req.email.value, Some(id)))
    && (actor.role == Admin && req.role.Some? ==> ParseRole(req.role.value).Some?)
  }

  /**
   * The account after a successful `update`: name and address when sent; the
   * role only when an admin sends one; provenance and status never change.
   */
  function UpdatedUser(u: User, actor: Actor, req: UserUpdate): (r: User)
    ensures r.createdBy == u.createdBy && r.status == u.status
    ensures r.role != u.role ==> actor.role == Admin && req.role.Some?
    ensures r.email == req.email.GetOr(u.email) && r.name == req.name.GetOr(u.name)
  {
    var role :=
      if actor.role == Admin && req.role.Some? && ParseRole(req.role.value).Some?
      then ParseRole(req.role.value).value else u.role;
    u.(name := req.name.GetOr(u.name), email := req.email.GetOr(u.email), role := role)
  }

  /**
   * `update`: 404 for an unknown account, 403 without access, 403 when a
   * supervisor sends a role other than customer, 422 on a failed validation;
   * otherwise the account becomes `UpdatedUser` and nothing else changes.
   */
  method Update(db: Database, actor: Actor, id: nat, req: UserUpdate) returns (code: Code)
    requires db.Valid()
    modifies db
    ensures db.Valid()
    ensures id !in old(db.users) ==> code == NotFound
    ensures id in old(db.users) && !CheckUserAccess(actor, old(db.users)[id]) ==> code == Forbidden
    ensures id in old(db.users) && CheckUserAccess(actor, old(db.users)[id]) ==>
      code == (if actor.role == Supervisor && req.role.Some? && req.role.value != "customer" then Forbidden
               else if !UpdateValid(old(db.users), id, actor, req) then Unprocessable
               else Ok)
    ensures code != Ok ==> unchanged(db)
    ensures code == Ok ==> id in old(db.users) && db.users == old(db.users)[id := UpdatedUser(old(db.users)[id], actor, req)]
    ensures unchanged(db`restaurants, db`tables, db`reservations, db`nextUserId)
  {
    if id !in db.users {
      return NotFound;
    }
    var target := db.users[id];
    if !CheckUserAccess(actor, target) {
      return Forbidden;
    }
    if actor.role == Supervisor && req.role.Some? && req.role.value != "customer" {
      return Forbidden;
    }
    if !UpdateValid(db.users, id, actor, req) {
      return Unprocessable;
    }
    db.users := db.users[id := UpdatedUser(target, actor, req)];
    code := Ok;
  }

  /** `destroy`'s two refusals: no access to the account, or the account is the actor's own. */
  predicate MayDelete(actor: Actor, target: User)
  {
    CheckUserAccess(actor, target) && target.email != actor.email
  }

  /**
   * A customer never deletes any account: access requires the target to be
   * its own account, and deleting one's own account is refused.
   */
  lemma CustomerNeverDeletes(actor: Actor, target: User)
    requires actor.role == Customer
    ensures !MayDelete(actor, target)
  {
  }

  /**
   * `destroy`: 404 for an unknown account, 403 unless `MayDelete`; otherwise
   * exactly that account is removed.
   */
  method Destroy(db: Database, actor: Actor, id: nat) returns (code: Code)
    requires db.Valid()
    modifies db
    ensures db.Valid()
    ensures id !in old(db.users) ==> code == NotFound
    ensures id in old(db.users) ==> code == (if MayDelete(actor, old(db.users)[id]) then Ok else Forbidden)
    ensures actor.role == Customer ==> code != Ok
    ensures code != Ok ==> unchanged(db)
    ensures code == Ok ==> db.users == old(db.users) - {id}
    ensures unchanged(db`restaurants, db`tables, db`reservations, db`nextUserId)
  {
    if id !in db.users {
      return NotFound;
    }
    if !MayDelete(actor, db.users[id]) {
      return Forbidden;
    }
    db.users := db.users - {id};
    code := Ok;
  }
}
