/**
 * The restaurant endpoints (app/Http/Controllers/RestaurantController.php):
 * the restaurant-scoping rule (supervisor e-mails compared exactly),
 * admin-only creation and deletion, the update with its lock on the
 * supervisor address, and the two read endpoints.
 */
module RestaurantManagement {
  import opened Wrappers
  import opened Domain
  import opened Strings
  import opened Persistence
  import TableManagement

  /**
   * `checkRestaurantAccess` of this controller: an admin always, a customer
   * never, a supervisor when the restaurant exists and its supervisor
   * address is exactly the actor's.
   */
  predicate CheckRestaurantAccess(actor: Actor, restaurants: map<nat, Restaurant>, rid: nat)
  {
    match actor.role
    case Admin => true
    case Supervisor => rid in restaurants && restaurants[rid].supervisorEmail == actor.email
    case Customer => false
  }

  /**
   * The two controllers compare supervisor addresses differently: the
   * exact comparison here never grants more than the case-insensitive one of
   * the table endpoints.
   */
  lemma ExactAccessImpliesTableAccess(actor: Actor, restaurants: map<nat, Restaurant>, rid: nat)
    ensures CheckRestaurantAccess(actor, restaurants, rid) ==> TableManagement.CheckRestaurantAccess(actor, restaurants, rid)
  {
  }

  /**
   * ... and it grants strictly less: a supervisor signed in as `Ana@x` may
   * manage the tables of the restaurant registered to `ana@x`, but not the
   * restaurant itself.
   */
  lemma CaseDifferenceSplitsControllers()
    ensures
      var restaurants := map[1 := Restaurant("R", "R", "", 10, "r@x", "ana@x", "", "", [], Active)];
      var actor := Actor(7, "Ana@x", Supervisor);
      TableManagement.CheckRestaurantAccess(actor, restaurants, 1) && !CheckRestaurantAccess(actor, restaurants, 1)
  {
    var lower := ToLower("Ana@x");
    assert lower[0] == 'a';
    assert lower == "ana@x";
    assert ToLower("ana@x") == "ana@x";
  }

  /** `index`: every restaurant, whoever asks. */
  method Index(db: Database, actor: Actor) returns (code: Code, data: map<nat, Restaurant>)
    ensures code == Ok && data == db.restaurants
  {
    return Ok, db.restaurants;
  }

  /** The body of a `store` request; `formatOk` stands for the required, string, e-mail and JSON rules. */
  datatype NewRestaurant = NewRestaurant(
    name: string,
    businessName: string,
    foodType: string,
    capacity: int,
    businessEmail: string,
    supervisorEmail: string,
    phone: string,
    description: string,
    zones: seq<string>,
    status: Option<RestaurantStatus>,
    formatOk: bool)

  /**
   * The validation of `store`: the length limits (255, 255, 100 and 20
   * characters), a capacity of at least one, and a business address no
   * other restaurant uses.
   */
  predicate StoreValid(restaurants: map<nat, Restaurant>, req: NewRestaurant)
  {
    && req.formatOk
    && |req.name| <= 255
    && |req.businessName| <= 255
    && |req.foodType| <= 100
    && req.capacity >= 1
    && !BusinessEmailTaken(restaurants, req.businessEmail, None)
    && |req.phone| <= 20
  }

  /** The row `Restaurant::create` writes; the status column defaults to `active`. */
  function NewRow(req: NewRestaurant): Restaurant
  {
    Restaurant(req.name, req.businessName, req.foodType, req.capacity, req.businessEmail,
               req.supervisorEmail, req.phone, req.description, req.zones, req.status.GetOr(Active))
  }

  /**
   * `store`: 403 for anybody but an admin, 422 on a failed validation;
   * otherwise 201 and exactly one new restaurant.
   */
  method Store(db: Database, actor: Actor, req: NewRestaurant) returns (code: Code, id: nat)
    requires db.Valid()
    modifies db
    ensures db.Valid()
    ensures actor.role != Admin ==> code == Forbidden
    ensures actor.role == Admin ==> code == (if StoreValid(old(db.restaurants), req) then Created else Unprocessable)
    ensures code != Created ==> unchanged(db)
    ensures code == Created ==> id !in old(db.restaurants) && db.restaurants == old(db.restaurants)[id := NewRow(req)]
    ensures unchanged(db`users, db`tables, db`reservations)
  {
    id := 0;
    if actor.role != Admin {
      return Forbidden, 0;
    }
    if !StoreValid(db.restaurants, req) {
      return Unprocessable, 0;
    }
    id := db.nextRestaurantId;
    db.restaurants := db.restaurants[id := NewRow(req)];
    db.nextRestaurantId := id + 1;
    code := Created;
  }

  /** `show`: 404 for an unknown restaurant, otherwise the restaurant, whoever asks. */
  method Show(db: Database, rid: nat) returns (code: Code, restaurant: Option<Restaurant>)
    ensures rid !in db.restaurants ==> code == NotFound && restaurant.None?
    ensures rid in db.restaurants ==> code == Ok && restaurant == Some(db.restaurants[rid])
  {
    if rid !in db.restaurants {
      return NotFound, None;
    }
    return Ok, Some(db.restaurants[rid]);
  }

  /** The body of an `update` request: every field optional. */
  datatype RestaurantUpdate = RestaurantUpdate(
    name: Option<string>,
    businessName: Option<string>,
    foodType: Option<string>,
    capacity: Option<int>,
    businessEmail: Option<string>,
    supervisorEmail: Option<string>,
    phone: Option<string>,
    description: Option<string>,
    zones: Option<seq<string>>,
    status: Option<string>,
    formatOk: bool)

  /**
   * The validation of `update`, for whichever fields are sent: the length
   * limits, a capacity of at least one, a business address no other
   * restaurant uses, and a status among the four.
   */
  predicate UpdateValid(restaurants: map<nat, Restaurant>, rid: nat, req: RestaurantUpdate)
  {
    && req.formatOk
    && (req.name.Some? ==> |req.name.value| <= 255)
    && (req.businessName.Some? ==> |req.businessName.value| <= 255)
    && (req.foodType.Some? ==> |req.foodType.value| <= 100)
    && (req.capacity.Some? ==> req.capacity.value >= 1)
    && (req.businessEmail.Some? ==> !BusinessEmailTaken(restaurants, req.businessEmail.value, Some(rid)))
    && (req.phone.Some? ==> |req.phone.value| <= 20)
    && (req.status.Some? ==> ParseRestaurantStatus(req.status.value).Some?)
  }

  /**
   * The row after `$restaurant->update($data)`: a request that sends nothing
   * leaves the row as it was, the supervisor changes only when sent, a stored
   * capacity of at least one stays so under a valid request, and a sent
   * status is stored under its own name.
   */
  function UpdatedRestaurant(r: Restaurant, req: RestaurantUpdate): (u: Restaurant)
    requires req.status.Some? ==> ParseRestaurantStatus(req.status.value).Some?
    ensures
      && req.name.None? && req.businessName.None? && req.foodType.None? && req.capacity.None?
      && req.businessEmail.None? && req.supervisorEmail.None? && req.phone.None? && req.description.None?
      && req.zones.None? && req.status.None?
      ==> u == r
    ensures req.supervisorEmail.None? ==> u.supervisorEmail == r.supervisorEmail
    ensures r.capacity >= 1 && (req.capacity.Some? ==> req.capacity.value >= 1) ==> u.capacity >= 1
    ensures req.status.Some? ==> RestaurantStatusName(u.status) == req.status.value
    ensures req.status.None? ==> u.status == r.status
  {
    Restaurant(
      req.name.GetOr(r.name),
      req.businessName.GetOr(r.businessName),
      req.foodType.GetOr(r.foodType),
      req.capacity.GetOr(r.capacity),
      req.businessEmail.GetOr(r.businessEmail),
      req.supervisorEmail.GetOr(r.supervisorEmail),
      req.phone.GetOr(r.phone),
      req.description.GetOr(r.description),
      req.zones.GetOr(r.zones),
      if req.status.Some? then ParseRestaurantStatus(req.status.value).value else r.status)
  }

  /**
   * The zones step of `update` as written: `$data['restaurant_zones']` is read
   * whether or not the request sent zones. A missing key is a PHP warning,
   * which the framework raises as an exception, so only a request with zones
   * reaches the save.
   */
  predicate ReachesSaveAsWritten(req: RestaurantUpdate)
  {
    req.zones.Some?
  }

  /**
   * As written, a valid admin update that sends only a new name and capacity
   * (zones omitted, as `update` allows with `sometimes`) never reaches the save.
   */
  lemma AsWrittenUpdateWithoutZonesFails()
    ensures
      var restaurants := map[1 := Restaurant("R", "R", "", 50, "r@x", "s@x", "", "", ["zone1"], Active)];
      var req := RestaurantUpdate(Some("Updated Restaurant"), None, None, Some(75), None, None, None, None, None, None, true);
      && CheckRestaurantAccess(Actor(1, "a@x", Admin), restaurants, 1)
      && UpdateValid(restaurants, 1, req)
      && !ReachesSaveAsWritten(req)
  {
  }

  /**
   * The corrected save: a request without zones leaves the stored zones as
   * they are and still applies the fields it sends.
   */
  lemma UpdateWithoutZonesKeepsZones(r: Restaurant, req: RestaurantUpdate)
    requires req.zones.None? && (req.status.Some? ==> ParseRestaurantStatus(req.status.value).Some?)
    ensures UpdatedRestaurant(r, req).zones == r.zones
    ensures UpdatedRestaurant(r, req).name == req.name.GetOr(r.name)
    ensures UpdatedRestaurant(r, req).capacity == req.capacity.GetOr(r.capacity)
  {
  }

  /**
   * `update`: the access check runs first, so an unknown id is 403 for a
   * supervisor and 404 for an admin; then 422 on a failed validation, then
   * 403 when a supervisor sends a supervisor address; otherwise the
   * restaurant becomes `UpdatedRestaurant`, and a supervisor's restaurant
   * keeps its supervisor. The save is the corrected one: it does not depend
   * on zones being sent (see `ReachesSaveAsWritten`).
   */
  method Update(db: Database, actor: Actor, rid: nat, req: RestaurantUpdate) returns (code: Code)
    requires db.Valid()
    modifies db
    ensures db.Valid()
    ensures !CheckRestaurantAccess(actor, old(db.restaurants), rid) ==> code == Forbidden
    ensures CheckRestaurantAccess(actor, old(db.restaurants), rid) ==>
      code == (if rid !in old(db.restaurants) then NotFound
               else if !UpdateValid(old(db.restaurants), rid, req) then Unprocessable
               else if actor.role == Supervisor && req.supervisorEmail.Some? then Forbidden
               else Ok)
    ensures rid !in old(db.restaurants) ==> code == (if actor.role == Admin then NotFound else Forbidden)
    ensures code != Ok ==> unchanged(db)
    ensures code == Ok ==>
      && rid in old(db.restaurants) && UpdateValid(old(db.restaurants), rid, req)
      && db.restaurants == old(db.restaurants)[rid := UpdatedRestaurant(old(db.restaurants)[rid], req)]
    ensures code == Ok && actor.role != Admin ==> db.restaurants[rid].supervisorEmail == old(db.restaurants)[rid].supervisorEmail
    ensures unchanged(db`users, db`tables, db`reservations, db`nextRestaurantId)
  {
    if !CheckRestaurantAccess(actor, db.restaurants, rid) {
      return Forbidden;
    }
    if rid !in db.restaurants {
      return NotFound;
    }
    if !UpdateValid(db.restaurants, rid, req) {
      return Unprocessable;
    }
    if actor.role == Supervisor && req.supervisorEmail.Some? {
      return Forbidden;
    }
    db.restaurants := db.restaurants[rid := UpdatedRestaurant(db.restaurants[rid], req)];
    code := Ok;
  }

  /**
   * `destroy`: 403 for anybody but an admin, then 404 for an unknown id;
   * otherwise the restaurant is removed together with its tables (the
   * foreign key of `tables` cascades), and nothing else changes.
   */
  method Destroy(db: Database, actor: Actor, rid: nat) returns (code: Code)
    requires db.Valid()
    modifies db
    ensures db.Valid()
    ensures actor.role != Admin ==> code == Forbidden
    ensures actor.role == Admin ==> code == (if rid in old(db.restaurants) then Ok else NotFound)
    ensures code != Ok ==> unchanged(db)
    ensures code == Ok ==>
      && db.restaurants == old(db.restaurants) - {rid}
      && db.tables == map i | i in old(db.tables) && old(db.tables)[i].restaurantId != rid :: old(db.tables)[i]
    ensures unchanged(db`users, db`reservations, db`nextRestaurantId, db`nextTableId)
  {
    if actor.role != Admin {
      return Forbidden;
    }
    if rid !in db.restaurants {
      return NotFound;
    }
    db.tables := map i | i in db.tables && db.tables[i].restaurantId != rid :: db.tables[i];
    db.restaurants := db.restaurants - {rid};
    code := Ok;
  }
}
