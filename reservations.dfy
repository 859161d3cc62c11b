/**
 * The reservation endpoints (app/Http/Controllers/ReservationController.php):
 * the access rule between an actor and a reservation, the all-or-nothing
 * availability check of a booking, the reservation of its tables, their
 * release on cancellation and deletion, the confirm/seat restriction and the
 * role-filtered listings. The clock is the parameter `now`.
 */
module ReservationManagement {
  import opened Wrappers
  import opened Domain
  import opened Persistence
  import RestaurantManagement

  /**
   * `checkReservationAccess`: an admin always; a supervisor when the
   * reservation's restaurant exists and its supervisor address is exactly the
   * actor's; a customer when the reservation is its own.
   */
  predicate CheckReservationAccess(actor: Actor, restaurants: map<nat, Restaurant>, r: Reservation)
  {
    match actor.role
    case Admin => true
    case Supervisor => r.restaurantId in restaurants && restaurants[r.restaurantId].supervisorEmail == actor.email
    case Customer => actor.id == r.userId
  }

  /**
   * For staff, access to a reservation is access to its restaurant as the
   * restaurant endpoints decide it.
   */
  lemma StaffAccessIsRestaurantAccess(actor: Actor, restaurants: map<nat, Restaurant>, r: Reservation)
    requires actor.role != Customer
    ensures CheckReservationAccess(actor, restaurants, r) <==> RestaurantManagement.CheckRestaurantAccess(actor, restaurants, r.restaurantId)
  {
  }

  /** The listing query of a customer, and of `getUserReservations`: the actor's own reservations. */
  function OwnReservations(reservations: map<nat, Reservation>, userId: nat): map<nat, Reservation>
  {
    map i | i in reservations && reservations[i].userId == userId :: reservations[i]
  }

  /** The supervisor query of `index`: restaurants whose supervisor address is exactly the actor's. */
  function ManagedBy(actor: Actor): Restaurant -> bool
  {
    (r: Restaurant) => r.supervisorEmail == actor.email
  }

  /**
   * `index`: every reservation for an admin and the customer's own for a
   * customer, which is exactly what the customer may access; for a supervisor
   * 404 when no restaurant has its address, otherwise the reservations of the
   * first such restaurant. Every listed reservation is one the actor may access.
   */
  method Index(db: Database, actor: Actor) returns (code: Code, data: map<nat, Reservation>, owner: Option<nat>)
    ensures actor.role == Admin ==> code == Ok && data == db.reservations
    ensures actor.role == Customer ==> code == Ok && data == OwnReservations(db.reservations, actor.id)
    ensures actor.role == Customer ==>
      data.Keys == set i | i in db.reservations && CheckReservationAccess(actor, db.restaurants, db.reservations[i])
    ensures actor.role == Supervisor ==>
      (code == NotFound <==> forall i :: i in db.restaurants ==> db.restaurants[i].supervisorEmail != actor.email)
    ensures code == NotFound ==> data == map[]
    ensures actor.role == Supervisor && code != NotFound ==>
      && code == Ok && owner.Some? && owner.value in db.restaurants
      && db.restaurants[owner.value].supervisorEmail == actor.email
      && (forall i :: i in db.restaurants && db.restaurants[i].supervisorEmail == actor.email ==> owner.value <= i)
      && data == ReservationsOf(db.reservations, owner.value)
    ensures code == Ok ==> forall i :: i in data ==> i in db.reservations && data[i] == db.reservations[i]
    ensures code == Ok ==> forall i :: i in data ==> CheckReservationAccess(actor, db.restaurants, data[i])
  {
    owner := None;
    if actor.role == Admin {
      return Ok, db.reservations, None;
    }
    if actor.role == Supervisor {
      owner := FirstRestaurant(db.restaurants, ManagedBy(actor));
      if owner.None? {
        return NotFound, map[], None;
      }
      return Ok, ReservationsOf(db.reservations, owner.value), owner;
    }
    code, data := Ok, OwnReservations(db.reservations, actor.id);
  }

  /**
   * A supervisor's listing stops at its first restaurant: with two
   * restaurants under the same address, a reservation of the second is
   * accessible but not listed.
   */
  lemma SupervisorListingIsPartial()
    ensures
      var rs := map[1 := Restaurant("A", "A", "", 10, "a@x", "s@x", "", "", [], Active),
                    2 := Restaurant("B", "B", "", 10, "b@x", "s@x", "", "", [], Active)];
      var booking := Reservation(9, 2, ["T1"], 100, Pending);
      var actor := Actor(5, "s@x", Supervisor);
      && CheckReservationAccess(actor, rs, booking)
      && 3 !in ReservationsOf(map[3 := booking], 1)
      && (forall i :: i in rs && ManagedBy(actor)(rs[i]) ==> 1 <= i)
  {
  }

  /** Table `name` of restaurant `rid` exists and is `available`: the query at lines 104-107. */
  predicate IsAvailable(tables: map<nat, Table>, rid: nat, name: string)
  {
    exists i :: i in tables && tables[i].restaurantId == rid && tables[i].name == name && tables[i].status == Available
  }

  /** Every requested table passes `IsAvailable`. */
  predicate AllAvailable(tables: map<nat, Table>, rid: nat, names: seq<string>)
  {
    forall k :: 0 <= k < |names| ==> IsAvailable(tables, rid, names[k])
  }

  /**
   * The availability loop of `store`: the position of the first requested
   * table that is not available, or None when every one is.
   */
  method FindUnavailable(tables: map<nat, Table>, rid: nat, names: seq<string>) returns (bad: Option<nat>)
    ensures bad.None? <==> AllAvailable(tables, rid, names)
    ensures bad.Some? ==> bad.value < |names| && !IsAvailable(tables, rid, names[bad.value])
    ensures bad.Some? ==> forall k :: 0 <= k < bad.value ==> IsAvailable(tables, rid, names[k])
  {
    var k := 0;
    while k < |names|
      invariant 0 <= k <= |names|
      invariant forall j :: 0 <= j < k ==> IsAvailable(tables, rid, names[j])
    {
      if !IsAvailable(tables, rid, names[k]) {
        return Some(k);
      }
      k := k + 1;
    }
    return None;
  }

  /**
   * `Table::whereIn('table_number', names)->where('restaurant_id', rid)
   * ->update(['table_status' => st])`: only the status of the matching tables
   * changes, they all end in `st`, and no table appears or disappears.
   */
  function SetTableStatus(tables: map<nat, Table>, rid: nat, names: seq<string>, st: TableStatus): (r: map<nat, Table>)
    ensures r.Keys == tables.Keys
    ensures forall i :: i in r ==> r[i].(status := tables[i].status) == tables[i]
    ensures forall i :: i in r && r[i] != tables[i] ==> tables[i].restaurantId == rid && tables[i].name in names
    ensures forall i :: i in r && tables[i].restaurantId == rid && tables[i].name in names ==> r[i].status == st
  {
    map i | i in tables :: if tables[i].restaurantId == rid && tables[i].name in names then tables[i].(status := st) else tables[i]
  }

  /** A bulk status update keeps every table invariant of the database. */
  lemma SetTableStatusKeepsInvariants(tables: map<nat, Table>, restaurants: map<nat, Restaurant>,
                                      rid: nat, names: seq<string>, st: TableStatus)
    requires UniqueTableNames(tables) && TablesBelong(tables, restaurants)
    requires forall i :: i in tables ==> tables[i].capacity >= 1
    ensures var r := SetTableStatus(tables, rid, names, st);
      && UniqueTableNames(r) && TablesBelong(r, restaurants)
      && (forall i :: i in r ==> r[i].capacity >= 1)
  {
  }

  /** Table `name` of restaurant `rid` exists with status `st`. */
  predicate HeldIn(tables: map<nat, Table>, rid: nat, name: string, st: TableStatus)
  {
    exists i :: i in tables && tables[i].restaurantId == rid && tables[i].name == name && tables[i].status == st
  }

  /**
   * When every requested table was available, after the update each of them
   * exists in restaurant `rid` with status `st`: a successful booking holds
   * all the tables it names.
   */
  lemma ListedTablesTakeStatus(tables: map<nat, Table>, rid: nat, names: seq<string>, st: TableStatus)
    requires AllAvailable(tables, rid, names)
    ensures forall k :: 0 <= k < |names| ==> HeldIn(SetTableStatus(tables, rid, names, st), rid, names[k], st)
  {
  }

  /** The body of a `store` request; `formatOk` stands for the `date` rule. */
  datatype NewReservation = NewReservation(
    userId: Option<nat>,
    restaurantId: nat,
    tables: seq<string>,
    datetime: int,
    status: Option<string>,
    formatOk: bool)

  /**
   * The validation of `store`: an existing restaurant, a non-empty table
   * list (`required|array`), an instant after `now`, and a status among the five.
   */
  predicate StoreValid(restaurants: map<nat, Restaurant>, req: NewReservation, now: int)
  {
    && req.formatOk
    && req.restaurantId in restaurants
    && |req.tables| > 0
    && req.datetime > now
    && (req.status.Some? ==> ParseReservationStatus(req.status.value).Some?)
  }

  /** The restaurant exists and its supervisor address is exactly the actor's. */
  predicate OwnsRestaurant(actor: Actor, restaurants: map<nat, Restaurant>, rid: nat)
  {
    rid in restaurants && restaurants[rid].supervisorEmail == actor.email
  }

  /** `$request->user_id ?? auth()->id()`: the owner of the new reservation. */
  function BookedFor(actor: Actor, req: NewReservation): nat
  {
    req.userId.GetOr(actor.id)
  }

  /** The row `Reservation::create` writes; the status defaults to `pending`. */
  function NewRow(actor: Actor, req: NewReservation): Reservation
    requires req.status.Some? ==> ParseReservationStatus(req.status.value).Some?
  {
    Reservation(BookedFor(actor, req), req.restaurantId, req.tables, req.datetime,
                if req.status.Some? then ParseReservationStatus(req.status.value).value else Pending)
  }

  /**
   * `store`, in the source's order: 422 on a failed validation; 403 for a
   * supervisor booking another's restaurant; 422 naming the first requested
   * table that is not available, before anything is written; 403 for a
   * customer booking for somebody else; otherwise 201, exactly one new
   * reservation, and the requested tables of that restaurant become
   * `reserved`. Every refusal leaves the database unchanged.
   */
  method Store(db: Database, actor: Actor, req: NewReservation, now: int) returns (code: Code, id: nat, unavailable: Option<nat>)
    requires db.Valid()
    modifies db
    ensures db.Valid()
    ensures code ==
      if !StoreValid(old(db.restaurants), req, now) then Unprocessable
      else if actor.role == Supervisor && !OwnsRestaurant(actor, old(db.restaurants), req.restaurantId) then Forbidden
      else if !AllAvailable(old(db.tables), req.restaurantId, req.tables) then Unprocessable
      else if actor.role == Customer && BookedFor(actor, req) != actor.id then Forbidden
      else Created
    ensures unavailable.Some? <==>
      && StoreValid(old(db.restaurants), req, now)
      && (actor.role == Supervisor ==> OwnsRestaurant(actor, old(db.restaurants), req.restaurantId))
      && !AllAvailable(old(db.tables), req.restaurantId, req.tables)
    ensures unavailable.Some? ==>
      && unavailable.value < |req.tables|
      && !IsAvailable(old(db.tables), req.restaurantId, req.tables[unavailable.value])
      && forall k :: 0 <= k < unavailable.value ==> IsAvailable(old(db.tables), req.restaurantId, req.tables[k])
    ensures code != Created ==> unchanged(db)
    ensures code == Created ==>
      && StoreValid(old(db.restaurants), req, now)
      && id == old(db.nextReservationId) && id !in old(db.reservations)
      && db.reservations == old(db.reservations)[id := NewRow(actor, req)]
      && db.tables == SetTableStatus(old(db.tables), req.restaurantId, req.tables, Reserved)
    ensures unchanged(db`users, db`restaurants)
  {
    id, unavailable := 0, None;
    if !StoreValid(db.restaurants, req, now) {
      return Unprocessable, 0, None;
    }
    if actor.role == Supervisor && !OwnsRestaurant(actor, db.restaurants, req.restaurantId) {
      return Forbidden, 0, None;
    }
    unavailable := FindUnavailable(db.tables, req.restaurantId, req.tables);
    if unavailable.Some? {
      return Unprocessable, 0, unavailable;
    }
    if actor.role == Customer && BookedFor(actor, req) != actor.id {
      return Forbidden, 0, None;
    }
    id := db.nextReservationId;
    db.reservations := db.reservations[id := NewRow(actor, req)];
    db.nextReservationId := id + 1;
    SetTableStatusKeepsInvariants(db.tables, db.restaurants, req.restaurantId, req.tables, Reserved);
    db.tables := SetTableStatus(db.tables, req.restaurantId, req.tables, Reserved);
    code := Created;
  }

  /** `show`: 404 for an unknown reservation, 403 without access, otherwise the reservation. */
  method Show(db: Database, actor: Actor, id: nat) returns (code: Code, reservation: Option<Reservation>)
    ensures id !in db.reservations ==> code == NotFound
    ensures id in db.reservations ==>
      code == (if CheckReservationAccess(actor, db.restaurants, db.reservations[id]) then Ok else Forbidden)
    ensures reservation.Some? <==> code == Ok
    ensures code == Ok ==> reservation == Some(db.reservations[id])
  {
    if id !in db.reservations {
      return NotFound, None;
    }
    if !CheckReservationAccess(actor, db.restaurants, db.reservations[id]) {
      return Forbidden, None;
    }
    return Ok, Some(db.reservations[id]);
  }

  /**
   * The body of an `update` request: `$request->all()` is mass-assigned, so
   * every fillable column may be sent, owner and restaurant included.
   */
  datatype ReservationUpdate = ReservationUpdate(
    userId: Option<nat>,
    restaurantId: Option<nat>,
    tables: Option<seq<string>>,
    datetime: Option<int>,
    status: Option<string>,
    formatOk: bool)

  /** The validation of `update`: an instant after `now` and a status among the five, when sent. */
  predicate UpdateValid(req: ReservationUpdate, now: int)
  {
    && req.formatOk
    && (req.datetime.Some? ==> req.datetime.value > now)
    && (req.status.Some? ==> ParseReservationStatus(req.status.value).Some?)
  }

  /** The request sets the status to `confirmed` or `seated`. */
  predicate ConfirmsOrSeats(req: ReservationUpdate)
  {
    req.status == Some("confirmed") || req.status == Some("seated")
  }

  /** The row after `$reservation->update($request->all())`. */
  function UpdatedReservation(r: Reservation, req: ReservationUpdate): (u: Reservation)
    requires req.status.Some? ==> ParseReservationStatus(req.status.value).Some?
    ensures req.status.None? ==> u.status == r.status
    ensures req.status.Some? ==> ReservationStatusName(u.status) == req.status.value
  {
    Reservation(
      req.userId.GetOr(r.userId),
      req.restaurantId.GetOr(r.restaurantId),
      req.tables.GetOr(r.tables),
      req.datetime.GetOr(r.datetime),
      if req.status.Some? then ParseReservationStatus(req.status.value).value else r.status)
  }

  /**
   * `update`: 404 for an unknown reservation, 403 without access, 422 on a
   * failed validation, 403 when a customer confirms or seats; otherwise a
   * cancellation first releases the reservation's current tables in its
   * current restaurant, and the sent columns replace the stored ones.
   */
  method Update(db: Database, actor: Actor, id: nat, req: ReservationUpdate, now: int) returns (code: Code)
    requires db.Valid()
    modifies db
    ensures db.Valid()
    ensures id !in old(db.reservations) ==> code == NotFound
    ensures id in old(db.reservations) ==>
      code == (if !CheckReservationAccess(actor, old(db.restaurants), old(db.reservations)[id]) then Forbidden
               else if !UpdateValid(req, now) then Unprocessable
               else if actor.role == Customer && ConfirmsOrSeats(req) then Forbidden
               else Ok)
    ensures actor.role == Customer && ConfirmsOrSeats(req) ==> code != Ok
    ensures code != Ok ==> unchanged(db)
    ensures code == Ok ==>
      && id in old(db.reservations) && UpdateValid(req, now)
      && var r := old(db.reservations)[id];
         && db.reservations == old(db.reservations)[id := UpdatedReservation(r, req)]
         && db.tables == (if req.status == Some("canceled") then SetTableStatus(old(db.tables), r.restaurantId, r.tables, Available)
                          else old(db.tables))
    ensures unchanged(db`users, db`restaurants, db`nextReservationId)
  {
    if id !in db.reservations {
      return NotFound;
    }
    var r := db.reservations[id];
    if !CheckReservationAccess(actor, db.restaurants, r) {
      return Forbidden;
    }
    if !UpdateValid(req, now) {
      return Unprocessable;
    }
    if actor.role == Customer && ConfirmsOrSeats(req) {
      return Forbidden;
    }
    if req.status == Some("canceled") {
      SetTableStatusKeepsInvariants(db.tables, db.restaurants, r.restaurantId, r.tables, Available);
      db.tables := SetTableStatus(db.tables, r.restaurantId, r.tables, Available);
    }
    db.reservations := db.reservations[id := UpdatedReservation(r, req)];
    code := Ok;
  }

  /**
   * `destroy`: 404 for an unknown reservation, 403 without access; otherwise
   * its tables in its restaurant go back to `available` and exactly that
   * reservation is removed.
   */
  method Destroy(db: Database, actor: Actor, id: nat) returns (code: Code)
    requires db.Valid()
    modifies db
    ensures db.Valid()
    ensures id !in old(db.reservations) ==> code == NotFound
    ensures id in old(db.reservations) ==>
      code == (if CheckReservationAccess(actor, old(db.restaurants), old(db.reservations)[id]) then Ok else Forbidden)
    ensures code != Ok ==> unchanged(db)
    ensures code == Ok ==>
      && id in old(db.reservations)
      && var r := old(db.reservations)[id];
         && db.reservations == old(db.reservations) - {id}
         && db.tables == SetTableStatus(old(db.tables), r.restaurantId, r.tables, Available)
    ensures unchanged(db`users, db`restaurants, db`nextReservationId)
  {
    if id !in db.reservations {
      return NotFound;
    }
    var r := db.reservations[id];
    if !CheckReservationAccess(actor, db.restaurants, r) {
      return Forbidden;
    }
    SetTableStatusKeepsInvariants(db.tables, db.restaurants, r.restaurantId, r.tables, Available);
    db.tables := SetTableStatus(db.tables, r.restaurantId, r.tables, Available);
    db.reservations := db.reservations - {id};
    code := Ok;
  }

  /**
   * `getReservationsByRestaurant`: 404 for an unknown restaurant; then 403
   * unless the actor may access the restaurant as the restaurant endpoints
   * decide it (an admin, or its supervisor by exact address); otherwise
   * exactly the reservations of that restaurant.
   */
  method GetReservationsByRestaurant(db: Database, actor: Actor, rid: nat) returns (code: Code, data: map<nat, Reservation>)
    ensures rid !in db.restaurants ==> code == NotFound
    ensures rid in db.restaurants ==>
      code == (if RestaurantManagement.CheckRestaurantAccess(actor, db.restaurants, rid) then Ok else Forbidden)
    ensures code != Ok ==> data == map[]
    ensures code == Ok ==> data == ReservationsOf(db.reservations, rid)
    ensures code == Ok ==> forall i :: i in data ==> CheckReservationAccess(actor, db.restaurants, data[i])
  {
    if rid !in db.restaurants {
      return NotFound, map[];
    }
    if actor.role != Admin && (actor.role != Supervisor || db.restaurants[rid].supervisorEmail != actor.email) {
      return Forbidden, map[];
    }
    return Ok, ReservationsOf(db.reservations, rid);
  }

  /** `getUserReservations`: the actor's own reservations, whatever its role. */
  method GetUserReservations(db: Database, actor: Actor) returns (code: Code, data: map<nat, Reservation>)
    ensures code == Ok
    ensures forall i :: i in data <==> i in db.reservations && db.reservations[i].userId == actor.id
    ensures forall i :: i in data ==> data[i] == db.reservations[i]
  {
    return Ok, OwnReservations(db.reservations, actor.id);
  }

  /**
   * Own reservations are not always accessible: a supervisor lists its own
   * booking at another restaurant, which `show` refuses it.
   */
  lemma OwnReservationNotAlwaysShown()
    ensures
      var rs := map[1 := Restaurant("A", "A", "", 10, "a@x", "boss@x", "", "", [], Active)];
      var booking := Reservation(5, 1, ["T1"], 100, Pending);
      var actor := Actor(5, "s@x", Supervisor);
      && 3 in OwnReservations(map[3 := booking], actor.id)
      && !CheckReservationAccess(actor, rs, booking)
  {
  }
}
