/**
 * The table endpoints (app/Http/Controllers/TableController.php): the
 * restaurant-scoping rule (supervisor e-mails compared case-insensitively),
 * listing, creation and update with per-restaurant unique names, deletion,
 * and the per-restaurant listing.
 */
module TableManagement {
  import opened Wrappers
  import opened Domain
  import opened Strings
  import opened Persistence

  /**
   * `checkRestaurantAccess` of this controller: an admin always, a customer
   * never, a supervisor when the restaurant exists and its supervisor
   * address equals the actor's after lower-casing both.
   */
  predicate CheckRestaurantAccess(actor: Actor, restaurants: map<nat, Restaurant>, rid: nat)
  {
    match actor.role
    case Admin => true
    case Supervisor => rid in restaurants && EqualIgnoringCase(restaurants[rid].supervisorEmail, actor.email)
    case Customer => false
  }

  /** The restaurant rows `index` looks for: supervisor address equal to the actor's, ignoring case. */
  function SupervisedBy(actor: Actor): Restaurant -> bool
  {
    (r: Restaurant) => EqualIgnoringCase(r.supervisorEmail, actor.email)
  }

  /**
   * `index`: 403 for a customer, every table for an admin; for a supervisor
   * 404 when no restaurant has its address (ignoring case), otherwise the
   * tables of the first such restaurant, all of which it may access.
   */
  method Index(db: Database, actor: Actor) returns (code: Code, data: map<nat, Table>, owner: Option<nat>)
    ensures actor.role == Customer ==> code == Forbidden && data == map[]
    ensures actor.role == Admin ==> code == Ok && data == db.tables
    ensures actor.role == Supervisor ==>
      (code == NotFound <==> forall i :: i in db.restaurants ==> !EqualIgnoringCase(db.restaurants[i].supervisorEmail, actor.email))
    ensures actor.role == Supervisor && code == NotFound ==> data == map[]
    ensures actor.role == Supervisor && code != NotFound ==>
      && code == Ok && owner.Some? && owner.value in db.restaurants
      && EqualIgnoringCase(db.restaurants[owner.value].supervisorEmail, actor.email)
      && (forall i :: i in db.restaurants && EqualIgnoringCase(db.restaurants[i].supervisorEmail, actor.email) ==> owner.value <= i)
      && data == TablesOf(db.tables, owner.value)
    ensures code == Ok ==> forall i :: i in data ==> i in db.tables && data[i] == db.tables[i]
    ensures code == Ok ==> forall i :: i in data ==> CheckRestaurantAccess(actor, db.restaurants, data[i].restaurantId)
  {
    owner := None;
    if actor.role == Customer {
      return Forbidden, map[], None;
    }
    if actor.role == Supervisor {
      owner := FirstRestaurant(db.restaurants, SupervisedBy(actor));
      if owner.None? {
        return NotFound, map[], None;
      }
      data := TablesOf(db.tables, owner.value);
    } else {
      data := db.tables;
    }
    code := Ok;
  }

  /** The body of a `store` request; `formatOk` stands for the string and integer rules. */
  datatype NewTable = NewTable(restaurantId: nat, name: string, capacity: int, zone: string, status: Option<TableStatus>, formatOk: bool)

  /** The validation of `store`: an existing restaurant, a capacity of at least one. */
  predicate StoreValid(restaurants: map<nat, Restaurant>, req: NewTable)
  {
    req.formatOk && req.restaurantId in restaurants && req.capacity >= 1
  }

  /**
   * `store`: 403 without access to the restaurant, 422 on a failed
   * validation or when the restaurant already has a table of that name;
   * otherwise 201 and exactly one new table, every existing table untouched.
   */
  method Store(db: Database, actor: Actor, req: NewTable) returns (code: Code, id: nat)
    requires db.Valid()
    modifies db
    ensures db.Valid()
    ensures !CheckRestaurantAccess(actor, old(db.restaurants), req.restaurantId) ==> code == Forbidden
    ensures CheckRestaurantAccess(actor, old(db.restaurants), req.restaurantId) ==>
      code == (if !StoreValid(old(db.restaurants), req) then Unprocessable
               else if NameTaken(old(db.tables), req.restaurantId, req.name, None) then Unprocessable
               else Created)
    ensures code != Created ==> unchanged(db)
    ensures code == Created ==>
      && id !in old(db.tables)
      && db.tables == old(db.tables)[id := Table(req.restaurantId, req.name, req.capacity, req.zone, req.status.GetOr(Available))]
    ensures code == Created ==> forall i :: i in old(db.tables) ==> i in db.tables && db.tables[i] == old(db.tables)[i]
    ensures unchanged(db`users, db`restaurants, db`reservations)
  {
    id := 0;
    if !CheckRestaurantAccess(actor, db.restaurants, req.restaurantId) {
      return Forbidden, 0;
    }
    if !StoreValid(db.restaurants, req) {
      return Unprocessable, 0;
    }
    if NameTaken(db.tables, req.restaurantId, req.name, None) {
      return Unprocessable, 0;
    }
    id := db.nextTableId;
    db.tables := db.tables[id := Table(req.restaurantId, req.name, req.capacity, req.zone, req.status.GetOr(Available))];
    db.nextTableId := id + 1;
    code := Created;
  }

  /** `show`: 404 for an unknown table, 403 without access to its restaurant, else the table. */
  method Show(db: Database, actor: Actor, id: nat) returns (code: Code, table: Option<Table>)
    ensures id !in db.tables ==> code == NotFound && table.None?
    ensures id in db.tables ==>
      if CheckRestaurantAccess(actor, db.restaurants, db.tables[id].restaurantId)
      then code == Ok && table == Some(db.tables[id])
      else code == Forbidden && table.None?
  {
    if id !in db.tables {
      return NotFound, None;
    }
    if !CheckRestaurantAccess(actor, db.restaurants, db.tables[id].restaurantId) {
      return Forbidden, None;
    }
    return Ok, Some(db.tables[id]);
  }

  /** The body of an `update` request: every field optional. */
  datatype TableUpdate = TableUpdate(
    restaurantId: Option<nat>,
    name: Option<string>,
    capacity: Option<int>,
    zone: Option<string>,
    status: Option<string>,
    formatOk: bool)

  /**
   * The validation of `update`: an existing restaurant, a capacity of at
   * least one, and a status among the four, for whichever of them are sent.
   */
  predicate UpdateValid(restaurants: map<nat, Restaurant>, req: TableUpdate)
  {
    && req.formatOk
    && (req.restaurantId.Some? ==> req.restaurantId.value in restaurants)
    && (req.capacity.Some? ==> req.capacity.value >= 1)
    && (req.status.Some? ==> ParseTableStatus(req.status.value).Some?)
  }

  /**
   * The table after `$table->update($request->all())`: a request that sends
   * nothing leaves the row as it was, a stored capacity of at least one stays
   * so under a valid request, and a sent status is stored under its own name.
   */
  function UpdatedTable(t: Table, req: TableUpdate): (r: Table)
    requires req.status.Some? ==> ParseTableStatus(req.status.value).Some?
    ensures req.restaurantId.None? && req.name.None? && req.capacity.None? && req.zone.None? && req.status.None? ==> r == t
    ensures t.capacity >= 1 && (req.capacity.Some? ==> req.capacity.value >= 1) ==> r.capacity >= 1
    ensures req.status.Some? ==> TableStatusName(r.status) == req.status.value
    ensures req.status.None? ==> r.status == t.status
  {
    Table(
      req.restaurantId.GetOr(t.restaurantId),
      req.name.GetOr(t.name),
      req.capacity.GetOr(t.capacity),
      req.zone.GetOr(t.zone),
      if req.status.Some? then ParseTableStatus(req.status.value).value else t.status)
  }

  /**
   * The condition under which the source's `update` looks for a clashing
   * name: only when a name is sent and it, or a sent restaurant, differs
   * from the stored one. A move to another restaurant without a name skips
   * the look-up.
   */
  predicate ChecksNameAsWritten(t: Table, req: TableUpdate)
  {
    req.name.Some? && (req.name.value != t.name || (req.restaurantId.Some? && req.restaurantId.value != t.restaurantId))
  }

  /**
   * With the source's condition, moving a table into a restaurant that already
   * has a table of the same name passes the check and leaves two tables with
   * one `(restaurant_id, table_name)` pair.
   */
  lemma AsWrittenMoveDuplicatesName()
    ensures
      var restaurants := map[1 := Restaurant("A", "A", "", 10, "a@x", "s@x", "", "", [], Active),
                             2 := Restaurant("B", "B", "", 10, "b@x", "s@x", "", "", [], Active)];
      var tables := map[1 := Table(1, "T1", 4, "main room", Available), 2 := Table(2, "T1", 4, "main room", Available)];
      var req := TableUpdate(Some(2), None, None, None, None, true);
      && UniqueTableNames(tables)
      && UpdateValid(restaurants, req)
      && !ChecksNameAsWritten(tables[1], req)
      && !UniqueTableNames(tables[1 := UpdatedTable(tables[1], req)])
  {
    var tables := map[1 := Table(1, "T1", 4, "main room", Available), 2 := Table(2, "T1", 4, "main room", Available)];
    var req := TableUpdate(Some(2), None, None, None, None, true);
    var after := tables[1 := UpdatedTable(tables[1], req)];
    assert after[1].restaurantId == after[2].restaurantId && after[1].name == after[2].name;
  }

  /** Corrected condition: look for a clash whenever the table's restaurant or name would change. */
  predicate ChecksName(t: Table, req: TableUpdate)
  {
    req.restaurantId.GetOr(t.restaurantId) != t.restaurantId || req.name.GetOr(t.name) != t.name
  }

  /**
   * The name look-up of `update` with the corrected condition: it refuses
   * exactly the updates that would give the table the restaurant and name of
   * another table, so keeping its own name always passes.
   */
  predicate NameClash(tables: map<nat, Table>, id: nat, req: TableUpdate)
    requires id in tables
  {
    var t := tables[id];
    ChecksName(t, req) && NameTaken(tables, req.restaurantId.GetOr(t.restaurantId), req.name.GetOr(t.name), Some(id))
  }

  /** An update that keeps the table's own restaurant and name never meets a clash. */
  lemma KeepingOwnNamePasses(tables: map<nat, Table>, id: nat, req: TableUpdate)
    requires id in tables
    requires req.name.GetOr(tables[id].name) == tables[id].name
    requires req.restaurantId.GetOr(tables[id].restaurantId) == tables[id].restaurantId
    ensures !NameClash(tables, id, req)
  {
  }

  /**
   * Giving a table the restaurant and name of another table is a clash
   * (answered with 422), whether or not the request spells the name out.
   */
  lemma TakingAnotherNameClashes(tables: map<nat, Table>, id: nat, other: nat, req: TableUpdate)
    requires id in tables && other in tables && other != id && UniqueTableNames(tables)
    requires req.restaurantId.GetOr(tables[id].restaurantId) == tables[other].restaurantId
    requires req.name.GetOr(tables[id].name) == tables[other].name
    ensures NameClash(tables, id, req)
  {
    assert tables[id].restaurantId != tables[other].restaurantId || tables[id].name != tables[other].name;
    assert Some(other) != Some(id);
  }

  /** The corrected update keeps every `(restaurant_id, table_name)` pair unique. */
  lemma UpdateKeepsNamesUnique(tables: map<nat, Table>, id: nat, req: TableUpdate)
    requires id in tables && UniqueTableNames(tables)
    requires req.status.Some? ==> ParseTableStatus(req.status.value).Some?
    requires !NameClash(tables, id, req)
    ensures UniqueTableNames(tables[id := UpdatedTable(tables[id], req)])
  {
  }

  /**
   * `update`: 404 for an unknown table, 403 without access to the table's
   * current restaurant, 422 on a failed validation or a name clash in the
   * target restaurant; otherwise the table becomes `UpdatedTable` and every
   * other table is untouched.
   */
  method Update(db: Database, actor: Actor, id: nat, req: TableUpdate) returns (code: Code)
    requires db.Valid()
    modifies db
    ensures db.Valid()
    ensures id !in old(db.tables) ==> code == NotFound
    ensures id in old(db.tables) ==>
      code == (if !CheckRestaurantAccess(actor, old(db.restaurants), old(db.tables)[id].restaurantId) then Forbidden
               else if !UpdateValid(old(db.restaurants), req) then Unprocessable
               else if NameClash(old(db.tables), id, req) then Unprocessable
               else Ok)
    ensures code != Ok ==> unchanged(db)
    ensures code == Ok ==>
      id in old(db.tables) && UpdateValid(old(db.restaurants), req) &&
      db.tables == old(db.tables)[id := UpdatedTable(old(db.tables)[id], req)]
    ensures unchanged(db`users, db`restaurants, db`reservations, db`nextTableId)
  {
    if id !in db.tables {
      return NotFound;
    }
    var t := db.tables[id];
    if !CheckRestaurantAccess(actor, db.restaurants, t.restaurantId) {
      return Forbidden;
    }
    if !UpdateValid(db.restaurants, req) {
      return Unprocessable;
    }
    if NameClash(db.tables, id, req) {
      return Unprocessable;
    }
    UpdateKeepsNamesUnique(db.tables, id, req);
    db.tables := db.tables[id := UpdatedTable(t, req)];
    code := Ok;
  }

  /** `destroy`: 404 for an unknown table, 403 without access; otherwise exactly that table is removed. */
  method Destroy(db: Database, actor: Actor, id: nat) returns (code: Code)
    requires db.Valid()
    modifies db
    ensures db.Valid()
    ensures id !in old(db.tables) ==> code == NotFound
    ensures id in old(db.tables) ==>
      code == (if CheckRestaurantAccess(actor, old(db.restaurants), old(db.tables)[id].restaurantId) then Ok else Forbidden)
    ensures code != Ok ==> unchanged(db)
    ensures code == Ok ==> db.tables == old(db.tables) - {id}
    ensures unchanged(db`users, db`restaurants, db`reservations, db`nextTableId)
  {
    if id !in db.tables {
      return NotFound;
    }
    if !CheckRestaurantAccess(actor, db.restaurants, db.tables[id].restaurantId) {
      return Forbidden;
    }
    db.tables := db.tables - {id};
    code := Ok;
  }

  /**
   * `getTablesByRestaurant`: 403 without access, 404 when the restaurant
   * has no table; otherwise exactly the tables of that restaurant.
   */
  method GetTablesByRestaurant(db: Database, actor: Actor, rid: nat) returns (code: Code, data: map<nat, Table>)
    ensures !CheckRestaurantAccess(actor, db.restaurants, rid) ==> code == Forbidden && data == map[]
    ensures CheckRestaurantAccess(actor, db.restaurants, rid) ==>
      (code == NotFound <==> forall i :: i in db.tables ==> db.tables[i].restaurantId != rid)
    ensures code == Ok ==> data.Keys == (set i | i in db.tables && db.tables[i].restaurantId == rid) && data != map[]
    ensures code == Ok ==> forall i :: i in data ==> data[i] == db.tables[i]
    ensures code != Ok ==> data == map[]
  {
    if !CheckRestaurantAccess(actor, db.restaurants, rid) {
      return Forbidden, map[];
    }
    data := TablesOf(db.tables, rid);
    if data == map[] {
      forall i | i in db.tables ensures db.tables[i].restaurantId != rid {
        assert i in data <==> db.tables[i].restaurantId == rid;
      }
      return NotFound, map[];
    }
    code := Ok;
  }
}
