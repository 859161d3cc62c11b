/**
 * The relational store the controllers work on, held in memory: one map per
 * database table, keyed by primary key, and one auto-increment counter per
 * table. `Valid()` collects the uniqueness and reference rules the
 * controllers' checks (and the schema's unique indexes) keep.
 */
module Persistence {
  import opened Wrappers
  import opened Domain

  /** `unique:users,user_email`: no two users share an address. */
  ghost predicate UniqueEmails(users: map<nat, User>)
  {
    forall i, j :: i in users && j in users && i != j ==> users[i].email != users[j].email
  }

  /** `unique:restaurants,restaurant_business_email`. */
  ghost predicate UniqueBusinessEmails(restaurants: map<nat, Restaurant>)
  {
    forall i, j :: i in restaurants && j in restaurants && i != j ==>
      restaurants[i].businessEmail != restaurants[j].businessEmail
  }

  /** The pair `(restaurant_id, table_name)` identifies at most one table. */
  ghost predicate UniqueTableNames(tables: map<nat, Table>)
  {
    forall i, j :: i in tables && j in tables && i != j ==>
      tables[i].restaurantId != tables[j].restaurantId || tables[i].name != tables[j].name
  }

  /** Every table belongs to an existing restaurant. */
  ghost predicate TablesBelong(tables: map<nat, Table>, restaurants: map<nat, Restaurant>)
  {
    forall i :: i in tables ==> tables[i].restaurantId in restaurants
  }

  /** Some user other than `except` already uses `email`. */
  predicate EmailTaken(users: map<nat, User>, email: string, except: Option<nat>)
  {
    exists i :: i in users && Some(i) != except && users[i].email == email
  }

  /** Some restaurant other than `except` already uses `email` as business address. */
  predicate BusinessEmailTaken(restaurants: map<nat, Restaurant>, email: string, except: Option<nat>)
  {
    exists i :: i in restaurants && Some(i) != except && restaurants[i].businessEmail == email
  }

  /** Some table other than `except` in restaurant `rid` is already called `name`. */
  predicate NameTaken(tables: map<nat, Table>, rid: nat, name: string, except: Option<nat>)
  {
    exists i :: i in tables && Some(i) != except && tables[i].restaurantId == rid && tables[i].name == name
  }

  /** `Table::where('restaurant_id', rid)->get()`. */
  function TablesOf(tables: map<nat, Table>, rid: nat): map<nat, Table>
  {
    map i | i in tables && tables[i].restaurantId == rid :: tables[i]
  }

  /** `Reservation::where('restaurant_id', rid)->get()`. */
  function ReservationsOf(reservations: map<nat, Reservation>, rid: nat): map<nat, Reservation>
  {
    map i | i in reservations && reservations[i].restaurantId == rid :: reservations[i]
  }

  /**
   * `Restaurant::where(...)->first()`: a restaurant id whose row satisfies
   * `p`, or None when no row does. The query has no order, so which row comes
   * first is the database's choice; the model fixes the smallest id.
   */
  method FirstRestaurant(restaurants: map<nat, Restaurant>, p: Restaurant -> bool) returns (r: Option<nat>)
    ensures r.None? <==> forall i :: i in restaurants ==> !p(restaurants[i])
    ensures r.Some? ==> r.value in restaurants && p(restaurants[r.value])
    ensures r.Some? ==> forall i :: i in restaurants && p(restaurants[i]) ==> r.value <= i
  {
    r := None;
    var todo := restaurants.Keys;
    while todo != {}
      invariant todo <= restaurants.Keys
      invariant r.None? ==> forall i :: i in restaurants.Keys - todo ==> !p(restaurants[i])
      invariant r.Some? ==> r.value in restaurants && p(restaurants[r.value])
      invariant r.Some? ==> forall i :: i in restaurants.Keys - todo && p(restaurants[i]) ==> r.value <= i
      decreases todo
    {
      var i :| i in todo;
      if p(restaurants[i]) && (r.None? || i < r.value) {
        r := Some(i);
      }
      todo := todo - {i};
    }
  }

  class Database {
    var users: map<nat, User>
    var restaurants: map<nat, Restaurant>
    var tables: map<nat, Table>
    var reservations: map<nat, Reservation>
    var nextUserId: nat
    var nextRestaurantId: nat
    var nextTableId: nat
    var nextReservationId: nat

    ghost predicate Valid()
      reads this
    {
      && (forall i :: i in users ==> i < nextUserId)
      && (forall i :: i in restaurants ==> i < nextRestaurantId)
      && (forall i :: i in tables ==> i < nextTableId)
      && (forall i :: i in reservations ==> i < nextReservationId)
      && UniqueEmails(users)
      && UniqueBusinessEmails(restaurants)
      && UniqueTableNames(tables)
      && TablesBelong(tables, restaurants)
      && (forall i :: i in restaurants ==> restaurants[i].capacity >= 1)
      && (forall i :: i in tables ==> tables[i].capacity >= 1)
    }

    /** An empty database. */
    constructor ()
      ensures Valid()
      ensures users == map[] && restaurants == map[] && tables == map[] && reservations == map[]
    {
      users, restaurants, tables, reservations := map[], map[], map[], map[];
      nextUserId, nextRestaurantId, nextTableId, nextReservationId := 1, 1, 1, 1;
    }
  }
}
