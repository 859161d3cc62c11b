/** The Option type used for nullable columns and optional request fields. */
module Wrappers {
  datatype Option<+T> = None | Some(value: T) {
    function GetOr(default: T): T
    {
      match this
      case Some(v) => v
      case None => default
    }
  }
}

/**
 * The entities of the reservation backend: the three roles, the
 * authenticated actor, users, restaurants, tables and reservations (the
 * columns the controllers read and write), the enumerations the validators
 * accept, and the HTTP status codes the controllers answer with.
 */
module Domain {
  import opened Wrappers

  datatype Role = Admin | Supervisor | Customer

  /** The string stored in `user_role`. */
  function RoleName(r: Role): string
  {
    match r
    case Admin => "admin"
    case Supervisor => "supervisor"
    case Customer => "customer"
  }

  /** The validator rule `in:admin,supervisor,customer`. */
  function ParseRole(s: string): (r: Option<Role>)
    ensures r.Some? <==> s in {"admin", "supervisor", "customer"}
    ensures r.Some? ==> RoleName(r.value) == s
  {
    if s == "admin" then Some(Admin)
    else if s == "supervisor" then Some(Supervisor)
    else if s == "customer" then Some(Customer)
    else None
  }

  /** The authenticated user as the controllers see it through `auth()->user()`. */
  datatype Actor = Actor(id: nat, email: string, role: Role)

  /** The status codes the core answers with: 200, 201, 401, 403, 404 and 422. */
  datatype Code = Ok | Created | Unauthenticated | Forbidden | NotFound | Unprocessable

  datatype UserStatus = ActiveUser | InactiveUser

  /**
   * A row of `users`. `createdBy` is `user_created_by`: the e-mail address of
   * the admin or supervisor who registered the account, or null.
   */
  datatype User = User(name: string, email: string, role: Role, createdBy: Option<string>, status: UserStatus)

  datatype TableStatus = Available | Reserved | Occupied | Maintenance

  /** The validator rule `in:available,reserved,occupied,maintenance`. */
  function ParseTableStatus(s: string): (r: Option<TableStatus>)
    ensures r.Some? <==> s in {"available", "reserved", "occupied", "maintenance"}
    ensures r.Some? ==> TableStatusName(r.value) == s
  {
    if s == "available" then Some(Available)
    else if s == "reserved" then Some(Reserved)
    else if s == "occupied" then Some(Occupied)
    else if s == "maintenance" then Some(Maintenance)
    else None
  }

  /** The column value of a table status. */
  function TableStatusName(s: TableStatus): string
  {
    match s
    case Available => "available"
    case Reserved => "reserved"
    case Occupied => "occupied"
    case Maintenance => "maintenance"
  }

  /**
   * A row of `tables`. `name` is the one key by which tables are named, both
   * by the table endpoints (`table_name`) and by reservations (`table_number`).
   */
  datatype Table = Table(restaurantId: nat, name: string, capacity: int, zone: string, status: TableStatus)

  datatype RestaurantStatus = Active | Inactive | TablesAvailable | FullyBooked

  /** The validator rule `in:active,inactive,tables available,fully booked`. */
  function ParseRestaurantStatus(s: string): (r: Option<RestaurantStatus>)
    ensures r.Some? <==> s in {"active", "inactive", "tables available", "fully booked"}
    ensures r.Some? ==> RestaurantStatusName(r.value) == s
  {
    if s == "active" then Some(Active)
    else if s == "inactive" then Some(Inactive)
    else if s == "tables available" then Some(TablesAvailable)
    else if s == "fully booked" then Some(FullyBooked)
    else None
  }

  /** The column value of a restaurant status. */
  function RestaurantStatusName(s: RestaurantStatus): string
  {
    match s
    case Active => "active"
    case Inactive => "inactive"
    case TablesAvailable => "tables available"
    case FullyBooked => "fully booked"
  }

  /** A row of `restaurants`; `zones` is the decoded `restaurant_zones` list. */
  datatype Restaurant = Restaurant(
    name: string,
    businessName: string,
    foodType: string,
    capacity: int,
    businessEmail: string,
    supervisorEmail: string,
    phone: string,
    description: string,
    zones: seq<string>,
    status: RestaurantStatus)

  datatype ReservationStatus = Pending | Confirmed | Seated | Canceled | Closed

  /** The validator rule `in:pending,confirmed,seated,canceled,closed`. */
  function ParseReservationStatus(s: string): (r: Option<ReservationStatus>)
    ensures r.Some? <==> s in {"pending", "confirmed", "seated", "canceled", "closed"}
    ensures r.Some? ==> ReservationStatusName(r.value) == s
  {
    if s == "pending" then Some(Pending)
    else if s == "confirmed" then Some(Confirmed)
    else if s == "seated" then Some(Seated)
    else if s == "canceled" then Some(Canceled)
    else if s == "closed" then Some(Closed)
    else None
  }

  /** The column value of a reservation status. */
  function ReservationStatusName(s: ReservationStatus): string
  {
    match s
    case Pending => "pending"
    case Confirmed => "confirmed"
    case Seated => "seated"
    case Canceled => "canceled"
    case Closed => "closed"
  }

  /**
   * A row of `reservations`: owner, restaurant, the names of the tables it
   * holds, the booked instant (an integer clock) and the status.
   */
  datatype Reservation = Reservation(userId: nat, restaurantId: nat, tables: seq<string>, datetime: int, status: ReservationStatus)
}
