# Restaurant reservation backend: a verified model of its decision logic

This project models the core of a Laravel JSON API for restaurant
reservations (repository `daw_api_jwt`). The system has three roles: admin,
supervisor and customer. It authenticates users by JWT and
keeps four kinds of records (users, restaurants, tables,
reservations). Nearly all of its logic is the role-gated decision each
controller action takes before it touches the database. The model keeps
that logic and proves what it promises.

- `domain.dfy`: the entities (`Domain.User`, `Domain.Restaurant`,
  `Domain.Table`, `Domain.Reservation`), the three roles, the four status
  enumerations the validators accept, and the HTTP status codes.
- `persistence.dfy`: the database as a `class Database`. It has one map per
  table, keyed by primary key, plus one auto-increment counter per table.
  `Valid()` holds the rules the schema and the controllers keep: unique user
  e-mails, unique business e-mails, unique `(restaurant_id, table_name)`,
  tables that belong to an existing restaurant, and capacities of at least
  one. It also holds `FirstRestaurant`, the `->first()` query loop.
- `users.dfy`, `tables.dfy`, `restaurants.dfy`, `reservations.dfy`: one
  module per controller. An action that writes is a method that
  `modifies db`. An action that only reads is a method that changes nothing.
  Every action returns its status code. Every such method states what the
  code is, what the new state is, and that `Valid()` is kept. Every refusal
  (403, 404, 422) leaves the database unchanged.
- `check_role.dfy`: the role middleware. It answers 401 without a user.
  Otherwise it explodes its parameter on `:` and checks that the role is
  one of the pieces, answering 403 when it is not.
- `routes.dfy`: the route table. It records which middleware guards each
  action. It also proves which roles each route group admits, and what
  "route guard AND controller check" means for the actions whose own checks
  the guard overrides.
- `reservation_model.dfy`: the comma-separated table-id column of the
  reservation record, with its `explode`/`implode` helpers. `strings.dfy`
  holds the split/join pair and their round-trip lemmas, plus the ASCII
  lower-casing that the table endpoints compare e-mails with.

Modelling choices:

- The actor is a parameter: `Actor(id, email, role)`, or `Option<Actor>`
  where the source asks `auth()->check()`.
- The clock is an integer parameter `now`. The rule `after:now` becomes
  `datetime > now`.
- The validator rules that only check format are folded into one
  `formatOk` flag on each request: required, string, integer, email,
  date, `confirmed` and the JSON-zones callback. The rules that depend on
  data are modelled: `unique`, `exists`, `in:`, `min`, `max`, and
  `required` on an array.
- A failed validation is 422. A failed route-model binding is 404. A missing
  token is 401. These are the framework's defaults, and the feature tests
  expect them. The repository's own exception handler would turn every
  exception on `api/*` that is not an HTTP exception into 500, and the model
  does not follow it (see "## Left out").
- Tables are keyed by their name. The reservation endpoints query the
  column `table_number`, while the table endpoints and the schema use
  `table_name`. The model treats them as one key.
- E-mail comparison differs between controllers, and the model keeps the
  difference. The table endpoints compare ignoring ASCII case; the
  restaurant and reservation endpoints compare exactly in their access
  checks. The database look-ups by e-mail are modelled as exact equality
  too (see "## Left out").
  `RestaurantManagement.CaseDifferenceSplitsControllers` exhibits the gap.
- `user_created_by` holds the creator's e-mail address, as the code writes
  it. The feature tests expect a user id instead.

## Model

| member | source | states |
|---|---|---|
| UserManagement.NewAccount | app/Http/Controllers/Api/ApiController.php:63-99 | Only an admin creates an account with a role other than customer. From an unauthenticated caller or a supervisor, the request succeeds exactly when it asks for no role or for customer. An admin gets the requested role, defaulting to customer. A customer is always refused. `created_by` is the actor's address, or null without an actor. |
| UserManagement.Register | app/Http/Controllers/Api/ApiController.php:52-116 | 422 when the validation fails (a taken address or an unknown role name). 403 where `NewAccount` refuses, with nothing written. Otherwise exactly one new active account under a fresh id, and no other table touched. |
| UserManagement.GetUsers | app/Http/Controllers/Api/ApiController.php:187-222 | 403 and an empty list for a customer. Otherwise the listed ids are exactly the accounts the actor may manage under `checkUserAccess`: all of them for an admin, and those with `created_by` equal to the supervisor's address for a supervisor. Each entry is that account's summary. |
| UserManagement.UpdatedUser | app/Http/Controllers/Api/ApiController.php:311-324 | Name and address change only when sent. The role changes only when an admin sends one. `created_by` and the status never change. |
| UserManagement.Update | app/Http/Controllers/Api/ApiController.php:277-330 | 404 for an unknown account. 403 without access, and 403 when a supervisor sends a role other than customer. 422 on a failed validation (an address another account uses). Every refusal changes nothing. On success only that account changes, and it becomes `UpdatedUser`. |
| UserManagement.CustomerNeverDeletes | app/Http/Controllers/Api/ApiController.php:349-364 | A customer can delete no account. Access needs the target to be its own account, and deleting one's own account is refused. |
| UserManagement.Destroy | app/Http/Controllers/Api/ApiController.php:347-370 | 404 for an unknown account, 403 without access or for the actor's own account, and nothing is deleted then. Otherwise exactly that account is removed. |
| TableManagement.Index | app/Http/Controllers/TableController.php:60-91 | 403 for a customer and every table for an admin. A supervisor gets 404 exactly when no restaurant has its address ignoring case. Otherwise it gets the tables of the smallest-id such restaurant. Every listed table is one the actor may access. |
| TableManagement.Store | app/Http/Controllers/TableController.php:115-156 | 403 without access to the restaurant. 422 on a failed validation, and 422 when the restaurant already has a table of that name. Neither changes anything. Otherwise 201 and exactly one new table under a fresh id, with every existing table untouched and the name pairs still unique. |
| TableManagement.Show | app/Http/Controllers/TableController.php:178-191 | 404 for an unknown table, 403 without access to its restaurant, otherwise the table. |
| TableManagement.UpdatedTable | app/Http/Controllers/TableController.php:254 | A request that sends no field leaves the table as it was. A stored capacity of at least one stays at least one when any sent capacity is at least one. A sent status is stored under its own name, and without one the status stays. |
| TableManagement.AsWrittenMoveDuplicatesName | app/Http/Controllers/TableController.php:237-253 | With the source's condition, moving a table into a restaurant that already has a table of its name skips the name check. The result holds two tables with the same `(restaurant_id, table_name)`. |
| TableManagement.KeepingOwnNamePasses | app/Http/Controllers/TableController.php:237-243 | An update that keeps the table's restaurant and name never meets a clash: the look-up excludes the table itself. |
| TableManagement.TakingAnotherNameClashes | app/Http/Controllers/TableController.php:240-251 | Giving a table the restaurant and name of another table is a clash, answered with 422. |
| TableManagement.UpdateKeepsNamesUnique | app/Http/Controllers/TableController.php:237-254 | With the corrected name check, an update that passes it keeps every `(restaurant_id, table_name)` pair unique. |
| TableManagement.Update | app/Http/Controllers/TableController.php:219-262 | 404 for an unknown table. 403 without access to its current restaurant. 422 on a failed validation (unknown restaurant, capacity below one, status outside the four) or on a name clash. Every refusal changes nothing. Otherwise only that table changes, and it becomes `UpdatedTable`. `Valid()` is kept. |
| TableManagement.Destroy | app/Http/Controllers/TableController.php:276-290 | 404 for an unknown table, 403 without access, and the table stays then. Otherwise exactly that table is removed. |
| TableManagement.GetTablesByRestaurant | app/Http/Controllers/TableController.php:313-334 | 403 without access. With access, 404 exactly when no table belongs to the restaurant. Otherwise exactly that restaurant's tables. |
| RestaurantManagement.ExactAccessImpliesTableAccess | app/Http/Controllers/RestaurantController.php:18-34 | The restaurant endpoints' exact e-mail match never grants more than the table endpoints' match ignoring case. |
| RestaurantManagement.CaseDifferenceSplitsControllers | app/Http/Controllers/TableController.php:35 | A supervisor whose address differs from the restaurant's only in case may manage its tables but not the restaurant itself. |
| RestaurantManagement.Index | app/Http/Controllers/RestaurantController.php:53-60 | Every restaurant, for every actor. |
| RestaurantManagement.Store | app/Http/Controllers/RestaurantController.php:88-128 | 403 for anybody but an admin. 422 on a failed validation: lengths 255, 255, 100 and 20, capacity at least one, a business address no restaurant uses. Nothing changes then. Otherwise 201 and exactly one new restaurant, with status `active` by default. |
| RestaurantManagement.Show | app/Http/Controllers/RestaurantController.php:136-151 | 404 for an unknown id, otherwise the restaurant. |
| RestaurantManagement.UpdatedRestaurant | app/Http/Controllers/RestaurantController.php:206-210 | A request that sends no field leaves the restaurant as it was. Without a sent supervisor address the supervisor stays. A stored capacity of at least one stays at least one when any sent capacity is at least one. A sent status is stored under its own name, and without one the status stays. |
| RestaurantManagement.AsWrittenUpdateWithoutZonesFails | app/Http/Controllers/RestaurantController.php:206-207 | A valid admin update that sends no zones passes access and validation yet never reaches the save. |
| RestaurantManagement.UpdateWithoutZonesKeepsZones | app/Http/Controllers/RestaurantController.php:206-210 | In the corrected save, an update without zones keeps the stored zones and applies the sent name and capacity. |
| RestaurantManagement.Update | app/Http/Controllers/RestaurantController.php:160-217 | Access is checked first, so an unknown id is 404 for an admin and 403 for anybody else. Then 422 on a failed validation (lengths, capacity, business address, status outside the four). Then 403 when a supervisor sends a supervisor address. Every refusal changes nothing. On success only that restaurant changes, and a non-admin never changes its supervisor. |
| RestaurantManagement.Destroy | app/Http/Controllers/RestaurantController.php:226-249 | 403 for anybody but an admin, then 404 for an unknown id, and nothing is removed then. Otherwise the restaurant and exactly its tables are removed, and `Valid()` is kept. |
| ReservationManagement.StaffAccessIsRestaurantAccess | app/Http/Controllers/ReservationController.php:20-37 | For an admin or a supervisor, access to a reservation is exactly the restaurant endpoints' access to its restaurant. |
| ReservationManagement.Index | app/Http/Controllers/ReservationController.php:47-70 | Every reservation for an admin. A customer gets its own, which are exactly those it may access. A supervisor gets 404 exactly when no restaurant has its address, and otherwise the reservations of the smallest-id such restaurant. Everything listed is accessible. |
| ReservationManagement.SupervisorListingIsPartial | app/Http/Controllers/ReservationController.php:56-60 | A supervisor of two restaurants may access a reservation of the second, but the listing shows only the first. |
| ReservationManagement.FindUnavailable | app/Http/Controllers/ReservationController.php:103-115 | None exactly when every requested table exists in the restaurant and is `available`. Otherwise the position of the first one that is not. |
| ReservationManagement.SetTableStatus | app/Http/Controllers/ReservationController.php:138-140 | The bulk status update: no table appears or disappears, only statuses change, only the listed tables of that restaurant change, and they all end in the given status. |
| ReservationManagement.SetTableStatusKeepsInvariants | app/Http/Controllers/ReservationController.php:204-206 | A bulk status update keeps the uniqueness, ownership and capacity rules of the tables. |
| ReservationManagement.ListedTablesTakeStatus | app/Http/Controllers/ReservationController.php:103-140 | When every requested table was available, each of them is afterwards a table of that restaurant with the new status: a booking holds every table it names. |
| ReservationManagement.Store | app/Http/Controllers/ReservationController.php:80-147 | The code, in the source's order: 422 on a failed validation (unknown restaurant, empty table list, instant not after `now`, unknown status). 403 for a supervisor booking another's restaurant. 422 naming the first unavailable table. 403 for a customer booking for someone else (the owner defaults to the actor). Otherwise 201. Every refusal changes nothing. On 201 there is exactly one new reservation (status `pending` by default), and the listed tables of that restaurant become `reserved`. |
| ReservationManagement.Show | app/Http/Controllers/ReservationController.php:155-168 | 404 for an unknown reservation, 403 without access, otherwise the reservation. |
| ReservationManagement.UpdatedReservation | app/Http/Controllers/ReservationController.php:209 | Without a sent status the status stays. A sent status is stored under its own name. |
| ReservationManagement.Update | app/Http/Controllers/ReservationController.php:176-215 | 404, then 403 without access, then 422 on a failed validation, then 403 when a customer confirms or seats. Every refusal changes nothing. Otherwise a cancellation first sets the reservation's current tables, in its current restaurant, to `available`, and the sent columns replace the stored ones. |
| ReservationManagement.Destroy | app/Http/Controllers/ReservationController.php:223-242 | 404 for an unknown reservation, 403 without access, and nothing changes then. Otherwise its tables in its restaurant become `available` and exactly that reservation is removed. |
| ReservationManagement.GetReservationsByRestaurant | app/Http/Controllers/ReservationController.php:250-279 | 404 for an unknown restaurant. Then 403 unless the restaurant endpoints' access check grants the actor. Otherwise exactly that restaurant's reservations, all of them accessible. |
| ReservationManagement.GetUserReservations | app/Http/Controllers/ReservationController.php:287-297 | Exactly the actor's own reservations, whatever its role. |
| ReservationManagement.OwnReservationNotAlwaysShown | app/Http/Controllers/ReservationController.php:29-36 | A supervisor's own booking at another restaurant is in its `my-reservations` list, yet `show` refuses it. |
| RoleMiddleware.Handle | app/Http/Middleware/CheckRole.php:28-50 | 401 exactly when there is no user. Any other refusal is 403. |
| RoleMiddleware.JoinedRolesAdmitExactly | app/Http/Middleware/CheckRole.php:34-49 | For a parameter that `:`-joins a non-empty list of roles, the request passes exactly when the user's role is in the list. Every other signed-in user gets 403. |
| RoleMiddleware.AdminAdmitsOnlyAdmin | app/Http/Middleware/CheckRole.php:14-18 | `check.role:admin` admits admins only. |
| RoleMiddleware.StaffAdmitsAdminAndSupervisor | app/Http/Middleware/CheckRole.php:19-23 | `check.role:admin:supervisor` admits admins and supervisors, and refuses customers with 403. |
| RoleMiddleware.EmptyParameterAdmitsNobody | app/Http/Middleware/CheckRole.php:34-46 | An empty parameter explodes to one empty name, so every signed-in user gets 403. |
| Routes.DispatchFindsEveryAction | routes/api.php:32-80 | The router leads each action's own method and path back to that action. |
| Routes.EndpointsAreDistinct | routes/api.php:32-80 | No two actions share a method and a path. |
| Routes.PatchReachesOnlyReservationUpdate | routes/api.php:78 | `PATCH` reaches exactly the reservation path, and it leads to the same update as `PUT` there. |
| Routes.Gate | routes/api.php:36 | A public route lets everything through. Any other route answers 401 without a user. |
| Routes.PublicRoutesNeedNoToken | routes/api.php:32-33 | Registration and login pass without a user. |
| Routes.OtherRoutesNeedAUser | routes/api.php:36-81 | Exactly the two public routes pass without a user. |
| Routes.AdminRoutesAdmitOnlyAdmins | routes/api.php:48-59 | User management, and restaurant creation, update and deletion, admit exactly admins. They answer 403 to other signed-in users. |
| Routes.TableRoutesAdmitStaff | routes/api.php:62-70 | Every table route admits exactly admins and supervisors, and answers 403 to customers. |
| Routes.RemainingRoutesNeedOnlyAUser | routes/api.php:72-80 | Restaurant reads, the reservation routes, the profile and the token routes need only a signed-in user. |
| Routes.RestaurantUpdateIsAdminOnly | routes/api.php:57 | Route guard and controller check together permit the restaurant update exactly for an admin. The supervisor branch is unreachable. |
| Routes.UserManagementIsAdminOnly | routes/api.php:52-53 | Route guard and controller check together permit the user update exactly for an admin, and the user deletion only for an admin. |
| Routes.TableGuardIsRedundant | routes/api.php:62-70 | On the table routes, route guard and table check together equal the table check alone. |
| Routes.ReservationPermissionIsAccess | routes/api.php:78 | On the reservation routes, a signed-in user's permission is the reservation access check alone. Without a user nothing is permitted. |
| ReservationModel.Reservation.GetTablesIdsArray | app/Models/Reservation.php:39-42 | The ids number one more than the commas in the column. None contains a comma. Joining them gives the column back. |
| ReservationModel.Reservation.SetTablesIdsArray | app/Models/Reservation.php:45-48 | Writes the comma join of the ids and no other field. A non-empty list of comma-free ids reads back as itself. |
| ReservationModel.RewriteTablesIds | app/Models/Reservation.php:39-48 | Reading the ids and writing them back leaves the column, and every other field, as it was. |
| ReservationModel.EmptyListReadsBackAsOneEmptyId | app/Models/Reservation.php:41-47 | The empty list is written as "" and read back as one empty id, so the round trip needs a non-empty list. |
| Strings.JoinSplit | app/Models/Reservation.php:41-47 | `implode` after `explode` gives back every string. |
| Strings.SplitJoin | app/Models/Reservation.php:41-47 | `explode` after `implode` gives back every non-empty list of separator-free pieces. |
| Strings.Split | app/Http/Middleware/CheckRole.php:34 | `explode` gives one piece more than there are separators, and no piece contains the separator. |
| Persistence.FirstRestaurant | app/Http/Controllers/ReservationController.php:56 | None exactly when no restaurant satisfies the condition. Otherwise a restaurant that does, with the smallest id among them. |
| Domain.ParseRole | app/Http/Controllers/Api/ApiController.php:59 | A role name is accepted exactly when it is one of the three, and it names that role back. |
| Domain.ParseReservationStatus | app/Http/Controllers/ReservationController.php:86 | A reservation status is accepted exactly when it is one of the five, and it names that status back. |
| Domain.ParseRestaurantStatus | app/Http/Controllers/RestaurantController.php:195 | A restaurant status is accepted exactly when it is one of the four, and it names that status back. |
| Domain.ParseTableStatus | app/Http/Controllers/TableController.php:233 | A table status is accepted exactly when it is one of the four, and it names that status back. |

## Left out

- JWT login, token refresh, logout, profile and `active_token` bookkeeping are left out. They are calls into the JWT library.
- `bcrypt` password hashing and the custom user provider's credential mapping are left out. They are foreign code.
- The validator's format rules are one `formatOk` flag per request: e-mail syntax, string, integer and date types, `confirmed` passwords, and the JSON check of zones. The framework implements them.
- `Handler::render` (app/Exceptions/Handler.php:48-58) is not modelled. On `api/*` it answers 500 to every exception that is not an HTTP exception: validation failures, missing bindings and failed authentication. The model answers 422, 404 and 401 instead, the framework's defaults that the feature tests expect.
- The service providers, the CORS configuration, and `dump`/`Log` calls are left out. They are plumbing and I/O.
- The thin CRUD controllers under `app/Http/Controllers/Api/` other than `ApiController`, and the Eloquent relation wiring, are left out. They hold no decisions.
- Seeders are left out. Of the migrations, the model uses the enumerations, which give the status datatypes, the unique index on `(restaurant_id, table_name)`, and the cascade of `tables.restaurant_id`.
- The check-then-act race between the availability loop and the reserve update is left out. The model is sequential.
- Listing order and response bodies are left out. Listings are maps keyed by id.
- The `POST users` route leads to an `ApiController::store` action that does not exist. The model keeps the route's guard and nothing behind it.
- The `main room` zone default of the restaurant model is left out. It cannot fire, because `store` requires zones.
- The zones' JSON encoding on save is left out. It is representation only; the model stores the decoded list.
- `config/auth.php` is not part of this model. Which guard `register` consults is taken as given: the actor parameter.
- RestaurantManagement.Store: the request carries a status among the four or none. A `restaurant_status` outside the four is passed unvalidated to the database, and that write is not modelled.
- TableManagement.Store: the request carries a status among the four or none. `store` validates no `table_status` and passes it to `Table::create` with the rest of the request, so an off-list status reaches the database unvalidated, and that write is not modelled.
- TableManagement.Store: a missing `restaurant_id` is modelled as an unknown id. It gets the same split as in the source: 403 for a supervisor, whose restaurant look-up finds nothing, and 422 for an admin, from `required|exists`.
- ReservationManagement.Store: a customer may create a reservation that is already `confirmed` or `seated`, as the code allows. Only `update` forbids this.
- ReservationManagement.Update: a new table list is not checked for availability, and its tables are not reserved. Owner and restaurant may be reassigned by mass assignment. Both follow the code.
- ReservationManagement.Store: ids are naturals, so the strict comparison `$userId !== $user->user_id` is modelled as inequality. A string-typed `user_id` would be refused as well.
- The model does not prove that a table is held by at most one live reservation. Cancelling a reservation and then deleting it, or deleting after another booking took the freed table, can release a table another reservation holds. The code does not prevent this.
- TableManagement.Update: on the first finding's input (a move to another restaurant without a name, into a restaurant that holds the table's name), the model answers 422 with the corrected check. The source skips the look-up and its save fails on the unique index with a server error.
- RestaurantManagement.Update: on the second finding's input (a valid update that sends no zones), the model answers 200 and saves with the corrected zones step. The source raises at the zones read before the save and answers with a server error.
- Persistence.FirstRestaurant: `->first()` has no `orderBy`, so the database may return any matching row. The model fixes the smallest id, and so do the supervisor listings of `TableManagement.Index` and `ReservationManagement.Index` that use it.
- RestaurantManagement.Destroy: the controller only deletes the restaurant row. The removal of its tables is the `onDelete('cascade')` of `tables.restaurant_id` in migration 2024_01_01_000003, which the model assumes. The cascades of the reservation migrations are on `reservation_restaurant_id` and `id_restaurant`, columns the controllers never write, so the model keeps the restaurant's reservations.
- UserManagement.Destroy: only the account is removed. The reservation migrations cascade on `reservation_user_id` and `id_user`, columns the controllers never write, so the model keeps the user's reservations, and restaurants that name the user's address as supervisor keep it.
- Strings.ToLower: only ASCII letters are lower-cased, as PHP 8 `strtolower` does. The supervisor query's SQL `LOWER` may fold more, depending on the collation, and that is not modelled.
- ReservationManagement.Index and UserManagement.GetUsers: their SQL `where` look-ups compare e-mail by plain equality, `restaurant_supervisor_email` in the first and `user_created_by` in the second. Under a case-insensitive collation the database matches them ignoring case, but the model matches them exactly.
- The table-id codec of `app/Models/Reservation.php` is modelled on its own. The reservation controller stores the table list through the array cast of the other reservation model, not through this codec.

## Findings

| source | as written | input that shows it | evidently intended | confidence | as-written member | corrected member |
|---|---|---|---|---|---|---|
| app/Http/Controllers/TableController.php:237-239 | The name check runs only when `table_name` is sent. | Restaurant 2 has table `T1`. Table 1 of restaurant 1, also `T1`, is updated with `restaurant_id = 2` and no name. | Check for a clash whenever the restaurant or the name would change, and answer 422. | not executed; the schema's unique index would then fail the save with a server error | TableManagement.AsWrittenMoveDuplicatesName | TableManagement.UpdateKeepsNamesUnique |
| app/Http/Controllers/RestaurantController.php:207 | `$data['restaurant_zones']` is read even when no zones were sent. The missing key is a PHP warning, which the framework raises as an exception. | An admin `PUT restaurants/{id}` sending only `restaurant_name` and `restaurant_capacity`, as the feature test does. | Convert the zones only when they are sent, and save the other fields. | not executed | RestaurantManagement.AsWrittenUpdateWithoutZonesFails | RestaurantManagement.UpdateWithoutZonesKeepsZones |
