# Seat inventory of the bus booking server, in Dafny

This project models the seat-inventory core of a small Express/PostgreSQL bus
booking backend: operators add buses and schedules, anyone can ask for the
seat map of a schedule, and authenticated riders book single seats. It also
models the `verifyToken` middleware that gates the operator and booking routes
on an `Authorization: Bearer <token>` header.

The model is a sequential state machine. The database is an immutable
`Store` of three tables (`buses`, `schedules`, `bookings`, each a sequence of
rows in insertion order). Every route handler is a pure function from a store
and a request to an HTTP status, a response body and a new store.

Modules, in dependency order:

- `Wrappers`: `Option`, for absent request fields and rows a query does not find.
- `Tokens`: JavaScript's `startsWith` and `split(' ')`, with `Join` as the
  inverse that fixes what splitting means.
- `Auth`: `verifyToken` from `auth/token.js`. The JWT check is a parameter
  `verify: string -> Option<Claims>` standing for `jwt.verify`; None means it threw.
- `Inventory`: rows, store, the `WHERE id = $1` lookups, the booked-seat query,
  and the invariant `Valid` (ids are issued in order, so they are keys; at most
  one booking per schedule and seat; every booking carries its schedule's bus).
- `Seats`: the seat map built by the availability route's loop, as a function and as the loop itself.
- `Handlers`: the four handlers of `routes/busRoutes.js`. Booking is split into
  its read phase (`PlanBooking`) and its insert (`CommitBooking`).
- `Api`: routing, the token gate in front of the POST routes, sequential runs of requests, and the lemmas that relate several requests.

Request bodies are records of optional fields. A field counts as given when it
is JavaScript-truthy. For a string, that means present and non-empty. For a
number, it means present and non-zero. So seat `0` is rejected as missing, while
negative seats and seats above the bus's capacity are accepted. The code
has no range check, and the model adds none.

Behaviour of the code that the model keeps as it is:

- The booking route has no seat range check. `Api.TwoSeatScenario` books
  seats 3 and -1 on a two-seat bus.
- The booking route reads the booked seats and inserts the booking in two
  separate queries. Uniqueness of a seat is proved for sequential execution
  only (`Api.RunPreservesValid`). `Api.InterleavedBookingsDoubleBook` shows
  the interleaving that books one seat twice.
- The booking route fetches the schedule's bus row but never uses it, so a
  booking on a schedule whose bus row is missing succeeds
  (`Api.DanglingBusScenario`). The availability route reads
  `bus.total_seats`, which throws inside the `try` and yields 500.
- Adding a schedule does not check that its `bus_id` names a bus.

## Model

| member | source | states |
|---|---|---|
| Tokens.StartsWith | auth/token.js:12 | `startsWith` holds exactly when the prefix is no longer than the string and agrees with it character by character |
| Tokens.Split | auth/token.js:17 | `split(' ')` yields at least one piece and no piece contains a space |
| Tokens.FieldAt | auth/token.js:17 | `split(' ')[i]` is defined exactly for `i` below the number of pieces, and it never contains a space |
| Tokens.SplitThenJoin | auth/token.js:17 | joining the pieces with single spaces gives back the header |
| Tokens.JoinThenSplit | auth/token.js:17 | splitting a space-joined list of space-free pieces gives back the list |
| Tokens.FirstPieceIsWord | auth/token.js:17 | the first piece is the longest space-free prefix: a prefix that ends at the end or at a space |
| Handlers.Truthy | routes/busRoutes.js:13 | a string field passes the `!field` check exactly when it is neither absent (undefined) nor the empty string; the same check guards lines 47 and 108 |
| Handlers.TruthyNum | routes/busRoutes.js:108 | a number field passes the `!field` check exactly when it is neither absent nor 0, so seat 0 counts as missing; the same check guards lines 13 and 47 |
| Handlers.IsOperator | routes/busRoutes.js:8 | the caller passes `role !== 'operator'` only when the role is present and is exactly "operator"; the same check is at line 42 |
| Auth.BearerToken | auth/token.js:12-17 | for a header starting with "Bearer ", element 1 of the split is the text after the prefix up to the next space or the end |
| Auth.BearerTokenUnique | auth/token.js:17 | a header determines its token uniquely |
| Auth.VerifyToken | auth/token.js:5-24 | 403 "no token" exactly for a missing or empty header; 403 "invalid format" exactly for other headers not starting with "Bearer "; 403 "Invalid token" exactly when the verifier rejects the extracted token; otherwise the user is the verifier's decoded payload |
| Auth.VerifyTokenUsesToken | auth/token.js:17-23 | the middleware's outcome depends only on the verifier's answer for the header's token |
| Auth.PrefixIsExact | auth/token.js:12-14 | the prefix check is case-sensitive and needs the trailing space: "bearer abc", "Bearerabc" and "Bearer" are refused as badly formatted |
| Auth.SecondPieceIsToken | auth/token.js:17 | "Bearer a b" splits into three pieces and passes "a" to the verifier |
| Auth.DoubleSpaceGivesEmptyToken | auth/token.js:17 | "Bearer  x" (two spaces) passes the empty string to the verifier |
| Inventory.FindBus | routes/busRoutes.js:84-85 | the bus lookup returns a row with the requested id, and returns nothing exactly when no row has that id |
| Inventory.FindSchedule | routes/busRoutes.js:113-116 | the schedule lookup returns a row with the requested id, and returns nothing exactly when no row has that id |
| Inventory.FindScheduleAppend | routes/busRoutes.js:52-55 | inserting a schedule does not change the row an already-resolvable schedule id resolves to |
| Inventory.Capacity | routes/busRoutes.js:78-85 | a schedule's capacity is known exactly when the schedule exists and its bus row exists, and it is then the `total_seats` of a bus row carrying the schedule's `bus_id` |
| Inventory.ValidIdsAreKeys | routes/busRoutes.js:18-21 | in a valid store no two rows of a table share an id, and looking up the id issued to a bus or schedule row finds exactly that row |
| Inventory.BookedSeats | routes/busRoutes.js:87-88 | the booked-seat list contains a seat exactly when some booking of that schedule holds it, and is no longer than the bookings table |
| Inventory.BookedSeatsAppend | routes/busRoutes.js:129-132 | after an insert, the booked-seat list of a schedule is the old list, followed by the new seat when the new row is on that schedule |
| Inventory.IsBookedAppend | routes/busRoutes.js:129-132 | after an insert, a seat is booked exactly when it was booked before or the new row holds it |
| Seats.SeatsFrom | routes/busRoutes.js:90-96 | the loop from seat `first` to `total` yields one entry per seat, numbered consecutively, each available exactly when its number is not booked |
| Seats.SeatMap | routes/busRoutes.js:90-96 | the seat map has `total_seats` entries (none for a non-positive count), entry k is seat k+1, and it is available exactly when k+1 is not among the booked seats |
| Seats.BuildSeatMap | routes/busRoutes.js:90-96 | the push loop builds exactly the seat map |
| Seats.SeatMapRespectsMembership | routes/busRoutes.js:88-94 | the seat map depends only on which numbers are booked, not on their order or repetition |
| Handlers.AddBus | routes/busRoutes.js:7-22 | 403 exactly for non-operators; 400 exactly for operators with a missing name or seat count; otherwise 201 with exactly one bus row appended that carries the given name and seat count; no write on any refusal |
| Handlers.AddSchedule | routes/busRoutes.js:41-56 | 403 exactly for non-operators; 400 exactly when any of the five fields is missing; otherwise 201 with exactly one schedule row appended carrying the five given fields; no write on any refusal |
| Handlers.SeatAvailability | routes/busRoutes.js:75-103 | 404 exactly for an unknown schedule; 500 exactly when its bus row is missing; otherwise 200 with seats 1 to total_seats in order, each available exactly when no booking of that schedule holds it |
| Handlers.PlanBooking | routes/busRoutes.js:107-127 | 400 for any missing field (including seat 0); then 404 for an unknown schedule; then 400 "already booked" when a booking of that schedule holds the seat; otherwise the row to insert, with bus_id taken from the schedule |
| Handlers.CommitBooking | routes/busRoutes.js:129-134 | the insert appends exactly one booking with the planned fields and answers 201 with it; a rejection leaves the store as it was |
| Handlers.BookSeat | routes/busRoutes.js:106-139 | 201 exactly when the fields are given, the schedule exists and the seat is free; 404 exactly for an unknown schedule; any other refusal is 400; on success exactly one booking is appended with the given user, schedule, seat and the schedule's bus, and nothing else changes; on failure nothing changes |
| Handlers.AddBusPreservesValid | routes/busRoutes.js:17-22 | adding a bus issues it the next id and keeps the store invariant |
| Handlers.AddSchedulePreservesValid | routes/busRoutes.js:51-56 | adding a schedule issues it the next id and keeps every booking's schedule and bus reference intact |
| Handlers.BookSeatPreservesValid | routes/busRoutes.js:122-134 | a booking handled on its own never books an already booked seat of its schedule |
| Api.Step | routes/busRoutes.js:7-139 | the GET routes never change the store; a POST route whose token is refused answers the middleware's 403 without change; every request appends at most one row to each table and rewrites none |
| Api.TokenReachesHandler | auth/token.js:17-19 | with a valid bearer token, the route's handler runs once, with the decoded payload as the user |
| Api.OperatorGate | routes/busRoutes.js:8-10 | an authenticated caller whose role is not "operator" gets 403 from adding a bus or a schedule (lines 42-44 alike), and the store is unchanged |
| Api.StepPreservesValid | routes/busRoutes.js:7-139 | every request keeps the store invariant |
| Api.RunPreservesValid | routes/busRoutes.js:122-134 | any sequence of requests handled one at a time keeps at most one booking per schedule and seat |
| Api.FromEmptyStoreValid | routes/busRoutes.js:122-134 | starting from empty tables, no sequential run ever double-books a seat |
| Api.BookThenSeatTaken | routes/busRoutes.js:87-134 | after a successful booking the schedule's seat map answers with the same status and size, shows the booked seat as taken, and shows every other seat as before |
| Api.OtherSchedulesUnaffected | routes/busRoutes.js:87-94 | a booking on one schedule leaves the seat map of every other schedule unchanged |
| Api.InterleavedBookingsDoubleBook | routes/busRoutes.js:122-132 | if a second booking for the same seat reads the booked seats before the first inserts, both get 201 and the seat ends up booked twice |
| Api.TwoSeatScenario | routes/busRoutes.js:75-139 | on a two-seat bus: both seats free, booking seat 1 succeeds, seat 1 then shows taken, rebooking it is 400 "already booked", seat 0 is 400 as a missing field, seats 3 and -1 are accepted, an unknown schedule is 404 |
| Api.DanglingBusScenario | routes/busRoutes.js:84-101 | a schedule whose bus row is missing gives 500 for its seat map, yet a booking on it succeeds and carries the missing bus's id |

## Left out

- Database failures: the `catch` branches that answer 500 when a query fails
  (routes/busRoutes.js:23-26, 57-60, 99-102, 135-138) are not modelled. Every
  query succeeds in the model. The one 500 modelled is the `TypeError` from a
  missing bus row in the availability route.
- Concurrency: requests are handled one at a time. The read-then-insert gap in
  the booking route is shown only by `Api.InterleavedBookingsDoubleBook`. No
  database-level unique constraint on (schedule_id, seat_number) appears in the code.
- Generated columns: row ids are the next position in the table, so the model has no gaps
  from failed inserts. `created_at` and `SELECT *` column shapes are dropped.
  A query's first row is the first matching row in insertion order; in a
  valid store ids are keys, so at most one row matches.
- JavaScript typing: fields are strings or integers. Other JSON values,
  `NaN` and PostgreSQL's coercions are not modelled. In particular, a
  `seat_number` sent as a string would never match the integer column under
  `includes`, which would let it through the already-booked check.
- `Handlers.ListBuses`, `Handlers.ListSchedules`: the two list routes only
  return the tables. Their only stated property is that they do not write
  (`Api.Step`).
- `jwt.verify` internals (signature, expiry, secret) are the opaque `verify`
  parameter. `console.error` logging is dropped.
- `index.js` (Express wiring, CORS, listen, startup connection test) and
  `db.js` (pool configuration) are not part of this model. Neither is
  `routes/userRoutes.js` (registration and login through bcrypt, JWT signing
  and a client API that `db.js` does not provide).
