/**
 * The four store-changing or store-reading handlers of routes/busRoutes.js,
 * each as a transition from a store to a response and a new store. The
 * caller's identity arrives already decoded (see Auth); the routing that
 * puts `verifyToken` in front of a handler is in Api.
 */
module Handlers {

  import opened Wrappers
  import opened Auth
  import opened Inventory
  import opened Seats

  /** JSON bodies of the POST routes; None is a field the body does not carry. */
  datatype BusForm = BusForm(name: Option<string>, totalSeats: Option<int>)

  datatype ScheduleForm = ScheduleForm(
    busId: Option<int>,
    departureTime: Option<string>,
    arrivalTime: Option<string>,
    startingPoint: Option<string>,
    destination: Option<string>)

  datatype BookingForm = BookingForm(userName: Option<string>, scheduleId: Option<int>, seatNumber: Option<int>)

  /** A string field is truthy in JavaScript when present and non-empty. */
  predicate Truthy(f: Option<string>)
    ensures Truthy(f) <==> f !in {None, Some("")}
  {
    f.Some? && f.value != ""
  }

  /** A number field is truthy in JavaScript when present and non-zero. */
  predicate TruthyNum(f: Option<int>)
    ensures TruthyNum(f) <==> f !in {None, Some(0)}
  {
    f.Some? && f.value != 0
  }

  datatype Body =
    | Error(message: string)
    | BusRow(bus: Bus)
    | ScheduleRow(schedule: Schedule)
    | BookingRow(booking: Booking)
    | BusRows(buses: seq<Bus>)
    | ScheduleRows(schedules: seq<Schedule>)
    | SeatRows(seats: seq<SeatInfo>)

  datatype Response = Response(status: int, body: Body)

  /** What a handler answers, and the store after it. */
  datatype Outcome = Outcome(response: Response, store: Store)

  const OperatorRole: string := "operator"
  const OperatorRequired: string := "Unauthorized - Operator access required"
  const BusFieldsRequired: string := "Bus name and total seats are required"
  const ScheduleFieldsRequired: string := "All schedule fields are required"
  const ScheduleNotFound: string := "Schedule not found"
  const AvailabilityFailed: string := "Database error while fetching seat availability"
  const BookingFieldsRequired: string := "User name, schedule ID, and seat number are required"
  const SeatTaken: string := "This seat is already booked"

  /** `req.user.role !== 'operator'` fails only for the exact string; an absent role is not the operator's. */
  predicate IsOperator(user: Claims)
    ensures user.role.None? ==> !IsOperator(user)
    ensures user.role.Some? ==> (IsOperator(user) <==> user.role.value == OperatorRole)
  {
    user.role == Some(OperatorRole)
  }

  predicate BusFieldsGiven(form: BusForm) {
    Truthy(form.name) && TruthyNum(form.totalSeats)
  }

  predicate ScheduleFieldsGiven(form: ScheduleForm) {
    && TruthyNum(form.busId)
    && Truthy(form.departureTime)
    && Truthy(form.arrivalTime)
    && Truthy(form.startingPoint)
    && Truthy(form.destination)
  }

  predicate BookingFieldsGiven(form: BookingForm) {
    Truthy(form.userName) && TruthyNum(form.scheduleId) && TruthyNum(form.seatNumber)
  }

  /** `POST /operator/buses` */
  function AddBus(s: Store, user: Claims, form: BusForm): (r: Outcome)
    ensures r.response.status == 403 <==> !IsOperator(user)
    ensures r.response.status == 400 <==> IsOperator(user) && !BusFieldsGiven(form)
    ensures r.response.status == 201 <==> IsOperator(user) && BusFieldsGiven(form)
    ensures r.response.status != 201 ==> r.store == s && r.response.body.Error?
    ensures r.response.status == 201 ==>
              && r.response.body.BusRow?
              && r.store == s.(buses := s.buses + [r.response.body.bus])
              && r.response.body.bus.name == form.name.value
              && r.response.body.bus.totalSeats == form.totalSeats.value
  {
    if !IsOperator(user) then Outcome(Response(403, Error(OperatorRequired)), s)
    else if !BusFieldsGiven(form) then Outcome(Response(400, Error(BusFieldsRequired)), s)
    else
      var bus := Bus(NextId(|s.buses|), form.name.value, form.totalSeats.value);
      Outcome(Response(201, BusRow(bus)), s.(buses := s.buses + [bus]))
  }

  /** `POST /operator/schedules`; the bus id is not checked against the buses table. */
  function AddSchedule(s: Store, user: Claims, form: ScheduleForm): (r: Outcome)
    ensures r.response.status == 403 <==> !IsOperator(user)
    ensures r.response.status == 400 <==> IsOperator(user) && !ScheduleFieldsGiven(form)
    ensures r.response.status == 201 <==> IsOperator(user) && ScheduleFieldsGiven(form)
    ensures r.response.status != 201 ==> r.store == s && r.response.body.Error?
    ensures r.response.status == 201 ==>
              && r.response.body.ScheduleRow?
              && r.store == s.(schedules := s.schedules + [r.response.body.schedule])
              && r.response.body.schedule.busId == form.busId.value
              && r.response.body.schedule.departureTime == form.departureTime.value
              && r.response.body.schedule.arrivalTime == form.arrivalTime.value
              && r.response.body.schedule.startingPoint == form.startingPoint.value
              && r.response.body.schedule.destination == form.destination.value
  {
    if !IsOperator(user) then Outcome(Response(403, Error(OperatorRequired)), s)
    else if !ScheduleFieldsGiven(form) then Outcome(Response(400, Error(ScheduleFieldsRequired)), s)
    else
      var c := Schedule(NextId(|s.schedules|), form.busId.value, form.departureTime.value,
                        form.arrivalTime.value, form.startingPoint.value, form.destination.value);
      Outcome(Response(201, ScheduleRow(c)), s.(schedules := s.schedules + [c]))
  }

  /** `GET /seats/:scheduleId`; a missing bus row makes `bus.total_seats` throw, answered with 500. */
  function SeatAvailability(s: Store, scheduleId: int): (r: Response)
    ensures r.status == 404 <==> FindSchedule(s.schedules, scheduleId).None?
    ensures r.status == 500 <==> FindSchedule(s.schedules, scheduleId).Some? && Capacity(s, scheduleId).None?
    ensures r.status == 200 <==> Capacity(s, scheduleId).Some?
    ensures r.status != 200 ==> r.body.Error?
    ensures r.status == 200 ==>
              && r.body.SeatRows?
              && |r.body.seats| == MapSize(Capacity(s, scheduleId).value)
              && (forall k :: 0 <= k < |r.body.seats| ==> r.body.seats[k].seatNumber == k + 1)
              && (forall k :: 0 <= k < |r.body.seats| ==>
                    (r.body.seats[k].isAvailable <==> !IsBooked(s.bookings, scheduleId, k + 1)))
  {
    match FindSchedule(s.schedules, scheduleId)
    case None => Response(404, Error(ScheduleNotFound))
    case Some(c) =>
      match FindBus(s.buses, c.busId)
      case None => Response(500, Error(AvailabilityFailed))
      case Some(bus) => Response(200, SeatRows(SeatMap(bus.totalSeats, BookedSeats(s.bookings, scheduleId))))
  }

  /**
   * The read phase of `POST /bookings`: field check, schedule lookup and the
   * booked-seat check, ending either in a reply or in the row to insert.
   */
  datatype Plan =
    | Reject(response: Response)
    | Insert(userName: string, busId: int, scheduleId: int, seatNumber: int)

  function PlanBooking(s: Store, form: BookingForm): (p: Plan)
    ensures p == Reject(Response(400, Error(BookingFieldsRequired))) <==> !BookingFieldsGiven(form)
    ensures p == Reject(Response(404, Error(ScheduleNotFound))) <==>
              BookingFieldsGiven(form) && FindSchedule(s.schedules, form.scheduleId.value).None?
    ensures p == Reject(Response(400, Error(SeatTaken))) <==>
              && BookingFieldsGiven(form)
              && FindSchedule(s.schedules, form.scheduleId.value).Some?
              && IsBooked(s.bookings, form.scheduleId.value, form.seatNumber.value)
    ensures p.Insert? <==>
              && BookingFieldsGiven(form)
              && FindSchedule(s.schedules, form.scheduleId.value).Some?
              && !IsBooked(s.bookings, form.scheduleId.value, form.seatNumber.value)
    ensures p.Insert? ==>
              && p.userName == form.userName.value
              && p.scheduleId == form.scheduleId.value
              && p.seatNumber == form.seatNumber.value
              && p.busId == FindSchedule(s.schedules, p.scheduleId).value.busId
  {
    if !BookingFieldsGiven(form) then Reject(Response(400, Error(BookingFieldsRequired)))
    else
      match FindSchedule(s.schedules, form.scheduleId.value)
      case None => Reject(Response(404, Error(ScheduleNotFound)))
      case Some(c) =>
        if form.seatNumber.value in BookedSeats(s.bookings, form.scheduleId.value)
        then Reject(Response(400, Error(SeatTaken)))
        else Insert(form.userName.value, c.busId, form.scheduleId.value, form.seatNumber.value)
  }

  /** The write phase of `POST /bookings`: the INSERT and the 201 reply. */
  function CommitBooking(s: Store, p: Plan): (r: Outcome)
    ensures p.Reject? ==> r == Outcome(p.response, s)
    ensures p.Insert? ==>
              && r.response.status == 201
              && r.response.body.BookingRow?
              && r.store == s.(bookings := s.bookings + [r.response.body.booking])
              && r.response.body.booking.userName == p.userName
              && r.response.body.booking.busId == p.busId
              && r.response.body.booking.scheduleId == p.scheduleId
              && r.response.body.booking.seatNumber == p.seatNumber
  {
    match p
    case Reject(response) => Outcome(response, s)
    case Insert(userName, busId, scheduleId, seatNumber) =>
      var row := Booking(NextId(|s.bookings|), userName, busId, scheduleId, seatNumber);
      Outcome(Response(201, BookingRow(row)), s.(bookings := s.bookings + [row]))
  }

  /** `POST /bookings`, run as one step: no other request runs between its read and its insert. */
  function BookSeat(s: Store, form: BookingForm): (r: Outcome)
    ensures r.response.status in {201, 400, 404}
    ensures r.response.status == 201 <==>
              && BookingFieldsGiven(form)
              && FindSchedule(s.schedules, form.scheduleId.value).Some?
              && !IsBooked(s.bookings, form.scheduleId.value, form.seatNumber.value)
    ensures r.response.status == 404 <==>
              BookingFieldsGiven(form) && FindSchedule(s.schedules, form.scheduleId.value).None?
    ensures r.response.status != 201 ==> r.store == s && r.response.body.Error?
    ensures r.response.status == 201 ==>
              && r.response.body.BookingRow?
              && r.store == s.(bookings := s.bookings + [r.response.body.booking])
              && r.response.body.booking.userName == form.userName.value
              && r.response.body.booking.scheduleId == form.scheduleId.value
              && r.response.body.booking.seatNumber == form.seatNumber.value
              && r.response.body.booking.busId == FindSchedule(s.schedules, form.scheduleId.value).value.busId
  {
    CommitBooking(s, PlanBooking(s, form))
  }

  function ListBuses(s: Store): Response {
    Response(200, BusRows(s.buses))
  }

  function ListSchedules(s: Store): Response {
    Response(200, ScheduleRows(s.schedules))
  }

  lemma AddBusPreservesValid(s: Store, user: Claims, form: BusForm)
    requires Valid(s)
    ensures Valid(AddBus(s, user, form).store)
  {
  }

  lemma AddSchedulePreservesValid(s: Store, user: Claims, form: ScheduleForm)
    requires Valid(s)
    ensures Valid(AddSchedule(s, user, form).store)
  {
    var r := AddSchedule(s, user, form);
    if r.response.status == 201 {
      forall b | b in r.store.bookings
        ensures FindSchedule(r.store.schedules, b.scheduleId) == FindSchedule(s.schedules, b.scheduleId)
      {
        FindScheduleAppend(s.schedules, r.response.body.schedule, b.scheduleId);
      }
    }
  }

  /** In sequential execution a successful booking never creates a second booking of a seat. */
  lemma BookSeatPreservesValid(s: Store, form: BookingForm)
    requires Valid(s)
    ensures Valid(BookSeat(s, form).store)
  {
    var r := BookSeat(s, form);
    if r.response.status == 201 {
      var row := r.response.body.booking;
      var n := |s.bookings|;
      var after := r.store.bookings;
      forall i | 0 <= i < n && after[i].scheduleId == row.scheduleId
        ensures after[i].seatNumber != row.seatNumber
      {
        assert after[i] == s.bookings[i];
        assert s.bookings[i] in s.bookings;
      }
      assert after[n] == row;
    }
  }
}
