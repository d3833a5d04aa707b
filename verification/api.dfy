/**
 * The router of routes/busRoutes.js: which handler each request reaches and
 * whether `verifyToken` runs first, and what holds of a store across a
 * sequence of requests handled one at a time.
 */
module Api {

  import opened Wrappers
  import opened Tokens
  import opened Auth
  import opened Inventory
  import opened Seats
  import opened Handlers

  /** A request; `authorization` is the `Authorization` header, if sent. */
  datatype Request =
    | PostBus(authorization: Option<string>, busForm: BusForm)
    | GetBuses
    | PostSchedule(authorization: Option<string>, scheduleForm: ScheduleForm)
    | GetSchedules
    | GetSeats(scheduleId: int)
    | PostBooking(authorization: Option<string>, bookingForm: BookingForm)

  /** The routes mounted behind `verifyToken`. */
  predicate NeedsToken(req: Request) {
    req.PostBus? || req.PostSchedule? || req.PostBooking?
  }

  /** The 403 reply of `verifyToken`, given before the handler is reached. */
  function Refuse(s: Store, e: AuthError): Outcome {
    Outcome(Response(DeniedStatus, Error(Message(e))), s)
  }

  /** Handles one request against the store; `verify` stands for `jwt.verify`. */
  function Step(s: Store, req: Request, verify: string -> Option<Claims>): (r: Outcome)
    ensures !NeedsToken(req) ==> r.store == s
    ensures NeedsToken(req) && VerifyToken(req.authorization, verify).Denied? ==>
              r == Refuse(s, VerifyToken(req.authorization, verify).error)
    ensures s.buses <= r.store.buses && |r.store.buses| <= |s.buses| + 1
    ensures s.schedules <= r.store.schedules && |r.store.schedules| <= |s.schedules| + 1
    ensures s.bookings <= r.store.bookings && |r.store.bookings| <= |s.bookings| + 1
  {
    match req
    case PostBus(h, form) =>
      (match VerifyToken(h, verify)
       case Denied(e) => Refuse(s, e)
       case Authenticated(user) => AddBus(s, user, form))
    case GetBuses => Outcome(ListBuses(s), s)
    case PostSchedule(h, form) =>
      (match VerifyToken(h, verify)
       case Denied(e) => Refuse(s, e)
       case Authenticated(user) => AddSchedule(s, user, form))
    case GetSchedules => Outcome(ListSchedules(s), s)
    case GetSeats(id) => Outcome(SeatAvailability(s, id), s)
    case PostBooking(h, form) =>
      (match VerifyToken(h, verify)
       case Denied(e) => Refuse(s, e)
       case Authenticated(_) => BookSeat(s, form))
  }

  /**
   * A request with a valid bearer token reaches its handler, with `req.user`
   * set to the payload the verifier decoded from that token.
   */
  lemma TokenReachesHandler(s: Store, req: Request, verify: string -> Option<Claims>, t: string, user: Claims)
    requires NeedsToken(req) && req.authorization.Some?
    requires IsBearerToken(req.authorization.value, t) && verify(t) == Some(user)
    ensures req.PostBus? ==> Step(s, req, verify) == AddBus(s, user, req.busForm)
    ensures req.PostSchedule? ==> Step(s, req, verify) == AddSchedule(s, user, req.scheduleForm)
    ensures req.PostBooking? ==> Step(s, req, verify) == BookSeat(s, req.bookingForm)
  {
    VerifyTokenUsesToken(req.authorization.value, t, verify);
  }

  /** A caller without the operator role cannot change buses or schedules. */
  lemma OperatorGate(s: Store, req: Request, verify: string -> Option<Claims>)
    requires req.PostBus? || req.PostSchedule?
    requires VerifyToken(req.authorization, verify).Authenticated?
    requires !IsOperator(VerifyToken(req.authorization, verify).user)
    ensures Step(s, req, verify) == Outcome(Response(403, Error(OperatorRequired)), s)
  {
  }

  lemma StepPreservesValid(s: Store, req: Request, verify: string -> Option<Claims>)
    requires Valid(s)
    ensures Valid(Step(s, req, verify).store)
  {
    match req
    case PostBus(h, form) =>
      if VerifyToken(h, verify).Authenticated? {
        AddBusPreservesValid(s, VerifyToken(h, verify).user, form);
      }
    case PostSchedule(h, form) =>
      if VerifyToken(h, verify).Authenticated? {
        AddSchedulePreservesValid(s, VerifyToken(h, verify).user, form);
      }
    case PostBooking(h, form) =>
      BookSeatPreservesValid(s, form);
    case _ =>
  }

  /** The store after handling `reqs` one at a time, in order. */
  function Run(s: Store, reqs: seq<Request>, verify: string -> Option<Claims>): Store
    decreases |reqs|
  {
    if |reqs| == 0 then s else Run(Step(s, reqs[0], verify).store, reqs[1..], verify)
  }

  /**
   * Sequential uniqueness: however requests are ordered, as long as each is
   * handled to completion before the next, no seat is booked twice and
   * every booking carries its schedule's bus.
   */
  lemma {:induction false} RunPreservesValid(s: Store, reqs: seq<Request>, verify: string -> Option<Claims>)
    requires Valid(s)
    ensures Valid(Run(s, reqs, verify))
    decreases |reqs|
  {
    if |reqs| > 0 {
      StepPreservesValid(s, reqs[0], verify);
      RunPreservesValid(Step(s, reqs[0], verify).store, reqs[1..], verify);
    }
  }

  lemma FromEmptyStoreValid(reqs: seq<Request>, verify: string -> Option<Claims>)
    ensures Valid(Run(EmptyStore, reqs, verify))
  {
    EmptyStoreValid();
    RunPreservesValid(EmptyStore, reqs, verify);
  }

  /**
   * After a successful booking the seat map of that schedule shows the seat
   * as taken, answers with the same status as before, and flags every other
   * seat as it did before.
   */
  lemma BookThenSeatTaken(s: Store, form: BookingForm)
    requires BookSeat(s, form).response.status == 201
    ensures var id, seat := form.scheduleId.value, form.seatNumber.value;
            var before := SeatAvailability(s, id);
            var after := SeatAvailability(BookSeat(s, form).store, id);
            && after.status == before.status
            && (after.status == 200 ==>
                  && |after.body.seats| == |before.body.seats|
                  && (1 <= seat <= |after.body.seats| ==> !after.body.seats[seat - 1].isAvailable)
                  && (forall k :: 0 <= k < |after.body.seats| && k + 1 != seat ==>
                        after.body.seats[k] == before.body.seats[k]))
  {
    var r := BookSeat(s, form);
    var id, seat := form.scheduleId.value, form.seatNumber.value;
    var s' := r.store;
    assert Capacity(s', id) == Capacity(s, id);
    var before := SeatAvailability(s, id);
    var after := SeatAvailability(s', id);
    if after.status == 200 {
      forall k | 0 <= k < |after.body.seats|
        ensures after.body.seats[k].isAvailable <==> (before.body.seats[k].isAvailable && k + 1 != seat)
      {
        IsBookedAppend(s.bookings, r.response.body.booking, id, k + 1);
      }
    }
  }

  /** A booking on one schedule leaves the seat map of every other schedule as it was. */
  lemma OtherSchedulesUnaffected(s: Store, form: BookingForm, other: int)
    requires BookSeat(s, form).response.status == 201
    requires other != form.scheduleId.value
    ensures SeatAvailability(BookSeat(s, form).store, other) == SeatAvailability(s, other)
  {
    BookedSeatsAppend(s.bookings, BookSeat(s, form).response.body.booking, other);
  }

  /**
   * Why uniqueness holds only sequentially: if a second request for the same
   * seat reads the booked seats before the first one inserts, both inserts
   * go through and the seat is booked twice.
   */
  lemma InterleavedBookingsDoubleBook(s: Store, f1: BookingForm, f2: BookingForm)
    requires PlanBooking(s, f1).Insert?
    requires BookingFieldsGiven(f2)
    requires f2.scheduleId == f1.scheduleId && f2.seatNumber == f1.seatNumber
    ensures PlanBooking(s, f2).Insert?
    ensures var first := CommitBooking(s, PlanBooking(s, f1));
            var second := CommitBooking(first.store, PlanBooking(s, f2));
            && first.response.status == 201
            && second.response.status == 201
            && !SeatsUnique(second.store.bookings)
  {
    var first := CommitBooking(s, PlanBooking(s, f1));
    var second := CommitBooking(first.store, PlanBooking(s, f2));
    var n := |s.bookings|;
    assert second.store.bookings[n] == first.response.body.booking;
    assert second.store.bookings[n + 1] == second.response.body.booking;
  }

  /**
   * A bus of two seats with one schedule: the seat map, a booking, the map
   * again, a repeated booking, and the seat numbers the route accepts
   * without any range check.
   */
  lemma TwoSeatScenario()
    ensures var s0 := Store([Bus(1, "Express", 2)], [Schedule(1, 1, "08:00", "12:00", "Salem", "Erode")], []);
            var seat1 := BookingForm(Some("asha"), Some(1), Some(1));
            var s1 := BookSeat(s0, seat1).store;
            && SeatAvailability(s0, 1) == Response(200, SeatRows([SeatInfo(1, true), SeatInfo(2, true)]))
            && BookSeat(s0, seat1).response.status == 201
            && SeatAvailability(s1, 1) == Response(200, SeatRows([SeatInfo(1, false), SeatInfo(2, true)]))
            && BookSeat(s1, seat1).response == Response(400, Error(SeatTaken))
            && BookSeat(s1, seat1.(seatNumber := Some(0))).response == Response(400, Error(BookingFieldsRequired))
            && BookSeat(s1, seat1.(seatNumber := Some(3))).response.status == 201
            && BookSeat(s1, seat1.(seatNumber := Some(-1))).response.status == 201
            && SeatAvailability(s1, 2) == Response(404, Error(ScheduleNotFound))
  {
    var s0 := Store([Bus(1, "Express", 2)], [Schedule(1, 1, "08:00", "12:00", "Salem", "Erode")], []);
    var seat1 := BookingForm(Some("asha"), Some(1), Some(1));
    var s1 := BookSeat(s0, seat1).store;
    var m0 := SeatAvailability(s0, 1).body.seats;
    assert m0 == [SeatInfo(1, true), SeatInfo(2, true)];
    assert s1.bookings == [Booking(1, "asha", 1, 1, 1)];
    assert IsBooked(s1.bookings, 1, 1) by { assert s1.bookings[0] in s1.bookings; }
    assert !IsBooked(s1.bookings, 1, 2);
    assert !IsBooked(s1.bookings, 1, 3);
    assert !IsBooked(s1.bookings, 1, -1);
    var m1 := SeatAvailability(s1, 1).body.seats;
    assert m1 == [SeatInfo(1, false), SeatInfo(2, true)];
  }

  /** A schedule may name a bus that does not exist; its seat map then fails with 500. */
  lemma DanglingBusScenario()
    ensures var s := Store([], [Schedule(1, 9, "08:00", "12:00", "Salem", "Erode")], []);
            var f := BookingForm(Some("ravi"), Some(1), Some(4));
            && SeatAvailability(s, 1) == Response(500, Error(AvailabilityFailed))
            && BookSeat(s, f).response.status == 201
            && BookSeat(s, f).response.body.booking.busId == 9
  {
    var s := Store([], [Schedule(1, 9, "08:00", "12:00", "Salem", "Erode")], []);
    assert !IsBooked(s.bookings, 1, 4);
  }
}
