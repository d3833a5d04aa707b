/**
 * The three tables the bus routes read and write (buses, schedules,
 * bookings), the row lookups the handlers issue, and the sequential
 * invariants a well-formed store keeps.
 */
module Inventory {

  import opened Wrappers

  datatype Bus = Bus(id: int, name: string, totalSeats: int)

  datatype Schedule = Schedule(
    id: int,
    busId: int,
    departureTime: string,
    arrivalTime: string,
    startingPoint: string,
    destination: string)

  /** `busId` is copied from the schedule when the booking is made. */
  datatype Booking = Booking(id: int, userName: string, busId: int, scheduleId: int, seatNumber: int)

  datatype Store = Store(buses: seq<Bus>, schedules: seq<Schedule>, bookings: seq<Booking>)

  const EmptyStore := Store([], [], [])

  /** The id the database hands out for the next row of a table with `rows` rows. */
  function NextId(rows: nat): int {
    rows + 1
  }

  /** `SELECT ... FROM buses WHERE id = $1`, first row. */
  function FindBus(buses: seq<Bus>, id: int): (r: Option<Bus>)
    ensures r.Some? ==> r.value in buses && r.value.id == id
    ensures r.None? <==> forall b :: b in buses ==> b.id != id
    decreases |buses|
  {
    if |buses| == 0 then None
    else if buses[0].id == id then Some(buses[0])
    else FindBus(buses[1..], id)
  }

  /** `SELECT ... FROM schedules WHERE id = $1`, first row. */
  function FindSchedule(schedules: seq<Schedule>, id: int): (r: Option<Schedule>)
    ensures r.Some? ==> r.value in schedules && r.value.id == id
    ensures r.None? <==> forall c :: c in schedules ==> c.id != id
    decreases |schedules|
  {
    if |schedules| == 0 then None
    else if schedules[0].id == id then Some(schedules[0])
    else FindSchedule(schedules[1..], id)
  }

  /** Appending a schedule does not change which row an existing id resolves to. */
  lemma {:induction false} FindScheduleAppend(schedules: seq<Schedule>, c: Schedule, id: int)
    requires FindSchedule(schedules, id).Some?
    ensures FindSchedule(schedules + [c], id) == FindSchedule(schedules, id)
    decreases |schedules|
  {
    if schedules[0].id != id {
      assert (schedules + [c])[1..] == schedules[1..] + [c];
      FindScheduleAppend(schedules[1..], c, id);
    }
  }

  /**
   * The capacity the availability route resolves for a schedule: the
   * `total_seats` of the schedule's bus, or None when the schedule is unknown
   * or its bus row is missing.
   */
  function Capacity(s: Store, scheduleId: int): (c: Option<int>)
    ensures c.Some? <==>
              FindSchedule(s.schedules, scheduleId).Some?
              && FindBus(s.buses, FindSchedule(s.schedules, scheduleId).value.busId).Some?
    ensures c.Some? ==>
              exists b :: b in s.buses && b.id == FindSchedule(s.schedules, scheduleId).value.busId
                          && b.totalSeats == c.value
  {
    match FindSchedule(s.schedules, scheduleId)
    case None => None
    case Some(c) =>
      match FindBus(s.buses, c.busId)
      case None => None
      case Some(bus) => Some(bus.totalSeats)
  }

  /** Some booking of schedule `scheduleId` holds seat `seat`. */
  ghost predicate IsBooked(bookings: seq<Booking>, scheduleId: int, seat: int) {
    exists b :: b in bookings && b.scheduleId == scheduleId && b.seatNumber == seat
  }

  /**
   * `SELECT seat_number FROM bookings WHERE schedule_id = $1`, mapped to the
   * list of seat numbers, in row order.
   */
  function BookedSeats(bookings: seq<Booking>, scheduleId: int): (seats: seq<int>)
    ensures |seats| <= |bookings|
    ensures forall n :: n in seats <==> IsBooked(bookings, scheduleId, n)
    decreases |bookings|
  {
    if |bookings| == 0 then []
    else
      var last := bookings[|bookings| - 1];
      var earlier := BookedSeats(bookings[..|bookings| - 1], scheduleId);
      assert bookings == bookings[..|bookings| - 1] + [last];
      if last.scheduleId == scheduleId then earlier + [last.seatNumber] else earlier
  }

  /** A booking appended later is reported after the ones already there. */
  lemma BookedSeatsAppend(bookings: seq<Booking>, b: Booking, scheduleId: int)
    ensures BookedSeats(bookings + [b], scheduleId) ==
              BookedSeats(bookings, scheduleId) + (if b.scheduleId == scheduleId then [b.seatNumber] else [])
  {
    assert (bookings + [b])[..|bookings|] == bookings;
  }

  /** A seat is booked after an append exactly when it was before or the new row holds it. */
  lemma IsBookedAppend(bookings: seq<Booking>, b: Booking, scheduleId: int, seat: int)
    ensures IsBooked(bookings + [b], scheduleId, seat) <==>
              IsBooked(bookings, scheduleId, seat) || (b.scheduleId == scheduleId && b.seatNumber == seat)
  {
    BookedSeatsAppend(bookings, b, scheduleId);
    assert seat in BookedSeats(bookings + [b], scheduleId) <==> IsBooked(bookings + [b], scheduleId, seat);
    assert seat in BookedSeats(bookings, scheduleId) <==> IsBooked(bookings, scheduleId, seat);
  }

  /** At most one booking per (schedule, seat): the invariant the booking route is meant to keep. */
  ghost predicate SeatsUnique(bookings: seq<Booking>) {
    forall i, j :: 0 <= i < j < |bookings| && bookings[i].scheduleId == bookings[j].scheduleId
                   ==> bookings[i].seatNumber != bookings[j].seatNumber
  }

  /** Every booking names an existing schedule and carries that schedule's bus. */
  ghost predicate BookingsMatchSchedules(s: Store) {
    forall b :: b in s.bookings ==>
      FindSchedule(s.schedules, b.scheduleId).Some?
      && FindSchedule(s.schedules, b.scheduleId).value.busId == b.busId
  }

  /**
   * The primary keys: every table holds the ids it was issued, in order,
   * so no two rows of a table share an id.
   */
  ghost predicate IdsIssued(s: Store) {
    && (forall i :: 0 <= i < |s.buses| ==> s.buses[i].id == NextId(i))
    && (forall i :: 0 <= i < |s.schedules| ==> s.schedules[i].id == NextId(i))
    && (forall i :: 0 <= i < |s.bookings| ==> s.bookings[i].id == NextId(i))
  }

  ghost predicate Valid(s: Store) {
    IdsIssued(s) && SeatsUnique(s.bookings) && BookingsMatchSchedules(s)
  }

  lemma EmptyStoreValid()
    ensures Valid(EmptyStore)
  {
  }

  /**
   * In a valid store ids are keys: distinct rows have distinct ids, and a
   * lookup by id finds the one row issued that id.
   */
  lemma ValidIdsAreKeys(s: Store, i: int)
    requires Valid(s)
    ensures forall j, k :: 0 <= j < k < |s.buses| ==> s.buses[j].id != s.buses[k].id
    ensures forall j, k :: 0 <= j < k < |s.schedules| ==> s.schedules[j].id != s.schedules[k].id
    ensures forall j, k :: 0 <= j < k < |s.bookings| ==> s.bookings[j].id != s.bookings[k].id
    ensures 0 <= i < |s.buses| ==> FindBus(s.buses, NextId(i)) == Some(s.buses[i])
    ensures 0 <= i < |s.schedules| ==> FindSchedule(s.schedules, NextId(i)) == Some(s.schedules[i])
  {
    if 0 <= i < |s.buses| {
      FindBusIssued(s.buses, 0, i);
    }
    if 0 <= i < |s.schedules| {
      FindScheduleIssued(s.schedules, 0, i);
    }
  }

  lemma {:induction false} FindBusIssued(buses: seq<Bus>, offset: nat, i: int)
    requires forall j :: 0 <= j < |buses| ==> buses[j].id == NextId(offset + j)
    requires 0 <= i < |buses|
    ensures FindBus(buses, NextId(offset + i)) == Some(buses[i])
    decreases |buses|
  {
    if i > 0 {
      FindBusIssued(buses[1..], offset + 1, i - 1);
    }
  }

  lemma {:induction false} FindScheduleIssued(schedules: seq<Schedule>, offset: nat, i: int)
    requires forall j :: 0 <= j < |schedules| ==> schedules[j].id == NextId(offset + j)
    requires 0 <= i < |schedules|
    ensures FindSchedule(schedules, NextId(offset + i)) == Some(schedules[i])
    decreases |schedules|
  {
    if i > 0 {
      FindScheduleIssued(schedules[1..], offset + 1, i - 1);
    }
  }
}
