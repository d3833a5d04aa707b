/**
 * The seat map of `GET /seats/:scheduleId`: seats 1 to `total_seats` in
 * order, each flagged available exactly when its number is not booked.
 */
module Seats {

  datatype SeatInfo = SeatInfo(seatNumber: int, isAvailable: bool)

  /** The entries the loop produces from seat `first` up to seat `total`. */
  function SeatsFrom(first: int, total: int, booked: seq<int>): (m: seq<SeatInfo>)
    ensures |m| == if first <= total then total - first + 1 else 0
    ensures forall k :: 0 <= k < |m| ==> m[k].seatNumber == first + k
    ensures forall k :: 0 <= k < |m| ==> (m[k].isAvailable <==> first + k !in booked)
    decreases total - first + 1
  {
    if first > total then []
    else [SeatInfo(first, first !in booked)] + SeatsFrom(first + 1, total, booked)
  }

  /** Number of entries in a seat map: `total` when positive, none otherwise. */
  function MapSize(total: int): nat {
    if total <= 0 then 0 else total
  }

  /**
   * The seat map for a bus of `total` seats, given the booked seat numbers.
   * A non-positive `total` gives an empty map: the loop body never runs.
   */
  function SeatMap(total: int, booked: seq<int>): (m: seq<SeatInfo>)
    ensures |m| == MapSize(total)
    ensures forall k :: 0 <= k < |m| ==> m[k].seatNumber == k + 1
    ensures forall k :: 0 <= k < |m| ==> (m[k].isAvailable <==> k + 1 !in booked)
  {
    SeatsFrom(1, total, booked)
  }

  /** The `for (let i = 1; i <= bus.total_seats; i++)` loop, pushing one entry per seat. */
  method BuildSeatMap(total: int, booked: seq<int>) returns (seats: seq<SeatInfo>)
    ensures seats == SeatMap(total, booked)
  {
    seats := [];
    var i := 1;
    while i <= total
      invariant 1 <= i <= MapSize(total) + 1
      invariant seats + SeatsFrom(i, total, booked) == SeatMap(total, booked)
      decreases total - i + 1
    {
      assert SeatsFrom(i, total, booked) == [SeatInfo(i, i !in booked)] + SeatsFrom(i + 1, total, booked);
      seats := seats + [SeatInfo(i, i !in booked)];
      i := i + 1;
    }
  }

  /** Two booked lists that agree on membership give the same seat map. */
  lemma {:induction false} SeatMapRespectsMembership(total: int, a: seq<int>, b: seq<int>)
    requires forall n :: n in a <==> n in b
    ensures SeatMap(total, a) == SeatMap(total, b)
  {
    var ma, mb := SeatMap(total, a), SeatMap(total, b);
    assert |ma| == |mb|;
    forall k | 0 <= k < |ma| ensures ma[k] == mb[k] {
      assert ma[k].isAvailable == mb[k].isAvailable;
    }
  }
}
