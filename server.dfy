/** The public booking endpoint: a fixed list of twenty five-digit spot ids
    and `POST /api/bookings`, which refuses a request with a missing field,
    an unknown spot, or a spot that any earlier booking already names. The
    bookings live only in memory; the clock is the `now` parameter. */
module Server {
  import opened JsValues

  /** The ids the endpoint knows, as the start-up loop writes them. */
  const SpotIdLiterals: seq<string> := [
    "10000", "10001", "10002", "10003", "10004", "10005", "10006", "10007", "10008", "10009",
    "10010", "10011", "10012", "10013", "10014", "10015", "10016", "10017", "10018", "10019"]

  /** The start-up loop: pushes `i.toString()` for every `i` from 10000 up
      to, but not including, 10020. */
  method BuildSpotList() returns (spots: seq<string>)
    ensures |spots| == 20
    ensures forall k :: 0 <= k < 20 ==> spots[k] == NatToString(10000 + k)
    ensures spots == SpotIdLiterals
  {
    spots := [];
    var i := 10000;
    while i < 10020
      invariant 10000 <= i <= 10020
      invariant |spots| == i - 10000
      invariant forall k :: 0 <= k < |spots| ==> spots[k] == NatToString(10000 + k)
    {
      spots := spots + [NatToString(i)];
      i := i + 1;
    }
    SpotListIsLiterals(spots);
  }

  /** `(10000 + k).toString()` is "100" followed by the two digits of k. */
  lemma SpotIdText(k: nat)
    requires k < 20
    ensures NatToString(10000 + k) == "100" + [DigitChar(k / 10), DigitChar(k % 10)]
  {
    var n := 10000 + k;
    assert n / 10 == 1000 + k / 10 && n % 10 == k % 10;
    assert (1000 + k / 10) / 10 == 100 && (1000 + k / 10) % 10 == k / 10;
    assert NatToString(100) == "100";
  }

  /** The list the loop builds is exactly "10000" to "10019". */
  lemma SpotListIsLiterals(spots: seq<string>)
    requires |spots| == 20
    requires forall k :: 0 <= k < 20 ==> spots[k] == NatToString(10000 + k)
    ensures spots == SpotIdLiterals
  {
    assert forall k :: 0 <= k < 10 ==> SpotIdLiterals[k] == "100" + [DigitChar(k / 10), DigitChar(k % 10)];
    assert forall k :: 10 <= k < 20 ==> SpotIdLiterals[k] == "100" + [DigitChar(k / 10), DigitChar(k % 10)];
    forall k | 0 <= k < 20
      ensures spots[k] == SpotIdLiterals[k]
    {
      SpotIdText(k);
    }
  }

  /** The twenty ids are distinct five-digit numerals, in ascending order. */
  lemma {:induction false} SpotListAscending(spots: seq<string>)
    requires |spots| == 20
    requires forall k :: 0 <= k < 20 ==> spots[k] == NatToString(10000 + k)
    ensures forall k :: 0 <= k < 20 ==> |spots[k]| == 5 && ParseNat(spots[k]) == 10000 + k
    ensures forall k, l :: 0 <= k < l < 20 ==> ParseNat(spots[k]) < ParseNat(spots[l]) && spots[k] != spots[l]
  {
    forall k | 0 <= k < 20
      ensures |spots[k]| == 5 && ParseNat(spots[k]) == 10000 + k
    {
      SpotIdText(k);
      ParseNatToString(10000 + k);
    }
  }

  /** A booking as the endpoint stores it. The spot id is the string the
      request carried (it matched an entry of the spot list). */
  datatype Booking = Booking(parkingSpotId: string, duration: Json, licensePlate: Json, timestamp: int)

  /** The error answers of `POST /api/bookings`, with status and message. */
  datatype BookingError = MissingRequiredFields | InvalidSpotId | SpotAlreadyBooked
  {
    function Status(): int {
      if SpotAlreadyBooked? then 409 else 400
    }

    function Message(): string {
      match this
      case MissingRequiredFields => "Missing required fields"
      case InvalidSpotId => "Invalid parking spot ID"
      case SpotAlreadyBooked => "Parking spot already booked"
    }
  }

  /** The success answer, echoing the three request fields. */
  datatype Confirmation = Confirmation(parkingSpotId: string, duration: Json, licensePlate: Json)
  {
    function Message(): string {
      "Booking confirmed"
    }
  }

  datatype Response = Ok(booking: Confirmation) | Err(error: BookingError)
  {
    function Status(): int {
      if Ok? then 200 else error.Status()
    }
  }

  /** `parkingSpots.includes(v)`: only a string can equal a listed id. */
  predicate Includes(parkingSpots: seq<string>, v: Json) {
    v.Str? && v.s in parkingSpots
  }

  /** `bookings.some(b => b.parkingSpotId === id)`. */
  predicate IsBooked(bookings: seq<Booking>, id: string) {
    exists b :: b in bookings && b.parkingSpotId == id
  }

  /** Exclusivity: no two bookings name the same spot. */
  ghost predicate Exclusive(bookings: seq<Booking>) {
    forall i, j :: 0 <= i < j < |bookings| ==> bookings[i].parkingSpotId != bookings[j].parkingSpotId
  }

  /** Appending a booking for a spot no booking names keeps exclusivity. */
  lemma {:induction false} AppendKeepsExclusive(bookings: seq<Booking>, b: Booking)
    requires Exclusive(bookings)
    requires !IsBooked(bookings, b.parkingSpotId)
    ensures Exclusive(bookings + [b])
  {
    var t := bookings + [b];
    forall i, j | 0 <= i < j < |t|
      ensures t[i].parkingSpotId != t[j].parkingSpotId
    {
      if j == |bookings| {
        assert t[i] == bookings[i] && bookings[i] in bookings && t[j] == b;
      } else {
        assert t[i] == bookings[i] && t[j] == bookings[j];
      }
    }
  }

  /** The server's in-memory state: the fixed spot list and the bookings. */
  class BookingServer {
    const parkingSpots: seq<string>
    var bookings: seq<Booking>

    ghost predicate Valid()
      reads this
    {
      && parkingSpots == SpotIdLiterals
      && Exclusive(bookings)
      && forall i :: 0 <= i < |bookings| ==> bookings[i].parkingSpotId in parkingSpots
    }

    /** Start-up: the spot list is built and no booking exists. */
    constructor ()
      ensures Valid() && bookings == []
    {
      var spots := BuildSpotList();
      parkingSpots := spots;
      bookings := [];
    }

    /** POST /api/bookings. Checks, in order: all three fields given, the
        spot listed, no booking already naming the spot (however long ago
        it was made). On success the booking is appended with time `now`. */
    method PostBooking(parkingSpotId: Json, duration: Json, licensePlate: Json, now: int) returns (r: Response)
      requires Valid()
      modifies this
      ensures Valid()
      ensures !Truthy(parkingSpotId) || !Truthy(duration) || !Truthy(licensePlate) ==>
        r == Err(MissingRequiredFields) && bookings == old(bookings)
      ensures Truthy(parkingSpotId) && Truthy(duration) && Truthy(licensePlate) && !Includes(parkingSpots, parkingSpotId) ==>
        r == Err(InvalidSpotId) && bookings == old(bookings)
      ensures Truthy(parkingSpotId) && Truthy(duration) && Truthy(licensePlate) && Includes(parkingSpots, parkingSpotId) ==>
        if IsBooked(old(bookings), parkingSpotId.s) then
          r == Err(SpotAlreadyBooked) && bookings == old(bookings)
        else
          && r == Ok(Confirmation(parkingSpotId.s, duration, licensePlate))
          && bookings == old(bookings) + [Booking(parkingSpotId.s, duration, licensePlate, now)]
    {
      if !Truthy(parkingSpotId) || !Truthy(duration) || !Truthy(licensePlate) {
        return Err(MissingRequiredFields);
      }
      if !Includes(parkingSpots, parkingSpotId) {
        return Err(InvalidSpotId);
      }
      var id := parkingSpotId.s;
      var spotTaken := IsBooked(bookings, id);
      if spotTaken {
        return Err(SpotAlreadyBooked);
      }
      var booking := Booking(id, duration, licensePlate, now);
      AppendKeepsExclusive(bookings, booking);
      bookings := bookings + [booking];
      return Ok(Confirmation(id, duration, licensePlate));
    }
  }

  /** Two requests for the same spot: once the first succeeds, the second
      is refused with a conflict whatever its plate, duration and time. */
  method SecondBookingConflicts(server: BookingServer, id: Json, duration1: Json, plate1: Json, now1: int,
                                duration2: Json, plate2: Json, now2: int)
    returns (first: Response, second: Response)
    requires server.Valid()
    modifies server
    ensures server.Valid()
    ensures first.Ok? && Truthy(duration2) && Truthy(plate2) ==> second == Err(SpotAlreadyBooked)
  {
    first := server.PostBooking(id, duration1, plate1, now1);
    second := server.PostBooking(id, duration2, plate2, now2);
  }
}
