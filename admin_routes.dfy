/** The operator's spot registry and booking list (the `/admin` router):
    create a spot, switch it on or off, delete it, replace its rate table,
    and record a booking against an active spot. Each route handler is one
    atomic method of `AdminStore`; its result is the status and message
    the route answers with. Writing the lists back to disk is not modelled. */
module AdminRoutes {
  import opened JsValues

  /** The duration tiers, in minutes, for which a spot may carry a rate. */
  const ValidDurations: seq<string> := ["30", "45", "60", "120", "240", "480", "720", "1440"]

  /** A parking spot. `rates` maps a tier (as its decimal string) to a price. */
  datatype Spot = Spot(id: Json, active: bool, rates: map<string, real>)

  /** A booking as the operator route stores it; the three request fields
      are kept exactly as they arrived. */
  datatype Booking = Booking(parkingSpotId: Json, licensePlate: Json, duration: Json, timestamp: int)

  /** The error answers of the routes, each with its status and message. */
  datatype AdminError =
    | SpotIdRequired
    | SpotAlreadyExists
    | SpotNotFound
    | InvalidRatesObject
    | InvalidDuration(key: string)
    | InvalidRate(key: string)
    | MissingBookingDetails
    | InvalidOrInactiveSpot
  {
    function Status(): int {
      if SpotNotFound? then 404 else 400
    }

    function Message(): string {
      match this
      case SpotIdRequired => "Spot ID required"
      case SpotAlreadyExists => "Spot already exists"
      case SpotNotFound => "Spot not found"
      case InvalidRatesObject => "Invalid rates object"
      case InvalidDuration(k) => "Invalid duration: " + k
      case InvalidRate(k) => "Invalid rate for " + k
      case MissingBookingDetails => "Missing booking details"
      case InvalidOrInactiveSpot => "Invalid or inactive parking spot"
    }
  }

  /** The success answers of the routes. */
  datatype Reply =
    | SpotAdded
    | SpotUpdated
    | SpotDeleted
    | RatesUpdated(spot: Spot)
    | BookingCreated
  {
    function Status(): int {
      if SpotAdded? || BookingCreated? then 201 else 200
    }

    function Message(): string {
      match this
      case SpotAdded => "Spot added"
      case SpotUpdated => "Spot updated"
      case SpotDeleted => "Spot deleted"
      case RatesUpdated(_) => "Rates updated"
      case BookingCreated => "Booking created"
    }
  }

  datatype Response = Ok(reply: Reply) | Err(error: AdminError)

  /** No two spots answer to the same id under `===`. */
  ghost predicate IdsDistinct(spots: seq<Spot>) {
    forall i, j :: 0 <= i < j < |spots| ==> !StrictEquals(spots[i].id, spots[j].id)
  }

  /** A stored rate table only names known tiers and only holds prices of zero or more. */
  ghost predicate RatesValid(rates: map<string, real>) {
    forall k :: k in rates ==> k in ValidDurations && rates[k] >= 0.0
  }

  ghost predicate RegistryValid(spots: seq<Spot>) {
    IdsDistinct(spots) && forall i :: 0 <= i < |spots| ==> RatesValid(spots[i].rates)
  }

  datatype Option<T> = None | Some(value: T)

  /** `spots.findIndex(s => s.id === id)`, as an option. */
  function FindIndex(spots: seq<Spot>, id: Json): (r: Option<nat>)
    ensures r.Some? ==> r.value < |spots| && StrictEquals(spots[r.value].id, id)
    ensures r.Some? ==> forall j :: 0 <= j < r.value ==> !StrictEquals(spots[j].id, id)
    ensures r.None? <==> forall j :: 0 <= j < |spots| ==> !StrictEquals(spots[j].id, id)
    decreases |spots|
  {
    if spots == [] then None
    else if StrictEquals(spots[0].id, id) then Some(0)
    else match FindIndex(spots[1..], id)
      case None => None
      case Some(k) => Some(k + 1)
  }

  /** Lookup depends only on the ids: two registries with the same ids in
      the same order find the same position. */
  lemma FindIndexSameIds(a: seq<Spot>, b: seq<Spot>, id: Json)
    requires |a| == |b|
    requires forall j :: 0 <= j < |a| ==> a[j].id == b[j].id
    ensures FindIndex(a, id) == FindIndex(b, id)
  {
    var fa, fb := FindIndex(a, id), FindIndex(b, id);
    if fa.Some? && fb.Some? {
      assert !(fa.value < fb.value) && !(fb.value < fa.value);
    }
  }

  /** An entry of a rates object that the rates route accepts: its key
      is a tier and its value a number of zero or more. */
  predicate EntryOk(entry: (string, Json)) {
    entry.0 in ValidDurations && entry.1.Num? && entry.1.x >= 0.0
  }

  /** The check one entry of a rates object must pass; the key is tested
      before the value, and the error names the key. */
  function EntryError(entry: (string, Json)): (e: Option<AdminError>)
    ensures e.None? <==> EntryOk(entry)
    ensures e == Some(InvalidDuration(entry.0)) <==> entry.0 !in ValidDurations
    ensures e == Some(InvalidRate(entry.0)) <==> entry.0 in ValidDurations && !EntryOk(entry)
  {
    if entry.0 !in ValidDurations then Some(InvalidDuration(entry.0))
    else if !entry.1.Num? || entry.1.x < 0.0 then Some(InvalidRate(entry.0))
    else None
  }

  /** The first failing entry of a rates object decides the error. */
  function FirstRateError(entries: seq<(string, Json)>): (e: Option<AdminError>)
    ensures e.None? <==> forall i :: 0 <= i < |entries| ==> EntryOk(entries[i])
    ensures e.Some? ==>
      exists i :: 0 <= i < |entries| && e == EntryError(entries[i]) && (forall j :: 0 <= j < i ==> EntryOk(entries[j]))
    decreases |entries|
  {
    if entries == [] then None
    else if EntryError(entries[0]).Some? then EntryError(entries[0])
    else
      var e := FirstRateError(entries[1..]);
      assert forall j :: 1 <= j < |entries| ==> entries[j] == entries[1..][j - 1];
      e
  }

  /** The loop of the rates route: returns at the first entry whose key is
      not a tier or whose value is not a number of zero or more. */
  method ValidateRates(entries: seq<(string, Json)>) returns (err: Option<AdminError>)
    ensures err == FirstRateError(entries)
  {
    var i := 0;
    while i < |entries|
      invariant 0 <= i <= |entries|
      invariant FirstRateError(entries) == FirstRateError(entries[i..])
    {
      var (duration, rate) := entries[i];
      if duration !in ValidDurations {
        return Some(InvalidDuration(duration));
      }
      if !rate.Num? || rate.x < 0.0 {
        return Some(InvalidRate(duration));
      }
      assert entries[i..][1..] == entries[i + 1..];
      i := i + 1;
    }
    return None;
  }

  /** The object a successful rates request stores, read as a rate table. */
  function RatesMap(entries: seq<(string, Json)>): (m: map<string, real>)
    requires forall i :: 0 <= i < |entries| ==> EntryOk(entries[i])
    ensures RatesValid(m)
    decreases |entries|
  {
    if entries == [] then map[]
    else
      assert EntryOk(entries[|entries| - 1]);
      var init := entries[..|entries| - 1];
      assert forall i :: 0 <= i < |init| ==> init[i] == entries[i];
      RatesMap(init)[entries[|entries| - 1].0 := entries[|entries| - 1].1.x]
  }

  /** The stored table lists exactly the keys of the request's object:
      nothing of the previous table survives. */
  lemma {:induction false} RatesMapKeys(entries: seq<(string, Json)>)
    requires forall i :: 0 <= i < |entries| ==> EntryOk(entries[i])
    ensures RatesMap(entries).Keys == set i | 0 <= i < |entries| :: entries[i].0
    decreases |entries|
  {
    if entries != [] {
      var n := |entries| - 1;
      var init := entries[..n];
      assert forall i :: 0 <= i < |init| ==> init[i] == entries[i];
      RatesMapKeys(init);
      assert (set i | 0 <= i < |entries| :: entries[i].0) == (set i | 0 <= i < |init| :: init[i].0) + {entries[n].0};
    }
  }

  /** Each key of the request's object is stored with the number given
      for it (the last one, were a key listed twice). */
  lemma {:induction false} RatesMapValue(entries: seq<(string, Json)>, i: nat)
    requires forall i :: 0 <= i < |entries| ==> EntryOk(entries[i])
    requires i < |entries|
    requires forall j :: i < j < |entries| ==> entries[j].0 != entries[i].0
    ensures entries[i].0 in RatesMap(entries) && RatesMap(entries)[entries[i].0] == entries[i].1.x
    decreases |entries|
  {
    var n := |entries| - 1;
    var init := entries[..n];
    assert forall j :: 0 <= j < |init| ==> init[j] == entries[j];
    if i < n {
      RatesMapValue(init, i);
    }
  }

  /** A spot appended with an id no existing spot has keeps ids distinct. */
  lemma {:induction false} AppendKeepsIdsDistinct(spots: seq<Spot>, s: Spot)
    requires IdsDistinct(spots)
    requires forall j :: 0 <= j < |spots| ==> !StrictEquals(spots[j].id, s.id)
    ensures IdsDistinct(spots + [s])
  {
    var t := spots + [s];
    forall i, j | 0 <= i < j < |t|
      ensures !StrictEquals(t[i].id, t[j].id)
    {
      if j == |spots| {
        assert t[i] == spots[i] && t[j] == s;
      } else {
        assert t[i] == spots[i] && t[j] == spots[j];
      }
    }
  }

  /** Removing one spot keeps ids distinct and the other spots in order. */
  lemma {:induction false} RemoveKeepsIdsDistinct(spots: seq<Spot>, k: nat)
    requires k < |spots|
    requires RegistryValid(spots)
    ensures RegistryValid(spots[..k] + spots[k + 1..])
  {
    var t := spots[..k] + spots[k + 1..];
    assert forall i :: 0 <= i < |t| ==> t[i] == spots[if i < k then i else i + 1];
  }

  /** A spot appended under a primitive id no spot has is then found, at
      the end of the list. An array or object id is never found again, since
      `===` never holds between two of them. */
  lemma {:induction false} AppendThenFound(spots: seq<Spot>, s: Spot)
    requires FindIndex(spots, s.id).None?
    ensures FindIndex(spots + [s], s.id) == (if s.id.Arr? || s.id.Obj? then None else Some(|spots|))
  {
    var t := spots + [s];
    assert forall j :: 0 <= j < |spots| ==> t[j] == spots[j];
    assert t[|spots|] == s;
  }

  /** Once the spot found for an id is removed, no spot answers to that
      id: ids are distinct. */
  lemma {:induction false} RemoveThenNotFound(spots: seq<Spot>, id: Json)
    requires RegistryValid(spots)
    requires FindIndex(spots, id).Some?
    ensures FindIndex(spots[..FindIndex(spots, id).value] + spots[FindIndex(spots, id).value + 1..], id).None?
  {
    var k := FindIndex(spots, id).value;
    var t := spots[..k] + spots[k + 1..];
    forall i | 0 <= i < |t|
      ensures !StrictEquals(t[i].id, id)
    {
      if i < k {
        assert t[i] == spots[i];
      } else {
        assert t[i] == spots[i + 1];
        assert !StrictEquals(spots[k].id, spots[i + 1].id);
      }
    }
  }

  /** Changing a spot's flag or rates, not its id, keeps the registry valid
      when the new rates are valid. */
  lemma {:induction false} UpdateKeepsRegistryValid(spots: seq<Spot>, k: nat, s: Spot)
    requires k < |spots|
    requires RegistryValid(spots)
    requires s.id == spots[k].id && RatesValid(s.rates)
    ensures RegistryValid(spots[k := s])
  {
    var t := spots[k := s];
    assert forall i :: 0 <= i < |t| ==> t[i].id == spots[i].id;
  }

  /** The operator's in-memory state: the spot list and the booking list. */
  class AdminStore {
    var spots: seq<Spot>
    var bookings: seq<Booking>

    ghost predicate Valid()
      reads this
    {
      RegistryValid(spots)
    }

    /** Both lists start empty, as when no saved files exist yet. */
    constructor ()
      ensures Valid() && spots == [] && bookings == []
    {
      spots := [];
      bookings := [];
    }

    /** POST /spots: a missing or empty id, or one already present, is
        refused; otherwise an active spot with no rates is appended. */
    method CreateSpot(id: Json) returns (r: Response)
      requires Valid()
      modifies this
      ensures Valid() && bookings == old(bookings)
      ensures !Truthy(id) ==> r == Err(SpotIdRequired) && spots == old(spots)
      ensures Truthy(id) && FindIndex(old(spots), id).Some? ==>
        r == Err(SpotAlreadyExists) && spots == old(spots)
      ensures Truthy(id) && FindIndex(old(spots), id).None? ==>
        r == Ok(SpotAdded) && spots == old(spots) + [Spot(id, true, map[])]
    {
      if !Truthy(id) {
        return Err(SpotIdRequired);
      }
      if FindIndex(spots, id).Some? {
        return Err(SpotAlreadyExists);
      }
      AppendKeepsIdsDistinct(spots, Spot(id, true, map[]));
      spots := spots + [Spot(id, true, map[])];
      return Ok(SpotAdded);
    }

    /** PUT /spots/:id: sets the first matching spot's flag to `!!active`. */
    method SetActive(id: string, active: Json) returns (r: Response)
      requires Valid()
      modifies this
      ensures Valid() && bookings == old(bookings)
      ensures FindIndex(old(spots), Str(id)).None? ==> r == Err(SpotNotFound) && spots == old(spots)
      ensures FindIndex(old(spots), Str(id)).Some? ==>
        var k := FindIndex(old(spots), Str(id)).value;
        r == Ok(SpotUpdated) && spots == old(spots)[k := old(spots)[k].(active := Truthy(active))]
    {
      var found := FindIndex(spots, Str(id));
      if found.None? {
        return Err(SpotNotFound);
      }
      var k := found.value;
      UpdateKeepsRegistryValid(spots, k, spots[k].(active := Truthy(active)));
      spots := spots[k := spots[k].(active := Truthy(active))];
      return Ok(SpotUpdated);
    }

    /** DELETE /spots/:id: removes the first matching spot, whatever
        bookings refer to it. */
    method DeleteSpot(id: string) returns (r: Response)
      requires Valid()
      modifies this
      ensures Valid() && bookings == old(bookings)
      ensures FindIndex(old(spots), Str(id)).None? ==> r == Err(SpotNotFound) && spots == old(spots)
      ensures FindIndex(old(spots), Str(id)).Some? ==>
        var k := FindIndex(old(spots), Str(id)).value;
        r == Ok(SpotDeleted) && spots == old(spots)[..k] + old(spots)[k + 1..]
    {
      var found := FindIndex(spots, Str(id));
      if found.None? {
        return Err(SpotNotFound);
      }
      var k := found.value;
      RemoveKeepsIdsDistinct(spots, k);
      spots := spots[..k] + spots[k + 1..];
      return Ok(SpotDeleted);
    }

    /** PUT /spots/:id/rates: the body's `rates` must be a non-null object,
        then the spot must exist, then every entry must name a tier and a
        price of zero or more; on success the whole rate table is replaced. */
    method SetRates(id: string, rates: Json) returns (r: Response)
      requires Valid()
      modifies this
      ensures Valid() && bookings == old(bookings)
      ensures !Truthy(rates) || !IsObjectType(rates) ==> r == Err(InvalidRatesObject) && spots == old(spots)
      ensures Truthy(rates) && IsObjectType(rates) && FindIndex(old(spots), Str(id)).None? ==>
        r == Err(SpotNotFound) && spots == old(spots)
      ensures Truthy(rates) && IsObjectType(rates) && FindIndex(old(spots), Str(id)).Some? ==>
        var k := FindIndex(old(spots), Str(id)).value;
        match FirstRateError(Entries(rates))
        case Some(e) => r == Err(e) && spots == old(spots)
        case None =>
          var updated := old(spots)[k].(rates := RatesMap(Entries(rates)));
          r == Ok(RatesUpdated(updated)) && spots == old(spots)[k := updated]
    {
      if !Truthy(rates) || !IsObjectType(rates) {
        return Err(InvalidRatesObject);
      }
      var found := FindIndex(spots, Str(id));
      if found.None? {
        return Err(SpotNotFound);
      }
      var k := found.value;
      var entries := Entries(rates);
      var err := ValidateRates(entries);
      if err.Some? {
        return Err(err.value);
      }
      var updated := spots[k].(rates := RatesMap(entries));
      UpdateKeepsRegistryValid(spots, k, updated);
      spots := spots[k := updated];
      return Ok(RatesUpdated(updated));
    }

    /** POST /bookings: the spot id, plate and duration must all be given,
        and the spot must exist and be active; the booking is then appended
        with the current time, without looking at other bookings. */
    method AddBooking(parkingSpotId: Json, licensePlate: Json, duration: Json, now: int) returns (r: Response)
      requires Valid()
      modifies this
      ensures Valid() && spots == old(spots)
      ensures !Truthy(parkingSpotId) || !Truthy(licensePlate) || !Truthy(duration) ==>
        r == Err(MissingBookingDetails) && bookings == old(bookings)
      ensures Truthy(parkingSpotId) && Truthy(licensePlate) && Truthy(duration) ==>
        var found := FindIndex(spots, parkingSpotId);
        if found.None? || !spots[found.value].active then
          r == Err(InvalidOrInactiveSpot) && bookings == old(bookings)
        else
          r == Ok(BookingCreated) && bookings == old(bookings) + [Booking(parkingSpotId, licensePlate, duration, now)]
    {
      if !Truthy(parkingSpotId) || !Truthy(licensePlate) || !Truthy(duration) {
        return Err(MissingBookingDetails);
      }
      var found := FindIndex(spots, parkingSpotId);
      if found.None? || !spots[found.value].active {
        return Err(InvalidOrInactiveSpot);
      }
      var timestamp := now;
      bookings := bookings + [Booking(parkingSpotId, licensePlate, duration, timestamp)];
      return Ok(BookingCreated);
    }
  }

  /** Sending the same rates request twice: the second call answers as the
      first did and leaves the registry as the first left it, since a
      successful request replaces the table instead of merging into it. */
  method SetRatesTwice(store: AdminStore, id: string, rates: Json) returns (first: Response, second: Response)
    requires store.Valid()
    modifies store
    ensures store.Valid() && store.bookings == old(store.bookings)
    ensures second == first
    ensures first.Err? ==> store.spots == old(store.spots)
    ensures first.Ok? ==> FindIndex(old(store.spots), Str(id)).Some? && first.reply.RatesUpdated?
    ensures first.Ok? ==>
      store.spots == old(store.spots)[FindIndex(old(store.spots), Str(id)).value := first.reply.spot]
  {
    first := store.SetRates(id, rates);
    ghost var afterFirst := store.spots;
    second := store.SetRates(id, rates);
    FindIndexSameIds(old(store.spots), afterFirst, Str(id));
  }
}
