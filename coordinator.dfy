/** The booking coordinator (`BookingService`): validates a request, asks the
    resolver for a crew, narrows it to one vehicle, and saves the booking and
    its occupancy records. */
module Coordinator {
  import opened Time
  import opened Domain
  import opened Availability

  datatype Outcome = Pass | Fail(error: Error)

  /** `validateBooking`: the duration is checked first, then the crew size. */
  function ValidateBooking(duration: int, requiredWorkers: int): (r: Outcome)
    ensures r == Pass <==> (duration == 2 || duration == 4) && 1 <= requiredWorkers <= 3
    ensures r == Fail(InvalidDuration) <==> duration != 2 && duration != 4
    ensures r == Fail(InvalidWorkersRequired) <==>
              (duration == 2 || duration == 4) && (requiredWorkers < 1 || requiredWorkers > 3)
  {
    if duration != 2 && duration != 4 then Fail(InvalidDuration)
    else if requiredWorkers < 1 || requiredWorkers > 3 then Fail(InvalidWorkersRequired)
    else Pass
  }

  /** The workers of `workers` whose vehicle is `vehicleId`, in order. */
  function OnVehicle(vehicleId: int, workers: seq<Worker>): (r: seq<Worker>)
    ensures |r| <= |workers|
    ensures forall i :: 0 <= i < |r| ==> r[i].vehicle == Some(vehicleId)
    ensures forall j :: 0 <= j < |workers| && workers[j].vehicle == Some(vehicleId) ==> workers[j] in r
    decreases |workers|
  {
    if workers == [] then []
    else
      var rest := OnVehicle(vehicleId, workers[1..]);
      assert forall j :: 1 <= j < |workers| ==> workers[j] == workers[1..][j - 1];
      if workers[0].vehicle == Some(vehicleId) then [workers[0]] + rest else rest
  }

  /** The stream `filter(vehicle id equals).limit(n)`, pulled one worker at a
      time: it stops as soon as `n` workers are kept, and dereferencing a
      missing vehicle on the way fails. */
  function SameVehicle(vehicleId: int, workers: seq<Worker>, n: nat): (r: Result<seq<Worker>>)
    ensures r.Ok? ==> |r.value| <= n && IsSubsequence(r.value, workers)
    ensures r.Ok? ==> forall i :: 0 <= i < |r.value| ==> r.value[i].vehicle == Some(vehicleId)
    ensures r.Err? ==> r.error == MissingVehicle
    decreases |workers|
  {
    if n == 0 || workers == [] then Ok([])
    else if workers[0].vehicle.None? then Err(MissingVehicle)
    else if workers[0].vehicle.value == vehicleId then
      match SameVehicle(vehicleId, workers[1..], n - 1)
      case Ok(rest) =>
        assert ([workers[0]] + rest)[1..] == rest;
        Ok([workers[0]] + rest)
      case Err(e) => Err(e)
    else SameVehicle(vehicleId, workers[1..], n)
  }

  /** `filterWorkersByVehicle`: the first `n` workers of the vehicle, or the
      vehicle-capacity error when it has fewer; a worker without a vehicle
      met before `n` are kept fails the call. */
  function FilterWorkersByVehicle(vehicleId: int, workers: seq<Worker>, n: nat): (r: Result<seq<Worker>>)
    ensures r.Ok? ==> |r.value| == n && IsSubsequence(r.value, workers)
    ensures r.Ok? ==> forall i :: 0 <= i < |r.value| ==> r.value[i].vehicle == Some(vehicleId)
    ensures r.Err? ==> r.error in {MissingVehicle, NotEnoughSameVehicle}
    ensures (forall i :: 0 <= i < |workers| ==> workers[i].vehicle.Some?) ==>
              r == (if |OnVehicle(vehicleId, workers)| < n then Err(NotEnoughSameVehicle)
                    else Ok(Take(OnVehicle(vehicleId, workers), n)))
  {
    assert (forall i :: 0 <= i < |workers| ==> workers[i].vehicle.Some?) ==>
             SameVehicle(vehicleId, workers, n) == Ok(Take(OnVehicle(vehicleId, workers), n)) by {
      if forall i :: 0 <= i < |workers| ==> workers[i].vehicle.Some? {
        SameVehicleWhenAllHaveVehicles(vehicleId, workers, n);
      }
    }
    match SameVehicle(vehicleId, workers, n)
    case Err(e) => Err(e)
    case Ok(kept) => if |kept| < n then Err(NotEnoughSameVehicle) else Ok(kept)
  }

  /** `getAssignedWorkers`: on success the crew is exactly the resolver's
      answer for the timed window, `n` workers long, all on one vehicle; the
      time-capacity error is raised exactly when the resolver falls short. */
  function GetAssignedWorkers(db: Db, start: int, duration: int, n: nat): (r: Result<seq<Worker>>)
    requires 1 <= n
    ensures var available := CheckAvailabilityByDateTime(db, start, duration, n);
            && (r == Err(NotEnoughForTime) <==> |available| < n)
            && (r.Ok? ==> && r.value == available && |r.value| == n
                          && r.value[0].vehicle.Some?
                          && forall i :: 0 <= i < n ==> r.value[i].vehicle == r.value[0].vehicle)
  {
    var available := CheckAvailabilityByDateTime(db, start, duration, n);
    if |available| < n then Err(NotEnoughForTime)
    else match available[0].vehicle
      case None => Err(MissingVehicle)
      case Some(vehicleId) =>
        var r := FilterWorkersByVehicle(vehicleId, available, n);
        if r.Ok? then SubsequenceOfSameLength(r.value, available); r else r
  }

  /** What a create request leads to: the crew, or the first error raised. */
  function PlanCreate(db: Db, booking: Booking): (r: Result<seq<Worker>>)
    ensures ValidateBooking(booking.duration, booking.requiredWorkers).Fail? ==>
              r == Err(ValidateBooking(booking.duration, booking.requiredWorkers).error)
    ensures r.Ok? ==> (booking.duration == 2 || booking.duration == 4) && |r.value| == booking.requiredWorkers
                      && 1 <= |r.value| <= 3
  {
    match ValidateBooking(booking.duration, booking.requiredWorkers)
    case Fail(e) => Err(e)
    case Pass => GetAssignedWorkers(db, booking.start, booking.duration, booking.requiredWorkers)
  }

  /** What an update request leads to: validation first, then the lookup of
      the booking, then the crew. */
  function PlanUpdate(db: Db, bookingId: int, booking: Booking): (r: Result<seq<Worker>>)
    ensures ValidateBooking(booking.duration, booking.requiredWorkers).Fail? ==>
              r == Err(ValidateBooking(booking.duration, booking.requiredWorkers).error)
    ensures ValidateBooking(booking.duration, booking.requiredWorkers).Pass? && bookingId !in db.bookings ==>
              r == Err(BookingNotFound)
    ensures r.Ok? ==> bookingId in db.bookings && (booking.duration == 2 || booking.duration == 4)
                      && |r.value| == booking.requiredWorkers && 1 <= |r.value| <= 3
  {
    match ValidateBooking(booking.duration, booking.requiredWorkers)
    case Fail(e) => Err(e)
    case Pass =>
      if bookingId !in db.bookings then Err(BookingNotFound)
      else GetAssignedWorkers(db, booking.start, booking.duration, booking.requiredWorkers)
  }

  /** `createBooking`: every failure leaves the store as it was; on success
      the booking is saved under a fresh id with end = start + duration, then
      one occupancy record per crew member is added. */
  method CreateBooking(store: Store, booking: Booking) returns (r: Result<Booking>)
    requires store.Valid()
    modifies store
    ensures store.Valid()
    ensures store.workers == old(store.workers)
    ensures match PlanCreate(old(store.Snapshot()), booking)
      case Err(e) =>
        && r == Err(e)
        && store.bookings == old(store.bookings) && store.details == old(store.details)
        && store.nextId == old(store.nextId)
      case Ok(crew) =>
        var saved := booking.(id := old(store.nextId), end := PlusHours(booking.start, booking.duration));
        && r == Ok(saved)
        && old(store.nextId) !in old(store.bookings)
        && store.bookings == old(store.bookings)[saved.id := saved]
        && store.details == old(store.details) + OccupancyRecords(crew, saved.id)
        && store.nextId == old(store.nextId) + 1
    ensures SameVehicleCrews(old(store.details)) ==> SameVehicleCrews(store.details)
  {
    var valid := ValidateBooking(booking.duration, booking.requiredWorkers);
    if valid.Fail? {
      return Err(valid.error);
    }
    var withEnd := booking.(end := PlusHours(booking.start, booking.duration));
    var crew := GetAssignedWorkers(store.Snapshot(), withEnd.start, withEnd.duration, withEnd.requiredWorkers);
    if crew.Err? {
      return Err(crew.error);
    }
    var saved := store.InsertBooking(withEnd);
    forall i | 0 <= i < |store.details| ensures store.details[i].bookingId != saved.id { }
    if SameVehicleCrews(store.details) {
      AddCrewKeepsSameVehicleCrews(store.details, crew.value, saved.id);
    }
    UpdateWorkersAvailability(store, crew.value, saved);
    return Ok(saved);
  }

  /** `updateBooking`: every failure leaves the store as it was; on success
      the stored booking keeps its id and gets the new start, end, duration
      and crew size, and the new crew's records are added next to the records
      already held for it, which stay. */
  method UpdateBooking(store: Store, bookingId: int, booking: Booking) returns (r: Result<Booking>)
    requires store.Valid()
    modifies store
    ensures store.Valid()
    ensures store.workers == old(store.workers) && store.nextId == old(store.nextId)
    ensures match PlanUpdate(old(store.Snapshot()), bookingId, booking)
      case Err(e) =>
        && r == Err(e)
        && store.bookings == old(store.bookings) && store.details == old(store.details)
      case Ok(crew) =>
        var saved := old(store.bookings)[bookingId].(
          start := booking.start, end := PlusHours(booking.start, booking.duration),
          duration := booking.duration, requiredWorkers := booking.requiredWorkers);
        && r == Ok(saved) && saved.id == bookingId
        && store.bookings == old(store.bookings)[bookingId := saved]
        && store.details == old(store.details) + OccupancyRecords(crew, bookingId)
  {
    var valid := ValidateBooking(booking.duration, booking.requiredWorkers);
    if valid.Fail? {
      return Err(valid.error);
    }
    if bookingId !in store.bookings {
      return Err(BookingNotFound);
    }
    var existing := store.bookings[bookingId];
    var withEnd := booking.(end := PlusHours(booking.start, booking.duration));
    var crew := GetAssignedWorkers(store.Snapshot(), withEnd.start, withEnd.duration, withEnd.requiredWorkers);
    if crew.Err? {
      return Err(crew.error);
    }
    existing := existing.(start := withEnd.start, end := withEnd.end,
                          duration := withEnd.duration, requiredWorkers := withEnd.requiredWorkers);
    var saved := store.SaveBooking(existing);
    UpdateWorkersAvailability(store, crew.value, saved);
    return Ok(saved);
  }

  // ----- properties of the coordinator -----

  lemma {:induction false} SubsequenceLength<T>(a: seq<T>, b: seq<T>)
    requires IsSubsequence(a, b)
    ensures |a| <= |b|
    decreases |b|
  {
    if a != [] {
      if a[0] == b[0] && IsSubsequence(a[1..], b[1..]) {
        SubsequenceLength(a[1..], b[1..]);
      } else {
        SubsequenceLength(a, b[1..]);
      }
    }
  }

  /** A subsequence as long as the whole is the whole. */
  lemma {:induction false} SubsequenceOfSameLength<T>(a: seq<T>, b: seq<T>)
    requires IsSubsequence(a, b) && |a| == |b|
    ensures a == b
    decreases |b|
  {
    if a != [] {
      if a[0] == b[0] && IsSubsequence(a[1..], b[1..]) {
        SubsequenceOfSameLength(a[1..], b[1..]);
      } else {
        SubsequenceLength(a, b[1..]);
      }
    }
  }

  /** When every worker has a vehicle the lazy filter cannot fail and keeps
      the first `n` workers of the vehicle. */
  lemma {:induction false} SameVehicleWhenAllHaveVehicles(vehicleId: int, workers: seq<Worker>, n: nat)
    requires forall i :: 0 <= i < |workers| ==> workers[i].vehicle.Some?
    ensures SameVehicle(vehicleId, workers, n) == Ok(Take(OnVehicle(vehicleId, workers), n))
    decreases |workers|
  {
    if n > 0 && workers != [] {
      var rest := OnVehicle(vehicleId, workers[1..]);
      assert forall i :: 0 <= i < |workers[1..]| ==> workers[1..][i].vehicle.Some? by {
        assert forall i :: 0 <= i < |workers[1..]| ==> workers[1..][i] == workers[i + 1];
      }
      if workers[0].vehicle.value == vehicleId {
        assert OnVehicle(vehicleId, workers) == [workers[0]] + rest;
        SameVehicleWhenAllHaveVehicles(vehicleId, workers[1..], n - 1);
        assert Take([workers[0]] + rest, n) == [workers[0]] + Take(rest, n - 1);
      } else {
        assert OnVehicle(vehicleId, workers) == rest;
        SameVehicleWhenAllHaveVehicles(vehicleId, workers[1..], n);
      }
    }
  }

  /** A list no longer than the limit is walked to its end, so the filter
      fails exactly when some worker lacks a vehicle. */
  lemma {:induction false} SameVehicleVisitsAll(vehicleId: int, workers: seq<Worker>, n: nat)
    requires |workers| <= n
    ensures SameVehicle(vehicleId, workers, n).Err? <==> exists i :: 0 <= i < |workers| && workers[i].vehicle.None?
    decreases |workers|
  {
    if workers != [] {
      if workers[0].vehicle.Some? {
        SameVehicleVisitsAll(vehicleId, workers[1..], if workers[0].vehicle.value == vehicleId then n - 1 else n);
        assert forall i :: 1 <= i < |workers| ==> workers[i] == workers[1..][i - 1];
      }
    }
  }

  /** All workers are kept by the vehicle filter exactly when all are on it. */
  lemma {:induction false} OnVehicleKeepsAll(vehicleId: int, workers: seq<Worker>)
    ensures OnVehicle(vehicleId, workers) == workers <==>
              forall i :: 0 <= i < |workers| ==> workers[i].vehicle == Some(vehicleId)
    decreases |workers|
  {
    if workers != [] {
      OnVehicleKeepsAll(vehicleId, workers[1..]);
      assert forall i :: 1 <= i < |workers| ==> workers[i] == workers[1..][i - 1];
      if workers[0].vehicle != Some(vehicleId) {
        assert |OnVehicle(vehicleId, workers)| < |workers|;
      }
    }
  }

  /** The three ways crew assignment ends once the resolver found `n` workers:
      success exactly when they all share the first one's vehicle, the
      missing-vehicle failure when one has none, and the vehicle-capacity
      failure when they all have vehicles but not the same one. */
  lemma AssignmentOutcome(db: Db, start: int, duration: int, n: nat)
    requires 1 <= n
    ensures var available := CheckAvailabilityByDateTime(db, start, duration, n);
            var r := GetAssignedWorkers(db, start, duration, n);
            && (r.Ok? <==> |available| == n && available[0].vehicle.Some?
                           && forall i :: 0 <= i < n ==> available[i].vehicle == available[0].vehicle)
            && (r == Err(MissingVehicle) <==>
                  |available| == n && exists i :: 0 <= i < n && available[i].vehicle.None?)
            && (r == Err(NotEnoughSameVehicle) <==>
                  && |available| == n
                  && (forall i :: 0 <= i < n ==> available[i].vehicle.Some?)
                  && exists i :: 0 <= i < n && available[i].vehicle != available[0].vehicle)
  {
    var available := CheckAvailabilityByDateTime(db, start, duration, n);
    if |available| == n && available[0].vehicle.Some? {
      var v := available[0].vehicle.value;
      SameVehicleVisitsAll(v, available, n);
      if forall i :: 0 <= i < n ==> available[i].vehicle.Some? {
        SameVehicleWhenAllHaveVehicles(v, available, n);
        OnVehicleKeepsAll(v, available);
        if exists i :: 0 <= i < n && available[i].vehicle != available[0].vehicle {
          var onV := OnVehicle(v, available);
          if |onV| == n {
            // a kept subsequence as long as the list would be the whole list
            OnVehicleIsSubsequence(v, available);
            SubsequenceOfSameLength(onV, available);
          }
        }
      }
    }
  }

  lemma {:induction false} OnVehicleIsSubsequence(vehicleId: int, workers: seq<Worker>)
    ensures IsSubsequence(OnVehicle(vehicleId, workers), workers)
    decreases |workers|
  {
    if workers != [] {
      OnVehicleIsSubsequence(vehicleId, workers[1..]);
      var r := OnVehicle(vehicleId, workers);
      if workers[0].vehicle == Some(vehicleId) {
        assert r[0] == workers[0] && r[1..] == OnVehicle(vehicleId, workers[1..]);
      }
    }
  }

  /** Recording a one-vehicle crew under a booking id no record uses yet keeps
      every booking's crew on one vehicle. */
  lemma AddCrewKeepsSameVehicleCrews(details: seq<Detail>, crew: seq<Worker>, bookingId: int)
    requires SameVehicleCrews(details)
    requires forall i :: 0 <= i < |details| ==> details[i].bookingId != bookingId
    requires forall i :: 0 <= i < |crew| ==> crew[i].vehicle == crew[0].vehicle
    ensures SameVehicleCrews(details + OccupancyRecords(crew, bookingId))
  {
    var all := details + OccupancyRecords(crew, bookingId);
    forall i, j | 0 <= i < |all| && 0 <= j < |all| && all[i].bookingId == all[j].bookingId
      ensures all[i].worker.vehicle == all[j].worker.vehicle
    {
      if i >= |details| && j >= |details| {
        assert all[i].worker == crew[i - |details|] && all[j].worker == crew[j - |details|];
      }
    }
  }
}
