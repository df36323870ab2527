/** Concrete situations, worked through the model: the behaviours the
    service's own tests check, and consequences of the code as written.
    All on Monday 2024-01-15. */
module Scenarios {
  import opened Time
  import opened Domain
  import opened Availability
  import opened Coordinator

  /** 2024-01-15, a Monday. */
  const Monday := 19737

  /** A worker with hours 08:00-22:00 and the given vehicle. */
  function Staff(id: int, vehicle: int): Worker
  {
    Worker(id, "", AtTime(0, 8, 0), AtTime(0, 22, 0), true, Some(vehicle))
  }

  /** Nobody has any booking yet. */
  function Fresh(workers: seq<Worker>): Db
  {
    Db(workers, map[], [])
  }

  /** The local times of the instants used below. */
  lemma MondayTimes()
    ensures forall h | 0 <= h < 24 :: Day(AtTime(Monday, h, 0)) == Monday
    ensures forall h | 0 <= h < 24 :: Clock(AtTime(Monday, h, 0)) == AtTime(0, h, 0)
    ensures forall h, m | 0 <= h < 24 && 0 <= m < 60 :: Day(AtTime(Monday, h, m)) == Monday
    ensures forall h, m | 0 <= h < 24 && 0 <= m < 60 :: Clock(AtTime(Monday, h, m)) == AtTime(0, h, m)
  {
    forall h, m | 0 <= h < 24 && 0 <= m < 60
      ensures Day(AtTime(Monday, h, m)) == Monday && Clock(AtTime(Monday, h, m)) == AtTime(0, h, m)
    {
      DayClockOfAtTime(Monday, AtTime(0, h, m));
    }
  }

  /** With nothing booked, everyone whose hours cover the window is free. */
  lemma {:induction false} FreeWhenNothingBooked(db: Db, workers: seq<Worker>, start: int, duration: int)
    requires db.details == []
    requires forall i :: 0 <= i < |workers| ==>
               !CheckIfOutsideWorkingHours(workers[i], start, PlusHours(start, duration))
    ensures Qualifying(db, workers, TimedWindow(start, duration)) == workers
    decreases |workers|
  {
    if workers != [] {
      FreeWhenNothingBooked(db, workers[1..], start, duration);
    }
  }

  /** A worker left with the default roster is not offered on Friday
      2024-01-12 (day 19734), even with nothing booked. */
  lemma DefaultWorkerOffOnFriday()
    ensures var db := Fresh([DefaultWorker(1, "Worker 1", Some(1))]);
            CheckAvailabilityForDate(db, 19734, 1) == []
  {
    var db := Fresh([DefaultWorker(1, "Worker 1", Some(1))]);
    DateWindowShape(19734);
    JanuaryTwelfthIsFriday();
    assert !IsAvailable(db, db.workers[0], DateWindow(19734));
    assert Qualifying(db, db.workers, DateWindow(19734)) == [];
  }

  /** The first worker is busy 09:00-11:00, so a 10:00 request for one worker
      skips them and returns the second. */
  lemma ConflictingFirstWorkerSkipped()
    ensures var busy := Booking(7, AtTime(Monday, 9, 0), AtTime(Monday, 11, 0), 2, 1);
            var db := Db([Staff(1, 1), Staff(2, 1)], map[7 := busy], [Detail(7, Staff(1, 1))]);
            CheckAvailabilityByDateTime(db, AtTime(Monday, 10, 0), 2, 1) == [Staff(2, 1)]
  {
    var busy := Booking(7, AtTime(Monday, 9, 0), AtTime(Monday, 11, 0), 2, 1);
    var db := Db([Staff(1, 1), Staff(2, 1)], map[7 := busy], [Detail(7, Staff(1, 1))]);
    var w := TimedWindow(AtTime(Monday, 10, 0), 2);
    MondayTimes();
    assert w.end == AtTime(Monday, 12, 0);
    var fetched := FindByWorkerIdAndBookingStartTimeBetween(db.bookings, db.details, 1, w.from, w.to);
    assert busy in fetched;
    assert !IsAvailable(db, Staff(1, 1), w);
    assert IsAvailable(db, Staff(2, 1), w);
    assert db.workers[1..] == [Staff(2, 1)];
    assert Qualifying(db, db.workers, w) == [Staff(2, 1)];
  }

  /** The rest buffer is strict: against a 10:00-12:00 booking a window
      starting at 12:29 is refused and one starting at 12:30 is accepted. */
  lemma RestBufferBoundary()
    ensures var busy := Booking(3, AtTime(Monday, 10, 0), AtTime(Monday, 12, 0), 2, 1);
            var db := Db([Staff(1, 1)], map[3 := busy], [Detail(3, Staff(1, 1))]);
            && CheckAvailabilityByDateTime(db, AtTime(Monday, 12, 29), 2, 1) == []
            && CheckAvailabilityByDateTime(db, AtTime(Monday, 12, 30), 2, 1) == [Staff(1, 1)]
  {
    var busy := Booking(3, AtTime(Monday, 10, 0), AtTime(Monday, 12, 0), 2, 1);
    var db := Db([Staff(1, 1)], map[3 := busy], [Detail(3, Staff(1, 1))]);
    MondayTimes();
    var early := TimedWindow(AtTime(Monday, 12, 29), 2);
    var onTime := TimedWindow(AtTime(Monday, 12, 30), 2);
    assert early.end == AtTime(Monday, 14, 29) && onTime.end == AtTime(Monday, 14, 30);
    assert busy in FindByWorkerIdAndBookingStartTimeBetween(db.bookings, db.details, 1, early.from, early.to);
    assert !IsAvailable(db, Staff(1, 1), early);
    assert FindByWorkerIdAndBookingStartTimeBetween(db.bookings, db.details, 1, onTime.from, onTime.to) == [busy];
    assert IsAvailable(db, Staff(1, 1), onTime);
  }

  /** The timed search starts at midnight of the window's date, so a booking
      that began the evening before is never fetched: a worker busy
      22:00-02:00 is offered for 00:30-02:30 although the windows overlap. */
  lemma PreviousEveningBookingMissed()
    ensures var night := Worker(1, "", 0, AtTime(0, 23, 59), true, Some(1));
            var busy := Booking(4, AtTime(Monday - 1, 22, 0), AtTime(Monday, 2, 0), 4, 1);
            var db := Db([night], map[4 := busy], [Detail(4, night)]);
            var start := AtTime(Monday, 0, 30);
            && Overlaps(start, PlusHours(start, 2), busy)
            && CheckAvailabilityByDateTime(db, start, 2, 1) == [night]
  {
    var night := Worker(1, "", 0, AtTime(0, 23, 59), true, Some(1));
    var busy := Booking(4, AtTime(Monday - 1, 22, 0), AtTime(Monday, 2, 0), 4, 1);
    var db := Db([night], map[4 := busy], [Detail(4, night)]);
    var w := TimedWindow(AtTime(Monday, 0, 30), 2);
    MondayTimes();
    assert w.end == AtTime(Monday, 2, 30);
    assert FindByWorkerIdAndBookingStartTimeBetween(db.bookings, db.details, 1, w.from, w.to) == [];
    assert IsAvailable(db, night, w);
  }

  /** Vehicle 1 carries workers 1 and 2, vehicle 2 carries worker 3; all are
      free. In directory order 1, 2, 3 a two-worker request gets workers 1
      and 2. */
  lemma SameVehicleCrewChosen()
    ensures GetAssignedWorkers(Fresh([Staff(1, 1), Staff(2, 1), Staff(3, 2)]), AtTime(Monday, 10, 0), 2, 2)
            == Ok([Staff(1, 1), Staff(2, 1)])
  {
    var workers := [Staff(1, 1), Staff(2, 1), Staff(3, 2)];
    MondayTimes();
    assert PlusHours(AtTime(Monday, 10, 0), 2) == AtTime(Monday, 12, 0);
    FreeWhenNothingBooked(Fresh(workers), workers, AtTime(Monday, 10, 0), 2);
    var available := CheckAvailabilityByDateTime(Fresh(workers), AtTime(Monday, 10, 0), 2, 2);
    assert available == workers[..2] == [Staff(1, 1), Staff(2, 1)];
    assert forall i :: 0 <= i < 2 ==> available[i].vehicle == available[0].vehicle;
    AssignmentOutcome(Fresh(workers), AtTime(Monday, 10, 0), 2, 2);
  }

  /** The resolver cuts its answer to the crew size before the vehicle filter
      runs: in directory order 1, 3, 2 it answers workers 1 and 3, which
      share no vehicle, so the request fails with the vehicle-capacity error
      although workers 1 and 2 of vehicle 1 are both free. */
  lemma TruncationBeforeVehicleFilter()
    ensures var workers := [Staff(1, 1), Staff(3, 2), Staff(2, 1)];
            var start := AtTime(Monday, 10, 0);
            && Qualifying(Fresh(workers), workers, TimedWindow(start, 2)) == workers
            && GetAssignedWorkers(Fresh(workers), start, 2, 2) == Err(NotEnoughSameVehicle)
  {
    var workers := [Staff(1, 1), Staff(3, 2), Staff(2, 1)];
    MondayTimes();
    assert PlusHours(AtTime(Monday, 10, 0), 2) == AtTime(Monday, 12, 0);
    FreeWhenNothingBooked(Fresh(workers), workers, AtTime(Monday, 10, 0), 2);
    var available := CheckAvailabilityByDateTime(Fresh(workers), AtTime(Monday, 10, 0), 2, 2);
    assert available == workers[..2];
    assert available[1].vehicle != available[0].vehicle;
    AssignmentOutcome(Fresh(workers), AtTime(Monday, 10, 0), 2, 2);
  }

  /** An update adds the new crew's records next to the ones the booking
      already has. Worker 1 (vehicle 1) is booked 10:00-12:00; moving the
      booking to 11:00-13:00 makes worker 1 clash with the booking's own old
      times, so worker 3 of vehicle 2 is assigned, and the booking is left
      with one record on each vehicle. */
  method UpdateMixesVehicles() returns (details: seq<Detail>)
    ensures details == [Detail(1, Staff(1, 1)), Detail(1, Staff(3, 2))]
    ensures !SameVehicleCrews(details)
  {
    var store := new Store([Staff(1, 1), Staff(3, 2)]);
    MondayTimes();
    assert PlusHours(AtTime(Monday, 10, 0), 2) == AtTime(Monday, 12, 0);
    assert PlusHours(AtTime(Monday, 11, 0), 2) == AtTime(Monday, 13, 0);

    var request := Booking(0, AtTime(Monday, 10, 0), 0, 2, 1);
    var before := store.Snapshot();
    FreeWhenNothingBooked(before, before.workers, request.start, 2);
    assert CheckAvailabilityByDateTime(before, request.start, 2, 1) == [Staff(1, 1)];
    assert PlanCreate(before, request) == Ok([Staff(1, 1)]);
    var created := CreateBooking(store, request);
    var booked := Booking(1, AtTime(Monday, 10, 0), AtTime(Monday, 12, 0), 2, 1);
    assert store.bookings == map[1 := booked];
    assert store.details == [Detail(1, Staff(1, 1))];

    var move := Booking(0, AtTime(Monday, 11, 0), 0, 2, 1);
    var db := store.Snapshot();
    var w := TimedWindow(move.start, 2);
    assert booked in FindByWorkerIdAndBookingStartTimeBetween(db.bookings, db.details, 1, w.from, w.to);
    assert !IsAvailable(db, Staff(1, 1), w);
    assert FindByWorkerIdAndBookingStartTimeBetween(db.bookings, db.details, 3, w.from, w.to) == [];
    assert IsAvailable(db, Staff(3, 2), w);
    assert db.workers[1..] == [Staff(3, 2)];
    assert Qualifying(db, db.workers, w) == [Staff(3, 2)];
    assert PlanUpdate(db, 1, move) == Ok([Staff(3, 2)]);
    var moved := UpdateBooking(store, 1, move);
    details := store.details;
    assert details[0].bookingId == details[1].bookingId;
    assert details[0].worker.vehicle != details[1].worker.vehicle;
  }
}
