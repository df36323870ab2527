/** The entities of the booking service and the store that holds them: the
    worker directory, the booking table and the occupancy ("booking detail")
    table, with the one derived query the availability check runs. */
module Domain {
  import opened Time

  datatype Option<T> = None | Some(value: T)

  datatype Result<T> = Ok(value: T) | Err(error: Error)

  /** The failures the core raises, one per distinct exception message. */
  datatype Error =
    | InvalidDuration          // "Invalid booking duration. Must be 2 or 4 hours."
    | InvalidWorkersRequired   // "Invalid number of workers required"
    | BookingNotFound          // "Booking not found!"
    | NotEnoughForTime         // "Not enough workers available for the provided time"
    | NotEnoughSameVehicle     // "Not enough workers available from the same vehicle"
    | MissingVehicle           // a worker without a vehicle is dereferenced

  /** A worker. The "HH:MM-HH:MM" working-hours string is held already parsed,
      as the local times (minutes after midnight) of its two ends. */
  datatype Worker = Worker(
    id: int,
    name: string,
    startWork: int,
    endWork: int,
    workingOnFridays: bool,
    vehicle: Option<int>)   // the vehicle's id, if the worker has one

  /** A worker as the no-argument constructor leaves it: hours 08:00-22:00 and
      not rostered on Fridays. */
  function DefaultWorker(id: int, name: string, vehicle: Option<int>): Worker
  {
    Worker(id, name, AtTime(0, 8, 0), AtTime(0, 22, 0), false, vehicle)
  }

  /** A booking: start and end instants, duration in hours, crew size. */
  datatype Booking = Booking(id: int, start: int, end: int, duration: int, requiredWorkers: int)

  /** An occupancy record: one worker committed to one booking. It refers to
      the booking by id, so it always sees the booking's current times. */
  datatype Detail = Detail(bookingId: int, worker: Worker)

  /** What the services read: the three tables at one moment. */
  datatype Db = Db(workers: seq<Worker>, bookings: map<int, Booking>, details: seq<Detail>)

  /** The bookings of the occupancy records of worker `workerId` whose booking
      starts in the inclusive range [from, to]
      (`findByWorkerIdAndBookingStartTimeBetween`). A record whose booking is
      missing joins with nothing. */
  function FindByWorkerIdAndBookingStartTimeBetween(
    bookings: map<int, Booking>, details: seq<Detail>, workerId: int, from: int, to: int): (r: seq<Booking>)
    ensures forall i :: 0 <= i < |r| ==> from <= r[i].start <= to
    ensures forall j :: 0 <= j < |details| ==>
              (details[j].worker.id == workerId && details[j].bookingId in bookings
               && from <= bookings[details[j].bookingId].start <= to
               ==> bookings[details[j].bookingId] in r)
    ensures forall b :: b in r ==>
              exists j :: (0 <= j < |details| && details[j].worker.id == workerId
                           && details[j].bookingId in bookings && bookings[details[j].bookingId] == b)
    decreases |details|
  {
    if details == [] then []
    else
      var d := details[0];
      var rest := FindByWorkerIdAndBookingStartTimeBetween(bookings, details[1..], workerId, from, to);
      if d.worker.id == workerId && d.bookingId in bookings && from <= bookings[d.bookingId].start <= to
      then [bookings[d.bookingId]] + rest
      else rest
  }

  /** One occupancy record per listed worker, in list order, all for `bookingId`. */
  function OccupancyRecords(workers: seq<Worker>, bookingId: int): (r: seq<Detail>)
  {
    seq(|workers|, i requires 0 <= i < |workers| => Detail(bookingId, workers[i]))
  }

  /** Every booking's occupancy records name workers of one single vehicle. */
  ghost predicate SameVehicleCrews(details: seq<Detail>)
  {
    forall i, j :: 0 <= i < |details| && 0 <= j < |details| && details[i].bookingId == details[j].bookingId
      ==> details[i].worker.vehicle == details[j].worker.vehicle
  }

  /** The worker, booking and occupancy repositories. Saving a new booking
      draws its id from `nextId`, as the database's identity column does. */
  class Store {
    var workers: seq<Worker>
    var bookings: map<int, Booking>
    var details: seq<Detail>
    var nextId: int

    /** Bookings are stored under their own ids, every id drawn so far is
        below `nextId`, and every occupancy record refers to a stored booking. */
    ghost predicate Valid()
      reads this
    {
      && (forall id :: id in bookings ==> bookings[id].id == id && id < nextId)
      && (forall i :: 0 <= i < |details| ==> details[i].bookingId in bookings)
    }

    function Snapshot(): Db
      reads this
    {
      Db(workers, bookings, details)
    }

    constructor (workers: seq<Worker>)
      ensures Valid()
      ensures this.workers == workers && bookings == map[] && details == [] && nextId == 1
    {
      this.workers := workers;
      bookings := map[];
      details := [];
      nextId := 1;
    }

    /** `bookingRepository.save` of a booking without an id: stores it under a
        fresh id and returns the stored copy. */
    method InsertBooking(b: Booking) returns (saved: Booking)
      requires Valid()
      modifies this`bookings, this`nextId
      ensures Valid()
      ensures saved == b.(id := old(nextId)) && old(nextId) !in old(bookings)
      ensures bookings == old(bookings)[saved.id := saved] && nextId == old(nextId) + 1
    {
      saved := b.(id := nextId);
      bookings := bookings[saved.id := saved];
      nextId := nextId + 1;
    }

    /** `bookingRepository.save` of a booking already stored under its id. */
    method SaveBooking(b: Booking) returns (saved: Booking)
      requires Valid() && b.id in bookings
      modifies this`bookings
      ensures Valid()
      ensures saved == b && bookings == old(bookings)[b.id := b]
    {
      saved := b;
      bookings := bookings[b.id := b];
    }

    /** `bookingDetailRepository.save` of a new occupancy record. */
    method SaveDetail(d: Detail)
      modifies this`details
      ensures details == old(details) + [d]
    {
      details := details + [d];
    }
  }
}
