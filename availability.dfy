/** The availability resolver (`CheckAvailabilityService`): which workers of
    the directory are free for a window, first match first, and the recording
    of occupancy once a crew is chosen. */
module Availability {
  import opened Time
  import opened Domain

  /** Minutes of rest kept free before and after every existing booking. */
  const RestBuffer := 30

  /** A requested window [start, end] and the inclusive range of booking start
      times searched for conflicts. */
  datatype Window = Window(start: int, end: int, from: int, to: int)

  /** Date mode: the date's 08:00-22:00, searched over that same range. */
  function DateWindow(date: int): Window
  {
    var startOfDay := AtTime(date, 8, 0);
    var endOfDay := AtTime(date, 22, 0);
    Window(startOfDay, endOfDay, startOfDay, endOfDay)
  }

  /** Timed mode: [start, start + duration hours], searched from 00:00 of the
      start's date to 23:59 of the end's date. */
  function TimedWindow(start: int, duration: int): Window
  {
    var end := PlusHours(start, duration);
    Window(start, end, AtStartOfDay(Day(start)), AtTime(Day(end), 23, 59))
  }

  /** The window meets `b` padded by the rest buffer on both sides (strictly). */
  predicate Overlaps(start: int, end: int, b: Booking)
  {
    start < b.end + RestBuffer && end > b.start - RestBuffer
  }

  predicate NoConflict(start: int, end: int, bookings: seq<Booking>)
  {
    forall i :: 0 <= i < |bookings| ==> !Overlaps(start, end, bookings[i])
  }

  /** `checkAvailability`: scans the fetched bookings and gives up at the
      first one that the window meets once padded by the rest buffer. */
  method CheckAvailability(start: int, end: int, bookings: seq<Booking>) returns (ok: bool)
    ensures ok <==> !exists i :: 0 <= i < |bookings| && Overlaps(start, end, bookings[i])
  {
    for i := 0 to |bookings|
      invariant forall j :: 0 <= j < i ==> !Overlaps(start, end, bookings[j])
    {
      if start < bookings[i].end + RestBuffer && end > bookings[i].start - RestBuffer {
        return false;
      }
    }
    return true;
  }

  /** `checkIfOutsideWorkingHours`: the worker is off because the start falls
      on a Friday they are not rostered for, or the window's local times are
      not within the working hours. Only local times are compared, so a
      window that runs past midnight is judged by its end's local time. */
  predicate CheckIfOutsideWorkingHours(worker: Worker, start: int, end: int)
  {
    || (!worker.workingOnFridays && DayOfWeek(Day(start)) == Friday)
    || !(worker.startWork <= Clock(start) && Clock(end) <= worker.endWork)
  }

  /** `isAvailableOnDate` / `isAvailableOnDataTime`: inside working hours and
      no conflict with a booking fetched over the window's search range. */
  predicate IsAvailable(db: Db, worker: Worker, w: Window)
  {
    && !CheckIfOutsideWorkingHours(worker, w.start, w.end)
    && NoConflict(w.start, w.end,
         FindByWorkerIdAndBookingStartTimeBetween(db.bookings, db.details, worker.id, w.from, w.to))
  }

  /** The workers of `workers` available for `w`, in their order (the stream's
      `filter`). */
  function Qualifying(db: Db, workers: seq<Worker>, w: Window): (r: seq<Worker>)
    ensures |r| <= |workers|
    ensures forall i :: 0 <= i < |r| ==> IsAvailable(db, r[i], w) && r[i] in workers
    ensures forall j :: 0 <= j < |workers| && IsAvailable(db, workers[j], w) ==> workers[j] in r
    decreases |workers|
  {
    if workers == [] then []
    else
      var rest := Qualifying(db, workers[1..], w);
      assert forall j :: 1 <= j < |workers| ==> workers[j] == workers[1..][j - 1];
      if IsAvailable(db, workers[0], w) then [workers[0]] + rest else rest
  }

  /** The first `n` elements, or all of them when there are fewer (`limit`). */
  function Take<T>(s: seq<T>, n: nat): (r: seq<T>)
    ensures |r| == if n < |s| then n else |s|
    ensures r == s[..|r|]
  {
    if n < |s| then s[..n] else s
  }

  /** `a` is `b` with some elements left out, order kept. */
  predicate IsSubsequence<T(==)>(a: seq<T>, b: seq<T>)
    decreases |b|
  {
    a == [] || (b != [] && ((a[0] == b[0] && IsSubsequence(a[1..], b[1..])) || IsSubsequence(a, b[1..])))
  }

  /** The directory walked in order, available workers kept, cut to `n`. */
  function Resolve(db: Db, w: Window, n: nat): (r: seq<Worker>)
    ensures |r| <= n
    ensures forall i :: 0 <= i < |r| ==> IsAvailable(db, r[i], w) && r[i] in db.workers
    ensures |Qualifying(db, db.workers, w)| >= n ==> |r| == n
    ensures db.workers == [] ==> r == []
  {
    Take(Qualifying(db, db.workers, w), n)
  }

  /** `checkAvailabilityForDate`: every worker returned is rostered for the
      date's weekday and works at least 08:00-22:00. */
  function CheckAvailabilityForDate(db: Db, date: int, workersRequired: nat): (r: seq<Worker>)
    ensures |r| <= workersRequired
    ensures forall i :: 0 <= i < |r| ==>
              && r[i] in db.workers
              && (r[i].workingOnFridays || DayOfWeek(date) != Friday)
              && r[i].startWork <= AtTime(0, 8, 0) && AtTime(0, 22, 0) <= r[i].endWork
              && NoConflict(AtTime(date, 8, 0), AtTime(date, 22, 0), FindByWorkerIdAndBookingStartTimeBetween(
                   db.bookings, db.details, r[i].id, AtTime(date, 8, 0), AtTime(date, 22, 0)))
  {
    DateWindowShape(date);
    Resolve(db, DateWindow(date), workersRequired)
  }

  /** `checkAvailabilityByDateTime`: every worker returned is rostered for the
      start's weekday, its hours contain the local times of start and end, and
      none of its bookings fetched for the start's and end's dates meets the
      padded window. */
  function CheckAvailabilityByDateTime(db: Db, start: int, duration: int, workersRequired: nat): (r: seq<Worker>)
    ensures |r| <= workersRequired
    ensures forall i :: 0 <= i < |r| ==>
              var end := PlusHours(start, duration);
              && r[i] in db.workers
              && (r[i].workingOnFridays || DayOfWeek(Day(start)) != Friday)
              && r[i].startWork <= Clock(start) && Clock(end) <= r[i].endWork
              && NoConflict(start, end, FindByWorkerIdAndBookingStartTimeBetween(
                   db.bookings, db.details, r[i].id, AtStartOfDay(Day(start)), AtTime(Day(end), 23, 59)))
  {
    Resolve(db, TimedWindow(start, duration), workersRequired)
  }

  /** `updateWorkersAvailability`: saves one occupancy record per listed
      worker, in list order, each for `booking`. */
  method UpdateWorkersAvailability(store: Store, workers: seq<Worker>, booking: Booking)
    modifies store`details
    ensures store.details == old(store.details) + OccupancyRecords(workers, booking.id)
    ensures old(store.Valid()) && booking.id in store.bookings ==> store.Valid()
  {
    for i := 0 to |workers|
      invariant store.details == old(store.details) + OccupancyRecords(workers[..i], booking.id)
    {
      assert OccupancyRecords(workers[..i + 1], booking.id)
          == OccupancyRecords(workers[..i], booking.id) + [Detail(booking.id, workers[i])];
      store.SaveDetail(Detail(booking.id, workers[i]));
    }
    assert workers[..|workers|] == workers;
  }

  // ----- properties of the resolver -----

  /** The date window is 08:00-22:00 of the date and is its own search range. */
  lemma DateWindowShape(date: int)
    ensures var w := DateWindow(date);
            && Day(w.start) == date && Day(w.end) == date
            && Clock(w.start) == AtTime(0, 8, 0) && Clock(w.end) == AtTime(0, 22, 0)
            && w.from == w.start && w.to == w.end
  {
    DayClockOfAtTime(date, AtTime(0, 8, 0));
    DayClockOfAtTime(date, AtTime(0, 22, 0));
  }

  /** The timed window ends `duration` hours after its start; its search range
      starts at midnight of the start's date and ends at 23:59 of the end's
      date, so it covers the window but nothing that starts on an earlier
      date. */
  lemma TimedWindowShape(start: int, duration: int)
    ensures var w := TimedWindow(start, duration);
            && w.end == start + duration * MinutesPerHour
            && w.from <= start < w.from + MinutesPerDay && Clock(w.from) == 0
            && w.end <= w.to && Day(w.to) == Day(w.end) && Clock(w.to) == AtTime(0, 23, 59)
  {
    var w := TimedWindow(start, duration);
    DayClockSplit(start);
    DayClockSplit(w.end);
    DayClockOfAtTime(Day(start), 0);
    DayClockOfAtTime(Day(w.end), AtTime(0, 23, 59));
  }

  /** Prefixes of a subsequence are subsequences. */
  lemma {:induction false} PrefixIsSubsequence<T>(a: seq<T>, b: seq<T>, m: nat)
    requires IsSubsequence(a, b) && m <= |a|
    ensures IsSubsequence(a[..m], b)
    decreases |b|
  {
    if m > 0 {
      if a[0] == b[0] && IsSubsequence(a[1..], b[1..]) {
        PrefixIsSubsequence(a[1..], b[1..], m - 1);
        assert a[..m][1..] == a[1..][..m - 1];
      } else {
        PrefixIsSubsequence(a, b[1..], m);
      }
    }
  }

  lemma {:induction false} QualifyingIsSubsequence(db: Db, workers: seq<Worker>, w: Window)
    ensures IsSubsequence(Qualifying(db, workers, w), workers)
    decreases |workers|
  {
    if workers != [] {
      QualifyingIsSubsequence(db, workers[1..], w);
      var r := Qualifying(db, workers, w);
      if IsAvailable(db, workers[0], w) {
        assert r[0] == workers[0] && r[1..] == Qualifying(db, workers[1..], w);
      }
    }
  }

  /** The resolver's answer is the directory with some workers left out, in
      directory order. */
  lemma ResolveIsSubsequence(db: Db, w: Window, n: nat)
    ensures IsSubsequence(Resolve(db, w, n), db.workers)
  {
    var q := Qualifying(db, db.workers, w);
    QualifyingIsSubsequence(db, db.workers, w);
    PrefixIsSubsequence(q, db.workers, |Resolve(db, w, n)|);
  }

  /** First match: the answer is exactly the available workers of some
      directory prefix, and that prefix is the whole directory unless the
      answer already holds `n` workers. */
  lemma {:induction false} TakeQualifyingIsPrefixFilter(db: Db, workers: seq<Worker>, w: Window, n: nat)
    returns (k: nat)
    ensures k <= |workers|
    ensures Take(Qualifying(db, workers, w), n) == Qualifying(db, workers[..k], w)
    ensures |Take(Qualifying(db, workers, w), n)| == n || k == |workers|
    decreases |workers|
  {
    if workers == [] || n == 0 {
      k := 0;
      assert workers[..0] == [];
    } else {
      var h := workers[0];
      var m := if IsAvailable(db, h, w) then n - 1 else n;
      var k' := TakeQualifyingIsPrefixFilter(db, workers[1..], w, m);
      k := k' + 1;
      assert workers[..k][1..] == workers[1..][..k'];
      assert workers[..k][0] == h;
      var q' := Qualifying(db, workers[1..], w);
      if IsAvailable(db, h, w) {
        assert Qualifying(db, workers, w) == [h] + q';
        assert Take([h] + q', n) == [h] + Take(q', m);
      }
    }
  }

  lemma FirstQualifying(db: Db, w: Window, n: nat) returns (k: nat)
    ensures k <= |db.workers|
    ensures Resolve(db, w, n) == Qualifying(db, db.workers[..k], w)
    ensures |Resolve(db, w, n)| == n || k == |db.workers|
  {
    k := TakeQualifyingIsPrefixFilter(db, db.workers, w, n);
  }

  /** A worker not rostered on Fridays is never returned for a Friday, in
      either mode. */
  lemma FridayExcludesNonRostered(db: Db, date: int, start: int, duration: int, n: nat)
    ensures DayOfWeek(date) == Friday ==>
              forall x :: x in CheckAvailabilityForDate(db, date, n) ==> x.workingOnFridays
    ensures DayOfWeek(Day(start)) == Friday ==>
              forall x :: x in CheckAvailabilityByDateTime(db, start, duration, n) ==> x.workingOnFridays
  {
  }

  /** Nobody is returned for a window starting before every worker's hours
      begin (a 06:00 start against 08:00-22:00 hours gives nothing). */
  lemma {:induction false} NoneQualifyBeforeHours(db: Db, workers: seq<Worker>, w: Window)
    requires forall i :: 0 <= i < |workers| ==> Clock(w.start) < workers[i].startWork
    ensures Qualifying(db, workers, w) == []
    decreases |workers|
  {
    if workers != [] {
      NoneQualifyBeforeHours(db, workers[1..], w);
    }
  }

  lemma NoneBeforeHours(db: Db, start: int, duration: int, n: nat)
    requires forall i :: 0 <= i < |db.workers| ==> Clock(start) < db.workers[i].startWork
    ensures CheckAvailabilityByDateTime(db, start, duration, n) == []
  {
    NoneQualifyBeforeHours(db, db.workers, TimedWindow(start, duration));
  }

  /** A worker with the default hours fits the date window exactly, on every
      day but Friday. */
  lemma DefaultWorkerFitsDateWindow(id: int, name: string, vehicle: Option<int>, date: int)
    ensures var w := DateWindow(date);
            (!CheckIfOutsideWorkingHours(DefaultWorker(id, name, vehicle), w.start, w.end)
             <==> DayOfWeek(date) != Friday)
  {
    DateWindowShape(date);
  }

  /** Only local times are compared: a 21:00 start of four hours ends at 01:00
      the next day and still counts as inside 08:00-22:00 hours. */
  lemma OvernightWindowPassesHours(worker: Worker, date: int)
    requires worker.startWork <= AtTime(0, 21, 0) && AtTime(0, 1, 0) <= worker.endWork
    requires worker.workingOnFridays || DayOfWeek(date) != Friday
    ensures var start := AtTime(date, 21, 0);
            && Day(PlusHours(start, 4)) == date + 1
            && !CheckIfOutsideWorkingHours(worker, start, PlusHours(start, 4))
  {
    var start := AtTime(date, 21, 0);
    DayClockOfAtTime(date, AtTime(0, 21, 0));
    assert PlusHours(start, 4) == AtTime(date + 1, 0, AtTime(0, 1, 0));
    DayClockOfAtTime(date + 1, AtTime(0, 1, 0));
  }

  /** On a window that stays within one date, comparing the two ends' local
      times is the same as asking that every minute of the window falls in
      the working hours; the rest-day rule looks at the start's date. */
  lemma InsideHoursMeansEveryMinute(worker: Worker, start: int, end: int)
    requires start <= end && Day(start) == Day(end)
    ensures !CheckIfOutsideWorkingHours(worker, start, end) <==>
              && (worker.workingOnFridays || DayOfWeek(Day(start)) != Friday)
              && forall t :: start <= t <= end ==> worker.startWork <= Clock(t) <= worker.endWork
  {
    DayClockSplit(start);
    DayClockSplit(end);
    forall t | start <= t <= end
      ensures Clock(start) <= Clock(t) <= Clock(end)
    {
      DayClockSplit(t);
      assert Day(t) == Day(start) by {
        assert Day(start) <= Day(t) <= Day(end);
      }
    }
  }

  /** A worker is available exactly when the window is inside their hours and
      no occupancy record of theirs names a stored booking that starts within
      the search range and meets the padded window: the repository query
      loses and invents nothing. */
  lemma AvailableIffNoRecordedConflict(db: Db, worker: Worker, w: Window)
    ensures IsAvailable(db, worker, w) <==>
              && !CheckIfOutsideWorkingHours(worker, w.start, w.end)
              && forall j :: 0 <= j < |db.details| && db.details[j].worker.id == worker.id
                   && db.details[j].bookingId in db.bookings
                   && w.from <= db.bookings[db.details[j].bookingId].start <= w.to
                   ==> !Overlaps(w.start, w.end, db.bookings[db.details[j].bookingId])
  {
    var fetched := FindByWorkerIdAndBookingStartTimeBetween(db.bookings, db.details, worker.id, w.from, w.to);
    if NoConflict(w.start, w.end, fetched) {
      forall j | 0 <= j < |db.details| && db.details[j].worker.id == worker.id
        && db.details[j].bookingId in db.bookings
        && w.from <= db.bookings[db.details[j].bookingId].start <= w.to
        ensures !Overlaps(w.start, w.end, db.bookings[db.details[j].bookingId])
      {
        var b := db.bookings[db.details[j].bookingId];
        assert b in fetched;
        var k :| 0 <= k < |fetched| && fetched[k] == b;
      }
    }
    if forall j :: 0 <= j < |db.details| && db.details[j].worker.id == worker.id
         && db.details[j].bookingId in db.bookings
         && w.from <= db.bookings[db.details[j].bookingId].start <= w.to
         ==> !Overlaps(w.start, w.end, db.bookings[db.details[j].bookingId])
    {
      forall i | 0 <= i < |fetched|
        ensures !Overlaps(w.start, w.end, fetched[i])
      {
        assert fetched[i] in fetched;
        var j :| && 0 <= j < |db.details| && db.details[j].worker.id == worker.id
                 && db.details[j].bookingId in db.bookings && db.bookings[db.details[j].bookingId] == fetched[i];
      }
    }
  }
}
