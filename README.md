# Booking service: availability resolver and crew coordinator

This project models the core of a booking service for cleaning crews, in Dafny. It covers two services.

- **Availability resolver** (`CheckAvailabilityService`). It walks the worker directory in order. It drops workers who are off that weekday, whose working hours do not cover the window, or whose bookings meet the window once each booking is padded by 30 minutes of rest. It keeps the first `workersRequired` survivors. It also records occupancy: one "booking detail" per assigned worker.
- **Coordinator** (`BookingService`). It validates a request: a duration of 2 or 4 hours and a crew of 1 to 3. It derives the end time and asks the resolver for a crew. It anchors on the first worker's vehicle and keeps only workers of that vehicle. Then it saves the booking and one occupancy record per crew member. It fails with an invalid-input, not-found, time-capacity or vehicle-capacity error, and every failure comes before any write.

Files:

- `time.dfy`: instants as integer minutes since 1970-01-01T00:00. The date is `t / 1440` and the local time is `t % 1440`. The ISO weekday is `(date + 3) % 7 + 1`, as in java.time.
- `domain.dfy`: workers, bookings, occupancy records and the error kinds. It also holds the repository query (an inclusive range on the booking's start time) and a `Store` class with the three tables.
- `availability.dfy`: the resolver, the conflict scan and the occupancy writer, with their lemmas.
- `coordinator.dfy`: validation, the same-vehicle filter, crew assignment, and `CreateBooking` / `UpdateBooking` as methods on the store.
- `scenarios.dfy`: concrete cases from the service's tests, and consequences of the code as written.

An occupancy record refers to its booking by id. When a booking is updated in place, its old records therefore see the new times, as the JPA entities do.

The model follows the code as written, including these behaviours:

- **Working hours compare local times only** (`CheckAvailabilityService.java:121`). A 21:00 start of 4 hours ends at 01:00 and passes 08:00-22:00 hours (`OvernightWindowPassesHours`).
- **The timed search range starts at midnight of the start's date** (`CheckAvailabilityService.java:95`). A booking that began the evening before is never fetched, even when it overlaps the window (`PreviousEveningBookingMissed`).
- **The resolver truncates to the crew size before the vehicle filter.** A request can fail on vehicles although a same-vehicle crew is free (`TruncationBeforeVehicleFilter`). On success, the crew is exactly the resolver's answer (`GetAssignedWorkers`).
- **`updateBooking` adds records and never removes the booking's old ones** (`BookingService.java:59`). An update can leave one booking with workers of two vehicles (`UpdateMixesVehicles`). The one-vehicle-per-booking invariant holds only for creation (`CreateBooking`, `AddCrewKeepsSameVehicleCrews`).
- The crew size must lie in 1..3 (`BookingService.java:89`).

## Model

| member | source | states |
|---|---|---|
| `Time.DayOfWeek` | src/main/java/com/justlife/bookingservice/service/impl/CheckAvailabilityService.java:114 | the ISO weekday number of a date lies in 1..7 |
| `Time.DayOfWeekSuccessor` | src/main/java/com/justlife/bookingservice/service/impl/CheckAvailabilityService.java:114 | 1970-01-01 is a Thursday (4), and each date's weekday is the previous one's plus one, Sunday (7) wrapping to Monday (1) |
| `Time.FridaysAreWeeksApart` | src/main/java/com/justlife/bookingservice/service/impl/CheckAvailabilityService.java:114 | a date is a Friday (5) exactly when it is a whole number of weeks from 1970-01-02 |
| `Domain.FindByWorkerIdAndBookingStartTimeBetween` | src/main/java/com/justlife/bookingservice/repository/BookingDetailRepository.java:11 | every booking returned starts inside the inclusive range and belongs to a record of that worker; every such record's booking is returned |
| `Domain.Store.InsertBooking` | src/main/java/com/justlife/bookingservice/service/impl/BookingService.java:35 | saving a new booking stores it under a fresh id, with nothing else changed |
| `Domain.Store.SaveBooking` | src/main/java/com/justlife/bookingservice/service/impl/BookingService.java:57 | saving an existing booking overwrites the entry under its id |
| `Domain.Store.SaveDetail` | src/main/java/com/justlife/bookingservice/service/impl/CheckAvailabilityService.java:138 | saving an occupancy record appends it to the table |
| `Availability.CheckAvailability` | src/main/java/com/justlife/bookingservice/service/impl/CheckAvailabilityService.java:100-111 | the loop with early return answers true exactly when no fetched booking meets the window padded by 30 minutes on both sides (start < bookingEnd + 30 and end > bookingStart - 30) |
| `Availability.Qualifying` | src/main/java/com/justlife/bookingservice/service/impl/CheckAvailabilityService.java:58-59 | the filter keeps only available directory workers, and keeps every available one |
| `Availability.Resolve` | src/main/java/com/justlife/bookingservice/service/impl/CheckAvailabilityService.java:58-61 | at most `n` workers, all available and from the directory; exactly `n` when at least `n` qualify; empty directory gives empty answer |
| `Availability.CheckAvailabilityForDate` | src/main/java/com/justlife/bookingservice/service/impl/CheckAvailabilityService.java:33-43 | date mode: at most `n` workers, each rostered for the date's weekday, working at least 08:00-22:00, and with no booking fetched for 08:00-22:00 of the date meeting that window padded by 30 minutes |
| `Availability.CheckAvailabilityByDateTime` | src/main/java/com/justlife/bookingservice/service/impl/CheckAvailabilityService.java:54-62 | timed mode: at most `n` workers, each rostered for the start's weekday, with hours covering the local start and end times, and with no conflict among bookings fetched from the start date's 00:00 to the end date's 23:59 |
| `Availability.UpdateWorkersAvailability` | src/main/java/com/justlife/bookingservice/service/impl/CheckAvailabilityService.java:133-140 | appends exactly one record (booking, worker) per listed worker, in list order; nothing else changes; an empty list appends nothing |
| `Availability.DateWindowShape` | src/main/java/com/justlife/bookingservice/service/impl/CheckAvailabilityService.java:72-80 | the date window is 08:00-22:00 of that date, and it is also the search range |
| `Availability.TimedWindowShape` | src/main/java/com/justlife/bookingservice/service/impl/CheckAvailabilityService.java:90-98 | the timed window ends `duration` hours after its start; its search range runs from midnight of the start date to 23:59 of the end date and covers the window |
| `Availability.ResolveIsSubsequence` | src/main/java/com/justlife/bookingservice/service/impl/CheckAvailabilityService.java:58-61 | the answer is the directory with some workers left out, order kept |
| `Availability.FirstQualifying` | src/main/java/com/justlife/bookingservice/service/impl/CheckAvailabilityService.java:39-42 | the answer is exactly the available workers of a directory prefix; that prefix is the whole directory unless the answer is already full (first match) |
| `Availability.FridayExcludesNonRostered` | src/main/java/com/justlife/bookingservice/service/impl/CheckAvailabilityService.java:113-117 | in both modes, a worker not rostered on Fridays is never returned when the start falls on ISO weekday 5 |
| `Availability.NoneBeforeHours` | src/main/java/com/justlife/bookingservice/service/impl/CheckAvailabilityService.java:118-123 | a window starting before every worker's hours begin gets an empty answer |
| `Availability.DefaultWorkerFitsDateWindow` | src/main/java/com/justlife/bookingservice/model/Worker.java:31-33 | a worker with the default hours and roster passes the date window's hours check exactly on days other than Friday |
| `Availability.InsideHoursMeansEveryMinute` | src/main/java/com/justlife/bookingservice/service/impl/CheckAvailabilityService.java:113-124 | `CheckIfOutsideWorkingHours`: on a window within one date, the worker is inside hours exactly when the start's date is not an unrostered Friday and every minute of the window falls within the working hours |
| `Availability.AvailableIffNoRecordedConflict` | src/main/java/com/justlife/bookingservice/service/impl/CheckAvailabilityService.java:72-98 | `IsAvailable`: a worker is available exactly when the window is inside their hours and none of their occupancy records names a stored booking that starts within the search range and meets the window padded by 30 minutes |
| `Availability.OvernightWindowPassesHours` | src/main/java/com/justlife/bookingservice/service/impl/CheckAvailabilityService.java:121 | a 21:00 start of 4 hours ends on the next date, yet passes the hours check of a worker working 21:00 and 01:00 local times |
| `Coordinator.ValidateBooking` | src/main/java/com/justlife/bookingservice/service/impl/BookingService.java:85-92 | passes exactly for duration 2 or 4 and crew 1..3; a bad duration is reported first, a bad crew size only when the duration is valid |
| `Coordinator.OnVehicle` | src/main/java/com/justlife/bookingservice/service/impl/BookingService.java:96 | the reference filter: it keeps only workers of the vehicle and keeps every one of them |
| `Coordinator.SameVehicle` | src/main/java/com/justlife/bookingservice/service/impl/BookingService.java:95-98 | the lazy filter-and-limit keeps at most `n` workers, all of the vehicle, order kept; its only failure is a missing vehicle |
| `Coordinator.SameVehicleWhenAllHaveVehicles` | src/main/java/com/justlife/bookingservice/service/impl/BookingService.java:95-98 | when every worker has a vehicle, the lazy filter returns the first `n` workers of the reference filter |
| `Coordinator.SameVehicleVisitsAll` | src/main/java/com/justlife/bookingservice/service/impl/BookingService.java:95-98 | a list no longer than the limit is walked to its end, so the filter fails exactly when some worker lacks a vehicle |
| `Coordinator.OnVehicleKeepsAll` | src/main/java/com/justlife/bookingservice/service/impl/BookingService.java:96 | the reference filter keeps the whole list exactly when all its workers are on the vehicle |
| `Coordinator.FilterWorkersByVehicle` | src/main/java/com/justlife/bookingservice/service/impl/BookingService.java:94-105 | on success, exactly `n` workers of the vehicle, order kept; otherwise the vehicle-capacity error or a missing vehicle; when every worker has a vehicle, it fails with the vehicle-capacity error exactly when fewer than `n` are on the vehicle, and otherwise returns the first `n` of them |
| `Coordinator.GetAssignedWorkers` | src/main/java/com/justlife/bookingservice/service/impl/BookingService.java:70-83 | the time-capacity error comes exactly when the resolver returns fewer than `n`; on success the crew is exactly the resolver's answer, `n` long, all on the first worker's vehicle |
| `Coordinator.AssignmentOutcome` | src/main/java/com/justlife/bookingservice/service/impl/BookingService.java:77-82 | once the resolver found `n` workers: success exactly when all share the first one's vehicle; missing-vehicle failure exactly when one has none; vehicle-capacity failure exactly when all have vehicles but not the same one |
| `Coordinator.PlanCreate` | src/main/java/com/justlife/bookingservice/service/impl/BookingService.java:30-33 | validation errors come first, before the resolver is consulted; a crew is only produced for a valid request and has the requested size |
| `Coordinator.PlanUpdate` | src/main/java/com/justlife/bookingservice/service/impl/BookingService.java:44-50 | validation first, then not-found for an unknown id, then crew assignment; a crew implies the booking exists |
| `Coordinator.CreateBooking` | src/main/java/com/justlife/bookingservice/service/impl/BookingService.java:30-40 | any error leaves the store unchanged; on success the booking is saved under a fresh id with end = start + duration hours, then one record per crew member is appended; keeps every booking's crew on one vehicle |
| `Coordinator.UpdateBooking` | src/main/java/com/justlife/bookingservice/service/impl/BookingService.java:44-62 | any error leaves the store unchanged; on success the booking keeps its id and gets the new start, end, duration and crew size; the new crew's records are appended and the old ones stay |
| `Coordinator.AddCrewKeepsSameVehicleCrews` | src/main/java/com/justlife/bookingservice/service/impl/BookingService.java:35-37 | appending a one-vehicle crew under a booking id no record uses keeps each booking's records on one vehicle |
| `Scenarios.DefaultWorkerOffOnFriday` | src/test/java/com/justlife/bookingservice/service/impl/CheckAvailabilityServiceTest.java:84-101 | a worker with the default roster is not offered on Friday 2024-01-12 in date mode |
| `Scenarios.ConflictingFirstWorkerSkipped` | src/test/java/com/justlife/bookingservice/service/impl/CheckAvailabilityServiceTest.java:125-155 | a first worker busy 09:00-11:00 is skipped for a 10:00 request, and the second worker is returned |
| `Scenarios.RestBufferBoundary` | src/main/java/com/justlife/bookingservice/service/impl/CheckAvailabilityService.java:105 | against a 10:00-12:00 booking, a 12:29 start is refused and a 12:30 start is accepted |
| `Scenarios.PreviousEveningBookingMissed` | src/main/java/com/justlife/bookingservice/service/impl/CheckAvailabilityService.java:94-95 | a 22:00-02:00 booking overlaps a 00:30-02:30 request, yet the worker is offered |
| `Scenarios.SameVehicleCrewChosen` | src/main/java/com/justlife/bookingservice/service/impl/BookingService.java:81-82 | with workers 1 and 2 on one vehicle and 3 on another, a two-worker request gets workers 1 and 2 |
| `Scenarios.TruncationBeforeVehicleFilter` | src/main/java/com/justlife/bookingservice/service/impl/CheckAvailabilityService.java:60 | in directory order 1, 3, 2, all free, a two-worker request fails with the vehicle-capacity error although workers 1 and 2 share a vehicle |
| `Scenarios.UpdateMixesVehicles` | src/main/java/com/justlife/bookingservice/service/impl/BookingService.java:59 | after moving a booking so that its worker clashes with the booking's own old times, it holds records of workers on two different vehicles |

## Left out

- HTTP controllers, request parsing and the exception-to-status handler are not modelled. They only route requests, and their range checks repeat `validateBooking`.
- The worker and vehicle CRUD services and `getAllBookingDetails` are not modelled. They pass calls straight to the repositories.
- The "HH:MM-HH:MM" working-hours string is held already parsed into two local times. A malformed string, which throws in the source, is not represented.
- The worker's `available` flag is not modelled: no logic reads it.
- Calendar conversion between year-month-day and day numbers, seconds and nanoseconds, and time zones are not modelled. Instants are whole minutes.
- `@Transactional` rollback and concurrent requests are not modelled. Every failure happens before any write, so a failed call leaves the store unchanged sequentially. A database failure partway through saving records is not represented, and neither is the race between resolving and saving.
- Availability.CheckAvailabilityForDate: the crew size is a natural number. `Stream.limit` throws for a negative size, which no caller passes.
- Availability.CheckAvailabilityByDateTime: the crew size is a natural number, for the same reason.
- Coordinator.CreateBooking: the request is a value. The source also writes the end time into the caller's request object, even when the call then fails. A request that already carries an id (a JPA merge) is not modelled: the booking is always inserted under a fresh id.
- Coordinator.GetAssignedWorkers requires a crew size of at least 1. Its callers validate 1..3 first; with 0 the source would fail on `get(0)` of an empty list.
- The repository query's result order is the table's order. SQL leaves it unspecified, and only whether a conflicting booking exists matters.
- An occupancy record holds the worker's value at assignment time. The source references the live worker row, so a later vehicle change is not reflected in `SameVehicleCrews`.
- Vehicles appear only as ids. A vehicle row whose own id is null is not represented.
