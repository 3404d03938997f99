# GoBarber appointment lifecycle, modelled in Dafny

This project models the appointment controller of the GoBarber backend. The
controller lets a client book an hour with a service provider (`store`),
cancel it (`delete`) and list their bookings (`index`).

- Instants are integer milliseconds since the epoch.
- Users are a map from id to the `provider` flag.
- The appointments table is a sequence of rows in insertion order.
- Provider notifications and queued cancellation jobs are append-only
  sequences ("outboxes").
- The current time is an explicit `now` parameter.

Files and modules:

- `dates.dfy` (`Dates`): `startOfHour`, `subHours` and `isBefore`.
- `models.dfy` (`Models`): the records, the replies (`Ok`, `Rejected` with a
  reason and its 400/401 status, or `Crash` when the handler throws), lookup
  by primary key, and the invariant `Consistent`. The invariant says four
  things: ids are serial, dates are hour boundaries, every booked provider is
  a provider, and there is at most one active appointment per provider and
  hour.
- `booking.dfy` (`Booking`): `Book`, which specifies `store` as a function
  from the backend before a request to the reply and the backend after it.
  Lemmas give each check's effect.
- `cancellation.dfy` (`Cancellation`): `Cancel`, which specifies `delete` in
  the same way, with its lemmas.
- `listing.dfy` (`Listing`): `index` as a pure query. It filters, sorts by
  date and cuts pages of 20.
- `controller.dfy` (`Controller`): the class `AppointmentController`. It holds
  the tables and outboxes as fields. Its methods `Store` and `Delete` update
  them step by step, and each is proved to produce exactly the reply and state
  that `Book` / `Cancel` give.
- `history.dfy` (`History`): runs of requests handled one after another. The
  invariant holds in every reached state. `canceled_at` goes from null to set
  and never back. A cancelled slot can be booked again. A worked scenario
  covers booking, conflict, cancellation and rebooking.

## Code versus apparent intent

In several places the controller's own comments and messages suggest one rule
while its code enforces another. The model follows the code:

- The comment at line 54 ("if the given token is a user's") and the message at
  line 62 ("booking can only be made by a user") suggest that only plain users
  may book. The test at line 59 rejects a requester only when the requester is
  not a plain user AND asks to book itself. So a provider may book another
  provider (`Booking.ProviderMayBookAnotherProvider`). A requester id missing
  from the users table may also book.
- The message at line 83 refuses "past dates". The test at line 82 is the
  strict `isBefore`, so an hour starting exactly at `now` is accepted.
- The message at line 159 refuses cancelling "with less than two hours'
  notice". The strict test at line 157 accepts `date - 2h == now`.
- A taken slot answers 400 (line 96), and an already-cancelled appointment
  answers 401 (line 149). For an unknown id, the handler reads a field of
  `null` (line 142) and throws; the model calls that `Crash`.

## Model

| member | source | states |
|---|---|---|
| `Dates.StartOfHour` | backend/src/app/controllers/AppointmentController.js:80 | the result is an hour boundary `r` with `r <= t < r + 1h` |
| `Dates.SubHours` | backend/src/app/controllers/AppointmentController.js:155 | subtracting whole hours keeps the position within the hour and, for a non-negative count, never moves an instant forward |
| `Dates.IsBefore` | backend/src/app/controllers/AppointmentController.js:82 | no contract: strict `<` on instants, so equal instants are not "before"; its effect is stated by `Booking.BookPastCheck` and `Cancellation.CancelChecks` |
| `Dates.StartOfHourUnique` | backend/src/app/controllers/AppointmentController.js:80 | any hour boundary `h` with `h <= t < h + 1h` is the truncation of `t`, so truncation is uniquely determined |
| `Dates.StartOfHourIdempotent` | backend/src/app/controllers/AppointmentController.js:80 | an hour boundary is a fixed point of truncation, so a stored date truncates to itself |
| `Dates.SameSlotIffSameHour` | backend/src/app/controllers/AppointmentController.js:80 | two instants truncate to the same slot if and only if they lie in the same hour (`a / 1h == b / 1h`) |
| `Models.Status` | backend/src/app/controllers/AppointmentController.js:47-161 | every rejection is 400 or 401, and it is 400 exactly for a malformed body (line 48), a past hour (83) or a taken slot (96) |
| `Models.IsPlainUser` | backend/src/app/controllers/AppointmentController.js:55-57 | no contract: the requester id is in the users table with the `provider` flag off; used by the requester check at line 59 |
| `Models.IsProvider` | backend/src/app/controllers/AppointmentController.js:67-69 | no contract: the id is in the users table with the `provider` flag on; its effect is stated by `Booking.BookRoleChecks` |
| `Models.SlotTaken` | backend/src/app/controllers/AppointmentController.js:87-93 | no contract: some appointment of that provider with `canceled_at` null is at exactly that date; its effect is stated by `Booking.BookConflictCheck` |
| `Models.FindById` | backend/src/app/controllers/AppointmentController.js:127-140 | the found position holds the requested id and is the first such; `None` only when no row has that id |
| `Models.FindByIdSerial` | backend/src/app/controllers/AppointmentController.js:127 | with serial ids, lookup finds a row exactly for `1 <= id <= count`, at position `id - 1` |
| `Booking.Book` | backend/src/app/controllers/AppointmentController.js:41-124 | no contract: `store` as a function of the backend, the requester, the parsed body and `now`; its behaviour is stated by the `Booking` lemmas below |
| `Booking.BookValidation` | backend/src/app/controllers/AppointmentController.js:42-50 | the schema check comes first: a body with a missing or unparsable field is rejected as `InvalidBody`, which is a 400 |
| `Booking.BookSucceedsIff` | backend/src/app/controllers/AppointmentController.js:41-104 | a booking succeeds if and only if the body is well formed, the requester check passes, the target is a provider, the truncated hour is not before `now`, and no active appointment of that provider holds that hour |
| `Booking.BookRejectionChangesNothing` | backend/src/app/controllers/AppointmentController.js:47-97 | every rejected booking leaves users, appointments, notifications and jobs unchanged |
| `Booking.BookSuccessEffect` | backend/src/app/controllers/AppointmentController.js:100-119 | a success appends exactly one active appointment (owner = requester, the requested provider, date = the hour boundary of the requested instant), then exactly one notification to the provider; jobs and users unchanged |
| `Booking.BookRoleChecks` | backend/src/app/controllers/AppointmentController.js:55-75 | a non-plain-user requester booking itself gets 401 first; otherwise a target that is not a provider gets 401 |
| `Booking.BookPastCheck` | backend/src/app/controllers/AppointmentController.js:80-84 | after the role checks, a truncated hour before `now` gets 400; an hour starting exactly at `now` is not refused by this check |
| `Booking.BookConflictCheck` | backend/src/app/controllers/AppointmentController.js:87-97 | after roles and date, the booking is refused as unavailable (400) if and only if an active appointment of that provider is at that hour; cancelled ones do not block |
| `Booking.BookPreservesConsistent` | backend/src/app/controllers/AppointmentController.js:87-104 | booking keeps serial ids, hour-aligned dates, valid providers and at most one active appointment per provider and hour |
| `Booking.SameHourCollides` | backend/src/app/controllers/AppointmentController.js:80-97 | after a successful booking, a second request for the same provider within the same hour (roles and date passing) is refused as unavailable |
| `Booking.ProviderMayBookAnotherProvider` | backend/src/app/controllers/AppointmentController.js:55-63 | as written, a provider requester booking a different provider is accepted |
| `Cancellation.Cancel` | backend/src/app/controllers/AppointmentController.js:126-174 | no contract: `delete` as a function of the backend, the requester, the id and `now`; its behaviour is stated by the `Cancellation` lemmas below |
| `Cancellation.CancelRejectionChangesNothing` | backend/src/app/controllers/AppointmentController.js:142-161 | a rejected or crashed cancellation changes nothing |
| `Cancellation.CancelCrashesOnUnknownId` | backend/src/app/controllers/AppointmentController.js:127-142 | with serial ids, the handler crashes if and only if the id names no row |
| `Cancellation.CancelChecks` | backend/src/app/controllers/AppointmentController.js:142-161 | first failing check wins: not the owner, then already cancelled, then `date - 2h < now`, each 401; success if and only if the owner asks, the row is active and `date - 2h >= now` |
| `Cancellation.CancelSuccessEffect` | backend/src/app/controllers/AppointmentController.js:164-170 | success sets `canceledAt = now` on that one row, keeps its other fields and all other rows, and queues exactly one job carrying the updated row; notifications and users unchanged |
| `Cancellation.CancelNeverReopens` | backend/src/app/controllers/AppointmentController.js:148-152 | a row whose `canceledAt` is set is left exactly as it was |
| `Cancellation.CancelPreservesConsistent` | backend/src/app/controllers/AppointmentController.js:164-166 | cancelling keeps the invariant |
| `Cancellation.CancelFreesSlot` | backend/src/app/controllers/AppointmentController.js:164-166 | after a successful cancellation no active appointment of that provider remains at that date |
| `Listing.ActiveOf` | backend/src/app/controllers/AppointmentController.js:17 | the result holds exactly the rows of the requester whose `canceled_at` is null, each as often as it is stored (same multiplicity), and no other row |
| `Listing.SortByDate` | backend/src/app/controllers/AppointmentController.js:18 | the result is ordered by date and is a permutation of its input |
| `Listing.Listing` | backend/src/app/controllers/AppointmentController.js:16-18 | the full ordered result of the query: sorted by date, a permutation of `ActiveOf`, and containing a row exactly when it is an active row of the requester |
| `Listing.Window` | backend/src/app/controllers/AppointmentController.js:20-21 | `limit`/`offset`: the result has `limit` rows, or fewer when the input runs out after `offset` (none when `offset` is past its end), and its `j`-th row is row `offset + j` of the input |
| `Listing.Index` | backend/src/app/controllers/AppointmentController.js:13-21 | a page is produced exactly when `page` is absent or at least 1, and otherwise the reply is `Crash`; a page is then exactly the slice of the full listing starting at `(page - 1) * 20` (default page 1), clipped to 20 rows and to the listing's end; so it holds at most 20 rows, ordered by date, each the requester's and active |
| `Listing.IndexCoversListing` | backend/src/app/controllers/AppointmentController.js:20-21 | the `k`-th entry of the full ordered listing is entry `k % 20` of page `k / 20 + 1` |
| `Listing.IndexListsEveryActive` | backend/src/app/controllers/AppointmentController.js:16-21 | every active appointment of the requester appears on some page |
| `Controller.AppointmentController.Store` | backend/src/app/controllers/AppointmentController.js:41-124 | the step-by-step handler produces the reply and new tables and outboxes that `Book` gives, and keeps the invariant |
| `Controller.AppointmentController.Delete` | backend/src/app/controllers/AppointmentController.js:126-174 | the step-by-step handler produces the reply and new tables and jobs that `Cancel` gives, and keeps the invariant |
| `History.RunKeepsInvariants` | backend/src/app/controllers/AppointmentController.js:41-174 | any sequence of bookings and cancellations keeps the invariant, including one active appointment per provider and hour. Rows are only added, a row only goes from active to cancelled, and the outboxes only grow |
| `History.CanceledIsFinal` | backend/src/app/controllers/AppointmentController.js:148-166 | once cancelled, an appointment is unchanged by every later sequence of requests, from any backend (the invariant is not needed) |
| `History.RebookAfterCancel` | backend/src/app/controllers/AppointmentController.js:87-97 | after a successful cancellation, a new booking for that provider in that hour, with passing roles and an hour not before `now`, succeeds |
| `History.Scenario` | backend/src/app/controllers/AppointmentController.js:41-174 | book 14:10 gives slot 14:00; 14:50 for the same provider is refused; cancel 2h01 before succeeds and queues one job; a second cancel is refused without change; 14:00 can then be booked again |

## Left out

- backend/src/database/index.js (database connection and model set-up) is plumbing and is not part of this model.
- The Yup schema and `parseISO` are not modelled. The body is given already parsed, with a field `None` when it is missing or malformed. A `date` that passes the schema but that `parseISO` turns into an invalid date is not modelled.
- `provider_id` is taken to be a JSON number. A numeric string passes the schema but is never `===` the requester id, so it would skip the self-booking check at line 59. The model does not represent this.
- The `include`/`attributes` projections (provider name, avatar file, e-mail) are left out. The virtual `past`/`cancelable` attributes are left out too: the Appointment model file is not part of this model. Replies carry whole rows.
- The notification text and its Portuguese date formatting (lines 107-117) are left out, as is the unused `User.findByPk(req.userId)` lookup. A notification is only its recipient.
- `startOfHour` uses local time. The model assumes UTC with hours aligned to the epoch.
- Queue delivery and the `CancellationMail` job are left out. The queue is an append-only outbox.
- The check-then-act race between concurrent bookings (lines 87-104) is out of scope. Requests are atomic and sequential.
- User management (registration, profile changes, the `provider` flag) happens outside this controller. The users table is held fixed here, and `ProvidersAreProviders` in `Consistent` and `History.RebookAfterCancel` rely on that: a booked provider stays a provider.
- Every collaborator call is assumed to succeed: the ORM queries and writes, `Notification.create` and `Queue.add`. If one of them failed after a write, the store would be left changed with a non-`Ok` reply. Examples are a failure after `Appointment.create` (line 100), in `User.findByPk` (line 107) or `Notification.create` (line 116), and a failure after `appointment.save()` (line 166), in `Queue.add` (line 168). That outcome is not modelled: `Crash` in this model always leaves the backend unchanged.
- The Appointment model is assumed to be registered with the database connection. As written, backend/src/database/index.js:9 initialises only `User` and `File`, so every `Appointment` query would fail. The model describes the behaviour the controller is written for.
- HTTP plumbing is reduced to a reply with a reason and its status. `Crash` stands for a thrown error; what the framework then answers is not part of this model.
- `delete` reads the clock twice (lines 157 and 164). The model uses one `now` for both reads.
- `Listing.Index`: for `page` below 1, the offset `(page - 1) * 20` is negative, and the model reports `Crash` (a failed query). The database's actual handling, and non-numeric `page` strings, are not modelled.
- `Listing.SortByDate`: SQL leaves the order of equal dates unspecified. The model keeps store order (insertion is stable). Its contract states only ordering by date and permutation.
- `Models.SerialIds`: ids are assumed to be 1, 2, 3, … in insertion order. Gaps that a real sequence can leave are not modelled.
