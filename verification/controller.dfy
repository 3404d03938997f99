/**
 The controller over a mutable backend: `Store` and `Delete` change the
 appointments and the outboxes step by step, each proved to do what
 `Booking.Book` and `Cancellation.Cancel` say. The read-only `index` is
 `Listing.Index` applied to `appointments`.
 */
module Controller {
  import opened Dates
  import opened Models
  import opened Booking
  import opened Cancellation

  class AppointmentController {
    /** The users table; this controller never writes it. */
    const users: map<int, bool>
    /** The appointments table, in insertion order. */
    var appointments: seq<Appointment>
    /** Notifications created for providers (append-only). */
    var notifications: seq<Notification>
    /** Jobs added to the queue (append-only). */
    var jobs: seq<CancellationJob>

    function Snapshot(): Backend
      reads this
    {
      Backend(users, appointments, notifications, jobs)
    }

    predicate Valid()
      reads this
    {
      Consistent(Snapshot())
    }

    constructor (users: map<int, bool>)
      ensures Valid()
      ensures Snapshot() == Backend(users, [], [], [])
    {
      this.users := users;
      appointments, notifications, jobs := [], [], [];
    }

    /** `store`: validate, check roles, truncate and check the date, check the slot, insert, notify. */
    method Store(requester: int, body: BookingBody, now: int) returns (reply: Reply<Appointment>)
      requires Valid()
      modifies this
      ensures Valid()
      ensures Step(reply, Snapshot()) == Book(old(Snapshot()), requester, body, now)
    {
      ghost var before := Snapshot();
      if body.providerId.None? || body.date.None? {
        return Rejected(InvalidBody);
      }
      var providerId, date := body.providerId.value, body.date.value;

      var isUser := requester in users && !users[requester];
      if !isUser && requester == providerId {
        return Rejected(NotAClient);
      }

      var isProvider := providerId in users && users[providerId];
      if !isProvider {
        return Rejected(NotAProvider);
      }

      var hourStart := StartOfHour(date);
      if IsBefore(hourStart, now) {
        return Rejected(PastDate);
      }

      if SlotTaken(appointments, providerId, hourStart) {
        return Rejected(SlotUnavailable);
      }

      var appointment := Appointment(|appointments| + 1, requester, providerId, hourStart, None);
      appointments := appointments + [appointment];
      notifications := notifications + [Notification(providerId)];
      reply := Ok(appointment);
      BookPreservesConsistent(before, requester, body, now);
    }

    /** `delete`: find, check owner, check not cancelled, check the window, stamp, save, queue. */
    method Delete(requester: int, id: int, now: int) returns (reply: Reply<Appointment>)
      requires Valid()
      modifies this
      ensures Valid()
      ensures Step(reply, Snapshot()) == Cancel(old(Snapshot()), requester, id, now)
    {
      ghost var before := Snapshot();
      var found := FindById(appointments, id);
      if found.None? {
        return Crash;
      }
      var i := found.value;
      var appointment := appointments[i];

      if appointment.userId != requester {
        return Rejected(NotOwner);
      }

      if appointment.canceledAt.Some? {
        return Rejected(AlreadyCanceled);
      }

      var dateWithSub := SubHours(appointment.date, WindowHours);
      if IsBefore(dateWithSub, now) {
        return Rejected(TooLateToCancel);
      }

      appointment := appointment.(canceledAt := Some(now));
      appointments := appointments[i := appointment];
      jobs := jobs + [CancellationJob(appointment)];
      reply := Ok(appointment);
      CancelPreservesConsistent(before, requester, id, now);
    }
  }
}
