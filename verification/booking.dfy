/**
 Booking (`AppointmentController.store`) as a function from the backend before
 the request to the reply and the backend after it, with the properties the
 handler's checks guarantee.
 */
module Booking {
  import opened Dates
  import opened Models

  /**
   The request body after schema validation: a field is `None` when it is
   missing or does not parse as the schema's number or date.
   */
  datatype BookingBody = BookingBody(providerId: Option<int>, date: Option<int>)
  {
    predicate WellFormed()
    {
      providerId.Some? && date.Some?
    }
  }

  /** The row `Appointment.create` writes for a successful booking. */
  function NewAppointment(b: Backend, requester: int, providerId: int, date: int): Appointment
  {
    Appointment(|b.appointments| + 1, requester, providerId, StartOfHour(date), None)
  }

  /** `store`: the checks in the handler's order, then the insert and the provider notification. */
  function Book(b: Backend, requester: int, body: BookingBody, now: int): Step<Appointment>
  {
    if !body.WellFormed() then Step(Rejected(InvalidBody), b)
    else
      var providerId, date := body.providerId.value, body.date.value;
      if !IsPlainUser(b.users, requester) && requester == providerId then Step(Rejected(NotAClient), b)
      else if !IsProvider(b.users, providerId) then Step(Rejected(NotAProvider), b)
      else
        var hourStart := StartOfHour(date);
        if IsBefore(hourStart, now) then Step(Rejected(PastDate), b)
        else if SlotTaken(b.appointments, providerId, hourStart) then Step(Rejected(SlotUnavailable), b)
        else
          var appointment := NewAppointment(b, requester, providerId, date);
          Step(Ok(appointment), b.(appointments := b.appointments + [appointment],
                                   notifications := b.notifications + [Notification(providerId)]))
  }

  /** A booking succeeds exactly when every check of `store` passes. */
  predicate MayBook(b: Backend, requester: int, providerId: int, date: int, now: int)
  {
    (IsPlainUser(b.users, requester) || requester != providerId)
    && IsProvider(b.users, providerId)
    && StartOfHour(date) >= now
    && !SlotTaken(b.appointments, providerId, StartOfHour(date))
  }

  lemma BookSucceedsIff(b: Backend, requester: int, body: BookingBody, now: int)
    ensures Book(b, requester, body, now).reply.Ok?
        <==> body.WellFormed() && MayBook(b, requester, body.providerId.value, body.date.value, now)
  {
  }

  /** Every rejection leaves the appointments, the users and both outboxes as they were. */
  lemma BookRejectionChangesNothing(b: Backend, requester: int, body: BookingBody, now: int)
    ensures !Book(b, requester, body, now).reply.Ok? ==> Book(b, requester, body, now).after == b
  {
  }

  /**
   A success appends exactly one appointment, owned by the requester, for the
   requested provider, at the hour boundary of the requested instant, active;
   then exactly one notification for the provider. Nothing else changes.
   */
  lemma BookSuccessEffect(b: Backend, requester: int, body: BookingBody, now: int)
    requires Book(b, requester, body, now).reply.Ok?
    ensures var s := Book(b, requester, body, now);
      var a := s.reply.value;
      && body.WellFormed()
      && s.after.appointments == b.appointments + [a]
      && a.userId == requester && a.providerId == body.providerId.value && a.Active()
      && a.date % HourMs == 0 && a.date <= body.date.value < a.date + HourMs
      && s.after.notifications == b.notifications + [Notification(body.providerId.value)]
      && s.after.users == b.users && s.after.jobs == b.jobs
  {
  }

  /** The schema check comes first: a body missing a field, or with one that does not parse, is a 400. */
  lemma BookValidation(b: Backend, requester: int, body: BookingBody, now: int)
    ensures !body.WellFormed() ==> Book(b, requester, body, now).reply == Rejected(InvalidBody)
    ensures Status(InvalidBody) == 400
  {
  }

  /**
   Role checks, first match wins: booking oneself while not a plain user is
   401, and a target that is not a provider is 401.
   */
  lemma BookRoleChecks(b: Backend, requester: int, providerId: int, date: int, now: int)
    ensures !IsPlainUser(b.users, requester) && requester == providerId
      ==> Book(b, requester, BookingBody(Some(providerId), Some(date)), now).reply == Rejected(NotAClient)
    ensures (IsPlainUser(b.users, requester) || requester != providerId) && !IsProvider(b.users, providerId)
      ==> Book(b, requester, BookingBody(Some(providerId), Some(date)), now).reply == Rejected(NotAProvider)
    ensures Status(NotAClient) == 401 && Status(NotAProvider) == 401
  {
  }

  /**
   Once the roles pass, an hour that started before `now` is refused with 400;
   an hour that starts exactly at `now` is not refused by that check.
   */
  lemma BookPastCheck(b: Backend, requester: int, providerId: int, date: int, now: int)
    requires IsPlainUser(b.users, requester) || requester != providerId
    requires IsProvider(b.users, providerId)
    ensures StartOfHour(date) < now
      ==> Book(b, requester, BookingBody(Some(providerId), Some(date)), now).reply == Rejected(PastDate)
    ensures StartOfHour(date) == now
      ==> Book(b, requester, BookingBody(Some(providerId), Some(date)), now).reply != Rejected(PastDate)
    ensures Status(PastDate) == 400
  {
  }

  /**
   Once roles and date pass, an active appointment of the provider at the
   same hour makes the booking a 400; a cancelled one does not.
   */
  lemma BookConflictCheck(b: Backend, requester: int, providerId: int, date: int, now: int)
    requires IsPlainUser(b.users, requester) || requester != providerId
    requires IsProvider(b.users, providerId)
    requires StartOfHour(date) >= now
    ensures Book(b, requester, BookingBody(Some(providerId), Some(date)), now).reply == Rejected(SlotUnavailable)
      <==> SlotTaken(b.appointments, providerId, StartOfHour(date))
    ensures Status(SlotUnavailable) == 400
  {
  }

  /** Booking keeps ids serial, dates on hour boundaries, providers valid and slots unique. */
  lemma BookPreservesConsistent(b: Backend, requester: int, body: BookingBody, now: int)
    requires Consistent(b)
    ensures Consistent(Book(b, requester, body, now).after)
  {
  }

  /**
   Two requests in the same hour for the same provider collide: after one
   succeeds, the other (if its roles and date pass) is refused as unavailable.
   */
  lemma SameHourCollides(b: Backend, r1: int, r2: int, providerId: int, d1: int, d2: int, now1: int, now2: int)
    requires Book(b, r1, BookingBody(Some(providerId), Some(d1)), now1).reply.Ok?
    requires d1 / HourMs == d2 / HourMs
    requires IsPlainUser(b.users, r2) || r2 != providerId
    requires StartOfHour(d2) >= now2
    ensures var after := Book(b, r1, BookingBody(Some(providerId), Some(d1)), now1).after;
      Book(after, r2, BookingBody(Some(providerId), Some(d2)), now2).reply == Rejected(SlotUnavailable)
  {
    var after := Book(b, r1, BookingBody(Some(providerId), Some(d1)), now1).after;
    SameSlotIffSameHour(d1, d2);
    var k := |b.appointments|;
    assert after.appointments[k].providerId == providerId && after.appointments[k].date == StartOfHour(d2);
    assert SlotTaken(after.appointments, providerId, StartOfHour(d2));
  }

  /**
   As written, the requester check only stops a non-client booking itself: a
   provider may book another provider.
   */
  lemma ProviderMayBookAnotherProvider()
    ensures var b := Backend(map[1 := true, 2 := true], [], [], []);
      Book(b, 1, BookingBody(Some(2), Some(7200000)), 3600000).reply.Ok?
  {
  }
}
