/**
 Cancellation (`AppointmentController.delete`) as a function from the backend
 before the request to the reply and the backend after it.
 */
module Cancellation {
  import opened Dates
  import opened Models

  /** Hours before the appointment inside which cancelling is refused. */
  const WindowHours: int := 2

  /**
   `delete`: look the appointment up (a missing row makes the handler throw),
   then ownership, not already cancelled, and the two-hour window, in that
   order; on success stamp `canceled_at`, save, and queue one job.
   */
  function Cancel(b: Backend, requester: int, id: int, now: int): Step<Appointment>
  {
    match FindById(b.appointments, id)
    case None => Step(Crash, b)
    case Some(i) =>
      var appointment := b.appointments[i];
      if appointment.userId != requester then Step(Rejected(NotOwner), b)
      else if appointment.canceledAt.Some? then Step(Rejected(AlreadyCanceled), b)
      else if IsBefore(SubHours(appointment.date, WindowHours), now) then Step(Rejected(TooLateToCancel), b)
      else
        var canceled := appointment.(canceledAt := Some(now));
        Step(Ok(canceled), b.(appointments := b.appointments[i := canceled],
                              jobs := b.jobs + [CancellationJob(canceled)]))
  }

  /** Neither a rejection nor a crash changes anything. */
  lemma CancelRejectionChangesNothing(b: Backend, requester: int, id: int, now: int)
    ensures !Cancel(b, requester, id, now).reply.Ok? ==> Cancel(b, requester, id, now).after == b
  {
  }

  /** With serial ids, the handler crashes exactly on an id that names no row. */
  lemma CancelCrashesOnUnknownId(b: Backend, requester: int, id: int, now: int)
    requires SerialIds(b.appointments)
    ensures Cancel(b, requester, id, now).reply == Crash <==> !(1 <= id <= |b.appointments|)
  {
    FindByIdSerial(b.appointments, id);
  }

  /**
   The checks on the appointment found at position `i`, first failure wins:
   not the owner, then already cancelled, then fewer than two hours left
   (exactly two hours left is accepted), each a 401.
   */
  lemma CancelChecks(b: Backend, requester: int, id: int, now: int, i: nat)
    requires FindById(b.appointments, id) == Some(i)
    ensures var a := b.appointments[i];
      var reply := Cancel(b, requester, id, now).reply;
      && (a.userId != requester ==> reply == Rejected(NotOwner))
      && (a.userId == requester && a.canceledAt.Some? ==> reply == Rejected(AlreadyCanceled))
      && (a.userId == requester && a.Active() && a.date - 2 * HourMs < now ==> reply == Rejected(TooLateToCancel))
      && (reply.Ok? <==> a.userId == requester && a.Active() && a.date - 2 * HourMs >= now)
    ensures Status(NotOwner) == 401 && Status(AlreadyCanceled) == 401 && Status(TooLateToCancel) == 401
  {
  }

  /**
   A success stamps `canceledAt = now` on that one appointment, keeps its other
   fields and every other appointment, and queues exactly one job carrying it.
   */
  lemma CancelSuccessEffect(b: Backend, requester: int, id: int, now: int)
    requires Cancel(b, requester, id, now).reply.Ok?
    ensures var s := Cancel(b, requester, id, now);
      var i := FindById(b.appointments, id).value;
      var a := s.reply.value;
      && b.appointments[i].Active()
      && a == b.appointments[i].(canceledAt := Some(now))
      && a.id == id && a.userId == requester
      && |s.after.appointments| == |b.appointments|
      && s.after.appointments[i] == a
      && (forall j :: 0 <= j < |b.appointments| && j != i ==> s.after.appointments[j] == b.appointments[j])
      && s.after.jobs == b.jobs + [CancellationJob(a)]
      && s.after.notifications == b.notifications && s.after.users == b.users
  {
  }

  /** A cancelled appointment is never touched again: `canceledAt` is neither overwritten nor cleared. */
  lemma CancelNeverReopens(b: Backend, requester: int, id: int, now: int, j: nat)
    requires j < |b.appointments| && b.appointments[j].canceledAt.Some?
    ensures j < |Cancel(b, requester, id, now).after.appointments|
    ensures Cancel(b, requester, id, now).after.appointments[j] == b.appointments[j]
  {
  }

  /** Cancelling keeps ids serial, dates aligned, providers valid and slots unique. */
  lemma CancelPreservesConsistent(b: Backend, requester: int, id: int, now: int)
    requires Consistent(b)
    ensures Consistent(Cancel(b, requester, id, now).after)
  {
  }

  /**
   After a successful cancellation the provider's hour is free: no active
   appointment of that provider remains at that date.
   */
  lemma CancelFreesSlot(b: Backend, requester: int, id: int, now: int)
    requires Consistent(b)
    requires Cancel(b, requester, id, now).reply.Ok?
    ensures var s := Cancel(b, requester, id, now);
      !SlotTaken(s.after.appointments, s.reply.value.providerId, s.reply.value.date)
  {
  }
}
