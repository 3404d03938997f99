/**
 Sequences of booking and cancellation requests handled one after another:
 what holds of every backend the controller can reach, how appointments may
 change over time, and a worked booking/cancellation scenario.
 */
module History {
  import opened Dates
  import opened Models
  import opened Booking
  import opened Cancellation

  datatype Request =
    | BookRequest(requester: int, body: BookingBody, now: int)
    | CancelRequest(requester: int, id: int, now: int)

  /** The backend after one request. */
  function Apply(b: Backend, request: Request): Backend
  {
    match request
    case BookRequest(requester, body, now) => Book(b, requester, body, now).after
    case CancelRequest(requester, id, now) => Cancel(b, requester, id, now).after
  }

  /** The backend after the requests, handled in order. */
  function Run(b: Backend, requests: seq<Request>): Backend
    decreases |requests|
  {
    if |requests| == 0 then b else Run(Apply(b, requests[0]), requests[1..])
  }

  /** An appointment row may stay as it is, or go from active to cancelled and nothing else. */
  predicate Persists(a: Appointment, a': Appointment)
  {
    a' == a || (a.Active() && a'.canceledAt.Some? && a' == a.(canceledAt := a'.canceledAt))
  }

  /**
   How the backend may change: users untouched, rows only added, every old row
   persists, and both outboxes only grow at the end.
   */
  predicate Evolves(b: Backend, b': Backend)
  {
    b'.users == b.users
    && |b.appointments| <= |b'.appointments|
    && (forall i :: 0 <= i < |b.appointments| ==> Persists(b.appointments[i], b'.appointments[i]))
    && b.notifications <= b'.notifications
    && b.jobs <= b'.jobs
  }

  lemma EvolvesTransitive(b1: Backend, b2: Backend, b3: Backend)
    requires Evolves(b1, b2) && Evolves(b2, b3)
    ensures Evolves(b1, b3)
  {
  }

  /** One request keeps the invariant and changes the backend only as `Evolves` allows. */
  lemma ApplyKeepsInvariants(b: Backend, request: Request)
    requires Consistent(b)
    ensures Consistent(Apply(b, request)) && Evolves(b, Apply(b, request))
  {
    match request
    case BookRequest(requester, body, now) =>
      BookPreservesConsistent(b, requester, body, now);
      BookRejectionChangesNothing(b, requester, body, now);
      if Book(b, requester, body, now).reply.Ok? {
        BookSuccessEffect(b, requester, body, now);
      }
    case CancelRequest(requester, id, now) =>
      CancelPreservesConsistent(b, requester, id, now);
      CancelRejectionChangesNothing(b, requester, id, now);
      if Cancel(b, requester, id, now).reply.Ok? {
        CancelSuccessEffect(b, requester, id, now);
      }
  }

  /**
   Handled in sequence, any requests keep ids serial, dates on hour
   boundaries, providers valid and at most one active appointment per
   provider and hour; and every reached backend evolves from the first.
   */
  lemma {:induction false} RunKeepsInvariants(b: Backend, requests: seq<Request>)
    requires Consistent(b)
    ensures Consistent(Run(b, requests)) && Evolves(b, Run(b, requests))
    decreases |requests|
  {
    if |requests| > 0 {
      var next := Apply(b, requests[0]);
      ApplyKeepsInvariants(b, requests[0]);
      RunKeepsInvariants(next, requests[1..]);
      EvolvesTransitive(b, next, Run(next, requests[1..]));
    }
  }

  /** Once an appointment is cancelled, no later request changes it again. */
  lemma {:induction false} CanceledIsFinal(b: Backend, requests: seq<Request>, i: nat)
    requires i < |b.appointments| && b.appointments[i].canceledAt.Some?
    ensures i < |Run(b, requests).appointments| && Run(b, requests).appointments[i] == b.appointments[i]
    decreases |requests|
  {
    if |requests| > 0 {
      var next := Apply(b, requests[0]);
      match requests[0] {
        case BookRequest(requester, body, now) =>
          BookRejectionChangesNothing(b, requester, body, now);
          if Book(b, requester, body, now).reply.Ok? {
            BookSuccessEffect(b, requester, body, now);
          }
        case CancelRequest(requester, id, now) =>
          CancelNeverReopens(b, requester, id, now, i);
      }
      assert i < |next.appointments| && next.appointments[i] == b.appointments[i];
      CanceledIsFinal(next, requests[1..], i);
    }
  }

  /**
   A cancelled slot can be booked again: after a successful cancellation,
   a booking for the same provider in the same hour, whose roles pass and
   whose hour has not started before `now2`, succeeds.
   */
  lemma RebookAfterCancel(b: Backend, owner: int, id: int, now: int, requester: int, date: int, now2: int)
    requires Consistent(b)
    requires Cancel(b, owner, id, now).reply.Ok?
    requires var a := Cancel(b, owner, id, now).reply.value;
      && date / HourMs == a.date / HourMs
      && (IsPlainUser(b.users, requester) || requester != a.providerId)
      && a.date >= now2
    ensures var s := Cancel(b, owner, id, now);
      Book(s.after, requester, BookingBody(Some(s.reply.value.providerId), Some(date)), now2).reply.Ok?
  {
  }

  /** 2024-01-10T14:00:00Z in milliseconds since the epoch. */
  const Jan10At1400: int := 1_704_895_200_000
  const Minute: int := 60_000

  /**
   Client 1 books provider 3 at 14:10 and gets the 14:00 slot; client 2 asks
   for 14:50 and is refused; client 1 cancels at 11:59 (two hours and one
   minute before); a second cancellation is refused and changes nothing;
   client 2 then gets 14:00.
   */
  lemma Scenario()
    ensures var b0 := Backend(map[1 := false, 2 := false, 3 := true], [], [], []);
      var s1 := Book(b0, 1, BookingBody(Some(3), Some(Jan10At1400 + 10 * Minute)), Jan10At1400 - 240 * Minute);
      var s2 := Book(s1.after, 2, BookingBody(Some(3), Some(Jan10At1400 + 50 * Minute)), Jan10At1400 - 235 * Minute);
      var s3 := Cancel(s2.after, 1, 1, Jan10At1400 - 121 * Minute);
      var s4 := Cancel(s3.after, 1, 1, Jan10At1400 - 120 * Minute);
      var s5 := Book(s3.after, 2, BookingBody(Some(3), Some(Jan10At1400)), Jan10At1400 - 121 * Minute);
      && s1.reply == Ok(Appointment(1, 1, 3, Jan10At1400, None))
      && s1.after.notifications == [Notification(3)]
      && s2.reply == Rejected(SlotUnavailable) && s2.after == s1.after
      && s3.reply == Ok(Appointment(1, 1, 3, Jan10At1400, Some(Jan10At1400 - 121 * Minute)))
      && s3.after.jobs == [CancellationJob(s3.reply.value)]
      && s4.reply == Rejected(AlreadyCanceled) && s4.after == s3.after
      && s5.reply == Ok(Appointment(2, 2, 3, Jan10At1400, None))
  {
  }
}
