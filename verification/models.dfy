/**
 The records the appointment controller reads and writes: users (only their
 provider flag matters here), appointments, provider notifications and queued
 cancellation jobs, gathered in one `Backend` value, and the replies the
 controller sends.
 */
module Models {
  import opened Dates

  datatype Option<T> = None | Some(value: T)

  /** A row of the appointments table; `canceledAt == None` is SQL `canceled_at IS NULL`. */
  datatype Appointment = Appointment(id: int, userId: int, providerId: int, date: int, canceledAt: Option<int>)
  {
    /** Not cancelled. */
    predicate Active()
    {
      canceledAt.None?
    }
  }

  /** An in-app notification; only its recipient takes part in decisions. */
  datatype Notification = Notification(recipient: int)

  /** A job handed to the queue on cancellation, carrying the cancelled appointment. */
  datatype CancellationJob = CancellationJob(appointment: Appointment)

  /**
   Everything the controller touches: the users table (id to `provider` flag),
   the appointments table in insertion order, and the two append-only outboxes.
   */
  datatype Backend = Backend(
    users: map<int, bool>,
    appointments: seq<Appointment>,
    notifications: seq<Notification>,
    jobs: seq<CancellationJob>)

  /** Why a request was turned away. */
  datatype Reason =
    | InvalidBody       // the body schema did not validate
    | NotAClient        // requester is not a plain user and asks to book itself
    | NotAProvider      // provider_id is not a user with the provider flag
    | PastDate          // the requested hour starts before now
    | SlotUnavailable   // an active appointment of that provider holds the hour
    | NotOwner          // the appointment belongs to another user
    | AlreadyCanceled   // canceled_at is already set
    | TooLateToCancel   // less than two hours remain before the appointment

  /**
   What a handler produces: a JSON body, a rejection with a status code, or a
   crash (the handler throws before answering).
   */
  datatype Reply<T> = Ok(value: T) | Rejected(reason: Reason) | Crash

  /**
   The HTTP status sent with a rejection: 400 for a malformed body, a past hour
   or a taken slot, 401 for every other reason.
   */
  function Status(reason: Reason): (r: nat)
    ensures r == 400 || r == 401
    ensures r == 400 <==> reason == InvalidBody || reason == PastDate || reason == SlotUnavailable
  {
    match reason
    case InvalidBody | PastDate | SlotUnavailable => 400
    case NotAClient | NotAProvider | NotOwner | AlreadyCanceled | TooLateToCancel => 401
  }

  /** The reply of one handler call together with the backend it leaves behind. */
  datatype Step<T> = Step(reply: Reply<T>, after: Backend)

  /** `User.findOne({ where: { id, provider: true } })` finds a row. */
  predicate IsProvider(users: map<int, bool>, id: int)
  {
    id in users && users[id]
  }

  /** `User.findOne({ where: { id, provider: false } })` finds a row. */
  predicate IsPlainUser(users: map<int, bool>, id: int)
  {
    id in users && !users[id]
  }

  /** Some active appointment of `providerId` is at exactly `date`. */
  predicate SlotTaken(appointments: seq<Appointment>, providerId: int, date: int)
  {
    exists i :: 0 <= i < |appointments| && appointments[i].providerId == providerId
      && appointments[i].Active() && appointments[i].date == date
  }

  /** `findByPk`: the position of the row whose id is `id`, if there is one (the first such). */
  function FindById(appointments: seq<Appointment>, id: int): (r: Option<nat>)
    ensures r.Some? ==> r.value < |appointments| && appointments[r.value].id == id
    ensures r.Some? ==> forall j :: 0 <= j < r.value ==> appointments[j].id != id
    ensures r.None? ==> forall j :: 0 <= j < |appointments| ==> appointments[j].id != id
  {
    if |appointments| == 0 then None
    else if appointments[0].id == id then Some(0)
    else match FindById(appointments[1..], id)
      case None => None
      case Some(k) => Some(k + 1)
  }

  /** Ids are the serial numbers 1, 2, 3, ... in insertion order (rows are never deleted). */
  predicate SerialIds(appointments: seq<Appointment>)
  {
    forall i :: 0 <= i < |appointments| ==> appointments[i].id == i + 1
  }

  /** Every stored date is an hour boundary. */
  predicate HourAligned(appointments: seq<Appointment>)
  {
    forall i :: 0 <= i < |appointments| ==> appointments[i].date % HourMs == 0
  }

  /** Every appointment's provider is a provider user. */
  predicate ProvidersAreProviders(users: map<int, bool>, appointments: seq<Appointment>)
  {
    forall i :: 0 <= i < |appointments| ==> IsProvider(users, appointments[i].providerId)
  }

  /** At most one active appointment per provider and hour. */
  predicate OneActivePerSlot(appointments: seq<Appointment>)
  {
    forall i, j :: 0 <= i < j < |appointments| && appointments[i].Active() && appointments[j].Active()
      && appointments[i].providerId == appointments[j].providerId
      ==> appointments[i].date != appointments[j].date
  }

  /** The invariant that the controller's sequential operations keep. */
  predicate Consistent(b: Backend)
  {
    SerialIds(b.appointments) && HourAligned(b.appointments)
    && ProvidersAreProviders(b.users, b.appointments) && OneActivePerSlot(b.appointments)
  }

  /** With serial ids, `findByPk(id)` finds a row exactly for `1 <= id <= count`, at position `id - 1`. */
  lemma FindByIdSerial(appointments: seq<Appointment>, id: int)
    requires SerialIds(appointments)
    ensures FindById(appointments, id) == if 1 <= id <= |appointments| then Some(id - 1) else None
  {
    if 1 <= id <= |appointments| {
      assert appointments[id - 1].id == id;
    }
  }
}
