# Schedula scheduling engine — a Dafny model

Schedula is a small appointment-booking service for a hospital. Patients register under a
(name, date of birth) identity. They book a doctor from a fixed roster of twenty doctors at
a (date, time) point. Appointments can be moved to another date and time, or cancelled. The
engine guards one rule above all: **at most one non-cancelled appointment per
(doctor, date, time)**. Patients keep a second rule: no two of them share a (name, dob) pair.

The model replaces the SQL database with an in-memory store. A `Store` object holds the
`patients` and `appointments` tables as sequences of rows in table order. The four endpoints
that write to the database are methods that change these fields. The read-only queries are
functions over the sequences. An ORM query that ends in `.first()` is `Queries.First`, and one
that ends in `.all()` is `Queries.Where`; every lookup, conflict probe and listing is one of
the two with its filter written out.

Files and modules:

- `records.dfy` (`Records`): table rows, the booking request with its defaults, the doctor
  roster, slots, and the error kinds `NotFound(entity)`, `AlreadyExists` and `SlotBooked`.
- `queries.dfy` (`Queries`): `First`, `Where`, the patient and appointment lookups, the
  conflict probe, and the two listings.
- `invariants.dfy` (`Invariants`): the store invariant, and what it guarantees about search
  and about a doctor's daily listing.
- `engine.dfy` (`Engine`): table-wide reference definitions of the in-place updates, and the
  lemmas that booking, rescheduling and cancelling each keep slots exclusive.
- `store.dfy` (`Scheduling`): the `Store` class with its four endpoints, plus client methods
  that walk one clinic day through the endpoint contracts.

Notes on the model:

- Dates and times are opaque strings compared only by exact equality. A slot is a point in
  time, not an interval.
- `status` is free text, as in the table. Only `"cancelled"` exempts an appointment from
  conflict checks, so `"completed"` appointments still hold their slot.
- A booking stores the status and notes from the request. Omitted, they default to
  `"scheduled"` and `""`. A caller who sends another status gets that status stored; the
  conflict check runs either way, so the invariant still holds.
- Generated identifiers are a parameter of registration and booking. The precondition says
  the identifier is not yet in its table, which is the property the model needs from a
  random UUID.
- Rescheduling does not look at the status of the appointment being moved. Its conflict
  probe skips only that appointment. An active appointment moved onto its own slot is never
  refused (`Engine.RescheduleOntoOwnSlot`). A cancelled one can be refused once another
  booking has taken its old slot (`Engine.CancelledOwnSlotCanBeTaken`).
- A second cancel of the same id succeeds again and writes `"cancelled"` again. The table
  then equals the table after one cancel (`Engine.CancelIdempotent`).
- Registration of a taken identity fails with `AlreadyExists` (the code's "Patient already
  exists"). Listing a patient's appointments does not check that the patient exists, so an
  unknown id gives an empty listing. Doctors are looked up by id only, against a constant
  roster.

## Model

| member | source | states |
|---|---|---|
| Queries.First | main.py:277-278 | the index of the first row that satisfies the filter, with no earlier row satisfying it; None exactly when no row does |
| Queries.Where | main.py:401-409 | the rows that satisfy the filter, each exactly as often as it occurs in the table, and no other rows |
| Queries.FindByIdentity | main.py:287-291 | returns a stored patient with exactly that name and dob; None exactly when no stored patient has that pair |
| Queries.SearchPatient | main.py:275-282 | succeeds exactly when a patient with that (name, dob) exists and returns one with exactly that name and dob; otherwise fails with NotFound(patient) |
| Queries.FindPatientById | main.py:313-315 | returns a stored patient with that id; None exactly when the id is not registered |
| Queries.FindAppointment | main.py:357-359 | the position of an appointment with that id; None exactly when no appointment has it |
| Queries.FirstConflict | main.py:323-335 | returns a stored appointment that holds the slot, is not cancelled and is not the excluded id; None exactly when no such appointment exists |
| Queries.AppointmentsOfPatient | main.py:393-396 | exactly the appointments whose patient id matches, whatever their status, each with its full multiplicity |
| Queries.DoctorDay | main.py:399-410 | exactly the appointments of that doctor on that date whose status is not "cancelled", each with its full multiplicity |
| Invariants.SearchFindsRegistered | main.py:277-282 | when (name, dob) is unique, searching any stored patient's identity returns that very patient |
| Invariants.RegisterThenSearch | main.py:295-299 | after a patient is added under an identity nobody held, searching that identity returns the new patient |
| Invariants.RegisterKeepsIdentitiesUnique | main.py:287-299 | adding a patient whose (name, dob) is not taken keeps (name, dob) unique |
| Invariants.WhereKeepsExclusive | main.py:401-409 | any filtered listing of a slot-exclusive table is itself slot-exclusive |
| Invariants.DoctorDayTimesDistinct | main.py:399-410 | under the slot invariant, a doctor's daily listing never shows two appointments at the same time |
| Engine.RescheduledIsUpdateAt | main.py:377-378 | with unique ids, moving every row with the id equals changing the date and time of the one found row |
| Engine.CancelInIsUpdateAt | main.py:385-387 | with unique ids, cancelling every row with the id equals changing the status of the one found row |
| Engine.AppendKeepsExclusive | main.py:323-347 | appending an appointment at a slot no active appointment holds keeps at most one active appointment per slot |
| Engine.RescheduleKeepsExclusive | main.py:362-378 | moving an appointment to a slot held by no other active appointment of its doctor keeps at most one active appointment per slot |
| Engine.CancelKeepsExclusive | main.py:387 | cancelling any id keeps at most one active appointment per slot |
| Engine.CancelledNeverConflicts | main.py:329 | after a cancel, no conflict probe of any slot can find the cancelled appointment |
| Engine.CancelFreesSlot | main.py:323-335 | after cancelling an active appointment, its old slot is free for a new booking |
| Engine.CancelIdempotent | main.py:385-389 | cancelling the same id twice leaves the table as cancelling it once |
| Engine.CancelKeepsIds | main.py:385-389 | a cancel keeps every row in place with its id, so an id present before a cancel is present after it and a second cancel succeeds again |
| Engine.CancelAbsent | main.py:385-390 | cancelling an id no appointment has changes nothing |
| Engine.RescheduleOntoOwnSlot | main.py:362-372 | under the slot invariant, an active appointment's own slot never counts as taken when it is the one being moved |
| Engine.CancelledOwnSlotCanBeTaken | main.py:362-375 | a valid table where a cancelled appointment's own slot counts as taken, because a later booking holds it |
| Engine.BookedSlotIsTaken | main.py:323-335 | right after an active appointment is appended, its slot counts as taken for the next booking |
| Scheduling.Store.constructor | main.py:59 | an empty store satisfies the store invariant |
| Scheduling.Store.RegisterPatient | main.py:285-302 | fails with AlreadyExists exactly when the (name, dob) is taken, and then changes nothing; otherwise appends one patient with the fresh id and the given fields; keeps the store invariant |
| Scheduling.Store.BookAppointment | main.py:310-350 | NotFound(patient) first, then NotFound(doctor), then SlotBooked when an active appointment holds the slot; otherwise appends exactly the requested appointment under the fresh id; on failure nothing changes; keeps the store invariant, removes nothing and resurrects nothing |
| Scheduling.Store.RescheduleAppointment | main.py:353-380 | NotFound(appointment) for an unknown id; SlotBooked exactly when another active appointment of the same doctor holds the new slot; otherwise changes only the date and time of that appointment; keeps the store invariant |
| Scheduling.Store.CancelAppointment | main.py:383-390 | succeeds exactly when the id exists, on every call; changes only that appointment's status to "cancelled" and removes nothing; otherwise NotFound(appointment) with nothing changed; keeps the store invariant |

## Left out

- HTTP routing, status codes and response bodies: each endpoint returns the model's `Result`
  in their place. The `{"message": ...}` texts are not modelled.
- Request validation, the database session lifecycle, `commit`/`refresh`, the database URL,
  environment-variable selection and CORS: framework plumbing with no scheduling logic.
- The doctors' descriptive fields, the doctor listing and the root greeting: these return
  constants, and only the set of doctor ids takes part in scheduling.
- UUID generation: replaced by a caller-supplied identifier that the precondition requires to
  be fresh in its table.
- Parsing of dates and times: the code never parses them and compares them only as strings.
- Concurrency: two callers running the check-then-write sequence of booking or rescheduling
  at the same time. The model runs one operation at a time, so the race is not modelled.
- `migrate_doctors.py` is not part of this model: it bulk-loads doctor records from a file
  into an external database.
- Row order: a query without `ORDER BY` may return rows in any order. The model fixes it to
  insertion order. The listing contracts are stated up to order (membership and
  multiplicity), and with the invariants in force `.first()` can match at most one row.
- Engine.RescheduleOntoOwnSlot: stated for active appointments only. For a cancelled
  appointment the property does not hold, as `Engine.CancelledOwnSlotCanBeTaken` shows.
