/**
 * The records the Schedula scheduling engine works on: the rows of the
 * `patients` and `appointments` tables, the body of a booking request, the
 * fixed roster of doctor ids, and the outcomes an operation can fail with.
 */
module Records {

  /** A row of the `patients` table; `id` is assigned on registration. */
  datatype Patient = Patient(id: string, name: string, dob: string, contact: string)

  /**
   * A row of the `appointments` table. `date` ("YYYY-MM-DD") and `time`
   * ("HH:MM") are opaque strings that are only ever compared for equality.
   * `status` is free text; by convention "scheduled", "completed" or
   * "cancelled", and only "cancelled" is exempt from conflict checks.
   */
  datatype Appointment = Appointment(
    id: string,
    patientId: string,
    doctorId: string,
    date: string,
    time: string,
    status: string,
    notes: string)

  const StatusScheduled: string := "scheduled"
  const StatusCancelled: string := "cancelled"

  /**
   * The body of a booking request. The caller names patient, doctor, date
   * and time; status and notes may be omitted and then default to
   * "scheduled" and the empty string.
   */
  datatype BookingRequest = BookingRequest(
    patientId: string,
    doctorId: string,
    date: string,
    time: string,
    status: string := StatusScheduled,
    notes: string := "")

  /** A bookable point: one doctor, one date, one time. Slots never overlap. */
  datatype Slot = Slot(doctorId: string, date: string, time: string)

  function SlotOf(a: Appointment): (s: Slot) {
    Slot(a.doctorId, a.date, a.time)
  }

  /** An appointment takes part in conflict checks unless it is cancelled. */
  predicate Active(a: Appointment) {
    a.status != StatusCancelled
  }

  /** `a` holds slot `s`: it is active and booked at exactly that point. */
  predicate Occupies(a: Appointment, s: Slot) {
    Active(a) && SlotOf(a) == s
  }

  /** The ids of the fixed doctor roster; the doctors' other fields play no part in scheduling. */
  const DoctorIds: seq<string> := [
    "doc1", "doc2", "doc3", "doc4", "doc5",
    "doc6", "doc7", "doc8", "doc9", "doc10",
    "doc11", "doc12", "doc13", "doc14", "doc15",
    "doc16", "doc17", "doc18", "doc19", "doc20"
  ]

  predicate IsDoctor(id: string) {
    id in DoctorIds
  }

  /** Which kind of record a failed lookup was looking for. */
  datatype Entity = PatientEntity | DoctorEntity | AppointmentEntity

  /** The failures of the engine: a missing record, a duplicate patient identity, an occupied slot. */
  datatype Error = NotFound(entity: Entity) | AlreadyExists | SlotBooked

  datatype Option<T> = None | Some(value: T)

  datatype Result<T> = Ok(value: T) | Err(error: Error)
}
