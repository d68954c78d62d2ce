/**
 * The scheduling engine over its store: the `patients` and `appointments`
 * tables as fields, and the four endpoints that change them. Each endpoint
 * runs its checks in the source's order, refuses with the first that fails
 * and leaves the tables untouched, and otherwise commits one change.
 */
module Scheduling {
  import opened Records
  import opened Queries
  import opened Invariants
  import opened Engine

  class Store {
    var patients: seq<Patient>
    var appointments: seq<Appointment>

    ghost predicate Valid()
      reads this
    {
      StoreInvariant(patients, appointments)
    }

    constructor ()
      ensures Valid()
      ensures patients == [] && appointments == []
    {
      patients := [];
      appointments := [];
    }

    /**
     * Register a patient under `newId`, the fresh identifier the store draws
     * for it; refused when the (name, dob) pair is already registered.
     */
    method RegisterPatient(name: string, dob: string, contact: string, newId: string) returns (r: Result<string>)
      requires Valid()
      requires !PatientRegistered(patients, newId)
      modifies this
      ensures Valid()
      ensures appointments == old(appointments)
      ensures r.Err? <==> IdentityTaken(old(patients), name, dob)
      ensures r.Err? ==> r.error == AlreadyExists && patients == old(patients)
      ensures r.Ok? ==> r.value == newId && patients == old(patients) + [Patient(newId, name, dob, contact)]
    {
      var existing := FindByIdentity(patients, name, dob);
      if existing.Some? {
        return Err(AlreadyExists);
      }
      var p := Patient(newId, name, dob, contact);
      RegisterKeepsIdentitiesUnique(patients, p);
      assert PatientIdsUnique(patients + [p]) by {
        forall i | 0 <= i < |patients| ensures patients[i].id != newId {
          assert patients[i] in patients;
        }
      }
      assert forall q :: q in patients ==> q in patients + [p];
      patients := patients + [p];
      r := Ok(newId);
    }

    /**
     * Book an appointment under `newId`, the fresh identifier the store draws
     * for it. Checks, in order: the patient exists, the doctor exists, the
     * slot is free; then appends the requested appointment.
     */
    method BookAppointment(req: BookingRequest, newId: string) returns (r: Result<string>)
      requires Valid()
      requires !AppointmentExists(appointments, newId)
      modifies this
      ensures Valid()
      ensures patients == old(patients)
      ensures Evolves(old(appointments), appointments)
      ensures !PatientRegistered(old(patients), req.patientId) ==> r == Err(NotFound(PatientEntity))
      ensures PatientRegistered(old(patients), req.patientId) && !IsDoctor(req.doctorId) ==>
        r == Err(NotFound(DoctorEntity))
      ensures PatientRegistered(old(patients), req.patientId) && IsDoctor(req.doctorId) &&
              SlotTaken(old(appointments), Slot(req.doctorId, req.date, req.time), None) ==>
        r == Err(SlotBooked)
      ensures r.Ok? <==> PatientRegistered(old(patients), req.patientId) && IsDoctor(req.doctorId) &&
                         !SlotTaken(old(appointments), Slot(req.doctorId, req.date, req.time), None)
      ensures r.Err? ==> appointments == old(appointments)
      ensures r.Ok? ==> r.value == newId
      ensures r.Ok? ==> appointments == old(appointments) +
                          [Appointment(newId, req.patientId, req.doctorId, req.date, req.time, req.status, req.notes)]
    {
      var patient := FindPatientById(patients, req.patientId);
      if patient.None? {
        return Err(NotFound(PatientEntity));
      }
      if !IsDoctor(req.doctorId) {
        return Err(NotFound(DoctorEntity));
      }
      var conflict := FirstConflict(appointments, Slot(req.doctorId, req.date, req.time), None);
      if conflict.Some? {
        return Err(SlotBooked);
      }
      var a := Appointment(newId, req.patientId, req.doctorId, req.date, req.time, req.status, req.notes);
      AppendKeepsExclusive(appointments, a);
      assert AppointmentIdsUnique(appointments + [a]) by {
        forall i | 0 <= i < |appointments| ensures appointments[i].id != newId {
          assert appointments[i] in appointments;
        }
      }
      appointments := appointments + [a];
      r := Ok(newId);
    }

    /**
     * Move an appointment to a new date and time. Refused when the id is
     * unknown, or when another active appointment of the same doctor holds
     * the new slot; the moved appointment itself never counts as a conflict.
     */
    method RescheduleAppointment(id: string, date: string, time: string) returns (r: Result<()>)
      requires Valid()
      modifies this
      ensures Valid()
      ensures patients == old(patients)
      ensures Evolves(old(appointments), appointments)
      ensures !AppointmentExists(old(appointments), id) ==> r == Err(NotFound(AppointmentEntity))
      ensures forall a :: a in old(appointments) && a.id == id ==>
        r == if SlotTaken(old(appointments), Slot(a.doctorId, date, time), Some(id)) then Err(SlotBooked) else Ok(())
      ensures r.Err? ==> appointments == old(appointments)
      ensures r.Ok? ==> appointments == Rescheduled(old(appointments), id, date, time)
    {
      var found := FindAppointment(appointments, id);
      if found.None? {
        return Err(NotFound(AppointmentEntity));
      }
      var k := found.value;
      forall a | a in appointments && a.id == id ensures a == appointments[k] {
        var i :| 0 <= i < |appointments| && appointments[i] == a;
        UniqueIdAt(appointments, k, i);
      }
      var appt := appointments[k];
      var conflict := FirstConflict(appointments, Slot(appt.doctorId, date, time), Some(id));
      if conflict.Some? {
        return Err(SlotBooked);
      }
      RescheduleKeepsExclusive(appointments, k, date, time);
      RescheduledIsUpdateAt(appointments, k, date, time);
      ghost var moved := appointments[k := appt.(date := date, time := time)];
      assert AppointmentIdsUnique(moved) by {
        forall i, j | 0 <= i < j < |moved| ensures moved[i].id != moved[j].id {
          assert moved[i].id == appointments[i].id && moved[j].id == appointments[j].id;
        }
      }
      assert ReferencesResolve(patients, moved) by {
        forall b | b in moved ensures PatientRegistered(patients, b.patientId) && IsDoctor(b.doctorId) {
          var i :| 0 <= i < |moved| && moved[i] == b;
          assert appointments[i] in appointments;
        }
      }
      appointments := appointments[k := appt.(date := date, time := time)];
      r := Ok(());
    }

    /**
     * Cancel an appointment: its status becomes "cancelled" and nothing is
     * removed. Refused only when the id is unknown, so a second call on the
     * same id succeeds again.
     */
    method CancelAppointment(id: string) returns (r: Result<()>)
      requires Valid()
      modifies this
      ensures Valid()
      ensures patients == old(patients)
      ensures Evolves(old(appointments), appointments)
      ensures r.Ok? <==> AppointmentExists(old(appointments), id)
      ensures r.Err? ==> r.error == NotFound(AppointmentEntity) && appointments == old(appointments)
      ensures r.Ok? ==> appointments == CancelIn(old(appointments), id)
    {
      var found := FindAppointment(appointments, id);
      if found.None? {
        return Err(NotFound(AppointmentEntity));
      }
      var k := found.value;
      CancelKeepsExclusive(appointments, id);
      CancelInIsUpdateAt(appointments, k);
      ghost var cancelled := appointments[k := appointments[k].(status := StatusCancelled)];
      assert AppointmentIdsUnique(cancelled) by {
        forall i, j | 0 <= i < j < |cancelled| ensures cancelled[i].id != cancelled[j].id {
          assert cancelled[i].id == appointments[i].id && cancelled[j].id == appointments[j].id;
        }
      }
      assert ReferencesResolve(patients, cancelled) by {
        forall b | b in cancelled ensures PatientRegistered(patients, b.patientId) && IsDoctor(b.doctorId) {
          var i :| 0 <= i < |cancelled| && cancelled[i] == b;
          assert appointments[i] in appointments;
        }
      }
      appointments := appointments[k := appointments[k].(status := StatusCancelled)];
      r := Ok(());
    }
  }

  // ---- a client of the store: the engine's behaviour on one clinic day, followed through the contracts alone ----

  const Asha := Patient("p1", "Asha Rao", "1990-04-02", "555-0100")

  function BookingAt(date: string, time: string): (a: Appointment) {
    Appointment("a1", Asha.id, "doc1", date, time, StatusScheduled, "")
  }

  method ClinicWithAsha() returns (store: Store)
    ensures fresh(store) && store.Valid()
    ensures store.patients == [Asha] && store.appointments == []
  {
    store := new Store();
    var reg := store.RegisterPatient(Asha.name, Asha.dob, Asha.contact, Asha.id);
  }

  method ClinicWithBooking(date: string, time: string) returns (store: Store)
    ensures fresh(store) && store.Valid()
    ensures store.patients == [Asha] && store.appointments == [BookingAt(date, time)]
  {
    store := ClinicWithAsha();
    assert Asha in store.patients;
    var first := store.BookAppointment(BookingRequest(Asha.id, "doc1", date, time), "a1");
  }

  /** A patient identity registers once only, and search then finds it. */
  method RegistrationScenario() {
    var store := ClinicWithAsha();
    assert Asha in store.patients;
    var again := store.RegisterPatient(Asha.name, Asha.dob, "555-0199", "p2");
    assert again == Err(AlreadyExists);
    var found := SearchPatient(store.patients, "Asha Rao", "1990-04-02");
    assert found == Ok(Asha);
  }

  /** Booking checks the patient before the doctor. */
  method BookingOrderScenario() {
    var store := ClinicWithAsha();
    var stranger := store.BookAppointment(BookingRequest("nobody", "doc99", "2025-03-10", "09:00"), "a1");
    assert stranger == Err(NotFound(PatientEntity));
    assert Asha in store.patients;
    var unknownDoctor := store.BookAppointment(BookingRequest(Asha.id, "doc99", "2025-03-10", "09:00"), "a1");
    assert unknownDoctor == Err(NotFound(DoctorEntity));
  }

  /** A booked slot cannot be booked again, by anyone. */
  method DoubleBookingScenario() {
    var store := ClinicWithBooking("2025-03-10", "09:00");
    BookedSlotIsTaken([], BookingAt("2025-03-10", "09:00"));
    assert Asha in store.patients;
    var second := store.BookAppointment(BookingRequest(Asha.id, "doc1", "2025-03-10", "09:00"), "a2");
    assert second == Err(SlotBooked);
  }

  /** Moving an appointment vacates its old slot. */
  method MoveScenario() {
    var store := ClinicWithBooking("2025-03-10", "09:00");
    assert BookingAt("2025-03-10", "09:00") in store.appointments;
    var moved := store.RescheduleAppointment("a1", "2025-03-11", "10:00");
    assert moved == Ok(());
    assert store.appointments == [BookingAt("2025-03-11", "10:00")];
    assert Asha in store.patients;
    var vacated := store.BookAppointment(BookingRequest(Asha.id, "doc1", "2025-03-10", "09:00"), "a2");
    assert vacated == Ok("a2");
  }

  /** A cancelled appointment leaves the doctor's day, and cancelling it again succeeds. */
  method CancelScenario() {
    var store := ClinicWithBooking("2025-03-11", "10:00");
    assert BookingAt("2025-03-11", "10:00") in store.appointments;
    assert AppointmentExists(store.appointments, "a1");
    var cancelled := store.CancelAppointment("a1");
    assert cancelled.Ok?;
    assert store.appointments == [BookingAt("2025-03-11", "10:00").(status := StatusCancelled)];
    var day := DoctorDay(store.appointments, "doc1", "2025-03-11");
    assert forall a :: a !in day;
    assert BookingAt("2025-03-11", "10:00").(status := StatusCancelled) in store.appointments;
    assert AppointmentExists(store.appointments, "a1");
    var twice := store.CancelAppointment("a1");
    assert twice.Ok?;
  }
}
