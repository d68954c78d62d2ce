/**
 * The read-only queries of the engine. A table is a sequence of rows in
 * table order; a filtered query's `.first()` is `First` and its `.all()` is
 * `Where`. Every lookup, conflict probe and listing is one of those two with
 * the filter written out.
 */
module Queries {
  import opened Records

  /** Index of the first element satisfying `p`, or None when there is none. */
  function First<T>(s: seq<T>, p: T -> bool): (r: Option<nat>)
    ensures r.Some? ==> r.value < |s| && p(s[r.value])
    ensures r.Some? ==> forall j :: 0 <= j < r.value ==> !p(s[j])
    ensures r.None? <==> forall j :: 0 <= j < |s| ==> !p(s[j])
  {
    if s == [] then None
    else if p(s[0]) then Some(0)
    else
      match First(s[1..], p)
      case None =>
        assert forall j :: 1 <= j < |s| ==> s[j] == s[1..][j - 1];
        None
      case Some(k) =>
        assert forall j :: 1 <= j <= k ==> s[j] == s[1..][j - 1];
        Some(k + 1)
  }

  /** The elements satisfying `p`, each as often as it occurs in `s`; order is not promised. */
  function Where<T(==,!new)>(s: seq<T>, p: T -> bool): (r: seq<T>)
    ensures |r| <= |s|
    ensures forall x :: multiset(r)[x] == if p(x) then multiset(s)[x] else 0
    ensures forall x :: x in r <==> x in s && p(x)
  {
    if s == [] then []
    else
      var rest := Where(s[1..], p);
      assert s == [s[0]] + s[1..];
      assert multiset(s) == multiset{s[0]} + multiset(s[1..]);
      if p(s[0]) then [s[0]] + rest else rest
  }

  // ---- patients ----

  ghost predicate IdentityTaken(ps: seq<Patient>, name: string, dob: string) {
    exists p :: p in ps && p.name == name && p.dob == dob
  }

  ghost predicate PatientRegistered(ps: seq<Patient>, id: string) {
    exists p :: p in ps && p.id == id
  }

  /** The probe shared by search and registration: the first patient with this name and date of birth. */
  function FindByIdentity(ps: seq<Patient>, name: string, dob: string): (r: Option<Patient>)
    ensures r.Some? ==> r.value in ps && r.value.name == name && r.value.dob == dob
    ensures r.None? <==> !IdentityTaken(ps, name, dob)
  {
    match First(ps, (p: Patient) => p.name == name && p.dob == dob)
    case None => None
    case Some(i) => Some(ps[i])
  }

  /** Patient search: the patient with this name and date of birth, or NotFound. */
  function SearchPatient(ps: seq<Patient>, name: string, dob: string): (r: Result<Patient>)
    ensures r.Ok? <==> IdentityTaken(ps, name, dob)
    ensures r.Ok? ==> r.value in ps && r.value.name == name && r.value.dob == dob
    ensures r.Err? ==> r.error == NotFound(PatientEntity)
  {
    match FindByIdentity(ps, name, dob)
    case Some(p) => Ok(p)
    case None => Err(NotFound(PatientEntity))
  }

  /** Booking's patient check: the first patient with this id. */
  function FindPatientById(ps: seq<Patient>, id: string): (r: Option<Patient>)
    ensures r.Some? ==> r.value in ps && r.value.id == id
    ensures r.None? <==> !PatientRegistered(ps, id)
  {
    match First(ps, (p: Patient) => p.id == id)
    case None => None
    case Some(i) => Some(ps[i])
  }

  // ---- appointments ----

  ghost predicate AppointmentExists(appts: seq<Appointment>, id: string) {
    exists a :: a in appts && a.id == id
  }

  /** The position of the first appointment with this id. */
  function FindAppointment(appts: seq<Appointment>, id: string): (r: Option<nat>)
    ensures r.Some? ==> r.value < |appts| && appts[r.value].id == id
    ensures r.None? <==> !AppointmentExists(appts, id)
  {
    First(appts, (a: Appointment) => a.id == id)
  }

  /**
   * `a` stands in the way of a booking at `slot`: it holds the slot and is
   * not the appointment being moved (`exclude`, when given).
   */
  predicate Conflicts(a: Appointment, slot: Slot, exclude: Option<string>) {
    Occupies(a, slot) && (exclude.Some? ==> a.id != exclude.value)
  }

  ghost predicate SlotTaken(appts: seq<Appointment>, slot: Slot, exclude: Option<string>) {
    exists a :: a in appts && Conflicts(a, slot, exclude)
  }

  /** The conflict probe of booking (no exclusion) and of rescheduling (excluding the moved appointment). */
  function FirstConflict(appts: seq<Appointment>, slot: Slot, exclude: Option<string>): (r: Option<Appointment>)
    ensures r.Some? ==> r.value in appts && Conflicts(r.value, slot, exclude)
    ensures r.None? <==> !SlotTaken(appts, slot, exclude)
  {
    match First(appts, (a: Appointment) => Conflicts(a, slot, exclude))
    case None => None
    case Some(i) => Some(appts[i])
  }

  /** A patient's appointments, whatever their status. */
  function AppointmentsOfPatient(appts: seq<Appointment>, patientId: string): (r: seq<Appointment>)
    ensures forall a :: a in r <==> a in appts && a.patientId == patientId
    ensures forall a :: a in appts && a.patientId == patientId ==> multiset(r)[a] == multiset(appts)[a]
  {
    Where(appts, (a: Appointment) => a.patientId == patientId)
  }

  /** A doctor's appointments on one date, leaving out the cancelled ones. */
  function DoctorDay(appts: seq<Appointment>, doctorId: string, date: string): (r: seq<Appointment>)
    ensures forall a :: a in r <==> a in appts && a.doctorId == doctorId && a.date == date && Active(a)
    ensures forall a :: a in r ==> multiset(r)[a] == multiset(appts)[a]
  {
    Where(appts, (a: Appointment) => a.doctorId == doctorId && a.date == date && Active(a))
  }
}
