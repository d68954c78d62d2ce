/**
 * The invariants the store keeps, and what they buy the read-only queries:
 * under identity uniqueness a search finds exactly the registered patient,
 * and under slot exclusivity a doctor's day lists each time at most once.
 */
module Invariants {
  import opened Records
  import opened Queries

  /** No two patients share a (name, dob) pair: the natural key of search and registration. */
  ghost predicate IdentitiesUnique(ps: seq<Patient>) {
    forall i, j :: 0 <= i < j < |ps| ==> ps[i].name != ps[j].name || ps[i].dob != ps[j].dob
  }

  ghost predicate PatientIdsUnique(ps: seq<Patient>) {
    forall i, j :: 0 <= i < j < |ps| ==> ps[i].id != ps[j].id
  }

  ghost predicate AppointmentIdsUnique(appts: seq<Appointment>) {
    forall i, j :: 0 <= i < j < |appts| ==> appts[i].id != appts[j].id
  }

  /** The central invariant: at most one non-cancelled appointment per (doctor, date, time). */
  ghost predicate SlotsExclusive(appts: seq<Appointment>) {
    forall i, j :: 0 <= i < j < |appts| && Active(appts[i]) && Active(appts[j]) ==> SlotOf(appts[i]) != SlotOf(appts[j])
  }

  /** Every appointment names a registered patient and a doctor of the roster. */
  ghost predicate ReferencesResolve(ps: seq<Patient>, appts: seq<Appointment>) {
    forall a :: a in appts ==> PatientRegistered(ps, a.patientId) && IsDoctor(a.doctorId)
  }

  ghost predicate StoreInvariant(ps: seq<Patient>, appts: seq<Appointment>) {
    && IdentitiesUnique(ps)
    && PatientIdsUnique(ps)
    && AppointmentIdsUnique(appts)
    && SlotsExclusive(appts)
    && ReferencesResolve(ps, appts)
  }

  /** With (name, dob) unique, searching a registered patient's identity returns that very patient. */
  lemma SearchFindsRegistered(ps: seq<Patient>, k: nat)
    requires IdentitiesUnique(ps)
    requires k < |ps|
    ensures SearchPatient(ps, ps[k].name, ps[k].dob) == Ok(ps[k])
  {
    assert ps[k] in ps;
    assert forall j :: 0 <= j < |ps| && ps[j].name == ps[k].name && ps[j].dob == ps[k].dob ==> j == k;
  }

  /** A patient added under a fresh identity is what a search for that identity then returns. */
  lemma RegisterThenSearch(ps: seq<Patient>, p: Patient)
    requires !IdentityTaken(ps, p.name, p.dob)
    ensures SearchPatient(ps + [p], p.name, p.dob) == Ok(p)
  {
    assert p in ps + [p];
    assert forall q :: q in ps ==> q.name != p.name || q.dob != p.dob;
  }

  /** Adding a patient whose identity is not taken keeps identities unique. */
  lemma RegisterKeepsIdentitiesUnique(ps: seq<Patient>, p: Patient)
    requires IdentitiesUnique(ps)
    requires !IdentityTaken(ps, p.name, p.dob)
    ensures IdentitiesUnique(ps + [p])
  {
    var ps' := ps + [p];
    forall i, j | 0 <= i < j < |ps'|
      ensures ps'[i].name != ps'[j].name || ps'[i].dob != ps'[j].dob
    {
      if j == |ps| {
        assert ps'[i] in ps;
      }
    }
  }

  /** The tail of a slot-exclusive table is slot-exclusive, and shares no slot with an active head. */
  lemma ExclusiveTail(s: seq<Appointment>)
    requires s != [] && SlotsExclusive(s)
    ensures SlotsExclusive(s[1..])
    ensures Active(s[0]) ==> forall y :: y in s[1..] && Active(y) ==> SlotOf(y) != SlotOf(s[0])
  {
    var t := s[1..];
    forall i, j | 0 <= i < j < |t| && Active(t[i]) && Active(t[j])
      ensures SlotOf(t[i]) != SlotOf(t[j])
    {
      assert t[i] == s[i + 1] && t[j] == s[j + 1];
    }
    forall y | y in t && Active(y) && Active(s[0])
      ensures SlotOf(y) != SlotOf(s[0])
    {
      var m :| 0 <= m < |t| && t[m] == y;
      assert s[m + 1] == y;
    }
  }

  /** Putting an appointment in front of a slot-exclusive table keeps it so when no active row shares its slot. */
  lemma ExclusiveCons(x: Appointment, t: seq<Appointment>)
    requires SlotsExclusive(t)
    requires Active(x) ==> forall y :: y in t && Active(y) ==> SlotOf(y) != SlotOf(x)
    ensures SlotsExclusive([x] + t)
  {
    var r := [x] + t;
    forall i, j | 0 <= i < j < |r| && Active(r[i]) && Active(r[j])
      ensures SlotOf(r[i]) != SlotOf(r[j])
    {
      assert r[j] == t[j - 1];
      if i == 0 {
        assert t[j - 1] in t;
      } else {
        assert r[i] == t[i - 1];
      }
    }
  }

  /** Filtering a slot-exclusive table leaves it slot-exclusive. */
  lemma {:induction false} WhereKeepsExclusive(s: seq<Appointment>, p: Appointment -> bool)
    requires SlotsExclusive(s)
    ensures SlotsExclusive(Where(s, p))
    decreases |s|
  {
    if s != [] {
      ExclusiveTail(s);
      WhereKeepsExclusive(s[1..], p);
      if p(s[0]) {
        ExclusiveCons(s[0], Where(s[1..], p));
      }
    }
  }

  /** Under slot exclusivity a doctor's daily listing never shows two appointments at one time. */
  lemma DoctorDayTimesDistinct(appts: seq<Appointment>, doctorId: string, date: string)
    requires SlotsExclusive(appts)
    ensures forall i, j :: 0 <= i < j < |DoctorDay(appts, doctorId, date)| ==>
      DoctorDay(appts, doctorId, date)[i].time != DoctorDay(appts, doctorId, date)[j].time
  {
    var r := DoctorDay(appts, doctorId, date);
    WhereKeepsExclusive(appts, (a: Appointment) => a.doctorId == doctorId && a.date == date && Active(a));
    forall i, j | 0 <= i < j < |r| ensures r[i].time != r[j].time {
      assert r[i] in r && r[j] in r;
      assert SlotOf(r[i]) != SlotOf(r[j]);
    }
  }
}
