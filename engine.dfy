/**
 * What the mutating operations do to the appointments table, stated as
 * table-wide updates, and the lemmas that each of booking, rescheduling and
 * cancellation keeps "at most one non-cancelled appointment per slot".
 */
module Engine {
  import opened Records
  import opened Queries
  import opened Invariants

  /** The table after every row with this id has been moved to (date, time). */
  function Rescheduled(appts: seq<Appointment>, id: string, date: string, time: string): (r: seq<Appointment>) {
    seq(|appts|, i requires 0 <= i < |appts| =>
      if appts[i].id == id then appts[i].(date := date, time := time) else appts[i])
  }

  /** The table after every row with this id has been marked cancelled. */
  function CancelIn(appts: seq<Appointment>, id: string): (r: seq<Appointment>) {
    seq(|appts|, i requires 0 <= i < |appts| =>
      if appts[i].id == id then appts[i].(status := StatusCancelled) else appts[i])
  }

  /**
   * How the table may evolve: rows are never removed or reordered, a row keeps
   * its id, patient and doctor, and a cancelled row stays cancelled.
   */
  ghost predicate Evolves(before: seq<Appointment>, after: seq<Appointment>) {
    && |before| <= |after|
    && forall i :: 0 <= i < |before| ==>
         && after[i].id == before[i].id
         && after[i].patientId == before[i].patientId
         && after[i].doctorId == before[i].doctorId
         && (!Active(before[i]) ==> !Active(after[i]))
  }

  /** The appointment the table holds under `id`, when ids are unique. */
  lemma UniqueIdAt(appts: seq<Appointment>, k: nat, i: nat)
    requires AppointmentIdsUnique(appts)
    requires k < |appts| && i < |appts|
    ensures appts[i].id == appts[k].id <==> i == k
  {
    if i < k {
      assert appts[i].id != appts[k].id;
    } else if k < i {
      assert appts[k].id != appts[i].id;
    }
  }

  /** With unique ids, the table-wide move is the update of one position. */
  lemma RescheduledIsUpdateAt(appts: seq<Appointment>, k: nat, date: string, time: string)
    requires AppointmentIdsUnique(appts)
    requires k < |appts|
    ensures Rescheduled(appts, appts[k].id, date, time) == appts[k := appts[k].(date := date, time := time)]
  {
    forall i | 0 <= i < |appts| {
      UniqueIdAt(appts, k, i);
    }
  }

  /** With unique ids, the table-wide cancellation is the update of one position. */
  lemma CancelInIsUpdateAt(appts: seq<Appointment>, k: nat)
    requires AppointmentIdsUnique(appts)
    requires k < |appts|
    ensures CancelIn(appts, appts[k].id) == appts[k := appts[k].(status := StatusCancelled)]
  {
    forall i | 0 <= i < |appts| {
      UniqueIdAt(appts, k, i);
    }
  }

  /** Booking: appending a new appointment at a slot nobody holds keeps the slots exclusive. */
  lemma AppendKeepsExclusive(appts: seq<Appointment>, a: Appointment)
    requires SlotsExclusive(appts)
    requires !SlotTaken(appts, SlotOf(a), None)
    ensures SlotsExclusive(appts + [a])
  {
    var r := appts + [a];
    forall i, j | 0 <= i < j < |r| && Active(r[i]) && Active(r[j])
      ensures SlotOf(r[i]) != SlotOf(r[j])
    {
      if j == |appts| {
        assert r[i] in appts;
        assert !Conflicts(r[i], SlotOf(a), None);
      }
    }
  }

  /**
   * Rescheduling: when no other active appointment holds the target slot of
   * the moved appointment's doctor, the move keeps the slots exclusive.
   */
  lemma RescheduleKeepsExclusive(appts: seq<Appointment>, k: nat, date: string, time: string)
    requires SlotsExclusive(appts) && AppointmentIdsUnique(appts)
    requires k < |appts|
    requires !SlotTaken(appts, Slot(appts[k].doctorId, date, time), Some(appts[k].id))
    ensures SlotsExclusive(Rescheduled(appts, appts[k].id, date, time))
  {
    var id := appts[k].id;
    var target := Slot(appts[k].doctorId, date, time);
    var r := Rescheduled(appts, id, date, time);
    forall i, j | 0 <= i < j < |r| && Active(r[i]) && Active(r[j])
      ensures SlotOf(r[i]) != SlotOf(r[j])
    {
      UniqueIdAt(appts, k, i);
      UniqueIdAt(appts, k, j);
      if i == k {
        assert appts[j] in appts && !Conflicts(appts[j], target, Some(id));
      } else if j == k {
        assert appts[i] in appts && !Conflicts(appts[i], target, Some(id));
      }
    }
  }

  /** Cancellation never makes a row active, so it keeps the slots exclusive. */
  lemma CancelKeepsExclusive(appts: seq<Appointment>, id: string)
    requires SlotsExclusive(appts)
    ensures SlotsExclusive(CancelIn(appts, id))
  {
    var r := CancelIn(appts, id);
    forall i, j | 0 <= i < j < |r| && Active(r[i]) && Active(r[j])
      ensures SlotOf(r[i]) != SlotOf(r[j])
    {
      assert r[i] == appts[i] && r[j] == appts[j];
    }
  }

  /** After a cancellation, no conflict probe can find the cancelled appointment. */
  lemma CancelledNeverConflicts(appts: seq<Appointment>, id: string, slot: Slot, exclude: Option<string>)
    ensures forall a :: a in CancelIn(appts, id) && a.id == id ==> !Conflicts(a, slot, exclude)
  {
    var r := CancelIn(appts, id);
    forall a | a in r && a.id == id ensures !Active(a) {
      var i :| 0 <= i < |r| && r[i] == a;
    }
  }

  /** Cancelling an active appointment frees its slot for the next booking. */
  lemma CancelFreesSlot(appts: seq<Appointment>, k: nat)
    requires SlotsExclusive(appts) && AppointmentIdsUnique(appts)
    requires k < |appts| && Active(appts[k])
    ensures !SlotTaken(CancelIn(appts, appts[k].id), SlotOf(appts[k]), None)
  {
    var r := CancelIn(appts, appts[k].id);
    forall a | a in r ensures !Conflicts(a, SlotOf(appts[k]), None) {
      var i :| 0 <= i < |r| && r[i] == a;
      UniqueIdAt(appts, k, i);
      if i < k {
        assert !(Active(appts[i]) && SlotOf(appts[i]) == SlotOf(appts[k]));
      } else if k < i {
        assert !(Active(appts[i]) && SlotOf(appts[i]) == SlotOf(appts[k]));
      }
    }
  }

  /** Cancelling twice leaves the table as cancelling once. */
  lemma CancelIdempotent(appts: seq<Appointment>, id: string)
    ensures CancelIn(CancelIn(appts, id), id) == CancelIn(appts, id)
  {
  }

  /** A cancel keeps every row in place with its id, so the ids present before are present after. */
  lemma CancelKeepsIds(appts: seq<Appointment>, id: string)
    ensures |CancelIn(appts, id)| == |appts|
    ensures forall i :: 0 <= i < |appts| ==> CancelIn(appts, id)[i].id == appts[i].id
    ensures forall x :: AppointmentExists(appts, x) ==> AppointmentExists(CancelIn(appts, id), x)
  {
    forall x | AppointmentExists(appts, x) ensures AppointmentExists(CancelIn(appts, id), x) {
      var a :| a in appts && a.id == x;
      var i :| 0 <= i < |appts| && appts[i] == a;
      assert CancelIn(appts, id)[i] in CancelIn(appts, id);
    }
  }

  /** Cancelling an id the table does not hold changes nothing. */
  lemma CancelAbsent(appts: seq<Appointment>, id: string)
    requires !AppointmentExists(appts, id)
    ensures CancelIn(appts, id) == appts
  {
    forall i | 0 <= i < |appts| ensures appts[i].id != id {
      assert appts[i] in appts;
    }
  }

  /** An active appointment never conflicts with itself: moving it onto its own slot is never refused. */
  lemma RescheduleOntoOwnSlot(appts: seq<Appointment>, k: nat)
    requires SlotsExclusive(appts) && AppointmentIdsUnique(appts)
    requires k < |appts| && Active(appts[k])
    ensures !SlotTaken(appts, SlotOf(appts[k]), Some(appts[k].id))
  {
    forall a | a in appts ensures !Conflicts(a, SlotOf(appts[k]), Some(appts[k].id)) {
      var i :| 0 <= i < |appts| && appts[i] == a;
      if i < k {
        assert !(Active(appts[i]) && SlotOf(appts[i]) == SlotOf(appts[k]));
      } else if k < i {
        assert !(Active(appts[i]) && SlotOf(appts[i]) == SlotOf(appts[k]));
      }
    }
  }

  /**
   * The same does not hold of a cancelled appointment: once another booking
   * has taken its old slot, moving it back onto that slot is refused.
   */
  lemma CancelledOwnSlotCanBeTaken()
    ensures
      var a := Appointment("a1", "p1", "doc1", "2025-03-10", "09:00", StatusCancelled, "");
      var b := Appointment("a2", "p2", "doc1", "2025-03-10", "09:00", StatusScheduled, "");
      SlotsExclusive([a, b]) && AppointmentIdsUnique([a, b]) &&
      SlotTaken([a, b], SlotOf(a), Some(a.id))
  {
    var a := Appointment("a1", "p1", "doc1", "2025-03-10", "09:00", StatusCancelled, "");
    var b := Appointment("a2", "p2", "doc1", "2025-03-10", "09:00", StatusScheduled, "");
    assert b in [a, b] && Conflicts(b, SlotOf(a), Some(a.id));
  }

  /** Right after a booking, a second booking of the same slot is refused. */
  lemma BookedSlotIsTaken(appts: seq<Appointment>, a: Appointment)
    requires Active(a)
    ensures SlotTaken(appts + [a], SlotOf(a), None)
  {
    assert a in appts + [a];
  }
}
