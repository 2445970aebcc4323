/** The scheduling records: employees, bookings and the job assignments
    that link them, with the two behaviours the records carry themselves:
    where an employee is at a given slot, and the default jobsite an
    assignment receives when it is saved. The assignment table is a
    sequence in primary-key order. */
module Scheduling {
  import opened Common
  import opened Dates

  type EmployeeId = nat
  type CategoryId = nat
  type SlotId = nat
  type BookingId = nat

  /** A service category; names are unique in the table. */
  datatype ServiceCategory = ServiceCategory(id: CategoryId, name: string)

  datatype Employee = Employee(id: EmployeeId, name: string, homeAddress: string, category: CategoryId)

  /** A booking. The stored model has no date column although the
      availability queries filter on one; it is given one here. */
  datatype Booking = Booking(
    id: BookingId,
    customerName: string,
    customerAddress: string,
    category: CategoryId,
    slot: SlotId,
    date: CalendarDate)

  datatype JobAssignment = JobAssignment(employee: EmployeeId, booking: Booking, jobsiteAddress: string)

  datatype IntegrityError = DuplicateEmployeeBooking

  /** The assignment is `employee`'s job on `date` in `slot`. */
  predicate AssignedAt(a: JobAssignment, employee: EmployeeId, date: CalendarDate, slot: SlotId) {
    a.employee == employee && a.booking.date == date && a.booking.slot == slot
  }

  // ---------------------------------------------------------------------------
  // Employee.current_location
  // ---------------------------------------------------------------------------

  /** Where `e` is at `date`/`slot`: the jobsite of the first (lowest-key)
      assignment at that date and slot, or the home address if there is
      none. */
  function CurrentLocation(assignments: seq<JobAssignment>, e: Employee, date: CalendarDate, slot: SlotId): (r: string)
    ensures (forall i :: 0 <= i < |assignments| ==> !AssignedAt(assignments[i], e.id, date, slot)) ==> r == e.homeAddress
    ensures (exists i :: 0 <= i < |assignments| && AssignedAt(assignments[i], e.id, date, slot)) ==>
              exists i :: 0 <= i < |assignments| && AssignedAt(assignments[i], e.id, date, slot)
                          && r == assignments[i].jobsiteAddress
                          && forall j :: 0 <= j < i ==> !AssignedAt(assignments[j], e.id, date, slot)
  {
    if assignments == [] then e.homeAddress
    else if AssignedAt(assignments[0], e.id, date, slot) then assignments[0].jobsiteAddress
    else
      var r := CurrentLocation(assignments[1..], e, date, slot);
      assert forall i :: 1 <= i < |assignments| ==> assignments[i] == assignments[1..][i - 1];
      r
  }

  // ---------------------------------------------------------------------------
  // JobAssignment.save and unique_together (employee, booking)
  // ---------------------------------------------------------------------------

  /** `JobAssignment.save`: an empty jobsite address is filled with the
      booking's customer address; anything else is kept. */
  function SaveAssignment(a: JobAssignment): (r: JobAssignment)
    ensures r.employee == a.employee && r.booking == a.booking
    ensures a.jobsiteAddress == [] ==> r.jobsiteAddress == a.booking.customerAddress
    ensures a.jobsiteAddress != [] ==> r == a
  {
    if a.jobsiteAddress == [] then a.(jobsiteAddress := a.booking.customerAddress) else a
  }

  /** At most one row per (employee, booking) pair. */
  predicate UniqueEmployeeBooking(assignments: seq<JobAssignment>) {
    forall i, j :: 0 <= i < j < |assignments| ==>
      (assignments[i].employee, assignments[i].booking.id) != (assignments[j].employee, assignments[j].booking.id)
  }

  predicate HasPair(assignments: seq<JobAssignment>, employee: EmployeeId, booking: BookingId) {
    exists i :: 0 <= i < |assignments| && assignments[i].employee == employee && assignments[i].booking.id == booking
  }

  /** Inserting a new assignment row: the uniqueness constraint rejects a
      second row for the same pair; otherwise the saved row is appended. */
  function InsertAssignment(assignments: seq<JobAssignment>, a: JobAssignment): (r: Result<seq<JobAssignment>, IntegrityError>)
    ensures r.Err? <==> HasPair(assignments, a.employee, a.booking.id)
    ensures r.Ok? ==> r.value == assignments + [SaveAssignment(a)]
  {
    if HasPair(assignments, a.employee, a.booking.id) then Err(DuplicateEmployeeBooking)
    else Ok(assignments + [SaveAssignment(a)])
  }

  /** Every insertion the constraint admits keeps the table unique. */
  lemma InsertKeepsUnique(assignments: seq<JobAssignment>, a: JobAssignment)
    requires UniqueEmployeeBooking(assignments)
    ensures InsertAssignment(assignments, a).Ok? ==> UniqueEmployeeBooking(InsertAssignment(assignments, a).value)
  {
    if !HasPair(assignments, a.employee, a.booking.id) {
      var r := assignments + [SaveAssignment(a)];
      forall i, j | 0 <= i < j < |r|
        ensures (r[i].employee, r[i].booking.id) != (r[j].employee, r[j].booking.id)
      {
        if j == |assignments| {
          assert r[i] == assignments[i];
        }
      }
    }
  }
}
