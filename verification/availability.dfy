/** The employee-availability rule of `get_available_employees`: for one
    customer address, date, time slot and service category, which employees
    of that category can take the job. Drive time is a parameter; the
    shipped implementation is the constant `CalculateDriveTime`. */
module Availability {
  import opened Common
  import opened Dates
  import opened Scheduling

  /** The drive budget in minutes; a drive of exactly this long still
      qualifies. */
  const MaxDriveMinutes: nat := 30

  /** Minutes to drive from the first address to the second. */
  type DriveTime = (string, string) -> nat

  /** `calculate_drive_time`: the placeholder that answers 20 minutes for
      every pair of addresses. */
  function CalculateDriveTime(from: string, to: string): nat {
    20
  }

  /** One search: the customer's address, the date, the slot and the
      service category. */
  datatype Query = Query(customerAddress: string, date: CalendarDate, slot: SlotId, category: CategoryId)

  // ---------------------------------------------------------------------------
  // The query-set pieces
  // ---------------------------------------------------------------------------

  /** `Employee.objects.filter(service_category=...)`, in table order. */
  function InCategory(employees: seq<Employee>, category: CategoryId): (r: seq<Employee>)
    ensures forall x :: x in r <==> x in employees && x.category == category
    ensures |r| <= |employees|
  {
    if employees == [] then []
    else (if employees[0].category == category then [employees[0]] else []) + InCategory(employees[1..], category)
  }

  /** The employee already has an assignment at the requested date and slot. */
  predicate BookedAt(assignments: seq<JobAssignment>, e: Employee, date: CalendarDate, slot: SlotId) {
    exists i :: 0 <= i < |assignments| && AssignedAt(assignments[i], e.id, date, slot)
  }

  predicate OnDate(a: JobAssignment, employee: EmployeeId, date: CalendarDate) {
    a.employee == employee && a.booking.date == date
  }

  /** The employee's assignments on `date`, in table order. */
  function JobsOn(assignments: seq<JobAssignment>, e: Employee, date: CalendarDate): (r: seq<JobAssignment>)
    ensures forall a :: a in r <==> a in assignments && OnDate(a, e.id, date)
  {
    if assignments == [] then []
    else (if OnDate(assignments[0], e.id, date) then [assignments[0]] else []) + JobsOn(assignments[1..], e, date)
  }

  predicate SortedBySlot(jobs: seq<JobAssignment>) {
    forall i, j :: 0 <= i < j < |jobs| ==> jobs[i].booking.slot <= jobs[j].booking.slot
  }

  function InsertBySlot(a: JobAssignment, sorted: seq<JobAssignment>): seq<JobAssignment> {
    if sorted == [] || a.booking.slot <= sorted[0].booking.slot then [a] + sorted
    else [sorted[0]] + InsertBySlot(a, sorted[1..])
  }

  /** `order_by("booking__time_slot__id")`: a stable sort on the slot key. */
  function SortBySlot(jobs: seq<JobAssignment>): seq<JobAssignment> {
    if jobs == [] then [] else InsertBySlot(jobs[0], SortBySlot(jobs[1..]))
  }

  predicate SlotsAtLeast(jobs: seq<JobAssignment>, m: nat) {
    forall i :: 0 <= i < |jobs| ==> m <= jobs[i].booking.slot
  }

  lemma {:induction false} InsertKeepsLowerBound(a: JobAssignment, sorted: seq<JobAssignment>, m: nat)
    requires SlotsAtLeast(sorted, m) && m <= a.booking.slot
    ensures SlotsAtLeast(InsertBySlot(a, sorted), m)
  {
    if sorted != [] && a.booking.slot > sorted[0].booking.slot {
      InsertKeepsLowerBound(a, sorted[1..], m);
    }
  }

  lemma {:induction false} InsertBySlotSorted(a: JobAssignment, sorted: seq<JobAssignment>)
    requires SortedBySlot(sorted)
    ensures SortedBySlot(InsertBySlot(a, sorted))
  {
    if sorted != [] && a.booking.slot > sorted[0].booking.slot {
      InsertBySlotSorted(a, sorted[1..]);
      InsertKeepsLowerBound(a, sorted[1..], sorted[0].booking.slot);
    }
  }

  lemma {:induction false} InsertBySlotMultiset(a: JobAssignment, sorted: seq<JobAssignment>)
    ensures multiset(InsertBySlot(a, sorted)) == multiset(sorted) + multiset{a}
  {
    if sorted != [] && a.booking.slot > sorted[0].booking.slot {
      InsertBySlotMultiset(a, sorted[1..]);
      assert sorted == [sorted[0]] + sorted[1..];
    }
  }

  lemma {:induction false} SortBySlotSorted(jobs: seq<JobAssignment>)
    ensures SortedBySlot(SortBySlot(jobs))
  {
    if jobs != [] {
      SortBySlotSorted(jobs[1..]);
      InsertBySlotSorted(jobs[0], SortBySlot(jobs[1..]));
    }
  }

  lemma {:induction false} SortBySlotPermutes(jobs: seq<JobAssignment>)
    ensures multiset(SortBySlot(jobs)) == multiset(jobs)
  {
    if jobs != [] {
      SortBySlotPermutes(jobs[1..]);
      InsertBySlotMultiset(jobs[0], SortBySlot(jobs[1..]));
      assert jobs == [jobs[0]] + jobs[1..];
    }
  }

  /** The sort orders by slot and neither loses nor invents a job. */
  lemma SortBySlotSpec(jobs: seq<JobAssignment>)
    ensures SortedBySlot(SortBySlot(jobs))
    ensures multiset(SortBySlot(jobs)) == multiset(jobs)
  {
    SortBySlotSorted(jobs);
    SortBySlotPermutes(jobs);
  }

  /** `todays_jobs`: the employee's assignments on the date, by slot. */
  function TodaysJobs(assignments: seq<JobAssignment>, e: Employee, date: CalendarDate): (r: seq<JobAssignment>)
    ensures SortedBySlot(r)
    ensures forall a :: a in r <==> a in assignments && OnDate(a, e.id, date)
    ensures r == [] <==> forall i :: 0 <= i < |assignments| ==> !OnDate(assignments[i], e.id, date)
  {
    var jobs := JobsOn(assignments, e, date);
    var r := SortBySlot(jobs);
    SortBySlotSpec(jobs);
    assert forall a :: a in r <==> a in multiset(r);
    assert forall a :: a in jobs <==> a in multiset(jobs);
    assert |r| == |multiset(r)| == |multiset(jobs)| == |jobs|;
    assert jobs != [] ==> jobs[0] in assignments;
    r
  }

  // ---------------------------------------------------------------------------
  // The rule
  // ---------------------------------------------------------------------------

  /** Every job in `jobs` is within the budget of the customer address:
      the `all(...)` of availability.py. */
  predicate AllWithinReach(jobs: seq<JobAssignment>, customerAddress: string, drive: DriveTime) {
    forall i :: 0 <= i < |jobs| ==> drive(jobs[i].jobsiteAddress, customerAddress) <= MaxDriveMinutes
  }

  /** The verdict for one employee of the category: not booked in the slot,
      and either no job that day and home within budget, or every job that
      day within budget. */
  predicate Eligible(assignments: seq<JobAssignment>, e: Employee, q: Query, drive: DriveTime) {
    && !BookedAt(assignments, e, q.date, q.slot)
    && var jobs := TodaysJobs(assignments, e, q.date);
       if jobs == [] then drive(e.homeAddress, q.customerAddress) <= MaxDriveMinutes
       else AllWithinReach(jobs, q.customerAddress, drive)
  }

  /** The loop body of `get_available_employees` applied to `candidates`. */
  function Select(candidates: seq<Employee>, assignments: seq<JobAssignment>, q: Query, drive: DriveTime): (r: seq<Employee>)
    ensures forall x :: x in r <==> x in candidates && Eligible(assignments, x, q, drive)
  {
    if candidates == [] then []
    else
      (if Eligible(assignments, candidates[0], q, drive) then [candidates[0]] else [])
      + Select(candidates[1..], assignments, q, drive)
  }

  /** `get_available_employees` of scheduling/availability.py. */
  function AvailableEmployees(employees: seq<Employee>, assignments: seq<JobAssignment>, q: Query, drive: DriveTime): (r: seq<Employee>)
    ensures forall x :: x in r <==> x in employees && x.category == q.category && Eligible(assignments, x, q, drive)
  {
    Select(InCategory(employees, q.category), assignments, q, drive)
  }

  // ---------------------------------------------------------------------------
  // Properties of the rule
  // ---------------------------------------------------------------------------

  /** An employee already assigned at the date and slot is never offered,
      whatever the drive times. */
  lemma BookedNeverAvailable(employees: seq<Employee>, assignments: seq<JobAssignment>, q: Query, drive: DriveTime, e: Employee)
    requires BookedAt(assignments, e, q.date, q.slot)
    ensures e !in AvailableEmployees(employees, assignments, q, drive)
  {
  }

  /** With no job that day, an unbooked employee of the category is offered
      exactly when home is within the budget of the customer address. */
  lemma NoJobsDecidedFromHome(employees: seq<Employee>, assignments: seq<JobAssignment>, q: Query, drive: DriveTime, e: Employee)
    requires e in employees && e.category == q.category
    requires forall i :: 0 <= i < |assignments| ==> !OnDate(assignments[i], e.id, q.date)
    ensures (e in AvailableEmployees(employees, assignments, q, drive))
              <==> drive(e.homeAddress, q.customerAddress) <= MaxDriveMinutes
  {
  }

  /** With jobs that day and no booking in the slot, the employee is offered
      exactly when every one of those jobs, earlier or later, is within the
      budget of the customer address. */
  lemma JobsDecideFromEveryJobsite(employees: seq<Employee>, assignments: seq<JobAssignment>, q: Query, drive: DriveTime, e: Employee)
    requires e in employees && e.category == q.category
    requires !BookedAt(assignments, e, q.date, q.slot)
    requires exists i :: 0 <= i < |assignments| && OnDate(assignments[i], e.id, q.date)
    ensures (e in AvailableEmployees(employees, assignments, q, drive))
              <==> forall a :: a in assignments && OnDate(a, e.id, q.date) ==>
                                 drive(a.jobsiteAddress, q.customerAddress) <= MaxDriveMinutes
  {
    var jobs := TodaysJobs(assignments, e, q.date);
    var i :| 0 <= i < |assignments| && OnDate(assignments[i], e.id, q.date);
    assert assignments[i] in jobs;
    assert forall a :: a in jobs <==> exists k :: 0 <= k < |jobs| && jobs[k] == a;
  }

  /** The budget is inclusive: a home drive of 30 minutes qualifies and one
      of 31 does not. */
  lemma ThresholdInclusive(employees: seq<Employee>, assignments: seq<JobAssignment>, q: Query, e: Employee)
    requires e in employees && e.category == q.category
    requires forall i :: 0 <= i < |assignments| ==> !OnDate(assignments[i], e.id, q.date)
    ensures e in AvailableEmployees(employees, assignments, q, (a: string, b: string) => 30)
    ensures e !in AvailableEmployees(employees, assignments, q, (a: string, b: string) => 31)
  {
    var d30: DriveTime := (a: string, b: string) => 30;
    var d31: DriveTime := (a: string, b: string) => 31;
    assert d30(e.homeAddress, q.customerAddress) == MaxDriveMinutes;
    assert d31(e.homeAddress, q.customerAddress) > MaxDriveMinutes;
    NoJobsDecidedFromHome(employees, assignments, q, d30, e);
    NoJobsDecidedFromHome(employees, assignments, q, d31, e);
  }

  // ---------------------------------------------------------------------------
  // Order and duplicates
  // ---------------------------------------------------------------------------

  /** `a` is `b` with some elements removed, order kept. */
  predicate SubsequenceOf<T(==)>(a: seq<T>, b: seq<T>)
    decreases |b|
  {
    if a == [] then true
    else if b == [] then false
    else if a[0] == b[0] then SubsequenceOf(a[1..], b[1..])
    else SubsequenceOf(a, b[1..])
  }

  predicate DistinctIds(es: seq<Employee>) {
    forall i, j :: 0 <= i < j < |es| ==> es[i].id != es[j].id
  }

  lemma {:induction false} InCategorySubsequence(employees: seq<Employee>, category: CategoryId)
    ensures SubsequenceOf(InCategory(employees, category), employees)
  {
    if employees != [] {
      InCategorySubsequence(employees[1..], category);
      if employees[0].category != category {
        assert InCategory(employees, category) == InCategory(employees[1..], category);
        SubsequenceOfDropFront(InCategory(employees[1..], category), employees);
      }
    }
  }

  lemma {:induction false} SelectSubsequence(candidates: seq<Employee>, assignments: seq<JobAssignment>, q: Query, drive: DriveTime)
    ensures SubsequenceOf(Select(candidates, assignments, q, drive), candidates)
  {
    if candidates != [] {
      SelectSubsequence(candidates[1..], assignments, q, drive);
      if !Eligible(assignments, candidates[0], q, drive) {
        assert Select(candidates, assignments, q, drive) == Select(candidates[1..], assignments, q, drive);
        SubsequenceOfDropFront(Select(candidates[1..], assignments, q, drive), candidates);
      }
    }
  }

  /** A subsequence of the tail is a subsequence of the whole. */
  lemma {:induction false} SubsequenceOfDropFront<T>(a: seq<T>, b: seq<T>)
    requires b != [] && SubsequenceOf(a, b[1..])
    ensures SubsequenceOf(a, b)
    decreases |b|, 0
  {
    if a != [] && a[0] == b[0] {
      SubsequenceOfShorter(a, b[1..]);
    }
  }

  /** Dropping the first element keeps a subsequence a subsequence. */
  lemma {:induction false} SubsequenceOfShorter<T>(a: seq<T>, b: seq<T>)
    requires a != [] && SubsequenceOf(a, b)
    ensures SubsequenceOf(a[1..], b)
    decreases |b|, 1
  {
    if a[1..] != [] {
      if a[0] == b[0] {
        SubsequenceOfDropFront(a[1..], b);
      } else {
        SubsequenceOfShorter(a, b[1..]);
        SubsequenceOfDropFront(a[1..], b);
      }
    }
  }

  lemma {:induction false} SubsequenceTransitive<T>(a: seq<T>, b: seq<T>, c: seq<T>)
    requires SubsequenceOf(a, b) && SubsequenceOf(b, c)
    ensures SubsequenceOf(a, c)
    decreases |c|
  {
    if a != [] {
      if b[0] == c[0] {
        if a[0] == b[0] {
          SubsequenceTransitive(a[1..], b[1..], c[1..]);
        } else {
          SubsequenceTransitive(a, b[1..], c[1..]);
          SubsequenceOfDropFront(a, c);
        }
      } else {
        SubsequenceTransitive(a, b, c[1..]);
        SubsequenceOfDropFront(a, c);
      }
    }
  }

  /** Removing elements cannot create a repeated id. */
  lemma {:induction false} SubsequenceKeepsDistinct(a: seq<Employee>, b: seq<Employee>)
    requires SubsequenceOf(a, b) && DistinctIds(b)
    ensures DistinctIds(a)
    decreases |b|
  {
    if a != [] {
      assert DistinctIds(b[1..]) by {
        forall i, j | 0 <= i < j < |b[1..]| ensures b[1..][i].id != b[1..][j].id {
          assert b[1..][i] == b[i + 1] && b[1..][j] == b[j + 1];
        }
      }
      if a[0] == b[0] {
        SubsequenceKeepsDistinct(a[1..], b[1..]);
        forall j | 0 < j < |a| ensures a[0].id != a[j].id {
          assert a[j] == a[1..][j - 1];
          assert a[1..][j - 1] in b[1..] by {
            SubsequenceMembers(a[1..], b[1..], j - 1);
          }
        }
      } else {
        SubsequenceKeepsDistinct(a, b[1..]);
      }
    }
  }

  /** Every element of a subsequence occurs in the sequence it came from. */
  lemma {:induction false} SubsequenceMembers<T>(a: seq<T>, b: seq<T>, k: nat)
    requires SubsequenceOf(a, b) && k < |a|
    ensures a[k] in b
    decreases |b|
  {
    if a[0] == b[0] {
      if k > 0 {
        SubsequenceMembers(a[1..], b[1..], k - 1);
      }
    } else {
      SubsequenceMembers(a, b[1..], k);
    }
  }

  /** The result lists employees of the table in table order, and repeats
      none when the table repeats no id. */
  lemma AvailableIsOrderedSubsequence(employees: seq<Employee>, assignments: seq<JobAssignment>, q: Query, drive: DriveTime)
    ensures SubsequenceOf(AvailableEmployees(employees, assignments, q, drive), employees)
    ensures DistinctIds(employees) ==> DistinctIds(AvailableEmployees(employees, assignments, q, drive))
    ensures forall e :: e in AvailableEmployees(employees, assignments, q, drive) ==> e.category == q.category
  {
    var cat := InCategory(employees, q.category);
    InCategorySubsequence(employees, q.category);
    SelectSubsequence(cat, assignments, q, drive);
    SubsequenceTransitive(AvailableEmployees(employees, assignments, q, drive), cat, employees);
    if DistinctIds(employees) {
      SubsequenceKeepsDistinct(AvailableEmployees(employees, assignments, q, drive), employees);
    }
  }

  // ---------------------------------------------------------------------------
  // The shipped drive-time stub
  // ---------------------------------------------------------------------------

  /** The employees of `candidates` not booked in the slot. */
  function Unbooked(candidates: seq<Employee>, assignments: seq<JobAssignment>, q: Query): seq<Employee> {
    if candidates == [] then []
    else
      (if !BookedAt(assignments, candidates[0], q.date, q.slot) then [candidates[0]] else [])
      + Unbooked(candidates[1..], assignments, q)
  }

  lemma {:induction false} SelectWithStub(candidates: seq<Employee>, assignments: seq<JobAssignment>, q: Query)
    ensures Select(candidates, assignments, q, CalculateDriveTime) == Unbooked(candidates, assignments, q)
  {
    if candidates != [] {
      SelectWithStub(candidates[1..], assignments, q);
    }
  }

  /** With the 20-minute placeholder every check passes, so the result is
      the category's employees, in table order, minus those booked in the
      slot. */
  lemma StubOffersEveryUnbooked(employees: seq<Employee>, assignments: seq<JobAssignment>, q: Query)
    ensures AvailableEmployees(employees, assignments, q, CalculateDriveTime)
              == Unbooked(InCategory(employees, q.category), assignments, q)
  {
    SelectWithStub(InCategory(employees, q.category), assignments, q);
  }
}
