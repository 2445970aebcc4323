/** The second copy of `get_available_employees`, in scheduling/utils.py:
    the same rule written as a loop that stops at the first job out of
    reach. It is shown here to compute exactly what the `all(...)` version
    computes. (The source file imports neither `Employee` nor
    `calculate_drive_time`; both arrive here as parameters.) */
module AvailabilityLoop {
  import opened Common
  import opened Dates
  import opened Scheduling
  import opened Availability

  /** `Select` over a prefix grows by at most the next candidate. */
  lemma {:induction false} SelectAppend(a: seq<Employee>, b: seq<Employee>, assignments: seq<JobAssignment>, q: Query, drive: DriveTime)
    ensures Select(a + b, assignments, q, drive) == Select(a, assignments, q, drive) + Select(b, assignments, q, drive)
  {
    if a == [] {
      assert a + b == b;
    } else {
      assert (a + b)[1..] == a[1..] + b;
      SelectAppend(a[1..], b, assignments, q, drive);
    }
  }

  /** Extending the prefix by one candidate adds that candidate exactly
      when it is eligible. */
  lemma SelectStep(candidates: seq<Employee>, i: nat, assignments: seq<JobAssignment>, q: Query, drive: DriveTime)
    requires i < |candidates|
    ensures Select(candidates[..i + 1], assignments, q, drive)
            == Select(candidates[..i], assignments, q, drive)
               + (if Eligible(assignments, candidates[i], q, drive) then [candidates[i]] else [])
  {
    var emp := candidates[i];
    assert candidates[..i + 1] == candidates[..i] + [emp];
    SelectAppend(candidates[..i], [emp], assignments, q, drive);
    assert [emp][1..] == [];
  }

  /** The inner loop of utils.py: scan the day's jobs, stopping at the
      first whose jobsite is out of reach of the customer address. */
  method WithinReachOfAll(jobs: seq<JobAssignment>, customerAddress: string, drive: DriveTime) returns (feasible: bool)
    ensures feasible <==> AllWithinReach(jobs, customerAddress, drive)
  {
    feasible := true;
    var k := 0;
    while k < |jobs|
      invariant 0 <= k <= |jobs|
      invariant forall j :: 0 <= j < k ==> drive(jobs[j].jobsiteAddress, customerAddress) <= MaxDriveMinutes
    {
      var driveTime := drive(jobs[k].jobsiteAddress, customerAddress);
      if driveTime > MaxDriveMinutes {
        feasible := false;
        break;
      }
      k := k + 1;
    }
  }

  /** The body of the utils.py loop for one employee: skip them when
      booked in the slot; with no job that day, keep them when home is
      within budget; otherwise keep them when the scan of the day's jobs
      finds none out of reach. */
  method DecideEmployee(emp: Employee, assignments: seq<JobAssignment>, q: Query, drive: DriveTime) returns (keep: bool)
    ensures keep == Eligible(assignments, emp, q, drive)
  {
    if BookedAt(assignments, emp, q.date, q.slot) {
      keep := false;
    } else {
      var jobs := TodaysJobs(assignments, emp, q.date);
      if |jobs| == 0 {
        var driveTime := drive(emp.homeAddress, q.customerAddress);
        keep := driveTime <= MaxDriveMinutes;
      } else {
        keep := WithinReachOfAll(jobs, q.customerAddress, drive);
      }
    }
  }

  /** The utils.py `get_available_employees`: the employees of the
      category, in table order, that the loop body keeps. */
  method AvailableEmployeesLoop(employees: seq<Employee>, assignments: seq<JobAssignment>, q: Query, drive: DriveTime)
    returns (available: seq<Employee>)
    ensures available == AvailableEmployees(employees, assignments, q, drive)
  {
    available := [];
    var candidates := InCategory(employees, q.category);
    var i := 0;
    while i < |candidates|
      invariant 0 <= i <= |candidates|
      invariant available == Select(candidates[..i], assignments, q, drive)
    {
      var emp := candidates[i];
      SelectStep(candidates, i, assignments, q, drive);
      var keep := DecideEmployee(emp, assignments, q, drive);
      if keep {
        available := available + [emp];
      }
      i := i + 1;
    }
    assert candidates[..i] == candidates;
  }
}
