/** The two searches of scheduling/views.py: the address lock that both
    apply before searching, the by-date grid (every slot by every category
    on one day) and the by-slot grid (every category on each of the next 28
    days, for one slot). */
module Search {
  import opened Common
  import opened Dates
  import opened Scheduling
  import opened Availability
  import opened Session

  // ---------------------------------------------------------------------------
  // Address lock (search_by_date and search_by_time_slot)
  // ---------------------------------------------------------------------------

  /** The session after the search, and the address actually searched. */
  datatype Resolved = Resolved(session: Session, searched: string)

  /** The lock step of both searches: strip the entered address; lock it
      (lower-cased) when the session holds no address yet; and when a locked
      address differs from the input other than in case, search the locked
      address instead. */
  function ResolveSearchAddress(s: Session, input: string): (r: Resolved)
    ensures r.session.billingAddress == s.billingAddress
    ensures Truthy(s.serviceAddress) ==> r.session == s
    ensures !Truthy(s.serviceAddress) ==>
              r.session.serviceAddress == Some(Lower(Trim(input))) && r.searched == Trim(input)
  {
    var customer := Trim(input);
    var locked := GetServiceAddress(s);
    var (s1, lockedAddress) :=
      if !Truthy(locked) then (LockLowered(s, customer).0, customer) else (s, locked.value);
    var searched := if lockedAddress != [] && Lower(customer) != Lower(lockedAddress) then lockedAddress else customer;
    TrimIdempotent(input);
    Resolved(s1, searched)
  }

  /** Once the search has run, an address is locked and the address searched
      matches it up to case. */
  lemma SearchedMatchesLock(s: Session, input: string)
    ensures var r := ResolveSearchAddress(s, input);
            r.session.serviceAddress.Some? && Lower(r.searched) == Lower(r.session.serviceAddress.value)
  {
    LowerIdempotent(Trim(input));
  }

  /** With an address locked, an input that differs from it other than in
      case is replaced by the locked address, and the lock is kept. */
  lemma LockedAddressOverridesInput(s: Session, input: string)
    requires Truthy(s.serviceAddress)
    requires Lower(Trim(input)) != Lower(s.serviceAddress.value)
    ensures ResolveSearchAddress(s, input) == Resolved(s, s.serviceAddress.value)
  {
  }

  /** With an address locked, an input equal to it up to case is searched
      as entered (stripped). */
  lemma LockedAddressAcceptsSameAddress(s: Session, input: string)
    requires Truthy(s.serviceAddress)
    requires Lower(Trim(input)) == Lower(s.serviceAddress.value)
    ensures ResolveSearchAddress(s, input) == Resolved(s, Trim(input))
  {
  }

  // ---------------------------------------------------------------------------
  // search_by_date: slot -> category -> employees
  // ---------------------------------------------------------------------------

  type DateGrid = map<SlotId, map<CategoryId, seq<Employee>>>

  function ByDateGrid(slots: seq<SlotId>, categories: seq<CategoryId>, employees: seq<Employee>,
                      assignments: seq<JobAssignment>, date: CalendarDate, address: string, drive: DriveTime): (g: DateGrid)
    ensures g.Keys == set s | s in slots
    ensures forall s :: s in g ==> g[s].Keys == set c | c in categories
  {
    map s | s in slots ::
      map c | c in categories :: AvailableEmployees(employees, assignments, Query(address, date, s, c), drive)
  }

  /** Each cell of the by-date grid lists exactly the employees of that
      category the availability rule admits for that slot. */
  lemma ByDateGridCells(slots: seq<SlotId>, categories: seq<CategoryId>, employees: seq<Employee>,
                        assignments: seq<JobAssignment>, date: CalendarDate, address: string, drive: DriveTime,
                        s: SlotId, c: CategoryId, e: Employee)
    requires s in slots && c in categories
    ensures var g := ByDateGrid(slots, categories, employees, assignments, date, address, drive);
            s in g && c in g[s]
            && (e in g[s][c] <==> e in employees && e.category == c
                                  && Eligible(assignments, e, Query(address, date, s, c), drive))
  {
  }

  // ---------------------------------------------------------------------------
  // search_by_time_slot: day -> category name -> offers
  // ---------------------------------------------------------------------------

  /** How many days the by-slot search covers. */
  const SearchDays: nat := 28

  /** One entry of a by-slot cell. `drive_time` and `route_origin` are read
      with `getattr(..., None)` from employees that never carry them, so
      they are always `None`. */
  datatype Offer = Offer(
    employee: EmployeeId,
    name: string,
    homeAddress: string,
    driveTime: Option<nat>,
    routeOrigin: Option<string>,
    category: CategoryId,
    slot: SlotId,
    date: string)

  type SlotGrid = map<CalendarDate, map<string, seq<Offer>>>

  function Enrich(es: seq<Employee>, c: ServiceCategory, slot: SlotId, day: CalendarDate): (r: seq<Offer>)
    ensures |r| == |es|
    ensures forall i :: 0 <= i < |es| ==>
              r[i] == Offer(es[i].id, es[i].name, es[i].homeAddress, None, None, c.id, slot, FormatIsoDate(day))
  {
    if es == [] then []
    else [Offer(es[0].id, es[0].name, es[0].homeAddress, None, None, c.id, slot, FormatIsoDate(day))]
         + Enrich(es[1..], c, slot, day)
  }

  /** `today + timedelta(days=i)` for `i in range(n)`. */
  function DaysFrom(today: CalendarDate, n: nat): set<CalendarDate> {
    set i | 0 <= i < n :: AddDays(today, i)
  }

  /** The days searched: today and the 27 days after it. */
  function SearchWindow(today: CalendarDate): set<CalendarDate> {
    DaysFrom(today, SearchDays)
  }

  predicate UniqueNames(categories: seq<ServiceCategory>) {
    forall i, j :: 0 <= i < j < |categories| ==> categories[i].name != categories[j].name
  }

  /** `results[day][category.name] = enriched` for each category in turn:
      one cell per category name, a later category overwriting an earlier
      one of the same name. */
  function DayCells(categories: seq<ServiceCategory>, slot: SlotId, employees: seq<Employee>,
                    assignments: seq<JobAssignment>, day: CalendarDate, address: string, drive: DriveTime): (m: map<string, seq<Offer>>)
    ensures m.Keys == set c | c in categories :: c.name
    decreases |categories|
  {
    if categories == [] then map[]
    else
      var c := categories[|categories| - 1];
      var init := categories[..|categories| - 1];
      var m := DayCells(init, slot, employees, assignments, day, address, drive);
      assert forall x :: x in categories <==> x in init || x == c;
      m[c.name := Enrich(AvailableEmployees(employees, assignments, Query(address, day, slot, c.id), drive), c, slot, day)]
  }

  /** With unique names (the table enforces them), each category's cell
      holds the availability answer for it. */
  lemma {:induction false} DayCellsValue(categories: seq<ServiceCategory>, slot: SlotId, employees: seq<Employee>,
                                         assignments: seq<JobAssignment>, day: CalendarDate, address: string, drive: DriveTime,
                                         c: ServiceCategory)
    requires UniqueNames(categories) && c in categories
    ensures DayCells(categories, slot, employees, assignments, day, address, drive)[c.name]
              == Enrich(AvailableEmployees(employees, assignments, Query(address, day, slot, c.id), drive), c, slot, day)
    decreases |categories|
  {
    var last := categories[|categories| - 1];
    var init := categories[..|categories| - 1];
    if c != last {
      assert c in init by {
        var i :| 0 <= i < |categories| && categories[i] == c;
        assert i < |categories| - 1;
        assert init[i] == c;
      }
      assert c.name != last.name by {
        var i :| 0 <= i < |init| && init[i] == c;
        assert categories[i] == c;
      }
      assert UniqueNames(init) by {
        forall i, j | 0 <= i < j < |init| ensures init[i].name != init[j].name {
          assert init[i] == categories[i] && init[j] == categories[j];
        }
      }
      DayCellsValue(init, slot, employees, assignments, day, address, drive, c);
    }
  }

  function BySlotGrid(slot: SlotId, categories: seq<ServiceCategory>, employees: seq<Employee>,
                      assignments: seq<JobAssignment>, today: CalendarDate, address: string, drive: DriveTime): (g: SlotGrid)
    ensures g.Keys == SearchWindow(today)
    ensures forall d :: d in g ==> g[d].Keys == set c | c in categories :: c.name
  {
    map d | d in SearchWindow(today) :: DayCells(categories, slot, employees, assignments, d, address, drive)
  }

  lemma {:induction false} WindowSize(today: CalendarDate, n: nat)
    ensures |DaysFrom(today, n)| == n
  {
    if n == 0 {
      assert DaysFrom(today, n) == {};
    } else {
      var all := DaysFrom(today, n);
      var prev := DaysFrom(today, n - 1);
      var x := AddDays(today, n - 1);
      WindowSize(today, n - 1);
      forall y | y in all ensures y in prev + {x} {
        var i :| 0 <= i < n && y == AddDays(today, i);
        if i < n - 1 { assert y in prev; }
      }
      forall y | y in prev + {x} ensures y in all {
        if y in prev {
          var i :| 0 <= i < n - 1 && y == AddDays(today, i);
          assert y == AddDays(today, i);
        }
      }
      assert all == prev + {x};
      assert x !in prev by {
        if x in prev {
          var i :| 0 <= i < n - 1 && x == AddDays(today, i);
          AddDaysInjective(today, i, n - 1);
        }
      }
    }
  }

  /** The by-slot grid covers exactly 28 distinct consecutive days starting
      today, each with one cell per category name; with unique names each
      cell lists, in order, the offers for the employees the availability
      rule admits on that day, in the fixed slot, for that category. */
  lemma BySlotGridShape(slot: SlotId, categories: seq<ServiceCategory>, employees: seq<Employee>,
                        assignments: seq<JobAssignment>, today: CalendarDate, address: string, drive: DriveTime,
                        k: nat, c: ServiceCategory)
    requires UniqueNames(categories) && c in categories && k < SearchDays
    ensures var g := BySlotGrid(slot, categories, employees, assignments, today, address, drive);
            var d := AddDays(today, k);
            var avail := AvailableEmployees(employees, assignments, Query(address, d, slot, c.id), drive);
            && |g.Keys| == SearchDays
            && today in g
            && d in g && c.name in g[d]
            && |g[d][c.name]| == |avail|
            && forall i :: 0 <= i < |avail| ==> g[d][c.name][i].employee == avail[i].id && g[d][c.name][i].date == FormatIsoDate(d)
  {
    var g := BySlotGrid(slot, categories, employees, assignments, today, address, drive);
    var d := AddDays(today, k);
    WindowSize(today, SearchDays);
    assert |g.Keys| == SearchDays;
    assert AddDays(today, 0) == today;
    assert today in SearchWindow(today);
    assert d in SearchWindow(today);
    assert g[d] == DayCells(categories, slot, employees, assignments, d, address, drive);
    DayCellsValue(categories, slot, employees, assignments, d, address, drive, c);
  }
}
