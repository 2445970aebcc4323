/** The two session entries the booking flow keeps, and the two versions
    of `lock_service_address`: the one in scheduling/views.py (trims and
    lower-cases) and the one in billing/utils.py (trims, and ignores an
    empty address). */
module Session {
  import opened Common

  /** `request.session["service_address"]` and `["billing_address"]`. */
  datatype Session = Session(serviceAddress: Option<string>, billingAddress: Option<string>)

  /** `get_service_address` (both copies): the stored value, if any. */
  function GetServiceAddress(s: Session): Option<string> {
    s.serviceAddress
  }

  /** `lock_service_address` of scheduling/views.py: stores, and returns,
      the address trimmed and lower-cased. */
  function LockLowered(s: Session, address: string): (r: (Session, string))
    ensures r.0.serviceAddress == Some(r.1)
    ensures r.0.billingAddress == s.billingAddress
    ensures r.1 == Lower(Trim(address))
  {
    var key := Lower(Trim(address));
    (s.(serviceAddress := Some(key)), key)
  }

  /** `lock_service_address` of billing/utils.py: an empty address changes
      nothing; any other is stored trimmed, case kept. */
  function LockTrimmed(s: Session, address: string): (r: Session)
    ensures address == [] ==> r == s
    ensures address != [] ==> r.serviceAddress == Some(Trim(address)) && r.billingAddress == s.billingAddress
  {
    if address == [] then s else s.(serviceAddress := Some(Trim(address)))
  }

  /** After any sequence of billing/utils.py locks, the service address is
      the last non-empty address locked, trimmed, or what it was before
      when every address was empty. */
  function LockAll(s: Session, addresses: seq<string>): Session
    decreases |addresses|
  {
    if addresses == [] then s else LockAll(LockTrimmed(s, addresses[0]), addresses[1..])
  }

  /** Index of the last non-empty entry, if any. */
  function LastNonEmpty(addresses: seq<string>): (r: Option<nat>)
    ensures r.Some? ==> r.value < |addresses| && addresses[r.value] != []
                        && forall j :: r.value < j < |addresses| ==> addresses[j] == []
    ensures r.None? ==> forall j :: 0 <= j < |addresses| ==> addresses[j] == []
  {
    if addresses == [] then None
    else if addresses[|addresses| - 1] != [] then Some(|addresses| - 1)
    else LastNonEmpty(addresses[..|addresses| - 1])
  }

  lemma {:induction false} LockAllSnoc(s: Session, addresses: seq<string>, a: string)
    ensures LockAll(s, addresses + [a]) == LockTrimmed(LockAll(s, addresses), a)
    decreases |addresses|
  {
    if addresses == [] {
      assert addresses + [a] == [a];
    } else {
      assert (addresses + [a])[1..] == addresses[1..] + [a];
      LockAllSnoc(LockTrimmed(s, addresses[0]), addresses[1..], a);
    }
  }

  /** `get_service_address` returns the last locked value, or what was
      there before (nothing, in a fresh session) when nothing was locked. */
  lemma {:induction false} GetReturnsLastLocked(s: Session, addresses: seq<string>)
    ensures var last := LastNonEmpty(addresses);
            GetServiceAddress(LockAll(s, addresses))
              == if last.Some? then Some(Trim(addresses[last.value])) else s.serviceAddress
    decreases |addresses|
  {
    if addresses != [] {
      var init := addresses[..|addresses| - 1];
      var a := addresses[|addresses| - 1];
      assert addresses == init + [a];
      LockAllSnoc(s, init, a);
      GetReturnsLastLocked(s, init);
    }
  }
}
