/** The flight registry: an append-only list of flights whose ids are their
    positions.  Each operation takes the current list and returns the new list
    together with its outcome. */
module FlightService {
  import opened Outcomes
  import opened Models

  /** Every flight in the registry has a positive capacity that its passenger
      list does not exceed. */
  predicate Valid(flights: seq<Flight>) {
    forall i | 0 <= i < |flights| :: flights[i].Valid()
  }

  /** `flights'` is `flights` with only flight `id` replaced, by `f`. */
  predicate ReplacesOnly(flights: seq<Flight>, flights': seq<Flight>, id: nat, f: Flight) {
    && |flights'| == |flights|
    && id < |flights|
    && flights'[id] == f
    && forall j | 0 <= j < |flights| && j != id :: flights'[j] == flights[j]
  }

  /** Adds a flight and returns its id, the old length of the list.  A
      non-positive capacity fails in the Flight constructor before anything is
      appended, so no id is consumed. */
  function AddFlight(flights: seq<Flight>, departure: string, arrival: string,
                     maxCapacity: int): (r: (seq<Flight>, Result<nat>))
    ensures r.1.Ok? <==> maxCapacity > 0
    ensures maxCapacity <= 0 ==> r.0 == flights && r.1 == Err(ValueError)
    ensures maxCapacity > 0 ==>
      && r.1.value == |flights|
      && |r.0| == |flights| + 1
      && r.0[..|flights|] == flights
      && r.0[r.1.value] == Flight(departure, arrival, maxCapacity, DefaultStatus, [])
    ensures Valid(flights) ==> Valid(r.0)
  {
    match NewFlight(departure, arrival, maxCapacity)
    case Err(e) => (flights, Err(e))
    case Ok(f) => (flights + [f], Ok(|flights + [f]| - 1))
  }

  /** Overwrites the status of flight `id`, whatever it was; reports `false`
      and changes nothing when there is no such flight. */
  function ChangeFlightStatus(flights: seq<Flight>, id: nat, status: FlightStatus)
    : (r: (seq<Flight>, bool))
    ensures r.1 <==> id < |flights|
    ensures !r.1 ==> r.0 == flights
    ensures r.1 ==> ReplacesOnly(flights, r.0, id, flights[id].(status := status))
    ensures Valid(flights) ==> Valid(r.0)
  {
    if id < |flights| then (flights[id := flights[id].(status := status)], true)
    else (flights, false)
  }

  /** Books a seat on flight `id` for passenger `passengerId`.  An unknown
      flight fails with `IndexError`, a full one with `ValueError`; on either
      failure nothing changes.  The passenger id itself is not checked. */
  function BuyTicket(flights: seq<Flight>, id: nat, passengerId: nat)
    : (r: (seq<Flight>, Result<()>))
    ensures id >= |flights| ==> r == (flights, Err(IndexError))
    ensures id < |flights| && flights[id].Full() ==> r == (flights, Err(ValueError))
    ensures id < |flights| && !flights[id].Full() ==>
      && r.1 == Ok(())
      && ReplacesOnly(flights, r.0, id,
                      flights[id].(passengers := flights[id].passengers + [passengerId]))
    ensures Valid(flights) ==> Valid(r.0)
  {
    if id >= |flights| then (flights, Err(IndexError))
    else if |flights[id].passengers| >= flights[id].maxCapacity then (flights, Err(ValueError))
    else
      var f := flights[id];
      (flights[id := f.(passengers := f.passengers + [passengerId])], Ok(()))
  }

  /** Whether flight `id` is delayed; `IndexError` when there is no such
      flight. */
  function IsDelayed(flights: seq<Flight>, id: nat): (r: Result<bool>)
    ensures r.Err? <==> id >= |flights|
    ensures r.Err? ==> r.error == IndexError
    ensures r.Ok? ==> (r.value <==> flights[id].status == Delayed)
  {
    if id >= |flights| then Err(IndexError)
    else Ok(flights[id].status.Value() == Delayed.Value())
  }

  /** A status change is observed by the delayed check at once: setting
      DELAYED makes the flight delayed, any other status makes it not
      delayed. */
  lemma ChangeThenIsDelayed(flights: seq<Flight>, id: nat, status: FlightStatus)
    requires id < |flights|
    ensures IsDelayed(ChangeFlightStatus(flights, id, status).0, id) == Ok(status == Delayed)
  {
  }

  /** A rejected AddFlight leaves no trace: the next AddFlight behaves as if
      the failed one had not been made, and gets the same id. */
  lemma FailedAddConsumesNoId(flights: seq<Flight>, d0: string, a0: string, c0: int,
                              d: string, a: string, c: int)
    requires c0 <= 0
    ensures AddFlight(AddFlight(flights, d0, a0, c0).0, d, a, c) == AddFlight(flights, d, a, c)
  {
  }

  /** Ids are dense: successive successful AddFlight calls on a list of `n`
      flights return `n` and then `n + 1`, and both flights stay where their
      ids say. */
  lemma AddFlightIdsAreDense(flights: seq<Flight>, d1: string, a1: string, c1: int,
                             d2: string, a2: string, c2: int)
    requires c1 > 0 && c2 > 0
    ensures var (fs1, id1) := AddFlight(flights, d1, a1, c1);
            var (fs2, id2) := AddFlight(fs1, d2, a2, c2);
            && id1 == Ok(|flights|) && id2 == Ok(|flights| + 1)
            && fs2[..|flights|] == flights
            && fs2[|flights|] == Flight(d1, a1, c1, DefaultStatus, [])
            && fs2[|flights| + 1] == Flight(d2, a2, c2, DefaultStatus, [])
  {
  }

  /** Books a seat on flight `id` for each passenger in `passengerIds`, in
      order, collecting the outcome of every attempt. */
  function BookAll(flights: seq<Flight>, id: nat, passengerIds: seq<nat>)
    : (r: (seq<Flight>, seq<Result<()>>))
    ensures |r.0| == |flights|
    ensures |r.1| == |passengerIds|
    decreases |passengerIds|
  {
    if |passengerIds| == 0 then (flights, [])
    else
      var (fs1, o) := BuyTicket(flights, id, passengerIds[0]);
      var (fs2, os) := BookAll(fs1, id, passengerIds[1..]);
      (fs2, [o] + os)
  }

  /** On a flight with `free` seats left, a run of bookings succeeds for
      exactly the first `free` attempts and fails for every later one; the
      passenger list grows by exactly the passengers of the successful
      attempts, in call order, and no other flight or field changes. */
  lemma {:induction false} BookAllFillsToCapacity(flights: seq<Flight>, id: nat, passengerIds: seq<nat>)
    requires id < |flights|
    requires flights[id].Valid()
    ensures var (fs, os) := BookAll(flights, id, passengerIds);
            var free := flights[id].maxCapacity - |flights[id].passengers|;
            var k := if |passengerIds| < free then |passengerIds| else free;
            && ReplacesOnly(flights, fs, id,
                            flights[id].(passengers := flights[id].passengers + passengerIds[..k]))
            && (forall i | 0 <= i < |os| :: os[i].Ok? <==> i < free)
    decreases |passengerIds|
  {
    var f := flights[id];
    var free := f.maxCapacity - |f.passengers|;
    if |passengerIds| == 0 {
      assert passengerIds[..0] == [];
      assert f.(passengers := f.passengers + []) == f;
    } else {
      var (fs1, o) := BuyTicket(flights, id, passengerIds[0]);
      var rest := passengerIds[1..];
      BookAllFillsToCapacity(fs1, id, rest);
      var (fs, os) := BookAll(flights, id, passengerIds);
      var (fs2, os2) := BookAll(fs1, id, rest);
      assert fs == fs2 && os == [o] + os2;
      if free == 0 {
        assert fs1 == flights;
        assert passengerIds[..0] == [];
        assert f.(passengers := f.passengers + []) == f;
        forall i | 0 <= i < |os| ensures os[i].Ok? <==> i < free {
          if i > 0 { assert os[i] == os2[i - 1]; }
        }
      } else {
        var k := if |passengerIds| < free then |passengerIds| else free;
        var k1 := if |rest| < free - 1 then |rest| else free - 1;
        assert k1 == k - 1;
        assert f.passengers + [passengerIds[0]] + rest[..k1] == f.passengers + passengerIds[..k] by {
          assert [passengerIds[0]] + rest[..k1] == passengerIds[..k];
        }
        forall i | 0 <= i < |os| ensures os[i].Ok? <==> i < free {
          if i > 0 { assert os[i] == os2[i - 1]; }
        }
      }
    }
  }

  /** A flight of capacity `n` with no passengers accepts exactly `n` bookings:
      the first `n` attempts succeed, the `n + 1`-th fails as full, and the
      passenger list is the first `n` booked ids in call order. */
  lemma CapacityIsEnforced(flights: seq<Flight>, id: nat, passengerIds: seq<nat>)
    requires id < |flights|
    requires flights[id].Valid() && flights[id].passengers == []
    requires |passengerIds| == flights[id].maxCapacity + 1
    ensures var (fs, os) := BookAll(flights, id, passengerIds);
            && fs[id].passengers == passengerIds[..flights[id].maxCapacity]
            && (forall i | 0 <= i < flights[id].maxCapacity :: os[i] == Ok(()))
            && os[flights[id].maxCapacity] == Err(ValueError)
  {
    BookAllFillsToCapacity(flights, id, passengerIds);
    var (fs, os) := BookAll(flights, id, passengerIds);
    assert [] + passengerIds[..flights[id].maxCapacity] == passengerIds[..flights[id].maxCapacity];
    BookingOutcomesAreOkOrFull(flights, id, passengerIds);
  }

  /** Every outcome in `os` is a success or a full-flight failure. */
  predicate OkOrFull(os: seq<Result<()>>) {
    forall i | 0 <= i < |os| :: os[i] == Ok(()) || os[i] == Err(ValueError)
  }

  /** A booking run on an existing flight only ever succeeds or fails as
      full. */
  lemma {:induction false} BookingOutcomesAreOkOrFull(flights: seq<Flight>, id: nat, passengerIds: seq<nat>)
    requires id < |flights|
    ensures OkOrFull(BookAll(flights, id, passengerIds).1)
    decreases |passengerIds|
  {
    if |passengerIds| > 0 {
      var (fs1, o) := BuyTicket(flights, id, passengerIds[0]);
      BookingOutcomesAreOkOrFull(fs1, id, passengerIds[1..]);
      var os := BookAll(flights, id, passengerIds).1;
      var os1 := BookAll(fs1, id, passengerIds[1..]).1;
      assert os == [o] + os1;
      assert o == Ok(()) || o == Err(ValueError);
    }
  }
}
