/** The entity records of the flight-control system: passengers, the five
    flight statuses, flights and background-operation records. */
module Models {
  import opened Outcomes

  /** A registered passenger; immutable once created. */
  datatype Passenger = Passenger(name: string, surname: string)

  /** The attribute names of a passenger, in declaration order
      (the keys of the Python object's `__dict__`). */
  const PassengerFieldNames: seq<string> := ["name", "surname"]

  /** The attribute values of a passenger, in the same order as
      `PassengerFieldNames`. */
  function PassengerFields(p: Passenger): (r: seq<string>)
    ensures |r| == |PassengerFieldNames|
  {
    [p.name, p.surname]
  }

  /** The closed set of flight statuses. */
  datatype FlightStatus =
    | AvailableForRegistration
    | RegistrationCompleted
    | OnTheWay
    | Arrived
    | Delayed
  {
    /** The string value of the enum member, which is the member's own name. */
    function Value(): string {
      match this
      case AvailableForRegistration => "AVAILABLE_FOR_REGISTRATION"
      case RegistrationCompleted => "REGISTRATION_COMPLETED"
      case OnTheWay => "ON_THE_WAY"
      case Arrived => "ARRIVED"
      case Delayed => "DELAYED"
    }
  }

  /** Every member of the enumeration, in declaration order. */
  const AllStatuses: seq<FlightStatus> :=
    [AvailableForRegistration, RegistrationCompleted, OnTheWay, Arrived, Delayed]

  /** Looks a status up by its string value, as an enum choice field does;
      `None` for a string that is not one of the five values. */
  function ParseStatus(v: string): (r: Option<FlightStatus>)
    ensures r.Some? ==> r.value.Value() == v
  {
    if v == "AVAILABLE_FOR_REGISTRATION" then Some(AvailableForRegistration)
    else if v == "REGISTRATION_COMPLETED" then Some(RegistrationCompleted)
    else if v == "ON_THE_WAY" then Some(OnTheWay)
    else if v == "ARRIVED" then Some(Arrived)
    else if v == "DELAYED" then Some(Delayed)
    else None
  }

  /** The enumeration has exactly five members, listed once each, and every
      status is one of them. */
  lemma StatusesAreFive(s: FlightStatus)
    ensures |AllStatuses| == 5
    ensures s in AllStatuses
    ensures forall i, j | 0 <= i < j < |AllStatuses| :: AllStatuses[i] != AllStatuses[j]
  {
  }

  /** Value and ParseStatus are inverse: every status round-trips through its
      string value, and a string parses exactly when it is the value of some
      status.  Distinct statuses therefore have distinct values. */
  lemma StatusValueRoundTrip(s: FlightStatus, v: string)
    ensures ParseStatus(s.Value()) == Some(s)
    ensures ParseStatus(v).Some? <==> exists t: FlightStatus :: t.Value() == v
  {
  }

  /** The status a flight starts in. */
  const DefaultStatus: FlightStatus := AvailableForRegistration

  /** A flight: route, seat limit, current status and the ids of passengers
      holding tickets, in purchase order. */
  datatype Flight = Flight(
    departure: string,
    arrival: string,
    maxCapacity: int,
    status: FlightStatus,
    passengers: seq<nat>
  ) {
    /** Capacity is positive and never exceeded. */
    predicate Valid() {
      maxCapacity > 0 && |passengers| <= maxCapacity
    }

    /** No seat is left. */
    predicate Full() {
      |passengers| >= maxCapacity
    }
  }

  /** The Flight constructor: rejects a non-positive capacity with
      `ValueError`, otherwise stores the route and capacity as given, with the
      given status and no passengers. */
  function NewFlight(departure: string, arrival: string, maxCapacity: int,
                     status: FlightStatus := DefaultStatus): (r: Result<Flight>)
    ensures r.Err? <==> maxCapacity <= 0
    ensures r.Err? ==> r.error == ValueError
    ensures r.Ok? ==> r.value.Valid() && !r.value.Full()
    ensures r.Ok? ==>
      && r.value.departure == departure
      && r.value.arrival == arrival
      && r.value.maxCapacity == maxCapacity
      && r.value.status == status
      && r.value.passengers == []
  {
    if maxCapacity <= 0 then Err(ValueError)
    else Ok(Flight(departure, arrival, maxCapacity, status, []))
  }

  /** A 128-bit operation identifier. */
  type Uuid = n: nat | n < 0x1_0000_0000_0000_0000_0000_0000_0000_0000

  /** A background operation: its id, whether it has finished, and its result
      (`None` until it has one). */
  datatype Operation<R> = Operation(id: Uuid, done: bool, result: Option<R>)

  /** The Operation constructor with its defaults: not done, no result. */
  function NewOperation<R>(id: Uuid): (op: Operation<R>)
    ensures op.id == id
    ensures !op.done
    ensures op.result == None
  {
    Operation(id, false, None)
  }

  /** Operation equality as the record defines it: same id, same done flag,
      same result. */
  predicate OperationEq<R(==)>(a: Operation<R>, b: Operation<R>) {
    a.id == b.id && a.done == b.done && a.result == b.result
  }

  /** Comparing the three fields is exactly value equality of records, and so
      an equivalence relation. */
  lemma OperationEqIsEquality<R>(a: Operation<R>, b: Operation<R>, c: Operation<R>)
    ensures OperationEq(a, b) <==> a == b
    ensures OperationEq(a, a)
    ensures OperationEq(a, b) ==> OperationEq(b, a)
    ensures OperationEq(a, b) && OperationEq(b, c) ==> OperationEq(a, c)
  {
  }
}
