/** The request handlers' decision logic, as pure functions over the two
    registries and the passenger log: which service is asked first, and how
    each service outcome maps to a response code. */
module Views {
  import opened Outcomes
  import opened Models
  import opened FlightService
  import opened PassengerService
  import opened LogService

  /** The response codes the handlers produce. */
  datatype Code = OK | Created | NoContent | Forbidden | NotFound {
    /** The HTTP status number of the code. */
    function Number(): int {
      match this
      case OK => 200
      case Created => 201
      case NoContent => 204
      case Forbidden => 403
      case NotFound => 404
    }
  }

  /** A response: its code and, for a creation, the new id. */
  datatype Response = Response(code: Code, createdId: Option<nat>)

  /** A capacity the request validation accepts (at least one seat). */
  type Capacity = n: int | n >= 1 witness 1

  /** The shared state behind the handlers. */
  datatype System = System(flights: seq<Flight>, passengers: seq<Passenger>, log: Log)

  /** The log holds the header and then one entry per registered passenger,
      in registration order. */
  predicate LogMatches(lines: seq<string>, passengers: seq<Passenger>) {
    && |lines| == |passengers| + 1
    && lines[0] == Header()
    && forall i | 0 <= i < |passengers| :: lines[i + 1] == Entry(passengers[i].name, passengers[i].surname)
  }

  /** Every booked passenger id names a registered passenger. */
  predicate BookedAreRegistered(flights: seq<Flight>, passengerCount: nat) {
    forall i, k | 0 <= i < |flights| && 0 <= k < |flights[i].passengers| ::
      flights[i].passengers[k] < passengerCount
  }

  /** The invariant the handlers keep: no flight is over capacity, the log
      mirrors the passenger registry, and bookings only name registered
      passengers. */
  predicate Inv(sys: System) {
    && FlightService.Valid(sys.flights)
    && LogMatches(sys.log.lines, sys.passengers)
    && BookedAreRegistered(sys.flights, |sys.passengers|)
  }

  /** `sys'` extends `sys`: registries only grow, flights keep their route
      and capacity, passenger lists only grow, and the log file stays where
      it is. */
  predicate Grows(sys: System, sys': System) {
    && sys'.log.logFile == sys.log.logFile
    && |sys.flights| <= |sys'.flights|
    && sys.passengers <= sys'.passengers
    && (forall i | 0 <= i < |sys.flights| ::
          && sys'.flights[i].departure == sys.flights[i].departure
          && sys'.flights[i].arrival == sys.flights[i].arrival
          && sys'.flights[i].maxCapacity == sys.flights[i].maxCapacity
          && sys.flights[i].passengers <= sys'.flights[i].passengers)
  }

  /** The services as they start: no flights, no passengers, and the log
      created under `staticUrl + "log/"` as `passengers.csv`. */
  function Init(staticUrl: string): (r: System)
    ensures r.flights == [] && r.passengers == []
    ensures r.log.lines == ["name;surname\n"]
    ensures r.log.logFile == LogDir(staticUrl + "log/").value + "passengers.csv"
    ensures Inv(r)
  {
    HeaderLayout();
    System([], [], NewLog("passengers.csv", staticUrl + "log/").value)
  }

  /** Creates a flight from validated input; always 201 with the new id. */
  function PostFlight(sys: System, departure: string, arrival: string, maxCapacity: Capacity)
    : (r: (System, Response))
    ensures r.1 == Response(Created, Some(|sys.flights|))
    ensures |r.0.flights| == |sys.flights| + 1
    ensures r.0.flights[..|sys.flights|] == sys.flights
    ensures r.0.flights[|sys.flights|] == Flight(departure, arrival, maxCapacity, DefaultStatus, [])
    ensures r.0.passengers == sys.passengers && r.0.log == sys.log
    ensures Inv(sys) ==> Inv(r.0)
    ensures Grows(sys, r.0)
  {
    var (flights, id) := AddFlight(sys.flights, departure, arrival, maxCapacity);
    (sys.(flights := flights), Response(Created, Some(id.value)))
  }

  /** Sets a flight's status: 200 when the flight exists, 404 otherwise, and
      then nothing changes. */
  function PostFlightStatus(sys: System, flightId: nat, status: FlightStatus)
    : (r: (System, Response))
    ensures r.1.code == OK <==> flightId < |sys.flights|
    ensures r.1.code == OK || r.1.code == NotFound
    ensures r.1.createdId == None
    ensures r.1.code == OK ==>
      ReplacesOnly(sys.flights, r.0.flights, flightId, sys.flights[flightId].(status := status))
    ensures r.1.code == NotFound ==> r.0 == sys
    ensures r.0.passengers == sys.passengers && r.0.log == sys.log
    ensures Inv(sys) ==> Inv(r.0)
    ensures Grows(sys, r.0)
  {
    var (flights, changed) := ChangeFlightStatus(sys.flights, flightId, status);
    if changed then (sys.(flights := flights), Response(OK, None))
    else (sys.(flights := flights), Response(NotFound, None))
  }

  /** Registers a passenger and logs them: 201 with the new id, exactly one
      new passenger and exactly one new log entry, `name;surname`; the log
      keeps its file name and path. */
  function PostPassenger(sys: System, name: string, surname: string): (r: (System, Response))
    ensures r.1 == Response(Created, Some(|sys.passengers|))
    ensures |r.0.passengers| == |sys.passengers| + 1
    ensures r.0.passengers[..|sys.passengers|] == sys.passengers
    ensures r.0.passengers[|sys.passengers|] == Passenger(name, surname)
    ensures |r.0.log.lines| == |sys.log.lines| + 1
    ensures r.0.log.lines[..|sys.log.lines|] == sys.log.lines
    ensures r.0.log.lines[|sys.log.lines|] == Entry(name, surname)
    ensures r.0.log.(lines := sys.log.lines) == sys.log
    ensures r.0.flights == sys.flights
    ensures Inv(sys) ==> Inv(r.0)
    ensures Grows(sys, r.0)
  {
    var (passengers, id) := AddPassenger(sys.passengers, name, surname);
    var log := WriteEntry(sys.log, name, surname);
    (System(sys.flights, passengers, log), Response(Created, Some(id)))
  }

  /** Buys a ticket.  The passenger is checked first: an unknown passenger
      is 404 whatever the flight.  Then an unknown flight is 404, a full
      flight 403, and a booking 200.  Only a booking changes anything. */
  function GetTicket(sys: System, flightId: nat, passengerId: nat): (r: (System, Response))
    ensures r.1.createdId == None
    ensures passengerId >= |sys.passengers| ==> r == (sys, Response(NotFound, None))
    ensures passengerId < |sys.passengers| && flightId >= |sys.flights| ==>
              r == (sys, Response(NotFound, None))
    ensures (passengerId < |sys.passengers| && flightId < |sys.flights|
             && sys.flights[flightId].Full()) ==> r == (sys, Response(Forbidden, None))
    ensures (passengerId < |sys.passengers| && flightId < |sys.flights|
             && !sys.flights[flightId].Full()) ==>
              && r.1.code == OK
              && r.0.passengers == sys.passengers && r.0.log == sys.log
              && ReplacesOnly(sys.flights, r.0.flights, flightId,
                              sys.flights[flightId].(passengers :=
                                sys.flights[flightId].passengers + [passengerId]))
    ensures Inv(sys) ==> Inv(r.0)
    ensures Grows(sys, r.0)
  {
    if GetPassenger(sys.passengers, passengerId).None? then (sys, Response(NotFound, None))
    else
      var (flights, outcome) := BuyTicket(sys.flights, flightId, passengerId);
      match outcome
      case Ok(_) => (sys.(flights := flights), Response(OK, None))
      case Err(IndexError) => (sys.(flights := flights), Response(NotFound, None))
      case Err(ValueError) => (sys.(flights := flights), Response(Forbidden, None))
  }

  /** Checks a delay: 200 for a delayed flight, 204 for one that is not,
      404 for an unknown flight. */
  function GetDelayed(sys: System, flightId: nat): (r: Response)
    ensures r.createdId == None
    ensures r.code == OK <==> flightId < |sys.flights| && sys.flights[flightId].status == Delayed
    ensures r.code == NoContent <==> flightId < |sys.flights| && sys.flights[flightId].status != Delayed
    ensures r.code == NotFound <==> flightId >= |sys.flights|
  {
    match IsDelayed(sys.flights, flightId)
    case Ok(delayed) => if delayed then Response(OK, None) else Response(NoContent, None)
    case Err(_) => Response(NotFound, None)
  }

  /** A request as it arrives after validation. */
  datatype Request =
    | PostFlightRequest(departure: string, arrival: string, maxCapacity: Capacity)
    | PostFlightStatusRequest(flightId: nat, status: FlightStatus)
    | PostPassengerRequest(name: string, surname: string)
    | GetTicketRequest(flightId: nat, passengerId: nat)
    | GetDelayedRequest(flightId: nat)

  /** Dispatches one request to its handler. */
  function Handle(sys: System, req: Request): (r: (System, Response))
    ensures Inv(sys) ==> Inv(r.0)
    ensures Grows(sys, r.0)
  {
    match req
    case PostFlightRequest(d, a, c) => PostFlight(sys, d, a, c)
    case PostFlightStatusRequest(f, s) => PostFlightStatus(sys, f, s)
    case PostPassengerRequest(n, s) => PostPassenger(sys, n, s)
    case GetTicketRequest(f, p) => GetTicket(sys, f, p)
    case GetDelayedRequest(f) => (sys, GetDelayed(sys, f))
  }

  /** Serves requests one after another, collecting the responses. */
  function Serve(sys: System, reqs: seq<Request>): (r: (System, seq<Response>))
    ensures |r.1| == |reqs|
    decreases |reqs|
  {
    if |reqs| == 0 then (sys, [])
    else
      var (sys1, resp) := Handle(sys, reqs[0]);
      var (sys2, resps) := Serve(sys1, reqs[1..]);
      (sys2, [resp] + resps)
  }

  /** `Grows` is transitive. */
  lemma GrowsTransitive(a: System, b: System, c: System)
    requires Grows(a, b) && Grows(b, c)
    ensures Grows(a, c)
  {
  }

  /** Along any sequence of requests the invariant holds throughout (so no
      flight is ever overbooked and the log always mirrors the passengers),
      and the state only grows: no passenger, flight or booking is lost and
      the log file path never moves. */
  lemma {:induction false} ServePreservesInv(sys: System, reqs: seq<Request>)
    requires Inv(sys)
    ensures Inv(Serve(sys, reqs).0)
    ensures Grows(sys, Serve(sys, reqs).0)
    decreases |reqs|
  {
    if |reqs| > 0 {
      var (sys1, resp) := Handle(sys, reqs[0]);
      ServePreservesInv(sys1, reqs[1..]);
      GrowsTransitive(sys, sys1, Serve(sys1, reqs[1..]).0);
    }
  }

  /** The requests of the single-seat scenario: one flight with one seat,
      two passengers, and a ticket request from each. */
  function SingleSeatRequests(): seq<Request> {
    [
      PostFlightRequest("Earth", "Mars", 1),
      PostPassengerRequest("Elon", "Musk"),
      PostPassengerRequest("Elon", "Musk"),
      GetTicketRequest(0, 0),
      GetTicketRequest(0, 1)
    ]
  }

  /** From a fresh start, on a flight with a single seat the first of two
      registered passengers gets the ticket (status 200) and the second is
      refused (status 403). */
  lemma SingleSeatScenario(staticUrl: string)
    ensures Serve(Init(staticUrl), SingleSeatRequests()).1 == [
              Response(Created, Some(0)),
              Response(Created, Some(0)),
              Response(Created, Some(1)),
              Response(OK, None),
              Response(Forbidden, None)
            ]
    ensures Serve(Init(staticUrl), SingleSeatRequests()).1[3].code.Number() == 200
    ensures Serve(Init(staticUrl), SingleSeatRequests()).1[4].code.Number() == 403
  {
  }

  /** A status posted for a flight is what the delayed check then reports:
      after posting DELAYED it answers 200, after any other status 204. */
  lemma StatusThenDelayed(sys: System, flightId: nat, status: FlightStatus)
    requires flightId < |sys.flights|
    ensures GetDelayed(PostFlightStatus(sys, flightId, status).0, flightId).code
              == (if status == Delayed then OK else NoContent)
  {
  }
}
