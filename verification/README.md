# Space flight control system — Dafny model of the booking core

This project models the synchronous domain core of a small flight-control
service:

- the entity records: `Flight`, `Passenger`, the five-value `FlightStatus`,
  and the `Operation` record of a background job;
- the flight registry: an append-only list of flights with id allocation,
  status overwrite, capacity-checked ticket purchase and the delayed check;
- the passenger registry: an append-only list with add and lookup;
- the passenger log: a `;`-delimited table with a header line and one entry
  per registered passenger;
- the decision logic of the request handlers: which service is asked first
  and how each service outcome maps to a response code (200, 201, 204, 403,
  404).

Registries are sequences of immutable records and ids are positions in them.
Every operation is a pure function from the old state to the new state and
an outcome. Python's exceptions become `Result` values: `IndexError` for an
id outside a registry and `ValueError` for a rejected capacity or a full
flight. A missing passenger is `Option.None`. The log file is modelled as
the sequence of strings written to it, each ending in a newline. The output directory that the service reads from the web
framework's settings (`STATIC_URL`) is a parameter.

One module per source file:

| file | module | source |
|---|---|---|
| `outcomes.dfy` | `Outcomes` | Python's `None` and the two exceptions the core raises |
| `models.dfy` | `Models` | `flight/models.py` |
| `flight_service.dfy` | `FlightService` | `flight/services/flight_service.py` |
| `passenger_service.dfy` | `PassengerService` | `flight/services/passenger_service.py` |
| `log_service.dfy` | `LogService` | `flight/services/log_service.py` |
| `views.dfy` | `Views` | `flight/views.py` |

The main invariant is `Views.Inv`:

- no flight has a non-positive capacity;
- no flight holds more passengers than its capacity;
- the log holds the header followed by one entry per passenger, in
  registration order (entries, not physical lines: see "Left out");
- every booked passenger id names a registered passenger.

`buy_ticket` does not check the passenger id. The ticket handler checks the
passenger before the flight, and that ordering is what keeps the last
conjunct true. `Views.ServePreservesInv` proves the invariant holds across
any sequence of requests.

Two facts about the code shape the model:

- A non-positive capacity raises `ValueError` in the `Flight` constructor
  (flight/models.py:28-29).
- The log file is truncated to its header once, when the log service is
  created (flight/services/log_service.py:15-17). After that, one entry is
  appended per registered passenger (flight/views.py:143). The log export job
  only returns the file path (flight/views.py:201).

## Model

| member | source | states |
|---|---|---|
| `Models.StatusesAreFive` | flight/models.py:12-17 | the status enumeration has exactly five members, each listed once, and every status is one of them |
| `Models.ParseStatus` | flight/serializers.py:31 | looking a status up by string yields only a status whose value is that string |
| `Models.StatusValueRoundTrip` | flight/models.py:12-17 | each status's string value parses back to that status, and a string parses iff it is some status's value, so the values are distinct |
| `Models.NewFlight` | flight/models.py:20-34 | construction fails with ValueError iff the capacity is not positive; otherwise route, capacity and status are stored as given, the passenger list is empty and the flight is valid and not full |
| `Models.NewOperation` | flight/models.py:41-44 | a new operation keeps its id, is not done and has no result |
| `Models.OperationEqIsEquality` | flight/models.py:46-51 | operation equality (same id, done flag and result) coincides with record equality and is an equivalence relation |
| `FlightService.AddFlight` | flight/services/flight_service.py:22-29 | success iff capacity > 0. On success the id is the old length, the list grows by one, earlier flights are unchanged and the new flight has the default status and no passengers. On failure it raises ValueError, leaves the list unchanged, and validity is preserved |
| `FlightService.FailedAddConsumesNoId` | flight/services/flight_service.py:22-29 | a rejected add leaves no trace: the next add returns the same id and state as if it had not been made |
| `FlightService.AddFlightIdsAreDense` | flight/services/flight_service.py:22-29 | two successive adds on n flights return n and n+1, and each id holds its own flight |
| `FlightService.ChangeFlightStatus` | flight/services/flight_service.py:31-42 | true iff the id is in range. If true, only that flight's status changes, to the new one. If false, nothing changes |
| `FlightService.BuyTicket` | flight/services/flight_service.py:44-54 | an unknown flight raises IndexError and a full flight raises ValueError, each with no change. Otherwise the passenger id is appended to that flight only. The capacity bound is preserved |
| `FlightService.IsDelayed` | flight/services/flight_service.py:56-62 | IndexError iff the id is out of range, otherwise true iff the status is DELAYED |
| `FlightService.ChangeThenIsDelayed` | flight/services/flight_service.py:31-62 | right after a status change the delayed check reports whether the new status is DELAYED |
| `FlightService.BookAllFillsToCapacity` | flight/services/flight_service.py:44-54 | on a flight with k free seats, a run of bookings succeeds for exactly the first k attempts. The passenger list grows by exactly those passengers, in call order, and nothing else changes |
| `FlightService.CapacityIsEnforced` | flight/services/flight_service.py:51-54 | on an empty flight of capacity n, the first n bookings succeed, the (n+1)-th fails as full, and the list is the first n ids in order |
| `FlightService.BookingOutcomesAreOkOrFull` | flight/services/flight_service.py:44-52 | bookings on an existing flight only succeed or fail as full |
| `PassengerService.AddPassenger` | flight/services/passenger_service.py:8-16 | the id is the old length, the list grows by one, earlier passengers are unchanged and the id holds the new passenger |
| `PassengerService.GetPassenger` | flight/services/passenger_service.py:18-27 | a passenger is returned iff the id is in range, and it is the stored one; otherwise None |
| `PassengerService.GetAfterAdd` | flight/tests/unit_tests/test_passenger_service.py:11-15 | looking up the id returned by add yields the added name and surname; earlier ids yield what they did before |
| `PassengerService.AddPassengersDenseIds` | flight/services/passenger_service.py:15-16 | over any sequence of adds the i-th gets id n+i and that id holds the i-th passenger; earlier passengers are untouched |
| `LogService.SplitJoin` | flight/services/log_service.py:26-27 | joining one or more delimiter-free fields with `;` and splitting at `;` gives the fields back |
| `LogService.HeaderLayout` | flight/services/log_service.py:15-17 | the header line is `name;surname` plus newline and splits into the passenger attribute names |
| `LogService.EntryLayout` | flight/services/log_service.py:19-27 | an entry is name, `;`, surname, newline; with no `;` in either field it splits back into the passenger's values in header order |
| `LogService.EntriesAreAmbiguous` | flight/services/log_service.py:26-27 | fields are not escaped: a `;` inside a field makes two different passengers produce the same entry, and a newline inside a field makes one entry span two file lines |
| `LogService.LogDir` | flight/services/log_service.py:10-12 | IndexError iff the path is empty. Otherwise the result is the path without its first character, plus one '/' exactly when the path did not end in '/'. The result ends in '/' unless the path is "/" |
| `LogService.LogDirIsNormalised` | flight/services/log_service.py:10-12 | deriving the directory again from '/' plus a derived directory returns it unchanged |
| `LogService.NewLog` | flight/services/log_service.py:8-17 | fails with IndexError iff the path is empty; otherwise the file path is the derived directory plus the file name and the file is truncated to the header line alone |
| `LogService.WriteEntry` | flight/services/log_service.py:19-27 | appends exactly one entry, name;surname plus newline, keeping earlier writes and every other field |
| `LogService.LogFilePathAfterConstruction` | flight/services/log_service.py:29-34 | the file path reported is the derived directory plus the file name (for a path ending in '/', the path plus the file name without its first character), and writing entries does not move it |
| `LogService.DefaultLogFilePath` | flight/services/log_service.py:8-13 | with the static URL `/static/` the default log is `static/log/passengers.csv` |
| `Views.Init` | flight/views.py:94-98 | the services start with no flights or passengers and a log holding only the header, and the invariant holds |
| `Views.PostFlight` | flight/views.py:100-113 | a validated flight is always created, 201 with id = old count, appended with earlier flights unchanged |
| `Views.PostFlightStatus` | flight/views.py:115-131 | 200 iff the flight exists, else 404. On 200 only that flight's status changes; on 404 nothing does |
| `Views.PostPassenger` | flight/views.py:133-147 | 201 with the new id. Exactly one passenger is added and exactly one log entry, that passenger's `name;surname`, is appended. Flights and the log's file name and path are unchanged |
| `Views.GetTicket` | flight/views.py:149-175 | an unknown passenger gives 404 whatever the flight. Then an unknown flight gives 404 and a full one gives 403, each with no change. Otherwise 200 and the passenger is appended to that flight only |
| `Views.GetDelayed` | flight/views.py:177-197 | 200 iff the flight exists and is DELAYED, 204 iff it exists and is not, 404 iff it does not exist |
| `Views.ServePreservesInv` | flight/views.py:100-197 | across any sequence of requests the invariant holds: capacity is never exceeded, the log mirrors the passengers, and bookings name registered passengers. No passenger, flight or booking is ever lost, and the log file path never moves |
| `Views.StatusThenDelayed` | flight/tests/component_tests/test_views.py:152-181 | after a status is posted for an existing flight, the delayed check answers 200 if it was DELAYED and 204 otherwise |
| `Views.SingleSeatScenario` | flight/tests/component_tests/test_views.py:130-143 | from a fresh start, a one-seat flight gives the first passenger status 200 and the second status 403 |

## Left out

- The background operation runner (`OperationService`) and the two log-export handlers `get_log_file` and `get_log_file_status` (flight/views.py:199-234). They are about thread scheduling and polling visibility, which this sequential model does not express. `flight/services/operation_service.py` is not part of this model. Only the `Operation` record is modelled.
- File I/O in the log service: opening, truncating and appending are modelled as operations on the sequence of strings written. Errors raised by the file system are not modelled.
- Line structure of the log file: a name or surname may contain `;` or a newline, and neither is escaped. An entry with a newline inside a field becomes more than one physical line of the file. The model counts entries (one per passenger), not physical lines. `LogService.EntriesAreAmbiguous` shows both collisions.
- Concurrent requests: requests are assumed to be handled one at a time. In the source the services are shared by every request (flight/views.py:95-98), and `buy_ticket` checks the count and appends without a lock (flight/services/flight_service.py:51-54). The capacity bound proved by `Views.ServePreservesInv` does not cover interleaved `get_ticket` calls.
- The `settings.STATIC_URL` lookup: the configured directory is a parameter of `LogService.NewLog` and `Views.Init`.
- Request validation and the 422 responses. What the validators guarantee is carried by types instead: ids are `nat`, a posted capacity is a `Capacity` (at least 1), and a status is a `FlightStatus`. The length limits on names (50 and 255 characters) and the default capacity of 50 are not modelled.
- Python negative indexing: ids are natural numbers, as the validators require.
- Flight status as a free string. `Flight.status` is the closed `FlightStatus` type, so `change_flight_status` called directly with a string outside the enumeration is not modelled. The delayed check still compares string values.
- URL routing, API schema decorators, the debug `print` in `post_flight_status`, and construction of framework response objects. A response is a code plus an optional created id.
- Object identity: `get_passenger` returns the stored object, and the model returns an equal value.
