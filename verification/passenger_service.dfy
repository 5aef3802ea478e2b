/** The passenger registry: an append-only list of passengers whose ids are
    their positions. */
module PassengerService {
  import opened Outcomes
  import opened Models

  /** Registers a passenger and returns the new id, the old length of the
      list; earlier passengers keep their ids and values. */
  function AddPassenger(passengers: seq<Passenger>, name: string, surname: string)
    : (r: (seq<Passenger>, nat))
    ensures r.1 == |passengers|
    ensures |r.0| == |passengers| + 1
    ensures r.0[..|passengers|] == passengers
    ensures r.0[r.1] == Passenger(name, surname)
  {
    var passengers' := passengers + [Passenger(name, surname)];
    (passengers', |passengers'| - 1)
  }

  /** The passenger with id `id`, or `None` when there is none. */
  function GetPassenger(passengers: seq<Passenger>, id: nat): (r: Option<Passenger>)
    ensures r.Some? <==> id < |passengers|
    ensures r.Some? ==> r.value == passengers[id]
  {
    if id < |passengers| then Some(passengers[id]) else None
  }

  /** Looking up the id AddPassenger returned yields the passenger just
      added, and every earlier id still yields what it did before. */
  lemma GetAfterAdd(passengers: seq<Passenger>, name: string, surname: string, other: nat)
    requires other < |passengers|
    ensures var (ps, id) := AddPassenger(passengers, name, surname);
            && GetPassenger(ps, id) == Some(Passenger(name, surname))
            && GetPassenger(ps, other) == GetPassenger(passengers, other)
  {
  }

  /** Registers each (name, surname) pair in order, collecting the ids. */
  function AddPassengers(passengers: seq<Passenger>, people: seq<(string, string)>)
    : (r: (seq<Passenger>, seq<nat>))
    ensures |r.1| == |people|
    decreases |people|
  {
    if |people| == 0 then (passengers, [])
    else
      var (ps1, id) := AddPassenger(passengers, people[0].0, people[0].1);
      var (ps2, ids) := AddPassengers(ps1, people[1..]);
      (ps2, [id] + ids)
  }

  /** Ids are dense and follow call order: starting from `n` registered
      passengers, the `i`-th registration gets id `n + i` and that id holds
      the `i`-th pair; the earlier passengers are untouched. */
  lemma {:induction false} AddPassengersDenseIds(passengers: seq<Passenger>, people: seq<(string, string)>)
    ensures var (ps, ids) := AddPassengers(passengers, people);
            && |ps| == |passengers| + |people|
            && ps[..|passengers|] == passengers
            && (forall i | 0 <= i < |people| ::
                  ids[i] == |passengers| + i && ps[ids[i]] == Passenger(people[i].0, people[i].1))
    decreases |people|
  {
    if |people| > 0 {
      var (ps1, id) := AddPassenger(passengers, people[0].0, people[0].1);
      AddPassengersDenseIds(ps1, people[1..]);
      var (ps, ids) := AddPassengers(passengers, people);
      var (ps2, ids2) := AddPassengers(ps1, people[1..]);
      assert ps == ps2 && ids == [id] + ids2;
      assert ps[..|passengers|] == ps1[..|passengers|];
      forall i | 0 <= i < |people|
        ensures ids[i] == |passengers| + i && ps[ids[i]] == Passenger(people[i].0, people[i].1)
      {
        if i == 0 {
          assert ps[id] == ps[..|ps1|][id];
        } else {
          assert ids[i] == ids2[i - 1];
          assert people[i] == people[1..][i - 1];
        }
      }
    }
  }
}
