/** The entity and observation tables (src/storage/entity_repository.py,
    src/storage/observation_repository.py). Ids are positions; identity keys and labels are numbers. */
module EntityTables {
  import opened Options

  datatype Status = Active | Closed

  datatype Entity = Entity(
    key: nat, labelId: nat, status: Status, timesSeen: nat, average: real, firstSeen: int, lastSeen: int)

  datatype Kind = Entered | Updated | Exited

  /** `Blank(_)` is a non-empty id of nothing but whitespace, `Empty` the empty string. */
  datatype EventId = Named(n: nat) | Blank(w: nat) | Empty

  datatype Observation = Observation(entity: nat, at: int, confidence: real, kind: Kind, source: EventId)

  datatype Reason = OnCreate | OnUpdate | OnClose

  datatype Snapshot = Snapshot(entity: nat, at: int, reason: Reason, copy: Entity)

  // ---- queries ----

  predicate Matches(e: Entity, key: nat, activeOnly: bool) {
    e.key == key && (activeOnly ==> e.status == Active)
  }

  /** The matching row with the greatest `last_seen`; the earliest of equals. */
  function Latest(rows: seq<Entity>, key: nat, activeOnly: bool): (r: Option<nat>)
    ensures r.Some? ==> r.value < |rows| && Matches(rows[r.value], key, activeOnly)
    ensures forall i | 0 <= i < |rows| && Matches(rows[i], key, activeOnly) ::
              r.Some? && rows[i].lastSeen <= rows[r.value].lastSeen
  {
    if rows == [] then None
    else
      var n := |rows| - 1;
      var best := Latest(rows[..n], key, activeOnly);
      if Matches(rows[n], key, activeOnly)
         && (best.None? || rows[n].lastSeen > rows[best.value].lastSeen)
      then Some(n) else best
  }

  predicate Has(observations: seq<Observation>, id: EventId) {
    exists i | 0 <= i < |observations| :: observations[i].source == id
  }

  /** has_source_event: false for an id that strips to nothing. */
  predicate HasSourceEvent(observations: seq<Observation>, id: EventId) {
    id.Named? && Has(observations, id)
  }

  // ---- row changes ----

  function NewEntity(key: nat, labelId: nat, confidence: real, at: int): Entity {
    Entity(key, labelId, Active, 1, confidence, at, at)
  }

  /** The mean of `times` values and one more. */
  function RunningMean(average: real, times: nat, value: real): real {
    (average * times as real + value) / (times + 1) as real
  }

  /** apply_observation with reopen=False: the status is kept. */
  function Observed(e: Entity, labelId: nat, confidence: real, at: int): Entity {
    e.(timesSeen := e.timesSeen + 1, average := RunningMean(e.average, e.timesSeen, confidence),
       lastSeen := at, labelId := labelId)
  }

  function ClosedAt(e: Entity, at: int): Entity {
    e.(status := Closed, lastSeen := at)
  }

  /** An empty id skips append's lookup, and a second one breaks the UNIQUE column. */
  predicate Refused(observations: seq<Observation>, id: EventId) {
    id.Empty? && Has(observations, id)
  }

  /** append: an id that is already there inserts nothing. */
  function Appended(observations: seq<Observation>, o: Observation): seq<Observation> {
    if Has(observations, o.source) then observations else observations + [o]
  }

  /** How append ends: `Broken` is the exception of the UNIQUE column. */
  datatype Outcome = Created | Known | Broken

  // ---- repositories ----

  class EntityRepository {
    var rows: seq<Entity>
    var snapshots: seq<Snapshot>

    constructor ()
      ensures rows == [] && snapshots == []
    {
      rows, snapshots := [], [];
    }

    method Create(key: nat, labelId: nat, confidence: real, at: int) returns (id: nat)
      modifies this`rows
      ensures id == |old(rows)| && rows == old(rows) + [NewEntity(key, labelId, confidence, at)]
    {
      id := |rows|;
      rows := rows + [Entity(key, labelId, Active, 1, confidence, at, at)];
    }

    method ApplyObservation(id: nat, labelId: nat, confidence: real, at: int)
      requires id < |rows|
      modifies this`rows
      ensures rows == old(rows)[id := Observed(old(rows)[id], labelId, confidence, at)]
    {
      var e := rows[id];
      e := e.(average := RunningMean(e.average, e.timesSeen, confidence));
      e := e.(timesSeen := e.timesSeen + 1);
      e := e.(lastSeen := at, labelId := labelId);
      rows := rows[id := e];
    }

    method Close(id: nat, at: int)
      requires id < |rows|
      modifies this`rows
      ensures rows == old(rows)[id := ClosedAt(old(rows)[id], at)]
    {
      rows := rows[id := rows[id].(lastSeen := at, status := Closed)];
    }

    method CreateSnapshot(id: nat, reason: Reason, at: int)
      requires id < |rows|
      modifies this`snapshots
      ensures snapshots == old(snapshots) + [Snapshot(id, at, reason, rows[id])]
    {
      snapshots := snapshots + [Snapshot(id, at, reason, rows[id])];
    }
  }

  class ObservationRepository {
    var rows: seq<Observation>

    constructor ()
      ensures rows == []
    {
      rows := [];
    }

    method Append(o: Observation) returns (outcome: Outcome)
      modifies this
      ensures rows == Appended(old(rows), o)
      ensures outcome.Created? <==> !Has(old(rows), o.source)
      ensures outcome.Broken? <==> Refused(old(rows), o.source)
    {
      if !o.source.Empty? && Has(rows, o.source) { return Known; }
      // the INSERT
      if Has(rows, o.source) { return Broken; }
      rows := rows + [o];
      return Created;
    }
  }
}
