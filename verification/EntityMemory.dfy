/** Persistent entity memory (src/services/entity_memory_service.py): one transaction an event. */
module EntityMemory {
  import opened Options
  import opened EntityTables

  /** An OBJECT_* event with its resolved identity key. `parses` is false when a field is missing
      or of the wrong type. */
  datatype VisionEvent = VisionEvent(
    id: EventId, kind: Kind, key: nat, labelId: nat, confidence: real, at: int, parses: bool)

  /** _extract_observation succeeds. */
  predicate WellFormed(e: VisionEvent) {
    e.parses && 0.0 <= e.confidence <= 1.0
  }

  datatype Config = Config(snapshotOnUpdate: bool, minInterval: int)

  datatype Store = Store(
    entities: seq<Entity>, observations: seq<Observation>, snapshots: seq<Snapshot>, lastSnapshot: map<nat, int>)

  // ---- one event, on values ----

  function ObservationOf(e: VisionEvent, entity: nat): Observation {
    Observation(entity, e.at, e.confidence, e.kind, e.id)
  }

  /** _should_write_snapshot. */
  predicate WritesSnapshot(cfg: Config, last: map<nat, int>, id: nat, reason: Reason, at: int) {
    reason == OnUpdate ==>
      cfg.snapshotOnUpdate && (cfg.minInterval <= 0 || id !in last || at - last[id] >= cfg.minInterval)
  }

  function LastSnapshotAfter(last: map<nat, int>, id: nat, reason: Reason, at: int): map<nat, int> {
    match reason
    case OnCreate => last
    case OnUpdate => last[id := at]
    case OnClose => last - {id}
  }

  /** _finalise on the entity row the handler settled on. */
  function Finalised(cfg: Config, s: Store, id: nat, e: VisionEvent, created: bool, closing: bool): Store
    requires id < |s.entities|
  {
    var observations := Appended(s.observations, ObservationOf(e, id));
    var entities := if closing then s.entities[id := ClosedAt(s.entities[id], e.at)] else s.entities;
    var reason := if closing then OnClose else if created then OnCreate else OnUpdate;
    if WritesSnapshot(cfg, s.lastSnapshot, id, reason, e.at) then
      Store(entities, observations, s.snapshots + [Snapshot(id, e.at, reason, entities[id])],
            LastSnapshotAfter(s.lastSnapshot, id, reason, e.at))
    else Store(entities, observations, s.snapshots, s.lastSnapshot)
  }

  function Create(s: Store, e: VisionEvent): Store {
    s.(entities := s.entities + [NewEntity(e.key, e.labelId, e.confidence, e.at)])
  }

  function Apply(s: Store, id: nat, e: VisionEvent): Store
    requires id < |s.entities|
  {
    s.(entities := s.entities[id := Observed(s.entities[id], e.labelId, e.confidence, e.at)])
  }

  function HandleEntered(cfg: Config, s: Store, e: VisionEvent): Store {
    match Latest(s.entities, e.key, true)
    case None => Finalised(cfg, Create(s, e), |s.entities|, e, true, false)
    case Some(id) => Finalised(cfg, Apply(s, id, e), id, e, false, false)
  }

  /** A late event on a closed entity is recorded and changes nothing else. */
  function RecordOnly(s: Store, id: nat, e: VisionEvent): Store {
    s.(observations := Appended(s.observations, ObservationOf(e, id)))
  }

  function HandleUpdated(cfg: Config, s: Store, e: VisionEvent): Store {
    match Latest(s.entities, e.key, true)
    case Some(id) => Finalised(cfg, Apply(s, id, e), id, e, false, false)
    case None =>
      var latest := Latest(s.entities, e.key, false);
      if latest.Some? && s.entities[latest.value].status == Closed then RecordOnly(s, latest.value, e)
      else Finalised(cfg, Create(s, e), |s.entities|, e, true, false)
  }

  function HandleExited(cfg: Config, s: Store, e: VisionEvent): Store {
    match Latest(s.entities, e.key, true)
    case Some(id) => Finalised(cfg, Apply(s, id, e), id, e, false, true)
    case None =>
      match Latest(s.entities, e.key, false)
      case None => Finalised(cfg, Create(s, e), |s.entities|, e, false, true)
      case Some(id) =>
        // found only without the ACTIVE filter, so closed
        if s.entities[id].status == Closed then RecordOnly(s, id, e) else assert false; s
  }

  /** A duplicate is skipped; a malformed event, or a second one with the empty id, raises. */
  predicate Dropped(s: Store, e: VisionEvent) {
    HasSourceEvent(s.observations, e.id) || !WellFormed(e) || Refused(s.observations, e.id)
  }

  /** _process_event; what a raising event wrote is rolled back. */
  function Process(cfg: Config, s: Store, e: VisionEvent): Store {
    if Dropped(s, e) then s
    else match e.kind
         case Entered => HandleEntered(cfg, s, e)
         case Updated => HandleUpdated(cfg, s, e)
         case Exited => HandleExited(cfg, s, e)
  }

  // ---- the service ----

  class EntityMemoryService {
    const cfg: Config
    const entities: EntityRepository
    const observations: ObservationRepository
    var lastSnapshot: map<nat, int>

    constructor (cfg: Config, entities: EntityRepository, observations: ObservationRepository)
      requires cfg.minInterval >= 0
      ensures this.cfg == cfg && this.entities == entities && this.observations == observations
      ensures State() == Store(entities.rows, observations.rows, entities.snapshots, map[])
    {
      this.cfg, this.entities, this.observations := cfg, entities, observations;
      lastSnapshot := map[];
    }

    ghost function State(): Store
      reads this, entities, observations
    {
      Store(entities.rows, observations.rows, entities.snapshots, lastSnapshot)
    }

    /** In each of these methods `false` is an exception, raised before the throttle is touched. */
    method Finalise(id: nat, e: VisionEvent, created: bool, closing: bool) returns (ok: bool)
      requires id < |entities.rows|
      modifies this, entities, observations
      ensures ok <==> !Refused(old(observations.rows), e.id)
      ensures ok ==> State() == Finalised(cfg, old(State()), id, e, created, closing)
      ensures !ok ==> lastSnapshot == old(lastSnapshot)
    {
      var outcome := observations.Append(Observation(id, e.at, e.confidence, e.kind, e.id));
      if outcome.Broken? { return false; }
      var reason := OnUpdate;
      if closing {
        entities.Close(id, e.at);
        reason := OnClose;
      } else if created {
        reason := OnCreate;
      }
      var writes := true;
      if reason == OnUpdate {
        if !cfg.snapshotOnUpdate { writes := false; }
        else if cfg.minInterval > 0 && id in lastSnapshot { writes := e.at - lastSnapshot[id] >= cfg.minInterval; }
      }
      if writes {
        entities.CreateSnapshot(id, reason, e.at);
        if reason == OnUpdate { lastSnapshot := lastSnapshot[id := e.at]; }
        else if reason == OnClose { lastSnapshot := lastSnapshot - {id}; }
      }
      return true;
    }

    method OnEntered(e: VisionEvent) returns (ok: bool)
      modifies this, entities, observations
      ensures ok <==> !Refused(old(observations.rows), e.id)
      ensures ok ==> State() == HandleEntered(cfg, old(State()), e)
      ensures !ok ==> lastSnapshot == old(lastSnapshot)
    {
      var existing := Latest(entities.rows, e.key, true);
      if existing.None? {
        var id := entities.Create(e.key, e.labelId, e.confidence, e.at);
        ok := Finalise(id, e, true, false);
      } else {
        entities.ApplyObservation(existing.value, e.labelId, e.confidence, e.at);
        ok := Finalise(existing.value, e, false, false);
      }
    }

    method OnUpdated(e: VisionEvent) returns (ok: bool)
      modifies this, entities, observations
      ensures ok <==> !Refused(old(observations.rows), e.id)
      ensures ok ==> State() == HandleUpdated(cfg, old(State()), e)
      ensures !ok ==> lastSnapshot == old(lastSnapshot)
    {
      var existing := Latest(entities.rows, e.key, true);
      if existing.Some? {
        entities.ApplyObservation(existing.value, e.labelId, e.confidence, e.at);
        ok := Finalise(existing.value, e, false, false);
        return ok;
      }
      var latest := Latest(entities.rows, e.key, false);
      if latest.Some? && entities.rows[latest.value].status == Closed {
        var outcome := observations.Append(Observation(latest.value, e.at, e.confidence, e.kind, e.id));
        return !outcome.Broken?;
      }
      var id := entities.Create(e.key, e.labelId, e.confidence, e.at);
      ok := Finalise(id, e, true, false);
    }

    method OnExited(e: VisionEvent) returns (ok: bool)
      modifies this, entities, observations
      ensures ok <==> !Refused(old(observations.rows), e.id)
      ensures ok ==> State() == HandleExited(cfg, old(State()), e)
      ensures !ok ==> lastSnapshot == old(lastSnapshot)
    {
      var existing := Latest(entities.rows, e.key, true);
      var id;
      if existing.None? {
        var latest := Latest(entities.rows, e.key, false);
        if latest.None? {
          id := entities.Create(e.key, e.labelId, e.confidence, e.at);
        } else {
          id := latest.value;
          if entities.rows[id].status == Closed {
            var outcome := observations.Append(Observation(id, e.at, e.confidence, e.kind, e.id));
            return !outcome.Broken?;
          }
          assert false;
        }
      } else {
        id := existing.value;
        entities.ApplyObservation(id, e.labelId, e.confidence, e.at);
      }
      ok := Finalise(id, e, false, true);
    }

    /** One transaction: an exception rolls the tables back, `ok` is false, and nothing is written. */
    method ProcessEvent(e: VisionEvent) returns (ok: bool)
      modifies this, entities, observations
      ensures State() == Process(cfg, old(State()), e)
      ensures ok <==> HasSourceEvent(old(observations.rows), e.id) || !Dropped(old(State()), e)
    {
      if HasSourceEvent(observations.rows, e.id) { return true; }
      if !WellFormed(e) { return false; }
      var entityRows, snapshotRows, observationRows := entities.rows, entities.snapshots, observations.rows;
      match e.kind {
        case Entered => ok := OnEntered(e);
        case Updated => ok := OnUpdated(e);
        case Exited => ok := OnExited(e);
      }
      if !ok {
        entities.rows, entities.snapshots, observations.rows := entityRows, snapshotRows, observationRows;
      }
    }
  }
}
