/** Alert rules and the three evaluators (src/services/alerts/evaluators.py). Times are
    microseconds; a subject key is a rule id with what follows it. */
module AlertRules {
  import opened Options

  const SECOND: int := 1_000_000

  datatype RuleType = EventMatch | OccupancyThreshold | DwellThreshold

  datatype Rule = Rule(
    id: nat, ruleType: RuleType, enabled: bool, cooldown: nat,
    filters: Filters, occupancy: Option<nat>, occupancySeconds: Option<int>, dwellSeconds: Option<nat>)

  datatype Filters = Filters(
    eventTypes: set<string>, cameraIds: set<string>, zoneIds: set<nat>, entityTypes: set<string>)

  /** payload["zone_id"]: missing, not a UUID, or a UUID, in its usual spelling or another. */
  datatype ZoneRef = Absent | Unparsable | Zone(value: nat, canonical: bool)

  datatype SourceEvent = SourceEvent(
    id: string, eventType: string, occurredAt: int, entity: nat, entityType: string,
    camera: Option<string>, zone: ZoneRef, occupancy: Option<int>)

  /** What follows the rule id in a subject key. */
  datatype Subject = OfEntity(entity: nat) | OfZone(zone: nat, entity: nat)

  datatype IdemKey = ForEvent(ruleId: nat, eventId: string) | ForDue(ruleId: nat, stateId: nat)

  datatype Origin = Origin(entity: nat, zone: Option<nat>, eventId: string)

  /** The row's entity and zone are the subject's. */
  predicate Fits(origin: Origin, subject: Subject) {
    origin.entity == subject.entity && (subject.OfZone? ==> origin.zone == Some(subject.zone))
  }

  datatype Action =
    | Trigger(ruleId: nat, subject: Subject, cooldown: nat, key: IdemKey, origin: Origin, promised: Option<int>)
    | Schedule(ruleId: nat, subject: Subject, origin: Origin, startedAt: int, dueAt: int)
    | ClearPending(ruleId: nat, subject: Subject)
    | ResolveSubject(ruleId: nat, subject: Subject)

  /** common_filters_match. Zone ids are compared as text. */
  predicate CommonFiltersMatch(f: Filters, e: SourceEvent) {
    if f.cameraIds != {} && (e.camera.None? || e.camera.value !in f.cameraIds) then false
    else if f.entityTypes != {} && e.entityType !in f.entityTypes then false
    else f.zoneIds == {} || (e.zone.Zone? && e.zone.canonical && e.zone.value in f.zoneIds)
  }

  function ParseZoneId(e: SourceEvent): Option<nat> {
    if e.zone.Zone? then Some(e.zone.value) else None
  }

  function OrZero(n: Option<nat>): nat {
    if n.Some? then n.value else 0
  }

  function EvaluateEventMatch(rule: Rule, e: SourceEvent, active: bool): seq<Action> {
    if e.eventType !in rule.filters.eventTypes then []
    else if !CommonFiltersMatch(rule.filters, e) then []
    else if !active then []
    else [Trigger(rule.id, OfEntity(e.entity), rule.cooldown, ForEvent(rule.id, e.id),
                  Origin(e.entity, ParseZoneId(e), e.id), None)]
  }

  /** The tests the occupancy and dwell evaluators make first. */
  predicate Relevant(rule: Rule, e: SourceEvent, active: bool, types: set<string>) {
    && e.eventType in types
    && (rule.filters.eventTypes == {} || e.eventType in rule.filters.eventTypes)
    && CommonFiltersMatch(rule.filters, e) && active && e.zone.Zone?
  }

  function Cleared(rule: Rule, subject: Subject): seq<Action> {
    [ClearPending(rule.id, subject), ResolveSubject(rule.id, subject)]
  }

  function EvaluateOccupancy(rule: Rule, e: SourceEvent, active: bool): seq<Action> {
    if !Relevant(rule, e, active, {"zone_occupancy_changed", "zone_entered", "zone_exited"}) then []
    else if e.occupancy.None? then []
    else
      var subject := OfZone(e.zone.value, e.entity);
      var origin := Origin(e.entity, Some(e.zone.value), e.id);
      if e.occupancy.value < OrZero(rule.occupancy) then Cleared(rule, subject)
      else if rule.occupancySeconds.None? || rule.occupancySeconds.value <= 0 then
        [Trigger(rule.id, subject, rule.cooldown, ForEvent(rule.id, e.id), origin, None)]
      else
        [Schedule(rule.id, subject, origin, e.occurredAt, e.occurredAt + rule.occupancySeconds.value * SECOND)]
  }

  function EvaluateDwell(rule: Rule, e: SourceEvent, active: bool): seq<Action> {
    if !Relevant(rule, e, active, {"zone_entered", "zone_exited"}) then []
    else
      var subject := OfZone(e.zone.value, e.entity);
      if e.eventType == "zone_entered" then
        [Schedule(rule.id, subject, Origin(e.entity, Some(e.zone.value), e.id),
                  e.occurredAt, e.occurredAt + OrZero(rule.dwellSeconds) * SECOND)]
      else Cleared(rule, subject)
  }

  /** Each rule has the one evaluator of its type. */
  function Evaluate(rule: Rule, e: SourceEvent, active: bool): seq<Action> {
    match rule.ruleType
    case EventMatch => EvaluateEventMatch(rule, e, active)
    case OccupancyThreshold => EvaluateOccupancy(rule, e, active)
    case DwellThreshold => EvaluateDwell(rule, e, active)
  }

  /** How long a rule's condition must last, in seconds. */
  function Sustain(rule: Rule): int {
    match rule.ruleType
    case EventMatch => 0
    case OccupancyThreshold => if rule.occupancySeconds.Some? then rule.occupancySeconds.value else 0
    case DwellThreshold => OrZero(rule.dwellSeconds)
  }

  predicate Raises(actions: seq<Action>) {
    exists i | 0 <= i < |actions| :: actions[i].Trigger? || actions[i].Schedule?
  }

  predicate Settles(actions: seq<Action>) {
    exists i | 0 <= i < |actions| :: actions[i].ClearPending? || actions[i].ResolveSubject?
  }

  /** One evaluation speaks of one subject of its own rule and event, never raises and settles
      at once, and schedules for when the condition has lasted from the event on. */
  lemma OneVerdict(rule: Rule, e: SourceEvent, active: bool)
    ensures var actions := Evaluate(rule, e, active);
            && !(Raises(actions) && Settles(actions))
            && (forall a, b | a in actions && b in actions :: a.subject == b.subject)
            && (forall a | a in actions :: a.ruleId == rule.id && a.subject.entity == e.entity)
            && (forall a | a in actions && (a.Trigger? || a.Schedule?) ::
                  Fits(a.origin, a.subject) && a.origin.eventId == e.id)
            && (forall a | a in actions && a.Trigger? ::
                  a.key == ForEvent(rule.id, e.id) && a.promised.None? && a.cooldown == rule.cooldown)
            && (forall a | a in actions && a.Schedule? ::
                  a.startedAt == e.occurredAt && a.dueAt == a.startedAt + Sustain(rule) * SECOND && Sustain(rule) >= 0)
            && (!active ==> actions == [])
  {
  }

  /** More people never turn a raise into a settlement. */
  lemma RaisingIsMonotone(rule: Rule, e: SourceEvent, more: int, active: bool)
    requires e.occupancy.Some? && e.occupancy.value <= more
    ensures var fuller := e.(occupancy := Some(more));
            && (Raises(Evaluate(rule, e, active)) ==> Evaluate(rule, fuller, active) == Evaluate(rule, e, active))
            && (Settles(Evaluate(rule, fuller, active)) ==> Evaluate(rule, e, active) == Evaluate(rule, fuller, active))
  {
  }
}
