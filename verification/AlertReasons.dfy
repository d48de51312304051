/** Why there is an alert, and when there must be one: what a source event does to one rule's alerts and
    evaluator rows, told from the rule's own settings and the event's own values. */
module AlertReasons {
  import opened Options
  import opened AlertRules
  import opened AlertTables
  import opened AlertEvaluation
  import opened AlertRuns
  import AlertDue
  import AlertReplay

  // ---- what a rule listens to ----

  /** An empty set of wanted values restricts nothing. */
  predicate Admits<T(==)>(wanted: set<T>, value: Option<T>) {
    wanted == {} || (value.Some? && value.value in wanted)
  }

  /** The zone id as it is spelt. */
  function SpeltZone(e: SourceEvent): Option<nat> {
    if e.zone.Zone? && e.zone.canonical then Some(e.zone.value) else None
  }

  /** The event is of a type the rule reacts to, and within the rule's cameras, entity types and zones. */
  predicate Hears(rule: Rule, e: SourceEvent) {
    && (match rule.ruleType
        case EventMatch => e.eventType in rule.filters.eventTypes
        case OccupancyThreshold =>
          && e.eventType in {"zone_occupancy_changed", "zone_entered", "zone_exited"}
          && Admits(rule.filters.eventTypes, Some(e.eventType))
        case DwellThreshold =>
          e.eventType in {"zone_entered", "zone_exited"} && Admits(rule.filters.eventTypes, Some(e.eventType)))
    && Admits(rule.filters.cameraIds, e.camera)
    && Admits(rule.filters.entityTypes, Some(e.entityType))
    && Admits(rule.filters.zoneIds, SpeltZone(e))
    && (rule.ruleType != EventMatch ==> e.zone.Zone?)
    && (rule.ruleType == OccupancyThreshold ==> e.occupancy.Some?)
  }

  function Limit(rule: Rule): int {
    match rule.occupancy
    case None => 0
    case Some(n) => n
  }

  function Seconds(rule: Rule): int {
    match rule.ruleType
    case EventMatch => 0
    case OccupancyThreshold => (match rule.occupancySeconds case None => 0 case Some(s) => s)
    case DwellThreshold => (match rule.dwellSeconds case None => 0 case Some(s) => s)
  }

  /** What the event says of the rule's condition: it is met on the spot, it has begun, or it is over. */
  datatype News = Met | Begun | Over

  function NewsOf(rule: Rule, e: SourceEvent): News
    requires Hears(rule, e)
  {
    match rule.ruleType
    case EventMatch => Met
    case OccupancyThreshold =>
      if e.occupancy.value < Limit(rule) then Over else if Seconds(rule) <= 0 then Met else Begun
    case DwellThreshold => if e.eventType == "zone_entered" then Begun else Over
  }

  function SubjectOf(rule: Rule, e: SourceEvent): Subject {
    if rule.ruleType != EventMatch && e.zone.Zone? then OfZone(e.zone.value, e.entity) else OfEntity(e.entity)
  }

  function OriginOf(e: SourceEvent): Origin {
    Origin(e.entity, if e.zone.Zone? then Some(e.zone.value) else None, e.id)
  }

  /** The evaluators, read through these. */
  lemma EvaluationSays(rule: Rule, e: SourceEvent, active: bool)
    ensures var actions, subject := Evaluate(rule, e, active), SubjectOf(rule, e);
            if !active || !Hears(rule, e) then actions == []
            else match NewsOf(rule, e)
                 case Met =>
                   actions == [Trigger(rule.id, subject, rule.cooldown, ForEvent(rule.id, e.id), OriginOf(e), None)]
                 case Begun =>
                   actions == [Schedule(rule.id, subject, OriginOf(e), e.occurredAt,
                                        e.occurredAt + Seconds(rule) * SECOND)]
                 case Over => actions == [ClearPending(rule.id, subject), ResolveSubject(rule.id, subject)]
  {
  }

  // ---- the tables, as far as one rule goes ----

  /** Nothing of the rule changed; whatever is new belongs to other rules. */
  ghost predicate SameFor(t: Tables, t': Tables, ruleId: nat) {
    && |t.alerts| <= |t'.alerts| && |t.states| <= |t'.states|
    && (forall i | 0 <= i < |t.alerts| :: t.alerts[i].ruleId == ruleId ==> t'.alerts[i] == t.alerts[i])
    && (forall i | 0 <= i < |t.alerts| :: t'.alerts[i].ruleId == t.alerts[i].ruleId)
    && (forall i | |t.alerts| <= i < |t'.alerts| :: t'.alerts[i].ruleId != ruleId)
    && (forall i | 0 <= i < |t.states| :: t.states[i].ruleId == ruleId ==> t'.states[i] == t.states[i])
    && (forall i | 0 <= i < |t.states| :: t'.states[i].ruleId == t.states[i].ruleId)
    && (forall i | |t.states| <= i < |t'.states| :: t'.states[i].ruleId != ruleId)
  }

  lemma OthersAct(t: Tables, a: Action, now: int, ruleId: nat)
    requires a.ruleId != ruleId
    ensures SameFor(t, Applied(t, a, now), ruleId)
  {
  }

  lemma SameForTrans(a: Tables, b: Tables, c: Tables, ruleId: nat)
    requires SameFor(a, b, ruleId) && SameFor(b, c, ruleId)
    ensures SameFor(a, c, ruleId)
  {
  }

  lemma {:induction false} OthersActAll(t: Tables, actions: seq<Action>, now: int, ruleId: nat)
    requires forall a | a in actions :: a.ruleId != ruleId
    ensures SameFor(t, PerformAll(t, Steps(actions, now)), ruleId)
  {
    if actions != [] {
      hide SameFor, Applied;
      var n := |actions| - 1;
      OthersActAll(t, actions[..n], now, ruleId);
      assert Steps(actions, now)[..n] == Steps(actions[..n], now);
      var t1 := PerformAll(t, Steps(actions[..n], now));
      OthersAct(t1, actions[n], now, ruleId);
      SameForTrans(t, t1, Applied(t1, actions[n], now), ruleId);
    } else {
      SameForItself(t, ruleId);
    }
  }

  lemma SameForItself(t: Tables, ruleId: nat)
    ensures SameFor(t, t, ruleId)
  {
  }

  /** The actions of the other rules are about the other rules. */
  lemma {:induction false} ActionsAbout(rules: seq<Rule>, e: SourceEvent, active: (Rule, int) -> bool, now: int,
                                        ruleId: nat)
    requires forall r | r in rules :: r.id != ruleId
    ensures forall a | a in Actions(rules, e, active, now) :: a.ruleId != ruleId
  {
    if rules != [] {
      var rule := rules[|rules|-1];
      ActionsAbout(rules[..|rules|-1], e, active, now, ruleId);
      OneVerdict(rule, e, active(rule, now));
      hide Evaluate;
    }
  }

  lemma {:induction false} ActionsConcat(a: seq<Rule>, b: seq<Rule>, e: SourceEvent, active: (Rule, int) -> bool,
                                         now: int)
    ensures Actions(a + b, e, active, now) == Actions(a, e, active, now) + Actions(b, e, active, now)
  {
    hide RuleActions;
    if b == [] {
      assert a + b == a;
    } else {
      var n := |b| - 1;
      ActionsConcat(a, b[..n], e, active, now);
      assert (a + b)[..|a + b|-1] == a + b[..n];
    }
  }

  lemma StepsConcat(a: seq<Action>, b: seq<Action>, now: int)
    ensures Steps(a + b, now) == Steps(a, now) + Steps(b, now)
  {
  }

  /** An event's plan, as far as rule `r` goes, is that rule's own evaluation. */
  lemma PlanForRule(t: Tables, rules: seq<Rule>, e: SourceEvent, active: (Rule, int) -> bool, now: int, r: nat)
    returns (t1: Tables)
    requires r < |rules| && AlertReplay.DistinctRules(rules) && IsSourceType(e.eventType)
    ensures t1 == PerformAll(t, Steps(Actions(rules[..r], e, active, now), now))
    ensures SameFor(t, t1, rules[r].id)
    ensures SameFor(PerformAll(t1, Steps(RuleActions(rules[r], e, active, now), now)),
                    PerformAll(t, EventPlan(rules, e, active, now)), rules[r].id)
  {
    var before, rule, after := rules[..r], rules[r], rules[r+1..];
    assert forall x | x in before || x in after :: x.id != rule.id;
    assert rules == before + [rule] + after;
    hide SameFor, Actions, PerformAll, RuleActions, IsSourceType, AlertReplay.DistinctRules;
    ActionsConcat(before + [rule], after, e, active, now);
    ActionsConcat(before, [rule], e, active, now);
    OneRule(rule, e, active, now);
    var a, b, c := Actions(before, e, active, now), RuleActions(rule, e, active, now), Actions(after, e, active, now);
    StepsConcat(a + b, c, now);
    StepsConcat(a, b, now);
    ActionsAbout(before, e, active, now, rule.id);
    ActionsAbout(after, e, active, now, rule.id);
    t1 := PerformAll(t, Steps(a, now));
    OthersActAll(t, a, now, rule.id);
    PerformConcat(t, Steps(a, now), Steps(b, now));
    PerformConcat(t, Steps(a, now) + Steps(b, now), Steps(c, now));
    OthersActAll(PerformAll(t1, Steps(b, now)), c, now, rule.id);
  }

  lemma OneRule(rule: Rule, e: SourceEvent, active: (Rule, int) -> bool, now: int)
    ensures Actions([rule], e, active, now) == RuleActions(rule, e, active, now)
  {
    assert [rule][..0] == [];
  }

  /** Of the rule's alerts and rows only the named ones are new or changed. */
  ghost predicate SameExcept(t: Tables, t': Tables, ruleId: nat, alertIds: set<nat>, rowIds: set<nat>) {
    && |t.alerts| <= |t'.alerts| && |t.states| <= |t'.states|
    && (forall i | 0 <= i < |t.alerts| :: t'.alerts[i].ruleId == t.alerts[i].ruleId)
    && (forall i | 0 <= i < |t.states| :: t'.states[i].ruleId == t.states[i].ruleId)
    && (forall i | 0 <= i < |t.alerts| && i !in alertIds ::
         t.alerts[i].ruleId == ruleId ==> t'.alerts[i] == t.alerts[i])
    && (forall i | |t.alerts| <= i < |t'.alerts| && i !in alertIds :: t'.alerts[i].ruleId != ruleId)
    && (forall i | i in alertIds :: i < |t'.alerts| && t'.alerts[i].ruleId == ruleId)
    && (forall i | 0 <= i < |t.states| && i !in rowIds ::
         t.states[i].ruleId == ruleId ==> t'.states[i] == t.states[i])
    && (forall i | |t.states| <= i < |t'.states| && i !in rowIds :: t'.states[i].ruleId != ruleId)
    && (forall i | i in rowIds :: i < |t'.states| && t'.states[i].ruleId == ruleId)
  }

  lemma Sandwich(a: Tables, b: Tables, c: Tables, d: Tables, ruleId: nat, alertIds: set<nat>, rowIds: set<nat>)
    requires SameFor(a, b, ruleId) && SameExcept(b, c, ruleId, alertIds, rowIds) && SameFor(c, d, ruleId)
    ensures SameExcept(a, d, ruleId, alertIds, rowIds)
    ensures forall i | i in alertIds :: i < |c.alerts| <= |d.alerts| && d.alerts[i] == c.alerts[i]
    ensures forall i | i in rowIds :: i < |c.states| <= |d.states| && d.states[i] == c.states[i]
  {
  }

  // ---- the alert that must be ----

  /** Nothing stands in the way of an alert: its key is new, the subject has no live alert, and every
      earlier one is at least the cooldown ago. */
  ghost predicate Free(alerts: seq<Alert>, rule: Rule, subject: Subject, eventId: string, now: int) {
    && (forall i | 0 <= i < |alerts| :: alerts[i].key != ForEvent(rule.id, eventId))
    && (forall i | 0 <= i < |alerts| && About(alerts[i], rule.id, subject) ::
         alerts[i].status == Resolved && now - alerts[i].triggeredAt >= rule.cooldown * SECOND)
  }

  lemma FreeIsAllowed(alerts: seq<Alert>, rule: Rule, subject: Subject, e: SourceEvent, now: int)
    ensures Allowed(alerts, Trigger(rule.id, subject, rule.cooldown, ForEvent(rule.id, e.id), OriginOf(e), None), now)
       <==> Free(alerts, rule, subject, e.id, now)
  {
  }

  lemma SameIsFree(t: Tables, t1: Tables, rule: Rule, subject: Subject, eventId: string, now: int)
    requires SameFor(t, t1, rule.id) && KeysNameRules(t.alerts) && KeysNameRules(t1.alerts)
    ensures Free(t.alerts, rule, subject, eventId, now) <==> Free(t1.alerts, rule, subject, eventId, now)
  {
  }

  /** An alert's key names its rule. */
  ghost predicate KeysNameRules(alerts: seq<Alert>) {
    forall i | 0 <= i < |alerts| :: alerts[i].key.ruleId == alerts[i].ruleId
  }

  /** The new alert of an event that meets the rule's condition. */
  function AlertOf(rule: Rule, e: SourceEvent, now: int): Alert {
    Alert(rule.id, SubjectOf(rule, e), ForEvent(rule.id, e.id), OriginOf(e), Open, now, None, None, now, None)
  }

  ghost predicate Raised(t: Tables, t': Tables, rule: Rule, e: SourceEvent, now: int) {
    exists j :: |t.alerts| <= j < |t'.alerts| && SameExcept(t, t', rule.id, {j}, {})
                && t'.alerts[j] == AlertOf(rule, e, now)
  }

  lemma MetOnce(t: Tables, rule: Rule, e: SourceEvent, now: int)
    ensures var a := Trigger(rule.id, SubjectOf(rule, e), rule.cooldown, ForEvent(rule.id, e.id), OriginOf(e), None);
            if Free(t.alerts, rule, SubjectOf(rule, e), e.id, now) then Raised(t, Applied(t, a, now), rule, e, now)
            else Applied(t, a, now) == t
  {
    hide Allowed, Free, SubjectOf, OriginOf;
    FreeIsAllowed(t.alerts, rule, SubjectOf(rule, e), e, now);
    if Free(t.alerts, rule, SubjectOf(rule, e), e.id, now) {
      var t' := t.(alerts := t.alerts + [AlertOf(rule, e, now)]);
      assert SameExcept(t, t', rule.id, {|t.alerts|}, {}) && t'.alerts[|t.alerts|] == AlertOf(rule, e, now);
    }
  }

  // ---- the row that must wait ----

  ghost function RowsOf(t: Tables, ruleId: nat, subject: Subject): set<nat> {
    set i: nat | i < |t.states| && Of(t.states[i], ruleId, subject)
  }

  /** The subject's row waits from the event on; one that was waiting already, or has had its alert,
      keeps its times. */
  ghost predicate Waits(t: Tables, t': Tables, rule: Rule, e: SourceEvent) {
    var subject, due := SubjectOf(rule, e), e.occurredAt + Seconds(rule) * SECOND;
    && (forall i | i in RowsOf(t, rule.id, subject) ::
         && SameExcept(t, t', rule.id, {}, {i})
         && t'.states[i] == State(rule.id, subject, OriginOf(e),
                                  if t.states[i].kind == Cleared then e.occurredAt else t.states[i].startedAt,
                                  if t.states[i].kind == Cleared then due else t.states[i].dueAt,
                                  Pending, t.states[i].alertId))
    && (RowsOf(t, rule.id, subject) == {} ==>
         exists j :: |t.states| <= j < |t'.states| && SameExcept(t, t', rule.id, {}, {j})
                     && t'.states[j] == State(rule.id, subject, OriginOf(e), e.occurredAt, due, Pending, None))
  }

  lemma BegunOnce(t: Tables, rule: Rule, e: SourceEvent, now: int)
    requires RowsUnique(t.states)
    ensures var a := Schedule(rule.id, SubjectOf(rule, e), OriginOf(e), e.occurredAt,
                              e.occurredAt + Seconds(rule) * SECOND);
            Waits(t, Applied(t, a, now), rule, e)
  {
    hide SubjectOf, OriginOf, Seconds, RowsOf, RowsUnique;
    var a := Schedule(rule.id, SubjectOf(rule, e), OriginOf(e), e.occurredAt, e.occurredAt + Seconds(rule) * SECOND);
    var t' := Applied(t, a, now);
    var id := StateFor(t.states, rule.id, SubjectOf(rule, e));
    TheRow(t, rule.id, SubjectOf(rule, e));
    if id.None? { assert SameExcept(t, t', rule.id, {}, {|t.states|}); }
  }

  // ---- what is over ----

  ghost function LiveOf(t: Tables, ruleId: nat, subject: Subject): set<nat> {
    set i: nat | i < |t.alerts| && About(t.alerts[i], ruleId, subject) && t.alerts[i].status != Resolved
  }

  /** The subject's row is cleared and its live alert resolved. */
  ghost predicate Settled(t: Tables, t': Tables, rule: Rule, subject: Subject, now: int) {
    && SameExcept(t, t', rule.id, LiveOf(t, rule.id, subject), RowsOf(t, rule.id, subject))
    && (forall i | i in LiveOf(t, rule.id, subject) ::
         t'.alerts[i] == t.alerts[i].(status := Resolved, resolvedAt := Some(now)))
    && (forall i | i in RowsOf(t, rule.id, subject) :: t'.states[i] == t.states[i].(kind := Cleared))
  }

  lemma OverOnce(t: Tables, rule: Rule, subject: Subject, now: int)
    requires RowsUnique(t.states) && OneLive(t.alerts)
    ensures var t' := Applied(Applied(t, ClearPending(rule.id, subject), now), ResolveSubject(rule.id, subject), now);
            Settled(t, t', rule, subject, now)
  {
    hide RowsUnique, OneLive, RowsOf, LiveOf;
    var id, live := StateFor(t.states, rule.id, subject), OpenFor(t.alerts, rule.id, subject);
    TheRow(t, rule.id, subject);
    TheLive(t, rule.id, subject);
  }

  lemma TheRow(t: Tables, ruleId: nat, subject: Subject)
    requires RowsUnique(t.states)
    ensures var id := StateFor(t.states, ruleId, subject);
            RowsOf(t, ruleId, subject) == if id.Some? then {id.value} else {}
  {
  }

  lemma TheLive(t: Tables, ruleId: nat, subject: Subject)
    requires OneLive(t.alerts)
    ensures var live := OpenFor(t.alerts, ruleId, subject);
            LiveOf(t, ruleId, subject) == if live.Some? then {live.value} else {}
  {
  }

  // ---- one event, one rule ----

  /** What handling the event must do to the rule's alerts and rows. */
  ghost predicate Does(t: Tables, t': Tables, rule: Rule, e: SourceEvent, active: bool, now: int) {
    if !rule.enabled || !active || !Hears(rule, e) then SameFor(t, t', rule.id)
    else match NewsOf(rule, e)
         case Met =>
           if Free(t.alerts, rule, SubjectOf(rule, e), e.id, now) then Raised(t, t', rule, e, now)
           else SameFor(t, t', rule.id)
         case Begun => Waits(t, t', rule, e)
         case Over => Settled(t, t', rule, SubjectOf(rule, e), now)
  }

  lemma RuleDoes(t: Tables, rule: Rule, e: SourceEvent, active: (Rule, int) -> bool, now: int)
    requires RowsUnique(t.states) && OneLive(t.alerts)
    ensures Does(t, PerformAll(t, Steps(RuleActions(rule, e, active, now), now)), rule, e, active(rule, now), now)
  {
    hide Applied, SameFor, SameExcept, Free, Raised, Waits, Settled, Hears, NewsOf, Evaluate, SubjectOf, OriginOf,
         Seconds, RowsUnique, OneLive;
    var subject := SubjectOf(rule, e);
    EvaluationSays(rule, e, active(rule, now));
    if !rule.enabled || !active(rule, now) || !Hears(rule, e) {
      SameForItself(t, rule.id);
    } else {
      match NewsOf(rule, e)
      case Met =>
        SameForItself(t, rule.id);
        PerformOne(t, Apply(RuleActions(rule, e, active, now)[0], now));
        MetOnce(t, rule, e, now);
      case Begun =>
        PerformOne(t, Apply(RuleActions(rule, e, active, now)[0], now));
        BegunOnce(t, rule, e, now);
      case Over =>
        PerformTwo(t, Apply(ClearPending(rule.id, subject), now), Apply(ResolveSubject(rule.id, subject), now));
        OverOnce(t, rule, subject, now);
    }
  }

  lemma {:induction false} KeysKeepNaming(t: Tables, actions: seq<Action>, now: int)
    requires KeysNameRules(t.alerts) && forall a | a in actions :: LegalAction(a)
    ensures KeysNameRules(PerformAll(t, Steps(actions, now)).alerts)
  {
    if actions != [] {
      var n := |actions| - 1;
      KeysKeepNaming(t, actions[..n], now);
      assert Steps(actions, now)[..n] == Steps(actions[..n], now);
      var t1 := PerformAll(t, Steps(actions[..n], now));
      assert LegalAction(actions[n]);
      StepEvolves(t1, Apply(actions[n], now));
      StepAdds(t1, Apply(actions[n], now));
      hide Applied;
      assert forall i | 0 <= i < |t1.alerts| :: t1.alerts[i].key.ruleId == t1.alerts[i].ruleId;
    }
  }

  lemma CarriedRaise(a: Tables, b: Tables, c: Tables, d: Tables, rule: Rule, e: SourceEvent, now: int)
    requires SameFor(a, b, rule.id) && Raised(b, c, rule, e, now) && SameFor(c, d, rule.id)
    ensures Raised(a, d, rule, e, now)
  {
    var j :| |b.alerts| <= j < |c.alerts| && SameExcept(b, c, rule.id, {j}, {})
          && c.alerts[j] == AlertOf(rule, e, now);
    Sandwich(a, b, c, d, rule.id, {j}, {});
    assert |a.alerts| <= j < |d.alerts| && d.alerts[j] == AlertOf(rule, e, now) by { hide SameExcept; }
  }

  lemma CarriedWait(a: Tables, b: Tables, c: Tables, d: Tables, rule: Rule, e: SourceEvent)
    requires SameFor(a, b, rule.id) && Waits(b, c, rule, e) && SameFor(c, d, rule.id)
    ensures Waits(a, d, rule, e)
  {
    hide SubjectOf, OriginOf, Seconds, SameExcept, SameFor, RowsOf;
    var subject := SubjectOf(rule, e);
    SameSets(a, b, rule.id, subject);
    forall i | i in RowsOf(a, rule.id, subject)
      ensures SameExcept(a, d, rule.id, {}, {i}) && i < |a.states| <= |b.states| && i < |c.states| <= |d.states|
      ensures d.states[i] == c.states[i] && a.states[i] == b.states[i]
    {
      SameRow(a, b, rule.id, subject, i);
      Sandwich(a, b, c, d, rule.id, {}, {i});
    }
    if RowsOf(a, rule.id, subject) == {} {
      var j :| |b.states| <= j < |c.states| && SameExcept(b, c, rule.id, {}, {j})
            && c.states[j] == State(rule.id, subject, OriginOf(e), e.occurredAt,
                                    e.occurredAt + Seconds(rule) * SECOND, Pending, None);
      Sandwich(a, b, c, d, rule.id, {}, {j});
      FewerRows(a, b, rule.id);
    }
  }

  lemma SameRow(a: Tables, b: Tables, ruleId: nat, subject: Subject, i: nat)
    requires SameFor(a, b, ruleId) && i in RowsOf(a, ruleId, subject)
    ensures i < |a.states| <= |b.states| && a.states[i] == b.states[i]
  {
  }

  lemma FewerRows(a: Tables, b: Tables, ruleId: nat)
    requires SameFor(a, b, ruleId)
    ensures |a.states| <= |b.states|
  {
  }

  lemma SameSets(a: Tables, b: Tables, ruleId: nat, subject: Subject)
    requires SameFor(a, b, ruleId)
    ensures RowsOf(a, ruleId, subject) == RowsOf(b, ruleId, subject)
    ensures LiveOf(a, ruleId, subject) == LiveOf(b, ruleId, subject)
  {
  }

  lemma CarriedEnd(a: Tables, b: Tables, c: Tables, d: Tables, rule: Rule, subject: Subject, now: int)
    requires SameFor(a, b, rule.id) && Settled(b, c, rule, subject, now) && SameFor(c, d, rule.id)
    ensures Settled(a, d, rule, subject, now)
  {
    SameSets(a, b, rule.id, subject);
    Sandwich(a, b, c, d, rule.id, LiveOf(a, rule.id, subject), RowsOf(a, rule.id, subject));
    hide SameExcept;
  }

  lemma Carried(a: Tables, b: Tables, c: Tables, d: Tables, rule: Rule, e: SourceEvent, active: bool, now: int)
    requires SameFor(a, b, rule.id) && Does(b, c, rule, e, active, now) && SameFor(c, d, rule.id)
    requires KeysNameRules(a.alerts) && KeysNameRules(b.alerts)
    ensures Does(a, d, rule, e, active, now)
  {
    hide SameFor, SameExcept, Free, Raised, Waits, Settled, Hears, NewsOf, SubjectOf;
    SameIsFree(a, b, rule, SubjectOf(rule, e), e.id, now);
    if rule.enabled && active && Hears(rule, e) && NewsOf(rule, e).Begun? {
      CarriedWait(a, b, c, d, rule, e);
    } else if rule.enabled && active && Hears(rule, e) && NewsOf(rule, e).Over? {
      CarriedEnd(a, b, c, d, rule, SubjectOf(rule, e), now);
    } else if SameFor(b, c, rule.id) {
      SameForTrans(a, b, c, rule.id);
      SameForTrans(a, c, d, rule.id);
    }
    if Raised(b, c, rule, e, now) { CarriedRaise(a, b, c, d, rule, e, now); }
  }

  /** Handling a source event does to each rule what the rule's settings and the event's values call for,
      whatever the other rules do. */
  lemma EventDoes(t: Tables, rules: seq<Rule>, e: SourceEvent, active: (Rule, int) -> bool, now: int, r: nat)
    requires Safe(t) && AlertReplay.DistinctRules(rules) && IsSourceType(e.eventType) && r < |rules|
    ensures Does(t, PerformAll(t, EventPlan(rules, e, active, now)), rules[r], e, active(rules[r], now), now)
  {
    assert KeysNameRules(t.alerts);
    var before := Actions(rules[..r], e, active, now);
    hide Does, SameFor, Actions, PerformAll, RuleActions, IsSourceType, EventPlan, DueAlertsHold, Linked, AllKept,
         KeysNameRules, OneLive, RowsUnique, KeysUnique;
    var t1 := PlanForRule(t, rules, e, active, now, r);
    ActionsAreLegal(rules[..r], e, active, now);
    KeysKeepNaming(t, before, now);
    AlertReplay.RunKeepsAlerts(t, Steps(before, now));
    RunKeepsRows(t, Steps(before, now));
    RuleDoes(t1, rules[r], e, active, now);
    Carried(t, t1, PerformAll(t1, Steps(RuleActions(rules[r], e, active, now), now)),
            PerformAll(t, EventPlan(rules, e, active, now)), rules[r], e, active(rules[r], now), now);
  }

  // ---- every alert has a reason ----

  /** Rule `r` of the call heard its event and found its condition met on the spot. */
  predicate Meets(op: Op, r: nat, active: (Rule, int) -> bool) {
    && op.ByEvent? && IsSourceType(op.event.eventType) && r < |op.rules| && op.rules[r].enabled
    && active(op.rules[r], op.now) && Hears(op.rules[r], op.event) && NewsOf(op.rules[r], op.event) == Met
  }

  lemma DuePlanAppliesNoTrigger(states: seq<State>, ids: seq<nat>, rules: seq<Rule>, open: Sessions, now: int)
    requires forall k | 0 <= k < |ids| :: ids[k] < |states|
    ensures forall step | step in DuePlan(states, ids, rules, open, now) :: step.Apply? ==> !step.action.Trigger?
  {
    if ids != [] { DuePlanAppliesNoTrigger(states, ids[..|ids|-1], rules, open, now); }
  }

  /** A trigger that was applied comes from a rule that found its condition met. */
  lemma TriggerHasReason(t: Tables, op: Op, active: (Rule, int) -> bool, step: Step) returns (r: nat)
    requires Possible(t, op) && step in Plan(t, op, active) && step.Apply? && step.action.Trigger?
    ensures Meets(op, r, active) && step.now == op.now
    ensures var rule, e := op.rules[r], op.event;
            step.action
              == Trigger(rule.id, SubjectOf(rule, e), rule.cooldown, ForEvent(rule.id, e.id), OriginOf(e), None)
  {
    r := 0;
    match op
    case ByEvent(rules, event, now) =>
      assert step.action in Actions(rules, event, active, now);
      r := AlertDue.ActionHasRule(rules, event, active, now, step.action);
      EvaluationSays(rules[r], event, active(rules[r], now));
    case ByDuePass(rules, open, now, _, ids) =>
      DuePlanAppliesNoTrigger(t.states, ids, rules, open, now);
      assert false;
    case ByOperator(_) =>
      assert false;
  }

  ghost predicate IsEventAlert(log: seq<Step>, j: nat) {
    j < |After(log).alerts| && After(log).alerts[j].key.ForEvent?
  }

  lemma EventAlertIsApplied(log: seq<Step>, j: nat) returns (n: nat)
    requires Legal(log) && IsEventAlert(log, j)
    ensures n < |log| && log[n].Apply? && log[n].action.Trigger?
    ensures var a, alert := log[n].action, After(log).alerts[j];
            && alert.ruleId == a.ruleId && alert.subject == a.subject && alert.key == a.key
            && alert.origin == a.origin && alert.promised == a.promised && alert.triggeredAt == log[n].now
  {
    n := AddedSomewhere(log, j);
    LegalPrefix(log, n);
    LaterEvolves(log, n + 1);
    AfterSnoc(log, n);
    StepAdds(After(log[..n]), log[n]);
    hide After, Performed, Legal, Allowed;
  }

  /** Every alert that came with an event came from a call whose event its rule heard, with the rule
      enabled and active and its condition met on the spot; it is about that event, and of that time. */
  lemma AlertsHaveReasons(ops: seq<Op>, active: (Rule, int) -> bool, j: nat) returns (i: nat, r: nat)
    requires AllPossible(ops, active) && IsEventAlert(Log(ops, active), j)
    ensures i < |ops| && Meets(ops[i], r, active)
    ensures var rule, e, alert := ops[i].rules[r], ops[i].event, After(Log(ops, active)).alerts[j];
            && alert.ruleId == rule.id && alert.subject == SubjectOf(rule, e) && alert.key == ForEvent(rule.id, e.id)
            && alert.origin == OriginOf(e) && alert.promised.None? && alert.triggeredAt == ops[i].now
  {
    hide *;
    var log := Log(ops, active);
    LogIsLegal(ops, active);
    var n := EventAlertIsApplied(log, j);
    i := AlertDue.StepHasOp(ops, active, n);
    PossibleAt(ops, active, i);
    r := TriggerHasReason(After(Log(ops[..i], active)), ops[i], active, log[n]);
  }

  lemma PossibleAt(ops: seq<Op>, active: (Rule, int) -> bool, i: nat)
    requires AllPossible(ops, active) && i < |ops|
    ensures Possible(After(Log(ops[..i], active)), ops[i])
  {
  }

  /** And conversely, on every run: one more source event does to each rule what it must. */
  lemma NextEventDoes(ops: seq<Op>, active: (Rule, int) -> bool, rules: seq<Rule>, e: SourceEvent, now: int, r: nat)
    requires AllPossible(ops, active) && AlertReplay.DistinctRules(rules) && IsSourceType(e.eventType) && r < |rules|
    ensures var t, t' := After(Log(ops, active)), After(Log(ops + [ByEvent(rules, e, now)], active));
            Does(t, t', rules[r], e, active(rules[r], now), now)
  {
    hide *;
    var log, plan := Log(ops, active), EventPlan(rules, e, active, now);
    ServiceIsSafe(ops, active);
    EventDoes(After(log), rules, e, active, now, r);
    AfterEvent(ops, active, rules, e, now);
  }

  lemma AfterEvent(ops: seq<Op>, active: (Rule, int) -> bool, rules: seq<Rule>, e: SourceEvent, now: int)
    ensures After(Log(ops + [ByEvent(rules, e, now)], active))
         == PerformAll(After(Log(ops, active)), EventPlan(rules, e, active, now))
  {
    var all := ops + [ByEvent(rules, e, now)];
    assert all[..|all|-1] == ops;
    hide EventPlan;
    PerformConcat(Tables([], []), Log(ops, active), EventPlan(rules, e, active, now));
  }

  // ---- the operator ----

  /** An operator's step acknowledges an open alert or resolves one that is not resolved yet, then, and
      changes nothing else. */
  lemma OperatorDoes(t: Tables, id: nat, now: int)
    requires id < |t.alerts|
    ensures Performed(t, Acknowledge(id, now)) ==
              if t.alerts[id].status != Open then t
              else t.(alerts := t.alerts[id :=
                     t.alerts[id].(status := Acknowledged, acknowledgedAt := Some(now))])
    ensures Performed(t, Resolve(id, now)) ==
              if t.alerts[id].status == Resolved then t
              else t.(alerts := t.alerts[id := t.alerts[id].(status := Resolved, resolvedAt := Some(now))])
  {
  }

  // ---- what a due row waits for ----

  /** The entities with an open session in the zone. */
  ghost function EntitiesIn(open: set<(nat, nat)>, zone: nat): set<nat> {
    set p | p in open && p.0 == zone :: p.1
  }

  lemma EntitiesCount(open: set<(nat, nat)>, zone: nat)
    ensures |Inside(open, zone)| == |EntitiesIn(open, zone)|
  {
    var inside := Inside(open, zone);
    assert EntitiesIn(open, zone) == EntitiesOf(inside);
    EntitiesOfOneZone(inside, zone);
  }

  ghost function EntitiesOf(sessions: set<(nat, nat)>): set<nat> {
    set p | p in sessions :: p.1
  }

  lemma {:induction false} EntitiesOfOneZone(sessions: set<(nat, nat)>, zone: nat)
    requires forall p | p in sessions :: p.0 == zone
    ensures |EntitiesOf(sessions)| == |sessions|
  {
    if sessions == {} {
      assert EntitiesOf(sessions) == {};
    } else {
      var p :| p in sessions;
      var rest := sessions - {p};
      EntitiesOfOneZone(rest, zone);
      assert p.1 !in EntitiesOf(rest);
      assert EntitiesOf(sessions) == EntitiesOf(rest) + {p.1};
    }
  }

  /** A due row's condition stands if and only if its rule is still there and enabled and, for a dwell,
      its own session is still open, for an occupancy, at least the threshold of entities is inside. */
  lemma StandsMeans(s: State, rules: seq<Rule>, open: Sessions, r: nat)
    requires AlertReplay.DistinctRules(rules) && r < |rules| && rules[r].id == s.ruleId
    ensures Stands(s, rules, open) <==>
      && rules[r].enabled
      && (rules[r].ruleType == DwellThreshold ==>
           open.None? || s.origin.zone.None? || (s.origin.zone.value, s.origin.entity) in open.value)
      && (rules[r].ruleType == OccupancyThreshold ==>
           open.Some? && s.origin.zone.Some? && |EntitiesIn(open.value, s.origin.zone.value)| >= Limit(rules[r]))
  {
    RuleIsFound(rules, r);
    if open.Some? && s.origin.zone.Some? { EntitiesCount(open.value, s.origin.zone.value); }
  }

  lemma {:induction false} RuleIsFound(rules: seq<Rule>, r: nat)
    requires AlertReplay.DistinctRules(rules) && r < |rules|
    ensures RuleById(rules, rules[r].id) == Some(rules[r])
  {
    if r > 0 { RuleIsFound(rules[1..], r - 1); }
  }

  lemma {:induction false} NoRuleIsFound(rules: seq<Rule>, s: State, open: Sessions)
    requires forall r | r in rules :: r.id != s.ruleId
    ensures !Stands(s, rules, open)
  {
    if rules != [] { NoRuleIsFound(rules[1..], s, open); }
  }
}
