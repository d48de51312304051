/** Applying evaluation actions (src/services/alerts/evaluation_service.py). Which rules are
    enabled, which are active and which zone sessions are open is given at each call. */
module AlertEvaluation {
  import opened Options
  import opened Sql
  import opened AlertRules
  import opened AlertTables

  datatype Tables = Tables(alerts: seq<Alert>, states: seq<State>)

  /** The service's steps: an action, a due state's trigger, and the operator's two. */
  datatype Step =
    | Apply(action: Action, now: int)
    | Fire(action: Action, now: int, stateId: nat)
    | Acknowledge(alertId: nat, now: int)
    | Resolve(alertId: nat, now: int)

  /** What a trigger must pass: cooldown, then idempotency key, then no live alert. */
  predicate Allowed(alerts: seq<Alert>, a: Action, now: int)
    requires a.Trigger?
  {
    var last := LastTrigger(alerts, a.ruleId, a.subject);
    && (last.None? || now - last.value >= a.cooldown * SECOND)
    && ByKey(alerts, a.key).None?
    && OpenFor(alerts, a.ruleId, a.subject).None?
  }

  /** _apply_action. */
  function Applied(t: Tables, a: Action, now: int): Tables {
    match a
    case Schedule(_, _, _, _, _) => t.(states := Upserted(t.states, a))
    case ClearPending(ruleId, subject) => t.(states := ClearedStates(t.states, ruleId, subject))
    case ResolveSubject(ruleId, subject) =>
      var id := OpenFor(t.alerts, ruleId, subject);
      if id.None? then t else t.(alerts := t.alerts[id.value := ResolvedAlert(t.alerts[id.value], now)])
    case Trigger(_, _, _, _, _, _) =>
      if Allowed(t.alerts, a, now) then t.(alerts := t.alerts + [NewAlert(a, now)]) else t
  }

  function Marked(states: seq<State>, stateId: nat, alertId: nat): seq<State> {
    if stateId < |states| then
      states[stateId := states[stateId].(kind := Triggered, alertId := Some(alertId))]
    else states
  }

  function Performed(t: Tables, step: Step): Tables {
    match step
    case Apply(a, now) => Applied(t, a, now)
    case Fire(a, now, stateId) =>
      if a.Trigger? && Allowed(t.alerts, a, now) then
        Tables(t.alerts + [NewAlert(a, now)], Marked(t.states, stateId, |t.alerts|))
      else t
    case Acknowledge(id, now) =>
      if id < |t.alerts| then t.(alerts := t.alerts[id := AcknowledgedAlert(t.alerts[id], now)]) else t
    case Resolve(id, now) =>
      if id < |t.alerts| then t.(alerts := t.alerts[id := ResolvedAlert(t.alerts[id], now)]) else t
  }

  function PerformAll(t: Tables, steps: seq<Step>): Tables {
    if steps == [] then t
    else Performed(PerformAll(t, steps[..|steps|-1]), steps[|steps|-1])
  }

  lemma {:induction false} PerformConcat(t: Tables, a: seq<Step>, b: seq<Step>)
    ensures PerformAll(t, a + b) == PerformAll(PerformAll(t, a), b)
    decreases |b|
  {
    if b == [] {
      assert a + b == a;
    } else {
      PerformConcat(t, a, b[..|b|-1]);
      assert (a + b)[..|a + b|-1] == a + b[..|b|-1];
    }
  }

  // ---- what one call does ----

  predicate IsSourceType(eventType: string) {
    eventType in {
      "entity_created", "entity_closed", "observation_recorded",
      "zone_entered", "zone_exited", "zone_occupancy_changed" }
  }

  function Steps(actions: seq<Action>, now: int): (r: seq<Step>)
    ensures |r| == |actions| && forall i | 0 <= i < |r| :: r[i] == Apply(actions[i], now)
  {
    seq(|actions|, i requires 0 <= i < |actions| => Apply(actions[i], now))
  }

  function RuleActions(rule: Rule, e: SourceEvent, active: (Rule, int) -> bool, now: int): seq<Action> {
    if rule.enabled then Evaluate(rule, e, active(rule, now)) else []
  }

  /** The enabled rules' actions, in rule order. */
  function Actions(rules: seq<Rule>, e: SourceEvent, active: (Rule, int) -> bool, now: int): seq<Action> {
    if rules == [] then []
    else Actions(rules[..|rules|-1], e, active, now) + RuleActions(rules[|rules|-1], e, active, now)
  }

  function EventPlan(rules: seq<Rule>, e: SourceEvent, active: (Rule, int) -> bool, now: int): seq<Step> {
    if IsSourceType(e.eventType) then Steps(Actions(rules, e, active, now), now) else []
  }

  function RuleById(rules: seq<Rule>, id: nat): (r: Option<Rule>)
    ensures r.Some? ==> r.value.id == id
  {
    if rules == [] then None
    else if rules[0].id == id then Some(rules[0])
    else RuleById(rules[1..], id)
  }

  /** The open zone sessions, as (zone, entity); None when the service has no session table. */
  type Sessions = Option<set<(nat, nat)>>

  predicate SessionStillOpen(open: Sessions, entity: nat, zone: Option<nat>) {
    open.None? || zone.None? || (zone.value, entity) in open.value
  }

  function Inside(open: set<(nat, nat)>, zone: nat): set<(nat, nat)> {
    set p | p in open && p.0 == zone
  }

  predicate ZoneOccupancyMeets(open: Sessions, zone: Option<nat>, threshold: nat) {
    open.Some? && zone.Some? && |Inside(open.value, zone.value)| >= threshold
  }

  function DueTrigger(s: State, stateId: nat, rule: Rule): Action {
    Trigger(rule.id, s.subject, rule.cooldown, ForDue(rule.id, stateId), s.origin, Some(s.dueAt))
  }

  /** One due state: cleared when its rule or its condition is gone, otherwise fired. */
  function DueSteps(s: State, stateId: nat, rules: seq<Rule>, open: Sessions, now: int): seq<Step> {
    var rule := RuleById(rules, s.ruleId);
    if rule.None? || !rule.value.enabled then [Apply(ClearPending(s.ruleId, s.subject), now)]
    else if rule.value.ruleType == DwellThreshold && !SessionStillOpen(open, s.origin.entity, s.origin.zone) then
      [Apply(ClearPending(s.ruleId, s.subject), now), Apply(ResolveSubject(s.ruleId, s.subject), now)]
    else if rule.value.ruleType == OccupancyThreshold
         && !ZoneOccupancyMeets(open, s.origin.zone, OrZero(rule.value.occupancy)) then
      [Apply(ClearPending(s.ruleId, s.subject), now)]
    else [Fire(DueTrigger(s, stateId, rule.value), now, stateId)]
  }

  function DuePlan(states: seq<State>, ids: seq<nat>, rules: seq<Rule>, open: Sessions, now: int): seq<Step>
    requires forall k | 0 <= k < |ids| :: ids[k] < |states|
  {
    if ids == [] then []
    else
      var n := |ids| - 1;
      DuePlan(states, ids[..n], rules, open, now) + DueSteps(states[ids[n]], ids[n], rules, open, now)
  }

  // ---- the service ----

  function Range(lo: nat, hi: nat): (r: seq<nat>)
    requires lo <= hi
  {
    seq(hi - lo, i requires 0 <= i => lo + i)
  }

  class AlertEvaluationService {
    const alertRepository: AlertRepository
    const stateRepository: AlertEvaluatorStateRepository

    constructor (alertRepository: AlertRepository, stateRepository: AlertEvaluatorStateRepository)
      ensures this.alertRepository == alertRepository && this.stateRepository == stateRepository
    {
      this.alertRepository, this.stateRepository := alertRepository, stateRepository;
    }

    ghost function Now(): Tables
      reads alertRepository, stateRepository
    {
      Tables(alertRepository.alerts, stateRepository.states)
    }

    /** The new alert, if there is one. */
    method ApplyAction(a: Action, now: int) returns (alert: Option<nat>)
      modifies alertRepository, stateRepository
      ensures Now() == Applied(old(Now()), a, now)
      ensures alert == if a.Trigger? && Allowed(old(Now()).alerts, a, now) then Some(|old(Now()).alerts|) else None
    {
      match a
      case Schedule(_, _, _, _, _) =>
        stateRepository.UpsertPending(a);
        return None;
      case ClearPending(ruleId, subject) =>
        stateRepository.Clear(ruleId, subject);
        return None;
      case ResolveSubject(ruleId, subject) =>
        var openAlert := OpenFor(alertRepository.alerts, ruleId, subject);
        if openAlert.Some? { var _ := alertRepository.Resolve(openAlert.value, now); }
        return None;
      case Trigger(_, _, _, _, _, _) =>
        var last := LastTrigger(alertRepository.alerts, a.ruleId, a.subject);
        if last.Some? {
          var elapsed := now - last.value;
          if elapsed < a.cooldown * SECOND { return None; }
        }
        var existing := ByKey(alertRepository.alerts, a.key);
        if existing.Some? { return None; }
        var openAlert := OpenFor(alertRepository.alerts, a.ruleId, a.subject);
        if openAlert.Some? { return None; }
        var id := alertRepository.Create(a, now);
        return Some(id);
    }

    /** The alerts the event triggered. */
    method ProcessSourceEvent(rules: seq<Rule>, e: SourceEvent, active: (Rule, int) -> bool, now: int)
      returns (triggered: seq<nat>)
      modifies alertRepository, stateRepository
      ensures Now() == PerformAll(old(Now()), EventPlan(rules, e, active, now))
      ensures |old(Now()).alerts| <= |Now().alerts|
      ensures triggered == Range(|old(Now()).alerts|, |Now().alerts|)
    {
      if IsSourceType(e.eventType) { AlertsAreNotSources(e.eventType); }
      PerformStart(Now(), []);
      if e.eventType in {"alert_triggered", "alert_resolved"} { return []; }
      if !IsSourceType(e.eventType) { return []; }
      hide *;
      var actions := EvaluateRules(rules, e, active, now);
      triggered := ApplyAll(actions, now);
    }

    /** The enabled rules, each by its evaluator. */
    method EvaluateRules(rules: seq<Rule>, e: SourceEvent, active: (Rule, int) -> bool, now: int)
      returns (actions: seq<Action>)
      ensures actions == Actions(rules, e, active, now)
    {
      hide *;
      actions := [];
      ActionsEmpty(rules, e, active, now);
      for r := 0 to |rules|
        invariant actions == Actions(rules[..r], e, active, now)
      {
        ActionsSnoc(rules, r, e, active, now);
        if !rules[r].enabled { continue; }
        actions := actions + Evaluate(rules[r], e, active(rules[r], now));
      }
      assert rules[..|rules|] == rules;
    }

    /** The actions of one event, in one transaction. */
    method ApplyAll(actions: seq<Action>, now: int) returns (triggered: seq<nat>)
      modifies alertRepository, stateRepository
      ensures Now() == PerformAll(old(Now()), Steps(actions, now))
      ensures |old(Now()).alerts| <= |Now().alerts|
      ensures triggered == Range(|old(Now()).alerts|, |Now().alerts|)
    {
      hide *;
      triggered := [];
      ghost var before := Now();
      ghost var steps := Steps(actions, now);
      PerformStart(before, steps);
      for i := 0 to |actions|
        invariant Now() == PerformAll(before, steps[..i])
        invariant |before.alerts| <= |Now().alerts| && triggered == Range(|before.alerts|, |Now().alerts|)
      {
        AppliedCount(Now(), actions[i], now);
        PerformSnoc(before, steps, i);
        RangeSnoc(|before.alerts|, |Now().alerts|);
        var alert := ApplyAction(actions[i], now);
        if alert.Some? { triggered := triggered + [alert.value]; }
      }
      assert steps[..|actions|] == steps;
    }

    /** `ids` are the due states, in the order they are handled. */
    method ProcessDueStates(rules: seq<Rule>, open: Sessions, now: int, batchSize: nat)
      returns (triggered: seq<nat>, ids: seq<nat>)
      modifies alertRepository, stateRepository
      ensures IsSelection(ids, DueIds(old(Now()).states, now), DueTime(old(Now()).states), batchSize)
      ensures forall k | 0 <= k < |ids| :: ids[k] < |old(Now()).states| && IsDue(old(Now()).states, ids[k], now)
      ensures Now() == PerformAll(old(Now()), DuePlan(old(Now()).states, ids, rules, open, now))
      ensures |old(Now()).alerts| <= |Now().alerts|
      ensures triggered == Range(|old(Now()).alerts|, |Now().alerts|)
    {
      hide IsSelection, DueIds, PerformAll, DuePlan, DueSteps, Range;
      ids := stateRepository.ListDue(now, batchSize);
      var due := stateRepository.states;
      ghost var before := Now();
      triggered := [];
      DuePlanEmpty(before, due, ids, rules, open, now);
      for k := 0 to |ids|
        invariant |Now().states| == |due|
        invariant Now() == PerformAll(before, DuePlan(due, ids[..k], rules, open, now))
        invariant |before.alerts| <= |Now().alerts| && triggered == Range(|before.alerts|, |Now().alerts|)
      {
        DuePlanSnoc(before, due, ids, k, rules, open, now);
        RangeSnoc(|before.alerts|, |Now().alerts|);
        var alert := ProcessDueState(due[ids[k]], ids[k], rules, open, now);
        if alert.Some? { triggered := triggered + [alert.value]; }
      }
      assert ids[..|ids|] == ids;
    }

    /** The body of the loop over due states. */
    method ProcessDueState(s: State, stateId: nat, rules: seq<Rule>, open: Sessions, now: int)
      returns (alert: Option<nat>)
      requires stateId < |Now().states|
      modifies alertRepository, stateRepository
      ensures Now() == PerformAll(old(Now()), DueSteps(s, stateId, rules, open, now))
      ensures |Now().states| == |old(Now()).states|
      ensures |Now().alerts| == |old(Now()).alerts| + if alert.Some? then 1 else 0
      ensures alert.Some? ==> alert.value == |old(Now()).alerts|
    {
      hide Allowed, Upserted, NewAlert;
      ghost var before := Now();
      var rule := RuleById(rules, s.ruleId);
      if rule.None? || !rule.value.enabled {
        stateRepository.Clear(s.ruleId, s.subject);
        PerformOne(before, Apply(ClearPending(s.ruleId, s.subject), now));
        return None;
      }
      if rule.value.ruleType == DwellThreshold {
        if !SessionStillOpen(open, s.origin.entity, s.origin.zone) {
          PerformTwo(before, Apply(ClearPending(s.ruleId, s.subject), now),
                     Apply(ResolveSubject(s.ruleId, s.subject), now));
          stateRepository.Clear(s.ruleId, s.subject);
          var openAlert := OpenFor(alertRepository.alerts, s.ruleId, s.subject);
          if openAlert.Some? { var _ := alertRepository.Resolve(openAlert.value, now); }
          return None;
        }
      }
      if rule.value.ruleType == OccupancyThreshold {
        if !ZoneOccupancyMeets(open, s.origin.zone, OrZero(rule.value.occupancy)) {
          stateRepository.Clear(s.ruleId, s.subject);
          PerformOne(before, Apply(ClearPending(s.ruleId, s.subject), now));
          return None;
        }
      }
      var action := DueTrigger(s, stateId, rule.value);
      PerformOne(before, Fire(action, now, stateId));
      alert := ApplyAction(action, now);
      if alert.Some? { var _ := stateRepository.MarkTriggered(stateId, alert.value); }
    }
  }

  lemma PerformOne(t: Tables, step: Step)
    ensures PerformAll(t, [step]) == Performed(t, step)
  {
  }

  lemma PerformTwo(t: Tables, a: Step, b: Step)
    ensures PerformAll(t, [a, b]) == Performed(Performed(t, a), b)
  {
    assert [a, b] == [a] + [b];
    PerformConcat(t, [a], [b]);
    PerformOne(t, a);
    PerformOne(Performed(t, a), b);
  }

  lemma AlertsAreNotSources(eventType: string)
    requires IsSourceType(eventType)
    ensures eventType !in {"alert_triggered", "alert_resolved"}
  {
  }

  lemma PerformStart(t: Tables, steps: seq<Step>)
    ensures PerformAll(t, steps[..0]) == t && Range(|t.alerts|, |t.alerts|) == []
  {
  }

  lemma PerformSnoc(t: Tables, steps: seq<Step>, i: nat)
    requires i < |steps|
    ensures PerformAll(t, steps[..i+1]) == Performed(PerformAll(t, steps[..i]), steps[i])
    ensures steps[i].Apply? ==>
      PerformAll(t, steps[..i+1]) == Applied(PerformAll(t, steps[..i]), steps[i].action, steps[i].now)
  {
    assert steps[..i+1][..i] == steps[..i];
  }

  lemma RangeSnoc(lo: nat, hi: nat)
    requires lo <= hi
    ensures Range(lo, hi + 1) == Range(lo, hi) + [hi]
  {
  }

  lemma ActionsEmpty(rules: seq<Rule>, e: SourceEvent, active: (Rule, int) -> bool, now: int)
    ensures Actions(rules[..0], e, active, now) == []
  {
  }

  lemma ActionsSnoc(rules: seq<Rule>, r: nat, e: SourceEvent, active: (Rule, int) -> bool, now: int)
    requires r < |rules|
    ensures Actions(rules[..r+1], e, active, now)
         == Actions(rules[..r], e, active, now)
            + if rules[r].enabled then Evaluate(rules[r], e, active(rules[r], now)) else []
    ensures Actions(rules[..r], e, active, now) + [] == Actions(rules[..r], e, active, now)
  {
    assert rules[..r+1][..r] == rules[..r];
  }

  lemma DuePlanEmpty(t: Tables, due: seq<State>, ids: seq<nat>, rules: seq<Rule>, open: Sessions, now: int)
    ensures PerformAll(t, DuePlan(due, ids[..0], rules, open, now)) == t && Range(|t.alerts|, |t.alerts|) == []
  {
  }

  lemma DuePlanSnoc(t: Tables, due: seq<State>, ids: seq<nat>, k: nat, rules: seq<Rule>, open: Sessions, now: int)
    requires k < |ids| && forall i | 0 <= i < |ids| :: ids[i] < |due|
    ensures PerformAll(t, DuePlan(due, ids[..k+1], rules, open, now))
         == PerformAll(PerformAll(t, DuePlan(due, ids[..k], rules, open, now)),
                       DueSteps(due[ids[k]], ids[k], rules, open, now))
  {
    assert ids[..k+1][..k] == ids[..k];
    PerformConcat(t, DuePlan(due, ids[..k], rules, open, now), DueSteps(due[ids[k]], ids[k], rules, open, now));
  }

  lemma AppliedCount(t: Tables, a: Action, now: int)
    ensures |Applied(t, a, now).alerts| == |t.alerts| + if a.Trigger? && Allowed(t.alerts, a, now) then 1 else 0
  {
  }
}
