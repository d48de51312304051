/** The alert and evaluator-state tables (src/storage/alert_repositories.py). Row ids are
    positions. */
module AlertTables {
  import opened Options
  import opened Sql
  import opened AlertRules

  datatype Status = Open | Acknowledged | Resolved

  /** `promised` is the due time a due alert carries in its payload. */
  datatype Alert = Alert(
    ruleId: nat, subject: Subject, key: IdemKey, origin: Origin, status: Status, triggeredAt: int,
    acknowledgedAt: Option<int>, resolvedAt: Option<int>, lastMatchedAt: int, promised: Option<int>)

  datatype Kind = Pending | Cleared | Triggered

  datatype State = State(
    ruleId: nat, subject: Subject, origin: Origin, startedAt: int, dueAt: int, kind: Kind, alertId: Option<nat>)

  // ---- alerts ----

  predicate About(a: Alert, ruleId: nat, subject: Subject) {
    a.ruleId == ruleId && a.subject == subject
  }

  predicate IsLive(a: Alert) {
    a.status != Resolved
  }

  /** get_open_for_subject. */
  function OpenFor(alerts: seq<Alert>, ruleId: nat, subject: Subject): (id: Option<nat>)
    ensures id.Some? ==>
      && id.value < |alerts| && About(alerts[id.value], ruleId, subject) && IsLive(alerts[id.value])
    ensures id.None? ==> forall i | 0 <= i < |alerts| :: About(alerts[i], ruleId, subject) ==> !IsLive(alerts[i])
  {
    if alerts == [] then None
    else
      var n := |alerts| - 1;
      var before := OpenFor(alerts[..n], ruleId, subject);
      if before.Some? then before
      else if About(alerts[n], ruleId, subject) && IsLive(alerts[n]) then Some(n)
      else None
  }

  /** get_by_idempotency. */
  function ByKey(alerts: seq<Alert>, key: IdemKey): (id: Option<nat>)
    ensures id.Some? ==> id.value < |alerts| && alerts[id.value].key == key
    ensures id.None? ==> forall i | 0 <= i < |alerts| :: alerts[i].key != key
  {
    if alerts == [] then None
    else
      var n := |alerts| - 1;
      var before := ByKey(alerts[..n], key);
      if before.Some? then before else if alerts[n].key == key then Some(n) else None
  }

  /** last_trigger_for_subject: the latest time of any of the subject's alerts. */
  function LastTrigger(alerts: seq<Alert>, ruleId: nat, subject: Subject): (at: Option<int>)
    ensures at.None? ==> forall i | 0 <= i < |alerts| :: !About(alerts[i], ruleId, subject)
    ensures at.Some? ==>
      && (forall i | 0 <= i < |alerts| :: About(alerts[i], ruleId, subject) ==> alerts[i].triggeredAt <= at.value)
      && (exists i | 0 <= i < |alerts| :: About(alerts[i], ruleId, subject) && alerts[i].triggeredAt == at.value)
  {
    if alerts == [] then None
    else
      var n := |alerts| - 1;
      var before := LastTrigger(alerts[..n], ruleId, subject);
      WitnessGrows(alerts, n, ruleId, subject, before);
      if !About(alerts[n], ruleId, subject) || (before.Some? && before.value > alerts[n].triggeredAt) then before
      else Some(alerts[n].triggeredAt)
  }

  lemma WitnessGrows(alerts: seq<Alert>, n: nat, ruleId: nat, subject: Subject, at: Option<int>)
    requires n <= |alerts|
    ensures at.Some?
      && (exists i | 0 <= i < n :: About(alerts[..n][i], ruleId, subject) && alerts[..n][i].triggeredAt == at.value)
      ==> exists i | 0 <= i < |alerts| :: About(alerts[i], ruleId, subject) && alerts[i].triggeredAt == at.value
  {
  }

  function NewAlert(a: Action, now: int): Alert
    requires a.Trigger?
  {
    Alert(a.ruleId, a.subject, a.key, a.origin, Open, now, None, None, now, a.promised)
  }

  function AcknowledgedAlert(a: Alert, at: int): Alert {
    if a.status == Open then a.(status := Acknowledged, acknowledgedAt := Some(at)) else a
  }

  function ResolvedAlert(a: Alert, at: int): Alert {
    if a.status == Resolved then a else a.(status := Resolved, resolvedAt := Some(at))
  }

  class AlertRepository {
    var alerts: seq<Alert>

    constructor ()
      ensures alerts == []
    {
      alerts := [];
    }

    /** The id of the new alert, or of the one that stands in its way. */
    method Create(a: Action, triggeredAt: int) returns (id: nat)
      requires a.Trigger?
      modifies this
      ensures id < |alerts|
      ensures ByKey(old(alerts), a.key).Some? ==> alerts == old(alerts) && alerts[id].key == a.key
      ensures ByKey(old(alerts), a.key).None? && OpenFor(old(alerts), a.ruleId, a.subject).Some? ==>
        && id == OpenFor(old(alerts), a.ruleId, a.subject).value
        && alerts == old(alerts)[id := old(alerts)[id].(lastMatchedAt := triggeredAt)]
      ensures ByKey(old(alerts), a.key).None? && OpenFor(old(alerts), a.ruleId, a.subject).None? ==>
        id == |old(alerts)| && alerts == old(alerts) + [NewAlert(a, triggeredAt)]
    {
      var existing := ByKey(alerts, a.key);
      if existing.Some? { return existing.value; }
      var openExisting := OpenFor(alerts, a.ruleId, a.subject);
      if openExisting.Some? {
        id := openExisting.value;
        alerts := alerts[id := alerts[id].(lastMatchedAt := triggeredAt)];
        return;
      }
      id := |alerts|;
      alerts := alerts + [NewAlert(a, triggeredAt)];
    }

    /** `false` is LookupError. */
    method Acknowledge(id: nat, at: int) returns (found: bool)
      modifies this
      ensures found == (id < |old(alerts)|)
      ensures alerts == if found then old(alerts)[id := AcknowledgedAlert(old(alerts)[id], at)] else old(alerts)
    {
      if id >= |alerts| { return false; }
      found := true;
      if alerts[id].status == Resolved { return; }
      if alerts[id].status == Acknowledged { return; }
      alerts := alerts[id := alerts[id].(status := Acknowledged, acknowledgedAt := Some(at))];
    }

    method Resolve(id: nat, at: int) returns (found: bool)
      modifies this
      ensures found == (id < |old(alerts)|)
      ensures alerts == if found then old(alerts)[id := ResolvedAlert(old(alerts)[id], at)] else old(alerts)
    {
      if id >= |alerts| { return false; }
      found := true;
      if alerts[id].status == Resolved { return; }
      alerts := alerts[id := alerts[id].(status := Resolved, resolvedAt := Some(at))];
    }
  }

  // ---- evaluator states ----

  predicate Of(s: State, ruleId: nat, subject: Subject) {
    s.ruleId == ruleId && s.subject == subject
  }

  function StateFor(states: seq<State>, ruleId: nat, subject: Subject): (id: Option<nat>)
    ensures id.Some? ==> id.value < |states| && Of(states[id.value], ruleId, subject)
    ensures id.None? ==> forall i | 0 <= i < |states| :: !Of(states[i], ruleId, subject)
  {
    if states == [] then None
    else
      var n := |states| - 1;
      var before := StateFor(states[..n], ruleId, subject);
      if before.Some? then before else if Of(states[n], ruleId, subject) then Some(n) else None
  }

  /** upsert_pending on an existing row: only a cleared row takes the new times. */
  function Rescheduled(s: State, a: Action): State
    requires a.Schedule?
  {
    var touched := s.(origin := a.origin, kind := Pending);
    if s.kind == Cleared then touched.(startedAt := a.startedAt, dueAt := a.dueAt) else touched
  }

  function Upserted(states: seq<State>, a: Action): seq<State>
    requires a.Schedule?
  {
    var id := StateFor(states, a.ruleId, a.subject);
    if id.None? then states + [State(a.ruleId, a.subject, a.origin, a.startedAt, a.dueAt, Pending, None)]
    else states[id.value := Rescheduled(states[id.value], a)]
  }

  function ClearedStates(states: seq<State>, ruleId: nat, subject: Subject): seq<State> {
    var id := StateFor(states, ruleId, subject);
    if id.None? then states else states[id.value := states[id.value].(kind := Cleared)]
  }

  predicate IsDue(states: seq<State>, id: nat, now: int) {
    id < |states| && states[id].kind == Pending && states[id].dueAt <= now
  }

  ghost function DueIds(states: seq<State>, now: int): set<nat> {
    set i: nat | i < |states| && IsDue(states, i, now)
  }

  function DueTime(states: seq<State>): nat -> int {
    (i: nat) => if i < |states| then states[i].dueAt else 0
  }

  class AlertEvaluatorStateRepository {
    var states: seq<State>

    constructor ()
      ensures states == []
    {
      states := [];
    }

    method UpsertPending(a: Action)
      requires a.Schedule?
      modifies this
      ensures states == Upserted(old(states), a)
    {
      var id := StateFor(states, a.ruleId, a.subject);
      if id.None? {
        states := states + [State(a.ruleId, a.subject, a.origin, a.startedAt, a.dueAt, Pending, None)];
      } else {
        var row := states[id.value].(origin := a.origin);
        if row.kind == Cleared { row := row.(startedAt := a.startedAt, dueAt := a.dueAt); }
        row := row.(kind := Pending);
        states := states[id.value := row];
      }
    }

    method Clear(ruleId: nat, subject: Subject)
      modifies this
      ensures states == ClearedStates(old(states), ruleId, subject)
    {
      var id := StateFor(states, ruleId, subject);
      if id.None? { return; }
      states := states[id.value := states[id.value].(kind := Cleared)];
    }

    method MarkTriggered(stateId: nat, alertId: nat) returns (found: bool)
      modifies this
      ensures found == (stateId < |old(states)|)
      ensures states == if found
                        then old(states)[stateId := old(states)[stateId].(kind := Triggered, alertId := Some(alertId))]
                        else old(states)
    {
      if stateId >= |states| { return false; }
      states := states[stateId := states[stateId].(kind := Triggered, alertId := Some(alertId))];
      return true;
    }

    method ListDue(now: int, limit: nat) returns (ids: seq<nat>)
      ensures IsSelection(ids, DueIds(states, now), DueTime(states), limit)
      ensures forall k | 0 <= k < |ids| :: IsDue(states, ids[k], now)
    {
      var due: seq<nat> := [];
      ghost var found: set<nat> := {};
      for i := 0 to |states|
        invariant found == set k: nat | k < i && k in DueIds(states, now)
        invariant multiset(due) == multiset(found)
      {
        if IsDue(states, i, now) { due, found := due + [i], found + {i}; }
      }
      assert found == DueIds(states, now);
      hide IsSelection, OrderByLimit;
      ids := OrderByLimit(due, DueTime(states), limit);
      OrderByLimitSelects(due, found, DueTime(states), limit);
      SelectedAreDue(states, now, limit, ids);
    }
  }

  lemma SelectedAreDue(states: seq<State>, now: int, limit: nat, ids: seq<nat>)
    requires IsSelection(ids, DueIds(states, now), DueTime(states), limit)
    ensures Distinct(ids) && forall k | 0 <= k < |ids| :: IsDue(states, ids[k], now)
  {
    SelectionIsDistinct(ids, DueIds(states, now));
  }
}
