/** Runs of the alert service: source events, due passes, acknowledgements and resolutions, under
    any clock and with rules that may change between calls. */
module AlertRuns {
  import opened Options
  import opened Sql
  import opened AlertRules
  import opened AlertTables
  import opened AlertEvaluation

  /** The tables after a log of steps, from empty tables. */
  function After(log: seq<Step>): Tables {
    PerformAll(Tables([], []), log)
  }

  lemma AfterSnoc(log: seq<Step>, n: nat)
    requires n < |log|
    ensures After(log[..n+1]) == Performed(After(log[..n]), log[n])
  {
    assert log[..n+1][..n] == log[..n];
  }

  // ---- what steps never change ----

  function Rank(s: Status): nat {
    match s
    case Open => 0
    case Acknowledged => 1
    case Resolved => 2
  }

  /** Alerts are only appended; what identifies one is fixed, its status only advances, and a
      resolved one never changes again. */
  ghost predicate Evolves(a: seq<Alert>, b: seq<Alert>) {
    && |a| <= |b|
    && forall i | 0 <= i < |a| ::
         && About(b[i], a[i].ruleId, a[i].subject) && b[i].key == a[i].key && b[i].origin == a[i].origin
         && b[i].triggeredAt == a[i].triggeredAt && b[i].promised == a[i].promised
         && Rank(a[i].status) <= Rank(b[i].status)
         && (a[i].status == Resolved ==> b[i] == a[i])
  }

  lemma StepEvolves(t: Tables, step: Step)
    ensures Evolves(t.alerts, Performed(t, step).alerts)
  {
  }

  lemma {:induction false} RunEvolves(t: Tables, steps: seq<Step>)
    ensures Evolves(t.alerts, PerformAll(t, steps).alerts)
  {
    if steps != [] {
      hide Performed;
      RunEvolves(t, steps[..|steps|-1]);
      StepEvolves(PerformAll(t, steps[..|steps|-1]), steps[|steps|-1]);
    }
  }

  lemma LaterEvolves(log: seq<Step>, n: nat)
    requires n <= |log|
    ensures Evolves(After(log[..n]).alerts, After(log).alerts)
  {
    hide Evolves, PerformAll;
    PerformConcat(Tables([], []), log[..n], log[n..]);
    assert log[..n] + log[n..] == log;
    RunEvolves(After(log[..n]), log[n..]);
  }

  // ---- safety ----

  ghost predicate OneLive(alerts: seq<Alert>) {
    forall i, j | 0 <= i < j < |alerts| && About(alerts[j], alerts[i].ruleId, alerts[i].subject) ::
      alerts[i].status == Resolved || alerts[j].status == Resolved
  }

  ghost predicate KeysUnique(alerts: seq<Alert>) {
    forall i, j | 0 <= i < j < |alerts| :: alerts[i].key != alerts[j].key
  }

  /** A due alert belongs to the evaluator row it names and came no earlier than promised. */
  ghost predicate DueAlertsHold(t: Tables) {
    forall i | 0 <= i < |t.alerts| ::
      var a := t.alerts[i];
      && a.key.ruleId == a.ruleId
      && (a.key.ForDue? ==>
           && a.key.stateId < |t.states| && Of(t.states[a.key.stateId], a.ruleId, a.subject)
           && a.promised.Some? && a.triggeredAt >= a.promised.value)
  }

  predicate LegalAction(a: Action) {
    && (a.Trigger? ==> a.key.ForEvent? && a.key.ruleId == a.ruleId && Fits(a.origin, a.subject))
    && (a.Schedule? ==> Fits(a.origin, a.subject))
  }

  /** What the service's own plans guarantee of a step. */
  ghost predicate LegalStep(t: Tables, step: Step) {
    match step
    case Apply(a, _) => LegalAction(a)
    case Fire(a, now, id) =>
      && a.Trigger? && IsDue(t.states, id, now) && Of(t.states[id], a.ruleId, a.subject)
      && a.key == ForDue(a.ruleId, id) && a.promised == Some(t.states[id].dueAt) && a.origin == t.states[id].origin
    case _ => true
  }

  ghost predicate LegalFrom(t: Tables, steps: seq<Step>) {
    forall n | 0 <= n < |steps| :: LegalStep(PerformAll(t, steps[..n]), steps[n])
  }

  ghost predicate Legal(log: seq<Step>) {
    LegalFrom(Tables([], []), log)
  }

  lemma LegalPrefix(log: seq<Step>, n: nat)
    requires Legal(log) && n <= |log|
    ensures Legal(log[..n])
    ensures n < |log| ==> LegalStep(After(log[..n]), log[n])
  {
    forall k | 0 <= k < n ensures LegalStep(After(log[..n][..k]), log[..n][k]) {
      assert log[..n][..k] == log[..k];
      assert LegalStep(PerformAll(Tables([], []), log[..k]), log[k]);
    }
  }

  /** The new alert has no live companion and a new key. */
  lemma StepKeepsAlerts(t: Tables, step: Step)
    requires OneLive(t.alerts) && KeysUnique(t.alerts)
    ensures OneLive(Performed(t, step).alerts) && KeysUnique(Performed(t, step).alerts)
  {
    hide LastTrigger;
  }

  /** Rows keep their place and their subject. */
  ghost predicate RowsStay(a: seq<State>, b: seq<State>) {
    |a| <= |b| && forall i | 0 <= i < |a| :: Of(b[i], a[i].ruleId, a[i].subject)
  }

  lemma StepRowsStay(t: Tables, step: Step)
    ensures RowsStay(t.states, Performed(t, step).states)
  {
  }

  ghost predicate RowsUnique(states: seq<State>) {
    forall i, j | 0 <= i < j < |states| :: !Of(states[j], states[i].ruleId, states[i].subject)
  }

  lemma StepKeepsRows(t: Tables, step: Step)
    requires RowsUnique(t.states)
    ensures RowsUnique(Performed(t, step).states)
  {
  }

  /** Times and status agree, and an alert is about its subject's entity and zone. */
  predicate Kept(a: Alert) {
    && Fits(a.origin, a.subject)
    && (a.resolvedAt.Some? <==> a.status == Resolved)
    && (a.status == Open ==> a.acknowledgedAt.None?)
    && (a.status == Acknowledged ==> a.acknowledgedAt.Some?)
  }

  ghost predicate AllKept(t: Tables) {
    && (forall i | 0 <= i < |t.alerts| :: Kept(t.alerts[i]))
    && (forall i | 0 <= i < |t.states| :: Fits(t.states[i].origin, t.states[i].subject))
  }

  lemma StepKeepsAll(t: Tables, step: Step)
    requires AllKept(t) && LegalStep(t, step)
    ensures AllKept(Performed(t, step))
  {
  }

  /** Due alerts and the rows that name them point at each other. */
  ghost predicate Linked(t: Tables) {
    && (forall i | 0 <= i < |t.alerts| && t.alerts[i].key.ForDue? ::
         t.alerts[i].key.stateId < |t.states| && t.states[t.alerts[i].key.stateId].alertId == Some(i))
    && (forall id | 0 <= id < |t.states| && t.states[id].alertId.Some? ::
         var i := t.states[id].alertId.value;
         i < |t.alerts| && t.alerts[i].key == ForDue(t.states[id].ruleId, id))
  }

  lemma StepKeepsLinks(t: Tables, step: Step)
    requires Linked(t) && DueAlertsHold(t) && LegalStep(t, step)
    ensures Linked(Performed(t, step))
  {
    StepAdds(t, step);
    StepEvolves(t, step);
    if step.Fire? && Allowed(t.alerts, step.action, step.now) {
      FiringLinks(t, step);
    } else {
      StepAlertIds(t, step);
      StepRowsStay(t, step);
      hide Performed, Allowed, LegalStep;
      var t' := Performed(t, step);
      forall i | 0 <= i < |t'.alerts| && t'.alerts[i].key.ForDue?
        ensures t'.alerts[i].key.stateId < |t'.states| && t'.states[t'.alerts[i].key.stateId].alertId == Some(i)
      {
        assert i < |t.alerts| && t.alerts[i].key.ForDue?;
      }
    }
  }

  /** Only firing sets a row's alert. */
  lemma StepAlertIds(t: Tables, step: Step)
    requires LegalStep(t, step)
    requires !(step.Fire? && Allowed(t.alerts, step.action, step.now))
    ensures var t' := Performed(t, step);
            && (forall i | 0 <= i < |t.states| :: i < |t'.states| && t'.states[i].alertId == t.states[i].alertId)
            && (forall i | |t.states| <= i < |t'.states| :: t'.states[i].alertId.None?)
            && (forall i | |t.alerts| <= i < |t'.alerts| :: t'.alerts[i].key.ForEvent?)
  {
  }

  lemma FiringLinks(t: Tables, step: Step)
    requires Linked(t) && DueAlertsHold(t) && LegalStep(t, step)
    requires step.Fire? && Allowed(t.alerts, step.action, step.now)
    ensures Linked(Performed(t, step))
  {
  }

  lemma StepKeepsDueAlerts(t: Tables, step: Step)
    requires DueAlertsHold(t) && LegalStep(t, step)
    ensures DueAlertsHold(Performed(t, step))
  {
    StepRowsStay(t, step);
    StepEvolves(t, step);
    StepAdds(t, step);
    hide Performed;
    var t' := Performed(t, step);
    forall i | 0 <= i < |t.alerts|
      ensures var a := t'.alerts[i];
              && a.key.ruleId == a.ruleId
              && (a.key.ForDue? ==>
                   && a.key.stateId < |t'.states| && Of(t'.states[a.key.stateId], a.ruleId, a.subject)
                   && a.promised.Some? && a.triggeredAt >= a.promised.value)
    {
      assert t.alerts[i].key.ruleId == t.alerts[i].ruleId;
    }
  }

  function TriggerOf(step: Step): Option<Action> {
    if (step.Apply? || step.Fire?) && step.action.Trigger? then Some(step.action) else None
  }

  /** The only way a step adds an alert. */
  lemma StepAdds(t: Tables, step: Step)
    ensures var t' := Performed(t, step);
            && |t'.alerts| <= |t.alerts| + 1
            && (|t'.alerts| > |t.alerts| ==>
                 && TriggerOf(step).Some? && Allowed(t.alerts, TriggerOf(step).value, step.now)
                 && t'.alerts == t.alerts + [NewAlert(TriggerOf(step).value, step.now)])
  {
  }

  ghost predicate Safe(t: Tables) {
    && OneLive(t.alerts) && KeysUnique(t.alerts) && RowsUnique(t.states)
    && DueAlertsHold(t) && Linked(t) && AllKept(t)
  }

  lemma {:induction false} LegalIsSafe(log: seq<Step>)
    requires Legal(log)
    ensures Safe(After(log))
  {
    if log != [] {
      var n := |log| - 1;
      LegalPrefix(log, n);
      hide Performed, OneLive, KeysUnique, DueAlertsHold, RowsUnique, Linked, AllKept, Legal, LegalStep;
      LegalIsSafe(log[..n]);
      StepKeepsAlerts(After(log[..n]), log[n]);
      StepKeepsDueAlerts(After(log[..n]), log[n]);
      StepKeepsRows(After(log[..n]), log[n]);
      StepKeepsLinks(After(log[..n]), log[n]);
      StepKeepsAll(After(log[..n]), log[n]);
    }
  }

  // ---- cooldown ----

  /** Step `n` of the log is the one that adds alert `j`. */
  ghost predicate AddedAt(log: seq<Step>, j: nat, n: nat) {
    n < |log| && |After(log[..n]).alerts| == j && |After(log[..n+1]).alerts| == j + 1
  }

  lemma {:induction false} AddedSomewhere(log: seq<Step>, j: nat) returns (n: nat)
    requires j < |After(log).alerts|
    ensures AddedAt(log, j, n)
  {
    var last := |log| - 1;
    AfterSnoc(log, last);
    assert log[..last+1] == log;
    StepAdds(After(log[..last]), log[last]);
    hide Performed;
    if j < |After(log[..last]).alerts| {
      n := AddedSomewhere(log[..last], j);
      assert log[..last][..n] == log[..n] && log[..last][..n+1] == log[..n+1];
    } else {
      StepEvolves(After(log[..last]), log[last]);
      n := last;
    }
  }

  lemma AllowedIsSpaced(alerts: seq<Alert>, a: Action, now: int, i: nat)
    requires a.Trigger? && Allowed(alerts, a, now) && i < |alerts| && About(alerts[i], a.ruleId, a.subject)
    ensures now - alerts[i].triggeredAt >= a.cooldown * SECOND
  {
  }

  /** Every stored alert was triggered at least the cooldown then in force after every earlier
      alert of its subject, whatever the clock did in between. */
  lemma AlertsAreSpaced(log: seq<Step>, j: nat) returns (n: nat)
    requires j < |After(log).alerts|
    ensures AddedAt(log, j, n) && TriggerOf(log[n]).Some?
    ensures var a, alerts := TriggerOf(log[n]).value, After(log).alerts;
            && About(alerts[j], a.ruleId, a.subject) && alerts[j].key == a.key && alerts[j].triggeredAt == log[n].now
            && forall i | 0 <= i < j && About(alerts[i], a.ruleId, a.subject) ::
                 alerts[j].triggeredAt - alerts[i].triggeredAt >= a.cooldown * SECOND
  {
    n := AddedSomewhere(log, j);
    var t := After(log[..n]);
    AfterSnoc(log, n);
    StepAdds(t, log[n]);
    LaterEvolves(log, n);
    LaterEvolves(log, n + 1);
    hide Performed, Allowed, After;
    var a, alerts := TriggerOf(log[n]).value, After(log).alerts;
    forall i | 0 <= i < j && About(alerts[i], a.ruleId, a.subject)
      ensures alerts[j].triggeredAt - alerts[i].triggeredAt >= a.cooldown * SECOND
    {
      AllowedIsSpaced(t.alerts, a, log[n].now, i);
    }
  }

  // ---- sustained conditions ----

  datatype Mark = Scheduled(startedAt: int, dueAt: int) | Clear

  function MarkOf(step: Step, ruleId: nat, subject: Subject): seq<Mark> {
    if !step.Apply? || step.action.ruleId != ruleId || step.action.subject != subject then []
    else if step.action.Schedule? then [Scheduled(step.action.startedAt, step.action.dueAt)]
    else if step.action.ClearPending? then [Clear]
    else []
  }

  /** The subject's schedules and clears, in order. */
  function Marks(log: seq<Step>, ruleId: nat, subject: Subject): seq<Mark> {
    if log == [] then []
    else Marks(log[..|log|-1], ruleId, subject) + MarkOf(log[|log|-1], ruleId, subject)
  }

  /** `marks[k]` is the first schedule after the latest clear, and nothing cleared since. */
  ghost predicate FirstSinceClear(marks: seq<Mark>, k: nat) {
    && k < |marks|
    && (forall i | k <= i < |marks| :: marks[i].Scheduled?)
    && (k == 0 || marks[k-1] == Clear)
  }

  ghost predicate Starts(marks: seq<Mark>, k: nat, startedAt: int, dueAt: int) {
    FirstSinceClear(marks, k) && marks[k] == Scheduled(startedAt, dueAt)
  }

  /** The evaluator row that the history of schedules and clears calls for. */
  ghost predicate RowFollows(states: seq<State>, marks: seq<Mark>, ruleId: nat, subject: Subject) {
    var id := StateFor(states, ruleId, subject);
    if id.None? then forall i | 0 <= i < |marks| :: marks[i] == Clear
    else
      var row := states[id.value];
      && (exists i | 0 <= i < |marks| :: marks[i].Scheduled?)
      && (row.kind == Cleared <==> marks[|marks|-1] == Clear)
      && (row.kind != Cleared ==> exists k :: Starts(marks, k, row.startedAt, row.dueAt))
  }

  lemma StateForMoves(a: seq<State>, b: seq<State>, ruleId: nat, subject: Subject)
    requires |a| == |b| && RowsStay(a, b)
    ensures StateFor(a, ruleId, subject) == StateFor(b, ruleId, subject)
  {
  }

  /** Steps on other subjects, and steps that are neither schedules nor clears. */
  lemma UnmarkedKeeps(t: Tables, step: Step, marks: seq<Mark>, ruleId: nat, subject: Subject)
    requires RowFollows(t.states, marks, ruleId, subject) && LegalStep(t, step)
    requires MarkOf(step, ruleId, subject) == []
    ensures RowFollows(Performed(t, step).states, marks, ruleId, subject)
  {
    var states := Performed(t, step).states;
    StepRowsStay(t, step);
    if |states| == |t.states| {
      StateForMoves(t.states, states, ruleId, subject);
      if StateFor(t.states, ruleId, subject).Some? { UnmarkedRow(t, step, ruleId, subject); }
    } else {
      assert states[..|t.states|] == t.states;
    }
  }

  lemma UnmarkedRow(t: Tables, step: Step, ruleId: nat, subject: Subject)
    requires LegalStep(t, step) && MarkOf(step, ruleId, subject) == []
    requires |Performed(t, step).states| == |t.states|
    requires StateFor(t.states, ruleId, subject).Some?
    ensures var id := StateFor(t.states, ruleId, subject).value;
            var row, row' := t.states[id], Performed(t, step).states[id];
            && row'.startedAt == row.startedAt && row'.dueAt == row.dueAt
            && (row'.kind == Cleared <==> row.kind == Cleared)
  {
  }

  lemma ScheduleFollows(states: seq<State>, a: Action, marks: seq<Mark>)
    requires a.Schedule? && RowFollows(states, marks, a.ruleId, a.subject)
    ensures RowFollows(Upserted(states, a), marks + [Scheduled(a.startedAt, a.dueAt)], a.ruleId, a.subject)
  {
    var id := StateFor(states, a.ruleId, a.subject);
    var states' := Upserted(states, a);
    var m := Scheduled(a.startedAt, a.dueAt);
    var marks' := marks + [m];
    assert marks'[|marks|].Scheduled?;
    if id.None? {
      assert states'[..|states|] == states;
      assert Starts(marks', |marks|, a.startedAt, a.dueAt);
    } else {
      StateForMoves(states, states', a.ruleId, a.subject);
      var row := states[id.value];
      if row.kind == Cleared {
        assert Starts(marks', |marks|, a.startedAt, a.dueAt);
      } else {
        var k :| Starts(marks, k, row.startedAt, row.dueAt);
        assert Starts(marks', k, row.startedAt, row.dueAt);
      }
    }
  }

  lemma ClearFollows(states: seq<State>, ruleId: nat, subject: Subject, marks: seq<Mark>)
    requires RowFollows(states, marks, ruleId, subject)
    ensures RowFollows(ClearedStates(states, ruleId, subject), marks + [Clear], ruleId, subject)
  {
    var id := StateFor(states, ruleId, subject);
    if id.Some? {
      StateForMoves(states, ClearedStates(states, ruleId, subject), ruleId, subject);
      var i :| 0 <= i < |marks| && marks[i].Scheduled?;
      assert (marks + [Clear])[i].Scheduled?;
    }
  }

  /** On every run a pending or triggered row carries the start and due time of the first schedule
      after the latest clear; later schedules never move them. */
  lemma {:induction false} RowsFollowTheirHistory(log: seq<Step>, ruleId: nat, subject: Subject)
    requires Legal(log)
    ensures RowFollows(After(log).states, Marks(log, ruleId, subject), ruleId, subject)
  {
    if log != [] {
      var n := |log| - 1;
      var t, step, marks := After(log[..n]), log[n], Marks(log[..n], ruleId, subject);
      LegalPrefix(log, n);
      RowsFollowTheirHistory(log[..n], ruleId, subject);
      hide RowFollows, Legal, LegalStep;
      if MarkOf(step, ruleId, subject) == [] {
        assert marks + [] == marks;
        UnmarkedKeeps(t, step, marks, ruleId, subject);
      } else if step.action.Schedule? {
        ScheduleFollows(t.states, step.action, marks);
      } else {
        ClearFollows(t.states, ruleId, subject, marks);
      }
    }
  }

  /** A due alert is never early. `n` is the step that fired it: the promised time is the due time
      of the first schedule after the latest clear before it, and it was triggered no earlier. */
  lemma DueAlertsKeepTheirPromise(log: seq<Step>, j: nat) returns (n: nat, k: nat)
    requires Legal(log) && j < |After(log).alerts| && After(log).alerts[j].key.ForDue?
    ensures AddedAt(log, j, n)
    ensures var a := After(log).alerts[j];
            var marks := Marks(log[..n], a.ruleId, a.subject);
            && FirstSinceClear(marks, k) && a.promised == Some(marks[k].dueAt)
            && a.triggeredAt == log[n].now >= marks[k].dueAt
  {
    n := AlertsAreSpaced(log, j);
    var t, step := After(log[..n]), log[n];
    var a := After(log).alerts[j];
    LegalPrefix(log, n);
    RowsFollowTheirHistory(log[..n], a.ruleId, a.subject);
    LegalIsSafe(log[..n]);
    LaterEvolves(log, n + 1);
    AfterSnoc(log, n);
    StepAdds(t, step);
    hide After, Performed, Marks, Legal, Allowed;
    assert step.Fire? && a.promised == step.action.promised;
    k := FiredFrom(t, step, Marks(log[..n], a.ruleId, a.subject), a.ruleId, a.subject);
  }

  lemma FiredFrom(t: Tables, step: Step, marks: seq<Mark>, ruleId: nat, subject: Subject) returns (k: nat)
    requires step.Fire? && LegalStep(t, step) && RowsUnique(t.states)
    requires step.action.ruleId == ruleId && step.action.subject == subject
    requires RowFollows(t.states, marks, ruleId, subject)
    ensures FirstSinceClear(marks, k) && step.action.promised == Some(marks[k].dueAt) && step.now >= marks[k].dueAt
  {
    var id := StateFor(t.states, ruleId, subject);
    assert id == Some(step.stateId);
    var row := t.states[step.stateId];
    k :| Starts(marks, k, row.startedAt, row.dueAt);
  }

  /** Each evaluator row yields at most one due alert. */
  lemma OneDueAlertPerRow(t: Tables, i: nat, j: nat)
    requires Safe(t) && i < |t.alerts| && j < |t.alerts|
    requires t.alerts[i].key.ForDue? && t.alerts[j].key.ForDue?
    requires t.alerts[i].key.stateId == t.alerts[j].key.stateId
    ensures i == j
  {
  }

  /** A row's due key is spent exactly when the row has had its alert. */
  lemma DueKeyIsFree(t: Tables, id: nat)
    requires Safe(t) && id < |t.states|
    ensures ByKey(t.alerts, ForDue(t.states[id].ruleId, id)).None? <==> t.states[id].alertId.None?
  {
    var key := ForDue(t.states[id].ruleId, id);
    var i := ByKey(t.alerts, key);
    if i.Some? { assert t.alerts[i.value].key.ForDue?; }
  }

  /** A row that has had its due alert keeps it. */
  lemma AlertIdStays(log: seq<Step>, m: nat, n: nat, id: nat)
    requires Legal(log) && m <= n <= |log|
    requires id < |After(log[..m]).states| && After(log[..m]).states[id].alertId.Some?
    ensures id < |After(log[..n]).states|
    ensures After(log[..n]).states[id].alertId == After(log[..m]).states[id].alertId
  {
    LegalPrefix(log, m);
    LegalPrefix(log, n);
    LegalIsSafe(log[..m]);
    LegalIsSafe(log[..n]);
    assert log[..n][..m] == log[..m];
    LaterEvolves(log[..n], m);
    var i := After(log[..m]).states[id].alertId.value;
    hide After, Legal, OneLive, KeysUnique, RowsUnique, AllKept;
    assert After(log[..n]).alerts[i].key == After(log[..m]).alerts[i].key;
  }

  /** And for good: once a row has had its due alert, firing it at any later step does nothing,
      whatever was resolved, cleared and scheduled in between. */
  lemma FiredRowStaysSilent(log: seq<Step>, m: nat, n: nat)
    requires Legal(log) && m <= n < |log| && log[n].Fire?
    requires log[n].stateId < |After(log[..m]).states| && After(log[..m]).states[log[n].stateId].alertId.Some?
    ensures After(log[..n+1]) == After(log[..n])
  {
    var id := log[n].stateId;
    AlertIdStays(log, m, n, id);
    LegalPrefix(log, n);
    LegalIsSafe(log[..n]);
    DueKeyIsFree(After(log[..n]), id);
    AfterSnoc(log, n);
  }

  // ---- runs of the service ----

  /** `ids` is the answer the due-state query happened to give. */
  datatype Op =
    | ByEvent(rules: seq<Rule>, event: SourceEvent, now: int)
    | ByDuePass(rules: seq<Rule>, open: Sessions, now: int, batchSize: nat, ids: seq<nat>)
    | ByOperator(step: Step)

  ghost predicate Possible(t: Tables, op: Op) {
    match op
    case ByEvent(_, _, _) => true
    case ByDuePass(_, _, now, batchSize, ids) => IsSelection(ids, DueIds(t.states, now), DueTime(t.states), batchSize)
    case ByOperator(step) => step.Acknowledge? || step.Resolve?
  }

  function Plan(t: Tables, op: Op, active: (Rule, int) -> bool): seq<Step> {
    match op
    case ByEvent(rules, event, now) => EventPlan(rules, event, active, now)
    case ByDuePass(rules, open, now, _, ids) =>
      if forall k | 0 <= k < |ids| :: ids[k] < |t.states| then DuePlan(t.states, ids, rules, open, now) else []
    case ByOperator(step) => [step]
  }

  /** The steps of all the calls. */
  function Log(ops: seq<Op>, active: (Rule, int) -> bool): seq<Step> {
    if ops == [] then []
    else
      var before := Log(ops[..|ops|-1], active);
      before + Plan(After(before), ops[|ops|-1], active)
  }

  ghost predicate AllPossible(ops: seq<Op>, active: (Rule, int) -> bool) {
    forall i | 0 <= i < |ops| :: Possible(After(Log(ops[..i], active)), ops[i])
  }

  lemma LegalConcat(t: Tables, a: seq<Step>, b: seq<Step>)
    requires LegalFrom(t, a) && LegalFrom(PerformAll(t, a), b)
    ensures LegalFrom(t, a + b)
  {
    forall n | 0 <= n < |a + b| ensures LegalStep(PerformAll(t, (a + b)[..n]), (a + b)[n]) {
      LegalConcatAt(t, a, b, n);
    }
  }

  lemma LegalConcatAt(t: Tables, a: seq<Step>, b: seq<Step>, n: nat)
    requires LegalFrom(t, a) && LegalFrom(PerformAll(t, a), b) && n < |a + b|
    ensures LegalStep(PerformAll(t, (a + b)[..n]), (a + b)[n])
  {
    hide LegalStep, Performed;
    if n < |a| {
      assert (a + b)[..n] == a[..n];
    } else {
      var k := n - |a|;
      PerformConcat(t, a, b[..k]);
      assert (a + b)[..n] == a + b[..k];
    }
  }

  lemma EventPlanIsLegal(t: Tables, rules: seq<Rule>, e: SourceEvent, active: (Rule, int) -> bool, now: int)
    ensures LegalFrom(t, EventPlan(rules, e, active, now))
  {
    ActionsAreLegal(rules, e, active, now);
    var actions := Actions(rules, e, active, now);
    hide Actions;
    forall n | 0 <= n < |EventPlan(rules, e, active, now)|
      ensures LegalStep(PerformAll(t, EventPlan(rules, e, active, now)[..n]), EventPlan(rules, e, active, now)[n])
    {
      assert actions[n] in actions;
    }
  }

  lemma {:induction false} ActionsAreLegal(rules: seq<Rule>, e: SourceEvent, active: (Rule, int) -> bool, now: int)
    ensures forall a | a in Actions(rules, e, active, now) :: LegalAction(a)
  {
    if rules != [] {
      var rule := rules[|rules|-1];
      ActionsAreLegal(rules[..|rules|-1], e, active, now);
      OneVerdict(rule, e, active(rule, now));
      hide Evaluate;
    }
  }

  ghost predicate LeavesOthers(a: seq<State>, b: seq<State>, ids: seq<nat>) {
    |b| == |a| && forall j | 0 <= j < |a| && j !in ids :: b[j] == a[j]
  }

  lemma LeavesMore(a: seq<State>, b: seq<State>, c: seq<State>, ids: seq<nat>, id: nat)
    requires LeavesOthers(a, b, ids) && LeavesOthers(b, c, [id])
    ensures LeavesOthers(a, c, ids + [id])
    ensures id < |a| && id !in ids ==> b[id] == a[id]
  {
  }

  /** Handling one due row leaves the other rows alone. */
  lemma DueStepsAreLegal(t: Tables, id: nat, rules: seq<Rule>, open: Sessions, now: int)
    requires RowsUnique(t.states) && IsDue(t.states, id, now)
    ensures var steps := DueSteps(t.states[id], id, rules, open, now);
            LegalFrom(t, steps) && LeavesOthers(t.states, PerformAll(t, steps).states, [id])
  {
    var s := t.states[id];
    var steps := DueSteps(s, id, rules, open, now);
    var c, r := Apply(ClearPending(s.ruleId, s.subject), now), Apply(ResolveSubject(s.ruleId, s.subject), now);
    assert StateFor(t.states, s.ruleId, s.subject) == Some(id);
    hide Allowed, OpenFor;
    PerformOne(t, steps[0]);
    PerformTwo(t, c, r);
    assert steps[..0] == [];
    if |steps| == 2 { assert steps == [c, r] && steps[..1] == [c]; }
  }

  /** What a due row waits for: its rule still enabled, and its condition still holding. */
  predicate Stands(s: State, rules: seq<Rule>, open: Sessions) {
    var rule := RuleById(rules, s.ruleId);
    && rule.Some? && rule.value.enabled
    && (rule.value.ruleType == DwellThreshold ==> SessionStillOpen(open, s.origin.entity, s.origin.zone))
    && (rule.value.ruleType == OccupancyThreshold ==>
         ZoneOccupancyMeets(open, s.origin.zone, OrZero(rule.value.occupancy)))
  }

  predicate DwellIsOver(s: State, rules: seq<Rule>, open: Sessions) {
    var rule := RuleById(rules, s.ruleId);
    && rule.Some? && rule.value.enabled && rule.value.ruleType == DwellThreshold
    && !SessionStillOpen(open, s.origin.entity, s.origin.zone)
  }

  /** A due row ends up cleared exactly when its condition no longer stands, triggered exactly when
      it stands and the trigger is allowed, and pending otherwise; the end of a dwell also leaves
      its subject without a live alert. */
  lemma DueRowOutcome(t: Tables, id: nat, rules: seq<Rule>, open: Sessions, now: int)
    requires RowsUnique(t.states) && OneLive(t.alerts) && IsDue(t.states, id, now)
    ensures var s := t.states[id];
            var t' := PerformAll(t, DueSteps(s, id, rules, open, now));
            && id < |t'.states|
            && (t'.states[id].kind == Cleared <==> !Stands(s, rules, open))
            && (t'.states[id].kind == Triggered <==>
                 Stands(s, rules, open)
                 && Allowed(t.alerts, DueTrigger(s, id, RuleById(rules, s.ruleId).value), now))
            && |t'.alerts| == |t.alerts| + (if t'.states[id].kind == Triggered then 1 else 0)
            && (t'.states[id].kind == Triggered ==> t'.states[id].alertId == Some(|t.alerts|))
            && (DwellIsOver(s, rules, open) ==> OpenFor(t'.alerts, s.ruleId, s.subject).None?)
  {
    var s := t.states[id];
    var steps := DueSteps(s, id, rules, open, now);
    var c, r := Apply(ClearPending(s.ruleId, s.subject), now), Apply(ResolveSubject(s.ruleId, s.subject), now);
    assert StateFor(t.states, s.ruleId, s.subject) == Some(id);
    hide Allowed;
    PerformOne(t, steps[0]);
    PerformTwo(t, c, r);
    ResolvedIsSettled(t.alerts, s.ruleId, s.subject, now);
    hide OpenFor, SessionStillOpen, ZoneOccupancyMeets, OneLive, RowsUnique, PerformAll;
  }

  /** A due row fires exactly when its condition stands, it has never had a due alert, its subject
      has no live alert, and the rule's cooldown has passed since the subject's latest alert. */
  lemma DueRowFires(t: Tables, id: nat, rules: seq<Rule>, open: Sessions, now: int)
    requires Safe(t) && IsDue(t.states, id, now)
    ensures var s := t.states[id];
            var last := LastTrigger(t.alerts, s.ruleId, s.subject);
            var after := PerformAll(t, DueSteps(s, id, rules, open, now)).states;
            && id < |after|
            && (after[id].kind == Triggered <==>
                 && Stands(s, rules, open) && s.alertId.None? && OpenFor(t.alerts, s.ruleId, s.subject).None?
                 && (last.Some? ==> now - last.value >= RuleById(rules, s.ruleId).value.cooldown * SECOND))
  {
    DueRowOutcome(t, id, rules, open, now);
    DueKeyIsFree(t, id);
    hide PerformAll, DueSteps, SessionStillOpen, ZoneOccupancyMeets, ByKey, OpenFor, LastTrigger;
  }

  lemma ResolvedIsSettled(alerts: seq<Alert>, ruleId: nat, subject: Subject, now: int)
    requires OneLive(alerts)
    ensures OpenFor(Applied(Tables(alerts, []), ResolveSubject(ruleId, subject), now).alerts, ruleId, subject).None?
    ensures forall states :: Applied(Tables(alerts, states), ResolveSubject(ruleId, subject), now).alerts
                          == Applied(Tables(alerts, []), ResolveSubject(ruleId, subject), now).alerts
  {
    var id := OpenFor(alerts, ruleId, subject);
    if id.Some? {
      var after := alerts[id.value := ResolvedAlert(alerts[id.value], now)];
      assert forall i | 0 <= i < |alerts| && i != id.value && About(alerts[i], ruleId, subject) :: !IsLive(alerts[i]);
      var found := OpenFor(after, ruleId, subject);
    }
  }

  lemma {:induction false} DuePlanIsLegal(t: Tables, ids: seq<nat>, rules: seq<Rule>, open: Sessions, now: int)
    requires RowsUnique(t.states) && Distinct(ids)
    requires forall k | 0 <= k < |ids| :: ids[k] < |t.states| && IsDue(t.states, ids[k], now)
    ensures var plan := DuePlan(t.states, ids, rules, open, now);
            LegalFrom(t, plan) && LeavesOthers(t.states, PerformAll(t, plan).states, ids)
  {
    if ids != [] {
      var n := |ids| - 1;
      DuePlanIsLegal(t, ids[..n], rules, open, now);
      LastIsFresh(ids);
      DueNext(t, ids[..n], ids[n], rules, open, now);
    }
  }

  lemma LastIsFresh(ids: seq<nat>)
    requires Distinct(ids) && ids != []
    ensures ids[|ids|-1] !in ids[..|ids|-1] && ids == ids[..|ids|-1] + [ids[|ids|-1]]
  {
  }

  lemma DueNext(t: Tables, ids: seq<nat>, id: nat, rules: seq<Rule>, open: Sessions, now: int)
    requires RowsUnique(t.states) && id < |t.states| && IsDue(t.states, id, now) && id !in ids
    requires forall k | 0 <= k < |ids| :: ids[k] < |t.states|
    requires var plan := DuePlan(t.states, ids, rules, open, now);
             LegalFrom(t, plan) && LeavesOthers(t.states, PerformAll(t, plan).states, ids)
    ensures var plan := DuePlan(t.states, ids, rules, open, now) + DueSteps(t.states[id], id, rules, open, now);
            LegalFrom(t, plan) && LeavesOthers(t.states, PerformAll(t, plan).states, ids + [id])
  {
    var plan := DuePlan(t.states, ids, rules, open, now);
    var t1 := PerformAll(t, plan);
    RunKeepsRows(t, plan);
    assert t1.states[id] == t.states[id] && IsDue(t1.states, id, now);
    hide *;
    var steps := DueSteps(t1.states[id], id, rules, open, now);
    DueStepsAreLegal(t1, id, rules, open, now);
    LegalConcat(t, plan, steps);
    PerformConcat(t, plan, steps);
    LeavesMore(t.states, t1.states, PerformAll(t1, steps).states, ids, id);
  }

  lemma {:induction false} RunKeepsRows(t: Tables, steps: seq<Step>)
    requires RowsUnique(t.states)
    ensures RowsUnique(PerformAll(t, steps).states)
  {
    if steps != [] {
      hide RowsUnique, Performed;
      RunKeepsRows(t, steps[..|steps|-1]);
      StepKeepsRows(PerformAll(t, steps[..|steps|-1]), steps[|steps|-1]);
    }
  }

  lemma PlanIsLegal(t: Tables, op: Op, active: (Rule, int) -> bool)
    requires RowsUnique(t.states) && Possible(t, op)
    ensures LegalFrom(t, Plan(t, op, active))
  {
    match op
    case ByEvent(rules, event, now) => EventPlanIsLegal(t, rules, event, active, now);
    case ByDuePass(rules, open, now, batchSize, ids) =>
      SelectedAreDue(t.states, now, batchSize, ids);
      assert forall k | 0 <= k < |ids| :: IsDue(t.states, ids[k], now) ==> ids[k] < |t.states|;
      DuePlanIsLegal(t, ids, rules, open, now);
    case ByOperator(step) =>
  }

  lemma LegalRowsUnique(log: seq<Step>)
    requires Legal(log)
    ensures RowsUnique(After(log).states)
  {
    LegalIsSafe(log);
  }

  lemma PossiblePrefix(ops: seq<Op>, active: (Rule, int) -> bool)
    requires AllPossible(ops, active) && ops != []
    ensures var n := |ops| - 1;
            AllPossible(ops[..n], active) && Possible(After(Log(ops[..n], active)), ops[n])
  {
    hide Possible, Log;
    var n := |ops| - 1;
    forall i | 0 <= i < n ensures Possible(After(Log(ops[..n][..i], active)), ops[..n][i]) {
      assert ops[..n][..i] == ops[..i];
    }
  }

  /** Everything the service does is legal. */
  lemma {:induction false} LogIsLegal(ops: seq<Op>, active: (Rule, int) -> bool)
    requires AllPossible(ops, active)
    ensures Legal(Log(ops, active))
  {
    if ops == [] {
      assert Log(ops, active) == [];
    } else {
      var n := |ops| - 1;
      var before := Log(ops[..n], active);
      var plan := Plan(After(before), ops[n], active);
      assert Log(ops, active) == before + plan;
      PossiblePrefix(ops, active);
      hide AllPossible, LegalFrom, RowsUnique, Possible, Plan, Log, PerformAll;
      LogIsLegal(ops[..n], active);
      LegalRowsUnique(before);
      PlanIsLegal(After(before), ops[n], active);
      LegalConcat(Tables([], []), before, plan);
    }
  }

  /** On every run of the service: at most one live alert per subject, unique idempotency keys, one
      row per subject, due alerts never early and linked with their rows, dates that fit the status. */
  lemma ServiceIsSafe(ops: seq<Op>, active: (Rule, int) -> bool)
    requires AllPossible(ops, active)
    ensures Safe(After(Log(ops, active)))
  {
    LogIsLegal(ops, active);
    LegalIsSafe(Log(ops, active));
  }

  /** Handling one source event again, at any later time and whatever happened in between, never
      gives a rule a second alert for it. */
  lemma ReplayedEventAlertsOnce(ops: seq<Op>, active: (Rule, int) -> bool, i: nat, j: nat)
    requires AllPossible(ops, active)
    ensures var alerts := After(Log(ops, active)).alerts;
            i < |alerts| && j < |alerts| && alerts[i].key.ForEvent? && alerts[j].key.ForEvent?
            && alerts[i].ruleId == alerts[j].ruleId && alerts[i].key.eventId == alerts[j].key.eventId
            ==> i == j
  {
    ServiceIsSafe(ops, active);
    var alerts := After(Log(ops, active)).alerts;
    if i < |alerts| && j < |alerts| {
      assert alerts[i].key.ruleId == alerts[i].ruleId && alerts[j].key.ruleId == alerts[j].ruleId;
    }
  }
}
