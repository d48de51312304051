/** Due alerts over runs of the service: where their due time comes from, and which due rows a pass
    reaches. */
module AlertDue {
  import opened Options
  import opened Sql
  import opened AlertRules
  import opened AlertTables
  import opened AlertEvaluation
  import opened AlertRuns

  // ---- where a due time comes from ----

  lemma {:induction false} ActionHasRule(rules: seq<Rule>, e: SourceEvent, active: (Rule, int) -> bool, now: int,
                                         a: Action)
    returns (r: nat)
    requires a in Actions(rules, e, active, now)
    ensures r < |rules| && rules[r].enabled && a in Evaluate(rules[r], e, active(rules[r], now))
  {
    var n := |rules| - 1;
    if a in Actions(rules[..n], e, active, now) {
      r := ActionHasRule(rules[..n], e, active, now, a);
    } else {
      r := n;
    }
  }

  lemma {:induction false} DuePlanSchedulesNothing(states: seq<State>, ids: seq<nat>, rules: seq<Rule>,
                                                   open: Sessions, now: int)
    requires forall k | 0 <= k < |ids| :: ids[k] < |states|
    ensures forall step | step in DuePlan(states, ids, rules, open, now) ::
              step.Apply? ==> !step.action.Schedule?
  {
    if ids != [] { DuePlanSchedulesNothing(states, ids[..|ids|-1], rules, open, now); }
  }

  /** Every step of the log was planned by some call. */
  lemma {:induction false} StepHasOp(ops: seq<Op>, active: (Rule, int) -> bool, p: nat) returns (i: nat)
    requires p < |Log(ops, active)|
    ensures i < |ops| && Log(ops, active)[p] in Plan(After(Log(ops[..i], active)), ops[i], active)
  {
    LogSnoc(ops, active);
    hide *;
    var n := |ops| - 1;
    var before := Log(ops[..n], active);
    if p < |before| {
      i := StepHasOp(ops[..n], active, p);
      assert ops[..n][..i] == ops[..i];
    } else {
      i := n;
    }
  }

  lemma LogSnoc(ops: seq<Op>, active: (Rule, int) -> bool)
    ensures ops == [] ==> Log(ops, active) == []
    ensures ops != [] ==>
      Log(ops, active) == Log(ops[..|ops|-1], active)
                          + Plan(After(Log(ops[..|ops|-1], active)), ops[|ops|-1], active)
  {
  }

  lemma {:induction false} MarkHasStep(log: seq<Step>, ruleId: nat, subject: Subject, k: nat) returns (p: nat)
    requires k < |Marks(log, ruleId, subject)|
    ensures p < |log| && MarkOf(log[p], ruleId, subject) == [Marks(log, ruleId, subject)[k]]
  {
    var n := |log| - 1;
    if k < |Marks(log[..n], ruleId, subject)| {
      p := MarkHasStep(log[..n], ruleId, subject, k);
    } else {
      p := n;
    }
  }

  /** The mark is what rule `r` of this call schedules: from the event on, for as long as the rule's
      condition must last. */
  predicate Schedules(op: Op, r: nat, ruleId: nat, subject: Subject, m: Mark) {
    && op.ByEvent? && r < |op.rules| && op.rules[r].enabled && op.rules[r].id == ruleId
    && subject.entity == op.event.entity && Sustain(op.rules[r]) >= 0
    && m == Scheduled(op.event.occurredAt, op.event.occurredAt + Sustain(op.rules[r]) * SECOND)
  }

  lemma StepSchedules(t: Tables, op: Op, active: (Rule, int) -> bool, step: Step,
                      ruleId: nat, subject: Subject, m: Mark)
    returns (r: nat)
    requires Possible(t, op) && step in Plan(t, op, active)
    requires m.Scheduled? && MarkOf(step, ruleId, subject) == [m]
    ensures Schedules(op, r, ruleId, subject, m)
  {
    r := 0;
    match op
    case ByEvent(rules, event, now) =>
      assert step.action in Actions(rules, event, active, now);
      r := ActionHasRule(rules, event, active, now, step.action);
      OneVerdict(rules[r], event, active(rules[r], now));
    case ByDuePass(rules, open, now, _, ids) =>
      DuePlanSchedulesNothing(t.states, ids, rules, open, now);
      assert false;
    case ByOperator(_) =>
      assert false;
  }

  /** Every scheduled mark of a run comes from an event and a rule enabled for it. */
  lemma MarksComeFromEvents(ops: seq<Op>, active: (Rule, int) -> bool, ruleId: nat, subject: Subject, k: nat)
    returns (i: nat, r: nat)
    requires AllPossible(ops, active)
    ensures var marks := Marks(Log(ops, active), ruleId, subject);
            k < |marks| && marks[k].Scheduled? ==> i < |ops| && Schedules(ops[i], r, ruleId, subject, marks[k])
  {
    var log := Log(ops, active);
    if k >= |Marks(log, ruleId, subject)| || !Marks(log, ruleId, subject)[k].Scheduled? { return 0, 0; }
    var p := MarkHasStep(log, ruleId, subject, k);
    i := StepHasOp(ops, active, p);
    r := StepSchedules(After(Log(ops[..i], active)), ops[i], active, log[p], ruleId, subject,
                       Marks(log, ruleId, subject)[k]);
  }

  lemma {:induction false} MarksPrefix(log: seq<Step>, n: nat, ruleId: nat, subject: Subject)
    requires n <= |log|
    ensures Marks(log[..n], ruleId, subject) <= Marks(log, ruleId, subject)
  {
    if n < |log| {
      MarksPrefix(log[..|log|-1], n, ruleId, subject);
      assert log[..|log|-1][..n] == log[..n];
    } else {
      assert log[..n] == log;
    }
  }

  lemma PrefixMarkComesFromEvent(ops: seq<Op>, active: (Rule, int) -> bool, ruleId: nat, subject: Subject,
                                 n: nat, k: nat)
    returns (i: nat, r: nat)
    requires AllPossible(ops, active)
    ensures n <= |Log(ops, active)| && FirstSinceClear(Marks(Log(ops, active)[..n], ruleId, subject), k) ==>
              && i < |ops| && k < |Marks(Log(ops, active)[..n], ruleId, subject)|
              && Schedules(ops[i], r, ruleId, subject, Marks(Log(ops, active)[..n], ruleId, subject)[k])
  {
    i, r := MarksComeFromEvents(ops, active, ruleId, subject, k);
    hide Marks, Log, AllPossible, Schedules;
    if n <= |Log(ops, active)| { MarksPrefix(Log(ops, active), n, ruleId, subject); }
  }

  ghost predicate IsDueAlert(ops: seq<Op>, active: (Rule, int) -> bool, j: nat) {
    j < |After(Log(ops, active)).alerts| && After(Log(ops, active)).alerts[j].key.ForDue?
  }

  /** Step `n` of the run fired the alert; mark `k`, the first scheduled since the latest clear before
      it, is what rule `r` of call `i` scheduled; the alert came no sooner than that rule's full
      threshold after that event. */
  ghost predicate Sustained(ops: seq<Op>, active: (Rule, int) -> bool, j: nat, n: nat, k: nat, i: nat, r: nat)
    requires IsDueAlert(ops, active, j)
  {
    var log := Log(ops, active);
    var a := After(log).alerts[j];
    && AddedAt(log, j, n) && n <= |log| && FirstSinceClear(Marks(log[..n], a.ruleId, a.subject), k)
    && i < |ops| && Schedules(ops[i], r, a.ruleId, a.subject, Marks(log[..n], a.ruleId, a.subject)[k])
    && a.promised == Some(ops[i].event.occurredAt + Sustain(ops[i].rules[r]) * SECOND)
    && a.triggeredAt >= ops[i].event.occurredAt + Sustain(ops[i].rules[r]) * SECOND
  }

  /** A due alert is never early: on every run it comes no sooner than the rule's full threshold after
      the event that started its condition. */
  lemma DueAlertsAreSustained(ops: seq<Op>, active: (Rule, int) -> bool, j: nat)
    returns (n: nat, k: nat, i: nat, r: nat)
    requires AllPossible(ops, active)
    ensures IsDueAlert(ops, active, j) ==> Sustained(ops, active, j, n, k, i, r)
  {
    n, k, i, r := 0, 0, 0, 0;
    if IsDueAlert(ops, active, j) {
      var log := Log(ops, active);
      var a := After(log).alerts[j];
      hide *;
      DueAlertIs(ops, active, j);
      LogIsLegal(ops, active);
      n, k := DueAlertsKeepTheirPromise(log, j);
      AddedWithin(log, j, n);
      i, r := PrefixMarkComesFromEvent(ops, active, a.ruleId, a.subject, n, k);
      SchedulesWhen(ops[i], r, a.ruleId, a.subject, Marks(log[..n], a.ruleId, a.subject)[k]);
      SustainedIs(ops, active, j, n, k, i, r);
    }
  }

  lemma DueAlertIs(ops: seq<Op>, active: (Rule, int) -> bool, j: nat)
    requires IsDueAlert(ops, active, j)
    ensures j < |After(Log(ops, active)).alerts| && After(Log(ops, active)).alerts[j].key.ForDue?
  {
  }

  lemma SustainedIs(ops: seq<Op>, active: (Rule, int) -> bool, j: nat, n: nat, k: nat, i: nat, r: nat)
    requires IsDueAlert(ops, active, j)
    ensures var log := Log(ops, active);
            var a := After(log).alerts[j];
            && AddedAt(log, j, n) && FirstSinceClear(Marks(log[..n], a.ruleId, a.subject), k) && i < |ops|
            && Schedules(ops[i], r, a.ruleId, a.subject, Marks(log[..n], a.ruleId, a.subject)[k])
            && a.promised == Some(Marks(log[..n], a.ruleId, a.subject)[k].dueAt)
            && a.triggeredAt >= Marks(log[..n], a.ruleId, a.subject)[k].dueAt
            ==> Sustained(ops, active, j, n, k, i, r)
  {
    hide After, Log, Marks;
  }

  lemma AddedWithin(log: seq<Step>, j: nat, n: nat)
    requires AddedAt(log, j, n)
    ensures n < |log|
  {
  }

  lemma SchedulesWhen(op: Op, r: nat, ruleId: nat, subject: Subject, m: Mark)
    requires Schedules(op, r, ruleId, subject, m)
    ensures op.ByEvent? && r < |op.rules| && m.Scheduled?
    ensures m.dueAt == op.event.occurredAt + Sustain(op.rules[r]) * SECOND
  {
  }

  // ---- which due rows a pass reaches ----

  /** A due row is handled when at most a batch of rows is due no later, itself included, and is not
      when a whole batch is due strictly earlier. */
  lemma DueRowReached(t: Tables, rules: seq<Rule>, open: Sessions, now: int, batchSize: nat, ids: seq<nat>, id: nat)
    requires Possible(t, ByDuePass(rules, open, now, batchSize, ids)) && IsDue(t.states, id, now)
    ensures |NoLater(DueIds(t.states, now), DueTime(t.states), id)| <= batchSize ==> id in ids
    ensures |Earlier(DueIds(t.states, now), DueTime(t.states), id)| >= batchSize ==> id !in ids
  {
    SelectionReaches(ids, DueIds(t.states, now), DueTime(t.states), batchSize, id);
  }

  /** A due row whose condition stands but whose due key is spent. */
  predicate Spent(t: Tables, id: nat, rules: seq<Rule>, open: Sessions, now: int) {
    IsDue(t.states, id, now) && t.states[id].alertId.Some? && Stands(t.states[id], rules, open)
  }

  lemma SpentStepDoesNothing(t: Tables, t1: Tables, id: nat, rules: seq<Rule>, open: Sessions, now: int)
    requires Safe(t) && Spent(t, id, rules, open, now) && Evolves(t.alerts, t1.alerts)
    ensures PerformAll(t1, DueSteps(t.states[id], id, rules, open, now)) == t1
  {
    var s := t.states[id];
    var steps := DueSteps(s, id, rules, open, now);
    DueKeyIsFree(t, id);
    var i := ByKey(t.alerts, ForDue(s.ruleId, id)).value;
    assert t1.alerts[i].key == ForDue(s.ruleId, id);
    hide LastTrigger, OpenFor;
    PerformOne(t1, steps[0]);
  }

  /** A due pass leaves spent rows as they are: pending and due. */
  lemma {:induction false} SpentRowsStay(t: Tables, ids: seq<nat>, rules: seq<Rule>, open: Sessions, now: int, x: nat)
    requires Safe(t) && Distinct(ids) && Spent(t, x, rules, open, now)
    requires forall k | 0 <= k < |ids| :: ids[k] < |t.states| && IsDue(t.states, ids[k], now)
    ensures var t' := PerformAll(t, DuePlan(t.states, ids, rules, open, now));
            x < |t'.states| && t'.states[x] == t.states[x]
  {
    if ids != [] {
      assert RowsUnique(t.states) && IsDue(t.states, x, now);
      assert forall k | 0 <= k < |ids| - 1 :: ids[..|ids|-1][k] == ids[k];
      var n := |ids| - 1;
      LastIsFresh(ids);
      assert Distinct(ids[..n]);
      var plan := DuePlan(t.states, ids[..n], rules, open, now);
      var t1, steps := PerformAll(t, plan), DueSteps(t.states[ids[n]], ids[n], rules, open, now);
      assert DuePlan(t.states, ids, rules, open, now) == plan + steps;
      hide *;
      SpentRowsStay(t, ids[..n], rules, open, now, x);
      DuePlanIsLegal(t, ids[..n], rules, open, now);
      RunKeepsRows(t, plan);
      RunEvolves(t, plan);
      PerformConcat(t, plan, steps);
      StillDue(t.states, t1.states, ids[..n], ids[n], now);
      if x == ids[n] {
        SpentStepDoesNothing(t, t1, x, rules, open, now);
      } else {
        DueStepsAreLegal(t1, ids[n], rules, open, now);
        LeavesRow(t1.states, PerformAll(t1, steps).states, [ids[n]], x);
      }
    }
  }

  lemma LeavesRow(a: seq<State>, b: seq<State>, ids: seq<nat>, x: nat)
    requires LeavesOthers(a, b, ids) && x !in ids && x < |a|
    ensures x < |b| && b[x] == a[x]
  {
  }

  lemma StillDue(a: seq<State>, b: seq<State>, ids: seq<nat>, x: nat, now: int)
    requires LeavesOthers(a, b, ids) && x !in ids && x < |a| && IsDue(a, x, now)
    ensures x < |b| && b[x] == a[x] && IsDue(b, x, now)
  {
  }

  /** A batch of spent rows due earlier keeps a due row waiting: the pass does not reach it and leaves
      those rows as they were, so the next pass finds the same for as long as their conditions stand. */
  lemma StarvedRowWaits(t: Tables, rules: seq<Rule>, open: Sessions, now: int, batchSize: nat, ids: seq<nat>,
                        active: (Rule, int) -> bool, id: nat, blockers: set<nat>)
    requires Safe(t) && Possible(t, ByDuePass(rules, open, now, batchSize, ids)) && IsDue(t.states, id, now)
    requires |blockers| >= batchSize
    requires forall b | b in blockers :: Spent(t, b, rules, open, now) && t.states[b].dueAt < t.states[id].dueAt
    ensures var t' := PerformAll(t, Plan(t, ByDuePass(rules, open, now, batchSize, ids), active));
            && |t'.states| == |t.states| && id !in ids && t'.states[id] == t.states[id]
            && (forall b | b in blockers :: b < |t.states| && t'.states[b] == t.states[b])
  {
    SelectedAreDue(t.states, now, batchSize, ids);
    Within(blockers, Earlier(DueIds(t.states, now), DueTime(t.states), id));
    DueRowReached(t, rules, open, now, batchSize, ids, id);
    assert forall k | 0 <= k < |ids| :: IsDue(t.states, ids[k], now) ==> ids[k] < |t.states|;
    DuePlanIsLegal(t, ids, rules, open, now);
    hide IsSelection, Safe, RowsUnique, PerformAll, DuePlan;
    forall b | b in blockers
      ensures b < |t.states| && PerformAll(t, DuePlan(t.states, ids, rules, open, now)).states[b] == t.states[b]
    {
      SpentRowsStay(t, ids, rules, open, now, b);
    }
  }
}
