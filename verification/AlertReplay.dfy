/** A source event evaluated a second time, as after a crash between evaluation and checkpoint
    (src/services/alerts/consumer.py, src/services/alerts/evaluation_service.py). */
module AlertReplay {
  import opened Options
  import opened AlertRules
  import opened AlertTables
  import opened AlertEvaluation
  import opened AlertRuns
  import AlertDue

  /** Rule ids are the table's primary key. */
  ghost predicate DistinctRules(rules: seq<Rule>) {
    forall i, j | 0 <= i < j < |rules| :: rules[i].id != rules[j].id
  }

  /** What the action asks for is already so; a trigger asks for nothing that stays. */
  predicate Settled(t: Tables, a: Action) {
    match a
    case Schedule(ruleId, subject, origin, _, _) =>
      var id := StateFor(t.states, ruleId, subject);
      id.Some? && t.states[id.value].kind == Pending && t.states[id.value].origin == origin
    case ClearPending(ruleId, subject) =>
      var id := StateFor(t.states, ruleId, subject);
      id.None? || t.states[id.value].kind == Cleared
    case ResolveSubject(ruleId, subject) => OpenFor(t.alerts, ruleId, subject).None?
    case Trigger(_, _, _, _, _, _) => true
  }

  /** Actions of different rules, or the two halves of a settlement. */
  predicate Apart(a: Action, b: Action) {
    || a.ruleId != b.ruleId
    || (a.ClearPending? && b.ResolveSubject?)
    || (a.ResolveSubject? && b.ClearPending?)
  }

  ghost predicate AllApart(actions: seq<Action>) {
    forall i, j | 0 <= i < j < |actions| :: Apart(actions[i], actions[j])
  }

  lemma JustSettled(t: Tables, a: Action, now: int)
    requires OneLive(t.alerts)
    ensures Settled(Applied(t, a, now), a)
  {
    match a
    case Schedule(ruleId, subject, _, _, _) =>
      var states := Upserted(t.states, a);
      var id := StateFor(t.states, ruleId, subject);
      if id.Some? { StateForMoves(t.states, states, ruleId, subject); }
      else { assert states[..|t.states|] == t.states; }
    case ClearPending(ruleId, subject) =>
      StateForMoves(t.states, ClearedStates(t.states, ruleId, subject), ruleId, subject);
    case ResolveSubject(ruleId, subject) =>
      ResolvedIsSettled(t.alerts, ruleId, subject, now);
    case Trigger(_, _, _, _, _, _) =>
  }

  lemma StaysSettled(t: Tables, a: Action, b: Action, now: int)
    requires Settled(t, a) && Apart(a, b)
    ensures Settled(Applied(t, b, now), a)
  {
    var states := Applied(t, b, now).states;
    if |states| == |t.states| {
      StateForMoves(t.states, states, a.ruleId, a.subject);
    } else {
      assert states[..|t.states|] == t.states;
    }
    hide Allowed;
    if a.ResolveSubject? { StaysResolved(t, a, b, now); }
  }

  lemma StaysResolved(t: Tables, a: Action, b: Action, now: int)
    requires a.ResolveSubject? && OpenFor(t.alerts, a.ruleId, a.subject).None? && Apart(a, b)
    ensures OpenFor(Applied(t, b, now).alerts, a.ruleId, a.subject).None?
  {
    hide Allowed;
    var alerts := Applied(t, b, now).alerts;
    assert forall i | 0 <= i < |t.alerts| :: About(t.alerts[i], a.ruleId, a.subject) ==> !IsLive(t.alerts[i]);
    var id := OpenFor(alerts, a.ruleId, a.subject);
    if id.Some? && id.value < |t.alerts| { StepEvolves(t, Apply(b, now)); }
  }

  lemma {:induction false} RunKeepsAlerts(t: Tables, steps: seq<Step>)
    requires OneLive(t.alerts) && KeysUnique(t.alerts)
    ensures OneLive(PerformAll(t, steps).alerts) && KeysUnique(PerformAll(t, steps).alerts)
  {
    if steps != [] {
      hide OneLive, KeysUnique, Performed;
      RunKeepsAlerts(t, steps[..|steps|-1]);
      StepKeepsAlerts(PerformAll(t, steps[..|steps|-1]), steps[|steps|-1]);
    }
  }

  /** After its actions have been applied, everything an event asks for is so. */
  lemma {:induction false} AllSettled(t: Tables, actions: seq<Action>, now: int)
    requires OneLive(t.alerts) && KeysUnique(t.alerts) && AllApart(actions)
    ensures forall k | 0 <= k < |actions| :: Settled(PerformAll(t, Steps(actions, now)), actions[k])
  {
    if actions != [] {
      var n := |actions| - 1;
      var steps := Steps(actions[..n], now);
      var t1 := PerformAll(t, steps);
      AllSettled(t, actions[..n], now);
      RunKeepsAlerts(t, steps);
      assert Steps(actions, now) == steps + [Apply(actions[n], now)];
      assert Steps(actions, now)[..n] == steps;
      hide Settled, OneLive, KeysUnique, Applied;
      JustSettled(t1, actions[n], now);
      forall k | 0 <= k < n ensures Settled(Applied(t1, actions[n], now), actions[k]) {
        assert actions[..n][k] == actions[k];
        StaysSettled(t1, actions[k], actions[n], now);
      }
    }
  }

  predicate Passes(t: Tables, a: Action, now: int) {
    a.Trigger? && Allowed(t.alerts, a, now)
  }

  ghost predicate SettledList(t: Tables, actions: seq<Action>) {
    forall k | 0 <= k < |actions| :: Settled(t, actions[k])
  }

  ghost predicate NonePasses(t: Tables, actions: seq<Action>, now: int) {
    forall k | 0 <= k < |actions| :: !Passes(t, actions[k], now)
  }

  lemma SettledIsQuiet(t: Tables, a: Action, now: int)
    requires Settled(t, a)
    ensures Applied(t, a, now) == if Passes(t, a, now) then t.(alerts := t.alerts + [NewAlert(a, now)]) else t
  {
    hide Allowed;
  }

  /** Settled actions change nothing unless a trigger passes. */
  lemma {:induction false} SettledListIsQuiet(t: Tables, actions: seq<Action>, now: int)
    requires SettledList(t, actions)
    ensures NonePasses(t, actions, now) ==> PerformAll(t, Steps(actions, now)) == t
    ensures !NonePasses(t, actions, now) ==> |PerformAll(t, Steps(actions, now)).alerts| > |t.alerts|
  {
    if actions != [] {
      var n := |actions| - 1;
      var steps := Steps(actions[..n], now);
      assert Steps(actions, now)[..n] == steps;
      assert Steps(actions, now) == steps + [Apply(actions[n], now)];
      SettledListIsQuiet(t, actions[..n], now);
      SettledIsQuiet(t, actions[n], now);
      StepEvolves(PerformAll(t, steps), Apply(actions[n], now));
      hide Settled, Passes, Applied;
      if k :| 0 <= k < |actions| && Passes(t, actions[k], now) {
        if k < n { assert Passes(t, actions[..n][k], now); }
      }
    }
  }

  lemma VerdictApart(rule: Rule, e: SourceEvent, active: bool)
    ensures AllApart(Evaluate(rule, e, active))
  {
  }

  lemma {:induction false} ActionsApart(rules: seq<Rule>, e: SourceEvent, active: (Rule, int) -> bool, now: int)
    requires DistinctRules(rules)
    ensures AllApart(Actions(rules, e, active, now))
  {
    if rules != [] {
      var n := |rules| - 1;
      var before, more := Actions(rules[..n], e, active, now), RuleActions(rules[n], e, active, now);
      ActionsApart(rules[..n], e, active, now);
      VerdictApart(rules[n], e, active(rules[n], now));
      forall a, b | a in before && b in more ensures a.ruleId != b.ruleId {
        var r := AlertDue.ActionHasRule(rules[..n], e, active, now, a);
        OneVerdict(rules[r], e, active(rules[r], now));
        OneVerdict(rules[n], e, active(rules[n], now));
      }
      hide Evaluate, RuleActions;
      assert Actions(rules, e, active, now) == before + more;
    }
  }

  /** With no rule newly active, a second evaluation asks for nothing the first did not. */
  lemma {:induction false} FewerActions(rules: seq<Rule>, e: SourceEvent, active: (Rule, int) -> bool,
                                        now: int, later: int)
    requires forall r | r in rules && active(r, later) :: active(r, now)
    ensures forall a | a in Actions(rules, e, active, later) :: a in Actions(rules, e, active, now)
  {
    if rules != [] {
      var rule := rules[|rules|-1];
      assert forall r | r in rules[..|rules|-1] :: r in rules;
      FewerActions(rules[..|rules|-1], e, active, now, later);
      OneVerdict(rule, e, active(rule, later));
      hide Evaluate;
    }
  }

  lemma AgainIsSettled(t: Tables, rules: seq<Rule>, e: SourceEvent, active: (Rule, int) -> bool,
                       now: int, later: int)
    requires OneLive(t.alerts) && KeysUnique(t.alerts) && DistinctRules(rules)
    requires forall r | r in rules && active(r, later) :: active(r, now)
    ensures var once := PerformAll(t, Steps(Actions(rules, e, active, now), now));
            var again := Actions(rules, e, active, later);
            SettledList(once, again) && forall a | a in again :: a in Actions(rules, e, active, now)
  {
    var first, again := Actions(rules, e, active, now), Actions(rules, e, active, later);
    ActionsApart(rules, e, active, now);
    AllSettled(t, first, now);
    FewerActions(rules, e, active, now, later);
    hide Actions, Settled, AllApart, OneLive, KeysUnique, PerformAll;
    forall k | 0 <= k < |again| ensures Settled(PerformAll(t, Steps(first, now)), again[k]) {
      assert again[k] in first;
    }
  }

  lemma PassingIsNew(t: Tables, a: Action, now: int)
    requires Passes(t, a, now)
    ensures forall i | 0 <= i < |t.alerts| :: t.alerts[i].key != a.key
  {
  }

  /** Evaluating a source event, for the first time or again, at any time and on any tables a run can
      reach, changes nothing if and only if all it asks for is so already and no trigger of it passes. */
  lemma EvaluationIsQuiet(t: Tables, rules: seq<Rule>, e: SourceEvent, active: (Rule, int) -> bool, now: int)
    requires OneLive(t.alerts) && KeysUnique(t.alerts) && DistinctRules(rules) && IsSourceType(e.eventType)
    ensures var actions := Actions(rules, e, active, now);
            (PerformAll(t, EventPlan(rules, e, active, now)) == t) <==>
            (SettledList(t, actions) && NonePasses(t, actions, now))
  {
    hide Actions, NonePasses, Settled, AllApart, DistinctRules, OneLive, KeysUnique, PerformAll, IsSourceType;
    var actions := Actions(rules, e, active, now);
    ActionsApart(rules, e, active, now);
    AllSettled(t, actions, now);
    if SettledList(t, actions) { SettledListIsQuiet(t, actions, now); }
  }

  /** Repeated with no rule newly active, on the tables the first evaluation left, everything but its
      triggers is so already: the repeat changes nothing if and only if no trigger passes. Whatever
      passes was asked for the first time too and did not alert: the cooldown or a live alert had held
      it back. */
  lemma ReevaluationIsQuiet(t: Tables, rules: seq<Rule>, e: SourceEvent, active: (Rule, int) -> bool,
                            now: int, later: int)
    requires OneLive(t.alerts) && KeysUnique(t.alerts) && DistinctRules(rules) && IsSourceType(e.eventType)
    requires forall r | r in rules && active(r, later) :: active(r, now)
    ensures var once := PerformAll(t, EventPlan(rules, e, active, now));
            var again := Actions(rules, e, active, later);
            && (PerformAll(once, EventPlan(rules, e, active, later)) == once <==> NonePasses(once, again, later))
            && (forall a | a in again && Passes(once, a, later) ::
                  && a in Actions(rules, e, active, now)
                  && forall i | 0 <= i < |once.alerts| :: once.alerts[i].key != a.key)
  {
    var first, again := Actions(rules, e, active, now), Actions(rules, e, active, later);
    var once := PerformAll(t, Steps(first, now));
    AgainIsSettled(t, rules, e, active, now, later);
    hide Actions, SettledList, NonePasses, DistinctRules, OneLive, KeysUnique, PerformAll, Allowed, IsSourceType;
    SettledListIsQuiet(once, again, later);
    forall a | a in again && Passes(once, a, later)
      ensures forall i | 0 <= i < |once.alerts| :: once.alerts[i].key != a.key
    {
      PassingIsNew(once, a, later);
    }
  }
}
