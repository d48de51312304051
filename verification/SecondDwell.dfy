/** A concrete run of the alert service: a second sustained condition of one subject never alerts. */
module SecondDwell {
  import opened Options
  import opened AlertRules
  import opened AlertTables
  import opened AlertEvaluation
  import opened AlertRuns
  import AlertDue

  /** Entity 7 enters zone 3 and stays beyond a ten-second dwell, leaves, and does so again: enter, due
      pass, exit, enter, due pass. */
  function DwellRule(): Rule {
    Rule(1, DwellThreshold, true, 0, Filters({}, {}, {}, {}), None, None, Some(10))
  }

  function Crossing(id: string, eventType: string, seconds: int): SourceEvent {
    SourceEvent(id, eventType, seconds * SECOND, 7, "person", None, Zone(3, true), None)
  }

  function Always(): (Rule, int) -> bool {
    (rule, now) => true
  }

  function Inside(): Sessions {
    Some({(3, 7)})
  }

  function TwoDwells(): seq<Op> {
    [ByEvent([DwellRule()], Crossing("in-1", "zone_entered", 0), 0),
     ByDuePass([DwellRule()], Inside(), 10 * SECOND, 100, [0]),
     ByEvent([DwellRule()], Crossing("out-1", "zone_exited", 20), 20 * SECOND),
     ByEvent([DwellRule()], Crossing("in-2", "zone_entered", 100), 100 * SECOND),
     ByDuePass([DwellRule()], Inside(), 110 * SECOND, 100, [0])]
  }

  function Row(eventId: string, at: int, kind: Kind, alertId: Option<nat>): State {
    State(1, OfZone(3, 7), Origin(7, Some(3), eventId), at * SECOND, (at + 10) * SECOND, kind, alertId)
  }

  function DwellAlert(): Alert {
    Alert(1, OfZone(3, 7), ForDue(1, 0), Origin(7, Some(3), "in-1"), Open, 10 * SECOND, None, None,
          10 * SECOND, Some(10 * SECOND))
  }

  lemma OneEvent(t: Tables, e: SourceEvent, now: int)
    requires IsSourceType(e.eventType)
    ensures Plan(t, ByEvent([DwellRule()], e, now), Always()) == Steps(EvaluateDwell(DwellRule(), e, true), now)
  {
    var rules := [DwellRule()];
    assert rules[..0] == [] && Actions([], e, Always(), now) == [];
    assert Actions(rules, e, Always(), now) == [] + EvaluateDwell(DwellRule(), e, true);
  }

  lemma OneDueRow(t: Tables, now: int)
    requires |t.states| == 1 && IsDue(t.states, 0, now)
    ensures var op := ByDuePass([DwellRule()], Inside(), now, 100, [0]);
            Possible(t, op) && Plan(t, op, Always()) == DueSteps(t.states[0], 0, [DwellRule()], Inside(), now)
  {
    assert DueIds(t.states, now) == {0};
    assert multiset([0]) == multiset({0});
    assert [0][..0] == [];
    assert DuePlan(t.states, [0][..0], [DwellRule()], Inside(), now) == [];
  }

  lemma FiresRow(s: State, now: int)
    requires s.ruleId == 1 && s.origin.entity == 7 && s.origin.zone == Some(3)
    ensures DueSteps(s, 0, [DwellRule()], Inside(), now) == [Fire(DueTrigger(s, 0, DwellRule()), now, 0)]
  {
  }

  lemma FirstEnter()
    ensures PerformAll(Tables([], []), Plan(Tables([], []), TwoDwells()[0], Always()))
         == Tables([], [Row("in-1", 0, Pending, None)])
  {
    var e := Crossing("in-1", "zone_entered", 0);
    OneEvent(Tables([], []), e, 0);
    var a := Schedule(1, OfZone(3, 7), Origin(7, Some(3), "in-1"), 0, 10 * SECOND);
    assert EvaluateDwell(DwellRule(), e, true) == [a];
    assert Steps([a], 0) == [Apply(a, 0)];
    PerformOne(Tables([], []), Apply(a, 0));
  }

  lemma FirstDuePass()
    ensures var t := Tables([], [Row("in-1", 0, Pending, None)]);
            && Possible(t, TwoDwells()[1])
            && PerformAll(t, Plan(t, TwoDwells()[1], Always()))
                 == Tables([DwellAlert()], [Row("in-1", 0, Triggered, Some(0))])
  {
    var t := Tables([], [Row("in-1", 0, Pending, None)]);
    OneDueRow(t, 10 * SECOND);
    FiresRow(t.states[0], 10 * SECOND);
    FirstFires();
    hide *;
    PerformOne(t, Fire(DueTrigger(t.states[0], 0, DwellRule()), 10 * SECOND, 0));
  }

  lemma FirstFires()
    ensures var t := Tables([], [Row("in-1", 0, Pending, None)]);
            Performed(t, Fire(DueTrigger(t.states[0], 0, DwellRule()), 10 * SECOND, 0))
              == Tables([DwellAlert()], [Row("in-1", 0, Triggered, Some(0))])
  {
  }

  lemma Leaving()
    ensures var t := Tables([DwellAlert()], [Row("in-1", 0, Triggered, Some(0))]);
            PerformAll(t, Plan(t, TwoDwells()[2], Always()))
              == Tables([ResolvedAlert(DwellAlert(), 20 * SECOND)], [Row("in-1", 0, Cleared, Some(0))])
  {
    var t := Tables([DwellAlert()], [Row("in-1", 0, Triggered, Some(0))]);
    var e := Crossing("out-1", "zone_exited", 20);
    OneEvent(t, e, 20 * SECOND);
    var c, r := ClearPending(1, OfZone(3, 7)), ResolveSubject(1, OfZone(3, 7));
    assert EvaluateDwell(DwellRule(), e, true) == [c, r];
    assert Steps([c, r], 20 * SECOND) == [Apply(c, 20 * SECOND), Apply(r, 20 * SECOND)];
    PerformTwo(t, Apply(c, 20 * SECOND), Apply(r, 20 * SECOND));
  }

  /** The tables before the second due pass. */
  function Returned(): Tables {
    Tables([ResolvedAlert(DwellAlert(), 20 * SECOND)], [Row("in-2", 100, Pending, Some(0))])
  }

  lemma SecondEnter()
    ensures var t := Tables([ResolvedAlert(DwellAlert(), 20 * SECOND)], [Row("in-1", 0, Cleared, Some(0))]);
            PerformAll(t, Plan(t, TwoDwells()[3], Always())) == Returned()
  {
    var t := Tables([ResolvedAlert(DwellAlert(), 20 * SECOND)], [Row("in-1", 0, Cleared, Some(0))]);
    var e := Crossing("in-2", "zone_entered", 100);
    OneEvent(t, e, 100 * SECOND);
    var a := Schedule(1, OfZone(3, 7), Origin(7, Some(3), "in-2"), 100 * SECOND, 110 * SECOND);
    assert EvaluateDwell(DwellRule(), e, true) == [a];
    assert Steps([a], 100 * SECOND) == [Apply(a, 100 * SECOND)];
    PerformOne(t, Apply(a, 100 * SECOND));
  }

  lemma SecondDuePass()
    ensures Possible(Returned(), TwoDwells()[4])
    ensures PerformAll(Returned(), Plan(Returned(), TwoDwells()[4], Always())) == Returned()
  {
    var t := Returned();
    OneDueRow(t, 110 * SECOND);
    FiresRow(t.states[0], 110 * SECOND);
    hide Possible, Plan, DueSteps;
    PerformOne(t, Fire(DueTrigger(t.states[0], 0, DwellRule()), 110 * SECOND, 0));
  }

  /** The tables after `i` calls. */
  function Stage(i: nat): Tables {
    if i == 0 then Tables([], [])
    else if i == 1 then Tables([], [Row("in-1", 0, Pending, None)])
    else if i == 2 then Tables([DwellAlert()], [Row("in-1", 0, Triggered, Some(0))])
    else if i == 3 then Tables([ResolvedAlert(DwellAlert(), 20 * SECOND)], [Row("in-1", 0, Cleared, Some(0))])
    else Returned()
  }

  lemma StageStep(i: nat)
    requires i < 5
    ensures Possible(Stage(i), TwoDwells()[i])
    ensures PerformAll(Stage(i), Plan(Stage(i), TwoDwells()[i], Always())) == Stage(i + 1)
  {
    FirstEnter();
    FirstDuePass();
    Leaving();
    SecondEnter();
    SecondDuePass();
    hide PerformAll, Plan;
  }

  lemma {:induction false} Reaches(i: nat)
    requires i <= 5
    ensures After(Log(TwoDwells()[..i], Always())) == Stage(i)
  {
    var ops := TwoDwells();
    assert |ops| == 5 && ops[..0] == [];
    if i == 0 {
      AlertDue.LogSnoc([], Always());
      hide Log;
    } else {
      hide *;
      assert ops[..i][..i-1] == ops[..i-1] && ops[..i][i-1] == ops[i-1];
      var before := Log(ops[..i-1], Always());
      var plan := Plan(After(before), ops[i-1], Always());
      AlertDue.LogSnoc(ops[..i], Always());
      Reaches(i - 1);
      StageStep(i - 1);
      AfterConcat(before, plan);
    }
  }

  lemma AfterConcat(before: seq<Step>, plan: seq<Step>)
    ensures After(before + plan) == PerformAll(After(before), plan)
  {
    PerformConcat(Tables([], []), before, plan);
  }

  lemma ReturnedIsDue()
    ensures IsDue(Returned().states, 0, 110 * SECOND) && Stands(Returned().states[0], [DwellRule()], Inside())
    ensures OpenFor(Returned().alerts, 1, OfZone(3, 7)).None? && |Returned().alerts| == 1
  {
  }

  /** The second dwell is due, stands, has no live alert and no cooldown, and still never alerts. */
  lemma SecondDwellNeverAlerts()
    ensures AllPossible(TwoDwells(), Always())
    ensures After(Log(TwoDwells()[..4], Always())) == Returned() == After(Log(TwoDwells(), Always()))
    ensures IsDue(Returned().states, 0, 110 * SECOND) && Stands(Returned().states[0], [DwellRule()], Inside())
    ensures OpenFor(Returned().alerts, 1, OfZone(3, 7)).None? && |Returned().alerts| == 1
  {
    ReturnedIsDue();
    var ops := TwoDwells();
    assert |ops| == 5 && ops[..5] == ops;
    assert Stage(4) == Returned() && Stage(5) == Returned();
    hide After, Log, Possible, Plan, PerformAll, TwoDwells, Returned, Stage, IsDue, Stands, OpenFor;
    Reaches(4);
    Reaches(5);
    forall i | 0 <= i < 5 ensures Possible(After(Log(ops[..i], Always())), ops[i]) {
      Reaches(i);
      StageStep(i);
    }
  }
}
