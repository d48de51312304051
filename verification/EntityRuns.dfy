/** Runs of entity memory: replays collapse, closed rows are final, aggregates stay exact. */
module EntityRuns {
  import opened Options
  import opened EntityTables
  import opened EntityMemory

  ghost function Run(cfg: Config, events: seq<VisionEvent>): Store {
    if events == [] then Store([], [], [], map[])
    else Process(cfg, Run(cfg, events[..|events|-1]), events[|events|-1])
  }

  // ---- replays ----

  /** What one unseen, well-formed event does to the observation table: exactly one row. */
  lemma ProcessRecords(cfg: Config, s: Store, e: VisionEvent)
    requires WellFormed(e) && !Has(s.observations, e.id)
    ensures exists entity: nat ::
      entity < |Process(cfg, s, e).entities|
      && Process(cfg, s, e).observations == s.observations + [ObservationOf(e, entity)]
  {
    hide Observed, WritesSnapshot, LastSnapshotAfter;
    var active, latest := Latest(s.entities, e.key, true), Latest(s.entities, e.key, false);
    var entity := if active.Some? then active.value
                  else if e.kind != Entered && latest.Some? && s.entities[latest.value].status == Closed
                  then latest.value
                  else |s.entities|;
    assert Process(cfg, s, e).observations == s.observations + [ObservationOf(e, entity)];
  }

  /** Replaying an event is a no-op: a named one is skipped, one with the empty id is rolled back. */
  lemma ReplayIsNoOp(cfg: Config, s: Store, e: VisionEvent)
    requires !e.id.Blank?
    ensures Process(cfg, Process(cfg, s, e), e) == Process(cfg, s, e)
  {
    if !Dropped(s, e) {
      ProcessRecords(cfg, s, e);
      var after := Process(cfg, s, e);
      assert after.observations[|s.observations|].source == e.id;
    }
  }

  /** For an entry the converse holds too: a non-empty id of nothing but whitespace is counted again. */
  lemma EntryReplaysUnlessBlank(cfg: Config, s: Store, e: VisionEvent)
    requires e.kind == Entered && WellFormed(e)
    ensures Process(cfg, Process(cfg, s, e), e) == Process(cfg, s, e) <==> !e.id.Blank?
  {
    if !e.id.Blank? {
      ReplayIsNoOp(cfg, s, e);
    } else {
      hide WritesSnapshot, LastSnapshotAfter;
      var once := Process(cfg, s, e);
      var twice := Process(cfg, once, e);
      var id := Latest(once.entities, e.key, true);
      BlankEntryLeavesActive(cfg, s, e);
      assert twice.entities[id.value].timesSeen == once.entities[id.value].timesSeen + 1;
    }
  }

  lemma BlankEntryLeavesActive(cfg: Config, s: Store, e: VisionEvent)
    requires e.kind == Entered && WellFormed(e) && e.id.Blank?
    ensures Latest(Process(cfg, s, e).entities, e.key, true).Some?
  {
    hide WritesSnapshot, LastSnapshotAfter;
    var before := Latest(s.entities, e.key, true);
    var i := if before.Some? then before.value else |s.entities|;
    assert Process(cfg, s, e).entities[i].key == e.key && Process(cfg, s, e).entities[i].status == Active;
  }

  /** One entry with a blank id, delivered twice to an empty store: counted twice, recorded once. */
  lemma BlankEntryCountsTwice(cfg: Config)
    ensures var e := VisionEvent(Blank(0), Entered, 0, 0, 1.0, 0, true);
            var s := Run(cfg, [e, e]);
            |s.entities| == 1 && s.entities[0].timesSeen == 2 && |s.observations| == 1
  {
    var e := VisionEvent(Blank(0), Entered, 0, 0, 1.0, 0, true);
    var none, once := Run(cfg, []), Run(cfg, [e]);
    ProcessLands(cfg, none, e);
    assert [e][..0] == [] && [e, e][..1] == [e];
    assert once == Process(cfg, none, e);
    assert once.entities == [NewEntity(0, 0, 1.0, 0)] && once.observations == [ObservationOf(e, 0)];
    hide Run, Process;
    assert Latest(once.entities, 0, true) == Some(0);
    ProcessLands(cfg, once, e);
    assert once.observations[0].source == e.id;
    assert Run(cfg, [e, e]) == Process(cfg, once, e) by { RunSnoc(cfg, [e], e); }
  }

  /** An event of the list, not malformed, has the id. */
  ghost predicate Seen(events: seq<VisionEvent>, id: EventId) {
    exists i | 0 <= i < |events| :: WellFormed(events[i]) && events[i].id == id
  }

  /** The list without its malformed events and all but the first of each id. */
  ghost function FirstOccurrences(events: seq<VisionEvent>): seq<VisionEvent> {
    if events == [] then []
    else
      var init, e := events[..|events|-1], events[|events|-1];
      if !WellFormed(e) || Seen(init, e.id) then FirstOccurrences(init) else FirstOccurrences(init) + [e]
  }

  ghost function Sources(observations: seq<Observation>): seq<EventId> {
    seq(|observations|, i requires 0 <= i < |observations| => observations[i].source)
  }

  ghost function EventIds(events: seq<VisionEvent>): seq<EventId> {
    seq(|events|, i requires 0 <= i < |events| => events[i].id)
  }

  /** The run is that of the first occurrences, one observation for each. */
  ghost predicate Collapses(cfg: Config, events: seq<VisionEvent>) {
    && Run(cfg, events) == Run(cfg, FirstOccurrences(events))
    && Sources(Run(cfg, events).observations) == EventIds(FirstOccurrences(events))
    && forall id :: Has(Run(cfg, events).observations, id) <==> Seen(events, id)
  }

  /** A list with repeated event ids leaves the same entities, observations and snapshots as its
      first occurrences, with one observation per distinct event id, in order. */
  lemma {:induction false} ReplaysCollapse(cfg: Config, events: seq<VisionEvent>)
    requires forall i | 0 <= i < |events| :: !events[i].id.Blank?
    ensures Collapses(cfg, events)
  {
    if events != [] {
      var init, e := events[..|events|-1], events[|events|-1];
      assert events == init + [e];
      ReplaysCollapse(cfg, init);
      hide Collapses, Seen;
      if !WellFormed(e) || Seen(init, e.id) { RepeatCollapses(cfg, init, e); } else { NewCollapses(cfg, init, e); }
    }
  }

  lemma RepeatCollapses(cfg: Config, init: seq<VisionEvent>, e: VisionEvent)
    requires Collapses(cfg, init) && !e.id.Blank? && (!WellFormed(e) || Seen(init, e.id))
    ensures Collapses(cfg, init + [e])
  {
    hide Run, Has, Sources, EventIds, WellFormed, Process;
    RunSnoc(cfg, init, e);
    DroppedStays(cfg, Run(cfg, init), e);
    SeenSnoc(init, e);
    FirstSnoc(init, e);
  }

  lemma NewCollapses(cfg: Config, init: seq<VisionEvent>, e: VisionEvent)
    requires Collapses(cfg, init) && WellFormed(e) && !Seen(init, e.id)
    ensures Collapses(cfg, init + [e])
  {
    var s := Run(cfg, init);
    ProcessRecords(cfg, s, e);
    hide Run, Has, Sources, EventIds, WellFormed, Process;
    RunSnoc(cfg, init, e);
    RunSnoc(cfg, FirstOccurrences(init), e);
    HasAppend(s.observations, Process(cfg, s, e).observations, e);
    SeenSnoc(init, e);
    FirstSnoc(init, e);
  }

  lemma SeenSnoc(init: seq<VisionEvent>, e: VisionEvent)
    ensures forall id :: Seen(init + [e], id) <==> Seen(init, id) || (WellFormed(e) && id == e.id)
  {
    hide WellFormed;
    var events := init + [e];
    assert events[|init|] == e;
    forall id | Seen(init, id) ensures Seen(events, id) {
      var i :| 0 <= i < |init| && WellFormed(init[i]) && init[i].id == id;
      assert events[i] == init[i];
    }
  }

  lemma FirstSnoc(init: seq<VisionEvent>, e: VisionEvent)
    ensures FirstOccurrences(init + [e])
         == FirstOccurrences(init) + if !WellFormed(e) || Seen(init, e.id) then [] else [e]
  {
    assert (init + [e])[..|init|] == init;
  }

  lemma RunSnoc(cfg: Config, events: seq<VisionEvent>, e: VisionEvent)
    ensures Run(cfg, events + [e]) == Process(cfg, Run(cfg, events), e)
    ensures EventIds(events + [e]) == EventIds(events) + [e.id]
  {
  }

  lemma DroppedStays(cfg: Config, s: Store, e: VisionEvent)
    requires !e.id.Blank? && (Has(s.observations, e.id) || !WellFormed(e))
    ensures Process(cfg, s, e) == s
  {
  }

  lemma HasAppend(before: seq<Observation>, after: seq<Observation>, e: VisionEvent)
    requires exists entity: nat :: after == before + [ObservationOf(e, entity)]
    ensures Sources(after) == Sources(before) + [e.id]
    ensures forall id :: Has(after, id) <==> Has(before, id) || id == e.id
  {
    assert after[|before|].source == e.id;
    forall id | Has(before, id) ensures Has(after, id) {
      var i :| 0 <= i < |before| && before[i].source == id;
      assert after[i].source == id;
    }
  }

  // ---- where an event lands ----

  /** The entity an event is counted on: none for a dropped or a late event. */
  function LandedOn(s: Store, e: VisionEvent): Option<nat> {
    if Dropped(s, e) then None
    else
      var active, latest := Latest(s.entities, e.key, true), Latest(s.entities, e.key, false);
      if active.Some? then active
      else if e.kind != Entered && latest.Some? then None
      else Some(|s.entities|)
  }

  /** The closed entity a late event is recorded against. */
  function LateOn(s: Store, e: VisionEvent): Option<nat> {
    if Dropped(s, e) then None
    else if Latest(s.entities, e.key, true).None? && e.kind != Entered then Latest(s.entities, e.key, false)
    else None
  }

  /** The row a counted observation leaves behind. */
  function Counted(s: Store, id: nat, e: VisionEvent): Entity {
    var row := if id < |s.entities| then Observed(s.entities[id], e.labelId, e.confidence, e.at)
               else NewEntity(e.key, e.labelId, e.confidence, e.at);
    if e.kind == Exited then ClosedAt(row, e.at) else row
  }

  /** The event is counted against an active or new row, and recorded. */
  ghost predicate Lands(s: Store, s': Store, e: VisionEvent, id: nat) {
    && id <= |s.entities|
    && (id < |s.entities| ==> s.entities[id].key == e.key && s.entities[id].status == Active)
    && (id == |s.entities| ==> Latest(s.entities, e.key, true).None?)
    && s'.entities == (if id < |s.entities| then s.entities[id := Counted(s, id, e)]
                       else s.entities + [Counted(s, id, e)])
    && s'.observations == Appended(s.observations, ObservationOf(e, id))
  }

  lemma FinalisedLands(cfg: Config, s: Store, s1: Store, id: nat, e: VisionEvent, created: bool)
    requires if id < |s.entities| then Latest(s.entities, e.key, true) == Some(id) && s1 == Apply(s, id, e)
             else id == |s.entities| && Latest(s.entities, e.key, true).None? && s1 == Create(s, e)
    ensures Lands(s, Finalised(cfg, s1, id, e, created, e.kind == Exited), e, id)
  {
    hide Latest, WritesSnapshot, LastSnapshotAfter, Appended;
    if id == |s.entities| {
      assert s1.entities[id := ClosedAt(s1.entities[id], e.at)] == s.entities + [ClosedAt(s1.entities[id], e.at)];
    }
  }

  lemma ProcessLands(cfg: Config, s: Store, e: VisionEvent)
    ensures var s' := Process(cfg, s, e);
            match LandedOn(s, e)
            case Some(id) => Lands(s, s', e, id)
            case None =>
              && s'.entities == s.entities
              && match LateOn(s, e)
                 case None => s'.observations == s.observations
                 case Some(late) =>
                   && late < |s.entities| && s.entities[late].status == Closed
                   && s'.observations == Appended(s.observations, ObservationOf(e, late))
  {
    hide Finalised, Apply, Create, Lands, Appended;
    var active := Latest(s.entities, e.key, true);
    if active.Some? {
      FinalisedLands(cfg, s, Apply(s, active.value, e), active.value, e, false);
    } else {
      FinalisedLands(cfg, s, Create(s, e), |s.entities|, e, e.kind != Exited);
    }
  }

  /** The UNIQUE column holds on every run, whatever the ids. */
  lemma {:induction false} SourcesAreUnique(cfg: Config, events: seq<VisionEvent>, i: nat, j: nat)
    requires i < j < |Run(cfg, events).observations|
    ensures Run(cfg, events).observations[i].source != Run(cfg, events).observations[j].source
  {
    hide Process, LandedOn, LateOn, Counted;
    var init, e := events[..|events|-1], events[|events|-1];
    var before := Run(cfg, init);
    ProcessLands(cfg, before, e);
    if j < |before.observations| {
      SourcesAreUnique(cfg, init, i, j);
    }
  }

  // ---- aggregates ----

  /** How many observations an entity has been given, their confidences, and whether it has exited. */
  datatype Tally = Tally(count: nat, sum: real, exited: bool)

  const NOTHING := Tally(0, 0.0, false)

  function Plus(t: Tally, confidence: real, kind: Kind): Tally {
    Tally(t.count + 1, t.sum + confidence, kind == Exited)
  }

  /** The events of the run that were counted on the entity. */
  ghost function CountedOn(cfg: Config, events: seq<VisionEvent>, id: nat): Tally {
    if events == [] then NOTHING
    else
      var t, e := CountedOn(cfg, events[..|events|-1], id), events[|events|-1];
      if LandedOn(Run(cfg, events[..|events|-1]), e) == Some(id) then Plus(t, e.confidence, e.kind) else t
  }

  /** The row's counters are its tally, and it is closed just when the tally has exited. */
  predicate Exact(e: Entity, t: Tally) {
    && e.timesSeen == t.count && e.timesSeen >= 1
    && e.average * e.timesSeen as real == t.sum
    && (e.status == Closed <==> t.exited)
  }

  ghost predicate OneActive(entities: seq<Entity>) {
    forall i, j | 0 <= i < j < |entities| && entities[i].key == entities[j].key ::
      entities[i].status == Closed || entities[j].status == Closed
  }

  ghost predicate AllExact(cfg: Config, events: seq<VisionEvent>) {
    var entities := Run(cfg, events).entities;
    forall id: nat ::
      if id < |entities| then Exact(entities[id], CountedOn(cfg, events, id)) else CountedOn(cfg, events, id) == NOTHING
  }

  lemma MeanIsExact(average: real, times: nat, value: real)
    ensures RunningMean(average, times, value) * (times + 1) as real == average * times as real + value
  {
  }

  /** One more counted observation. */
  lemma CountedExact(s: Store, id: nat, e: VisionEvent, t: Tally)
    requires id <= |s.entities|
    requires if id < |s.entities| then Exact(s.entities[id], t) && !t.exited else t == NOTHING
    ensures Exact(Counted(s, id, e), Plus(t, e.confidence, e.kind))
  {
    hide RunningMean;
    if id < |s.entities| { MeanIsExact(s.entities[id].average, s.entities[id].timesSeen, e.confidence); }
  }

  lemma LandingKeepsOneActive(s: Store, s': Store, e: VisionEvent, id: nat)
    requires OneActive(s.entities) && Lands(s, s', e, id)
    ensures OneActive(s'.entities)
  {
    hide RunningMean, Appended;
    if id == |s.entities| {
      forall i | 0 <= i < |s.entities| && s.entities[i].key == e.key ensures s.entities[i].status == Closed {
        assert Matches(s.entities[i], e.key, true) <==> s.entities[i].status == Active;
      }
    }
  }

  lemma CountedStep(cfg: Config, events: seq<VisionEvent>, e: VisionEvent)
    ensures Run(cfg, events + [e]) == Process(cfg, Run(cfg, events), e)
    ensures forall id: nat | LandedOn(Run(cfg, events), e) == Some(id) ::
              CountedOn(cfg, events + [e], id) == Plus(CountedOn(cfg, events, id), e.confidence, e.kind)
    ensures forall id: nat | LandedOn(Run(cfg, events), e) != Some(id) ::
              CountedOn(cfg, events + [e], id) == CountedOn(cfg, events, id)
  {
    assert (events + [e])[..|events|] == events;
  }

  lemma StepExact(cfg: Config, events: seq<VisionEvent>, e: VisionEvent)
    requires AllExact(cfg, events) && OneActive(Run(cfg, events).entities)
    ensures AllExact(cfg, events + [e]) && OneActive(Run(cfg, events + [e]).entities)
  {
    var s, s' := Run(cfg, events), Run(cfg, events + [e]);
    CountedStep(cfg, events, e);
    ProcessLands(cfg, s, e);
    hide Process, Run, CountedOn, LandedOn, LateOn, Appended, OneActive, Counted, Exact;
    if LandedOn(s, e).Some? {
      var id := LandedOn(s, e).value;
      LandingKeepsOneActive(s, s', e, id);
      if id < |s.entities| { ActiveHasNotExited(s.entities[id], CountedOn(cfg, events, id)); }
      CountedExact(s, id, e, CountedOn(cfg, events, id));
    }
  }

  lemma ActiveHasNotExited(e: Entity, t: Tally)
    requires Exact(e, t) && e.status == Active
    ensures !t.exited
  {
  }

  /** On every run each key has at most one ACTIVE row, and for each row `times_seen *
      average_confidence` is the sum of the confidences counted on it, none after it closed. */
  lemma {:induction false} AggregatesAreExact(cfg: Config, events: seq<VisionEvent>)
    ensures AllExact(cfg, events) && OneActive(Run(cfg, events).entities)
  {
    if events != [] {
      var n := |events| - 1;
      assert events == events[..n] + [events[n]];
      AggregatesAreExact(cfg, events[..n]);
      hide AllExact, OneActive, Run;
      StepExact(cfg, events[..n], events[n]);
    }
  }

  lemma {:induction false} CountedIsFraction(cfg: Config, events: seq<VisionEvent>, id: nat)
    ensures var t := CountedOn(cfg, events, id); 0.0 <= t.sum <= t.count as real
  {
    if events != [] { CountedIsFraction(cfg, events[..|events|-1], id); }
  }

  /** The stored mean is a mean: it stays in [0, 1]. */
  lemma MeanStaysInRange(cfg: Config, events: seq<VisionEvent>, id: nat)
    requires id < |Run(cfg, events).entities|
    ensures 0.0 <= Run(cfg, events).entities[id].average <= 1.0
  {
    AggregatesAreExact(cfg, events);
    CountedIsFraction(cfg, events, id);
    hide Run, CountedOn, Exact, OneActive;
    ExactIsFraction(Run(cfg, events).entities[id], CountedOn(cfg, events, id));
  }

  lemma ExactIsFraction(e: Entity, t: Tally)
    requires Exact(e, t) && 0.0 <= t.sum <= t.count as real
    ensures 0.0 <= e.average <= 1.0
  {
    RatioInRange(e.average, e.timesSeen as real);
  }

  lemma RatioInRange(average: real, n: real)
    requires n >= 1.0 && 0.0 <= average * n <= n
    ensures 0.0 <= average <= 1.0
  {
  }

  /** A closed row is final: no later event, late or replayed, changes anything in it. */
  lemma {:induction false} ClosedIsFinal(cfg: Config, events: seq<VisionEvent>, more: seq<VisionEvent>, id: nat)
    requires id < |Run(cfg, events).entities| && Run(cfg, events).entities[id].status == Closed
    ensures id < |Run(cfg, events + more).entities|
    ensures Run(cfg, events + more).entities[id] == Run(cfg, events).entities[id]
  {
    if more == [] {
      assert events + more == events;
    } else {
      hide Process, LandedOn, LateOn, Appended, Counted;
      var n := |more| - 1;
      assert events + more == events + more[..n] + [more[n]];
      ClosedIsFinal(cfg, events, more[..n], id);
      CountedStep(cfg, events + more[..n], more[n]);
      hide Run;
      ProcessLands(cfg, Run(cfg, events + more[..n]), more[n]);
    }
  }

  // ---- ties ----

  /** The queries' ties do not matter to the rows: the active row is the only answer, and the other
      query is only consulted when every answer is a closed row, to record a late observation on. */
  lemma TiesAreClosed(cfg: Config, events: seq<VisionEvent>, key: nat, i: nat)
    requires i < |Run(cfg, events).entities| && Run(cfg, events).entities[i].key == key
    ensures var entities := Run(cfg, events).entities;
            && (entities[i].status == Active ==> Latest(entities, key, true) == Some(i))
            && (Latest(entities, key, true).None? ==> entities[i].status == Closed)
  {
    AggregatesAreExact(cfg, events);
    hide Run, AllExact;
    var entities := Run(cfg, events).entities;
    assert Matches(entities[i], key, true) <==> entities[i].status == Active;
  }

  // ---- what the observation table says ----

  /** An entity's observations up to and including its first exit. */
  function TallyOf(observations: seq<Observation>, id: nat): Tally {
    if observations == [] then NOTHING
    else
      var t, o := TallyOf(observations[..|observations|-1], id), observations[|observations|-1];
      if o.entity != id || t.exited then t
      else Plus(t, o.confidence, o.kind)
  }

  /** Every row's counters can be read off the table. */
  ghost predicate TableAgrees(s: Store) {
    forall id: nat ::
      if id < |s.entities| then Exact(s.entities[id], TallyOf(s.observations, id))
      else TallyOf(s.observations, id) == NOTHING
  }

  /** The event is counted but not recorded: its id is whitespace that the table already has. */
  predicate Slips(s: Store, e: VisionEvent) {
    LandedOn(s, e).Some? && e.id.Blank? && Has(s.observations, e.id)
  }

  lemma TallyAppend(observations: seq<Observation>, o: Observation, id: nat)
    ensures TallyOf(observations + [o], id) ==
      var t := TallyOf(observations, id);
      if o.entity != id || t.exited then t
      else Plus(t, o.confidence, o.kind)
  {
    assert (observations + [o])[..|observations|] == observations;
  }

  lemma LandingAgrees(s: Store, s': Store, e: VisionEvent, id: nat)
    requires TableAgrees(s) && Lands(s, s', e, id)
    requires s'.observations == s.observations + [ObservationOf(e, id)]
    ensures TableAgrees(s')
  {
    forall j: nat ensures if j < |s'.entities| then Exact(s'.entities[j], TallyOf(s'.observations, j))
                          else TallyOf(s'.observations, j) == NOTHING
    {
      TallyAppend(s.observations, ObservationOf(e, id), j);
      var t := TallyOf(s.observations, j);
      hide TallyOf, Appended, Counted, Exact;
      assert if j < |s.entities| then Exact(s.entities[j], t) else t == NOTHING;
      if j == id {
        if id < |s.entities| { ActiveHasNotExited(s.entities[id], t); }
        CountedExact(s, id, e, t);
      }
    }
  }

  lemma LateAgrees(s: Store, e: VisionEvent, late: nat)
    requires TableAgrees(s) && late < |s.entities| && s.entities[late].status == Closed
    ensures TableAgrees(s.(observations := s.observations + [ObservationOf(e, late)]))
  {
    var s' := s.(observations := s.observations + [ObservationOf(e, late)]);
    assert Exact(s.entities[late], TallyOf(s.observations, late));
    forall j: nat ensures TallyOf(s'.observations, j) == TallyOf(s.observations, j) {
      TallyAppend(s.observations, ObservationOf(e, late), j);
    }
    hide TallyOf;
  }

  /** One event takes the table out of step exactly when it slips. */
  lemma StepAgrees(cfg: Config, s: Store, e: VisionEvent)
    requires TableAgrees(s)
    ensures TableAgrees(Process(cfg, s, e)) <==> !Slips(s, e)
  {
    var s' := Process(cfg, s, e);
    ProcessLands(cfg, s, e);
    if LandedOn(s, e).Some? { LandedIsNew(s, e); }
    hide Process, LandedOn, Counted, TallyOf;
    if LandedOn(s, e).Some? {
      var id := LandedOn(s, e).value;
      if Slips(s, e) { SlipDisagrees(s, s', e, id); } else { LandingAgrees(s, s', e, id); }
    } else if LateOn(s, e).Some? {
      LateAgrees(s, e, LateOn(s, e).value);
      if s'.observations == s.observations {
        AgreesAlike(s, s');
      } else {
        AgreesAlike(s.(observations := s.observations + [ObservationOf(e, LateOn(s, e).value)]), s');
      }
    } else {
      AgreesAlike(s, s');
    }
  }

  lemma AgreesAlike(a: Store, b: Store)
    requires a.entities == b.entities && a.observations == b.observations
    ensures TableAgrees(a) <==> TableAgrees(b)
  {
  }

  /** A counted event is recorded unless it slips. */
  lemma LandedIsNew(s: Store, e: VisionEvent)
    requires LandedOn(s, e).Some?
    ensures forall id :: Appended(s.observations, ObservationOf(e, id))
                      == if Slips(s, e) then s.observations else s.observations + [ObservationOf(e, id)]
  {
  }

  lemma SlipDisagrees(s: Store, s': Store, e: VisionEvent, id: nat)
    requires TableAgrees(s) && Lands(s, s', e, id) && s'.observations == s.observations
    ensures !TableAgrees(s')
  {
    var t := TallyOf(s.observations, id);
    assert if id < |s.entities| then Exact(s.entities[id], t) else t == NOTHING;
    assert s'.entities[id].timesSeen == t.count + 1;
    assert !Exact(s'.entities[id], TallyOf(s'.observations, id));
  }

  /** The counters can be read off the table after every event of the run. */
  ghost predicate AlwaysAgrees(cfg: Config, events: seq<VisionEvent>) {
    TableAgrees(Run(cfg, events)) && (events != [] ==> AlwaysAgrees(cfg, events[..|events|-1]))
  }

  ghost predicate NeverSlips(cfg: Config, events: seq<VisionEvent>) {
    events != [] ==>
      && NeverSlips(cfg, events[..|events|-1])
      && !Slips(Run(cfg, events[..|events|-1]), events[|events|-1])
  }

  /** Counters and observation table stay in step through a run if and only if no event is counted
      under an id of nothing but whitespace that an observation already has. */
  lemma {:induction false} TableAgreesExactly(cfg: Config, events: seq<VisionEvent>)
    ensures AlwaysAgrees(cfg, events) <==> NeverSlips(cfg, events)
  {
    if events == [] {
      assert TableAgrees(Run(cfg, []));
    } else {
      hide TableAgrees, Slips, Process;
      var n := |events| - 1;
      TableAgreesExactly(cfg, events[..n]);
      if AlwaysAgrees(cfg, events[..n]) { StepAgrees(cfg, Run(cfg, events[..n]), events[n]); }
    }
  }

  /** Event ids that are more than whitespace never slip, nor does the empty one. */
  lemma {:induction false} NamedNeverSlip(cfg: Config, events: seq<VisionEvent>)
    requires forall i | 0 <= i < |events| :: !events[i].id.Blank?
    ensures NeverSlips(cfg, events) && TableAgrees(Run(cfg, events))
  {
    if events != [] {
      hide TableAgrees, Process;
      NamedNeverSlip(cfg, events[..|events|-1]);
      TableAgreesExactly(cfg, events);
    } else {
      assert TableAgrees(Run(cfg, []));
    }
  }
}
