/** What an entity's row says, told from the events counted on it, and what becomes of one event. */
module EntityRows {
  import opened Options
  import opened EntityTables
  import opened EntityMemory
  import opened EntityRuns

  /** The events of the run that were counted on the entity, in order. */
  ghost function EventsOn(cfg: Config, events: seq<VisionEvent>, id: nat): seq<VisionEvent> {
    if events == [] then []
    else
      var init, e := events[..|events|-1], events[|events|-1];
      EventsOn(cfg, init, id) + if LandedOn(Run(cfg, init), e) == Some(id) then [e] else []
  }

  /** First seen with the first event, last seen and labelled with the latest, closed by an exit. */
  ghost predicate Tells(row: Entity, es: seq<VisionEvent>) {
    && es != [] && row.timesSeen == |es|
    && (forall k | 0 <= k < |es| :: es[k].key == row.key)
    && row.firstSeen == es[0].at
    && row.lastSeen == es[|es|-1].at && row.labelId == es[|es|-1].labelId
    && (row.status == Closed <==> es[|es|-1].kind == Exited)
  }

  ghost predicate AllTell(cfg: Config, events: seq<VisionEvent>) {
    var rows := Run(cfg, events).entities;
    forall id: nat ::
      if id < |rows| then Tells(rows[id], EventsOn(cfg, events, id)) else EventsOn(cfg, events, id) == []
  }

  lemma CountedTells(s: Store, id: nat, e: VisionEvent, es: seq<VisionEvent>)
    requires id <= |s.entities|
    requires if id < |s.entities|
             then Tells(s.entities[id], es) && s.entities[id].key == e.key && s.entities[id].status == Active
             else es == []
    ensures Tells(Counted(s, id, e), es + [e])
  {
    hide RunningMean;
  }

  lemma EventsOnSnoc(cfg: Config, events: seq<VisionEvent>, e: VisionEvent, id: nat)
    ensures EventsOn(cfg, events + [e], id)
         == EventsOn(cfg, events, id) + if LandedOn(Run(cfg, events), e) == Some(id) then [e] else []
  {
    hide LandedOn, Run;
    assert (events + [e])[..|events|] == events;
  }

  lemma StepTells(cfg: Config, events: seq<VisionEvent>, e: VisionEvent)
    requires AllTell(cfg, events)
    ensures AllTell(cfg, events + [e])
  {
    var s, s' := Run(cfg, events), Run(cfg, events + [e]);
    CountedStep(cfg, events, e);
    ProcessLands(cfg, s, e);
    hide Process, Run, EventsOn, CountedOn, LandedOn, LateOn, Appended, Counted, Tells;
    forall id: nat
      ensures if id < |s'.entities| then Tells(s'.entities[id], EventsOn(cfg, events + [e], id))
              else EventsOn(cfg, events + [e], id) == []
    {
      EventsOnSnoc(cfg, events, e, id);
      var es := EventsOn(cfg, events, id);
      assert es + [] == es;
      if LandedOn(s, e) == Some(id) { CountedTells(s, id, e, es); }
    }
  }

  /** On every run each row says what the events counted on it say. */
  lemma {:induction false} RowsTell(cfg: Config, events: seq<VisionEvent>)
    ensures AllTell(cfg, events)
  {
    if events != [] {
      hide AllTell;
      var n := |events| - 1;
      assert events == events[..n] + [events[n]];
      RowsTell(cfg, events[..n]);
      StepTells(cfg, events[..n], events[n]);
    }
  }

  // ---- one event ----

  /** An event whose id is not blank is recorded, as it is, on one entity, if and only if it parses, its
      confidence is in [0, 1] and its id is new; otherwise nothing changes. */
  lemma RecordedExactly(cfg: Config, s: Store, e: VisionEvent)
    requires !e.id.Blank?
    ensures var s' := Process(cfg, s, e);
            if e.parses && 0.0 <= e.confidence && e.confidence <= 1.0
               && forall i | 0 <= i < |s.observations| :: s.observations[i].source != e.id
            then exists id: nat ::
                   id < |s'.entities| && s'.entities[id].key == e.key
                   && s'.observations == s.observations + [Observation(id, e.at, e.confidence, e.kind, e.id)]
            else s' == s
  {
    if WellFormed(e) && !Has(s.observations, e.id) {
      RecordedOnOwn(cfg, s, e);
    } else {
      DroppedStays(cfg, s, e);
    }
  }

  lemma RecordedOnOwn(cfg: Config, s: Store, e: VisionEvent)
    requires WellFormed(e) && !Has(s.observations, e.id)
    ensures var s' := Process(cfg, s, e);
            exists id: nat ::
              id < |s'.entities| && s'.entities[id].key == e.key
              && s'.observations == s.observations + [Observation(id, e.at, e.confidence, e.kind, e.id)]
  {
    ProcessLands(cfg, s, e);
    hide Process, Counted;
    var landed, late := LandedOn(s, e), LateOn(s, e);
    if landed.Some? { CountedKey(s, landed.value, e); }
    var id := if landed.Some? then landed.value else late.value;
    var s' := Process(cfg, s, e);
    assert s'.observations == s.observations + [Observation(id, e.at, e.confidence, e.kind, e.id)];
    assert id < |s'.entities| && s'.entities[id].key == e.key;
  }

  lemma CountedKey(s: Store, id: nat, e: VisionEvent)
    requires id < |s.entities| ==> s.entities[id].key == e.key
    ensures Counted(s, id, e).key == e.key
  {
  }
}
