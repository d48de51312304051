/** Recorded zone occupancy is an exact walk on every run of the spatial machine. */
module Occupancy {
  import opened Options
  import opened ZoneSessions
  import opened Spatial
  import opened SpatialRuns

  predicate IsTransition(e: SpatialEvent) {
    e.kind == ZoneEntered || e.kind == ZoneExited
  }

  /** The occupancy recorded by the zone's last enter or exit; 0 before the first. */
  function LastOccupancy(log: seq<SpatialEvent>, zone: nat): nat {
    if log == [] then 0
    else
      var e := log[|log|-1];
      if IsTransition(e) && e.pair.zone == zone then e.occupancy
      else LastOccupancy(log[..|log|-1], zone)
  }

  /** Up by one on an enter, down by one on an exit; the published change repeats it. */
  predicate Moves(before: seq<SpatialEvent>, e: SpatialEvent) {
    var last := LastOccupancy(before, e.pair.zone);
    match e.kind
    case ZoneEntered => e.occupancy == last + 1
    case ZoneExited => e.occupancy == last - 1
    case OccupancyAfterEnter | OccupancyAfterExit => e.occupancy == last
  }

  ghost predicate ExactWalk(log: seq<SpatialEvent>) {
    forall i | 0 <= i < |log| :: Moves(log[..i], log[i])
  }

  /** The session row holds the time and occupancy its enter and exit events published. */
  predicate RecordedIn(rows: Rows, e: SpatialEvent) {
    && e.session < |rows| && rows[e.session].pair == e.pair
    && (e.kind == ZoneEntered ==>
         rows[e.session].occupancyAfterEnter == e.occupancy && rows[e.session].enteredAt == e.at)
    && (e.kind == ZoneExited ==>
         !rows[e.session].isOpen && rows[e.session].occupancyAfterExit == Some(e.occupancy)
         && rows[e.session].exitedAt == Some(e.at))
  }

  /** What the log says happened to a session, in order. */
  function Story(log: seq<SpatialEvent>, session: nat): seq<Kind> {
    if log == [] then []
    else
      var e := log[|log|-1];
      Story(log[..|log|-1], session) + if IsTransition(e) && e.session == session then [e.kind] else []
  }

  /** Every session was entered once, and exited once exactly when its row is closed. */
  ghost predicate StoriesMatch(rows: Rows, log: seq<SpatialEvent>) {
    forall id: nat :: Story(log, id) ==
      if id >= |rows| then [] else if rows[id].isOpen then [ZoneEntered] else [ZoneEntered, ZoneExited]
  }

  lemma StoryGrows(log: seq<SpatialEvent>, events: seq<SpatialEvent>, id: nat)
    requires 1 <= |events| <= 2 && IsTransition(events[0]) && (|events| == 2 ==> !IsTransition(events[1]))
    ensures Story(log + events, id) == Story(log, id) + if events[0].session == id then [events[0].kind] else []
  {
    var one := log + [events[0]];
    assert one[..|log|] == log;
    if |events| == 2 {
      assert log + events == one + [events[1]];
      assert (one + [events[1]])[..|one|] == one;
    } else {
      assert log + events == one;
    }
  }

  lemma OpeningStories(rows: Rows, log: seq<SpatialEvent>, row: Row, events: seq<SpatialEvent>)
    requires StoriesMatch(rows, log) && row.isOpen && Announces(events, |rows|, row)
    ensures StoriesMatch(rows + [row], log + events)
  {
    forall id: nat ensures Story(log + events, id) == Story(log, id) + if |rows| == id then [ZoneEntered] else [] {
      StoryGrows(log, events, id);
    }
    hide Story;
  }

  lemma ClosingStories(rows: Rows, log: seq<SpatialEvent>, id: nat, row: Row, events: seq<SpatialEvent>)
    requires StoriesMatch(rows, log) && IsOpen(rows, id) && !row.isOpen && Reports(events, id, row)
    ensures StoriesMatch(rows[id := row], log + events)
  {
    forall other: nat
      ensures Story(log + events, other) == Story(log, other) + if id == other then [ZoneExited] else []
    {
      StoryGrows(log, events, other);
    }
    hide Story, Reports;
    StoriesClose(rows, log, log + events, id, row);
  }

  lemma StoriesClose(rows: Rows, log: seq<SpatialEvent>, log': seq<SpatialEvent>, id: nat, row: Row)
    requires StoriesMatch(rows, log) && IsOpen(rows, id) && !row.isOpen
    requires forall other: nat :: Story(log', other) == Story(log, other) + if id == other then [ZoneExited] else []
    ensures StoriesMatch(rows[id := row], log')
  {
    hide Story;
    assert Story(log, id) == [ZoneEntered];
  }

  ghost predicate CountsMatch(rows: Rows, log: seq<SpatialEvent>) {
    forall zone :: LastOccupancy(log, zone) == CountOpen(rows, zone)
  }

  ghost predicate AllRecorded(rows: Rows, log: seq<SpatialEvent>) {
    forall i | 0 <= i < |log| :: RecordedIn(rows, log[i])
  }

  ghost predicate Counted(w: World) {
    && CountsMatch(w.rows, w.log) && ExactWalk(w.log)
    && AllRecorded(w.rows, w.log) && StoriesMatch(w.rows, w.log)
  }

  lemma WalkAppend(log: seq<SpatialEvent>, e: SpatialEvent)
    requires ExactWalk(log) && Moves(log, e)
    ensures ExactWalk(log + [e])
    ensures forall zone :: LastOccupancy(log + [e], zone)
              == if IsTransition(e) && e.pair.zone == zone then e.occupancy else LastOccupancy(log, zone)
  {
    var after := log + [e];
    assert after[..|log|] == log;
    assert forall i | 0 <= i < |log| :: after[..i] == log[..i];
  }

  /** A transition and, when configured, the occupancy change published with it. */
  lemma WalkMoves(log: seq<SpatialEvent>, e: SpatialEvent, more: seq<SpatialEvent>)
    requires ExactWalk(log) && Moves(log, e) && IsTransition(e)
    requires |more| <= 1
    requires more != [] ==> !IsTransition(more[0]) && more[0].pair == e.pair && more[0].occupancy == e.occupancy
    ensures ExactWalk(log + ([e] + more))
    ensures forall zone :: LastOccupancy(log + ([e] + more), zone)
              == if e.pair.zone == zone then e.occupancy else LastOccupancy(log, zone)
  {
    WalkAppend(log, e);
    if more != [] {
      WalkAppend(log + [e], more[0]);
      assert log + ([e] + more) == log + [e] + [more[0]];
    } else {
      assert log + ([e] + more) == log + [e];
    }
  }

  lemma {:induction false} OpenIsCounted(rows: Rows, id: nat)
    requires IsOpen(rows, id)
    ensures CountOpen(rows, rows[id].pair.zone) >= 1
  {
    if id < |rows| - 1 { OpenIsCounted(rows[..|rows|-1], id); }
  }

  lemma TouchCounts(w: World, id: nat, at: int)
    requires Counted(w)
    ensures Counted(w.(rows := Touch(w.rows, id, at)))
  {
    if IsOpen(w.rows, id) {
      forall zone ensures CountOpen(Touch(w.rows, id, at), zone) == CountOpen(w.rows, zone) {
        CountReplace(w.rows, id, w.rows[id].(lastSeen := at), zone);
      }
    }
  }

  lemma EnteringCounts(cfg: Config, w: World, pair: Pair, at: int)
    requires Counted(w)
    ensures Counted(ConfirmEnter(cfg, w, pair, at))
  {
    hide Counted, CountOpen, Announces, EnterEvents;
    if GetOpen(w.rows, pair).Some? {
      TouchCounts(w, GetOpen(w.rows, pair).value, at);
      var touched := w.(rows := Touch(w.rows, GetOpen(w.rows, pair).value, at));
      MembersDoNotCount(touched, w.members[pair := Member(Inside, 0, 0, GetOpen(w.rows, pair))]);
    } else {
      var n := CountOpen(w.rows, pair.zone) + 1;
      EnterAnnounces(cfg, |w.rows|, pair, at, n);
      var row, events := Opened(pair, at, n), EnterEvents(cfg, |w.rows|, pair, at, n);
      OpeningCounts(w, row, events);
      MembersDoNotCount(World(w.members, w.rows + [row], w.log + events),
                        w.members[pair := Member(Inside, 0, 0, Some(|w.rows|))]);
    }
  }

  lemma EnterAnnounces(cfg: Config, id: nat, pair: Pair, at: int, n: nat)
    ensures Announces(EnterEvents(cfg, id, pair, at, n), id, Opened(pair, at, n))
  {
  }

  lemma ExitReports(cfg: Config, id: nat, row: Row, at: int, n: nat)
    requires row.isOpen
    ensures Reports(ExitEvents(cfg, id, row.pair, at, n), id, Closed(row, at, n))
  {
  }

  /** Enter events of the row a table would append. */
  predicate Announces(events: seq<SpatialEvent>, id: nat, row: Row) {
    && 1 <= |events| <= 2 && events[0].kind == ZoneEntered
    && (|events| == 2 ==> events[1].kind == OccupancyAfterEnter)
    && (forall i | 0 <= i < |events| ::
         && events[i].session == id && events[i].pair == row.pair
         && events[i].occupancy == row.occupancyAfterEnter && events[i].at == row.enteredAt)
  }

  lemma OpeningCounts(w: World, row: Row, events: seq<SpatialEvent>)
    requires Counted(w) && row.isOpen && row.occupancyAfterEnter == CountOpen(w.rows, row.pair.zone) + 1
    requires Announces(events, |w.rows|, row)
    ensures Counted(World(w.members, w.rows + [row], w.log + events))
  {
    hide Moves, ExactWalk, AllRecorded, CountsMatch, LastOccupancy, CountOpen, StoriesMatch;
    OpeningMatches(w, row, events);
    OpeningStories(w.rows, w.log, row, events);
    RecordedGrows(w.rows, w.log, w.rows + [row], events);
  }

  lemma OpeningMatches(w: World, row: Row, events: seq<SpatialEvent>)
    requires Counted(w) && row.isOpen && row.occupancyAfterEnter == CountOpen(w.rows, row.pair.zone) + 1
    requires Announces(events, |w.rows|, row)
    ensures ExactWalk(w.log + events) && CountsMatch(w.rows + [row], w.log + events)
  {
    hide Moves, ExactWalk, AllRecorded, LastOccupancy, CountOpen;
    var e, more := events[0], events[1..];
    EnterMoves(w, e);
    WalkMoves(w.log, e, more);
    assert events == [e] + more;
    forall zone ensures LastOccupancy(w.log + events, zone) == CountOpen(w.rows + [row], zone) {
      CountAppend(w.rows, row, zone);
    }
  }

  lemma CountAppend(rows: Rows, row: Row, zone: nat)
    ensures CountOpen(rows + [row], zone)
         == CountOpen(rows, zone) + if row.isOpen && row.pair.zone == zone then 1 else 0
  {
  }

  lemma RecordedGrows(rows: Rows, log: seq<SpatialEvent>, after: Rows, events: seq<SpatialEvent>)
    requires AllRecorded(rows, log) && rows <= after
    requires forall i | 0 <= i < |events| :: RecordedIn(after, events[i])
    ensures AllRecorded(after, log + events)
  {
  }

  lemma EnterMoves(w: World, e: SpatialEvent)
    requires Counted(w) && e.kind == ZoneEntered && e.occupancy == CountOpen(w.rows, e.pair.zone) + 1
    ensures Moves(w.log, e)
  {
  }

  lemma ExitMoves(w: World, e: SpatialEvent)
    requires Counted(w) && e.kind == ZoneExited && e.occupancy == CountOpen(w.rows, e.pair.zone) - 1
    ensures Moves(w.log, e)
  {
  }

  /** Closing an open row records one fewer; `max(0, ...)` never acts. */
  lemma ClosingCounts(cfg: Config, w: World, id: nat, at: int)
    requires Counted(w) && IsOpen(w.rows, id)
    ensures Counted(CloseOpen(cfg, w, id, at))
    ensures CloseOpen(cfg, w, id, at).rows[id].occupancyAfterExit
         == Some(CountOpen(w.rows, w.rows[id].pair.zone) - 1)
  {
    hide Counted, CountOpen, Reports, ExitEvents;
    OpenIsCounted(w.rows, id);
    var n := CountOpen(w.rows, w.rows[id].pair.zone) - 1;
    var row, events := Closed(w.rows[id], at, n), ExitEvents(cfg, id, w.rows[id].pair, at, n);
    ExitReports(cfg, id, w.rows[id], at, n);
    ClosingMatches(w, id, row, events);
    MembersDoNotCount(World(w.members, w.rows[id := row], w.log + events), w.members[w.rows[id].pair := FRESH]);
  }

  /** Exit events of the row a table would close. */
  predicate Reports(events: seq<SpatialEvent>, id: nat, row: Row) {
    && 1 <= |events| <= 2 && events[0].kind == ZoneExited
    && (|events| == 2 ==> events[1].kind == OccupancyAfterExit)
    && (forall i | 0 <= i < |events| ::
         && events[i].session == id && events[i].pair == row.pair
         && row.occupancyAfterExit == Some(events[i].occupancy) && row.exitedAt == Some(events[i].at))
  }

  lemma ClosingMatches(w: World, id: nat, row: Row, events: seq<SpatialEvent>)
    requires Counted(w) && IsOpen(w.rows, id) && !row.isOpen && row.pair == w.rows[id].pair
    requires row.occupancyAfterExit.Some? && row.occupancyAfterEnter == w.rows[id].occupancyAfterEnter
    requires row.enteredAt == w.rows[id].enteredAt
    requires row.occupancyAfterExit.value == CountOpen(w.rows, row.pair.zone) - 1
    requires Reports(events, id, row)
    ensures Counted(World(w.members, w.rows[id := row], w.log + events))
  {
    hide Moves, ExactWalk, LastOccupancy, CountOpen, StoriesMatch;
    ClosingStories(w.rows, w.log, id, row, events);
    var e, more := events[0], events[1..];
    ExitMoves(w, e);
    WalkMoves(w.log, e, more);
    assert events == [e] + more;
    forall zone ensures LastOccupancy(w.log + events, zone) == CountOpen(w.rows[id := row], zone) {
      CountReplace(w.rows, id, row, zone);
    }
  }

  lemma SeeingCounts(cfg: Config, w: World, pair: Pair, inside: bool, at: int)
    requires Counted(w)
    ensures Counted(Apply(cfg, w, See(pair, inside, at)))
  {
    hide Counted, CountOpen, LastOccupancy, CloseOpen, ConfirmEnter;
    var m := Recovered(w, pair);
    if inside {
      var m' := m.(phase := CandidateEnter, enterCount := m.enterCount + 1, exitCount := 0);
      MembersDoNotCount(w, w.members[pair := m']);
      EnteringCounts(cfg, w.(members := w.members[pair := m']), pair, at);
      if m.openSession.Some? { TouchCounts(w, m.openSession.value, at); }
      var rows := TouchIfAny(w.rows, m.openSession, at);
      MembersDoNotCount(w.(rows := rows), w.members[pair := m]);
      MembersDoNotCount(w.(rows := rows), w.members[pair := m.(phase := Inside, exitCount := 0)]);
    } else {
      var m' := m.(phase := CandidateExit, exitCount := m.exitCount + 1, enterCount := 0);
      MembersDoNotCount(w, w.members[pair := m']);
      MembersDoNotCount(w, w.members[pair := m'][pair := FRESH]);
      MembersDoNotCount(w, w.members[pair := m.(enterCount := 0)]);
      MembersDoNotCount(w, w.members[pair := m.(phase := Outside, enterCount := 0, exitCount := 0)]);
      var open := GetOpen(w.rows, pair);
      if open.Some? { ClosingCounts(cfg, w.(members := w.members[pair := m']), open.value, at); }
    }
  }

  lemma MembersDoNotCount(w: World, members: map<Pair, Member>)
    requires Counted(w)
    ensures Counted(w.(members := members))
  {
  }

  lemma {:induction false} CloseAllCounts(cfg: Config, w: World, ids: seq<nat>, at: int)
    requires Counted(w) && InTable(w.rows, ids) && Sql.Distinct(ids)
    requires forall i | 0 <= i < |ids| :: IsOpen(w.rows, ids[i])
    ensures Counted(CloseAll(cfg, w, ids, at))
    decreases |ids|
  {
    if ids != [] {
      hide Counted;
      ClosingCounts(cfg, w, ids[0], at);
      StillOpen(cfg, w, ids, at, Pair(0, 0));
      CloseAllCounts(cfg, CloseOpen(cfg, w, ids[0], at), ids[1..], at);
    }
  }

  lemma {:induction false} ReapCounts(cfg: Config, w: World, ids: seq<nat>, at: int)
    requires Counted(w) && InTable(w.rows, ids) && Sql.Distinct(ids)
    requires forall i | 0 <= i < |ids| :: IsOpen(w.rows, ids[i])
    ensures Counted(Reap(cfg, w, ids, at))
    decreases |ids|
  {
    if ids != [] {
      hide Counted;
      ClosingCounts(cfg, w, ids[0], at);
      StillOpen(cfg, w, ids, at, Pair(0, 0));
      var closed := CloseOpen(cfg, w, ids[0], at);
      MembersDoNotCount(closed, closed.members - {w.rows[ids[0]].pair});
      ReapCounts(cfg, Forget(closed, {w.rows[ids[0]].pair}), ids[1..], at);
    }
  }

  /** On every run, each recorded occupancy is one step from the one before it in the direction of
      its cause, is what the session row holds, and the last one is both the number of open
      sessions and the number of distinct entities inside. Every session is published as entered
      once, and as exited once exactly when its row is closed. */
  lemma {:induction false} OccupancyIsExact(cfg: Config, ops: seq<Op>)
    requires ValidConfig(cfg)
    ensures Counted(Exec(cfg, ops))
    ensures forall zone :: LastOccupancy(Exec(cfg, ops).log, zone)
                        == |EntitiesInside(Exec(cfg, ops).rows, zone)|
  {
    if ops != [] {
      hide Counted, CountOpen, LastOccupancy, EntitiesInside;
      var w, op := Exec(cfg, ops[..|ops|-1]), ops[|ops|-1];
      OccupancyIsExact(cfg, ops[..|ops|-1]);
      if Enabled(w, op) {
        match op
        case See(pair, inside, at) => SeeingCounts(cfg, w, pair, inside, at);
        case Force(entity, ids, at) =>
          ForcedInTable(w, entity, ids);
          CloseAllCounts(cfg, w, ids, at);
          var closed := CloseAll(cfg, w, ids, at);
          MembersDoNotCount(closed, closed.members - PairsOf(closed, entity));
        case Stale(ids, cutoff, now) =>
          StaleInTable(w, cutoff, ids);
          ReapCounts(cfg, w, ids, now);
        case Restart => MembersDoNotCount(w, map[]);
      }
    }
    LastIsEntities(cfg, ops);
  }

  lemma LastIsEntities(cfg: Config, ops: seq<Op>)
    requires ValidConfig(cfg) && Counted(Exec(cfg, ops))
    ensures forall zone :: LastOccupancy(Exec(cfg, ops).log, zone)
                        == |EntitiesInside(Exec(cfg, ops).rows, zone)|
  {
    RunRefinesHistory(cfg, ops);
    forall zone ensures LastOccupancy(Exec(cfg, ops).log, zone)
                     == |EntitiesInside(Exec(cfg, ops).rows, zone)|
    {
      CountIsEntities(Exec(cfg, ops).rows, zone);
    }
  }
}
