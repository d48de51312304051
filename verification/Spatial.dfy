/** Zone membership and session lifecycle (src/services/spatial_service.py). */
module Spatial {
  import opened Options
  import opened Sql
  import opened ZoneSessions

  datatype Phase = Outside | CandidateEnter | Inside | CandidateExit

  /** _MembershipState. */
  datatype Member = Member(phase: Phase, enterCount: nat, exitCount: nat, openSession: Option<nat>)

  const FRESH := Member(Outside, 0, 0, None)

  datatype Kind = ZoneEntered | ZoneExited | OccupancyAfterEnter | OccupancyAfterExit

  datatype SpatialEvent = SpatialEvent(kind: Kind, session: nat, pair: Pair, at: int, occupancy: nat)

  datatype Config = Config(enterConfirm: nat, exitConfirm: nat, publishOccupancy: bool)

  /** Thresholds of at least one, as the constructor demands. */
  predicate ValidConfig(cfg: Config) {
    cfg.enterConfirm >= 1 && cfg.exitConfirm >= 1
  }

  /** Transient memory, the durable table, and everything published so far. */
  datatype World = World(members: map<Pair, Member>, rows: Rows, log: seq<SpatialEvent>)

  // ---- the steps, on values ----

  function EnterEvents(cfg: Config, id: nat, pair: Pair, at: int, occupancy: nat): seq<SpatialEvent> {
    [SpatialEvent(ZoneEntered, id, pair, at, occupancy)]
    + if cfg.publishOccupancy then [SpatialEvent(OccupancyAfterEnter, id, pair, at, occupancy)] else []
  }

  function ExitEvents(cfg: Config, id: nat, pair: Pair, at: int, occupancy: nat): seq<SpatialEvent> {
    [SpatialEvent(ZoneExited, id, pair, at, occupancy)]
    + if cfg.publishOccupancy then [SpatialEvent(OccupancyAfterExit, id, pair, at, occupancy)] else []
  }

  function ConfirmEnter(cfg: Config, w: World, pair: Pair, at: int): World {
    match GetOpen(w.rows, pair)
    case Some(id) =>
      World(w.members[pair := Member(Inside, 0, 0, Some(id))], Touch(w.rows, id, at), w.log)
    case None =>
      var occupancy := CountOpen(w.rows, pair.zone) + 1;
      World(w.members[pair := Member(Inside, 0, 0, Some(|w.rows|))],
            w.rows + [Opened(pair, at, occupancy)],
            w.log + EnterEvents(cfg, |w.rows|, pair, at, occupancy))
  }

  /** _close_open_session. */
  function CloseOpen(cfg: Config, w: World, id: nat, at: int): World
    requires id < |w.rows|
  {
    var pair := w.rows[id].pair;
    var count := CountOpen(w.rows, pair.zone);
    var occupancy := if count >= 1 then count - 1 else 0;
    World(w.members[pair := FRESH],
          w.rows[id := Closed(w.rows[id], at, occupancy)],
          w.log + ExitEvents(cfg, id, pair, at, occupancy))
  }

  function ConfirmExit(cfg: Config, w: World, pair: Pair, at: int): World {
    match GetOpen(w.rows, pair)
    case Some(id) => CloseOpen(cfg, w, id, at)
    case None => w.(members := w.members[pair := FRESH])
  }

  /** The in-memory entry, recovered from the table when there is none. */
  function Recovered(w: World, pair: Pair): Member {
    if pair in w.members then w.members[pair]
    else match GetOpen(w.rows, pair)
         case Some(id) => Member(Inside, 0, 0, Some(id))
         case None => FRESH
  }

  function TouchIfAny(rows: Rows, id: Option<nat>, at: int): Rows {
    if id.Some? then Touch(rows, id.value, at) else rows
  }

  function ObserveInside(cfg: Config, w: World, pair: Pair, at: int): World {
    var m := Recovered(w, pair);
    match m.phase
    case Outside | CandidateEnter =>
      var m' := m.(phase := CandidateEnter, enterCount := m.enterCount + 1, exitCount := 0);
      var w' := w.(members := w.members[pair := m']);
      if m'.enterCount >= cfg.enterConfirm then ConfirmEnter(cfg, w', pair, at) else w'
    case Inside =>
      w.(members := w.members[pair := m], rows := TouchIfAny(w.rows, m.openSession, at))
    case CandidateExit =>
      w.(members := w.members[pair := m.(phase := Inside, exitCount := 0)],
         rows := TouchIfAny(w.rows, m.openSession, at))
  }

  function ObserveOutside(cfg: Config, w: World, pair: Pair, at: int): World {
    if pair !in w.members && GetOpen(w.rows, pair).None? then w
    else
      var m := Recovered(w, pair);
      match m.phase
      case Outside => w.(members := w.members[pair := m.(enterCount := 0)])
      case CandidateEnter =>
        w.(members := w.members[pair := m.(phase := Outside, enterCount := 0, exitCount := 0)])
      case Inside | CandidateExit =>
        var m' := m.(phase := CandidateExit, exitCount := m.exitCount + 1, enterCount := 0);
        var w' := w.(members := w.members[pair := m']);
        if m'.exitCount >= cfg.exitConfirm then ConfirmExit(cfg, w', pair, at) else w'
  }

  predicate InTable(rows: Rows, ids: seq<nat>) {
    forall i | 0 <= i < |ids| :: ids[i] < |rows|
  }

  function CloseAll(cfg: Config, w: World, ids: seq<nat>, at: int): (r: World)
    requires InTable(w.rows, ids)
    ensures |r.rows| == |w.rows|
    decreases |ids|
  {
    if ids == [] then w else CloseAll(cfg, CloseOpen(cfg, w, ids[0], at), ids[1..], at)
  }

  function Forget(w: World, gone: set<Pair>): World {
    w.(members := w.members - gone)
  }

  function PairsOf(w: World, entity: nat): set<Pair> {
    set p | p in w.members && p.entity == entity
  }

  /** force_close_entity, given the open rows the query listed. */
  function ForceClose(cfg: Config, w: World, entity: nat, ids: seq<nat>, at: int): World
    requires InTable(w.rows, ids)
  {
    var closed := CloseAll(cfg, w, ids, at);
    Forget(closed, PairsOf(closed, entity))
  }

  /** reconcile_stale_sessions, given the stale rows the query listed. */
  function Reap(cfg: Config, w: World, ids: seq<nat>, at: int): (r: World)
    requires InTable(w.rows, ids)
    ensures |r.rows| == |w.rows|
    decreases |ids|
  {
    if ids == [] then w
    else Reap(cfg, Forget(CloseOpen(cfg, w, ids[0], at), {w.rows[ids[0]].pair}), ids[1..], at)
  }

  /** What geometry and filters say of one zone for one observation. */
  datatype Reading = Filtered | GeometryFailed | Located(inside: bool)

  datatype Sighting = Sighting(zone: nat, reading: Reading)

  function ObserveZones(cfg: Config, w: World, entity: nat, zones: seq<Sighting>, at: int): World {
    if zones == [] then w
    else
      var n := |zones| - 1;
      var before := ObserveZones(cfg, w, entity, zones[..n], at);
      var pair := Pair(entity, zones[n].zone);
      match zones[n].reading
      case GeometryFailed => before
      case Filtered => ObserveOutside(cfg, before, pair, at)
      case Located(inside) =>
        if inside then ObserveInside(cfg, before, pair, at) else ObserveOutside(cfg, before, pair, at)
  }

  // ---- the service ----

  class SpatialService {
    const cfg: Config
    const sessions: SessionTable
    const enabled: bool
    const lostTrackTimeout: int
    var members: map<Pair, Member>
    var published: seq<SpatialEvent>

    constructor (cfg: Config, sessions: SessionTable, enabled: bool, lostTrackTimeout: int)
      requires ValidConfig(cfg) && lostTrackTimeout > 0
      ensures this.cfg == cfg && this.sessions == sessions && this.enabled == enabled
      ensures this.lostTrackTimeout == lostTrackTimeout
      ensures State() == World(map[], sessions.rows, [])
    {
      this.cfg, this.sessions, this.enabled := cfg, sessions, enabled;
      this.lostTrackTimeout := lostTrackTimeout;
      members, published := map[], [];
    }

    ghost function State(): World
      reads this, sessions
    {
      World(members, sessions.rows, published)
    }

    method ConfirmEnterNow(pair: Pair, at: int)
      modifies this, sessions
      ensures State() == ConfirmEnter(cfg, old(State()), pair, at)
    {
      var existing := sessions.GetOpenSession(pair);
      if existing.Some? {
        members := members[pair := Member(Inside, 0, 0, existing)];
        sessions.TouchSession(existing.value, at);
        return;
      }
      var occupancy := CountOpen(sessions.rows, pair.zone) + 1;
      var id := sessions.OpenSession(pair, at, occupancy);
      members := members[pair := Member(Inside, 0, 0, Some(id))];
      published := published + EnterEvents(cfg, id, pair, at, occupancy);
    }

    method CloseOpenSession(id: nat, at: int)
      requires id < |sessions.rows|
      modifies this, sessions
      ensures State() == CloseOpen(cfg, old(State()), id, at)
    {
      var pair := sessions.rows[id].pair;
      var count := CountOpen(sessions.rows, pair.zone);
      var occupancy := if count >= 1 then count - 1 else 0;
      var _ := sessions.CloseSession(id, at, occupancy);
      members := members[pair := FRESH];
      published := published + ExitEvents(cfg, id, pair, at, occupancy);
    }

    method ConfirmExitNow(pair: Pair, at: int)
      modifies this, sessions
      ensures State() == ConfirmExit(cfg, old(State()), pair, at)
    {
      var existing := sessions.GetOpenSession(pair);
      if existing.None? {
        members := members[pair := FRESH];
        return;
      }
      CloseOpenSession(existing.value, at);
    }

    method SeeInside(pair: Pair, at: int)
      modifies this, sessions
      ensures State() == ObserveInside(cfg, old(State()), pair, at)
    {
      var state := FRESH;
      if pair in members {
        state := members[pair];
      } else {
        var existing := sessions.GetOpenSession(pair);
        if existing.Some? { state := Member(Inside, 0, 0, existing); }
      }
      var confirm := false;
      if state.phase == Outside || state.phase == CandidateEnter {
        state := state.(phase := CandidateEnter, enterCount := state.enterCount + 1, exitCount := 0);
        confirm := state.enterCount >= cfg.enterConfirm;
      } else {
        if state.phase == CandidateExit { state := state.(phase := Inside, exitCount := 0); }
        if state.openSession.Some? { sessions.TouchSession(state.openSession.value, at); }
      }
      members := members[pair := state];
      if confirm { ConfirmEnterNow(pair, at); }
    }

    method SeeOutside(pair: Pair, at: int)
      modifies this, sessions
      ensures State() == ObserveOutside(cfg, old(State()), pair, at)
    {
      var state := FRESH;
      if pair in members {
        state := members[pair];
      } else {
        var existing := sessions.GetOpenSession(pair);
        if existing.None? { return; }
        state := Member(Inside, 0, 0, existing);
      }
      var confirm := false;
      if state.phase == Outside {
        state := state.(enterCount := 0);
      } else if state.phase == CandidateEnter {
        state := state.(phase := Outside, enterCount := 0, exitCount := 0);
      } else {
        state := state.(phase := CandidateExit, exitCount := state.exitCount + 1, enterCount := 0);
        confirm := state.exitCount >= cfg.exitConfirm;
      }
      members := members[pair := state];
      if confirm { ConfirmExitNow(pair, at); }
    }

    /** Returns the closed ids in order. */
    method ForceCloseEntity(entity: nat, at: int) returns (ids: seq<nat>)
      modifies this, sessions
      ensures !enabled ==> State() == old(State())
      ensures enabled ==>
        && multiset(ids) == multiset(OpenIdsOf(old(sessions.rows), entity))
        && InTable(old(sessions.rows), ids)
        && State() == ForceClose(cfg, old(State()), entity, ids, at)
    {
      if !enabled { return []; }
      ids := sessions.ListOpenForEntity(entity);
      SelectionIsDistinct(ids, OpenIdsOf(sessions.rows, entity));
      hide CloseOpen, OpenIdsOf, Distinct;
      for i := 0 to |ids|
        invariant |sessions.rows| == |old(sessions.rows)|
        invariant CloseAll(cfg, State(), ids[i..], at) == CloseAll(cfg, old(State()), ids, at)
      {
        assert ids[i..][0] == ids[i] && ids[i..][1..] == ids[i+1..];
        CloseOpenSession(ids[i], at);
      }
      assert ids[|ids|..] == [];
      members := members - set p | p in members && p.entity == entity;
    }

    /** Closes at most 100 sessions unseen for longer than the timeout. */
    method ReconcileStale(now: int) returns (ids: seq<nat>)
      modifies this, sessions
      ensures !enabled ==> State() == old(State())
      ensures enabled ==>
        && IsSelection(ids, StaleIds(old(sessions.rows), now - lostTrackTimeout),
                       LastSeen(old(sessions.rows)), 100)
        && InTable(old(sessions.rows), ids)
        && State() == Reap(cfg, old(State()), ids, now)
    {
      if !enabled { return []; }
      var cutoff := now - lostTrackTimeout;
      ids := sessions.ListStaleOpen(cutoff, 100);
      SelectionIsDistinct(ids, StaleIds(sessions.rows, cutoff));
      hide CloseOpen, IsSelection, StaleIds, Distinct;
      for i := 0 to |ids|
        invariant |sessions.rows| == |old(sessions.rows)|
        invariant Reap(cfg, State(), ids[i..], now) == Reap(cfg, old(State()), ids, now)
      {
        assert ids[i..][0] == ids[i] && ids[i..][1..] == ids[i+1..];
        var pair := sessions.rows[ids[i]].pair;
        CloseOpenSession(ids[i], now);
        members := members - {pair};
      }
      assert ids[|ids|..] == [];
    }

    method ObserveAll(entity: nat, zones: seq<Sighting>, at: int)
      modifies this, sessions
      ensures State() == ObserveZones(cfg, old(State()), entity, zones, at)
    {
      for i := 0 to |zones|
        invariant State() == ObserveZones(cfg, old(State()), entity, zones[..i], at)
      {
        assert zones[..i+1][..i] == zones[..i];
        var pair := Pair(entity, zones[i].zone);
        match zones[i].reading {
          case GeometryFailed =>
          case Filtered => SeeOutside(pair, at);
          case Located(inside) =>
            if inside { SeeInside(pair, at); } else { SeeOutside(pair, at); }
        }
      }
      assert zones[..|zones|] == zones;
    }

    /** process_observation. `reconcileDue` is the monotonic-clock test; `zones` is empty when the
        camera or the bounding box is missing. */
    method ProcessObservation(entity: nat, zones: seq<Sighting>, at: int, reconcileDue: bool, closing: bool)
      returns (ghost reaped: seq<nat>, ghost forced: seq<nat>)
      modifies this, sessions
      ensures !enabled ==> State() == old(State())
      ensures enabled ==>
        && (if reconcileDue then IsSelection(reaped, StaleIds(old(sessions.rows), at - lostTrackTimeout),
                                             LastSeen(old(sessions.rows)), 100)
            else reaped == [])
        && InTable(old(sessions.rows), reaped)
        && var w := Reap(cfg, old(State()), reaped, at);
           if closing then
             && multiset(forced) == multiset(OpenIdsOf(w.rows, entity))
             && InTable(w.rows, forced)
             && State() == ForceClose(cfg, w, entity, forced, at)
           else State() == ObserveZones(cfg, w, entity, zones, at)
    {
      reaped, forced := [], [];
      if !enabled { return; }
      if reconcileDue {
        var ids := ReconcileStale(at);
        reaped := ids;
      }
      if closing {
        var ids := ForceCloseEntity(entity, at);
        forced := ids;
        return;
      }
      ObserveAll(entity, zones, at);
    }

    /** A process restart: transient memory is gone, the table and the log remain. */
    method Restart()
      modifies this
      ensures State() == old(State()).(members := map[])
    {
      members := map[];
    }
  }
}
