/** What every run of the spatial machine keeps: its memory agrees with the session table, the
    table is what the observation history says, and recorded occupancy is an exact walk. */
module SpatialRuns {
  import opened Options
  import opened ZoneSessions
  import opened Spatial

  // ---- runs ----

  /** `Force` and `Stale` carry the rows their query listed. */
  datatype Op =
    | See(pair: Pair, inside: bool, at: int)
    | Force(entity: nat, forced: seq<nat>, forcedAt: int)
    | Stale(stale: seq<nat>, cutoff: int, now: int)
    | Restart

  ghost predicate Enabled(w: World, op: Op) {
    match op
    case See(_, _, _) => true
    case Force(entity, ids, _) => multiset(ids) == multiset(OpenIdsOf(w.rows, entity))
    case Stale(ids, cutoff, _) => multiset(ids) <= multiset(StaleIds(w.rows, cutoff))
    case Restart => true
  }

  ghost function Apply(cfg: Config, w: World, op: Op): World
    requires Enabled(w, op)
  {
    match op
    case See(pair, inside, at) =>
      if inside then ObserveInside(cfg, w, pair, at) else ObserveOutside(cfg, w, pair, at)
    case Force(entity, ids, at) => ForcedInTable(w, entity, ids); ForceClose(cfg, w, entity, ids, at)
    case Stale(ids, cutoff, now) => StaleInTable(w, cutoff, ids); Reap(cfg, w, ids, now)
    case Restart => w.(members := map[])
  }

  lemma ForcedInTable(w: World, entity: nat, ids: seq<nat>)
    requires multiset(ids) == multiset(OpenIdsOf(w.rows, entity))
    ensures InTable(w.rows, ids) && Sql.Distinct(ids)
    ensures forall i | 0 <= i < |ids| :: IsOpen(w.rows, ids[i]) && w.rows[ids[i]].pair.entity == entity
    ensures forall id: nat | IsOpen(w.rows, id) && w.rows[id].pair.entity == entity :: id in ids
  {
    Sql.SelectionIsDistinct(ids, OpenIdsOf(w.rows, entity));
    forall id: nat | IsOpen(w.rows, id) && w.rows[id].pair.entity == entity ensures id in ids {
      assert id in multiset(ids);
    }
  }

  lemma StaleInTable(w: World, cutoff: int, ids: seq<nat>)
    requires multiset(ids) <= multiset(StaleIds(w.rows, cutoff))
    ensures InTable(w.rows, ids) && Sql.Distinct(ids)
    ensures forall i | 0 <= i < |ids| :: IsOpen(w.rows, ids[i])
  {
    Sql.SelectionIsDistinct(ids, StaleIds(w.rows, cutoff));
  }

  /** A run from an empty service; an operation whose query answer is impossible does nothing. */
  ghost function Exec(cfg: Config, ops: seq<Op>): World {
    if ops == [] then World(map[], [], [])
    else
      var w := Exec(cfg, ops[..|ops|-1]);
      var op := ops[|ops|-1];
      if Enabled(w, op) then Apply(cfg, w, op) else w
  }

  // ---- the history specification ----

  /** The length of the run of `b` that the history ends in. */
  function Trailing(seen: seq<bool>, b: bool): nat {
    if seen == [] || seen[|seen|-1] != b then 0 else Trailing(seen[..|seen|-1], b) + 1
  }

  /** Where the latest run of at least `n` consecutive `b` was last seen; 0 when there is none. */
  function LatestRun(seen: seq<bool>, b: bool, n: nat): (end: nat)
    ensures end <= |seen|
  {
    if seen == [] then 0
    else if Trailing(seen, b) >= n then |seen|
    else LatestRun(seen[..|seen|-1], b, n)
  }

  /** Observations of one pair since its last reset, and whether it was inside then. */
  datatype History = History(base: bool, seen: seq<bool>)

  /** Inside: the latest confirmed stay ended later than the latest confirmed absence. */
  function SaysInside(cfg: Config, h: History): bool {
    var entered := LatestRun(h.seen, true, cfg.enterConfirm);
    var left := LatestRun(h.seen, false, cfg.exitConfirm);
    if entered == 0 && left == 0 then h.base else entered > left
  }

  /** The pair's history after one more operation on `w`. */
  ghost function Next(cfg: Config, h: History, w: World, op: Op, pair: Pair): History {
    match op
    case See(p, inside, _) => if p == pair then h.(seen := h.seen + [inside]) else h
    case Force(entity, _, _) => if pair.entity == entity then History(false, []) else h
    case Stale(ids, _, _) =>
      if exists i | 0 <= i < |ids| :: ids[i] < |w.rows| && w.rows[ids[i]].pair == pair
      then History(false, []) else h
    case Restart => History(SaysInside(cfg, h), [])
  }

  ghost function HistoryOf(cfg: Config, ops: seq<Op>, pair: Pair): History {
    if ops == [] then History(false, [])
    else
      var w := Exec(cfg, ops[..|ops|-1]);
      var h := HistoryOf(cfg, ops[..|ops|-1], pair);
      if Enabled(w, ops[|ops|-1]) then Next(cfg, h, w, ops[|ops|-1], pair) else h
  }

  /** A run of at least `n` consecutive `b` ends at `end`. */
  ghost predicate RunEndsAt(seen: seq<bool>, b: bool, n: nat, end: nat) {
    n <= end <= |seen| && forall i | end - n <= i < end :: seen[i] == b
  }

  /** What "latest run" means: a run ends there, and at no later position. */
  lemma {:induction false} LatestRunIsLatest(seen: seq<bool>, b: bool, n: nat)
    requires n >= 1
    ensures LatestRun(seen, b, n) > 0 ==> RunEndsAt(seen, b, n, LatestRun(seen, b, n))
    ensures forall later: nat | later > LatestRun(seen, b, n) :: !RunEndsAt(seen, b, n, later)
  {
    if seen != [] {
      TrailingIsRun(seen, b);
      if Trailing(seen, b) < n {
        var init := seen[..|seen|-1];
        LatestRunIsLatest(init, b, n);
        forall later: nat | later > LatestRun(init, b, n) ensures !RunEndsAt(seen, b, n, later) {
          if later < |seen| {
            assert RunEndsAt(init, b, n, later) <==> RunEndsAt(seen, b, n, later);
          } else if later == |seen| >= n {
            assert seen[|seen| - 1 - Trailing(seen, b)] != b;
          }
        }
      }
    }
  }

  lemma {:induction false} TrailingIsRun(seen: seq<bool>, b: bool)
    ensures Trailing(seen, b) <= |seen|
    ensures forall i | |seen| - Trailing(seen, b) <= i < |seen| :: seen[i] == b
    ensures Trailing(seen, b) < |seen| ==> seen[|seen| - 1 - Trailing(seen, b)] != b
  {
    if seen != [] && seen[|seen|-1] == b { TrailingIsRun(seen[..|seen|-1], b); }
  }

  // ---- agreement of one pair's memory, row and history ----

  function Entry(w: World, pair: Pair): Option<Member> {
    if pair in w.members then Some(w.members[pair]) else None
  }

  function EnterCount(m: Option<Member>): nat { if m.Some? then m.value.enterCount else 0 }

  function ExitCount(m: Option<Member>): nat { if m.Some? then m.value.exitCount else 0 }

  /** A membership entry mirrors the table: inside phases name the open row, and only a candidate
      phase has a running counter, strictly between zero and its threshold. */
  predicate Mirrors(cfg: Config, m: Member, open: Option<nat>) {
    && m.openSession == open
    && (match m.phase
        case Outside => open.None? && m.enterCount == 0 && m.exitCount == 0
        case CandidateEnter => open.None? && 0 < m.enterCount < cfg.enterConfirm && m.exitCount == 0
        case Inside => open.Some? && m.enterCount == 0 && m.exitCount == 0
        case CandidateExit => open.Some? && m.enterCount == 0 && 0 < m.exitCount < cfg.exitConfirm)
  }

  predicate PairAgrees(cfg: Config, m: Option<Member>, open: Option<nat>, h: History) {
    && (m.Some? ==> Mirrors(cfg, m.value, open))
    && (open.Some? <==> SaysInside(cfg, h))
    && (open.None? ==> Trailing(h.seen, true) == EnterCount(m))
    && (open.Some? ==> Trailing(h.seen, false) == ExitCount(m))
  }

  lemma TrailingAppend(seen: seq<bool>, x: bool, b: bool)
    ensures Trailing(seen + [x], b) == if x == b then Trailing(seen, b) + 1 else 0
  {
  }

  /** How one more observation moves the specification. */
  lemma SaysInsideAppend(cfg: Config, h: History, x: bool)
    requires ValidConfig(cfg)
    ensures var h' := h.(seen := h.seen + [x]);
            SaysInside(cfg, h') ==
              if x && Trailing(h.seen, true) + 1 >= cfg.enterConfirm then true
              else if !x && Trailing(h.seen, false) + 1 >= cfg.exitConfirm then false
              else SaysInside(cfg, h)
  {
  }

  // ---- the table under touch, open and close ----

  lemma GetOpenIs(rows: Rows, id: nat)
    requires UniqueOpen(rows) && IsOpen(rows, id)
    ensures GetOpen(rows, rows[id].pair) == Some(id)
  {
  }

  lemma TouchKeeps(rows: Rows, id: nat, at: int, pair: Pair)
    requires UniqueOpen(rows)
    ensures UniqueOpen(Touch(rows, id, at)) && GetOpen(Touch(rows, id, at), pair) == GetOpen(rows, pair)
  {
  }

  lemma AppendOpens(rows: Rows, row: Row, pair: Pair)
    requires UniqueOpen(rows) && row.isOpen && GetOpen(rows, row.pair).None?
    ensures UniqueOpen(rows + [row])
    ensures GetOpen(rows + [row], pair) == if pair == row.pair then Some(|rows|) else GetOpen(rows, pair)
  {
  }

  lemma CloseCloses(rows: Rows, id: nat, row: Row, pair: Pair)
    requires UniqueOpen(rows) && IsOpen(rows, id) && !row.isOpen && row.pair == rows[id].pair
    ensures UniqueOpen(rows[id := row])
    ensures GetOpen(rows[id := row], pair) == if pair == row.pair then None else GetOpen(rows, pair)
  {
    var after := rows[id := row];
    assert forall i: nat :: IsOpen(after, i) <==> IsOpen(rows, i) && i != id;
    var found := GetOpen(rows, pair);
    if pair != row.pair && found.Some? {
      assert IsOpen(after, found.value);
      GetOpenIs(after, found.value);
    }
    assert IsOpen(rows, id);
  }

  // ---- one step, seen from one pair ----

  /** Memory entry and open row of a pair. */
  datatype View = View(member: Option<Member>, open: Option<nat>)

  function ViewOf(w: World, p: Pair): View { View(Entry(w, p), GetOpen(w.rows, p)) }

  ghost predicate Sound(cfg: Config, w: World) {
    && UniqueOpen(w.rows)
    && forall p | p in w.members :: Mirrors(cfg, w.members[p], GetOpen(w.rows, p))
  }

  /** An inside observation: the view after it, given the id a new row would get. */
  function InsideView(cfg: Config, v: View, newId: nat): View {
    if v.open.Some? then View(Some(Member(Inside, 0, 0, v.open)), v.open)
    else if EnterCount(v.member) + 1 >= cfg.enterConfirm then
      View(Some(Member(Inside, 0, 0, Some(newId))), Some(newId))
    else View(Some(Member(CandidateEnter, EnterCount(v.member) + 1, 0, None)), None)
  }

  function OutsideView(cfg: Config, v: View): View {
    if v.open.None? then View(if v.member.None? then None else Some(FRESH), None)
    else if ExitCount(v.member) + 1 >= cfg.exitConfirm then View(Some(FRESH), None)
    else View(Some(Member(CandidateExit, 0, ExitCount(v.member) + 1, v.open)), v.open)
  }

  lemma InsideSeen(cfg: Config, w: World, pair: Pair, at: int, p: Pair)
    requires ValidConfig(cfg) && Sound(cfg, w)
    ensures var w' := ObserveInside(cfg, w, pair, at);
            && UniqueOpen(w'.rows)
            && ViewOf(w', p) == if p == pair then InsideView(cfg, ViewOf(w, p), |w.rows|) else ViewOf(w, p)
  {
    hide UniqueOpen, CountOpen, GetOpen;
    var open := GetOpen(w.rows, pair);
    if open.Some? {
      TouchKeeps(w.rows, open.value, at, p);
    } else {
      AppendOpens(w.rows, Opened(pair, at, CountOpen(w.rows, pair.zone) + 1), p);
    }
  }

  lemma ClosingSeen(cfg: Config, w: World, id: nat, at: int, p: Pair)
    requires UniqueOpen(w.rows) && IsOpen(w.rows, id)
    ensures var w' := CloseOpen(cfg, w, id, at);
            && UniqueOpen(w'.rows)
            && ViewOf(w', p) == if p == w.rows[id].pair then View(Some(FRESH), None) else ViewOf(w, p)
  {
    hide UniqueOpen, CountOpen, GetOpen;
    var count := CountOpen(w.rows, w.rows[id].pair.zone);
    CloseCloses(w.rows, id, Closed(w.rows[id], at, if count >= 1 then count - 1 else 0), p);
  }

  lemma OutsideSeen(cfg: Config, w: World, pair: Pair, at: int, p: Pair)
    requires ValidConfig(cfg) && Sound(cfg, w)
    ensures var w' := ObserveOutside(cfg, w, pair, at);
            && UniqueOpen(w'.rows)
            && ViewOf(w', p) == if p == pair then OutsideView(cfg, ViewOf(w, p)) else ViewOf(w, p)
  {
    hide UniqueOpen, CountOpen, CloseOpen;
    var open := GetOpen(w.rows, pair);
    if open.Some? {
      var m := Recovered(w, pair);
      var m' := m.(phase := CandidateExit, exitCount := m.exitCount + 1, enterCount := 0);
      ClosingSeen(cfg, w.(members := w.members[pair := m']), open.value, at, p);
    }
  }

  /** Closing a list of distinct open rows resets exactly their pairs. */
  lemma {:induction false} CloseAllSeen(cfg: Config, w: World, ids: seq<nat>, at: int, p: Pair)
    requires UniqueOpen(w.rows) && InTable(w.rows, ids) && Sql.Distinct(ids)
    requires forall i | 0 <= i < |ids| :: IsOpen(w.rows, ids[i])
    ensures var w' := CloseAll(cfg, w, ids, at);
            && UniqueOpen(w'.rows)
            && ViewOf(w', p) == if Names(w.rows, ids, p) then View(Some(FRESH), None) else ViewOf(w, p)
    decreases |ids|
  {
    if ids != [] {
      hide UniqueOpen, CountOpen, GetOpen;
      ClosingSeen(cfg, w, ids[0], at, p);
      StillOpen(cfg, w, ids, at, p);
      CloseAllSeen(cfg, CloseOpen(cfg, w, ids[0], at), ids[1..], at, p);
    }
  }

  /** Some listed row belongs to the pair. */
  predicate Names(rows: Rows, ids: seq<nat>, p: Pair) {
    exists i | 0 <= i < |ids| :: ids[i] < |rows| && rows[ids[i]].pair == p
  }

  lemma StillOpen(cfg: Config, w: World, ids: seq<nat>, at: int, p: Pair)
    requires InTable(w.rows, ids) && Sql.Distinct(ids) && ids != []
    requires forall i | 0 <= i < |ids| :: IsOpen(w.rows, ids[i])
    ensures var w' := CloseOpen(cfg, w, ids[0], at);
            && InTable(w'.rows, ids[1..]) && Sql.Distinct(ids[1..])
            && (forall i | 0 <= i < |ids[1..]| :: IsOpen(w'.rows, ids[1..][i]))
            && (Names(w.rows, ids, p) <==> w.rows[ids[0]].pair == p || Names(w'.rows, ids[1..], p))
  {
  }

  lemma {:induction false} ReapSeen(cfg: Config, w: World, ids: seq<nat>, at: int, p: Pair)
    requires UniqueOpen(w.rows) && InTable(w.rows, ids) && Sql.Distinct(ids)
    requires forall i | 0 <= i < |ids| :: IsOpen(w.rows, ids[i])
    ensures var w' := Reap(cfg, w, ids, at);
            && UniqueOpen(w'.rows)
            && ViewOf(w', p) == if Names(w.rows, ids, p) then View(None, None) else ViewOf(w, p)
    decreases |ids|
  {
    if ids != [] {
      hide UniqueOpen, CountOpen, GetOpen;
      ClosingSeen(cfg, w, ids[0], at, p);
      StillOpen(cfg, w, ids, at, p);
      ReapSeen(cfg, Forget(CloseOpen(cfg, w, ids[0], at), {w.rows[ids[0]].pair}), ids[1..], at, p);
    }
  }

  /** What each operation does to the view of every pair. */
  ghost function NextView(cfg: Config, w: World, op: Op, p: Pair): View {
    var v := ViewOf(w, p);
    match op
    case See(pair, inside, _) =>
      if p != pair then v else if inside then InsideView(cfg, v, |w.rows|) else OutsideView(cfg, v)
    case Force(entity, _, _) => if p.entity == entity then View(None, None) else v
    case Stale(ids, _, _) => if Names(w.rows, ids, p) then View(None, None) else v
    case Restart => v.(member := None)
  }

  lemma StepSeen(cfg: Config, w: World, op: Op, p: Pair)
    requires ValidConfig(cfg) && Sound(cfg, w) && Enabled(w, op)
    ensures UniqueOpen(Apply(cfg, w, op).rows) && ViewOf(Apply(cfg, w, op), p) == NextView(cfg, w, op, p)
  {
    hide UniqueOpen, ObserveInside, ObserveOutside, CloseAll, Reap;
    match op
    case See(pair, inside, at) =>
      if inside { InsideSeen(cfg, w, pair, at, p); } else { OutsideSeen(cfg, w, pair, at, p); }
    case Force(entity, ids, at) =>
      ForcedInTable(w, entity, ids);
      CloseAllSeen(cfg, w, ids, at, p);
      if p.entity == entity && ViewOf(w, p).open.Some? {
        var id := GetOpen(w.rows, p).value;
        assert id in ids;
        var i :| 0 <= i < |ids| && ids[i] == id;
        assert Names(w.rows, ids, p);
      }
    case Stale(ids, cutoff, now) =>
      StaleInTable(w, cutoff, ids);
      ReapSeen(cfg, w, ids, now, p);
    case Restart =>
  }

  // ---- the theorems ----

  lemma ViewAgrees(cfg: Config, w: World, op: Op, p: Pair, h: History)
    requires ValidConfig(cfg)
    requires PairAgrees(cfg, Entry(w, p), GetOpen(w.rows, p), h)
    ensures var v := NextView(cfg, w, op, p);
            PairAgrees(cfg, v.member, v.open, Next(cfg, h, w, op, p))
  {
    hide LatestRun, SaysInside, GetOpen;
    if op.See? && op.pair == p {
      SeenAgrees(cfg, Entry(w, p), GetOpen(w.rows, p), h, op.inside, |w.rows|);
    } else {
      EmptyHistory(cfg, false);
      EmptyHistory(cfg, SaysInside(cfg, h));
    }
  }

  /** One observation of the pair itself. */
  lemma SeenAgrees(cfg: Config, m: Option<Member>, open: Option<nat>, h: History, inside: bool, newId: nat)
    requires ValidConfig(cfg) && PairAgrees(cfg, m, open, h)
    ensures var v := if inside then InsideView(cfg, View(m, open), newId) else OutsideView(cfg, View(m, open));
            PairAgrees(cfg, v.member, v.open, h.(seen := h.seen + [inside]))
  {
    TrailingAppend(h.seen, inside, true);
    TrailingAppend(h.seen, inside, false);
    SaysInsideAppend(cfg, h, inside);
    hide SaysInside, Trailing;
  }

  lemma EmptyHistory(cfg: Config, base: bool)
    ensures SaysInside(cfg, History(base, [])) == base
  {
  }

  /** On every run the memory mirrors the table, each pair has at most one open session, and it
      has one exactly when its observation history says it is inside. */
  lemma {:induction false} RunRefinesHistory(cfg: Config, ops: seq<Op>)
    requires ValidConfig(cfg)
    ensures Sound(cfg, Exec(cfg, ops))
    ensures forall p :: PairAgrees(cfg, Entry(Exec(cfg, ops), p), GetOpen(Exec(cfg, ops).rows, p),
                                   HistoryOf(cfg, ops, p))
  {
    hide PairAgrees, Mirrors, UniqueOpen, Next, Apply;
    var w' := Exec(cfg, ops);
    StartAgrees(cfg, Pair(0, 0));
    if ops == [] {
      forall p ensures PairAgrees(cfg, Entry(w', p), GetOpen(w'.rows, p), HistoryOf(cfg, ops, p)) {
        StartAgrees(cfg, p);
      }
    } else {
      var init, op := ops[..|ops|-1], ops[|ops|-1];
      RunRefinesHistory(cfg, init);
      var w := Exec(cfg, init);
      if Enabled(w, op) {
        forall p ensures PairAgrees(cfg, Entry(w', p), GetOpen(w'.rows, p), HistoryOf(cfg, ops, p)) {
          StepSeen(cfg, w, op, p);
          ViewAgrees(cfg, w, op, p, HistoryOf(cfg, init, p));
        }
        StepSeen(cfg, w, op, Pair(0, 0));
      }
    }
    AgreementIsSound(cfg, w', ops);
  }

  lemma StartAgrees(cfg: Config, p: Pair)
    ensures PairAgrees(cfg, None, GetOpen([], p), History(false, []))
    ensures UniqueOpen([])
  {
  }

  lemma AgreementIsSound(cfg: Config, w: World, ops: seq<Op>)
    requires UniqueOpen(w.rows)
    requires forall p :: PairAgrees(cfg, Entry(w, p), GetOpen(w.rows, p), HistoryOf(cfg, ops, p))
    ensures Sound(cfg, w)
  {
  }

  ghost function Observations(ops: seq<Op>, pair: Pair): seq<bool> {
    if ops == [] then []
    else
      var op := ops[|ops|-1];
      Observations(ops[..|ops|-1], pair) + if op.See? && op.pair == pair then [op.inside] else []
  }

  /** With nothing but observations, a session is open just when the latest run of
      `enterConfirm` insides ended later than the latest run of `exitConfirm` outsides. */
  lemma {:induction false} Hysteresis(cfg: Config, ops: seq<Op>, pair: Pair)
    requires ValidConfig(cfg) && forall i | 0 <= i < |ops| :: ops[i].See?
    ensures GetOpen(Exec(cfg, ops).rows, pair).Some? <==>
              LatestRun(Observations(ops, pair), true, cfg.enterConfirm)
                > LatestRun(Observations(ops, pair), false, cfg.exitConfirm)
  {
    RunRefinesHistory(cfg, ops);
    HistoryIsObservations(cfg, ops, pair);
    assert PairAgrees(cfg, Entry(Exec(cfg, ops), pair), GetOpen(Exec(cfg, ops).rows, pair),
                      HistoryOf(cfg, ops, pair));
  }

  lemma {:induction false} HistoryIsObservations(cfg: Config, ops: seq<Op>, pair: Pair)
    requires forall i | 0 <= i < |ops| :: ops[i].See?
    ensures HistoryOf(cfg, ops, pair) == History(false, Observations(ops, pair))
  {
    if ops != [] {
      HistoryIsObservations(cfg, ops[..|ops|-1], pair);
      var seen := Observations(ops[..|ops|-1], pair);
      assert seen + [] == seen;
    }
  }

  /** An inside observation dates the pair's open session, so only an unseen one goes stale. */
  lemma InsideRefreshes(cfg: Config, ops: seq<Op>, pair: Pair, at: int)
    requires ValidConfig(cfg)
    ensures var rows := Exec(cfg, ops + [See(pair, true, at)]).rows;
            GetOpen(rows, pair).Some? ==> rows[GetOpen(rows, pair).value].lastSeen == at
  {
    hide CountOpen, Exec;
    var w := Exec(cfg, ops);
    RunRefinesHistory(cfg, ops);
    ExecSees(cfg, ops, [], pair, true, at);
    assert ops + [] == ops && [] + [See(pair, true, at)] == [See(pair, true, at)];
    InsideSeen(cfg, w, pair, at, pair);
  }

  /** One observation of many zones is a run of single observations. */
  function ZoneOps(entity: nat, zones: seq<Sighting>, at: int): seq<Op> {
    if zones == [] then []
    else
      var n := |zones| - 1;
      ZoneOps(entity, zones[..n], at) +
        match zones[n].reading
        case GeometryFailed => []
        case Filtered => [See(Pair(entity, zones[n].zone), false, at)]
        case Located(inside) => [See(Pair(entity, zones[n].zone), inside, at)]
  }

  lemma ExecSees(cfg: Config, ops: seq<Op>, more: seq<Op>, pair: Pair, inside: bool, at: int)
    ensures Exec(cfg, ops + (more + [See(pair, inside, at)]))
         == Apply(cfg, Exec(cfg, ops + more), See(pair, inside, at))
  {
    var all := ops + (more + [See(pair, inside, at)]);
    assert all[..|all|-1] == ops + more;
  }

  lemma {:induction false} ObserveZonesIsRun(cfg: Config, ops: seq<Op>, entity: nat, zones: seq<Sighting>, at: int)
    ensures Exec(cfg, ops + ZoneOps(entity, zones, at))
         == ObserveZones(cfg, Exec(cfg, ops), entity, zones, at)
  {
    if zones == [] {
      assert ops + [] == ops;
    } else {
      hide ObserveInside, ObserveOutside, Exec;
      var n := |zones| - 1;
      ObserveZonesIsRun(cfg, ops, entity, zones[..n], at);
      var earlier := ZoneOps(entity, zones[..n], at);
      var pair := Pair(entity, zones[n].zone);
      match zones[n].reading
      case GeometryFailed => assert earlier + [] == earlier;
      case Filtered => ExecSees(cfg, ops, earlier, pair, false, at);
      case Located(inside) => ExecSees(cfg, ops, earlier, pair, inside, at);
    }
  }
}
