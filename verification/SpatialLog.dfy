/** The published log and the dates of the session rows, told from the run: each transition with its
    occupancy change when that is configured, at the time of its operation; each open session last
    seen when its pair was last observed inside. */
module SpatialLog {
  import opened Options
  import opened Sql
  import opened ZoneSessions
  import opened Spatial
  import opened SpatialRuns
  import opened Occupancy

  // ---- occupancy changes ----

  /** The occupancy change that belongs to a transition: same session, pair, time and count. */
  function ChangeOf(e: SpatialEvent): SpatialEvent {
    e.(kind := if e.kind == ZoneEntered then OccupancyAfterEnter else OccupancyAfterExit)
  }

  /** With the setting on, every transition is followed by its change and every change follows its
      transition; with it off there are only transitions. */
  ghost predicate Paired(on: bool, log: seq<SpatialEvent>) {
    && (forall i | 0 <= i < |log| && IsTransition(log[i]) ::
         on ==> i + 1 < |log| && log[i+1] == ChangeOf(log[i]))
    && (forall i | 0 <= i < |log| && !IsTransition(log[i]) ::
         on && i > 0 && IsTransition(log[i-1]) && log[i] == ChangeOf(log[i-1]))
  }

  lemma PairedAppend(on: bool, a: seq<SpatialEvent>, b: seq<SpatialEvent>)
    requires Paired(on, a) && Paired(on, b)
    ensures Paired(on, a + b)
  {
    var all := a + b;
    forall i | 0 <= i < |all| && IsTransition(all[i]) && on
      ensures i + 1 < |all| && all[i+1] == ChangeOf(all[i])
    {
      if i >= |a| { assert IsTransition(b[i-|a|]); }
    }
    forall i | 0 <= i < |all| && !IsTransition(all[i])
      ensures on && i > 0 && IsTransition(all[i-1]) && all[i] == ChangeOf(all[i-1])
    {
      if i >= |a| { assert !IsTransition(b[i-|a|]); }
    }
  }

  /** What the log gained: paired events, all of one time. */
  ghost predicate Gained(on: bool, log: seq<SpatialEvent>, log': seq<SpatialEvent>, at: int) {
    && log <= log' && Paired(on, log'[|log|..])
    && forall i | |log| <= i < |log'| :: log'[i].at == at
  }

  lemma GainedAgain(on: bool, a: seq<SpatialEvent>, b: seq<SpatialEvent>, c: seq<SpatialEvent>, at: int)
    requires Gained(on, a, b, at) && Gained(on, b, c, at)
    ensures Gained(on, a, c, at)
  {
    hide Paired;
    PairedAppend(on, b[|a|..], c[|b|..]);
    assert c[|a|..] == b[|a|..] + c[|b|..];
    assert forall i | |a| <= i < |b| :: c[i] == b[i];
  }

  lemma GainedNothing(on: bool, log: seq<SpatialEvent>, at: int)
    ensures Gained(on, log, log, at)
  {
  }

  lemma EntersArePaired(cfg: Config, log: seq<SpatialEvent>, id: nat, pair: Pair, at: int, occupancy: nat)
    ensures Gained(cfg.publishOccupancy, log, log + EnterEvents(cfg, id, pair, at, occupancy), at)
  {
    var events := EnterEvents(cfg, id, pair, at, occupancy);
    assert (log + events)[|log|..] == events;
  }

  lemma ExitsArePaired(cfg: Config, log: seq<SpatialEvent>, id: nat, pair: Pair, at: int, occupancy: nat)
    ensures Gained(cfg.publishOccupancy, log, log + ExitEvents(cfg, id, pair, at, occupancy), at)
  {
    var events := ExitEvents(cfg, id, pair, at, occupancy);
    assert (log + events)[|log|..] == events;
  }

  // ---- closing ----

  /** Some open rows were closed at `at`; the others stayed as they were. */
  ghost predicate ClosesAt(rows: Rows, rows': Rows, at: int) {
    && |rows'| == |rows|
    && forall i | 0 <= i < |rows| ::
         || rows'[i] == rows[i]
         || (rows[i].isOpen && !rows'[i].isOpen && rows'[i].pair == rows[i].pair
             && rows'[i].exitedAt == Some(at) && rows'[i].lastSeen == at)
  }

  ghost predicate Closes(cfg: Config, w: World, w': World, at: int) {
    ClosesAt(w.rows, w'.rows, at) && Gained(cfg.publishOccupancy, w.log, w'.log, at)
  }

  lemma ClosesOne(cfg: Config, w: World, id: nat, at: int)
    requires IsOpen(w.rows, id)
    ensures Closes(cfg, w, CloseOpen(cfg, w, id, at), at)
  {
    hide Gained, ExitEvents, CountOpen;
    var count := CountOpen(w.rows, w.rows[id].pair.zone);
    ExitsArePaired(cfg, w.log, id, w.rows[id].pair, at, if count >= 1 then count - 1 else 0);
  }

  lemma ClosesMore(cfg: Config, a: World, b: World, c: World, at: int)
    requires Closes(cfg, a, b, at) && Closes(cfg, b, c, at)
    ensures Closes(cfg, a, c, at)
  {
    hide Gained;
    GainedAgain(cfg.publishOccupancy, a.log, b.log, c.log, at);
  }

  lemma ClosesNone(cfg: Config, w: World, w': World, at: int)
    requires w'.rows == w.rows && w'.log == w.log
    ensures Closes(cfg, w, w', at)
  {
    GainedNothing(cfg.publishOccupancy, w.log, at);
  }

  lemma {:induction false} ClosesAll(cfg: Config, w: World, ids: seq<nat>, at: int)
    requires InTable(w.rows, ids) && Distinct(ids) && forall i | 0 <= i < |ids| :: IsOpen(w.rows, ids[i])
    ensures Closes(cfg, w, CloseAll(cfg, w, ids, at), at)
    decreases |ids|
  {
    hide Closes, CloseOpen, Distinct;
    if ids == [] {
      ClosesNone(cfg, w, w, at);
    } else {
      ClosesOne(cfg, w, ids[0], at);
      StillOpen(cfg, w, ids, at, Pair(0, 0));
      var next := CloseOpen(cfg, w, ids[0], at);
      ClosesAll(cfg, next, ids[1..], at);
      ClosesMore(cfg, w, next, CloseAll(cfg, w, ids, at), at);
    }
  }

  lemma {:induction false} ReapCloses(cfg: Config, w: World, ids: seq<nat>, at: int)
    requires InTable(w.rows, ids) && Distinct(ids) && forall i | 0 <= i < |ids| :: IsOpen(w.rows, ids[i])
    ensures Closes(cfg, w, Reap(cfg, w, ids, at), at)
    decreases |ids|
  {
    hide Closes, CloseOpen, Distinct;
    if ids == [] {
      ClosesNone(cfg, w, w, at);
    } else {
      ClosesOne(cfg, w, ids[0], at);
      StillOpen(cfg, w, ids, at, Pair(0, 0));
      var closed := CloseOpen(cfg, w, ids[0], at);
      var next := Forget(closed, {w.rows[ids[0]].pair});
      ClosesNone(cfg, closed, next, at);
      ReapCloses(cfg, next, ids[1..], at);
      ClosesMore(cfg, w, closed, next, at);
      ClosesMore(cfg, w, next, Reap(cfg, w, ids, at), at);
    }
  }

  // ---- seeing ----

  /** The rows after the pair was observed inside: its open row, or a new one, was seen just now. */
  ghost predicate SeesAt(rows: Rows, rows': Rows, pair: Pair, at: int) {
    && |rows| <= |rows'| <= |rows| + 1
    && (forall i | 0 <= i < |rows| ::
         rows'[i] == if rows[i].isOpen && rows[i].pair == pair then rows[i].(lastSeen := at) else rows[i])
    && (|rows'| > |rows| ==> rows'[|rows|].isOpen && rows'[|rows|].pair == pair
                             && rows'[|rows|].enteredAt == at && rows'[|rows|].lastSeen == at)
  }

  lemma InsideSees(cfg: Config, w: World, pair: Pair, at: int)
    requires ValidConfig(cfg) && Sound(cfg, w)
    ensures SeesAt(w.rows, ObserveInside(cfg, w, pair, at).rows, pair, at)
    ensures Gained(cfg.publishOccupancy, w.log, ObserveInside(cfg, w, pair, at).log, at)
  {
    hide CountOpen, EnterEvents, Gained;
    GainedNothing(cfg.publishOccupancy, w.log, at);
    EntersArePaired(cfg, w.log, |w.rows|, pair, at, CountOpen(w.rows, pair.zone) + 1);
    var open := GetOpen(w.rows, pair);
    if open.Some? {
      assert forall i: nat | IsOpen(w.rows, i) && i != open.value :: w.rows[i].pair != pair;
    }
  }

  lemma OutsideCloses(cfg: Config, w: World, pair: Pair, at: int)
    requires ValidConfig(cfg) && Sound(cfg, w)
    ensures Closes(cfg, w, ObserveOutside(cfg, w, pair, at), at)
  {
    hide Closes, CloseOpen;
    ClosesNone(cfg, w, ObserveOutside(cfg, w, pair, at).(rows := w.rows, log := w.log), at);
    var open := GetOpen(w.rows, pair);
    if open.Some? {
      var m := Recovered(w, pair);
      var m' := m.(phase := CandidateExit, exitCount := m.exitCount + 1, enterCount := 0);
      var counting := w.(members := w.members[pair := m']);
      ClosesNone(cfg, w, counting, at);
      ClosesOne(cfg, counting, open.value, at);
      ClosesMore(cfg, w, counting, CloseOpen(cfg, counting, open.value, at), at);
    }
  }

  // ---- every run ----

  function TimeOf(op: Op): int {
    match op
    case See(_, _, at) => at
    case Force(_, _, at) => at
    case Stale(_, _, now) => now
    case Restart => 0
  }

  /** When the pair was last observed inside. */
  function LastInside(ops: seq<Op>, pair: Pair): Option<int> {
    if ops == [] then None
    else
      var op := ops[|ops|-1];
      if op.See? && op.pair == pair && op.inside then Some(op.at) else LastInside(ops[..|ops|-1], pair)
  }

  predicate DatedRow(row: Row, ops: seq<Op>) {
    if row.isOpen then LastInside(ops, row.pair) == Some(row.lastSeen) else row.exitedAt == Some(row.lastSeen)
  }

  ghost predicate Dated(rows: Rows, ops: seq<Op>) {
    forall i | 0 <= i < |rows| :: DatedRow(rows[i], ops)
  }

  lemma LastInsideSnoc(ops: seq<Op>, op: Op, pair: Pair)
    ensures LastInside(ops + [op], pair)
         == if op.See? && op.pair == pair && op.inside then Some(op.at) else LastInside(ops, pair)
  {
    assert (ops + [op])[..|ops|] == ops;
  }

  lemma ClosingKeepsDates(rows: Rows, rows': Rows, at: int, ops: seq<Op>, op: Op)
    requires Dated(rows, ops) && ClosesAt(rows, rows', at) && !(op.See? && op.inside)
    ensures Dated(rows', ops + [op])
  {
    hide LastInside;
    forall i | 0 <= i < |rows'| ensures DatedRow(rows'[i], ops + [op]) {
      LastInsideSnoc(ops, op, rows'[i].pair);
      assert DatedRow(rows[i], ops);
    }
  }

  lemma SeeingKeepsDates(rows: Rows, rows': Rows, ops: seq<Op>, op: Op)
    requires Dated(rows, ops) && op.See? && op.inside && SeesAt(rows, rows', op.pair, op.at)
    ensures Dated(rows', ops + [op])
  {
    hide LastInside;
    forall i | 0 <= i < |rows'| ensures DatedRow(rows'[i], ops + [op]) {
      LastInsideSnoc(ops, op, rows'[i].pair);
      if i < |rows| { assert DatedRow(rows[i], ops); }
    }
  }

  lemma StepLogs(cfg: Config, w: World, ops: seq<Op>, op: Op)
    requires ValidConfig(cfg) && Sound(cfg, w) && Enabled(w, op) && Dated(w.rows, ops)
    ensures var w' := Apply(cfg, w, op);
            Gained(cfg.publishOccupancy, w.log, w'.log, TimeOf(op)) && Dated(w'.rows, ops + [op])
  {
    hide Gained, ClosesAt, SeesAt, Dated, ObserveInside, ObserveOutside, CloseAll, Reap, Sound;
    var w' := Apply(cfg, w, op);
    match op
    case See(pair, inside, at) =>
      if inside {
        InsideSees(cfg, w, pair, at);
        SeeingKeepsDates(w.rows, w'.rows, ops, op);
      } else {
        OutsideCloses(cfg, w, pair, at);
        ClosingKeepsDates(w.rows, w'.rows, at, ops, op);
      }
    case Force(entity, ids, at) =>
      ForcedInTable(w, entity, ids);
      ClosesAll(cfg, w, ids, at);
      ClosingKeepsDates(w.rows, w'.rows, at, ops, op);
    case Stale(ids, cutoff, now) =>
      StaleInTable(w, cutoff, ids);
      ReapCloses(cfg, w, ids, now);
      ClosingKeepsDates(w.rows, w'.rows, now, ops, op);
    case Restart =>
      ClosesNone(cfg, w, w', 0);
      ClosingKeepsDates(w.rows, w'.rows, 0, ops, op);
  }

  lemma ExecSnoc(cfg: Config, ops: seq<Op>, op: Op)
    ensures var w := Exec(cfg, ops);
            Exec(cfg, ops + [op]) == if Enabled(w, op) then Apply(cfg, w, op) else w
  {
    hide Enabled, Apply;
    assert (ops + [op])[..|ops|] == ops;
  }

  lemma DisabledKeepsDates(rows: Rows, ops: seq<Op>, op: Op)
    requires Dated(rows, ops) && !op.See?
    ensures Dated(rows, ops + [op])
  {
    ClosingKeepsDates(rows, rows, 0, ops, op);
  }

  /** On every run, an open session was last seen when its pair was last observed inside, a closed one
      when it was closed. */
  lemma {:induction false} RowsAreDated(cfg: Config, ops: seq<Op>)
    requires ValidConfig(cfg)
    ensures Dated(Exec(cfg, ops).rows, ops)
  {
    hide *;
    if ops == [] {
      NothingDated(cfg);
    } else {
      var init, op := ops[..|ops|-1], ops[|ops|-1];
      assert ops == init + [op];
      RowsAreDated(cfg, init);
      RunRefinesHistory(cfg, init);
      ExecSnoc(cfg, init, op);
      if Enabled(Exec(cfg, init), op) {
        StepLogs(cfg, Exec(cfg, init), init, op);
      } else {
        SeeIsEnabled(Exec(cfg, init), op);
        DisabledKeepsDates(Exec(cfg, init).rows, init, op);
      }
    }
  }

  lemma NothingDated(cfg: Config)
    ensures Dated(Exec(cfg, []).rows, [])
  {
  }

  lemma SeeIsEnabled(w: World, op: Op)
    ensures op.See? ==> Enabled(w, op)
  {
  }

  /** What one more operation publishes bears its time, and comes in pairs as configured. */
  lemma NewsIsNow(cfg: Config, ops: seq<Op>, op: Op)
    requires ValidConfig(cfg)
    ensures Gained(cfg.publishOccupancy, Exec(cfg, ops).log, Exec(cfg, ops + [op]).log, TimeOf(op))
  {
    hide *;
    RowsAreDated(cfg, ops);
    RunRefinesHistory(cfg, ops);
    ExecSnoc(cfg, ops, op);
    if Enabled(Exec(cfg, ops), op) {
      StepLogs(cfg, Exec(cfg, ops), ops, op);
    } else {
      GainedNothing(cfg.publishOccupancy, Exec(cfg, ops).log, TimeOf(op));
    }
  }

  /** On every run: with occupancy changes switched off none is published; switched on, each transition is
      followed at once by the change of the same session, pair, time and count, and no other change
      is published. */
  lemma {:induction false} ChangesFollowTransitions(cfg: Config, ops: seq<Op>)
    requires ValidConfig(cfg)
    ensures Paired(cfg.publishOccupancy, Exec(cfg, ops).log)
  {
    if ops != [] {
      hide Paired, Enabled, Apply;
      var init := ops[..|ops|-1];
      var log, log' := Exec(cfg, init).log, Exec(cfg, ops).log;
      ChangesFollowTransitions(cfg, init);
      NewsIsNow(cfg, init, ops[|ops|-1]);
      assert ops == init + [ops[|ops|-1]];
      PairedAppend(cfg.publishOccupancy, log, log'[|log|..]);
      assert log' == log + log'[|log|..];
    }
  }

  // ---- stale sessions ----

  predicate IsStale(rows: Rows, ops: seq<Op>, cutoff: int, id: nat) {
    && IsOpen(rows, id)
    && LastInside(ops, rows[id].pair).Some? && LastInside(ops, rows[id].pair).value < cutoff
  }

  /** Reconciliation closes only open sessions whose pair was last observed inside before the cutoff, all
      of them when the limit allows, and otherwise those unseen the longest. */
  lemma StaleAreUnseen(cfg: Config, ops: seq<Op>, cutoff: int, limit: nat, ids: seq<nat>, id: nat, other: nat)
    requires ValidConfig(cfg)
    requires var rows := Exec(cfg, ops).rows;
             IsSelection(ids, StaleIds(rows, cutoff), LastSeen(rows), limit)
    ensures var rows := Exec(cfg, ops).rows;
            && (id in ids ==> IsStale(rows, ops, cutoff, id))
            && (limit >= |rows| ==> (id in ids <==> IsStale(rows, ops, cutoff, id)))
            && (id in ids && other !in ids && IsStale(rows, ops, cutoff, other) ==>
                 LastInside(ops, rows[id].pair).value <= LastInside(ops, rows[other].pair).value)
  {
    var rows := Exec(cfg, ops).rows;
    RowsAreDated(cfg, ops);
    hide Exec, LastInside, IsSelection, StaleIds;
    SelectionTells(ids, StaleIds(rows, cutoff), LastSeen(rows), limit, |rows|, id, other);
    StaleIsUnseen(rows, ops, cutoff, id);
    StaleIsUnseen(rows, ops, cutoff, other);
  }

  lemma StaleIsUnseen(rows: Rows, ops: seq<Op>, cutoff: int, id: nat)
    requires Dated(rows, ops)
    ensures forall i | i in StaleIds(rows, cutoff) :: i < |rows|
    ensures id in StaleIds(rows, cutoff) <==> IsStale(rows, ops, cutoff, id)
    ensures IsStale(rows, ops, cutoff, id) ==> LastSeen(rows)(id) == LastInside(ops, rows[id].pair).value
  {
    hide LastInside;
    if id < |rows| { assert DatedRow(rows[id], ops); }
  }
}
