/** Entity memory and the spatial machine in one transaction: each counted event is followed by one
    spatial observation of the same entity, a closing one when the event is an exit. */
module EntitySessions {
  import opened Options
  import T = EntityTables
  import M = EntityMemory
  import R = EntityRuns
  import W = EntitySnapshots
  import Z = ZoneSessions
  import S = Spatial
  import X = SpatialRuns

  /** The stale rows a reconciliation listed. */
  datatype Reaping = Reaping(ids: seq<nat>, cutoff: int)

  /** A vision event, what geometry says of each zone, and what the queries answered; or a restart of
      the process, which loses both memories. */
  datatype Beat =
    | Vision(event: M.VisionEvent, zones: seq<S.Sighting>, reaping: Option<Reaping>, forced: seq<nat>)
    | Restart

  /** process_observation for entity `id`. */
  function BeatOps(id: nat, b: Beat): seq<X.Op>
    requires b.Vision?
  {
    (if b.reaping.Some? then [X.Stale(b.reaping.value.ids, b.reaping.value.cutoff, b.event.at)] else [])
    + if b.event.kind == T.Exited then [X.Force(id, b.forced, b.event.at)] else X.ZoneOps(id, b.zones, b.event.at)
  }

  function TurnOf(b: Beat): W.Turn {
    if b.Restart? then W.Restart else W.Handled(b.event)
  }

  /** The entity store after the beats. */
  ghost function StoreAfter(cfg: M.Config, beats: seq<Beat>): M.Store {
    W.Life(cfg, seq(|beats|, i requires 0 <= i < |beats| => TurnOf(beats[i])))
  }

  lemma StoreSnoc(cfg: M.Config, beats: seq<Beat>, b: Beat)
    ensures StoreAfter(cfg, beats + [b]) == W.Turned(cfg, StoreAfter(cfg, beats), TurnOf(b))
  {
    hide TurnOf, W.Turned;
    var before := seq(|beats|, i requires 0 <= i < |beats| => TurnOf(beats[i]));
    W.LifeSnoc(cfg, before, TurnOf(b));
    assert before + [TurnOf(b)] == seq(|beats| + 1, i requires 0 <= i < |beats| + 1 => TurnOf((beats + [b])[i]));
  }

  ghost function NextOps(cfg: M.Config, before: seq<Beat>, b: Beat): seq<X.Op> {
    if b.Restart? then [X.Restart]
    else match R.LandedOn(StoreAfter(cfg, before), b.event)
         case None => []
         case Some(id) => BeatOps(id, b)
  }

  ghost function Ops(cfg: M.Config, beats: seq<Beat>): seq<X.Op> {
    if beats == [] then []
    else Ops(cfg, beats[..|beats|-1]) + NextOps(cfg, beats[..|beats|-1], beats[|beats|-1])
  }

  /** The queries' answers were possible ones. */
  ghost predicate AllEnabled(spatial: S.Config, ops: seq<X.Op>) {
    forall k | 0 <= k < |ops| :: X.Enabled(X.Exec(spatial, ops[..k]), ops[k])
  }

  ghost predicate IsOpenPair(spatial: S.Config, ops: seq<X.Op>, p: Z.Pair) {
    Z.GetOpen(X.Exec(spatial, ops).rows, p).Some?
  }

  predicate Concerns(op: X.Op, id: nat) {
    match op
    case See(pair, _, _) => pair.entity == id
    case Force(entity, _, _) => entity == id
    case Stale(_, _, _) => true
    case Restart => true
  }

  lemma {:induction false} ZoneOpsConcern(id: nat, zones: seq<S.Sighting>, at: int)
    ensures forall k | 0 <= k < |X.ZoneOps(id, zones, at)| :: Concerns(X.ZoneOps(id, zones, at)[k], id)
  {
    if zones != [] { ZoneOpsConcern(id, zones[..|zones|-1], at); }
  }

  lemma ExecSnoc(spatial: S.Config, ops: seq<X.Op>, op: X.Op)
    requires X.Enabled(X.Exec(spatial, ops), op)
    ensures X.Exec(spatial, ops + [op]) == X.Apply(spatial, X.Exec(spatial, ops), op)
  {
    hide X.Enabled, X.Apply;
    assert (ops + [op])[..|ops|] == ops;
  }

  /** The view after one operation: open only if it was, or for its own entity and not by a forced close. */
  lemma ViewOpens(spatial: S.Config, w: S.World, op: X.Op, id: nat, p: Z.Pair)
    requires Concerns(op, id) && X.Enabled(w, op)
    ensures X.NextView(spatial, w, op, p).open.Some? ==>
      && (X.ViewOf(w, p).open.Some? || p.entity == id)
      && !(op.Force? && p.entity == id)
  {
  }

  /** One operation opens sessions of its own entity only, and a forced close leaves none. */
  lemma OpOpens(spatial: S.Config, ops: seq<X.Op>, op: X.Op, id: nat, p: Z.Pair)
    requires S.ValidConfig(spatial) && Concerns(op, id) && X.Enabled(X.Exec(spatial, ops), op)
    ensures IsOpenPair(spatial, ops + [op], p) ==>
      && (IsOpenPair(spatial, ops, p) || p.entity == id)
      && !(op.Force? && p.entity == id)
  {
    X.RunRefinesHistory(spatial, ops);
    hide X.Apply, X.Enabled, X.Exec, X.NextView, X.Sound, Concerns, Z.GetOpen, X.HistoryOf, X.PairAgrees;
    ExecSnoc(spatial, ops, op);
    X.StepSeen(spatial, X.Exec(spatial, ops), op, p);
    ViewOpens(spatial, X.Exec(spatial, ops), op, id, p);
  }

  lemma {:induction false} OpsOpen(spatial: S.Config, ops: seq<X.Op>, more: seq<X.Op>, id: nat, p: Z.Pair)
    requires S.ValidConfig(spatial) && AllEnabled(spatial, ops + more)
    requires forall k | 0 <= k < |more| :: Concerns(more[k], id)
    ensures IsOpenPair(spatial, ops + more, p) ==>
      && (IsOpenPair(spatial, ops, p) || p.entity == id)
      && !(more != [] && more[|more|-1].Force? && p.entity == id)
  {
    if more == [] {
      assert ops + more == ops;
    } else {
      hide *;
      var n := |more| - 1;
      SplitLast(ops, more);
      EnabledPrefix(spatial, ops + more, |ops + more| - 1);
      OpsOpen(spatial, ops, more[..n], id, p);
      OpOpens(spatial, ops + more[..n], more[n], id, p);
    }
  }

  lemma SplitLast<A>(a: seq<A>, b: seq<A>)
    requires b != []
    ensures var n := |b| - 1;
            && a + b == a + b[..n] + [b[n]] && (a + b)[..|a + b|-1] == a + b[..n] && (a + b)[|a + b|-1] == b[n]
  {
  }

  lemma EnabledPrefix(spatial: S.Config, ops: seq<X.Op>, n: nat)
    requires AllEnabled(spatial, ops) && n <= |ops|
    ensures AllEnabled(spatial, ops[..n])
    ensures n < |ops| ==> X.Enabled(X.Exec(spatial, ops[..n]), ops[n])
  {
    hide X.Enabled, X.Exec;
    forall k | 0 <= k < n ensures X.Enabled(X.Exec(spatial, ops[..n][..k]), ops[..n][k]) {
      assert ops[..n][..k] == ops[..k];
    }
  }

  ghost predicate OnlyActive(spatial: S.Config, ops: seq<X.Op>, entities: seq<T.Entity>) {
    forall p: Z.Pair :: IsOpenPair(spatial, ops, p) ==> W.IsActive(entities, p.entity)
  }

  lemma BeatKeeps(cfg: M.Config, spatial: S.Config, ops: seq<X.Op>, s: M.Store, s': M.Store, b: Beat, id: nat)
    requires S.ValidConfig(spatial) && OnlyActive(spatial, ops, s.entities) && b.Vision?
    requires W.Writes(cfg, s, s', b.event, id) && AllEnabled(spatial, ops + BeatOps(id, b))
    ensures OnlyActive(spatial, ops + BeatOps(id, b), s'.entities)
  {
    var more := BeatOps(id, b);
    ZoneOpsConcern(id, b.zones, b.event.at);
    assert b.event.kind == T.Exited ==> more != [] && more[|more|-1].Force?;
    assert W.IsActive(s'.entities, id) <==> b.event.kind != T.Exited;
    assert forall j: nat | j != id && W.IsActive(s.entities, j) :: W.IsActive(s'.entities, j);
    assert forall k | 0 <= k < |more| :: Concerns(more[k], id);
    hide IsOpenPair, AllEnabled, W.Writes, BeatOps, W.IsActive;
    forall p: Z.Pair | IsOpenPair(spatial, ops + more, p) ensures W.IsActive(s'.entities, p.entity) {
      OpsOpen(spatial, ops, more, id, p);
    }
  }

  lemma RestartKeeps(spatial: S.Config, ops: seq<X.Op>, entities: seq<T.Entity>)
    requires S.ValidConfig(spatial) && OnlyActive(spatial, ops, entities)
    ensures OnlyActive(spatial, ops + [X.Restart], entities)
  {
    assert (ops + [X.Restart])[..|ops|] == ops;
    hide X.Apply;
    forall p: Z.Pair | IsOpenPair(spatial, ops + [X.Restart], p) ensures IsOpenPair(spatial, ops, p) {
      X.RunRefinesHistory(spatial, ops);
      X.StepSeen(spatial, X.Exec(spatial, ops), X.Restart, p);
    }
  }

  lemma NoneOpenAtFirst(cfg: M.Config, spatial: S.Config)
    ensures OnlyActive(spatial, Ops(cfg, []), StoreAfter(cfg, []).entities)
  {
    hide StoreAfter;
    assert X.Exec(spatial, []).rows == [];
  }

  lemma OpsSnoc(cfg: M.Config, before: seq<Beat>, b: Beat)
    ensures Ops(cfg, before + [b]) == Ops(cfg, before) + NextOps(cfg, before, b)
  {
    hide NextOps;
    assert (before + [b])[..|before|] == before;
  }

  lemma NextKeeps(cfg: M.Config, spatial: S.Config, ops: seq<X.Op>, before: seq<Beat>, b: Beat)
    requires S.ValidConfig(spatial) && OnlyActive(spatial, ops, StoreAfter(cfg, before).entities)
    requires AllEnabled(spatial, ops + NextOps(cfg, before, b))
    ensures OnlyActive(spatial, ops + NextOps(cfg, before, b), StoreAfter(cfg, before + [b]).entities)
  {
    hide AllEnabled, OnlyActive, StoreAfter, M.Process, W.Writes, R.LandedOn;
    var s := StoreAfter(cfg, before);
    StoreSnoc(cfg, before, b);
    if b.Restart? {
      RestartKeeps(spatial, ops, s.entities);
    } else {
      W.ProcessWrites(cfg, s, b.event);
      match R.LandedOn(s, b.event)
      case None => assert ops + [] == ops;
      case Some(id) => BeatKeeps(cfg, spatial, ops, s, M.Process(cfg, s, b.event), b, id);
    }
  }

  /** On every run with spatial processing on, restarts included, every open zone session belongs to an
      ACTIVE entity: closing an entity closes its sessions, and nothing that arrives late or twice
      opens one again. */
  lemma {:induction false} OpenSessionsAreOfActiveEntities(cfg: M.Config, spatial: S.Config, beats: seq<Beat>)
    requires S.ValidConfig(spatial) && AllEnabled(spatial, Ops(cfg, beats))
    ensures OnlyActive(spatial, Ops(cfg, beats), StoreAfter(cfg, beats).entities)
  {
    hide *;
    if beats == [] {
      NoneOpenAtFirst(cfg, spatial);
    } else {
      var n := |beats| - 1;
      var ops := Ops(cfg, beats[..n]);
      assert beats == beats[..n] + [beats[n]];
      OpsSnoc(cfg, beats[..n], beats[n]);
      EnabledPrefix(spatial, Ops(cfg, beats), |ops|);
      assert Ops(cfg, beats)[..|ops|] == ops;
      OpenSessionsAreOfActiveEntities(cfg, spatial, beats[..n]);
      NextKeeps(cfg, spatial, ops, beats[..n], beats[n]);
    }
  }
}
