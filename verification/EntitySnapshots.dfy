/** What an entity's snapshots tell on every run of entity memory, process restarts included: opened,
    updated at most once an interval, closed with its final row. */
module EntitySnapshots {
  import opened Options
  import opened EntityTables
  import opened EntityMemory
  import opened EntityRuns

  /** An event that was processed, or a restart of the process, which loses the update throttle. */
  datatype Turn = Handled(event: VisionEvent) | Restart

  function Turned(cfg: Config, s: Store, t: Turn): Store {
    match t
    case Handled(e) => Process(cfg, s, e)
    case Restart => s.(lastSnapshot := map[])
  }

  ghost function Life(cfg: Config, turns: seq<Turn>): Store {
    if turns == [] then Store([], [], [], map[])
    else Turned(cfg, Life(cfg, turns[..|turns|-1]), turns[|turns|-1])
  }

  /** How many snapshots there were at each restart. */
  ghost function Marks(cfg: Config, turns: seq<Turn>): set<nat> {
    if turns == [] then {}
    else
      var init := turns[..|turns|-1];
      Marks(cfg, init) + if turns[|turns|-1].Restart? then {|Life(cfg, init).snapshots|} else {}
  }

  // ---- the course of one entity ----

  /** The entity's snapshots, in order. */
  function Shots(snapshots: seq<Snapshot>, id: nat): seq<Snapshot> {
    if snapshots == [] then []
    else
      var last := snapshots[|snapshots|-1];
      Shots(snapshots[..|snapshots|-1], id) + if last.entity == id then [last] else []
  }

  /** One OnCreate, then updates. */
  ghost predicate Course(cfg: Config, shots: seq<Snapshot>) {
    && (forall k | 0 <= k < |shots| :: shots[k].reason == if k == 0 then OnCreate else OnUpdate)
    && (|shots| > 1 ==> cfg.snapshotOnUpdate)
  }

  /** An active entity is on its course. A closed one ended with a snapshot of its final row; it may
      have had no course, when an exit created it. */
  ghost predicate Tells(cfg: Config, e: Entity, shots: seq<Snapshot>) {
    && shots != []
    && if e.status == Active then Course(cfg, shots)
       else
         && Course(cfg, shots[..|shots|-1])
         && shots[|shots|-1].reason == OnClose && shots[|shots|-1].copy == e
  }

  ghost predicate TellsAt(cfg: Config, s: Store, id: nat) {
    if id < |s.entities| then Tells(cfg, s.entities[id], Shots(s.snapshots, id))
    else Shots(s.snapshots, id) == []
  }

  ghost predicate AllTell(cfg: Config, s: Store) {
    forall id: nat :: TellsAt(cfg, s, id)
  }

  // ---- the throttle ----

  predicate IsUpdateOf(one: Snapshot, id: nat) {
    one.reason == OnUpdate && one.entity == id
  }

  /** A restart came after snapshot `a` and before snapshot `b`. */
  predicate Parted(marks: set<nat>, a: nat, b: nat) {
    exists m | m in marks :: a < m <= b
  }

  /** An entity's updates are at least the interval apart unless a restart lies between them. */
  ghost predicate Spaced(cfg: Config, snapshots: seq<Snapshot>, marks: set<nat>) {
    cfg.minInterval > 0 ==>
      forall a, b | 0 <= a < b < |snapshots| && IsUpdateOf(snapshots[a], snapshots[b].entity)
                    && IsUpdateOf(snapshots[b], snapshots[b].entity) ::
        snapshots[b].at - snapshots[a].at >= cfg.minInterval || Parted(marks, a, b)
  }

  predicate IsActive(entities: seq<Entity>, id: nat) {
    id < |entities| && entities[id].status == Active
  }

  /** The throttle remembers every active entity's updates since the last restart, and no other entity. */
  ghost predicate Remembers(cfg: Config, s: Store, marks: set<nat>) {
    && (cfg.minInterval > 0 ==>
          forall a | 0 <= a < |s.snapshots| :: RemembersAt(s, marks, a))
    && (forall a | 0 <= a < |s.snapshots| :: s.snapshots[a].entity < |s.entities|)
    && forall id | id in s.lastSnapshot :: IsActive(s.entities, id)
  }

  ghost predicate RemembersAt(s: Store, marks: set<nat>, a: nat)
    requires a < |s.snapshots|
  {
    var one := s.snapshots[a];
    one.reason == OnUpdate && IsActive(s.entities, one.entity) && !Parted(marks, a, |s.snapshots|) ==>
      one.entity in s.lastSnapshot && one.at <= s.lastSnapshot[one.entity]
  }

  // ---- one event ----

  function ReasonFor(e: VisionEvent, created: bool): Reason {
    if e.kind == Exited then OnClose else if created then OnCreate else OnUpdate
  }

  /** The event changed the active or new entity `id` and wrote what the throttle allows. */
  ghost predicate Writes(cfg: Config, s: Store, s': Store, e: VisionEvent, id: nat) {
    var created := id == |s.entities|;
    var reason := ReasonFor(e, created);
    && id <= |s.entities| && |s'.entities| == |s.entities| + (if created then 1 else 0)
    && (!created ==> s.entities[id].status == Active)
    && (s'.entities[id].status == Closed <==> e.kind == Exited)
    && (forall j | 0 <= j < |s.entities| && j != id :: s'.entities[j] == s.entities[j])
    && if WritesSnapshot(cfg, s.lastSnapshot, id, reason, e.at) then
         && s'.snapshots == s.snapshots + [Snapshot(id, e.at, reason, s'.entities[id])]
         && s'.lastSnapshot == LastSnapshotAfter(s.lastSnapshot, id, reason, e.at)
       else s'.snapshots == s.snapshots && s'.lastSnapshot == s.lastSnapshot
  }

  lemma FinalisedWrites(cfg: Config, s: Store, s1: Store, id: nat, e: VisionEvent, created: bool, closing: bool)
    requires if id < |s.entities| then s.entities[id].status == Active && s1 == Apply(s, id, e)
             else id == |s.entities| && s1 == Create(s, e)
    requires closing == (e.kind == Exited) && (!closing ==> created == (id == |s.entities|))
    ensures Writes(cfg, s, Finalised(cfg, s1, id, e, created, closing), e, id)
  {
  }

  /** An event changes the entity it lands on, and no other. */
  lemma ProcessWrites(cfg: Config, s: Store, e: VisionEvent)
    ensures var s' := Process(cfg, s, e);
            match LandedOn(s, e)
            case None => s'.entities == s.entities && s'.snapshots == s.snapshots && s'.lastSnapshot == s.lastSnapshot
            case Some(id) => Writes(cfg, s, s', e, id)
  {
    hide Finalised, Apply, Create, Writes;
    var active := Latest(s.entities, e.key, true);
    if active.Some? {
      FinalisedWrites(cfg, s, Apply(s, active.value, e), active.value, e, false, e.kind == Exited);
    } else {
      FinalisedWrites(cfg, s, Create(s, e), |s.entities|, e, e.kind != Exited, e.kind == Exited);
    }
  }

  // ---- the course is kept ----

  lemma ShotsSnoc(snapshots: seq<Snapshot>, one: Snapshot, id: nat)
    ensures Shots(snapshots + [one], id) == Shots(snapshots, id) + if one.entity == id then [one] else []
  {
  }

  /** The entity that was written. */
  lemma WrittenTells(cfg: Config, s: Store, s': Store, e: VisionEvent, id: nat)
    requires TellsAt(cfg, s, id) && Writes(cfg, s, s', e, id)
    ensures TellsAt(cfg, s', id)
  {
    var reason := ReasonFor(e, id == |s.entities|);
    var shots, one := Shots(s.snapshots, id), Snapshot(id, e.at, reason, s'.entities[id]);
    ShotsSnoc(s.snapshots, one, id);
    assert Course(cfg, shots);
    hide Shots, Course;
    if reason == OnClose {
      assert (shots + [one])[..|shots|] == shots;
    } else if WritesSnapshot(cfg, s.lastSnapshot, id, reason, e.at) {
      CourseSnoc(cfg, shots, one);
    }
  }

  lemma CourseSnoc(cfg: Config, shots: seq<Snapshot>, one: Snapshot)
    requires Course(cfg, shots) && one.reason == if shots == [] then OnCreate else OnUpdate
    requires one.reason == OnUpdate ==> cfg.snapshotOnUpdate
    ensures Course(cfg, shots + [one])
  {
  }

  lemma OthersTell(cfg: Config, s: Store, s': Store, e: VisionEvent, id: nat, j: nat)
    requires TellsAt(cfg, s, j) && Writes(cfg, s, s', e, id) && j != id
    ensures TellsAt(cfg, s', j)
  {
    ShotsSnoc(s.snapshots, Snapshot(id, e.at, ReasonFor(e, id == |s.entities|), s'.entities[id]), j);
    hide Shots, Tells;
  }

  lemma StepTells(cfg: Config, s: Store, s': Store, e: VisionEvent, id: nat)
    requires AllTell(cfg, s) && Writes(cfg, s, s', e, id)
    ensures AllTell(cfg, s')
  {
    hide Writes, TellsAt;
    forall j: nat ensures TellsAt(cfg, s', j) {
      assert TellsAt(cfg, s, j);
      if j == id { WrittenTells(cfg, s, s', e, id); } else { OthersTell(cfg, s, s', e, id, j); }
    }
  }

  // ---- the throttle is kept ----

  lemma StepSpaced(cfg: Config, s: Store, s': Store, e: VisionEvent, id: nat, marks: set<nat>)
    requires Spaced(cfg, s.snapshots, marks) && Remembers(cfg, s, marks) && Writes(cfg, s, s', e, id)
    ensures Spaced(cfg, s'.snapshots, marks)
  {
    hide Parted;
    if cfg.minInterval > 0 && |s'.snapshots| > |s.snapshots| && s'.snapshots[|s.snapshots|].reason == OnUpdate {
      forall a | 0 <= a < |s.snapshots| && IsUpdateOf(s.snapshots[a], id)
        ensures e.at - s.snapshots[a].at >= cfg.minInterval || Parted(marks, a, |s.snapshots|)
      {
        assert RemembersAt(s, marks, a);
      }
    }
  }

  /** A later snapshot sees every restart an earlier one saw. */
  lemma PartedLater(marks: set<nat>, a: nat, b: nat, c: nat)
    requires Parted(marks, a, b) && b <= c
    ensures Parted(marks, a, c)
  {
  }

  lemma StepRemembers(cfg: Config, s: Store, s': Store, e: VisionEvent, id: nat, marks: set<nat>)
    requires Remembers(cfg, s, marks) && Writes(cfg, s, s', e, id)
    ensures Remembers(cfg, s', marks)
  {
    if cfg.minInterval > 0 {
      forall a | 0 <= a < |s'.snapshots| ensures RemembersAt(s', marks, a) {
        if a < |s.snapshots| {
          assert RemembersAt(s, marks, a);
          if Parted(marks, a, |s.snapshots|) { PartedLater(marks, a, |s.snapshots|, |s'.snapshots|); }
        }
      }
    }
  }

  // ---- every run ----

  ghost predicate Sound(cfg: Config, s: Store, marks: set<nat>) {
    AllTell(cfg, s) && Spaced(cfg, s.snapshots, marks) && Remembers(cfg, s, marks)
  }

  lemma HandledKeeps(cfg: Config, s: Store, e: VisionEvent, marks: set<nat>)
    requires Sound(cfg, s, marks)
    ensures Sound(cfg, Process(cfg, s, e), marks)
  {
    var s' := Process(cfg, s, e);
    ProcessWrites(cfg, s, e);
    hide Process, Writes, LandedOn;
    match LandedOn(s, e)
    case None => SoundAlike(cfg, s, s', marks);
    case Some(id) =>
      hide AllTell, Spaced, Remembers;
      StepTells(cfg, s, s', e, id);
      StepSpaced(cfg, s, s', e, id, marks);
      StepRemembers(cfg, s, s', e, id, marks);
  }

  lemma SoundAlike(cfg: Config, s: Store, s': Store, marks: set<nat>)
    requires Sound(cfg, s, marks)
    requires s'.entities == s.entities && s'.snapshots == s.snapshots && s'.lastSnapshot == s.lastSnapshot
    ensures Sound(cfg, s', marks)
  {
    forall id: nat ensures TellsAt(cfg, s', id) { assert TellsAt(cfg, s, id); }
    hide AllTell, TellsAt;
    if cfg.minInterval > 0 {
      forall a | 0 <= a < |s.snapshots| ensures RemembersAt(s', marks, a) { assert RemembersAt(s, marks, a); }
    }
  }

  lemma RestartKeeps(cfg: Config, s: Store, marks: set<nat>)
    requires Sound(cfg, s, marks)
    ensures Sound(cfg, s.(lastSnapshot := map[]), marks + {|s.snapshots|})
  {
    var s', marks' := s.(lastSnapshot := map[]), marks + {|s.snapshots|};
    forall id: nat ensures TellsAt(cfg, s', id) { assert TellsAt(cfg, s, id); }
    hide AllTell, TellsAt;
    forall a: nat, b: nat | Parted(marks, a, b) ensures Parted(marks', a, b) {
      var m :| m in marks && a < m <= b;
      assert m in marks';
    }
    forall a | 0 <= a < |s.snapshots| ensures Parted(marks', a, |s.snapshots|) { assert |s.snapshots| in marks'; }
  }

  /** The marks after one more turn. */
  function Marked(s: Store, marks: set<nat>, t: Turn): set<nat> {
    if t.Restart? then marks + {|s.snapshots|} else marks
  }

  lemma LifeSnoc(cfg: Config, turns: seq<Turn>, t: Turn)
    ensures Life(cfg, turns + [t]) == Turned(cfg, Life(cfg, turns), t)
    ensures Marks(cfg, turns + [t]) == Marked(Life(cfg, turns), Marks(cfg, turns), t)
  {
    hide Turned;
    assert (turns + [t])[..|turns|] == turns;
  }

  lemma TurnKeeps(cfg: Config, s: Store, t: Turn, marks: set<nat>)
    requires Sound(cfg, s, marks)
    ensures Sound(cfg, Turned(cfg, s, t), Marked(s, marks, t))
  {
    hide Process, Sound;
    match t
    case Handled(e) => HandledKeeps(cfg, s, e, marks);
    case Restart => RestartKeeps(cfg, s, marks);
  }

  /** On every run, restarts included, every entity's snapshots are one OnCreate (none when an exit
      created it), updates at least the interval apart unless a restart lies between them, and, once it
      is closed, one OnClose holding its final row. */
  lemma {:induction false} SnapshotsTellTheLife(cfg: Config, turns: seq<Turn>)
    ensures Sound(cfg, Life(cfg, turns), Marks(cfg, turns))
  {
    if turns != [] {
      hide Turned, Sound, Life, Marks;
      var n := |turns| - 1;
      SnapshotsTellTheLife(cfg, turns[..n]);
      assert turns == turns[..n] + [turns[n]];
      LifeSnoc(cfg, turns[..n], turns[n]);
      TurnKeeps(cfg, Life(cfg, turns[..n]), turns[n], Marks(cfg, turns[..n]));
    }
  }

  // ---- which snapshots are taken ----

  /** When the entity's latest update snapshot was taken, unless the process has restarted or the entity
      closed since. */
  ghost function LatestUpdate(cfg: Config, turns: seq<Turn>, id: nat): Option<int> {
    if turns == [] || turns[|turns|-1].Restart? then None
    else
      var init := turns[..|turns|-1];
      var before, after := Life(cfg, init).snapshots, Life(cfg, turns).snapshots;
      if |after| > |before| && after[|before|].entity == id && after[|before|].reason != OnCreate
      then (if after[|before|].reason == OnUpdate then Some(after[|before|].at) else None)
      else LatestUpdate(cfg, init, id)
  }

  function Remembered(last: map<nat, int>, id: nat): Option<int> {
    if id in last then Some(last[id]) else None
  }

  lemma LatestSnoc(cfg: Config, turns: seq<Turn>, t: Turn, id: nat)
    ensures var before, after := Life(cfg, turns).snapshots, Life(cfg, turns + [t]).snapshots;
            LatestUpdate(cfg, turns + [t], id) ==
              if t.Restart? then None
              else if |after| > |before| && after[|before|].entity == id && after[|before|].reason != OnCreate
              then (if after[|before|].reason == OnUpdate then Some(after[|before|].at) else None)
              else LatestUpdate(cfg, turns, id)
  {
    hide Life;
    assert (turns + [t])[..|turns|] == turns;
  }

  lemma WritesRemembers(cfg: Config, s: Store, s': Store, e: VisionEvent, id: nat, other: nat)
    requires Writes(cfg, s, s', e, id)
    ensures var before, after := s.snapshots, s'.snapshots;
            Remembered(s'.lastSnapshot, other) ==
              if |after| > |before| && after[|before|].entity == other && after[|before|].reason != OnCreate
              then (if after[|before|].reason == OnUpdate then Some(after[|before|].at) else None)
              else Remembered(s.lastSnapshot, other)
  {
  }

  /** The throttle remembers exactly that. */
  lemma {:induction false} ThrottleIsLatest(cfg: Config, turns: seq<Turn>, id: nat)
    ensures Remembered(Life(cfg, turns).lastSnapshot, id) == LatestUpdate(cfg, turns, id)
  {
    if turns != [] {
      hide Life, LatestUpdate, Process, Writes, LandedOn;
      var init, t := turns[..|turns|-1], turns[|turns|-1];
      assert turns == init + [t];
      ThrottleIsLatest(cfg, init, id);
      LifeSnoc(cfg, init, t);
      LatestSnoc(cfg, init, t, id);
      if t.Handled? {
        var s := Life(cfg, init);
        ProcessWrites(cfg, s, t.event);
        if LandedOn(s, t.event).Some? {
          WritesRemembers(cfg, s, Process(cfg, s, t.event), t.event, LandedOn(s, t.event).value, id);
        }
      }
    } else {
      NothingRemembered(cfg, id);
    }
  }

  lemma NothingRemembered(cfg: Config, id: nat)
    ensures Remembered(Life(cfg, []).lastSnapshot, id) == LatestUpdate(cfg, [], id)
  {
  }

  /** An event that is counted on an entity always leaves a snapshot of its creation or its close; of an
      update it leaves one if and only if they are switched on and the latest one is at least the
      interval ago. */
  lemma SnapshotTakenExactly(cfg: Config, turns: seq<Turn>, e: VisionEvent, id: nat)
    requires LandedOn(Life(cfg, turns), e) == Some(id)
    ensures var s, s' := Life(cfg, turns), Life(cfg, turns + [Handled(e)]);
            var reason := if e.kind == Exited then OnClose else if id < |s.entities| then OnUpdate else OnCreate;
            var latest := LatestUpdate(cfg, turns, id);
            && id < |s'.entities|
            && s'.snapshots == s.snapshots +
                 if reason != OnUpdate
                    || (cfg.snapshotOnUpdate
                        && (cfg.minInterval <= 0 || latest.None? || e.at >= latest.value + cfg.minInterval))
                 then [Snapshot(id, e.at, reason, s'.entities[id])] else []
  {
    hide Life, LatestUpdate, Process, LandedOn;
    ThrottleIsLatest(cfg, turns, id);
    LifeSnoc(cfg, turns, Handled(e));
    ProcessWrites(cfg, Life(cfg, turns), e);
  }

  /** The exception is real: a restart can leave two updates of an entity closer than the interval. */
  lemma RestartForgets()
    ensures var cfg := Config(true, 10);
            var turns := [Handled(Sighting(0, 0)), Handled(Sighting(1, 1)), Restart, Handled(Sighting(2, 2))];
            var snapshots := Life(cfg, turns).snapshots;
            && |snapshots| == 3 && IsUpdateOf(snapshots[1], 0) && IsUpdateOf(snapshots[2], 0)
            && snapshots[2].at - snapshots[1].at == 1
  {
    var cfg := Config(true, 10);
    var s0 := Life(cfg, []);
    var turns := [Handled(Sighting(0, 0)), Handled(Sighting(1, 1)), Restart, Handled(Sighting(2, 2))];
    assert [] + [turns[0]] + [turns[1]] + [turns[2]] + [turns[3]] == turns;
    hide Life, Process;
    LifeSnoc(cfg, [], turns[0]);
    LifeSnoc(cfg, [] + [turns[0]], turns[1]);
    LifeSnoc(cfg, [] + [turns[0]] + [turns[1]], turns[2]);
    LifeSnoc(cfg, [] + [turns[0]] + [turns[1]] + [turns[2]], turns[3]);
    hide Turned;
    SightingsWrite(cfg, s0);
  }

  /** An entry of key 0. */
  function Sighting(n: nat, at: int): VisionEvent {
    VisionEvent(Named(n), Entered, 0, 0, 1.0, at, true)
  }

  /** What the four turns of RestartForgets write. */
  lemma SightingsWrite(cfg: Config, s0: Store)
    requires cfg == Config(true, 10) && s0 == Store([], [], [], map[])
    ensures var s1 := Turned(cfg, s0, Handled(Sighting(0, 0)));
            var s2 := Turned(cfg, s1, Handled(Sighting(1, 1)));
            var s3 := Turned(cfg, s2, Restart);
            var s4 := Turned(cfg, s3, Handled(Sighting(2, 2)));
            && |s4.snapshots| == 3 && IsUpdateOf(s4.snapshots[1], 0) && IsUpdateOf(s4.snapshots[2], 0)
            && s4.snapshots[2].at - s4.snapshots[1].at == 1
  {
    hide Process, Run;
    var s1 := Process(cfg, s0, Sighting(0, 0));
    SightingWrites(cfg, s0, 0, 0);
    var s2 := Process(cfg, s1, Sighting(1, 1));
    SightingWrites(cfg, s1, 1, 1);
    var s3 := s2.(lastSnapshot := map[]);
    SightingWrites(cfg, s3, 2, 2);
  }

  /** A sighting under a fresh id: what it writes, and that the next one is of the same kind. */
  lemma SightingWrites(cfg: Config, s: Store, n: nat, at: int)
    requires OneSighted(s, n)
    ensures var s' := Process(cfg, s, Sighting(n, at));
            Writes(cfg, s, s', Sighting(n, at), 0) && OneSighted(s', n + 1) && |s'.entities| == 1
  {
    var e, s' := Sighting(n, at), Process(cfg, s, Sighting(n, at));
    ProcessWrites(cfg, s, e);
    ProcessLands(cfg, s, e);
    if s.entities != [] { assert Matches(s.entities[0], 0, true); }
    hide Process;
    assert LandedOn(s, e) == Some(0);
  }

  /** At most the active entity of key 0, and ids below `n` only. */
  ghost predicate OneSighted(s: Store, n: nat) {
    && |s.entities| <= 1 && (forall i | 0 <= i < |s.entities| :: Matches(s.entities[i], 0, true))
    && forall i | 0 <= i < |s.observations| :: s.observations[i].source.Named? && s.observations[i].source.n < n
  }
}
