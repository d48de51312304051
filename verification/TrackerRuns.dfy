/** Runs of the tracker with the history service listening: every detection is counted once, and
    every track id lives once. */
module TrackerRuns {
  import opened Matching
  import opened Tracker
  import opened IdentityHistory

  // ---- runs ----

  /** An accepted frame with the matching it settled on, or a `clear`. */
  datatype Step = Frame(ds: seq<Detection>, picks: seq<Candidate>, at: int) | Clear

  datatype Config = Config(threshold: real, maxMissed: nat)

  /** The tracker, everything it has published, and the detections it has processed. */
  datatype System = System(memory: Memory, log: seq<ObjectEvent>, processed: nat)

  ghost predicate Possible(cfg: Config, m: Memory, s: Step) {
    s.Frame? ==>
      && StableMatching(TrackThings(m.tracks), DetectionThings(s.ds), cfg.threshold, s.picks)
      && InRange(m.tracks, s.ds, s.picks)
  }

  ghost function After(cfg: Config, y: System, s: Step): System
    requires Possible(cfg, y.memory, s)
  {
    match s
    case Frame(ds, picks, at) =>
      System(AfterFrame(y.memory, ds, picks, at, cfg.maxMissed),
             y.log + FrameEvents(y.memory, ds, picks, at, cfg.maxMissed), y.processed + |ds|)
    case Clear => y.(memory := y.memory.(tracks := []))
  }

  /** A step with an impossible matching does nothing. */
  ghost function Exec(cfg: Config, steps: seq<Step>): System {
    if steps == [] then System(Memory([], 1), [], 0)
    else
      var y := Exec(cfg, steps[..|steps|-1]);
      if Possible(cfg, y.memory, steps[|steps|-1]) then After(cfg, y, steps[|steps|-1]) else y
  }

  // ---- tracks and their ids ----

  ghost predicate Increasing(tracks: seq<Track>) {
    forall i, j | 0 <= i < j < |tracks| :: tracks[i].id < tracks[j].id
  }

  predicate IdsWithin(tracks: seq<Track>, low: nat, high: nat) {
    forall i | 0 <= i < |tracks| :: low <= tracks[i].id < high
  }

  ghost predicate SameIds(a: seq<Track>, b: seq<Track>) {
    |a| == |b| && forall i | 0 <= i < |a| :: a[i].id == b[i].id && a[i].labelId == b[i].labelId
  }

  predicate HasId(tracks: seq<Track>, id: nat) {
    exists i | 0 <= i < |tracks| :: tracks[i].id == id
  }

  lemma {:induction false} AppliedKeepsIds(tracks: seq<Track>, ds: seq<Detection>, picks: seq<Candidate>, at: int)
    requires InRange(tracks, ds, picks)
    ensures SameIds(Applied(tracks, ds, picks, at), tracks)
  {
    if picks != [] { AppliedKeepsIds(tracks, ds, picks[..|picks|-1], at); }
  }

  lemma {:induction false} AgedAt(tracks: seq<Track>, matched: set<nat>, i: nat)
    requires i < |tracks|
    ensures Aged(tracks, matched)[i]
         == if i in matched then tracks[i] else tracks[i].(missed := tracks[i].missed + 1)
  {
    if i < |tracks| - 1 { AgedAt(tracks[..|tracks|-1], matched, i); }
  }

  predicate Expires(aged: seq<Track>, matched: set<nat>, maxMissed: nat, i: nat) {
    i < |aged| && i !in matched && aged[i].missed > maxMissed
  }

  /** `t` stands in `aged` on one side of the expiry test. */
  ghost predicate Stands(t: Track, aged: seq<Track>, matched: set<nat>, maxMissed: nat, expired: bool) {
    exists i | 0 <= i < |aged| :: aged[i] == t && Expires(aged, matched, maxMissed, i) == expired
  }

  /** `part` is the side of `aged` named by `expired`. */
  ghost predicate IsPart(part: seq<Track>, aged: seq<Track>, matched: set<nat>, maxMissed: nat, expired: bool) {
    && (forall k | 0 <= k < |part| :: Stands(part[k], aged, matched, maxMissed, expired))
    && (forall i | 0 <= i < |aged| && Expires(aged, matched, maxMissed, i) == expired :: aged[i] in part)
  }

  lemma {:induction false} SiftedIsPart(aged: seq<Track>, matched: set<nat>, maxMissed: nat, expired: bool)
    requires Increasing(aged)
    ensures IsPart(Sifted(aged, matched, maxMissed, expired), aged, matched, maxMissed, expired)
    ensures Increasing(Sifted(aged, matched, maxMissed, expired))
  {
    if aged != [] {
      var n := |aged| - 1;
      SiftedIsPart(aged[..n], matched, maxMissed, expired);
      PartGrows(aged, Sifted(aged[..n], matched, maxMissed, expired), matched, maxMissed, expired);
    }
  }

  lemma PartGrows(aged: seq<Track>, part: seq<Track>, matched: set<nat>, maxMissed: nat, expired: bool)
    requires aged != [] && Increasing(aged) && Increasing(part)
    requires IsPart(part, aged[..|aged|-1], matched, maxMissed, expired)
    ensures var n := |aged| - 1;
            var all := part + if Expires(aged, matched, maxMissed, n) == expired then [aged[n]] else [];
            IsPart(all, aged, matched, maxMissed, expired) && Increasing(all)
  {
    var n := |aged| - 1;
    forall k | 0 <= k < |part| ensures Stands(part[k], aged, matched, maxMissed, expired) && part[k].id < aged[n].id {
      StandsLater(part[k], aged, matched, maxMissed, expired);
    }
    forall i | 0 <= i < n && Expires(aged, matched, maxMissed, i) == expired ensures aged[i] in part {
      assert aged[..n][i] == aged[i] && Expires(aged[..n], matched, maxMissed, i) == expired;
    }
    if Expires(aged, matched, maxMissed, n) == expired {
      assert Stands(aged[n], aged, matched, maxMissed, expired);
    }
    hide Stands, Expires;
  }

  lemma StandsLater(t: Track, aged: seq<Track>, matched: set<nat>, maxMissed: nat, expired: bool)
    requires aged != [] && Increasing(aged) && Stands(t, aged[..|aged|-1], matched, maxMissed, expired)
    ensures Stands(t, aged, matched, maxMissed, expired) && t.id < aged[|aged|-1].id
  {
    var before := aged[..|aged|-1];
    var i :| 0 <= i < |before| && before[i] == t && Expires(before, matched, maxMissed, i) == expired;
    assert aged[i] == t && Expires(aged, matched, maxMissed, i) == expired;
  }

  /** The two sides of the expiry test share no id and together have every id. */
  lemma PartsSplit(aged: seq<Track>, matched: set<nat>, maxMissed: nat, kept: seq<Track>, gone: seq<Track>)
    requires Increasing(aged)
    requires IsPart(kept, aged, matched, maxMissed, false) && IsPart(gone, aged, matched, maxMissed, true)
    ensures forall i, j | 0 <= i < |kept| && 0 <= j < |gone| :: kept[i].id != gone[j].id
    ensures forall id :: HasId(aged, id) <==> HasId(kept, id) || HasId(gone, id)
    ensures forall k | 0 <= k < |kept| :: kept[k] in aged
    ensures forall k | 0 <= k < |gone| :: gone[k] in aged
  {
  }

  lemma {:induction false} NewTracksAre(ds: seq<Detection>, matched: set<nat>, nextId: nat, at: int)
    ensures Fresh(NewTracks(ds, matched, nextId, at), nextId)
  {
    if ds != [] { NewTracksAre(ds[..|ds|-1], matched, nextId, at); }
  }

  /** Tracks of one frame each, under consecutive ids. */
  ghost predicate Fresh(made: seq<Track>, nextId: nat) {
    forall k | 0 <= k < |made| :: made[k].id == nextId + k && made[k].framesSeen == 1
  }

  lemma FreshAfter(kept: seq<Track>, made: seq<Track>, nextId: nat)
    requires Increasing(kept) && IdsWithin(kept, 0, nextId) && Fresh(made, nextId)
    ensures Increasing(kept + made) && IdsWithin(kept + made, 0, nextId + |made|)
  {
  }

  ghost function Below(s: set<nat>, n: nat): set<nat> {
    set d | d in s && d < n
  }

  /** Unmatched detections make up the difference. */
  lemma {:induction false} NewTracksCount(ds: seq<Detection>, matched: set<nat>, nextId: nat, at: int)
    ensures |NewTracks(ds, matched, nextId, at)| + |Below(matched, |ds|)| == |ds|
  {
    if ds == [] {
      assert Below(matched, 0) == {};
    } else {
      var n := |ds| - 1;
      NewTracksCount(ds[..n], matched, nextId, at);
      var below := Below(matched, n);
      assert Below(matched, |ds|) == if n in matched then below + {n} else below;
    }
  }

  lemma {:induction false} MatchedCount(picks: seq<Candidate>, n: nat)
    requires OneToOne(picks) && forall i | 0 <= i < |picks| :: picks[i].detection < n
    ensures |Below(DetectionsOf(picks), n)| == |picks|
  {
    if picks == [] {
      assert Below(DetectionsOf([]), n) == {};
    } else {
      var k := |picks| - 1;
      MatchedCount(picks[..k], n);
      assert picks == picks[..k] + [picks[k]];
      SetsGrow(picks[..k], picks[k]);
      assert Below(DetectionsOf(picks), n) == Below(DetectionsOf(picks[..k]), n) + {picks[k].detection};
    }
  }

  // ---- conservation: the ledger keeps up with the tracks ----

  /** The ledger knows the track and has counted exactly its frames so far. */
  predicate Tied(l: Ledger, t: Track) {
    KeyOf(t) in l.histories && KeyOf(t) in l.session && l.session[KeyOf(t)] == t.framesSeen
  }

  ghost predicate AllTied(l: Ledger, tracks: seq<Track>) {
    forall i | 0 <= i < |tracks| :: Tied(l, tracks[i])
  }

  ghost predicate KnowsBelow(l: Ledger, bound: nat) {
    forall k | k in l.histories :: k.trackId < bound
  }

  lemma {:induction false} UpdatesCount(l: Ledger, tracks: seq<Track>, ds: seq<Detection>, picks: seq<Candidate>,
                                        at: int, bound: nat)
    requires InRange(tracks, ds, picks) && Increasing(tracks)
    requires AllTied(l, tracks) && KnowsBelow(l, bound)
    ensures var l' := Fold(l, UpdateEvents(tracks, ds, picks, at));
            && AllTied(l', Applied(tracks, ds, picks, at)) && KnowsBelow(l', bound)
            && TotalFrames(l'.histories) == TotalFrames(l.histories) + |picks|
  {
    if picks != [] {
      var n := |picks| - 1;
      UpdatesCount(l, tracks, ds, picks[..n], at, bound);
      var before := Applied(tracks, ds, picks[..n], at);
      var mid := Fold(l, UpdateEvents(tracks, ds, picks[..n], at));
      AppliedKeepsIds(tracks, ds, picks[..n], at);
      UpdateCounts(mid, before, picks[n].track, ds[picks[n].detection], at, bound);
      var events := UpdateEvents(tracks, ds, picks, at);
      assert events[..|events|-1] == UpdateEvents(tracks, ds, picks[..n], at);
    }
  }

  lemma UpdateCounts(l: Ledger, tracks: seq<Track>, t: nat, d: Detection, at: int, bound: nat)
    requires t < |tracks| && Increasing(tracks) && AllTied(l, tracks) && KnowsBelow(l, bound)
    ensures var l' := Recorded(l, ObjectEvent(Updated, Refreshed(tracks[t], d, at)));
            && AllTied(l', tracks[t := Refreshed(tracks[t], d, at)]) && KnowsBelow(l', bound)
            && TotalFrames(l'.histories) == TotalFrames(l.histories) + 1
  {
    var r := Refreshed(tracks[t], d, at);
    assert Tied(l, tracks[t]);
    var seen := AfterSeen(l, r);
    TotalAfterPut(l.histories, KeyOf(r), seen.histories[KeyOf(r)]);
    TotalAfterPut(seen.histories, KeyOf(r), seen.histories[KeyOf(r)].(active := true));
    hide TotalFrames;
    forall i | 0 <= i < |tracks| && i != t ensures KeyOf(tracks[i]) != KeyOf(r) && Tied(l, tracks[i]) {
      assert if i < t then tracks[i].id < tracks[t].id else tracks[t].id < tracks[i].id;
    }
  }

  /** Exits add no frames, and leave every other track tied. */
  lemma {:induction false} ExitsCount(l: Ledger, gone: seq<Track>, kept: seq<Track>, bound: nat)
    requires Increasing(gone) && AllTied(l, gone) && AllTied(l, kept) && KnowsBelow(l, bound)
    requires forall i, j | 0 <= i < |kept| && 0 <= j < |gone| :: kept[i].id != gone[j].id
    ensures var l' := Fold(l, EventsOf(Exited, gone));
            && AllTied(l', kept) && KnowsBelow(l', bound)
            && TotalFrames(l'.histories) == TotalFrames(l.histories)
    decreases |gone|
  {
    if gone != [] {
      var first, rest := gone[0], gone[1..];
      assert Tied(l, first) && AllTied(l, rest) && Increasing(rest);
      assert forall i | 0 <= i < |rest| :: rest[i].id != first.id;
      hide Recorded, Fold, Tied, AllTied, KnowsBelow, TotalFrames, EventsOf, Increasing;
      EventsCons(Exited, gone);
      FoldCons(l, ObjectEvent(Exited, first), EventsOf(Exited, rest));
      ExitCounts(l, first, kept, rest, bound);
      ExitsCount(Recorded(l, ObjectEvent(Exited, first)), rest, kept, bound);
    }
  }

  lemma EventsCons(kind: EventKind, tracks: seq<Track>)
    requires tracks != []
    ensures EventsOf(kind, tracks) == [ObjectEvent(kind, tracks[0])] + EventsOf(kind, tracks[1..])
  {
  }

  lemma EventsSnoc(kind: EventKind, tracks: seq<Track>, t: Track)
    ensures EventsOf(kind, tracks + [t]) == EventsOf(kind, tracks) + [ObjectEvent(kind, t)]
  {
  }

  lemma FoldSnoc(l: Ledger, log: seq<ObjectEvent>, e: ObjectEvent)
    ensures Fold(l, log + [e]) == Recorded(Fold(l, log), e)
  {
    hide Recorded;
    assert (log + [e])[..|log|] == log;
  }

  lemma FoldCons(l: Ledger, e: ObjectEvent, rest: seq<ObjectEvent>)
    ensures Fold(l, [e] + rest) == Fold(Recorded(l, e), rest)
  {
    FoldAppend(l, [e], rest);
    assert [e][..0] == [];
  }

  lemma ExitCounts(l: Ledger, t: Track, kept: seq<Track>, rest: seq<Track>, bound: nat)
    requires Tied(l, t) && AllTied(l, kept) && AllTied(l, rest) && KnowsBelow(l, bound)
    requires forall i | 0 <= i < |kept| :: kept[i].id != t.id
    requires forall i | 0 <= i < |rest| :: rest[i].id != t.id
    ensures var l' := Recorded(l, ObjectEvent(Exited, t));
            && AllTied(l', kept) && AllTied(l', rest) && KnowsBelow(l', bound)
            && TotalFrames(l'.histories) == TotalFrames(l.histories)
  {
    var seen := AfterSeen(l, t);
    TotalAfterPut(l.histories, KeyOf(t), seen.histories[KeyOf(t)]);
    TotalAfterPut(seen.histories, KeyOf(t), seen.histories[KeyOf(t)].(active := false));
    hide TotalFrames;
    assert forall i | 0 <= i < |kept| :: Tied(l, kept[i]) && KeyOf(kept[i]) != KeyOf(t);
    assert forall i | 0 <= i < |rest| :: Tied(l, rest[i]) && KeyOf(rest[i]) != KeyOf(t);
  }

  /** Each new track opens a history of one frame. */
  lemma {:induction false} EntersCount(l: Ledger, known: seq<Track>, made: seq<Track>, bound: nat)
    requires AllTied(l, known) && KnowsBelow(l, bound) && IdsWithin(known, 0, bound)
    requires forall k | 0 <= k < |made| :: made[k].id == bound + k && made[k].framesSeen == 1
    ensures var l' := Fold(l, EventsOf(Entered, made));
            && AllTied(l', known + made) && KnowsBelow(l', bound + |made|)
            && TotalFrames(l'.histories) == TotalFrames(l.histories) + |made|
    decreases |made|
  {
    if made == [] {
      assert known + made == known;
    } else {
      var n := |made| - 1;
      assert made == made[..n] + [made[n]];
      assert known + made[..n] + [made[n]] == known + made;
      hide Recorded, Fold, AllTied, KnowsBelow, TotalFrames, EventsOf;
      EntersCount(l, known, made[..n], bound);
      EventsSnoc(Entered, made[..n], made[n]);
      FoldSnoc(l, EventsOf(Entered, made[..n]), ObjectEvent(Entered, made[n]));
      EnterCounts(Fold(l, EventsOf(Entered, made[..n])), known + made[..n], made[n], bound + n);
    }
  }

  lemma EnterCounts(l: Ledger, known: seq<Track>, t: Track, bound: nat)
    requires AllTied(l, known) && KnowsBelow(l, bound) && IdsWithin(known, 0, bound)
    requires t.id == bound && t.framesSeen == 1
    ensures var l' := Recorded(l, ObjectEvent(Entered, t));
            && AllTied(l', known + [t]) && KnowsBelow(l', bound + 1) && IdsWithin(known + [t], 0, bound + 1)
            && TotalFrames(l'.histories) == TotalFrames(l.histories) + 1
  {
    TotalAfterPut(l.histories, KeyOf(t), AfterEntered(l, t).histories[KeyOf(t)]);
    hide TotalFrames;
    assert KeyOf(t) !in l.histories;
    assert forall i | 0 <= i < |known| :: Tied(l, known[i]) && KeyOf(known[i]) != KeyOf(t);
  }

  ghost predicate KeepsUp(m: Memory, l: Ledger) {
    && Increasing(m.tracks) && IdsWithin(m.tracks, 0, m.nextId)
    && AllTied(l, m.tracks) && KnowsBelow(l, m.nextId)
  }

  /** What a frame does to the set of tracks. */
  lemma FrameShape(m: Memory, ds: seq<Detection>, picks: seq<Candidate>, at: int, maxMissed: nat)
    requires InRange(m.tracks, ds, picks) && Increasing(m.tracks) && IdsWithin(m.tracks, 0, m.nextId)
    ensures var applied := Applied(m.tracks, ds, picks, at);
            var aged := Aged(applied, TracksOf(picks));
            var kept := Sifted(aged, TracksOf(picks), maxMissed, false);
            var gone := Sifted(aged, TracksOf(picks), maxMissed, true);
            var made := NewTracks(ds, DetectionsOf(picks), m.nextId, at);
            && SameIds(applied, m.tracks) && SameIds(aged, m.tracks)
            && (forall i | 0 <= i < |aged| :: aged[i].framesSeen == applied[i].framesSeen)
            && Increasing(aged) && Increasing(kept) && Increasing(gone)
            && IdsWithin(kept, 0, m.nextId) && IdsWithin(gone, 0, m.nextId)
            && (forall i, j | 0 <= i < |kept| && 0 <= j < |gone| :: kept[i].id != gone[j].id)
            && (forall id :: HasId(m.tracks, id) <==> HasId(kept, id) || HasId(gone, id))
            && (forall k | 0 <= k < |kept| :: kept[k] in aged)
            && (forall k | 0 <= k < |gone| :: gone[k] in aged)
            && (forall k | 0 <= k < |made| :: made[k].id == m.nextId + k && made[k].framesSeen == 1)
            && Increasing(kept + made) && IdsWithin(kept + made, 0, m.nextId + |made|)
  {
    hide Applied, Aged, Sifted, NewTracks, TracksOf, DetectionsOf;
    var applied := Applied(m.tracks, ds, picks, at);
    var aged := Aged(applied, TracksOf(picks));
    AppliedKeepsIds(m.tracks, ds, picks, at);
    forall i | 0 <= i < |aged|
      ensures aged[i].id == m.tracks[i].id && aged[i].labelId == m.tracks[i].labelId
           && aged[i].framesSeen == applied[i].framesSeen
    {
      AgedAt(applied, TracksOf(picks), i);
    }
    SiftedIsPart(aged, TracksOf(picks), maxMissed, false);
    SiftedIsPart(aged, TracksOf(picks), maxMissed, true);
    var kept := Sifted(aged, TracksOf(picks), maxMissed, false);
    var gone := Sifted(aged, TracksOf(picks), maxMissed, true);
    PartsSplit(aged, TracksOf(picks), maxMissed, kept, gone);
    NewTracksAre(ds, DetectionsOf(picks), m.nextId, at);
    FreshAfter(kept, NewTracks(ds, DetectionsOf(picks), m.nextId, at), m.nextId);
    assert forall id :: HasId(m.tracks, id) <==> HasId(aged, id);
  }

  lemma {:induction false} AppliedLeaves(tracks: seq<Track>, ds: seq<Detection>, picks: seq<Candidate>,
                                         at: int, i: nat)
    requires InRange(tracks, ds, picks) && i < |tracks| && i !in TracksOf(picks)
    ensures Applied(tracks, ds, picks, at)[i] == tracks[i]
  {
    if picks != [] {
      var n := |picks| - 1;
      assert picks == picks[..n] + [picks[n]];
      SetsGrow(picks[..n], picks[n]);
      AppliedLeaves(tracks, ds, picks[..n], at, i);
    }
  }

  /** A track survives a frame exactly when it was matched or is within its missed-frame limit. */
  lemma ExpiryIsExact(m: Memory, ds: seq<Detection>, picks: seq<Candidate>, at: int, maxMissed: nat, i: nat)
    requires InRange(m.tracks, ds, picks) && Increasing(m.tracks) && IdsWithin(m.tracks, 0, m.nextId)
    requires i < |m.tracks|
    ensures HasId(AfterFrame(m, ds, picks, at, maxMissed).tracks, m.tracks[i].id)
       <==> i in TracksOf(picks) || m.tracks[i].missed + 1 <= maxMissed
  {
    hide Applied, Aged, Sifted, NewTracks, TracksOf, DetectionsOf;
    FrameShape(m, ds, picks, at, maxMissed);
    var matched := TracksOf(picks);
    var applied := Applied(m.tracks, ds, picks, at);
    var aged := Aged(applied, matched);
    var kept, gone := Sifted(aged, matched, maxMissed, false), Sifted(aged, matched, maxMissed, true);
    AgedAt(applied, matched, i);
    if i !in matched { AppliedLeaves(m.tracks, ds, picks, at, i); }
    SiftedIsPart(aged, matched, maxMissed, false);
    SiftedIsPart(aged, matched, maxMissed, true);
    var id := m.tracks[i].id;
    if Expires(aged, matched, maxMissed, i) {
      assert aged[i] in gone;
      var j :| 0 <= j < |gone| && gone[j] == aged[i];
      assert !HasId(kept, id);
    } else {
      assert aged[i] in kept;
      var j :| 0 <= j < |kept| && kept[j] == aged[i];
      assert (kept + NewTracks(ds, DetectionsOf(picks), m.nextId, at))[j].id == id;
    }
  }

  lemma FrameCounts(m: Memory, l: Ledger, ds: seq<Detection>, picks: seq<Candidate>, at: int, maxMissed: nat)
    requires KeepsUp(m, l) && InRange(m.tracks, ds, picks) && OneToOne(picks)
    ensures var l' := Fold(l, FrameEvents(m, ds, picks, at, maxMissed));
            && KeepsUp(AfterFrame(m, ds, picks, at, maxMissed), l')
            && TotalFrames(l'.histories) == TotalFrames(l.histories) + |ds|
  {
    hide Applied, Aged, Sifted, NewTracks, TracksOf, DetectionsOf, Fold, TotalFrames, KnowsBelow,
         EventsOf, UpdateEvents;
    var applied := Applied(m.tracks, ds, picks, at);
    var aged := Aged(applied, TracksOf(picks));
    var kept := Sifted(aged, TracksOf(picks), maxMissed, false);
    var gone := Sifted(aged, TracksOf(picks), maxMissed, true);
    var made := NewTracks(ds, DetectionsOf(picks), m.nextId, at);
    FrameShape(m, ds, picks, at, maxMissed);
    var updates, exits := UpdateEvents(m.tracks, ds, picks, at), EventsOf(Exited, gone);
    UpdatesCount(l, m.tracks, ds, picks, at, m.nextId);
    var l1 := Fold(l, updates);
    AgedTied(l1, applied, aged, kept, gone);
    ExitsCount(l1, gone, kept, m.nextId);
    var l2 := Fold(l1, exits);
    EntersCount(l2, kept, made, m.nextId);
    FoldAppend(l, updates, exits);
    FoldAppend(l, updates + exits, EventsOf(Entered, made));
    NewTracksCount(ds, DetectionsOf(picks), m.nextId, at);
    MatchedCount(picks, |ds|);
  }

  lemma AgedTied(l: Ledger, applied: seq<Track>, aged: seq<Track>, kept: seq<Track>, gone: seq<Track>)
    requires AllTied(l, applied) && SameIds(aged, applied)
    requires forall i | 0 <= i < |aged| :: aged[i].framesSeen == applied[i].framesSeen
    requires forall k | 0 <= k < |kept| :: kept[k] in aged
    requires forall k | 0 <= k < |gone| :: gone[k] in aged
    ensures AllTied(l, kept) && AllTied(l, gone)
  {
  }

  /** Conservation: over any run, the frames counted in all histories are exactly the detections
      processed, and the ledger has every live track's frame count. */
  lemma {:induction false} DetectionsConserved(cfg: Config, steps: seq<Step>)
    ensures var y := Exec(cfg, steps);
            var l := Fold(Ledger(map[], map[]), y.log);
            KeepsUp(y.memory, l) && TotalFrames(l.histories) == y.processed
  {
    if steps != [] {
      var y, step := Exec(cfg, steps[..|steps|-1]), steps[|steps|-1];
      DetectionsConserved(cfg, steps[..|steps|-1]);
      if Possible(cfg, y.memory, step) && step.Frame? {
        hide TotalFrames, FrameEvents, AfterFrame, Fold;
        FrameCounts(y.memory, Fold(Ledger(map[], map[]), y.log), step.ds, step.picks, step.at, cfg.maxMissed);
        FoldAppend(Ledger(map[], map[]), y.log,
                   FrameEvents(y.memory, step.ds, step.picks, step.at, cfg.maxMissed));
      }
    }
  }

  // ---- life cycle of an id ----

  ghost function Kinds(log: seq<ObjectEvent>, id: nat): seq<EventKind> {
    if log == [] then []
    else
      var e := log[|log|-1];
      Kinds(log[..|log|-1], id) + if e.track.id == id then [e.kind] else []
  }

  /** ENTERED, then UPDATED any number of times, then at most one EXITED. */
  ghost predicate WellSpelt(ks: seq<EventKind>) {
    forall i | 0 <= i < |ks| ::
      (i == 0 ==> ks[i] == Entered) && (i > 0 ==> ks[i] == Updated || (ks[i] == Exited && i == |ks| - 1))
  }

  ghost predicate Alive(ks: seq<EventKind>) {
    ks != [] && ks[|ks|-1] != Exited
  }

  /** Live ids have started and not ended; ids from `bound` on have never been used. */
  ghost predicate Lives(live: set<nat>, bound: nat, log: seq<ObjectEvent>) {
    forall id: nat ::
      && WellSpelt(Kinds(log, id))
      && (id in live ==> id < bound && Alive(Kinds(log, id)))
      && (id >= bound ==> Kinds(log, id) == [])
  }

  ghost function Ids(tracks: seq<Track>): set<nat> {
    set i | 0 <= i < |tracks| :: tracks[i].id
  }

  lemma LifeStep(live: set<nat>, bound: nat, log: seq<ObjectEvent>, e: ObjectEvent)
    requires Lives(live, bound, log)
    requires if e.kind == Entered then e.track.id == bound else e.track.id in live
    ensures match e.kind
            case Entered => Lives(live + {bound}, bound + 1, log + [e])
            case Updated => Lives(live, bound, log + [e])
            case Exited => Lives(live - {e.track.id}, bound, log + [e])
  {
  }

  lemma {:induction false} UpdatesLive(live: set<nat>, bound: nat, log: seq<ObjectEvent>, tracks: seq<Track>,
                                       ds: seq<Detection>, picks: seq<Candidate>, at: int)
    requires Lives(live, bound, log) && InRange(tracks, ds, picks) && Ids(tracks) <= live
    ensures Lives(live, bound, log + UpdateEvents(tracks, ds, picks, at))
  {
    hide Lives;
    if picks == [] {
      assert log + [] == log;
    } else {
      var n := |picks| - 1;
      UpdatesLive(live, bound, log, tracks, ds, picks[..n], at);
      AppliedKeepsIds(tracks, ds, picks, at);
      var before := UpdateEvents(tracks, ds, picks[..n], at);
      var e := ObjectEvent(Updated, Applied(tracks, ds, picks, at)[picks[n].track]);
      assert tracks[picks[n].track].id in Ids(tracks);
      LifeStep(live, bound, log + before, e);
      assert log + (before + [e]) == log + before + [e];
    }
  }

  lemma {:induction false} ExitsLive(live: set<nat>, bound: nat, log: seq<ObjectEvent>, gone: seq<Track>)
    requires Lives(live, bound, log) && Increasing(gone)
    requires forall i | 0 <= i < |gone| :: gone[i].id in live
    ensures Lives(live - Ids(gone), bound, log + EventsOf(Exited, gone))
  {
    hide Lives;
    if gone == [] {
      assert log + [] == log && live - Ids([]) == live;
    } else {
      var n := |gone| - 1;
      ExitsLive(live, bound, log, gone[..n]);
      var e := ObjectEvent(Exited, gone[n]);
      var before := EventsOf(Exited, gone[..n]);
      assert EventsOf(Exited, gone) == before + [e];
      assert gone[n].id !in Ids(gone[..n]);
      LifeStep(live - Ids(gone[..n]), bound, log + before, e);
      IdsSnoc(gone);
      assert live - Ids(gone[..n]) - {gone[n].id} == live - Ids(gone);
      assert log + (before + [e]) == log + before + [e];
    }
  }

  lemma IdsSnoc(tracks: seq<Track>)
    requires tracks != []
    ensures Ids(tracks) == Ids(tracks[..|tracks|-1]) + {tracks[|tracks|-1].id}
  {
  }

  lemma {:induction false} EntersLive(live: set<nat>, bound: nat, log: seq<ObjectEvent>, made: seq<Track>)
    requires Lives(live, bound, log)
    requires forall k | 0 <= k < |made| :: made[k].id == bound + k
    ensures Lives(live + Ids(made), bound + |made|, log + EventsOf(Entered, made))
  {
    hide Lives;
    if made == [] {
      assert log + [] == log && live + Ids([]) == live;
    } else {
      var n := |made| - 1;
      EntersLive(live, bound, log, made[..n]);
      var e := ObjectEvent(Entered, made[n]);
      var before := EventsOf(Entered, made[..n]);
      assert EventsOf(Entered, made) == before + [e];
      LifeStep(live + Ids(made[..n]), bound + n, log + before, e);
      IdsSnoc(made);
      assert live + Ids(made[..n]) + {made[n].id} == live + Ids(made);
      assert log + (before + [e]) == log + before + [e];
    }
  }

  lemma FewerLive(live: set<nat>, fewer: set<nat>, bound: nat, log: seq<ObjectEvent>)
    requires Lives(live, bound, log) && fewer <= live
    ensures Lives(fewer, bound, log)
  {
  }

  lemma FrameLives(m: Memory, log: seq<ObjectEvent>, ds: seq<Detection>, picks: seq<Candidate>,
                   at: int, maxMissed: nat)
    requires InRange(m.tracks, ds, picks) && Increasing(m.tracks) && IdsWithin(m.tracks, 0, m.nextId)
    requires Lives(Ids(m.tracks), m.nextId, log)
    ensures var m' := AfterFrame(m, ds, picks, at, maxMissed);
            && Increasing(m'.tracks) && IdsWithin(m'.tracks, 0, m'.nextId)
            && Lives(Ids(m'.tracks), m'.nextId, log + FrameEvents(m, ds, picks, at, maxMissed))
  {
    hide Applied, Aged, Sifted, NewTracks, TracksOf, DetectionsOf, EventsOf, UpdateEvents, Lives;
    FrameShape(m, ds, picks, at, maxMissed);
    var aged := Aged(Applied(m.tracks, ds, picks, at), TracksOf(picks));
    var kept := Sifted(aged, TracksOf(picks), maxMissed, false);
    var gone := Sifted(aged, TracksOf(picks), maxMissed, true);
    var made := NewTracks(ds, DetectionsOf(picks), m.nextId, at);
    var live, updates, exits := Ids(m.tracks), UpdateEvents(m.tracks, ds, picks, at), EventsOf(Exited, gone);
    UpdatesLive(live, m.nextId, log, m.tracks, ds, picks, at);
    assert forall i | 0 <= i < |gone| :: HasId(gone, gone[i].id);
    ExitsLive(live, m.nextId, log + updates, gone);
    EntersLive(live - Ids(gone), m.nextId, log + updates + exits, made);
    KeptIds(m.tracks, kept, gone, made);
    FewerLive(live - Ids(gone) + Ids(made), Ids(kept + made), m.nextId + |made|,
              log + updates + exits + EventsOf(Entered, made));
    assert log + (updates + exits + EventsOf(Entered, made)) == log + updates + exits + EventsOf(Entered, made);
  }

  lemma KeptIds(tracks: seq<Track>, kept: seq<Track>, gone: seq<Track>, made: seq<Track>)
    requires forall i, j | 0 <= i < |kept| && 0 <= j < |gone| :: kept[i].id != gone[j].id
    requires forall id :: HasId(tracks, id) <==> HasId(kept, id) || HasId(gone, id)
    ensures Ids(kept + made) <= Ids(tracks) - Ids(gone) + Ids(made)
  {
    forall id | id in Ids(kept + made) ensures id in Ids(tracks) - Ids(gone) + Ids(made) {
      var i :| 0 <= i < |kept + made| && (kept + made)[i].id == id;
      if i < |kept| { assert HasId(kept, id); } else { assert made[i - |kept|].id == id; }
    }
  }

  /** Every id's events spell ENTERED, UPDATED*, and at most one EXITED, on any run with any
      number of `clear`s; a live track's id has not exited, and an id is never used twice. */
  lemma {:induction false} IdsLiveOnce(cfg: Config, steps: seq<Step>)
    ensures var y := Exec(cfg, steps);
            && Increasing(y.memory.tracks) && IdsWithin(y.memory.tracks, 0, y.memory.nextId)
            && Lives(Ids(y.memory.tracks), y.memory.nextId, y.log)
  {
    if steps != [] {
      var y, step := Exec(cfg, steps[..|steps|-1]), steps[|steps|-1];
      hide Lives;
      IdsLiveOnce(cfg, steps[..|steps|-1]);
      if Possible(cfg, y.memory, step) {
        match step
        case Frame(ds, picks, at) => FrameLives(y.memory, y.log, ds, picks, at, cfg.maxMissed);
        case Clear => FewerLive(Ids(y.memory.tracks), Ids([]), y.memory.nextId, y.log);
      }
    } else {
      assert Ids([]) == {};
    }
  }
}
