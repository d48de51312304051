/** What a live track says, told from the run: it is its id's last sighting, and `missed` counts the
    frames since. */
module TrackerSightings {
  import opened Options
  import opened Matching
  import opened Tracker
  import opened TrackerRuns

  /** The tracks published as ENTERED or UPDATED under an id, in order. */
  ghost function Sightings(log: seq<ObjectEvent>, id: nat): seq<Track> {
    if log == [] then []
    else
      var e := log[|log|-1];
      Sightings(log[..|log|-1], id) + if e.track.id == id && e.kind != Exited then [e.track] else []
  }

  /** The track is as the detection showed it in a frame at `at`. */
  predicate Shows(t: Track, d: Detection, at: int) {
    t.labelId == d.labelId && t.confidence == d.confidence && t.box == d.box && t.lastSeen == at && t.missed == 0
  }

  lemma {:induction false} SightingsAppend(a: seq<ObjectEvent>, b: seq<ObjectEvent>, id: nat)
    ensures Sightings(a + b, id) == Sightings(a, id) + Sightings(b, id)
  {
    if b == [] {
      assert a + b == a;
    } else {
      SightingsAppend(a, b[..|b|-1], id);
      assert (a + b)[..|a + b|-1] == a + b[..|b|-1];
    }
  }

  // ---- the sightings of one frame ----

  /** A matched track is sighted once, as its detection shows it; an unmatched one is not, and stays. */
  ghost predicate Picked(tracks: seq<Track>, ds: seq<Detection>, picks: seq<Candidate>, at: int, i: nat)
    requires InRange(tracks, ds, picks) && i < |tracks|
  {
    var after := Applied(tracks, ds, picks, at)[i];
    var sightings := Sightings(UpdateEvents(tracks, ds, picks, at), tracks[i].id);
    if i in TracksOf(picks) then
      && sightings == [after]
      && (exists k | 0 <= k < |picks| :: picks[k].track == i && SeenAs(tracks[i], after, ds[picks[k].detection], at))
    else sightings == [] && after == tracks[i]
  }

  /** The same track one frame later, showing the detection but for the label, which it keeps. */
  predicate SeenAs(t: Track, after: Track, d: Detection, at: int) {
    && after.confidence == d.confidence && after.box == d.box && after.lastSeen == at && after.missed == 0
    && after.id == t.id && after.labelId == t.labelId && after.firstSeen == t.firstSeen
    && after.framesSeen == t.framesSeen + 1
  }

  lemma {:induction false} UpdatesSight(tracks: seq<Track>, ds: seq<Detection>, picks: seq<Candidate>, at: int, i: nat)
    requires InRange(tracks, ds, picks) && OneToOne(picks) && Increasing(tracks) && i < |tracks|
    ensures Picked(tracks, ds, picks, at, i)
  {
    if picks == [] {
      assert TracksOf(picks) == {};
    } else {
      var n := |picks| - 1;
      var init, last := picks[..n], picks[n];
      assert picks == init + [last];
      UpdatesSight(tracks, ds, init, at, i);
      SetsGrow(init, last);
      AppliedKeepsIds(tracks, ds, picks, at);
      PickSights(tracks, ds, init, last, at, i);
    }
  }

  lemma PickSights(tracks: seq<Track>, ds: seq<Detection>, init: seq<Candidate>, last: Candidate, at: int, i: nat)
    requires InRange(tracks, ds, init + [last]) && OneToOne(init + [last]) && Increasing(tracks) && i < |tracks|
    requires InRange(tracks, ds, init) && Picked(tracks, ds, init, at, i)
    requires TracksOf(init + [last]) == TracksOf(init) + {last.track}
    requires SameIds(Applied(tracks, ds, init + [last], at), tracks)
    ensures Picked(tracks, ds, init + [last], at, i)
  {
    hide Applied, UpdateEvents, Sightings, TracksOf, OneToOne, Increasing, SeenAs;
    PickApplies(tracks, ds, init, last, at);
    var e := ObjectEvent(Updated, Applied(tracks, ds, init + [last], at)[last.track]);
    SightingsSnoc(UpdateEvents(tracks, ds, init, at), e, tracks[i].id);
    if last.track == i {
      NotPickedBefore(init, last);
      PickedNow(tracks, ds, init, last, at);
    } else {
      DistinctIds(tracks, last.track, i);
      if i in TracksOf(init) { PickedStays(tracks, ds, init, last, at, i); }
    }
  }

  lemma SightingsSnoc(log: seq<ObjectEvent>, e: ObjectEvent, id: nat)
    ensures Sightings(log + [e], id) == Sightings(log, id)
                                        + if e.track.id == id && e.kind != Exited then [e.track] else []
  {
    assert (log + [e])[..|log|] == log;
  }

  lemma PickApplies(tracks: seq<Track>, ds: seq<Detection>, init: seq<Candidate>, last: Candidate, at: int)
    requires InRange(tracks, ds, init + [last]) && InRange(tracks, ds, init)
    ensures last.track < |tracks| && last.detection < |ds|
    ensures var before, after := Applied(tracks, ds, init, at), Applied(tracks, ds, init + [last], at);
            && after == before[last.track := Refreshed(before[last.track], ds[last.detection], at)]
            && UpdateEvents(tracks, ds, init + [last], at)
                 == UpdateEvents(tracks, ds, init, at) + [ObjectEvent(Updated, after[last.track])]
  {
    assert (init + [last])[..|init|] == init && (init + [last])[|init|] == last;
  }

  lemma NotPickedBefore(init: seq<Candidate>, last: Candidate)
    requires OneToOne(init + [last])
    ensures last.track !in TracksOf(init)
  {
    forall k | 0 <= k < |init| ensures init[k].track != last.track {
      assert (init + [last])[k] == init[k] && (init + [last])[|init|] == last;
    }
  }

  lemma DistinctIds(tracks: seq<Track>, i: nat, j: nat)
    requires Increasing(tracks) && i < |tracks| && j < |tracks|
    ensures tracks[i].id == tracks[j].id <==> i == j
  {
  }

  lemma PickedNow(tracks: seq<Track>, ds: seq<Detection>, init: seq<Candidate>, last: Candidate, at: int)
    requires last.track < |tracks| && last.detection < |ds|
    ensures var picks := init + [last];
            var after := Refreshed(tracks[last.track], ds[last.detection], at);
            exists k | 0 <= k < |picks| ::
              picks[k].track == last.track && picks[k].detection < |ds|
              && SeenAs(tracks[last.track], after, ds[picks[k].detection], at)
  {
    assert (init + [last])[|init|] == last;
  }

  lemma PickedStays(tracks: seq<Track>, ds: seq<Detection>, init: seq<Candidate>, last: Candidate, at: int, i: nat)
    requires InRange(tracks, ds, init) && i < |tracks|
    requires exists k | 0 <= k < |init| ::
               init[k].track == i && SeenAs(tracks[i], Applied(tracks, ds, init, at)[i], ds[init[k].detection], at)
    ensures exists k | 0 <= k < |init + [last]| ::
              (init + [last])[k].track == i && (init + [last])[k].detection < |ds|
              && SeenAs(tracks[i], Applied(tracks, ds, init, at)[i], ds[(init + [last])[k].detection], at)
  {
    hide SeenAs, Applied;
    var k :| 0 <= k < |init| && init[k].track == i
          && SeenAs(tracks[i], Applied(tracks, ds, init, at)[i], ds[init[k].detection], at);
    assert (init + [last])[k] == init[k];
  }

  lemma {:induction false} ExitsSightNothing(gone: seq<Track>, id: nat)
    ensures Sightings(EventsOf(Exited, gone), id) == []
  {
    if gone != [] {
      var n := |gone| - 1;
      ExitsSightNothing(gone[..n], id);
      assert EventsOf(Exited, gone)[..n] == EventsOf(Exited, gone[..n]);
    }
  }

  lemma {:induction false} EntersSight(made: seq<Track>, nextId: nat, id: nat)
    requires Fresh(made, nextId)
    ensures Sightings(EventsOf(Entered, made), id)
         == if nextId <= id < nextId + |made| then [made[id - nextId]] else []
  {
    if made != [] {
      var n := |made| - 1;
      EntersSight(made[..n], nextId, id);
      assert EventsOf(Entered, made)[..n] == EventsOf(Entered, made[..n]);
    }
  }

  /** The detections no track took, in order. */
  function Unmatched(ds: seq<Detection>, matched: set<nat>): seq<Detection> {
    if ds == [] then []
    else
      var n := |ds| - 1;
      Unmatched(ds[..n], matched) + if n in matched then [] else [ds[n]]
  }

  ghost predicate ShownBy(made: seq<Track>, shown: seq<Detection>, at: int) {
    |made| == |shown| && forall k | 0 <= k < |made| :: Shows(made[k], shown[k], at) && made[k].firstSeen == at
  }

  lemma {:induction false} NewTracksShow(ds: seq<Detection>, matched: set<nat>, nextId: nat, at: int)
    ensures ShownBy(NewTracks(ds, matched, nextId, at), Unmatched(ds, matched), at)
  {
    if ds != [] { NewTracksShow(ds[..|ds|-1], matched, nextId, at); }
  }

  // ---- one frame ----

  /** What the log so far, and the frames since the last sighting, say of a track. */
  predicate Told(t: Track, sightings: seq<Track>, since: nat) {
    && sightings != [] && sightings[|sightings|-1] == t.(missed := 0)
    && |sightings| == t.framesSeen
    && sightings[0].lastSeen == t.firstSeen && sightings[0].labelId == t.labelId
    && t.missed == since
  }

  function Since(news: seq<Track>, before: nat): nat {
    if news != [] then 0 else before + 1
  }

  lemma KeptIsTold(t: Track, applied: Track, aged: Track, d: Option<Detection>, at: int,
                   sightings: seq<Track>, since: nat)
    requires Told(t, sightings, since)
    requires if d.Some? then SeenAs(t, applied, d.value, at) && aged == applied
             else applied == t && aged == t.(missed := t.missed + 1)
    ensures Told(aged, sightings + (if d.Some? then [applied] else []), if d.Some? then 0 else since + 1)
    ensures aged.id == t.id
  {
  }

  lemma MadeIsTold(t: Track, d: Detection, at: int)
    requires Shows(t, d, at) && t.firstSeen == at && t.framesSeen == 1
    ensures Told(t, [t], 0)
  {
    assert t == t.(missed := 0);
  }

  lemma {:induction false} UpdatesSightNoOther(tracks: seq<Track>, ds: seq<Detection>, picks: seq<Candidate>,
                                               at: int, id: nat)
    requires InRange(tracks, ds, picks) && !HasId(tracks, id)
    ensures Sightings(UpdateEvents(tracks, ds, picks, at), id) == []
  {
    if picks != [] {
      var n := |picks| - 1;
      UpdatesSightNoOther(tracks, ds, picks[..n], at, id);
      AppliedKeepsIds(tracks, ds, picks, at);
      var events := UpdateEvents(tracks, ds, picks, at);
      assert events[..|events|-1] == UpdateEvents(tracks, ds, picks[..n], at);
      assert tracks[picks[n].track].id != id;
    }
  }

  /** Under each id, the sightings among a frame's events. */
  lemma FrameSights(m: Memory, ds: seq<Detection>, picks: seq<Candidate>, at: int, maxMissed: nat, id: nat)
    requires InRange(m.tracks, ds, picks) && OneToOne(picks)
    requires Increasing(m.tracks) && IdsWithin(m.tracks, 0, m.nextId)
    ensures var made := NewTracks(ds, DetectionsOf(picks), m.nextId, at);
            Sightings(FrameEvents(m, ds, picks, at, maxMissed), id)
              == Sightings(UpdateEvents(m.tracks, ds, picks, at), id)
                 + if m.nextId <= id < m.nextId + |made| then [made[id - m.nextId]] else []
    ensures id >= m.nextId ==> Sightings(UpdateEvents(m.tracks, ds, picks, at), id) == []
  {
    hide Sightings, Applied, Aged, Sifted, NewTracks, UpdateEvents, EventsOf, TracksOf, DetectionsOf;
    var gone := Sifted(Aged(Applied(m.tracks, ds, picks, at), TracksOf(picks)), TracksOf(picks), maxMissed, true);
    var made := NewTracks(ds, DetectionsOf(picks), m.nextId, at);
    var updates, exits := UpdateEvents(m.tracks, ds, picks, at), EventsOf(Exited, gone);
    var enters := EventsOf(Entered, made);
    SightingsAppend(updates + exits, enters, id);
    SightingsAppend(updates, exits, id);
    ExitsSightNothing(gone, id);
    NewTracksAre(ds, DetectionsOf(picks), m.nextId, at);
    EntersSight(made, m.nextId, id);
    if id >= m.nextId { UpdatesSightNoOther(m.tracks, ds, picks, at, id); }
  }

  /** One old track after a frame, before expiry. */
  lemma AgedIsTold(m: Memory, ds: seq<Detection>, picks: seq<Candidate>, at: int, i: nat,
                   sightings: seq<Track>, since: nat)
    requires InRange(m.tracks, ds, picks) && OneToOne(picks) && Increasing(m.tracks) && i < |m.tracks|
    requires Told(m.tracks[i], sightings, since)
    ensures var aged := Aged(Applied(m.tracks, ds, picks, at), TracksOf(picks))[i];
            var news := Sightings(UpdateEvents(m.tracks, ds, picks, at), m.tracks[i].id);
            && Told(aged, sightings + news, Since(news, since)) && aged.id == m.tracks[i].id
            && (news != [] <==> i in TracksOf(picks))
  {
    var applied := Applied(m.tracks, ds, picks, at);
    UpdatesSight(m.tracks, ds, picks, at, i);
    AgedAt(applied, TracksOf(picks), i);
    var d: Option<Detection> := None;
    if i in TracksOf(picks) {
      var k :| 0 <= k < |picks| && picks[k].track == i
            && SeenAs(m.tracks[i], applied[i], ds[picks[k].detection], at);
      d := Some(ds[picks[k].detection]);
    }
    hide Applied, Aged, Told, SeenAs, Sightings, UpdateEvents, TracksOf;
    assert sightings + [] == sightings;
    KeptIsTold(m.tracks[i], applied[i], Aged(applied, TracksOf(picks))[i], d, at, sightings, since);
  }

  /** Every track is as told, and ids not yet given have not been sighted. */
  ghost predicate AllTold(m: Memory, log: seq<ObjectEvent>, since: nat -> nat) {
    && (forall i | 0 <= i < |m.tracks| ::
         Told(m.tracks[i], Sightings(log, m.tracks[i].id), since(m.tracks[i].id)))
    && (forall id: nat | id >= m.nextId :: Sightings(log, id) == [])
  }

  lemma SiftedFrom(aged: seq<Track>, matched: set<nat>, maxMissed: nat, expired: bool, k: nat) returns (i: nat)
    requires Increasing(aged) && k < |Sifted(aged, matched, maxMissed, expired)|
    ensures i < |aged| && aged[i] == Sifted(aged, matched, maxMissed, expired)[k]
    ensures (i !in matched && aged[i].missed > maxMissed) == expired
  {
    SiftedIsPart(aged, matched, maxMissed, expired);
    hide Sifted, Increasing;
    var part := Sifted(aged, matched, maxMissed, expired);
    assert Stands(part[k], aged, matched, maxMissed, expired);
    i :| 0 <= i < |aged| && aged[i] == part[k] && Expires(aged, matched, maxMissed, i) == expired;
  }

  /** An old track as the frame leaves it. */
  lemma OldIsTold(m: Memory, log: seq<ObjectEvent>, ds: seq<Detection>, picks: seq<Candidate>, at: int,
                  maxMissed: nat, since: nat -> nat, i: nat)
    requires InRange(m.tracks, ds, picks) && OneToOne(picks) && AllTold(m, log, since) && i < |m.tracks|
    requires Increasing(m.tracks) && IdsWithin(m.tracks, 0, m.nextId)
    ensures var t := Aged(Applied(m.tracks, ds, picks, at), TracksOf(picks))[i];
            var events := FrameEvents(m, ds, picks, at, maxMissed);
            && t.id == m.tracks[i].id
            && Told(t, Sightings(log + events, t.id), Since(Sightings(events, t.id), since(t.id)))
            && (Sightings(events, t.id) != [] <==> i in TracksOf(picks))
  {
    var id := m.tracks[i].id;
    assert id < m.nextId && Told(m.tracks[i], Sightings(log, id), since(id));
    hide *;
    AgedIsTold(m, ds, picks, at, i, Sightings(log, id), since(id));
    FrameSights(m, ds, picks, at, maxMissed, id);
    SightingsAppend(log, FrameEvents(m, ds, picks, at, maxMissed), id);
    var news := Sightings(UpdateEvents(m.tracks, ds, picks, at), id);
    assert news + [] == news;
  }

  /** A track on either side of the expiry test, as the frame leaves it. */
  lemma SiftedIsTold(m: Memory, log: seq<ObjectEvent>, ds: seq<Detection>, picks: seq<Candidate>, at: int,
                     maxMissed: nat, since: nat -> nat, expired: bool, k: nat)
    requires InRange(m.tracks, ds, picks) && OneToOne(picks) && AllTold(m, log, since)
    requires Increasing(m.tracks) && IdsWithin(m.tracks, 0, m.nextId)
    requires var aged := Aged(Applied(m.tracks, ds, picks, at), TracksOf(picks));
             k < |Sifted(aged, TracksOf(picks), maxMissed, expired)|
    ensures var aged := Aged(Applied(m.tracks, ds, picks, at), TracksOf(picks));
            var t := Sifted(aged, TracksOf(picks), maxMissed, expired)[k];
            var events := FrameEvents(m, ds, picks, at, maxMissed);
            var since' := Since(Sightings(events, t.id), since(t.id));
            && HasId(m.tracks, t.id) && Told(t, Sightings(log + events, t.id), since')
            && (since' > maxMissed <==> expired)
  {
    var aged := Aged(Applied(m.tracks, ds, picks, at), TracksOf(picks));
    FrameShape(m, ds, picks, at, maxMissed);
    hide Applied, Aged, Sifted, TracksOf, Sightings, FrameEvents, AllTold, Increasing;
    var i := SiftedFrom(aged, TracksOf(picks), maxMissed, expired, k);
    OldIsTold(m, log, ds, picks, at, maxMissed, since, i);
  }

  /** A new track. */
  lemma MadeIsToldToo(m: Memory, log: seq<ObjectEvent>, ds: seq<Detection>, picks: seq<Candidate>, at: int,
                      maxMissed: nat, since: nat -> nat, k: nat)
    requires InRange(m.tracks, ds, picks) && OneToOne(picks) && AllTold(m, log, since)
    requires Increasing(m.tracks) && IdsWithin(m.tracks, 0, m.nextId)
    requires k < |NewTracks(ds, DetectionsOf(picks), m.nextId, at)|
    ensures var t := NewTracks(ds, DetectionsOf(picks), m.nextId, at)[k];
            var events := FrameEvents(m, ds, picks, at, maxMissed);
            && t.id == m.nextId + k && Sightings(events, t.id) == [t]
            && Told(t, Sightings(log + events, t.id), 0)
  {
    hide NewTracks, Sightings, FrameEvents, UpdateEvents, DetectionsOf, Told;
    var made := NewTracks(ds, DetectionsOf(picks), m.nextId, at);
    NewTracksAre(ds, DetectionsOf(picks), m.nextId, at);
    NewTracksShow(ds, DetectionsOf(picks), m.nextId, at);
    var id := m.nextId + k;
    MadeIsTold(made[k], Unmatched(ds, DetectionsOf(picks))[k], at);
    FrameSights(m, ds, picks, at, maxMissed, id);
    SightingsAppend(log, FrameEvents(m, ds, picks, at, maxMissed), id);
    assert [] + [made[k]] == [made[k]];
  }

  lemma AfterFrameIs(m: Memory, ds: seq<Detection>, picks: seq<Candidate>, at: int, maxMissed: nat)
    requires InRange(m.tracks, ds, picks)
    ensures var aged := Aged(Applied(m.tracks, ds, picks, at), TracksOf(picks));
            var made := NewTracks(ds, DetectionsOf(picks), m.nextId, at);
            AfterFrame(m, ds, picks, at, maxMissed)
              == Memory(Sifted(aged, TracksOf(picks), maxMissed, false) + made, m.nextId + |made|)
  {
  }

  lemma TrackTold(m: Memory, log: seq<ObjectEvent>, ds: seq<Detection>, picks: seq<Candidate>, at: int,
                  maxMissed: nat, since: nat -> nat, i: nat)
    requires InRange(m.tracks, ds, picks) && OneToOne(picks) && AllTold(m, log, since)
    requires Increasing(m.tracks) && IdsWithin(m.tracks, 0, m.nextId)
    requires i < |AfterFrame(m, ds, picks, at, maxMissed).tracks|
    ensures var t := AfterFrame(m, ds, picks, at, maxMissed).tracks[i];
            var events := FrameEvents(m, ds, picks, at, maxMissed);
            Told(t, Sightings(log + events, t.id), Since(Sightings(events, t.id), since(t.id)))
  {
    hide *;
    AfterFrameIs(m, ds, picks, at, maxMissed);
    var aged := Aged(Applied(m.tracks, ds, picks, at), TracksOf(picks));
    var kept := Sifted(aged, TracksOf(picks), maxMissed, false);
    var made := NewTracks(ds, DetectionsOf(picks), m.nextId, at);
    if i < |kept| {
      SiftedIsTold(m, log, ds, picks, at, maxMissed, since, false, i);
    } else {
      MadeIsToldToo(m, log, ds, picks, at, maxMissed, since, i - |kept|);
      SinceNow(made[i - |kept|], since(made[i - |kept|].id));
    }
  }

  lemma UnusedStaysUnsighted(m: Memory, log: seq<ObjectEvent>, ds: seq<Detection>, picks: seq<Candidate>, at: int,
                             maxMissed: nat, since: nat -> nat, id: nat)
    requires InRange(m.tracks, ds, picks) && OneToOne(picks) && AllTold(m, log, since)
    requires Increasing(m.tracks) && IdsWithin(m.tracks, 0, m.nextId)
    requires id >= AfterFrame(m, ds, picks, at, maxMissed).nextId
    ensures Sightings(log + FrameEvents(m, ds, picks, at, maxMissed), id) == []
  {
    hide Applied, Aged, Sifted, NewTracks, Sightings, FrameEvents, UpdateEvents, Told;
    FrameSights(m, ds, picks, at, maxMissed, id);
    SightingsAppend(log, FrameEvents(m, ds, picks, at, maxMissed), id);
  }

  /** After a frame every track is as told. */
  lemma FrameTold(m: Memory, log: seq<ObjectEvent>, ds: seq<Detection>, picks: seq<Candidate>, at: int,
                  maxMissed: nat, since: nat -> nat, since': nat -> nat)
    requires InRange(m.tracks, ds, picks) && OneToOne(picks) && AllTold(m, log, since)
    requires Increasing(m.tracks) && IdsWithin(m.tracks, 0, m.nextId)
    requires forall id: nat ::
               since'(id) == Since(Sightings(FrameEvents(m, ds, picks, at, maxMissed), id), since(id))
    ensures AllTold(AfterFrame(m, ds, picks, at, maxMissed), log + FrameEvents(m, ds, picks, at, maxMissed), since')
  {
    hide *;
    var m', events := AfterFrame(m, ds, picks, at, maxMissed), FrameEvents(m, ds, picks, at, maxMissed);
    forall i | 0 <= i < |m'.tracks|
      ensures Told(m'.tracks[i], Sightings(log + events, m'.tracks[i].id), since'(m'.tracks[i].id))
    {
      TrackTold(m, log, ds, picks, at, maxMissed, since, i);
    }
    forall id: nat | id >= m'.nextId ensures Sightings(log + events, id) == [] {
      UnusedStaysUnsighted(m, log, ds, picks, at, maxMissed, since, id);
    }
    AllToldIs(m', log + events, since');
  }

  lemma SinceNow(t: Track, before: nat)
    ensures Since([t], before) == 0
  {
  }

  lemma AllToldIs(m: Memory, log: seq<ObjectEvent>, since: nat -> nat)
    requires forall i | 0 <= i < |m.tracks| ::
               Told(m.tracks[i], Sightings(log, m.tracks[i].id), since(m.tracks[i].id))
    requires forall id: nat | id >= m.nextId :: Sightings(log, id) == []
    ensures AllTold(m, log, since)
  {
  }

  /** An id exits in a frame exactly when it was live and has gone unsighted for more frames than allowed. */
  lemma FrameExits(m: Memory, log: seq<ObjectEvent>, ds: seq<Detection>, picks: seq<Candidate>, at: int,
                   maxMissed: nat, since: nat -> nat, id: nat)
    requires InRange(m.tracks, ds, picks) && OneToOne(picks) && AllTold(m, log, since)
    requires Increasing(m.tracks) && IdsWithin(m.tracks, 0, m.nextId)
    ensures var events := FrameEvents(m, ds, picks, at, maxMissed);
            HasExit(events, id) <==> HasId(m.tracks, id) && Since(Sightings(events, id), since(id)) > maxMissed
  {
    var events := FrameEvents(m, ds, picks, at, maxMissed);
    var aged := Aged(Applied(m.tracks, ds, picks, at), TracksOf(picks));
    var kept := Sifted(aged, TracksOf(picks), maxMissed, false);
    var gone := Sifted(aged, TracksOf(picks), maxMissed, true);
    FrameShape(m, ds, picks, at, maxMissed);
    OnlyGoneExit(m, ds, picks, at, maxMissed, id);
    hide Applied, Aged, Sifted, TracksOf, Sightings, FrameEvents, AllTold, Increasing, IdsWithin, InRange, OneToOne;
    if HasId(gone, id) {
      var k :| 0 <= k < |gone| && gone[k].id == id;
      SiftedIsTold(m, log, ds, picks, at, maxMissed, since, true, k);
    } else if HasId(kept, id) {
      var k :| 0 <= k < |kept| && kept[k].id == id;
      SiftedIsTold(m, log, ds, picks, at, maxMissed, since, false, k);
    }
  }

  ghost predicate HasExit(events: seq<ObjectEvent>, id: nat) {
    exists i | 0 <= i < |events| :: events[i].kind == Exited && events[i].track.id == id
  }

  lemma {:induction false} UpdatesAreUpdates(tracks: seq<Track>, ds: seq<Detection>, picks: seq<Candidate>, at: int)
    requires InRange(tracks, ds, picks)
    ensures forall i | 0 <= i < |UpdateEvents(tracks, ds, picks, at)| ::
              UpdateEvents(tracks, ds, picks, at)[i].kind == Updated
  {
    if picks != [] { UpdatesAreUpdates(tracks, ds, picks[..|picks|-1], at); }
  }

  lemma OnlyGoneExit(m: Memory, ds: seq<Detection>, picks: seq<Candidate>, at: int, maxMissed: nat, id: nat)
    requires InRange(m.tracks, ds, picks)
    ensures var aged := Aged(Applied(m.tracks, ds, picks, at), TracksOf(picks));
            HasExit(FrameEvents(m, ds, picks, at, maxMissed), id) <==>
            HasId(Sifted(aged, TracksOf(picks), maxMissed, true), id)
  {
    hide Applied, Aged, Sifted, NewTracks, UpdateEvents, EventsOf, HasExit, HasId, TracksOf, DetectionsOf;
    var gone := Sifted(Aged(Applied(m.tracks, ds, picks, at), TracksOf(picks)), TracksOf(picks), maxMissed, true);
    var made := NewTracks(ds, DetectionsOf(picks), m.nextId, at);
    var updates, exits := UpdateEvents(m.tracks, ds, picks, at), EventsOf(Exited, gone);
    UpdatesAreUpdates(m.tracks, ds, picks, at);
    NoExitIn(updates, id);
    ExitOfEither(updates, exits, id);
    ExitOfEither(updates + exits, EventsOf(Entered, made), id);
    ExitsOf(gone, made, id);
  }

  lemma NoExitIn(events: seq<ObjectEvent>, id: nat)
    requires forall i | 0 <= i < |events| :: events[i].kind == Updated
    ensures !HasExit(events, id)
  {
  }

  lemma ExitOfEither(a: seq<ObjectEvent>, b: seq<ObjectEvent>, id: nat)
    ensures HasExit(a + b, id) <==> HasExit(a, id) || HasExit(b, id)
  {
    if HasExit(b, id) {
      var k :| 0 <= k < |b| && b[k].kind == Exited && b[k].track.id == id;
      assert (a + b)[|a| + k] == b[k];
    }
    if HasExit(a, id) {
      var k :| 0 <= k < |a| && a[k].kind == Exited && a[k].track.id == id;
      assert (a + b)[k] == a[k];
    }
  }

  lemma ExitsOf(gone: seq<Track>, made: seq<Track>, id: nat)
    ensures HasExit(EventsOf(Exited, gone), id) <==> HasId(gone, id)
    ensures !HasExit(EventsOf(Entered, made), id)
  {
    if HasId(gone, id) {
      var k :| 0 <= k < |gone| && gone[k].id == id;
      assert EventsOf(Exited, gone)[k].track.id == id;
    }
  }

  /** Why an id was sighted in a frame: its track was picked for a detection, or it was given to one that
      no track took. */
  ghost predicate SightedAs(m: Memory, ds: seq<Detection>, picks: seq<Candidate>, at: int, id: nat, t: Track)
    requires InRange(m.tracks, ds, picks)
  {
    if id < m.nextId then
      exists k | 0 <= k < |picks| ::
        && m.tracks[picks[k].track].id == id
        && SeenAs(m.tracks[picks[k].track], t, ds[picks[k].detection], at)
    else
      var shown := Unmatched(ds, DetectionsOf(picks));
      id - m.nextId < |shown| && Shows(t, shown[id - m.nextId], at) && t.firstSeen == at && t.framesSeen == 1
  }

  ghost predicate IsPicked(m: Memory, ds: seq<Detection>, picks: seq<Candidate>, id: nat)
    requires InRange(m.tracks, ds, picks)
  {
    exists k | 0 <= k < |picks| :: m.tracks[picks[k].track].id == id
  }

  /** An id is sighted at most once a frame: as the detection its track was picked for, or its first. */
  lemma FrameSightingsShow(m: Memory, ds: seq<Detection>, picks: seq<Candidate>, at: int, maxMissed: nat, id: nat)
    requires InRange(m.tracks, ds, picks) && OneToOne(picks)
    requires Increasing(m.tracks) && IdsWithin(m.tracks, 0, m.nextId)
    ensures var s := Sightings(FrameEvents(m, ds, picks, at, maxMissed), id);
            if IsPicked(m, ds, picks, id) || m.nextId <= id < m.nextId + |Unmatched(ds, DetectionsOf(picks))|
            then |s| == 1 && SightedAs(m, ds, picks, at, id, s[0]) else s == []
  {
    hide Sightings, FrameEvents, UpdateEvents, Applied, NewTracks, Unmatched, Shows, SeenAs, Increasing;
    var shown := Unmatched(ds, DetectionsOf(picks));
    FrameSights(m, ds, picks, at, maxMissed, id);
    NewTracksAre(ds, DetectionsOf(picks), m.nextId, at);
    NewTracksShow(ds, DetectionsOf(picks), m.nextId, at);
    if HasId(m.tracks, id) {
      var i :| 0 <= i < |m.tracks| && m.tracks[i].id == id;
      UpdatesSight(m.tracks, ds, picks, at, i);
      PickedIs(m, ds, picks, i);
    } else {
      UpdatesSightNoOther(m.tracks, ds, picks, at, id);
    }
  }

  lemma PickedIs(m: Memory, ds: seq<Detection>, picks: seq<Candidate>, i: nat)
    requires InRange(m.tracks, ds, picks) && Increasing(m.tracks) && i < |m.tracks|
    ensures IsPicked(m, ds, picks, m.tracks[i].id) <==> i in TracksOf(picks)
  {
    forall k | 0 <= k < |picks| && m.tracks[picks[k].track].id == m.tracks[i].id ensures picks[k].track == i {
      DistinctIds(m.tracks, picks[k].track, i);
    }
  }

  // ---- every run ----

  /** How many frames there were since the last one that sighted the id. */
  ghost function FramesSince(cfg: Config, steps: seq<Step>, id: nat): nat {
    if steps == [] then 0
    else
      var init, step := steps[..|steps|-1], steps[|steps|-1];
      var m, since := Exec(cfg, init).memory, FramesSince(cfg, init, id);
      if step.Frame? && Possible(cfg, m, step)
      then Since(Sightings(FrameEvents(m, step.ds, step.picks, step.at, cfg.maxMissed), id), since)
      else since
  }

  ghost predicate AsSighted(cfg: Config, steps: seq<Step>) {
    AllTold(Exec(cfg, steps).memory, Exec(cfg, steps).log, (id: nat) => FramesSince(cfg, steps, id))
  }

  lemma StepSnoc(cfg: Config, steps: seq<Step>, step: Step)
    ensures var y := Exec(cfg, steps);
            Exec(cfg, steps + [step]) == if Possible(cfg, y.memory, step) then After(cfg, y, step) else y
    ensures forall id :: FramesSince(cfg, steps + [step], id) ==
              var m, since := Exec(cfg, steps).memory, FramesSince(cfg, steps, id);
              if step.Frame? && Possible(cfg, m, step)
              then Since(Sightings(FrameEvents(m, step.ds, step.picks, step.at, cfg.maxMissed), id), since)
              else since
  {
    hide Possible, After, Since, Sightings, FrameEvents;
    assert (steps + [step])[..|steps|] == steps;
  }

  lemma FrameAsSighted(cfg: Config, steps: seq<Step>, step: Step)
    requires AsSighted(cfg, steps) && step.Frame? && Possible(cfg, Exec(cfg, steps).memory, step)
    ensures AsSighted(cfg, steps + [step])
  {
    hide Exec, FramesSince, AllTold, AfterFrame, FrameEvents, Sightings, Since, Increasing, IdsWithin;
    var y := Exec(cfg, steps);
    StepSnoc(cfg, steps, step);
    IdsLiveOnce(cfg, steps);
    FrameTold(y.memory, y.log, step.ds, step.picks, step.at, cfg.maxMissed,
              (id: nat) => FramesSince(cfg, steps, id), (id: nat) => FramesSince(cfg, steps + [step], id));
  }

  lemma OtherwiseAsSighted(cfg: Config, steps: seq<Step>, step: Step)
    requires AsSighted(cfg, steps) && !(step.Frame? && Possible(cfg, Exec(cfg, steps).memory, step))
    ensures AsSighted(cfg, steps + [step])
  {
    hide Exec, FramesSince, Sightings, Possible, Told;
    StepSnoc(cfg, steps, step);
  }

  /** On every run each live track is its id's last sighting, first seen at its first one, with as many
      frames as sightings; `missed` is the number of frames since the last. */
  lemma {:induction false} LiveTracksAreAsSighted(cfg: Config, steps: seq<Step>)
    ensures AsSighted(cfg, steps)
  {
    if steps != [] {
      hide AsSighted, Possible;
      var init, step := steps[..|steps|-1], steps[|steps|-1];
      assert steps == init + [step];
      LiveTracksAreAsSighted(cfg, init);
      if step.Frame? && Possible(cfg, Exec(cfg, init).memory, step) {
        FrameAsSighted(cfg, init, step);
      } else {
        OtherwiseAsSighted(cfg, init, step);
      }
    }
  }

  /** No live id has gone unsighted for longer than allowed. */
  lemma {:induction false} LiveWithinLimit(cfg: Config, steps: seq<Step>, id: nat)
    requires HasId(Exec(cfg, steps).memory.tracks, id)
    ensures FramesSince(cfg, steps, id) <= cfg.maxMissed
  {
    var init, step := steps[..|steps|-1], steps[|steps|-1];
    var m := Exec(cfg, init).memory;
    assert steps == init + [step];
    hide Exec, FramesSince, Possible, AfterFrame, Sightings, FrameEvents;
    StepSnoc(cfg, init, step);
    if step.Frame? && Possible(cfg, m, step) {
      IdsLiveOnce(cfg, init);
      LiveTracksAreAsSighted(cfg, init);
      StillWithin(cfg, init, step, id);
    } else {
      LiveWithinLimit(cfg, init, id);
    }
  }

  lemma StillWithin(cfg: Config, steps: seq<Step>, step: Step, id: nat)
    requires AsSighted(cfg, steps) && step.Frame? && Possible(cfg, Exec(cfg, steps).memory, step)
    requires var m := Exec(cfg, steps).memory; Increasing(m.tracks) && IdsWithin(m.tracks, 0, m.nextId)
    requires HasId(AfterFrame(Exec(cfg, steps).memory, step.ds, step.picks, step.at, cfg.maxMissed).tracks, id)
    ensures FramesSince(cfg, steps + [step], id) <= cfg.maxMissed
  {
    hide Exec, FramesSince, AllTold, AfterFrame, FrameEvents, Sightings, Increasing, IdsWithin, Applied, Aged, Sifted,
         NewTracks, TracksOf, DetectionsOf;
    var y := Exec(cfg, steps);
    var m, since := y.memory, (n: nat) => FramesSince(cfg, steps, n);
    StepSnoc(cfg, steps, step);
    AfterFrameIs(m, step.ds, step.picks, step.at, cfg.maxMissed);
    var aged := Aged(Applied(m.tracks, step.ds, step.picks, step.at), TracksOf(step.picks));
    var kept := Sifted(aged, TracksOf(step.picks), cfg.maxMissed, false);
    var made := NewTracks(step.ds, DetectionsOf(step.picks), m.nextId, step.at);
    var all := kept + made;
    var i :| 0 <= i < |all| && all[i].id == id;
    if i < |kept| {
      SiftedIsTold(m, y.log, step.ds, step.picks, step.at, cfg.maxMissed, since, false, i);
    } else {
      MadeIsToldToo(m, y.log, step.ds, step.picks, step.at, cfg.maxMissed, since, i - |kept|);
    }
  }

  /** On every run an id exits exactly in the frame that is its (maxMissed + 1)-th in a row without a
      sighting, if it is still live then. */
  lemma ExitsWhenUnsighted(cfg: Config, steps: seq<Step>, frame: Step, id: nat)
    requires frame.Frame? && Possible(cfg, Exec(cfg, steps).memory, frame)
    ensures var m := Exec(cfg, steps).memory;
            HasExit(FrameEvents(m, frame.ds, frame.picks, frame.at, cfg.maxMissed), id) <==>
            (HasId(m.tracks, id) && FramesSince(cfg, steps + [frame], id) == cfg.maxMissed + 1)
  {
    hide Exec, FramesSince, AllTold, FrameEvents, Sightings, Increasing, IdsWithin, HasExit, HasId;
    var y := Exec(cfg, steps);
    IdsLiveOnce(cfg, steps);
    LiveTracksAreAsSighted(cfg, steps);
    StepSnoc(cfg, steps, frame);
    FrameExits(y.memory, y.log, frame.ds, frame.picks, frame.at, cfg.maxMissed,
               (n: nat) => FramesSince(cfg, steps, n), id);
    if HasId(y.memory.tracks, id) { LiveWithinLimit(cfg, steps, id); }
  }
}
