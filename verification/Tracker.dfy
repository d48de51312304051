/** Short-term object memory (src/services/memory_service.py). Labels are numbers; timestamps are
    integers; the `_tracks` dictionary is the sequence of its values in insertion order. */
module Tracker {
  import opened Options
  import opened Matching

  datatype Detection = Detection(labelId: nat, confidence: real, box: Box)

  datatype Track = Track(
    id: nat, labelId: nat, confidence: real, box: Box, firstSeen: int, lastSeen: int,
    framesSeen: nat, missed: nat)

  datatype EventKind = Entered | Updated | Exited

  datatype ObjectEvent = ObjectEvent(kind: EventKind, track: Track)

  datatype Memory = Memory(tracks: seq<Track>, nextId: nat)

  // ---- normalisation ----

  /** A raw list item: `NotADetection` raises TypeError, KeyError or ValueError while parsing. */
  datatype RawDetection = NotADetection | Raw(detection: Detection)

  /** _normalise_detection over the list; None when any item raises. */
  function Normalise(raw: seq<RawDetection>): Option<seq<Detection>> {
    if raw == [] then Some([])
    else
      var item := raw[0];
      if item.NotADetection? then None
      else if item.detection.box.x2 <= item.detection.box.x1
           || item.detection.box.y2 <= item.detection.box.y1 then None
      else match Normalise(raw[1..])
           case None => None
           case Some(rest) => Some([item.detection] + rest)
  }

  // ---- one frame, on values ----

  function TrackThing(t: Track): Thing { Thing(t.labelId, t.box) }

  function DetectionThing(d: Detection): Thing { Thing(d.labelId, d.box) }

  function TrackThings(tracks: seq<Track>): seq<Thing> {
    seq(|tracks|, i requires 0 <= i < |tracks| => TrackThing(tracks[i]))
  }

  function DetectionThings(ds: seq<Detection>): seq<Thing> {
    seq(|ds|, i requires 0 <= i < |ds| => DetectionThing(ds[i]))
  }

  predicate InRange(tracks: seq<Track>, ds: seq<Detection>, picks: seq<Candidate>) {
    forall i | 0 <= i < |picks| :: picks[i].track < |tracks| && picks[i].detection < |ds|
  }

  function Refreshed(t: Track, d: Detection, at: int): Track {
    t.(confidence := d.confidence, box := d.box, lastSeen := at, framesSeen := t.framesSeen + 1, missed := 0)
  }

  /** Tracks after the picked pairs have been applied. */
  function Applied(tracks: seq<Track>, ds: seq<Detection>, picks: seq<Candidate>, at: int): (r: seq<Track>)
    requires InRange(tracks, ds, picks)
    ensures |r| == |tracks|
  {
    if picks == [] then tracks
    else
      var n := |picks| - 1;
      var before := Applied(tracks, ds, picks[..n], at);
      before[picks[n].track := Refreshed(before[picks[n].track], ds[picks[n].detection], at)]
  }

  function UpdateEvents(tracks: seq<Track>, ds: seq<Detection>, picks: seq<Candidate>, at: int): seq<ObjectEvent>
    requires InRange(tracks, ds, picks)
  {
    if picks == [] then []
    else
      var n := |picks| - 1;
      UpdateEvents(tracks, ds, picks[..n], at)
      + [ObjectEvent(Updated, Applied(tracks, ds, picks, at)[picks[n].track])]
  }

  /** Unmatched tracks are missed once more. */
  function Aged(tracks: seq<Track>, matched: set<nat>): (r: seq<Track>)
    ensures |r| == |tracks|
  {
    if tracks == [] then []
    else
      var n := |tracks| - 1;
      Aged(tracks[..n], matched) + [if n in matched then tracks[n] else tracks[n].(missed := tracks[n].missed + 1)]
  }

  /** Of aged tracks, those kept or dropped; only an unmatched track can be over the limit. */
  function Sifted(aged: seq<Track>, matched: set<nat>, maxMissed: nat, expired: bool): seq<Track> {
    if aged == [] then []
    else
      var n := |aged| - 1;
      Sifted(aged[..n], matched, maxMissed, expired)
      + if (n !in matched && aged[n].missed > maxMissed) == expired then [aged[n]] else []
  }

  /** One new track for each unmatched detection, with consecutive ids. */
  function NewTracks(ds: seq<Detection>, matched: set<nat>, nextId: nat, at: int): seq<Track> {
    if ds == [] then []
    else
      var n := |ds| - 1;
      var before := NewTracks(ds[..n], matched, nextId, at);
      if n in matched then before
      else before + [Track(nextId + |before|, ds[n].labelId, ds[n].confidence, ds[n].box, at, at, 1, 0)]
  }

  function EventsOf(kind: EventKind, tracks: seq<Track>): (r: seq<ObjectEvent>)
    ensures |r| == |tracks|
  {
    seq(|tracks|, i requires 0 <= i < |tracks| => ObjectEvent(kind, tracks[i]))
  }

  function AfterFrame(m: Memory, ds: seq<Detection>, picks: seq<Candidate>, at: int, maxMissed: nat): Memory
    requires InRange(m.tracks, ds, picks)
  {
    var aged := Aged(Applied(m.tracks, ds, picks, at), TracksOf(picks));
    var newcomers := NewTracks(ds, DetectionsOf(picks), m.nextId, at);
    Memory(Sifted(aged, TracksOf(picks), maxMissed, false) + newcomers, m.nextId + |newcomers|)
  }

  function FrameEvents(m: Memory, ds: seq<Detection>, picks: seq<Candidate>, at: int, maxMissed: nat)
    : seq<ObjectEvent>
    requires InRange(m.tracks, ds, picks)
  {
    var aged := Aged(Applied(m.tracks, ds, picks, at), TracksOf(picks));
    UpdateEvents(m.tracks, ds, picks, at)
    + EventsOf(Exited, Sifted(aged, TracksOf(picks), maxMissed, true))
    + EventsOf(Entered, NewTracks(ds, DetectionsOf(picks), m.nextId, at))
  }

  // ---- the service ----

  class MemoryService {
    const threshold: real
    const maxMissed: nat
    var tracks: seq<Track>
    var nextTrackId: nat
    var published: seq<ObjectEvent>

    constructor (threshold: real, maxMissed: nat)
      requires 0.0 <= threshold <= 1.0
      ensures this.threshold == threshold && this.maxMissed == maxMissed
      ensures State() == Memory([], 1) && published == []
    {
      this.threshold, this.maxMissed := threshold, maxMissed;
      tracks, nextTrackId, published := [], 1, [];
    }

    ghost function State(): Memory
      reads this
    {
      Memory(tracks, nextTrackId)
    }

    method ApplyMatches(ds: seq<Detection>, picks: seq<Candidate>, at: int)
      requires InRange(tracks, ds, picks)
      modifies this`tracks, this`published
      ensures tracks == Applied(old(tracks), ds, picks, at)
      ensures published == old(published) + UpdateEvents(old(tracks), ds, picks, at)
    {
      assert published + [] == published;
      for k := 0 to |picks|
        invariant tracks == Applied(old(tracks), ds, picks[..k], at)
        invariant published == old(published) + UpdateEvents(old(tracks), ds, picks[..k], at)
      {
        assert picks[..k+1][..k] == picks[..k];
        var t := picks[k].track;
        tracks := tracks[t := Refreshed(tracks[t], ds[picks[k].detection], at)];
        published := published + [ObjectEvent(Updated, tracks[t])];
      }
      assert picks[..|picks|] == picks;
    }

    /** Missed frames, then expiry. */
    method AgeTracks(matched: set<nat>)
      modifies this`tracks, this`published
      ensures tracks == Sifted(Aged(old(tracks), matched), matched, maxMissed, false)
      ensures published == old(published)
        + EventsOf(Exited, Sifted(Aged(old(tracks), matched), matched, maxMissed, true))
    {
      ghost var before := tracks;
      for i := 0 to |tracks|
        invariant |tracks| == |before| && published == old(published)
        invariant tracks[..i] == Aged(before[..i], matched) && tracks[i..] == before[i..]
      {
        assert before[..i+1][..i] == before[..i] && tracks[i] == before[i];
        if i !in matched { tracks := tracks[i := tracks[i].(missed := tracks[i].missed + 1)]; }
      }
      assert tracks == tracks[..|tracks|] && before == before[..|before|];
      var aged := tracks;
      var kept: seq<Track> := [];
      var expired: seq<Track> := [];
      for i := 0 to |aged|
        invariant kept == Sifted(aged[..i], matched, maxMissed, false)
        invariant expired == Sifted(aged[..i], matched, maxMissed, true)
      {
        assert aged[..i+1][..i] == aged[..i];
        if i !in matched && aged[i].missed > maxMissed { expired := expired + [aged[i]]; }
        else { kept := kept + [aged[i]]; }
      }
      assert aged == aged[..|aged|];
      tracks := kept;
      published := published + EventsOf(Exited, expired);
    }

    method EnterUnmatched(ds: seq<Detection>, matched: set<nat>, at: int)
      modifies this
      ensures tracks == old(tracks) + NewTracks(ds, matched, old(nextTrackId), at)
      ensures nextTrackId == old(nextTrackId) + |NewTracks(ds, matched, old(nextTrackId), at)|
      ensures published == old(published) + EventsOf(Entered, NewTracks(ds, matched, old(nextTrackId), at))
    {
      ghost var first, known, said := nextTrackId, tracks, published;
      ghost var made: seq<Track> := [];
      assert known + made == known && said + EventsOf(Entered, made) == said;
      for d := 0 to |ds|
        invariant made == NewTracks(ds[..d], matched, first, at)
        invariant tracks == known + made && nextTrackId == first + |made|
        invariant published == said + EventsOf(Entered, made)
      {
        assert ds[..d+1][..d] == ds[..d];
        if d in matched { continue; }
        var track := Track(nextTrackId, ds[d].labelId, ds[d].confidence, ds[d].box, at, at, 1, 0);
        assert EventsOf(Entered, made + [track]) == EventsOf(Entered, made) + [ObjectEvent(Entered, track)];
        made := made + [track];
        tracks, nextTrackId := tracks + [track], nextTrackId + 1;
        published := published + [ObjectEvent(Entered, track)];
      }
      assert ds[..|ds|] == ds;
    }

    /** handle_frame. `None` is an event without detections; a raising item leaves all unchanged. */
    method HandleFrame(raw: Option<seq<RawDetection>>, at: int) returns (ok: bool, ghost picks: seq<Candidate>)
      modifies this
      ensures ok <==> raw.None? || Normalise(raw.value).Some?
      ensures !ok || raw.None? ==> State() == old(State()) && published == old(published)
      ensures ok && raw.Some? ==>
        var ds := Normalise(raw.value).value;
        && StableMatching(TrackThings(old(tracks)), DetectionThings(ds), threshold, picks)
        && InRange(old(tracks), ds, picks)
        && State() == AfterFrame(old(State()), ds, picks, at, maxMissed)
        && published == old(published) + FrameEvents(old(State()), ds, picks, at, maxMissed)
    {
      picks := [];
      if raw.None? { return true, []; }
      var normalised := Normalise(raw.value);
      if normalised.None? { return false, []; }
      var ds := normalised.value;
      var found, matchedTracks, matchedDetections :=
        Match(TrackThings(tracks), DetectionThings(ds), threshold);
      picks := found;
      MatchingInRange(tracks, ds, threshold, picks);
      hide StableMatching, Normalise, Applied, Aged, Sifted, NewTracks, UpdateEvents, EventsOf,
           TracksOf, DetectionsOf, TrackThings, DetectionThings;
      Regroup(published, UpdateEvents(tracks, ds, picks, at),
              EventsOf(Exited, Sifted(Aged(Applied(tracks, ds, picks, at), TracksOf(picks)),
                                      TracksOf(picks), maxMissed, true)),
              EventsOf(Entered, NewTracks(ds, DetectionsOf(picks), nextTrackId, at)));
      ApplyMatches(ds, found, at);
      AgeTracks(matchedTracks);
      EnterUnmatched(ds, matchedDetections, at);
      return true, picks;
    }

    /** clear: every track goes, the id counter stays. */
    method Clear()
      modifies this`tracks
      ensures State() == old(State()).(tracks := [])
    {
      tracks := [];
    }
  }

  lemma Regroup<T>(a: seq<T>, b: seq<T>, c: seq<T>, d: seq<T>)
    ensures a + b + c + d == a + (b + c + d)
  {
  }

  lemma MatchingInRange(tracks: seq<Track>, ds: seq<Detection>, threshold: real, picks: seq<Candidate>)
    requires StableMatching(TrackThings(tracks), DetectionThings(ds), threshold, picks)
    ensures InRange(tracks, ds, picks)
  {
  }
}
