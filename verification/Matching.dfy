/** Greedy best-overlap assignment of detections to tracks (src/services/memory_service.py). */
module Matching {

  datatype Box = Box(x1: int, y1: int, x2: int, y2: int)

  function Max(a: int, b: int): int { if a > b then a else b }
  function Min(a: int, b: int): int { if a < b then a else b }

  function Area(b: Box): int {
    Max(0, b.x2 - b.x1) * Max(0, b.y2 - b.y1)
  }

  function Intersection(a: Box, b: Box): Box {
    Box(Max(a.x1, b.x1), Max(a.y1, b.y1), Min(a.x2, b.x2), Min(a.y2, b.y2))
  }

  /** _intersection_over_union. */
  function Overlap(a: Box, b: Box): real {
    var shared := Area(Intersection(a, b));
    var union := Area(a) + Area(b) - shared;
    if union <= 0 then 0.0 else shared as real / union as real
  }

  /** A pixel cell of the box. */
  predicate Covers(b: Box, x: int, y: int) {
    b.x1 <= x < b.x2 && b.y1 <= y < b.y2
  }

  lemma IntersectionIsCommon(a: Box, b: Box, x: int, y: int)
    ensures Covers(Intersection(a, b), x, y) <==> Covers(a, x, y) && Covers(b, x, y)
  {
  }

  lemma MulMonotone(a: int, b: int, c: int, d: int)
    requires 0 <= a <= c && 0 <= b <= d
    ensures 0 <= a * b <= c * d
  {
    assert a * b <= c * b;
  }

  lemma SharedAreaFits(a: Box, b: Box)
    ensures 0 <= Area(Intersection(a, b)) <= Area(a)
    ensures Intersection(b, a) == Intersection(a, b)
  {
    var common := Intersection(a, b);
    MulMonotone(Max(0, common.x2 - common.x1), Max(0, common.y2 - common.y1),
                Max(0, a.x2 - a.x1), Max(0, a.y2 - a.y1));
  }

  /** Intersection over union is a symmetric fraction. */
  lemma OverlapIsFraction(a: Box, b: Box)
    ensures 0.0 <= Overlap(a, b) <= 1.0
    ensures Overlap(a, b) == Overlap(b, a)
  {
    hide Area, Intersection;
    SharedAreaFits(a, b);
    SharedAreaFits(b, a);
    var shared := Area(Intersection(a, b));
    var union := Area(a) + Area(b) - shared;
    if union > 0 { FractionBounds(shared as real, union as real); }
  }

  /** A box fully overlaps itself. */
  lemma OverlapOfSelf(a: Box)
    requires a.x1 < a.x2 && a.y1 < a.y2
    ensures Overlap(a, a) == 1.0
  {
    MulMonotone(1, 1, a.x2 - a.x1, a.y2 - a.y1);
    assert Intersection(a, a) == a;
    SameOverSame(Area(a) as real);
  }

  lemma SameOverSame(n: real)
    requires n > 0.0
    ensures n / n == 1.0
  {
  }

  lemma FractionBounds(n: real, d: real)
    requires 0.0 <= n <= d && d > 0.0
    ensures 0.0 <= n / d <= 1.0
  {
  }

  /** What matching looks at: a label and a box, of a track or of a detection. */
  datatype Thing = Thing(labelId: nat, box: Box)

  /** Track and detection are named by position. */
  datatype Candidate = Candidate(overlap: real, track: nat, detection: nat)

  predicate Eligible(tracks: seq<Thing>, detections: seq<Thing>, threshold: real, t: nat, d: nat) {
    && t < |tracks| && d < |detections|
    && tracks[t].labelId == detections[d].labelId
    && Overlap(tracks[t].box, detections[d].box) >= threshold
  }

  predicate IsCandidate(tracks: seq<Thing>, detections: seq<Thing>, threshold: real, c: Candidate) {
    && Eligible(tracks, detections, threshold, c.track, c.detection)
    && c.overlap == Overlap(tracks[c.track].box, detections[c.detection].box)
  }

  ghost predicate Descending(s: seq<Candidate>) {
    forall i, j | 0 <= i < j < |s| :: s[i].overlap >= s[j].overlap
  }

  /** Insertion before the first element that is not larger, so equal overlaps keep their order. */
  function Insert(c: Candidate, s: seq<Candidate>): (r: seq<Candidate>)
    ensures forall x :: x in r <==> x == c || x in s
  {
    if s == [] || c.overlap >= s[0].overlap then [c] + s
    else
      assert s == [s[0]] + s[1..];
      [s[0]] + Insert(c, s[1..])
  }

  /** sort(reverse=True, key=overlap): a stable descending sort. */
  function SortDescending(s: seq<Candidate>): (r: seq<Candidate>)
    ensures forall x :: x in r <==> x in s
  {
    if s == [] then []
    else
      assert s == [s[0]] + s[1..];
      Insert(s[0], SortDescending(s[1..]))
  }

  lemma {:induction false} InsertDescends(c: Candidate, s: seq<Candidate>)
    requires Descending(s)
    ensures Descending(Insert(c, s))
  {
    if s != [] && c.overlap < s[0].overlap {
      InsertDescends(c, s[1..]);
      var tail := Insert(c, s[1..]);
      forall i | 0 <= i < |tail| ensures s[0].overlap >= tail[i].overlap {
        assert tail[i] in tail;
      }
    }
  }

  lemma {:induction false} SortDescends(s: seq<Candidate>)
    ensures Descending(SortDescending(s))
  {
    if s != [] {
      SortDescends(s[1..]);
      InsertDescends(s[0], SortDescending(s[1..]));
    }
  }

  predicate Clashes(picks: seq<Candidate>, c: Candidate) {
    exists i | 0 <= i < |picks| :: picks[i].track == c.track || picks[i].detection == c.detection
  }

  /** The pairs the greedy pass over `s` has picked. */
  function Greedy(s: seq<Candidate>): seq<Candidate> {
    if s == [] then []
    else
      var n := |s| - 1;
      var picks := Greedy(s[..n]);
      if Clashes(picks, s[n]) then picks else picks + [s[n]]
  }

  ghost predicate OneToOne(picks: seq<Candidate>) {
    forall i, j | 0 <= i < j < |picks| ::
      picks[i].track != picks[j].track && picks[i].detection != picks[j].detection
  }

  /** Some picked pair shares a side with `c` and overlaps at least as much. */
  ghost predicate Blocked(picks: seq<Candidate>, c: Candidate) {
    exists i | 0 <= i < |picks| ::
      (picks[i].track == c.track || picks[i].detection == c.detection) && picks[i].overlap >= c.overlap
  }

  lemma GreedySnoc(s: seq<Candidate>, c: Candidate)
    ensures Greedy(s + [c]) == Greedy(s) + if Clashes(Greedy(s), c) then [] else [c]
  {
    hide Clashes;
    assert (s + [c])[..|s|] == s;
  }

  /** The picks are pairwise disjoint members of the list. */
  lemma {:induction false} GreedyIsOneToOne(s: seq<Candidate>)
    ensures OneToOne(Greedy(s)) && forall c | c in Greedy(s) :: c in s
  {
    if s != [] {
      var n := |s| - 1;
      GreedyIsOneToOne(s[..n]);
      assert s == s[..n] + [s[n]];
      GreedySnoc(s[..n], s[n]);
    }
  }

  /** Every member of the list is picked or blocked. */
  ghost predicate Settled(picks: seq<Candidate>, s: seq<Candidate>) {
    forall c | c in s :: c in picks || Blocked(picks, c)
  }

  lemma {:induction false} GreedyIsStable(s: seq<Candidate>)
    requires Descending(s)
    ensures Settled(Greedy(s), s)
  {
    if s != [] {
      var init, last := s[..|s|-1], s[|s|-1];
      var picks := Greedy(init);
      GreedyIsStable(init);
      GreedyIsOneToOne(init);
      assert s == init + [last];
      hide Greedy, Clashes, Blocked, OneToOne;
      GreedySnoc(init, last);
      assert forall c | c in init :: c.overlap >= last.overlap;
      hide Descending;
      if Clashes(picks, last) { EarlierBlocks(picks, last); } else { PickSettles(picks, init, last); }
    }
  }

  lemma PickSettles(picks: seq<Candidate>, init: seq<Candidate>, last: Candidate)
    requires Settled(picks, init)
    ensures Settled(picks + [last], init + [last])
  {
    hide Blocked;
    forall c | c in init && c !in picks ensures Blocked(picks + [last], c) { BlockedStays(picks, last, c); }
  }

  lemma BlockedStays(picks: seq<Candidate>, more: Candidate, c: Candidate)
    requires Blocked(picks, c)
    ensures Blocked(picks + [more], c)
  {
    var i :| 0 <= i < |picks| &&
      (picks[i].track == c.track || picks[i].detection == c.detection) && picks[i].overlap >= c.overlap;
    assert (picks + [more])[i] == picks[i];
  }

  lemma EarlierBlocks(picks: seq<Candidate>, c: Candidate)
    requires Clashes(picks, c) && forall p | p in picks :: p.overlap >= c.overlap
    ensures Blocked(picks, c)
  {
  }

  function TracksOf(picks: seq<Candidate>): set<nat> {
    set i | 0 <= i < |picks| :: picks[i].track
  }

  function DetectionsOf(picks: seq<Candidate>): set<nat> {
    set i | 0 <= i < |picks| :: picks[i].detection
  }

  lemma SetsGrow(picks: seq<Candidate>, c: Candidate)
    ensures TracksOf(picks + [c]) == TracksOf(picks) + {c.track}
    ensures DetectionsOf(picks + [c]) == DetectionsOf(picks) + {c.detection}
  {
    var all := picks + [c];
    assert all[|picks|] == c;
    forall t | t in TracksOf(picks) + {c.track} ensures t in TracksOf(all) {
      if t != c.track {
        var i :| 0 <= i < |picks| && picks[i].track == t;
        assert all[i].track == t;
      }
    }
    forall d | d in DetectionsOf(picks) + {c.detection} ensures d in DetectionsOf(all) {
      if d != c.detection {
        var i :| 0 <= i < |picks| && picks[i].detection == d;
        assert all[i].detection == d;
      }
    }
  }

  // ---- the methods ----

  /** The nested loops over tracks and detections. */
  method CollectCandidates(tracks: seq<Thing>, detections: seq<Thing>, threshold: real)
    returns (candidates: seq<Candidate>)
    ensures forall c :: c in candidates <==> IsCandidate(tracks, detections, threshold, c)
  {
    candidates := [];
    for t := 0 to |tracks|
      invariant forall c :: c in candidates <==> c.track < t && IsCandidate(tracks, detections, threshold, c)
    {
      for d := 0 to |detections|
        invariant forall c :: c in candidates <==>
          (c.track < t || (c.track == t && c.detection < d)) && IsCandidate(tracks, detections, threshold, c)
      {
        if tracks[t].labelId != detections[d].labelId { continue; }
        var overlap := Overlap(tracks[t].box, detections[d].box);
        if overlap >= threshold { candidates := candidates + [Candidate(overlap, t, d)]; }
      }
    }
  }

  /** A one-to-one matching of eligible pairs that no eligible pair can improve on: every pair left
      out loses its track or its detection to a pair overlapping at least as much. */
  ghost predicate StableMatching(tracks: seq<Thing>, detections: seq<Thing>, threshold: real,
                                 picks: seq<Candidate>) {
    && OneToOne(picks)
    && (forall i | 0 <= i < |picks| :: IsCandidate(tracks, detections, threshold, picks[i]))
    && (forall t: nat, d: nat | Eligible(tracks, detections, threshold, t, d) ::
         var c := Candidate(Overlap(tracks[t].box, detections[d].box), t, d);
         c in picks || Blocked(picks, c))
  }

  /** The greedy loop, with its matched-track and matched-detection sets. */
  method Match(tracks: seq<Thing>, detections: seq<Thing>, threshold: real)
    returns (picks: seq<Candidate>, matchedTracks: set<nat>, matchedDetections: set<nat>)
    ensures StableMatching(tracks, detections, threshold, picks)
    ensures matchedTracks == TracksOf(picks)
    ensures matchedDetections == DetectionsOf(picks)
  {
    hide StableMatching, TracksOf, DetectionsOf, Clashes, IsCandidate;
    var candidates := CollectCandidates(tracks, detections, threshold);
    var sorted := SortDescending(candidates);
    picks, matchedTracks, matchedDetections := [], {}, {};
    NothingMatched();
    for k := 0 to |sorted|
      invariant picks == Greedy(sorted[..k])
      invariant matchedTracks == TracksOf(picks)
      invariant matchedDetections == DetectionsOf(picks)
    {
      var c := sorted[k];
      assert sorted[..k+1][..k] == sorted[..k];
      SetsGrow(picks, c);
      ClashesWithSets(picks, c);
      if c.track in matchedTracks { continue; }
      if c.detection in matchedDetections { continue; }
      picks := picks + [c];
      matchedTracks, matchedDetections := matchedTracks + {c.track}, matchedDetections + {c.detection};
    }
    assert sorted[..|sorted|] == sorted;
    GreedyMatches(tracks, detections, threshold, candidates);
  }

  lemma NothingMatched()
    ensures TracksOf([]) == {} && DetectionsOf([]) == {}
  {
  }

  lemma ClashesWithSets(picks: seq<Candidate>, c: Candidate)
    ensures Clashes(picks, c) <==> c.track in TracksOf(picks) || c.detection in DetectionsOf(picks)
  {
  }

  lemma GreedyMatches(tracks: seq<Thing>, detections: seq<Thing>, threshold: real, candidates: seq<Candidate>)
    requires forall c :: c in candidates <==> IsCandidate(tracks, detections, threshold, c)
    ensures StableMatching(tracks, detections, threshold, Greedy(SortDescending(candidates)))
  {
    hide Blocked, Overlap, Greedy, OneToOne, SortDescending;
    var sorted := SortDescending(candidates);
    SortDescends(candidates);
    GreedyIsOneToOne(sorted);
    GreedyIsStable(sorted);
    forall t: nat, d: nat | Eligible(tracks, detections, threshold, t, d)
      ensures var c := Candidate(Overlap(tracks[t].box, detections[d].box), t, d);
              c in Greedy(sorted) || Blocked(Greedy(sorted), c)
    {
      assert Candidate(Overlap(tracks[t].box, detections[d].box), t, d) in candidates;
    }
  }
}
