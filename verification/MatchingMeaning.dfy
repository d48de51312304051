/** What the matching's numbers mean: areas and overlaps counted in pixel cells, pairs told by label and
    threshold, and which frames are accepted. */
module MatchingMeaning {
  import opened Options
  import opened Matching
  import opened Tracker

  // ---- overlap, cell by cell ----

  /** The pixel cells of a box. */
  ghost function Cells(b: Box): (cells: set<(int, int)>)
    ensures forall x, y :: (x, y) in cells <==> Covers(b, x, y)
  {
    set x: int, y: int | b.x1 <= x < b.x2 && b.y1 <= y < b.y2 :: (x, y)
  }

  ghost function Column(x: int, y1: int, y2: int): set<(int, int)> {
    set y: int | y1 <= y < y2 :: (x, y)
  }

  lemma {:induction false} ColumnCount(x: int, y1: int, y2: int)
    requires y1 <= y2
    ensures |Column(x, y1, y2)| == y2 - y1
    decreases y2 - y1
  {
    if y1 == y2 {
      assert Column(x, y1, y2) == {};
    } else {
      ColumnCount(x, y1, y2 - 1);
      assert Column(x, y1, y2) == Column(x, y1, y2 - 1) + {(x, y2 - 1)};
    }
  }

  lemma {:induction false} CellCount(b: Box)
    requires b.x1 <= b.x2 && b.y1 <= b.y2
    ensures |Cells(b)| == (b.x2 - b.x1) * (b.y2 - b.y1)
    decreases b.x2 - b.x1
  {
    if b.x1 == b.x2 {
      assert Cells(b) == {};
    } else {
      var rest := b.(x2 := b.x2 - 1);
      CellCount(rest);
      ColumnCount(b.x2 - 1, b.y1, b.y2);
      assert Cells(b) == Cells(rest) + Column(b.x2 - 1, b.y1, b.y2);
      OneMoreColumn(b.x2 - b.x1, b.y2 - b.y1);
    }
  }

  lemma OneMoreColumn(w: int, h: int)
    ensures (w - 1) * h + h == w * h
  {
  }

  /** The area is the number of cells. */
  lemma AreaIsCells(b: Box)
    ensures Area(b) == |Cells(b)|
  {
    if b.x1 <= b.x2 && b.y1 <= b.y2 {
      CellCount(b);
    } else {
      assert Cells(b) == {};
    }
  }

  lemma IntersectionIsShared(a: Box, b: Box)
    ensures Cells(Intersection(a, b)) == Cells(a) * Cells(b)
  {
  }

  /** The overlap is the share of cells in both boxes among the cells in either. */
  lemma OverlapIsShare(a: Box, b: Box)
    ensures Overlap(a, b) ==
              if Cells(a) + Cells(b) == {} then 0.0
              else |Cells(a) * Cells(b)| as real / |Cells(a) + Cells(b)| as real
  {
    hide Area, Intersection, Cells;
    AreaIsCells(a);
    AreaIsCells(b);
    AreaIsCells(Intersection(a, b));
    IntersectionIsShared(a, b);
  }

  // ---- pairs ----

  /** The pair is of one label, overlapping at least the threshold. */
  predicate Fits(t: Thing, d: Thing, threshold: real) {
    t.labelId == d.labelId && Overlap(t.box, d.box) >= threshold
  }

  /** A stable matching, spelt out: every pick fits and no track or detection is picked twice; of every
      pair that fits, the track or the detection is picked, for a partner that overlaps at least as much. */
  lemma MatchingMeans(tracks: seq<Thing>, detections: seq<Thing>, threshold: real, picks: seq<Candidate>,
                      t: nat, d: nat)
    requires StableMatching(tracks, detections, threshold, picks)
    ensures forall i | 0 <= i < |picks| ::
              && picks[i].track < |tracks| && picks[i].detection < |detections|
              && Fits(tracks[picks[i].track], detections[picks[i].detection], threshold)
    ensures forall i, j | 0 <= i < j < |picks| ::
              picks[i].track != picks[j].track && picks[i].detection != picks[j].detection
    ensures t < |tracks| && d < |detections| && Fits(tracks[t], detections[d], threshold) ==>
              exists i | 0 <= i < |picks| ::
                && (picks[i].track == t || picks[i].detection == d)
                && picks[i].track < |tracks| && picks[i].detection < |detections|
                && Overlap(tracks[picks[i].track].box, detections[picks[i].detection].box)
                     >= Overlap(tracks[t].box, detections[d].box)
  {
    hide Overlap;
    if t < |tracks| && d < |detections| && Fits(tracks[t], detections[d], threshold) {
      assert Eligible(tracks, detections, threshold, t, d);
      var c := Candidate(Overlap(tracks[t].box, detections[d].box), t, d);
      var i: nat :| i < |picks| && (picks[i].track == c.track || picks[i].detection == c.detection)
                 && picks[i].overlap >= c.overlap;
      assert IsCandidate(tracks, detections, threshold, picks[i]);
    }
  }

  // ---- accepted frames ----

  /** A detection with a box of positive width and height. */
  predicate IsProper(item: RawDetection) {
    item.Raw? && item.detection.box.x1 < item.detection.box.x2 && item.detection.box.y1 < item.detection.box.y2
  }

  /** A frame is accepted if and only if every item is a proper detection, and then as it stands. */
  lemma {:induction false} AcceptedWhenProper(raw: seq<RawDetection>)
    ensures Normalise(raw).Some? <==> forall i | 0 <= i < |raw| :: IsProper(raw[i])
    ensures Normalise(raw).Some? ==> |Normalise(raw).value| == |raw|
    ensures Normalise(raw).Some? ==> forall i | 0 <= i < |raw| :: raw[i] == Raw(Normalise(raw).value[i])
  {
    if raw != [] { AcceptedWhenProper(raw[1..]); }
  }
}
