/** Long-term identity history, folded from object lifecycle events
    (src/services/identity_history_service.py). */
module IdentityHistory {
  import opened Tracker

  /** "label-track_id". */
  datatype Identity = Identity(labelId: nat, trackId: nat)

  datatype History = History(
    firstSeen: int, lastSeen: int, appearances: nat, totalFrames: nat,
    highest: real, last: real, active: bool)

  /** `_histories` and `_session_frames`. */
  datatype Ledger = Ledger(histories: map<Identity, History>, session: map<Identity, nat>)

  function KeyOf(t: Track): Identity { Identity(t.labelId, t.id) }

  function MaxReal(a: real, b: real): real { if a >= b then a else b }

  function AfterEntered(l: Ledger, t: Track): Ledger {
    var key := KeyOf(t);
    var h := if key !in l.histories
             then History(t.firstSeen, t.lastSeen, 1, t.framesSeen, t.confidence, t.confidence, true)
             else var known := l.histories[key];
                  known.(lastSeen := t.lastSeen, appearances := known.appearances + 1,
                        totalFrames := known.totalFrames + t.framesSeen,
                        highest := MaxReal(known.highest, t.confidence), last := t.confidence, active := true);
    Ledger(l.histories[key := h], l.session[key := t.framesSeen])
  }

  /** _update_existing, or the bootstrap of an identity first seen mid-life. */
  function AfterSeen(l: Ledger, t: Track): Ledger {
    var key := KeyOf(t);
    var h := if key !in l.histories
             then History(t.firstSeen, t.lastSeen, 1, t.framesSeen, t.confidence, t.confidence, true)
             else var known := l.histories[key];
                  var previous := if key in l.session then l.session[key] else 0;
                  var delta := if t.framesSeen > previous then t.framesSeen - previous else 0;
                  known.(totalFrames := known.totalFrames + delta, lastSeen := t.lastSeen,
                        highest := MaxReal(known.highest, t.confidence), last := t.confidence);
    Ledger(l.histories[key := h], l.session[key := t.framesSeen])
  }

  /** handle_object_event. */
  function Recorded(l: Ledger, e: ObjectEvent): Ledger {
    var key := KeyOf(e.track);
    match e.kind
    case Entered => AfterEntered(l, e.track)
    case Updated =>
      var seen := AfterSeen(l, e.track);
      seen.(histories := seen.histories[key := seen.histories[key].(active := true)])
    case Exited =>
      var seen := AfterSeen(l, e.track);
      Ledger(seen.histories[key := seen.histories[key].(active := false)], seen.session - {key})
  }

  class IdentityHistoryService {
    var histories: map<Identity, History>
    var session: map<Identity, nat>

    constructor ()
      ensures State() == Ledger(map[], map[])
    {
      histories, session := map[], map[];
    }

    ghost function State(): Ledger
      reads this
    {
      Ledger(histories, session)
    }

    method HandleObjectEvent(e: ObjectEvent)
      modifies this
      ensures State() == Recorded(old(State()), e)
    {
      var t := e.track;
      var key := Identity(t.labelId, t.id);
      if e.kind == Entered {
        if key !in histories {
          histories := histories[key :=
            History(t.firstSeen, t.lastSeen, 1, t.framesSeen, t.confidence, t.confidence, true)];
        } else {
          var h := histories[key];
          histories := histories[key := h.(
            lastSeen := t.lastSeen, appearances := h.appearances + 1,
            totalFrames := h.totalFrames + t.framesSeen,
            highest := MaxReal(h.highest, t.confidence), last := t.confidence, active := true)];
        }
        session := session[key := t.framesSeen];
        return;
      }
      var h;
      if key !in histories {
        h := History(t.firstSeen, t.lastSeen, 1, t.framesSeen, t.confidence, t.confidence, true);
      } else {
        h := histories[key];
        var previous := if key in session then session[key] else 0;
        var delta := if t.framesSeen > previous then t.framesSeen - previous else 0;
        h := h.(totalFrames := h.totalFrames + delta, lastSeen := t.lastSeen,
                highest := MaxReal(h.highest, t.confidence), last := t.confidence);
      }
      session := session[key := t.framesSeen];
      histories := histories[key := h.(active := e.kind == Updated)];
      if e.kind == Exited { session := session - {key}; }
    }
  }

  // ---- totals ----

  ghost function TotalFrames(h: map<Identity, History>): nat
    decreases |h|
  {
    if h == map[] then 0
    else
      var k :| k in h;
      h[k].totalFrames + TotalFrames(h - {k})
  }

  lemma {:induction false} TotalWithout(h: map<Identity, History>, k: Identity)
    requires k in h
    ensures TotalFrames(h) == h[k].totalFrames + TotalFrames(h - {k})
    decreases |h|
  {
    var j :| j in h && TotalFrames(h) == h[j].totalFrames + TotalFrames(h - {j});
    if j != k {
      TotalWithout(h - {j}, k);
      TotalWithout(h - {k}, j);
      assert h - {j} - {k} == h - {k} - {j};
    }
  }

  lemma TotalAfterPut(h: map<Identity, History>, k: Identity, v: History)
    ensures TotalFrames(h[k := v])
         == TotalFrames(h) - (if k in h then h[k].totalFrames else 0) + v.totalFrames
  {
    TotalWithout(h[k := v], k);
    assert h[k := v] - {k} == h - {k};
    if k in h { TotalWithout(h, k); } else { assert h - {k} == h; }
  }

  // ---- folding a log ----

  ghost function Fold(l: Ledger, log: seq<ObjectEvent>): Ledger {
    if log == [] then l else Recorded(Fold(l, log[..|log|-1]), log[|log|-1])
  }

  lemma {:induction false} FoldAppend(l: Ledger, a: seq<ObjectEvent>, b: seq<ObjectEvent>)
    ensures Fold(l, a + b) == Fold(Fold(l, a), b)
  {
    hide Recorded;
    if b == [] {
      assert a + b == a;
    } else {
      FoldAppend(l, a, b[..|b|-1]);
      assert (a + b)[..|a + b|-1] == a + b[..|b|-1];
    }
  }
}
