/** What an identity's history says, told from the events published for it. */
module HistoryRuns {
  import opened Tracker
  import opened IdentityHistory

  /** The events of one identity, in order. */
  ghost function EventsFor(log: seq<ObjectEvent>, key: Identity): seq<ObjectEvent> {
    if log == [] then []
    else
      var e := log[|log|-1];
      EventsFor(log[..|log|-1], key) + if KeyOf(e.track) == key then [e] else []
  }

  /** Its first event counts as an appearance, and every later ENTERED. */
  function Appearances(es: seq<ObjectEvent>): nat {
    if es == [] then 0
    else Appearances(es[..|es|-1]) + if |es| == 1 || es[|es|-1].kind == Entered then 1 else 0
  }

  /** What the track's counter has reached since its entry. */
  function Reached(es: seq<ObjectEvent>): nat {
    if es == [] || es[|es|-1].kind == Exited then 0 else es[|es|-1].track.framesSeen
  }

  /** An ENTERED brings all its frames, any other event those beyond what the counter had reached. */
  function Frames(es: seq<ObjectEvent>): nat {
    if es == [] then 0
    else
      var init, e := es[..|es|-1], es[|es|-1];
      var known := if e.kind == Entered then 0 else Reached(init);
      Frames(init) + if e.track.framesSeen > known then e.track.framesSeen - known else 0
  }

  ghost predicate IsHighest(h: real, es: seq<ObjectEvent>) {
    (forall e | e in es :: e.track.confidence <= h) && exists e | e in es :: e.track.confidence == h
  }

  /** The history of an identity with these events. */
  ghost predicate Tells(h: History, es: seq<ObjectEvent>)
    requires es != []
  {
    var first, last := es[0], es[|es|-1];
    && h.firstSeen == first.track.firstSeen
    && h.lastSeen == last.track.lastSeen && h.last == last.track.confidence
    && h.active == (last.kind != Exited)
    && h.appearances == Appearances(es) && h.totalFrames == Frames(es) && IsHighest(h.highest, es)
  }

  ghost predicate TellsOf(l: Ledger, key: Identity, es: seq<ObjectEvent>) {
    && (key in l.histories <==> es != [])
    && (es != [] ==> Tells(l.histories[key], es))
    && (key in l.session <==> es != [] && es[|es|-1].kind != Exited)
    && (key in l.session ==> l.session[key] == Reached(es))
  }

  lemma HighestSnoc(h: real, es: seq<ObjectEvent>, e: ObjectEvent)
    requires es != [] ==> IsHighest(h, es)
    ensures IsHighest(if es == [] then e.track.confidence else MaxReal(h, e.track.confidence), es + [e])
  {
    assert e in es + [e];
    if es != [] {
      var top :| top in es && top.track.confidence == h;
      assert top in es + [e];
    }
  }

  lemma CountsSnoc(es: seq<ObjectEvent>, e: ObjectEvent)
    ensures Appearances(es + [e]) == Appearances(es) + if es == [] || e.kind == Entered then 1 else 0
    ensures Reached(es + [e]) == if e.kind == Exited then 0 else e.track.framesSeen
    ensures var known := if e.kind == Entered then 0 else Reached(es);
            Frames(es + [e]) == Frames(es) + if e.track.framesSeen > known then e.track.framesSeen - known else 0
  {
    assert (es + [e])[..|es|] == es;
  }

  lemma StepTells(l: Ledger, es: seq<ObjectEvent>, e: ObjectEvent)
    requires TellsOf(l, KeyOf(e.track), es)
    ensures TellsOf(Recorded(l, e), KeyOf(e.track), es + [e])
  {
    CountsSnoc(es, e);
    if es != [] {
      HighestSnoc(l.histories[KeyOf(e.track)].highest, es, e);
    } else {
      HighestSnoc(0.0, es, e);
    }
    hide Appearances, Frames, Reached, IsHighest, MaxReal;
  }

  lemma OthersTell(l: Ledger, key: Identity, es: seq<ObjectEvent>, e: ObjectEvent)
    requires TellsOf(l, key, es) && KeyOf(e.track) != key
    ensures TellsOf(Recorded(l, e), key, es)
  {
    hide Tells, Reached;
  }

  /** Whatever is published, the history of every identity is what its own events say: first and last
      sighting, latest and highest confidence, appearances, frames, and whether it is still there. */
  lemma {:induction false} HistoriesTell(log: seq<ObjectEvent>, key: Identity)
    ensures TellsOf(Fold(Ledger(map[], map[]), log), key, EventsFor(log, key))
  {
    if log != [] {
      hide TellsOf, Recorded;
      var n := |log| - 1;
      HistoriesTell(log[..n], key);
      var l, es := Fold(Ledger(map[], map[]), log[..n]), EventsFor(log[..n], key);
      if KeyOf(log[n].track) == key {
        StepTells(l, es, log[n]);
      } else {
        OthersTell(l, key, es, log[n]);
        assert es + [] == es;
      }
    }
  }
}
