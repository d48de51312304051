/** Start-up catch-up of the alert consumer (src/services/alerts/consumer.py): pages of source
    events from a durable checkpoint, which is saved after every evaluated event. A run may be
    killed between any two of its steps. */
module CatchUp {
  import opened Options
  import opened Ordering
  import opened EventListing
  import opened Composer
  import opened CursorCodec
  import AlertEvaluation
  import Sql

  /** SOURCE_EVENT_TYPES_FOR_EVAL. */
  predicate IsSource(e: Event) {
    AlertEvaluation.IsSourceType(e.detail.eventType)
  }

  /** ALERT_EVENT_TYPES. */
  predicate IsAlert(e: Event) {
    e.detail.eventType in { "alert_triggered", "alert_resolved" }
  }

  lemma SourceIsNotAlert(e: Event)
    requires IsSource(e)
    ensures !IsAlert(e)
  {
  }

  function SourceQuery(cursor: Option<Key>): Query {
    Query(IsSource, cursor, Asc, 1)
  }

  /** A checkpoint row without an event id does not position the replay. */
  function Resume(checkpoint: Option<Key>): Option<Key> {
    if checkpoint.Some? && checkpoint.value.id != "" then checkpoint else None
  }

  /** The source events strictly after the checkpoint. */
  ghost function Available(events: set<Event>, checkpoint: Option<Key>): seq<Event> {
    Rest(events, SourceQuery(Resume(checkpoint)))
  }

  /** Those are the timeline's events but alerts, from the checkpoint on, oldest first. */
  lemma AvailableMeans(events: set<Event>, checkpoint: Option<Key>, e: Event)
    requires KeysIdentify(events) && forall x | x in events :: IsTimelineType(x.detail.eventType)
    ensures StrictlyOrdered(Available(events, checkpoint), Asc)
    ensures e in Available(events, checkpoint) <==>
      && e in events && e.detail.eventType != "alert_triggered" && e.detail.eventType != "alert_resolved"
      && (checkpoint.Some? && checkpoint.value.id != "" ==> KeyLess(checkpoint.value, KeyOf(e)))
  {
    RestLists(events, SourceQuery(Resume(checkpoint)));
  }

  function Min(a: int, b: int): int { if a < b then a else b }

  /** Of `todo` events, how many a process saves that is killed after `steps` steps. */
  function Saved(todo: nat, steps: nat): (n: nat)
    ensures n <= todo
  {
    Min(todo, steps / 2)
  }

  /** The kill fell between evaluating an event and saving it. */
  predicate Torn(todo: nat, steps: nat) {
    steps % 2 == 1 && steps / 2 < todo
  }

  function Evaluated(todo: seq<Event>, steps: nat): seq<Event> {
    todo[..Saved(|todo|, steps) + if Torn(|todo|, steps) then 1 else 0]
  }

  function CheckpointAfter(checkpoint: Option<Key>, available: seq<Event>, n: nat): Option<Key>
    requires n <= |available|
  {
    if n == 0 then checkpoint else Some(KeyOf(available[n-1]))
  }

  /** TimelineService.list_timeline for this consumer; None stands for a validation error. */
  method ListTimeline(text: Text, providers: seq<Provider>, ghost owns: seq<set<Event>>,
                      maximum: int, limit: int, cursor: Option<Key>)
    returns (page: Option<Page>)
    requires Faithful(text) && Backed(providers, owns) && limit >= 1
    requires cursor.Some? ==> CleanText(cursor.value.id)
    ensures page.None? <==> limit > maximum
    ensures page.Some? ==> page.value == PageOf(text, Everything(owns), SourceQuery(cursor).(limit := limit))
  {
    hide Compose, PageOf, EncodeCursor, DecodeCursor, Honours;
    if limit > maximum { return None; }
    var q := SourceQuery(None).(limit := limit);
    if cursor.Some? {
      CursorRoundTrip(text, Datetime(cursor.value.at, Some(0)), cursor.value.id);
      var token := EncodeCursor(text, Datetime(cursor.value.at, Some(0)), cursor.value.id);
      var decoded := DecodeCursor(text, token);
      q := q.(cursor := Some(decoded.value));
    }
    ComposedPageIsExact(text, providers, owns, q);
    var outcome := ListEvents(text, providers, q);
    return Some(outcome.value);
  }

  predicate CleanText(id: string) {
    id != "" && !IsSpace(id[0]) && !IsSpace(id[|id|-1])
  }

  class AlertConsumer {
    var checkpoint: Option<Key>
    var evaluated: seq<Event>
    var processed: nat

    constructor ()
      ensures checkpoint == None && evaluated == [] && processed == 0
    {
      checkpoint, evaluated, processed := None, [], 0;
    }

    /** Evaluate, then save: `steps` steps are left before the process is killed. */
    method ProcessAndCheckpoint(event: Event, steps: nat) returns (left: nat)
      modifies this
      ensures IsAlert(event) ==> unchanged(this) && left == steps
      ensures !IsAlert(event) ==>
        && left == (if steps < 2 then 0 else steps - 2)
        && evaluated == (if steps == 0 then old(evaluated) else old(evaluated) + [event])
        && checkpoint == (if steps < 2 then old(checkpoint) else Some(KeyOf(event)))
        && processed == (if steps < 2 then old(processed) else old(processed) + 1)
    {
      if IsAlert(event) { return steps; }
      if steps == 0 { return 0; }
      evaluated := evaluated + [event];
      if steps == 1 { return 0; }
      checkpoint := Some(Key(event.occurredAt, event.id));
      processed := processed + 1;
      return steps - 2;
    }

    /** The events of one page, in order, until the page ends or the process is killed. */
    method ProcessPage(items: seq<Event>, steps: nat) returns (left: nat)
      requires forall e | e in items :: IsSource(e)
      modifies this
      ensures left == if steps >= 2 * |items| then steps - 2 * |items| else 0
      ensures Progress(evaluated, checkpoint, processed)
           == Handled(old(Progress(evaluated, checkpoint, processed)), items, steps)
    {
      left := steps;
      ghost var before := Progress(evaluated, checkpoint, processed);
      hide IsAlert, IsSource, Handled;
      HandledNothing(before, items, steps);
      for i := 0 to |items|
        invariant left == if steps >= 2 * i then steps - 2 * i else 0
        invariant Progress(evaluated, checkpoint, processed) == Handled(before, items[..i], steps)
      {
        HandledThen(before, items[..i], [items[i]], steps);
        assert items[..i] + [items[i]] == items[..i+1] && items[i] in items;
        SourceIsNotAlert(items[i]);
        HandledOne(Progress(evaluated, checkpoint, processed), items[i], left);
        left := ProcessAndCheckpoint(items[i], left);
      }
      assert items[..|items|] == items;
    }

    /** _catch_up: at most max(1, startupLimit) events, in pages of at most 100. */
    method Run(text: Text, providers: seq<Provider>, ghost owns: seq<set<Event>>,
               maximum: int, startupLimit: int, steps: nat)
      returns (ok: bool)
      requires Faithful(text) && Backed(providers, owns)
      requires Resume(checkpoint).Some? ==> CleanText(checkpoint.value.id)
      modifies this
      ensures var limit := if startupLimit < 1 then 1 else startupLimit;
              && (ok <==> Min(100, limit) <= maximum)
              && (!ok ==> unchanged(this))
              && (ok ==> Progress(evaluated, checkpoint, processed) ==
                           Handled(old(Progress(evaluated, checkpoint, processed)),
                                   Take(Available(Everything(owns), old(checkpoint)), limit), steps))
    {
      hide PageOf, Everything, Backed, Faithful, Rest, DecodeCursor, Handled, At, IsSource, CleanText;
      var limit := if startupLimit < 1 then 1 else startupLimit;
      ghost var events := Everything(owns);
      ghost var available := Available(events, checkpoint);
      ghost var before, done := Progress(evaluated, checkpoint, processed), 0;
      var cursor := Resume(checkpoint);
      var remaining := limit;
      var left := steps;
      HandledNothing(before, available, steps);
      StartsAt(events, cursor);
      while remaining > 0
        invariant 0 <= done <= |available| && 0 <= remaining == limit - done
        invariant done > 0 ==> Min(100, limit) <= maximum
        invariant done == 0 ==> unchanged(this)
        invariant cursor.Some? ==> CleanText(cursor.value.id)
        invariant At(events, available, cursor, done)
        invariant left == if steps >= 2 * done then steps - 2 * done else 0
        invariant Progress(evaluated, checkpoint, processed) == Handled(before, available[..done], steps)
        decreases remaining
      {
        var size := if remaining < 100 then remaining else 100;
        var page := ListTimeline(text, providers, owns, maximum, size, cursor);
        if page.None? { return false; }
        var items := page.value.items;
        PageMoves(text, providers, owns, available, cursor, done, size);
        if items == [] { break; }
        HandledThen(before, available[..done], items, steps);
        left := ProcessPage(items, left);
        done := done + |items|;
        cursor := Some(Key(items[|items|-1].occurredAt, items[|items|-1].id));
        remaining := remaining - |items|;
        if page.value.nextCursor.None? { break; }
        cursor := Some(DecodeCursor(text, page.value.nextCursor.value).value);
      }
      assert available[..done] == Take(available, limit);
      return true;
    }
  }

  /** The consumer's state, as a value. */
  datatype Progress = Progress(evaluated: seq<Event>, checkpoint: Option<Key>, processed: nat)

  /** What is left of a run killed after `steps` steps that had `todo` to handle. */
  function Handled(p: Progress, todo: seq<Event>, steps: nat): Progress {
    var n := Saved(|todo|, steps);
    Progress(p.evaluated + Evaluated(todo, steps), CheckpointAfter(p.checkpoint, todo, n), p.processed + n)
  }

  lemma HandledNothing(p: Progress, todo: seq<Event>, steps: nat)
    ensures Handled(p, todo[..0], steps) == p
  {
  }

  lemma HandledOne(p: Progress, e: Event, steps: nat)
    ensures Handled(p, [e], steps) ==
      Progress(if steps == 0 then p.evaluated else p.evaluated + [e],
               if steps < 2 then p.checkpoint else Some(KeyOf(e)),
               if steps < 2 then p.processed else p.processed + 1)
  {
  }

  lemma HandledThen(p: Progress, a: seq<Event>, b: seq<Event>, steps: nat)
    requires b != []
    ensures Handled(Handled(p, a, steps), b, if steps >= 2 * |a| then steps - 2 * |a| else 0)
         == Handled(p, a + b, steps)
  {
  }

  /** `cursor` stands just after the first `done` available events. */
  ghost predicate At(events: set<Event>, available: seq<Event>, cursor: Option<Key>, done: nat) {
    && done <= |available|
    && Rest(events, SourceQuery(cursor)) == available[done..]
  }

  lemma StartsAt(events: set<Event>, cursor: Option<Key>)
    ensures At(events, Rest(events, SourceQuery(cursor)), cursor, 0)
  {
  }

  /** One page takes the cursor on by the page's length, and stops only at the end. */
  lemma PageMoves(text: Text, providers: seq<Provider>, owns: seq<set<Event>>,
                  available: seq<Event>, cursor: Option<Key>, done: nat, size: int)
    requires Faithful(text) && Backed(providers, owns) && size >= 1
    requires At(Everything(owns), available, cursor, done)
    ensures var page := PageOf(text, Everything(owns), SourceQuery(cursor).(limit := size));
            var reached := done + |page.items|;
            && |page.items| <= size && reached <= |available|
            && available[..done] + page.items == available[..reached]
            && (forall e | e in page.items :: IsSource(e))
            && (page.items == [] || page.nextCursor.None? ==> reached == |available|)
            && (page.nextCursor.Some? ==>
                 var next := DecodeCursor(text, page.nextCursor.value);
                 && next.Ok? && CleanText(next.value.id)
                 && At(Everything(owns), available, Some(next.value), reached))
  {
    hide PageOf, DecodeCursor, Faithful, Backed, Everything, IsSource, Rest;
    SourcePage(text, providers, owns, Everything(owns), cursor, size);
  }

  /** What one page of source events tells the loop. */
  lemma SourcePage(text: Text, providers: seq<Provider>, owns: seq<set<Event>>,
                   events: set<Event>, cursor: Option<Key>, size: int)
    requires Faithful(text) && Backed(providers, owns) && events == Everything(owns) && size >= 1
    ensures var rest := Rest(events, SourceQuery(cursor));
            var page := PageOf(text, events, SourceQuery(cursor).(limit := size));
            && page.items == Take(rest, size)
            && (forall e | e in page.items :: IsSource(e) && CleanText(e.id))
            && (page.nextCursor.None? <==> |rest| <= size)
            && (page.nextCursor.Some? ==>
                 && DecodeCursor(text, page.nextCursor.value)
                      == CursorCodec.Ok(KeyOf(page.items[|page.items|-1]))
                 && Rest(events, SourceQuery(Some(KeyOf(page.items[|page.items|-1])))) == rest[size..])
  {
    hide Listing, DecodeCursor, EncodeCursor, PageOf, IsSource, Everything, Faithful;
    var q := SourceQuery(cursor).(limit := size);
    SameRest(events, cursor, size);
    NextPageStart(text, events, q);
    var page := PageOf(text, events, q);
    RestIsSource(events, q);
    forall e | e in page.items ensures IsSource(e) && CleanText(e.id) {
      assert e in Rest(events, q);
    }
    if page.nextCursor.Some? {
      SameRest(events, Some(KeyOf(page.items[|page.items|-1])), size);
    }
  }

  lemma SameRest(events: set<Event>, cursor: Option<Key>, size: int)
    ensures Rest(events, SourceQuery(cursor).(limit := size)) == Rest(events, SourceQuery(cursor))
  {
  }

  lemma RestIsSource(events: set<Event>, q: Query)
    requires KeysIdentify(events) && q.wanted == IsSource
    ensures forall e | e in Rest(events, q) :: e in events && IsSource(e)
  {
    RestLists(events, q);
  }

  // ---- any number of runs, each cut anywhere ----

  /** Runs with their event limit and the step at which each was killed. */
  datatype Attempt = Attempt(limit: nat, steps: nat)

  ghost function Replay(events: set<Event>, attempts: seq<Attempt>): Progress {
    if attempts == [] then Progress([], None, 0)
    else
      var before := Replay(events, attempts[..|attempts|-1]);
      var last := attempts[|attempts|-1];
      Handled(before, Take(Available(events, before.checkpoint), last.limit), last.steps)
  }

  /** How many attempts were killed between evaluating an event and saving it. */
  ghost function TornCount(events: set<Event>, attempts: seq<Attempt>): nat {
    if attempts == [] then 0
    else
      var before := Replay(events, attempts[..|attempts|-1]);
      var last := attempts[|attempts|-1];
      TornCount(events, attempts[..|attempts|-1])
      + if Torn(|Take(Available(events, before.checkpoint), last.limit)|, last.steps) then 1 else 0
  }

  /** Adjacent repeats collapsed. */
  ghost function Collapse(log: seq<Event>): seq<Event> {
    if |log| <= 1 then log
    else
      var n := |log| - 1;
      Collapse(log[..n]) + if log[n] == log[n-1] then [] else [log[n]]
  }

  /** `p` has evaluated a prefix of the timeline, in order, and saved all of it except possibly
      the last event; repeats are adjacent. */
  ghost predicate Contiguous(p: Progress, timeline: seq<Event>) {
    var seen := |Collapse(p.evaluated)|;
    && p.processed <= seen <= p.processed + 1 && seen <= |timeline|
    && p.checkpoint == CheckpointAfter(None, timeline, p.processed)
    && Collapse(p.evaluated) == timeline[..seen]
  }

  lemma {:induction false} CollapseEnds(log: seq<Event>)
    ensures log == [] <==> Collapse(log) == []
    ensures log != [] ==> Collapse(log)[|Collapse(log)|-1] == log[|log|-1]
  {
    if |log| > 1 { CollapseEnds(log[..|log|-1]); }
  }

  lemma CollapseAppend(log: seq<Event>, e: Event)
    ensures var c := Collapse(log);
            Collapse(log + [e]) == if c != [] && c[|c|-1] == e then c else c + [e]
  {
    CollapseEnds(log);
    assert (log + [e])[..|log|] == log;
  }

  /** Handling one more event, saved or not, keeps the evaluated log contiguous. */
  lemma ContiguousStep(p: Progress, timeline: seq<Event>, steps: nat)
    requires Contiguous(p, timeline) && Sql.Distinct(timeline) && p.processed < |timeline|
    ensures Contiguous(Handled(p, [timeline[p.processed]], steps), timeline)
  {
    var e := timeline[p.processed];
    HandledOne(p, e, steps);
    CollapseOne(p, timeline);
    hide Handled, Collapse, Sql.Distinct;
  }

  /** Evaluating the first unsaved event leaves exactly the events up to it evaluated. */
  lemma CollapseOne(p: Progress, timeline: seq<Event>)
    requires Contiguous(p, timeline) && Sql.Distinct(timeline) && p.processed < |timeline|
    ensures Collapse(p.evaluated + [timeline[p.processed]]) == timeline[..p.processed+1]
  {
    hide Collapse, CheckpointAfter;
    var e, seen := timeline[p.processed], Collapse(p.evaluated);
    CollapseAppend(p.evaluated, e);
    if |seen| == p.processed {
      assert seen == [] || seen[|seen|-1] == timeline[p.processed-1];
      assert seen + [e] == timeline[..p.processed+1];
    } else {
      assert seen[|seen|-1] == e;
    }
  }

  lemma {:induction false} ContiguousSegment(p: Progress, timeline: seq<Event>, k: nat, steps: nat)
    requires Contiguous(p, timeline) && Sql.Distinct(timeline) && p.processed + k <= |timeline|
    ensures Contiguous(Handled(p, timeline[p.processed..p.processed+k], steps), timeline)
    decreases k
  {
    hide Handled, Contiguous, Sql.Distinct;
    var todo := timeline[p.processed..p.processed+k];
    if k == 0 {
      assert todo[..0] == todo;
      HandledNothing(p, todo, steps);
    } else {
      ContiguousStep(p, timeline, steps);
      if steps < 2 {
        StopsAtFirst(p, todo, steps);
      } else {
        var e, rest := timeline[p.processed], timeline[p.processed+1..p.processed+k];
        assert todo == [e] + rest;
        HandledOne(p, e, steps);
        ContiguousSegment(Handled(p, [e], steps), timeline, k - 1, steps - 2);
        if rest != [] { HandledThen(p, [e], rest, steps); }
        else {
          HandledNothing(Handled(p, [e], steps), rest, steps - 2);
          assert rest[..0] == rest && todo == [e];
        }
      }
    }
  }

  lemma StopsAtFirst(p: Progress, todo: seq<Event>, steps: nat)
    requires todo != [] && steps < 2
    ensures Handled(p, todo, steps) == Handled(p, [todo[0]], steps)
  {
  }

  lemma AvailableFrom(events: set<Event>, n: nat)
    requires KeysIdentify(events) && forall e | e in events :: CleanId(e)
    requires n <= |Available(events, None)|
    ensures Available(events, CheckpointAfter(None, Available(events, None), n))
         == Available(events, None)[n..]
  {
    hide Listing;
    var timeline := Available(events, None);
    RestLists(events, SourceQuery(None));
    if n > 0 {
      assert timeline[n-1] in events by { assert timeline[n-1] in Remaining(events, SourceQuery(None)); }
      CursorDrops(events, SourceQuery(None), n);
    }
  }

  lemma TimelineDistinct(events: set<Event>)
    requires KeysIdentify(events)
    ensures Sql.Distinct(Available(events, None))
  {
    var timeline := Available(events, None);
    RestLists(events, SourceQuery(None));
    forall i, j | 0 <= i < j < |timeline| ensures timeline[i] != timeline[j] {
      PrecedesTotal(KeyOf(timeline[i]), KeyOf(timeline[j]), Asc);
    }
  }

  lemma AttemptStep(events: set<Event>, p: Progress, limit: nat, steps: nat)
    requires KeysIdentify(events) && forall e | e in events :: CleanId(e)
    requires Contiguous(p, Available(events, None))
    ensures var todo := Take(Available(events, p.checkpoint), limit);
            && Contiguous(Handled(p, todo, steps), Available(events, None))
            && |todo| == Min(limit, |Available(events, None)| - p.processed)
            && todo == Available(events, None)[p.processed..p.processed+|todo|]
  {
    hide Handled, Available, Collapse;
    var timeline := Available(events, None);
    AvailableFrom(events, p.processed);
    TimelineDistinct(events);
    var todo := Take(timeline[p.processed..], limit);
    assert todo == timeline[p.processed..p.processed+|todo|];
    ContiguousSegment(p, timeline, |todo|, steps);
  }

  /** However the runs are cut, the events evaluated are a gap-free prefix of the timeline in
      order, with no repeats but those of events cut between evaluation and save, of which there
      are exactly as many as such cuts; the checkpoint is on the last saved event. */
  lemma {:induction false} CatchUpLosesNothing(events: set<Event>, attempts: seq<Attempt>)
    requires KeysIdentify(events) && forall e | e in events :: CleanId(e)
    ensures Contiguous(Replay(events, attempts), Available(events, None))
    ensures var p := Replay(events, attempts);
            |p.evaluated| == p.processed + TornCount(events, attempts)
  {
    hide Available;
    if attempts != [] {
      var n := |attempts| - 1;
      hide Contiguous;
      CatchUpLosesNothing(events, attempts[..n]);
      var p := Replay(events, attempts[..n]);
      AttemptStep(events, p, attempts[n].limit, attempts[n].steps);
    }
  }

  /** A run that is not cut handles exactly the first `limit` events it has not saved, so
      enough such runs reach the end of the timeline. */
  lemma UncutRunAdvances(events: set<Event>, p: Progress, limit: nat, steps: nat)
    requires KeysIdentify(events) && forall e | e in events :: CleanId(e)
    requires Contiguous(p, Available(events, None))
    requires steps >= 2 * limit
    ensures var timeline := Available(events, None);
            var q := Handled(p, Take(Available(events, p.checkpoint), limit), steps);
            && q.processed == Min(|timeline|, p.processed + limit)
            && q.evaluated == p.evaluated + timeline[p.processed..q.processed]
            && q.checkpoint == CheckpointAfter(None, timeline, q.processed)
  {
    hide Available, Collapse;
    AttemptStep(events, p, limit, steps);
  }
}
