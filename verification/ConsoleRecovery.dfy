/** Runs of the console store, and reconnect recovery (console/js/recovery.js). Recovered pages
    and buffered live events may overlap and arrive in any order. */
module ConsoleRecovery {
  import opened Options
  import opened Ordering
  import opened NewestKeys
  import opened ConsoleStore
  import opened Composer
  import opened CursorCodec

  /** One call of upsertMany. */
  datatype Batch = Batch(raws: seq<Raw>, source: Source)

  /** The table after the calls made since `clear`. */
  ghost function Run(batches: seq<Batch>, cap: nat): Table {
    if batches == [] then map[]
    else
      var last := batches[|batches|-1];
      Capped(Upserted(Run(batches[..|batches|-1], cap), last.raws, last.source), cap)
  }

  /** Every id always carries the same time. */
  ghost predicate Agrees(raws: seq<Raw>, timeOf: string -> Option<int>) {
    forall i | 0 <= i < |raws| :: raws[i].id.Some? ==> Given(raws[i].at) == timeOf(raws[i].id.value)
  }

  ghost predicate AllAgree(batches: seq<Batch>, timeOf: string -> Option<int>) {
    forall i | 0 <= i < |batches| :: Agrees(batches[i].raws, timeOf)
  }

  ghost function Ids(raws: seq<Raw>): set<string> {
    set i | 0 <= i < |raws| && raws[i].id.Some? :: raws[i].id.value
  }

  /** The ids of everything ever upserted. */
  ghost function Ever(batches: seq<Batch>): set<string> {
    if batches == [] then {} else Ever(batches[..|batches|-1]) + Ids(batches[|batches|-1].raws)
  }

  ghost function KeysFor(ids: set<string>, timeOf: string -> Option<int>): set<Key> {
    set id | id in ids :: Key(Stamp(timeOf(id)), id)
  }

  ghost predicate Timed(held: Table, timeOf: string -> Option<int>) {
    forall id | id in held :: held[id].at == timeOf(id)
  }

  lemma {:induction false} UpsertedTimes(held: Table, raws: seq<Raw>, source: Source,
                                         timeOf: string -> Option<int>)
    requires Timed(held, timeOf) && Agrees(raws, timeOf)
    ensures Timed(Upserted(held, raws, source), timeOf)
    ensures Upserted(held, raws, source).Keys == held.Keys + Ids(raws)
  {
    if raws != [] {
      var n := |raws| - 1;
      assert Agrees(raws[..n], timeOf);
      UpsertedTimes(held, raws[..n], source, timeOf);
      IdsSnoc(raws);
    }
  }

  lemma IdsSnoc(raws: seq<Raw>)
    requires raws != []
    ensures Ids(raws) == Ids(raws[..|raws|-1]) + if raws[|raws|-1].id.Some? then {raws[|raws|-1].id.value} else {}
  {
  }

  lemma TimedKeys(held: Table, timeOf: string -> Option<int>)
    requires Timed(held, timeOf)
    ensures Keys(held) == KeysFor(held.Keys, timeOf)
  {
  }

  lemma KeysForUnion(a: set<string>, b: set<string>, timeOf: string -> Option<int>)
    ensures KeysFor(a + b, timeOf) == KeysFor(a, timeOf) + KeysFor(b, timeOf)
  {
  }

  /** After any calls the store holds exactly the `cap` newest of all ids ever upserted. */
  lemma {:induction false} HeldIsTopOfEver(batches: seq<Batch>, cap: nat, timeOf: string -> Option<int>)
    requires AllAgree(batches, timeOf)
    ensures Keys(Run(batches, cap)) == Top(KeysFor(Ever(batches), timeOf), cap)
    ensures Timed(Run(batches, cap), timeOf)
  {
    hide Top, Upserted, Capped, Agrees, Timed;
    if batches == [] {
      NothingHeld(cap, timeOf);
    } else {
      var n := |batches| - 1;
      var before, last := Run(batches[..n], cap), batches[n];
      assert Agrees(last.raws, timeOf);
      HeldIsTopOfEver(batches[..n], cap, timeOf);
      UpsertedTimes(before, last.raws, last.source, timeOf);
      var merged := Upserted(before, last.raws, last.source);
      TimedKeys(before, timeOf);
      TimedKeys(merged, timeOf);
      KeysForUnion(before.Keys, Ids(last.raws), timeOf);
      KeysForUnion(Ever(batches[..n]), Ids(last.raws), timeOf);
      KeysOfCapped(merged, cap);
      CappedTimes(merged, cap, timeOf);
      TopAbsorbs(KeysFor(Ever(batches[..n]), timeOf), KeysFor(Ids(last.raws), timeOf), cap);
    }
  }

  lemma NothingHeld(cap: nat, timeOf: string -> Option<int>)
    ensures Keys(map[]) == {} == Top(KeysFor({}, timeOf), cap) && Timed(map[], timeOf)
  {
  }

  lemma CappedTimes(held: Table, cap: nat, timeOf: string -> Option<int>)
    requires Timed(held, timeOf)
    ensures Timed(Capped(held, cap), timeOf)
  {
    hide Top;
  }

  /** The number held is the cap, or everything. */
  lemma HeldSize(batches: seq<Batch>, cap: nat, timeOf: string -> Option<int>)
    requires AllAgree(batches, timeOf)
    ensures |Run(batches, cap)| <= |Ever(batches)|
    ensures |Run(batches, cap)| < cap ==> Run(batches, cap).Keys == Ever(batches)
  {
    var ever := KeysFor(Ever(batches), timeOf);
    var held := Run(batches, cap);
    HeldIsTopOfEver(batches, cap, timeOf);
    KeysCount(held);
    KeysForCount(Ever(batches), timeOf);
    SubsetSize(Top(ever, cap), ever);
    hide Run, Ever;
    if |held| < cap {
      FewAreTop(ever, cap);
      hide Top;
      forall id ensures id in held <==> id in Ever(batches) {
        assert id in held ==> KeyIn(held, id) in ever;
        if id in Ever(batches) { assert Key(Stamp(timeOf(id)), id) in Keys(held); }
      }
    }
  }

  lemma {:induction false} KeysForCount(ids: set<string>, timeOf: string -> Option<int>)
    ensures |KeysFor(ids, timeOf)| == |ids|
  {
    if ids != {} {
      var id :| id in ids;
      KeysForCount(ids - {id}, timeOf);
      assert KeysFor(ids, timeOf) == KeysFor(ids - {id}, timeOf) + {Key(Stamp(timeOf(id)), id)};
    }
  }

  /** Two histories of the same ids show the same list, however they were batched, repeated or
      ordered: `order` and `order'` are the displayed ids. */
  lemma ArrivalOrderIsIrrelevant(a: seq<Batch>, b: seq<Batch>, cap: nat, timeOf: string -> Option<int>,
                                 order: seq<string>, order': seq<string>)
    requires AllAgree(a, timeOf) && AllAgree(b, timeOf) && Ever(a) == Ever(b)
    requires Orders(order, Run(a, cap)) && Orders(order', Run(b, cap))
    ensures order == order'
  {
    HeldIsTopOfEver(a, cap, timeOf);
    HeldIsTopOfEver(b, cap, timeOf);
    var l, l' := Listed(order, Run(a, cap)), Listed(order', Run(b, cap));
    NewestFirstUnique(l, l');
    assert |order| == |order'|;
    forall i | 0 <= i < |order| ensures order[i] == order'[i] { assert l[i] == l'[i]; }
  }

  // ---- the recovery controller ----

  /** noteProcessed: the newest (time, id) seen; events without an id or a time are ignored. */
  function Noted(last: Option<Key>, id: string, at: Option<int>): Option<Key> {
    if id == "" || at.None? then last
    else if last.None? then Some(Key(at.value, id))
    else if at.value > last.value.at || (at.value == last.value.at && !StrLess(id, last.value.id))
      then Some(Key(at.value, id))
    else last
  }

  ghost predicate AtLeast(last: Option<Key>, k: Key) {
    last.Some? && !KeyLess(last.value, k)
  }

  /** `last` is the newest of what was already noted and the notable held records. */
  ghost predicate NewestNoted(last: Option<Key>, before: Option<Key>, held: Table) {
    && (before.Some? ==> AtLeast(last, before.value))
    && (forall id | id in held && id != "" && held[id].at.Some? :: AtLeast(last, KeyIn(held, id)))
    && (last != before ==> last.Some? && last.value.id in held && last.value == KeyIn(held, last.value.id))
  }

  lemma NotedIsNewest(last: Option<Key>, id: string, at: Option<int>)
    ensures var r := Noted(last, id, at);
            && (last.Some? ==> AtLeast(r, last.value))
            && (id != "" && at.Some? ==> AtLeast(r, Key(at.value, id)))
            && (r == last || (at.Some? && r == Some(Key(at.value, id))))
  {
    if last.Some? {
      KeyOrder(last.value, last.value);
      if at.Some? {
        KeyOrder(last.value, Key(at.value, id));
        StrLessTotal(id, last.value.id);
      }
    }
    if at.Some? { KeyOrder(Key(at.value, id), Key(at.value, id)); }
  }

  lemma AtLeastTransitive(r: Option<Key>, last: Option<Key>, k: Key)
    requires last.Some? && AtLeast(r, last.value) && AtLeast(last, k)
    ensures AtLeast(r, k)
  {
    NotAfterTransitive(r.value, last.value, k, Desc);
  }

  function Truthy(raws: seq<Raw>): seq<Raw> {
    if raws == [] then []
    else
      var last := raws[|raws|-1];
      Truthy(raws[..|raws|-1]) + if last.id.Some? && last.id.value != "" then [last] else []
  }

  /** Leaving those events out leaves out what merging would hold under the empty id, and nothing else. */
  lemma {:induction false} TruthyMerges(held: Table, raws: seq<Raw>, source: Source, id: string)
    ensures var all, kept := Upserted(held, raws, source), Upserted(held, Truthy(raws), source);
            if id != "" then (id in kept <==> id in all) && (id in all ==> kept[id] == all[id])
            else (id in kept <==> id in held) && (id in held ==> kept[id] == held[id])
  {
    if raws != [] {
      hide UpsertedOne;
      var init, last := raws[..|raws|-1], raws[|raws|-1];
      var all, kept := Upserted(held, init, source), Upserted(held, Truthy(init), source);
      TruthyMerges(held, init, source, id);
      UpsertedAppend(held, init, last, source);
      UpsertedAppend(held, Truthy(init), last, source);
      assert raws == init + [last] && Truthy(init) + [] == Truthy(init);
      if last.id == Some(id) {
        if id != "" { SameMerge(all, kept, last, source, id); }
      } else {
        OtherMerge(all, last, source, id);
        OtherMerge(kept, last, source, id);
      }
    }
  }

  lemma UpsertedAppend(held: Table, raws: seq<Raw>, raw: Raw, source: Source)
    ensures Upserted(held, raws + [raw], source) == UpsertedOne(Upserted(held, raws, source), raw, source)
  {
    hide UpsertedOne;
    assert (raws + [raw])[..|raws|] == raws;
  }

  lemma OtherMerge(t: Table, raw: Raw, source: Source, id: string)
    requires raw.id != Some(id)
    ensures var t' := UpsertedOne(t, raw, source); (id in t' <==> id in t) && (id in t ==> t'[id] == t[id])
  {
  }

  /** What merging gives for an id depends on what is held under that id only. */
  lemma SameMerge(a: Table, b: Table, raw: Raw, source: Source, id: string)
    requires id in a <==> id in b
    requires id in a ==> a[id] == b[id]
    ensures var a', b' := UpsertedOne(a, raw, source), UpsertedOne(b, raw, source);
            (id in a' <==> id in b') && (id in a' ==> a'[id] == b'[id])
  {
  }

  class RecoveryController {
    const store: Store
    var lastProcessed: Option<Key>
    var liveBuffer: seq<Raw>
    var recovering: bool

    constructor (store: Store)
      ensures this.store == store && lastProcessed == None && liveBuffer == [] && !recovering
    {
      this.store := store;
      lastProcessed, liveBuffer, recovering := None, [], false;
    }

    method NoteProcessed(id: string, at: Option<int>)
      modifies this`lastProcessed
      ensures lastProcessed == Noted(old(lastProcessed), id, at)
    {
      if id == "" || at.None? { return; }
      if lastProcessed.None? {
        lastProcessed := Some(Key(at.value, id));
        return;
      }
      var last := lastProcessed.value;
      var cmp := at.value - last.at;
      if cmp > 0 || (cmp == 0 && !StrLess(id, last.id)) {
        lastProcessed := Some(Key(at.value, id));
      }
    }

    method OnLiveEventDuringRecovery(raw: Raw)
      modifies this`liveBuffer
      ensures liveBuffer == old(liveBuffer) + Truthy([raw])
    {
      if raw.id.Some? && raw.id.value != "" { liveBuffer := liveBuffer + [raw]; }
      assert [raw][..0] == [];
      assert old(liveBuffer) + ([] + []) == old(liveBuffer);
    }

    /** The live events delivered while the pages are awaited. */
    method BufferAll(arrived: seq<Raw>)
      requires liveBuffer == []
      modifies this`liveBuffer
      ensures liveBuffer == Truthy(arrived)
    {
      for i := 0 to |arrived|
        invariant liveBuffer == Truthy(arrived[..i])
      {
        assert arrived[..i+1][..i] == arrived[..i];
        assert [arrived[i]][..0] == [];
        OnLiveEventDuringRecovery(arrived[i]);
      }
      assert arrived[..|arrived|] == arrived;
    }

    /** The buffered live events go into the store. */
    method MergeBuffered()
      requires store.Valid()
      modifies this`liveBuffer, store`byId, store`orderedIds, store`selected
      ensures store.Valid() && liveBuffer == []
      ensures store.byId == Capped(Upserted(old(store.byId), old(liveBuffer), Live), store.hardCap)
    {
      hide Upserted, Capped, Orders, Surviving, Identified;
      var buffered := liveBuffer;
      liveBuffer := [];
      var _, _, _ := store.UpsertMany(buffered, Live);
    }

    /** The loop over getOrderedNewestFirst after a merge. */
    method NoteAll()
      requires store.Valid()
      modifies this`lastProcessed
      ensures NewestNoted(lastProcessed, old(lastProcessed), store.byId)
    {
      ghost var held := store.byId;
      var order := store.orderedIds;
      if lastProcessed.Some? { KeyOrder(lastProcessed.value, lastProcessed.value); }
      for i := 0 to |order|
        invariant old(lastProcessed).Some? ==> AtLeast(lastProcessed, old(lastProcessed).value)
        invariant forall j | 0 <= j < i && order[j] != "" && held[order[j]].at.Some? ::
          AtLeast(lastProcessed, KeyIn(held, order[j]))
        invariant lastProcessed != old(lastProcessed) ==>
          && lastProcessed.Some? && lastProcessed.value.id in held
          && lastProcessed.value == KeyIn(held, lastProcessed.value.id)
      {
        assert forall j | 0 <= j < i && order[j] != "" && held[order[j]].at.Some? :: lastProcessed.Some?;
        hide Noted, AtLeast, NewestFirst;
        ghost var before := lastProcessed;
        var at := store.byId[order[i]].at;
        NotedIsNewest(before, order[i], at);
        NoteProcessed(order[i], at);
        forall k | before.Some? && AtLeast(before, k) ensures AtLeast(lastProcessed, k) {
          AtLeastTransitive(lastProcessed, before, k);
        }
      }
      forall id | id in held ensures id in order { Covered(order, held, id); }
    }

    /** `fetched` is None when a page request failed; `arrived` are the live events delivered
        while the pages were awaited. */
    method RunRecovery(fetched: Option<seq<Raw>>, arrived: seq<Raw>)
      requires store.Valid()
      modifies this, store`byId, store`orderedIds, store`selected
      ensures store.Valid()
      ensures old(recovering) ==> unchanged(this) && unchanged(store)
      ensures !old(recovering) ==>
        && !recovering && liveBuffer == []
        && store.byId == Recover(old(store.byId), fetched, Truthy(arrived), store.hardCap)
        && (fetched.None? ==> lastProcessed == old(lastProcessed))
        && (fetched.Some? ==> NewestNoted(lastProcessed, old(lastProcessed), store.byId))
    {
      hide Top, Upserted, Capped, NewestNoted, Orders, Truthy, Store.Valid;
      if recovering { return; }
      recovering := true;
      liveBuffer := [];
      BufferAll(arrived);
      if fetched.Some? {
        var _, _, _ := store.UpsertMany(fetched.value, Recovered);
        MergeBuffered();
        NoteAll();
      } else {
        MergeBuffered();
      }
      recovering := false;
    }
  }

  lemma Covered(order: seq<string>, held: Table, id: string)
    requires Orders(order, held) && id in held
    ensures id in order
  {
    assert KeyIn(held, id) in Keys(held);
    assert KeyIn(held, id) in Members(Listed(order, held));
    var i :| 0 <= i < |order| && Listed(order, held)[i] == KeyIn(held, id);
    assert order[i] == id;
  }

  ghost function Recover(held: Table, fetched: Option<seq<Raw>>, arrived: seq<Raw>, cap: nat): Table {
    var merged := if fetched.Some? then Capped(Upserted(held, fetched.value, Recovered), cap) else held;
    Capped(Upserted(merged, arrived, Live), cap)
  }

  /** A recovery is two more calls of upsertMany; a failed one is a single call. */
  lemma RecoverIsRun(batches: seq<Batch>, fetched: Option<seq<Raw>>, arrived: seq<Raw>, cap: nat)
    ensures Recover(Run(batches, cap), fetched, arrived, cap) == Run(Recovering(batches, fetched, arrived), cap)
  {
  }

  ghost function Recovering(batches: seq<Batch>, fetched: Option<seq<Raw>>, arrived: seq<Raw>): seq<Batch> {
    (if fetched.Some? then batches + [Batch(fetched.value, Recovered)] else batches) + [Batch(arrived, Live)]
  }

  lemma RunSnoc(batches: seq<Batch>, last: Batch, cap: nat)
    ensures Run(batches + [last], cap) == Capped(Upserted(Run(batches, cap), last.raws, last.source), cap)
    ensures Ever(batches + [last]) == Ever(batches) + Ids(last.raws)
  {
  }

  // ---- the overlap window ----

  const PAGE_LIMIT: nat := 100
  const MAX_PAGES: nat := 20

  /** Filters, from `overlapMs` before the last processed event, oldest first. Timeline times
      are microseconds, the console's are milliseconds. */
  function OverlapQuery(filter: Event -> bool, last: Option<Key>, overlapMs: int): Query {
    Query((e: Event) => filter(e) && (last.Some? ==> e.occurredAt >= WindowStart(last.value, overlapMs)),
          None, Asc, PAGE_LIMIT)
  }

  function WindowStart(last: Key, overlapMs: int): int {
    1000 * if last.at - overlapMs < 0 then 0 else last.at - overlapMs
  }

  function RawOf(e: Event): Raw {
    Raw(Some(e.id), At(e.occurredAt / 1000),
        map["event_type" := e.detail.eventType, "source" := e.detail.source, "summary" := e.detail.summary])
  }

  function RawsOf(events: seq<Event>): seq<Raw> {
    seq(|events|, i requires 0 <= i < |events| => RawOf(events[i]))
  }

  /** The timeline API over a fixed set of events: pages by opaque cursor. */
  ghost predicate Serves(getTimeline: Option<string> -> Page, text: Text, events: set<Event>, q: Query) {
    && q.limit >= 1
    && getTimeline(None) == PageOf(text, events, q)
    && (forall token {:trigger getTimeline(Some(token))} | DecodeCursor(text, token).Ok? ::
          getTimeline(Some(token)) == PageOf(text, events, q.(cursor := Some(DecodeCursor(text, token).value))))
  }

  /** fetchOverlapWindow: at most 20 pages of 100, so the first 2000 events of the window. */
  method FetchOverlapWindow(text: Text, ghost events: set<Event>, ghost q: Query,
                            getTimeline: Option<string> -> Page)
    returns (collected: seq<Event>)
    requires Readable(Window(getTimeline, text, events, q))
    ensures collected == Take(Rest(events, q), PAGE_LIMIT * MAX_PAGES)
  {
    hide *;
    ghost var w := Window(getTimeline, text, events, q);
    collected := [];
    var cursor: Option<string> := None;
    var pages := 0;
    AtStart(w);
    while pages < MAX_PAGES
      invariant pages <= MAX_PAGES
      invariant Reached(w, cursor, collected, pages)
    {
      var page := getTimeline(cursor);
      NextReached(w, cursor, collected, pages);
      collected := Append(collected, page.items);
      pages := pages + 1;
      if page.nextCursor.None? || page.nextCursor.value == "" || |page.items| == 0 {
        LastReached(w, collected, pages);
        return;
      }
      cursor := page.nextCursor;
    }
    AllReached(w, cursor, collected);
  }

  /** The items of one page with an id. */
  method Append(collected: seq<Event>, items: seq<Event>) returns (r: seq<Event>)
    requires forall e | e in items :: e.id != ""
    ensures r == collected + items
  {
    r := collected;
    assert collected + items[..0] == collected;
    for i := 0 to |items|
      invariant r == collected + items[..i]
    {
      assert items[i] in items && items[..i+1] == items[..i] + [items[i]];
      if items[i].id != "" { r := r + [items[i]]; }
    }
    assert items[..|items|] == items;
  }

  /** A client reading one query from the timeline API. */
  datatype Window = Window(
    getTimeline: Option<string> -> Page, text: Text, events: set<Event>, q: Query)

  ghost predicate Readable(w: Window) {
    && Faithful(w.text) && KeysIdentify(w.events) && (forall e | e in w.events :: CleanId(e))
    && w.q.limit == PAGE_LIMIT && w.q.cursor == None && Serves(w.getTimeline, w.text, w.events, w.q)
  }

  /** The query that `cursor` continues. */
  ghost function Continued(w: Window, cursor: Option<string>): Option<Query> {
    if cursor.None? then Some(w.q)
    else match DecodeCursor(w.text, cursor.value)
         case Ok(key) => Some(w.q.(cursor := Some(key)))
         case Err(_) => None
  }

  /** After `pages` full pages: what was collected, and what the next page continues with. */
  ghost predicate Reached(w: Window, cursor: Option<string>, collected: seq<Event>, pages: nat) {
    var all := Rest(w.events, w.q);
    var n := PAGE_LIMIT * pages;
    && Readable(w)
    && n <= |all| && collected == all[..n]
    && Continued(w, cursor).Some?
    && Rest(w.events, Continued(w, cursor).value) == all[n..]
  }

  lemma AtStart(w: Window)
    ensures Readable(w) ==> Reached(w, None, [], 0)
  {
    var all := Rest(w.events, w.q);
    assert all[0..] == all;
  }

  lemma AllReached(w: Window, cursor: Option<string>, collected: seq<Event>)
    ensures Reached(w, cursor, collected, MAX_PAGES) ==>
              collected == Take(Rest(w.events, w.q), PAGE_LIMIT * MAX_PAGES)
  {
  }

  lemma PageFacts(w: Window, cursor: Option<string>)
    requires Readable(w) && Continued(w, cursor).Some?
    ensures var page := w.getTimeline(cursor);
            var rest := Rest(w.events, Continued(w, cursor).value);
            && page.items == Take(rest, PAGE_LIMIT) && (forall e | e in page.items :: e.id != "")
            && (page.nextCursor.None? <==> |rest| <= PAGE_LIMIT)
            && (page.nextCursor.Some? ==>
                 && page.nextCursor.value != "" && Continued(w, page.nextCursor).Some?
                 && Rest(w.events, Continued(w, page.nextCursor).value) == rest[PAGE_LIMIT..])
  {
    var at := Continued(w, cursor).value;
    EmptyTokenIsInvalid(w.text);
    assert w.getTimeline(cursor) == PageOf(w.text, w.events, at);
    hide PageOf, Rest, DecodeCursor, CleanId, KeysIdentify, Faithful, Serves;
    NextPageStart(w.text, w.events, at);
    PageIsClean(w.text, w.events, at);
  }

  /** What one page adds, and where its cursor leads. */
  lemma NextReached(w: Window, cursor: Option<string>, collected: seq<Event>, pages: nat)
    requires Reached(w, cursor, collected, pages)
    ensures var page := w.getTimeline(cursor);
            var all := Rest(w.events, w.q);
            && (forall e | e in page.items :: e.id != "")
            && collected + page.items == Take(all, PAGE_LIMIT * (pages + 1))
            && (page.nextCursor.None? ==> |all| <= PAGE_LIMIT * (pages + 1))
            && (page.nextCursor.Some? ==>
                 && page.items != [] && page.nextCursor.value != ""
                 && Reached(w, page.nextCursor, collected + page.items, pages + 1))
  {
    var all := Rest(w.events, w.q);
    hide Readable, Rest, Continued;
    PageFacts(w, cursor);
    TakeAfter(all, PAGE_LIMIT * pages, PAGE_LIMIT);
  }

  lemma LastReached(w: Window, collected: seq<Event>, pages: nat)
    requires pages <= MAX_PAGES && collected == Take(Rest(w.events, w.q), PAGE_LIMIT * pages)
    requires |Rest(w.events, w.q)| <= PAGE_LIMIT * pages
    ensures collected == Take(Rest(w.events, w.q), PAGE_LIMIT * MAX_PAGES)
  {
  }

  lemma TakeAfter(all: seq<Event>, n: nat, limit: int)
    requires n <= |all| && limit >= 1
    ensures all[..n] + Take(all[n..], limit) == Take(all, n + limit)
    ensures n + limit <= |all| ==> all[n..][limit..] == all[n + limit..]
    ensures n + limit <= |all| ==> |Take(all[n..], limit)| == limit
  {
  }

  lemma EmptyTokenIsInvalid(text: Text)
    ensures !DecodeCursor(text, "").Ok?
  {
  }

  lemma PageIsClean(text: Text, events: set<Event>, q: Query)
    requires q.limit >= 1 && KeysIdentify(events) && (forall e | e in events :: CleanId(e))
    ensures forall e | e in PageOf(text, events, q).items :: e.id != ""
  {
    RestLists(events, q);
    PageItems(text, Rest(events, q), q.limit);
    hide Ordered, StrictlyOrdered, KeysIdentify, EncodeCursor, Rest;
    forall e | e in PageOf(text, events, q).items ensures e.id != "" {
      TakeMembers(Rest(events, q), q.limit);
      assert e in Remaining(events, q);
    }
  }

  lemma TakeMembers(all: seq<Event>, n: int)
    ensures forall e | e in Take(all, n) :: e in all
  {
  }

  ghost function WantedIds(events: set<Event>, filter: Event -> bool): set<string> {
    set e | e in events && filter(e) :: e.id
  }

  /** Reconnecting loses nothing. If every wanted event older than the window had been seen, and
      the window is within the page bound, the store ends up exactly as if every wanted event of
      the timeline, and every live event that arrived meanwhile, had been merged into it. */
  lemma RecoveryClosesTheGap(batches: seq<Batch>, events: set<Event>, filter: Event -> bool,
                             last: Option<Key>, overlapMs: int, arrived: seq<Raw>, cap: nat,
                             timeOf: string -> Option<int>)
    requires KeysIdentify(events) && AllAgree(batches, timeOf) && Agrees(arrived, timeOf)
    requires forall e | e in events :: timeOf(e.id) == Some(e.occurredAt / 1000)
    requires last.Some? ==>
               forall e | e in events && filter(e)
                          && (e.occurredAt < 0 || e.occurredAt < 1000 * (last.value.at - overlapMs)) ::
                 e.id in Ever(batches)
    requires |Rest(events, OverlapQuery(filter, last, overlapMs))| <= PAGE_LIMIT * MAX_PAGES
    ensures var collected := Take(Rest(events, OverlapQuery(filter, last, overlapMs)), PAGE_LIMIT * MAX_PAGES);
            Keys(Recover(Run(batches, cap), Some(RawsOf(collected)), arrived, cap))
              == Top(KeysFor(Ever(batches) + WantedIds(events, filter) + Ids(arrived), timeOf), cap)
  {
    var collected := Rest(events, OverlapQuery(filter, last, overlapMs));
    var fetched := RawsOf(collected);
    WindowLists(events, filter, last, overlapMs);
    hide *;
    forall e: Event | last.Some? && e.occurredAt < WindowStart(last.value, overlapMs)
      ensures e.occurredAt < 0 || e.occurredAt < 1000 * (last.value.at - overlapMs)
    {
      WindowStartIs(last.value, overlapMs, e.occurredAt);
    }
    WindowCovers(Ever(batches), events, filter, last, overlapMs, collected);
    WindowAgrees(collected, timeOf);
    RecoverIsRun(batches, Some(fetched), arrived, cap);
    EverRecovering(batches, fetched, arrived);
    RecoveringAgrees(batches, fetched, arrived, timeOf);
    HeldIsTopOfEver(Recovering(batches, Some(fetched), arrived), cap, timeOf);
    TakeAll(collected, PAGE_LIMIT * MAX_PAGES);
  }

  /** The overlap before the last processed event, but no earlier than the epoch. */
  lemma WindowStartIs(last: Key, overlapMs: int, at: int)
    ensures at < WindowStart(last, overlapMs) <==> at < 0 || at < 1000 * (last.at - overlapMs)
  {
  }

  lemma TakeAll<T>(s: seq<T>, n: int)
    requires |s| <= n
    ensures Take(s, n) == s
  {
  }

  lemma WindowLists(events: set<Event>, filter: Event -> bool, last: Option<Key>, overlapMs: int)
    requires KeysIdentify(events)
    ensures forall e :: e in Rest(events, OverlapQuery(filter, last, overlapMs)) <==>
              e in events && filter(e) && (last.Some? ==> e.occurredAt >= WindowStart(last.value, overlapMs))
  {
    RestLists(events, OverlapQuery(filter, last, overlapMs));
    hide Rest, KeysIdentify, WindowStart;
  }

  /** With what was seen before, the window has every wanted id. */
  lemma WindowCovers(seen: set<string>, events: set<Event>, filter: Event -> bool, last: Option<Key>,
                     overlapMs: int, collected: seq<Event>)
    requires forall e :: e in collected <==>
               e in events && filter(e) && (last.Some? ==> e.occurredAt >= WindowStart(last.value, overlapMs))
    requires last.Some? ==> forall e | e in events && filter(e) && e.occurredAt < WindowStart(last.value, overlapMs) ::
               e.id in seen
    ensures seen + Ids(RawsOf(collected)) == seen + WantedIds(events, filter)
  {
    IdsOfRaws(collected);
    hide Ids, RawsOf, WindowStart;
    forall e | e in events && filter(e) ensures e.id in seen + Ids(RawsOf(collected)) {
      if e !in collected { assert last.Some?; }
    }
  }

  lemma WindowAgrees(collected: seq<Event>, timeOf: string -> Option<int>)
    requires forall e | e in collected :: timeOf(e.id) == Some(e.occurredAt / 1000)
    ensures Agrees(RawsOf(collected), timeOf)
  {
    forall i | 0 <= i < |collected| ensures timeOf(collected[i].id) == Some(collected[i].occurredAt / 1000) {
      assert collected[i] in collected;
    }
  }

  lemma RecoveringAgrees(batches: seq<Batch>, fetched: seq<Raw>, arrived: seq<Raw>, timeOf: string -> Option<int>)
    requires AllAgree(batches, timeOf) && Agrees(fetched, timeOf) && Agrees(arrived, timeOf)
    ensures AllAgree(Recovering(batches, Some(fetched), arrived), timeOf)
  {
  }

  lemma EverRecovering(batches: seq<Batch>, fetched: seq<Raw>, arrived: seq<Raw>)
    ensures Ever(Recovering(batches, Some(fetched), arrived)) == Ever(batches) + Ids(fetched) + Ids(arrived)
  {
  }

  lemma IdsOfRaws(events: seq<Event>)
    ensures Ids(RawsOf(events)) == set e | e in events :: e.id
  {
    forall id ensures id in Ids(RawsOf(events)) <==> exists e :: e in events && e.id == id {
      if e :| e in events && e.id == id {
        var i :| 0 <= i < |events| && events[i] == e;
        assert RawsOf(events)[i].id == Some(id);
      }
    }
  }
}
