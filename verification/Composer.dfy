/** One page of the composed timeline, and the walk that follows its cursors
    (src/timeline/composer.py, src/timeline/provider.py). */
module Composer {
  import opened Options
  import opened Ordering
  import opened EventListing
  import opened TimelineMerge
  import opened CursorCodec

  /** Filters, cursor, sort and limit. `wanted` stands for the column filters. */
  datatype Query = Query(wanted: Event -> bool, cursor: Option<Key>, sort: Sort, limit: int)

  datatype Provider = Provider(
    name: string, canContribute: Query -> bool, listEvents: Query -> seq<Event>)

  datatype Page = Page(items: seq<Event>, limit: int, nextCursor: Option<string>)

  datatype Outcome<+T> = Done(value: T) | InvalidLimit | BoundExceeded(provider: string)

  // ---- the composer ----

  /** Batches in provider order; the first provider over its bound is an error. */
  function Collect(providers: seq<Provider>, q: Query): Outcome<Streams> {
    if providers == [] then Done([])
    else if !providers[0].canContribute(q) then Collect(providers[1..], q)
    else
      var batch := providers[0].listEvents(q);
      if |batch| > q.limit then BoundExceeded(providers[0].name)
      else match Collect(providers[1..], q)
           case Done(rest) => Done((if batch == [] then [] else [batch]) + rest)
           case other => other
  }

  function ToPage(text: Text, merged: seq<Event>, limit: int): (p: Page)
    requires limit >= 1
  {
    var items := Take(merged, limit);
    Page(items, limit,
         if |merged| > limit then
           var last := items[|items|-1];
           Some(EncodeCursor(text, Datetime(last.occurredAt, Some(0)), last.id))
         else None)
  }

  ghost function Compose(text: Text, providers: seq<Provider>, q: Query): Outcome<Page> {
    if q.limit < 1 then InvalidLimit
    else match Collect(providers, q.(limit := q.limit + 1))
         case Done(streams) => Done(ToPage(text, Take(Merge(streams, q.sort), q.limit + 1), q.limit))
         case BoundExceeded(name) => BoundExceeded(name)
         case InvalidLimit => InvalidLimit
  }

  ghost function Prepended(streams: Streams, rest: Outcome<Streams>): Outcome<Streams> {
    match rest
    case Done(more) => Done(streams + more)
    case failed => failed
  }

  /** TimelineComposer.list_events. */
  method ListEvents(text: Text, providers: seq<Provider>, q: Query) returns (r: Outcome<Page>)
    ensures r == Compose(text, providers, q)
  {
    hide Merge, EncodeCursor;
    if q.limit < 1 { return InvalidLimit; }
    var context := q.(limit := q.limit + 1);
    var streams: Streams := [];
    PrependNothing(Collect(providers, context));
    assert providers[0..] == providers;
    for i := 0 to |providers|
      invariant Prepended(streams, Collect(providers[i..], context)) == Collect(providers, context)
    {
      var provider := providers[i];
      assert providers[i..] == [provider] + providers[i+1..];
      CollectStep(provider, providers[i+1..], streams, provider.listEvents(context), context);
      if !provider.canContribute(context) {
        continue;
      }
      var batch := provider.listEvents(context);
      if |batch| > context.limit { return BoundExceeded(provider.name); }
      if batch != [] { streams := streams + [batch]; }
    }
    assert providers[|providers|..] == [] && streams + [] == streams;
    var merged := MergeOrderedStreams(streams, q.sort, context.limit);
    return Done(ToPage(text, merged, q.limit));
  }

  lemma PrependNothing(rest: Outcome<Streams>)
    ensures Prepended([], rest) == rest
  {
    if rest.Done? { assert [] + rest.value == rest.value; }
  }

  lemma CollectStep(p: Provider, rest: seq<Provider>, streams: Streams, batch: seq<Event>, q: Query)
    requires batch == p.listEvents(q)
    ensures Prepended(streams, Collect([p] + rest, q))
         == if p.canContribute(q) && |batch| > q.limit then BoundExceeded(p.name)
            else if p.canContribute(q) && batch != [] then Prepended(streams + [batch], Collect(rest, q))
            else Prepended(streams, Collect(rest, q))
  {
    assert ([p] + rest)[1..] == rest;
    var after := Collect(rest, q);
    if after.Done? {
      assert streams + ([batch] + after.value) == streams + [batch] + after.value;
      assert [] + after.value == after.value;
    }
  }

  // ---- the specification ----

  /** The matching events strictly after the cursor. */
  ghost function Remaining(events: set<Event>, q: Query): set<Event> {
    set e | e in events && q.wanted(e) && (q.cursor.Some? ==> Precedes(q.cursor.value, KeyOf(e), q.sort))
  }

  ghost function Rest(events: set<Event>, q: Query): seq<Event> {
    Listing(Remaining(events, q), q.sort)
  }

  /** The provider contract: the first `limit` of its own remaining events, in order. */
  ghost predicate Honours(p: Provider, own: set<Event>, q: Query) {
    && (!p.canContribute(q) ==> Remaining(own, q) == {})
    && p.listEvents(q) == Take(Rest(own, q), q.limit)
  }

  ghost predicate AllHonour(providers: seq<Provider>, owns: seq<set<Event>>, q: Query) {
    && |owns| == |providers|
    && forall i | 0 <= i < |providers| :: Honours(providers[i], owns[i], q)
  }

  ghost function Everything(owns: seq<set<Event>>): set<Event> {
    if owns == [] then {} else owns[0] + Everything(owns[1..])
  }

  /** Each event has one owner, and a key belongs to one event. */
  ghost predicate KeysUnique(owns: seq<set<Event>>) {
    && KeysIdentify(Everything(owns))
    && (owns != [] ==> owns[0] !! Everything(owns[1..]) && KeysUnique(owns[1..]))
  }

  lemma RestLists(events: set<Event>, q: Query)
    requires KeysIdentify(events)
    ensures StrictlyOrdered(Rest(events, q), q.sort) && Ordered(Rest(events, q), q.sort)
    ensures multiset(Rest(events, q)) == multiset(Remaining(events, q))
    ensures |Rest(events, q)| == |Remaining(events, q)|
    ensures forall e :: e in Rest(events, q) <==> e in Remaining(events, q)
  {
    ListingLists(Remaining(events, q), q.sort);
    StrictIsWeak(Rest(events, q), q.sort);
  }

  /** One provider's full listing, unless it is empty. */
  ghost function OwnStream(own: set<Event>, q: Query): Streams {
    if Rest(own, q) == [] then [] else [Rest(own, q)]
  }

  /** The full listings behind the non-empty batches. */
  ghost function FullStreams(owns: seq<set<Event>>, q: Query): Streams {
    if owns == [] then [] else OwnStream(owns[0], q) + FullStreams(owns[1..], q)
  }

  lemma {:induction false} CollectTruncates(providers: seq<Provider>, owns: seq<set<Event>>, q: Query)
    requires AllHonour(providers, owns, q) && KeysUnique(owns) && q.limit >= 1
    ensures Collect(providers, q) == Done(Truncate(FullStreams(owns, q), q.limit))
  {
    if providers == [] {
      assert Truncate([], q.limit) == [];
    } else {
      forall i | 0 <= i < |providers[1..]| ensures Honours(providers[1..][i], owns[1..][i], q) {
        assert Honours(providers[i+1], owns[i+1], q);
      }
      CollectTruncates(providers[1..], owns[1..], q);
      assert Honours(providers[0], owns[0], q);
      CollectOne(providers[0], owns[0], q);
      CollectStep(providers[0], providers[1..], [], providers[0].listEvents(q), q);
      PrependNothing(Collect(providers, q));
      PrependNothing(Collect(providers[1..], q));
      assert [providers[0]] + providers[1..] == providers;
      TruncateAppend(OwnStream(owns[0], q), FullStreams(owns[1..], q), q.limit);
    }
  }

  lemma CollectOne(p: Provider, own: set<Event>, q: Query)
    requires Honours(p, own, q) && KeysIdentify(own) && q.limit >= 1
    ensures var batch := p.listEvents(q);
            && |batch| <= q.limit
            && Truncate(OwnStream(own, q), q.limit)
                 == if p.canContribute(q) && batch != [] then [batch] else []
  {
  }

  lemma TruncateAppend(a: Streams, b: Streams, k: nat)
    ensures Truncate(a + b, k) == Truncate(a, k) + Truncate(b, k)
  {
  }

  lemma {:induction false} FullStreamsOrdered(owns: seq<set<Event>>, q: Query)
    requires KeysUnique(owns)
    ensures AllOrdered(FullStreams(owns, q), q.sort)
  {
    if owns != [] {
      FullStreamsOrdered(owns[1..], q);
      RestLists(owns[0], q);
    }
  }

  lemma {:induction false} FullStreamsCover(owns: seq<set<Event>>, q: Query)
    requires KeysUnique(owns)
    ensures Union(FullStreams(owns, q)) == multiset(Remaining(Everything(owns), q))
  {
    if owns == [] {
      assert Remaining(Everything(owns), q) == {};
    } else {
      hide Listing, KeysIdentify, Remaining, Rest, Ordered, StrictlyOrdered;
      FullStreamsCover(owns[1..], q);
      RestLists(owns[0], q);
      UnionPrepend(OwnStream(owns[0], q), FullStreams(owns[1..], q));
      RemainingSplits(owns[0], Everything(owns[1..]), q);
    }
  }

  lemma UnionPrepend(a: Streams, b: Streams)
    requires |a| <= 1
    ensures Union(a + b) == (if a == [] then multiset{} else multiset(a[0])) + Union(b)
  {
    if a == [] {
      assert a + b == b;
    } else {
      assert (a + b)[1..] == b;
    }
  }

  lemma RemainingSplits(a: set<Event>, b: set<Event>, q: Query)
    requires a !! b
    ensures multiset(Remaining(a + b, q)) == multiset(Remaining(a, q)) + multiset(Remaining(b, q))
  {
  }

  /** One page: the first N remaining events, and a cursor exactly when there are more. */
  ghost function PageOf(text: Text, events: set<Event>, q: Query): Page
    requires q.limit >= 1
  {
    ToPage(text, Take(Rest(events, q), q.limit + 1), q.limit)
  }

  /** Providers that honour their contract compose to the page of one sorted query. */
  lemma ComposedPageIsExact(text: Text, providers: seq<Provider>, owns: seq<set<Event>>, q: Query)
    requires q.limit >= 1 && AllHonour(providers, owns, q.(limit := q.limit + 1)) && KeysUnique(owns)
    ensures Compose(text, providers, q) == Done(PageOf(text, Everything(owns), q))
  {
    hide Collect, Merge, Listing, FullStreams, Union, Truncate, EncodeCursor;
    var context := q.(limit := q.limit + 1);
    var events := Everything(owns);
    CollectTruncates(providers, owns, context);
    FullStreamsOrdered(owns, context);
    FullStreamsCover(owns, context);
    assert Remaining(events, q) == Remaining(events, context);
    RestLists(events, q);
    BoundedMergeRefinesQuery(FullStreams(owns, context), Rest(events, q), context.limit, q.sort);
  }

  // ---- walking the cursors ----

  ghost predicate CleanId(e: Event) {
    e.id != "" && !IsSpace(e.id[0]) && !IsSpace(e.id[|e.id|-1])
  }

  /** Moving the cursor to the n-th remaining event drops the first n. */
  lemma CursorDrops(events: set<Event>, q: Query, n: nat)
    requires KeysIdentify(events) && 0 < n <= |Rest(events, q)|
    ensures var q' := q.(cursor := Some(KeyOf(Rest(events, q)[n-1])));
            && Rest(events, q') == Rest(events, q)[n..]
            && |Remaining(events, q')| < |Remaining(events, q)|
  {
    var last := Rest(events, q)[n-1];
    var q' := q.(cursor := Some(KeyOf(last)));
    RestLists(events, q);
    assert last in Remaining(events, q);
    forall e ensures e in Remaining(events, q') <==>
                     e in Remaining(events, q) && Precedes(KeyOf(last), KeyOf(e), q.sort)
    {
      if q.cursor.Some? && e in Remaining(events, q') {
        PrecedesTransitive(q.cursor.value, KeyOf(last), KeyOf(e), q.sort);
      }
    }
    ListingAfter(Remaining(events, q), Remaining(events, q'), n, q.sort);
  }

  /** Following a page's own cursor drops exactly the page. */
  lemma NextPageStart(text: Text, events: set<Event>, q: Query)
    requires Faithful(text) && q.limit >= 1 && KeysIdentify(events)
    requires forall e | e in events :: CleanId(e)
    ensures var page := PageOf(text, events, q);
            && page.items == Take(Rest(events, q), q.limit)
            && (page.nextCursor.None? <==> |Rest(events, q)| <= q.limit)
            && (page.nextCursor.Some? ==>
                 var c := DecodeCursor(text, page.nextCursor.value);
                 && c == CursorCodec.Ok(KeyOf(page.items[q.limit-1]))
                 && Rest(events, q.(cursor := Some(c.value))) == Rest(events, q)[q.limit..]
                 && |Remaining(events, q.(cursor := Some(c.value)))| < |Remaining(events, q)|)
  {
    hide Listing, DecodeCursor, EncodeCursor, Remaining;
    var all := Rest(events, q);
    PageItems(text, all, q.limit);
    if |all| > q.limit {
      var last := all[q.limit-1];
      LastIsClean(events, q, q.limit);
      CursorRoundTrip(text, Datetime(last.occurredAt, Some(0)), last.id);
      CursorDrops(events, q, q.limit);
    }
  }

  lemma PageItems(text: Text, all: seq<Event>, limit: int)
    requires limit >= 1
    ensures var page := ToPage(text, Take(all, limit + 1), limit);
            && page.items == Take(all, limit)
            && page.nextCursor == if |all| <= limit then None
                 else Some(EncodeCursor(text, Datetime(all[limit-1].occurredAt, Some(0)), all[limit-1].id))
  {
  }

  lemma LastIsClean(events: set<Event>, q: Query, n: nat)
    requires KeysIdentify(events) && 0 < n <= |Rest(events, q)|
    requires forall e | e in events :: CleanId(e)
    ensures CleanId(Rest(events, q)[n-1])
  {
    RestLists(events, q);
    assert Rest(events, q)[n-1] in Remaining(events, q);
  }

  ghost predicate Backed(providers: seq<Provider>, owns: seq<set<Event>>) {
    && KeysUnique(owns)
    && (forall q: Query :: AllHonour(providers, owns, q))
    && (forall e | e in Everything(owns) :: CleanId(e))
  }

  /** A client's walk: request a page, then the page after its cursor, until there is none.
      `limits(k)` is the page size of the k-th request. */
  ghost function Walk(text: Text, providers: seq<Provider>, owns: seq<set<Event>>,
                      q: Query, limits: nat -> nat, k: nat): seq<Event>
    requires Faithful(text) && Backed(providers, owns)
    requires forall i: nat :: limits(i) >= 1
    decreases |Remaining(Everything(owns), q)|
  {
    var q' := q.(limit := limits(k));
    assert Remaining(Everything(owns), q') == Remaining(Everything(owns), q);
    ComposedPageIsExact(text, providers, owns, q');
    NextPageStart(text, Everything(owns), q');
    var page := Compose(text, providers, q').value;
    if page.nextCursor.None? then page.items
    else
      var next := DecodeCursor(text, page.nextCursor.value).value;
      page.items + Walk(text, providers, owns, q'.(cursor := Some(next)), limits, k + 1)
  }

  /** The walk yields every matching event exactly once, in global order, for any page sizes. */
  lemma {:induction false} WalkIsComplete(text: Text, providers: seq<Provider>, owns: seq<set<Event>>,
                                          q: Query, limits: nat -> nat, k: nat)
    requires Faithful(text) && Backed(providers, owns)
    requires forall i: nat :: limits(i) >= 1
    ensures Walk(text, providers, owns, q, limits, k) == Rest(Everything(owns), q)
    decreases |Remaining(Everything(owns), q)|
  {
    hide Compose, Listing, DecodeCursor, EncodeCursor, Everything, Honours;
    var q' := q.(limit := limits(k));
    var events := Everything(owns);
    assert Remaining(events, q') == Remaining(events, q);
    ComposedPageIsExact(text, providers, owns, q');
    NextPageStart(text, events, q');
    var page := PageOf(text, events, q');
    if page.nextCursor.Some? {
      var next := DecodeCursor(text, page.nextCursor.value).value;
      WalkIsComplete(text, providers, owns, q'.(cursor := Some(next)), limits, k + 1);
    }
  }
}
