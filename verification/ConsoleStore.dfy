/** The console's capped activity store (console/js/store.js). A record carries the properties
    the store never looks at in `fields`; times are epoch milliseconds. */
module ConsoleStore {
  import opened Options
  import opened Ordering
  import opened NewestKeys

  datatype Source = Live | Recovered | Historical

  /** The occurred_at of an incoming event: no such property, an explicit null, or a time. */
  datatype Time = Omitted | Null | At(ms: int)

  function Given(at: Time): Option<int> {
    if at.At? then Some(at.ms) else None
  }

  /** An incoming event. `id` None is a null event or a null id. */
  datatype Raw = Raw(id: Option<string>, at: Time, fields: map<string, string>)

  datatype Record = Record(at: Option<int>, fields: map<string, string>, source: Source)

  type Table = map<string, Record>

  /** normalizeTimestamp: a missing time is the epoch. */
  function Stamp(at: Option<int>): int {
    if at.Some? then at.value else 0
  }

  function KeyIn(held: Table, id: string): Key
    requires id in held
  {
    Key(Stamp(held[id].at), id)
  }

  ghost function Keys(held: Table): set<Key> {
    set id | id in held :: KeyIn(held, id)
  }

  /** The record stored for `raw`: its properties win over those held; a live record stays live. */
  function Merged(held: Table, raw: Raw, source: Source): Record
    requires raw.id.Some?
  {
    var id := raw.id.value;
    if id !in held then Record(Given(raw.at), raw.fields, source)
    else
      var existing := held[id];
      Record(if raw.at.Omitted? then existing.at else Given(raw.at),
             existing.fields + raw.fields,
             if existing.source == Live && source != Live then existing.source else source)
  }

  function UpsertedOne(held: Table, raw: Raw, source: Source): Table {
    if raw.id.None? then held else held[raw.id.value := Merged(held, raw, source)]
  }

  /** A batch merged, before the cap. */
  function Upserted(held: Table, raws: seq<Raw>, source: Source): Table {
    if raws == [] then held
    else UpsertedOne(Upserted(held, raws[..|raws|-1], source), raws[|raws|-1], source)
  }

  ghost function Kept(held: Table, keys: set<Key>): Table {
    map id | id in held && KeyIn(held, id) in keys :: held[id]
  }

  /** Only the `cap` newest are kept. */
  ghost function Capped(held: Table, cap: nat): Table {
    Kept(held, Top(Keys(held), cap))
  }

  ghost function Listed(order: seq<string>, held: Table): (l: seq<Key>)
    requires forall i | 0 <= i < |order| :: order[i] in held
    ensures |l| == |order|
  {
    seq(|order|, i requires 0 <= i < |order| => KeyIn(held, order[i]))
  }

  /** `order` is the table's ids, strictly newest first. */
  ghost predicate Orders(order: seq<string>, held: Table) {
    && (forall i | 0 <= i < |order| :: order[i] in held)
    && NewestFirst(Listed(order, held))
    && Members(Listed(order, held)) == Keys(held)
  }

  // ---- counting and cutting ----

  lemma KeysMinus(held: Table, id: string)
    requires id in held
    ensures Keys(held) == Keys(held - {id}) + {KeyIn(held, id)} && KeyIn(held, id) !in Keys(held - {id})
  {
    var rest := held - {id};
    forall k ensures k in Keys(held) <==> k in Keys(rest) + {KeyIn(held, id)} {
      if k in Keys(held) && k.id != id { assert KeyIn(rest, k.id) == k; }
      if k in Keys(rest) { assert KeyIn(held, k.id) == k; }
    }
  }

  lemma {:induction false} KeysCount(held: Table)
    ensures |Keys(held)| == |held|
  {
    if held.Keys != {} {
      var id :| id in held;
      KeysMinus(held, id);
      KeysCount(held - {id});
      hide Keys;
      assert held == (held - {id})[id := held[id]];
    } else {
      assert Keys(held) == {};
    }
  }

  lemma KeysOfKept(held: Table, keys: set<Key>)
    requires keys <= Keys(held)
    ensures Keys(Kept(held, keys)) == keys
  {
    forall k ensures k in Keys(Kept(held, keys)) <==> k in keys {
      if k in keys {
        assert k in Keys(held);
        assert KeyIn(Kept(held, keys), k.id) == k;
      }
    }
  }

  lemma KeysOfCapped(held: Table, cap: nat)
    ensures Keys(Capped(held, cap)) == Top(Keys(held), cap)
  {
    KeysOfKept(held, Top(Keys(held), cap));
  }

  lemma OrderCount(order: seq<string>, held: Table)
    requires Orders(order, held)
    ensures |order| == |held|
  {
    MembersCount(Listed(order, held));
    KeysCount(held);
  }

  lemma KeptMinus(held: Table, keys: set<Key>, id: string)
    requires id in held && KeyIn(held, id) !in keys
    ensures Kept(held, keys + {KeyIn(held, id)}) - {id} == Kept(held, keys)
  {
  }

  /** Popping the last id of the order drops exactly that record. */
  lemma PopKept(order: seq<string>, held: Table, n: nat)
    requires Orders(order, held) && n < |order|
    ensures var l := Listed(order, held);
            Kept(held, Members(l[..n])) == Kept(held, Members(l[..n+1])) - {order[n]}
  {
    var l := Listed(order, held);
    LastIsNew(l, n);
    KeptMinus(held, Members(l[..n]), order[n]);
  }

  lemma LastIsNew(l: seq<Key>, n: nat)
    requires NewestFirst(l) && n < |l|
    ensures Members(l[..n+1]) == Members(l[..n]) + {l[n]} && l[n] !in Members(l[..n])
  {
    assert l[..n+1][..n] == l[..n];
    MembersSnoc(l[..n+1]);
    forall i | 0 <= i < |l[..n]| ensures l[..n][i] != l[n] { KeyOrder(l[n], l[n]); }
  }

  lemma KeptAll(order: seq<string>, held: Table)
    requires Orders(order, held)
    ensures Kept(held, Members(Listed(order, held))) == held
  {
  }

  /** The order and the table after popping down to `ids`. */
  ghost predicate Cut(order: seq<string>, held: Table, ids: seq<string>, table: Table)
    requires Orders(order, held)
  {
    ids <= order && table == Kept(held, Members(Listed(order, held)[..|ids|]))
  }

  lemma CutAll(order: seq<string>, held: Table)
    requires Orders(order, held)
    ensures Cut(order, held, order, held)
  {
    KeptAll(order, held);
    var l := Listed(order, held);
    assert l[..|order|] == l;
  }

  lemma CutPop(order: seq<string>, held: Table, ids: seq<string>, table: Table)
    requires Orders(order, held) && Cut(order, held, ids, table) && ids != []
    ensures Cut(order, held, ids[..|ids|-1], table - {ids[|ids|-1]})
  {
    var n := |ids| - 1;
    assert ids[n] == order[n] && ids[..n] <= order;
    hide Kept, Members, NewestFirst, Listed, Keys, Orders;
    PopKept(order, held, n);
  }

  lemma CutDone(order: seq<string>, held: Table, ids: seq<string>, table: Table, cap: nat)
    requires Orders(order, held) && Cut(order, held, ids, table)
    requires |ids| == if |order| < cap then |order| else cap
    ensures Orders(ids, table) && |ids| == |table| && |order| == |held|
    ensures table == Capped(held, cap)
  {
    var l := Listed(order, held);
    assert ids == order[..|ids|] && |l| == |order| && l[..|ids|] == Take(l, cap);
    PrefixIsTop(l, cap);
    hide Kept, Members, NewestFirst, Orders, Listed, Top;
    CutOrders(order, held, |ids|);
    OrderCount(ids, table);
    OrderCount(order, held);
  }

  lemma CutListed(order: seq<string>, held: Table, n: nat)
    requires Orders(order, held) && n <= |order|
    ensures var kept := Kept(held, Members(Listed(order, held)[..n]));
            && (forall i | 0 <= i < n :: order[..n][i] in kept)
            && Listed(order[..n], kept) == Listed(order, held)[..n]
  {
    var l := Listed(order, held);
    forall i | 0 <= i < n ensures order[..n][i] in Kept(held, Members(l[..n])) {
      assert l[..n][i] == l[i] == KeyIn(held, order[i]);
    }
  }

  lemma CutOrders(order: seq<string>, held: Table, n: nat)
    requires Orders(order, held) && n <= |order|
    ensures Orders(order[..n], Kept(held, Members(Listed(order, held)[..n])))
  {
    var l := Listed(order, held);
    CutListed(order, held, n);
    forall k | k in Members(l[..n]) ensures k in Keys(held) {
      var i :| 0 <= i < n && l[..n][i] == k;
      assert l[i] == k;
    }
    KeysOfKept(held, Members(l[..n]));
  }

  // ---- sorting ----

  function Place(k: Key, order: seq<Key>): seq<Key> {
    if order == [] || KeyLess(order[0], k) then [k] + order
    else [order[0]] + Place(k, order[1..])
  }

  lemma {:induction false} PlaceKeepsOrder(k: Key, order: seq<Key>)
    requires NewestFirst(order) && k !in Members(order)
    ensures NewestFirst(Place(k, order))
    ensures Members(Place(k, order)) == Members(order) + {k}
  {
    if order == [] {
      MembersCons(k, []);
      assert [k] + [] == [k] && Members([]) == {};
    } else {
      KeyOrder(order[0], k);
      assert order[0] in Members(order);
      assert order == [order[0]] + order[1..];
      MembersCons(order[0], order[1..]);
      if KeyLess(order[0], k) {
        MembersCons(k, order);
        forall i | 0 <= i < |order| ensures KeyLess(order[i], k) {
          if i > 0 { PrecedesTransitive(order[i], order[0], k, Asc); }
        }
      } else {
        PlaceKeepsOrder(k, order[1..]);
        var tail := Place(k, order[1..]);
        MembersCons(order[0], tail);
        forall i | 0 <= i < |tail| ensures KeyLess(tail[i], order[0]) {
          assert tail[i] in Members(tail);
        }
      }
    }
  }

  lemma MembersCons(k: Key, order: seq<Key>)
    ensures Members([k] + order) == Members(order) + {k}
  {
    var all := [k] + order;
    forall x ensures x in Members(all) <==> x in Members(order) + {k} {
      if x in Members(order) {
        var i :| 0 <= i < |order| && order[i] == x;
        assert all[i+1] == x;
      }
      assert all[0] == k;
    }
  }

  /** A table has one order. */
  lemma {:induction false} NewestFirstUnique(a: seq<Key>, b: seq<Key>)
    requires NewestFirst(a) && NewestFirst(b) && Members(a) == Members(b)
    ensures a == b
  {
    MembersCount(a);
    MembersCount(b);
    if a != [] {
      var n := |a| - 1;
      forall i | 0 <= i < n ensures KeyLess(a[n], a[i]) && KeyLess(b[n], b[i]) {}
      assert a[n] in Members(b) && b[n] in Members(a);
      KeyOrder(a[n], b[n]);
      assert a[n] == b[n];
      hide Members, NewestFirst, Newer;
      NewerAt(a, n);
      NewerAt(b, n);
      NewestFirstUnique(a[..n], b[..n]);
      assert a == a[..n] + [a[n]] && b == b[..n] + [b[n]];
    }
  }

  // ---- the store ----

  function Identified(raws: seq<Raw>): nat {
    if raws == [] then 0
    else Identified(raws[..|raws|-1]) + if raws[|raws|-1].id.Some? then 1 else 0
  }

  lemma UpsertedSnoc(held: Table, raws: seq<Raw>, source: Source, i: nat)
    requires i < |raws|
    ensures Upserted(held, raws[..i+1], source) == UpsertedOne(Upserted(held, raws[..i], source), raws[i], source)
    ensures Identified(raws[..i+1]) == Identified(raws[..i]) + if raws[i].id.Some? then 1 else 0
  {
    assert raws[..i+1][..i] == raws[..i];
  }

  /** A selection whose event was dropped is cleared. */
  function Surviving(selected: Option<string>, held: Table): Option<string> {
    if selected.Some? && selected.value !in held then None else selected
  }

  lemma SurvivesUncut(selected: Option<string>, held: Table)
    requires selected.Some? ==> selected.value in held
    ensures Surviving(selected, held) == selected
  {
  }

  lemma SurvivesPop(selected: Option<string>, held: Table, id: string)
    ensures Surviving(selected, held - {id})
         == if Surviving(selected, held) == Some(id) then None else Surviving(selected, held)
  {
  }

  class Store {
    var byId: Table
    var orderedIds: seq<string>
    var selected: Option<string>
    var selectedEntity: Option<string>
    const hardCap: nat

    ghost predicate Valid()
      reads this
    {
      && Orders(orderedIds, byId)
      && |byId| <= hardCap
      && (selected.Some? ==> selected.value in byId)
    }

    /** A cap of zero, or none that reads as a number, is the default of 400. */
    constructor (cap: int)
      ensures Valid() && byId == map[] && selected == None && selectedEntity == None
      ensures hardCap == if cap == 0 then 400 else if cap < 50 then 50 else cap
    {
      byId, orderedIds, selected, selectedEntity := map[], [], None, None;
      var wanted := if cap == 0 then 400 else cap;
      hardCap := if wanted < 50 then 50 else wanted;
      new;
      assert Keys(byId) == {} && Members(Listed(orderedIds, byId)) == {};
    }

    /** Selecting a held event also selects its entity, if it names one. */
    method SelectEvent(id: Option<string>)
      requires Valid()
      modifies this`selected, this`selectedEntity
      ensures Valid()
      ensures selected == if id.Some? && id.value !in byId then old(selected) else id
      ensures if id.Some? && id.value in byId && "entity_id" in byId[id.value].fields
                 && byId[id.value].fields["entity_id"] != ""
              then selectedEntity == Some(byId[id.value].fields["entity_id"])
              else selectedEntity == old(selectedEntity)
    {
      if id.None? {
        selected := None;
      } else if id.value in byId {
        selected := id;
        var record := byId[id.value];
        if "entity_id" in record.fields && record.fields["entity_id"] != "" {
          selectedEntity := Some(record.fields["entity_id"]);
        }
      }
    }

    method SelectEntity(entityId: Option<string>)
      modifies this`selectedEntity
      ensures selectedEntity == entityId
    {
      selectedEntity := entityId;
    }

    /** Records for ids already held are merged, others added; then the cap is enforced. */
    method UpsertMany(raws: seq<Raw>, source: Source) returns (added: nat, updated: nat, dropped: nat)
      requires Valid()
      modifies this`byId, this`orderedIds, this`selected
      ensures Valid()
      ensures byId == Capped(Upserted(old(byId), raws, source), hardCap)
      ensures selected == Surviving(old(selected), byId)
      ensures added + updated == Identified(raws)
      ensures |old(byId)| + added == |Upserted(old(byId), raws, source)| == |byId| + dropped
      ensures dropped > 0 ==> |byId| == hardCap
    {
      hide Top, Orders, Merged;
      added, updated := 0, 0;
      ghost var before := byId;
      for i := 0 to |raws|
        invariant byId == Upserted(before, raws[..i], source) && selected == old(selected)
        invariant added + updated == Identified(raws[..i])
        invariant |byId| == |before| + added
        invariant forall id | id in before :: id in byId
      {
        UpsertedSnoc(before, raws, source, i);
        var raw := raws[i];
        if raw.id.None? { continue; }
        var id := raw.id.value;
        var merged := Merged(byId, raw, source);
        if id in byId {
          updated := updated + 1;
        } else {
          added := added + 1;
        }
        byId := byId[id := merged];
      }
      assert raws[..|raws|] == raws;
      RebuildOrder();
      dropped := EnforceCap();
    }

    method RebuildOrder()
      modifies this`orderedIds
      ensures Orders(orderedIds, byId)
    {
      var sorted: seq<Key> := [];
      var remaining := byId.Keys;
      ghost var done: set<string> := {};
      SortsNothing(byId);
      hide Sorts, Orders;
      while remaining != {}
        invariant done + remaining == byId.Keys && done !! remaining
        invariant Sorts(sorted, byId, done)
        decreases |remaining|
      {
        var id :| id in remaining;
        SortsOneMore(sorted, byId, done, id);
        sorted := Place(KeyIn(byId, id), sorted);
        done := done + {id};
        remaining := remaining - {id};
      }
      ToIds(sorted, byId);
      orderedIds := seq(|sorted|, i requires 0 <= i < |sorted| => sorted[i].id);
    }

    /** Pops the oldest ids until the cap holds. */
    method EnforceCap() returns (dropped: nat)
      requires Orders(orderedIds, byId) && (selected.Some? ==> selected.value in byId)
      modifies this`byId, this`orderedIds, this`selected
      ensures Orders(orderedIds, byId)
      ensures byId == Capped(old(byId), hardCap)
      ensures |byId| + dropped == |old(byId)| && |byId| <= hardCap
      ensures dropped > 0 ==> |byId| == hardCap
      ensures selected == Surviving(old(selected), byId)
    {
      hide *;
      ghost var held, order, chosen := byId, orderedIds, selected;
      dropped := 0;
      CutAll(order, held);
      SurvivesUncut(chosen, held);
      while |orderedIds| > hardCap
        invariant Cut(order, held, orderedIds, byId)
        invariant dropped == |order| - |orderedIds|
        invariant |orderedIds| >= hardCap || dropped == 0
        invariant selected == Surviving(chosen, byId)
      {
        var last := |orderedIds| - 1;
        var id := orderedIds[last];
        CutPop(order, held, orderedIds, byId);
        SurvivesPop(chosen, byId, id);
        orderedIds := orderedIds[..last];
        byId := byId - {id};
        if selected == Some(id) { selected := None; }
        dropped := dropped + 1;
      }
      CutDone(order, held, orderedIds, byId, hardCap);
    }

    method Clear()
      requires Valid()
      modifies this`byId, this`orderedIds, this`selected
      ensures Valid() && byId == map[] && orderedIds == [] && selected == None
      ensures selectedEntity == old(selectedEntity)
    {
      byId, orderedIds, selected := map[], [], None;
      assert Keys(byId) == {} && Members(Listed(orderedIds, byId)) == {};
    }
  }

  /** `sorted` is the keys of the records in `done`, newest first. */
  ghost predicate Sorts(sorted: seq<Key>, held: Table, done: set<string>) {
    && done <= held.Keys && NewestFirst(sorted)
    && Members(sorted) == set id | id in done :: KeyIn(held, id)
  }

  lemma SortsNothing(held: Table)
    ensures Sorts([], held, {})
  {
    assert Members([]) == {};
  }

  lemma SortsOneMore(sorted: seq<Key>, held: Table, done: set<string>, id: string)
    requires Sorts(sorted, held, done) && id in held && id !in done
    ensures Sorts(Place(KeyIn(held, id), sorted), held, done + {id})
  {
    hide NewestFirst, Members, Place;
    PlaceKeepsOrder(KeyIn(held, id), sorted);
  }

  lemma ToIds(sorted: seq<Key>, held: Table)
    requires Sorts(sorted, held, held.Keys)
    ensures Orders(seq(|sorted|, i requires 0 <= i < |sorted| => sorted[i].id), held)
  {
    assert Members(sorted) == Keys(held);
    var ids := seq(|sorted|, i requires 0 <= i < |sorted| => sorted[i].id);
    forall i | 0 <= i < |ids| ensures ids[i] in held && KeyIn(held, ids[i]) == sorted[i] {
      assert sorted[i] in Members(sorted);
    }
    assert Listed(ids, held) == sorted;
  }

  // ---- what merging keeps ----

  /** The value of property `p` in the last event of the batch that has this id and carries `p`. */
  function LastValue(raws: seq<Raw>, id: string, p: string): Option<string> {
    if raws == [] then None
    else
      var last := raws[|raws|-1];
      if last.id == Some(id) && p in last.fields then Some(last.fields[p])
      else LastValue(raws[..|raws|-1], id, p)
  }

  predicate Mentions(raws: seq<Raw>, id: string) {
    exists i | 0 <= i < |raws| :: raws[i].id == Some(id)
  }

  /** The latest value of each property wins, an omitted property stays, and a record has the source it
      was last merged from, but a live one stays live whatever is merged over it. */
  lemma {:induction false} MergeIsLatest(held: Table, raws: seq<Raw>, source: Source, id: string, p: string)
    ensures var t := Upserted(held, raws, source);
            && (id in t <==> id in held || Mentions(raws, id))
            && (LastValue(raws, id, p).Some? ==> Mentions(raws, id))
            && (id in t ==>
                 && (t[id].source ==
                      if Mentions(raws, id) && !(id in held && held[id].source == Live) then source
                      else held[id].source)
                 && (p in t[id].fields <==> LastValue(raws, id, p).Some? || (id in held && p in held[id].fields))
                 && (p in t[id].fields ==>
                      t[id].fields[p] == match LastValue(raws, id, p)
                                         case Some(v) => v
                                         case None => held[id].fields[p]))
  {
    if raws == [] {
      assert LastValue(raws, id, p) == None && !Mentions(raws, id);
    } else {
      var n := |raws| - 1;
      MergeIsLatest(held, raws[..n], source, id, p);
      MentionsSnoc(raws, id);
      hide Mentions;
    }
  }

  /** The last occurred_at, null included, that the batch gives for this id. */
  function LastTime(raws: seq<Raw>, id: string): Time {
    if raws == [] then Omitted
    else
      var last := raws[|raws|-1];
      if last.id == Some(id) && !last.at.Omitted? then last.at else LastTime(raws[..|raws|-1], id)
  }

  /** So with the time, where an explicit null erases the time that was held. */
  lemma {:induction false} MergedTimeIsLatest(held: Table, raws: seq<Raw>, source: Source, id: string)
    requires id in Upserted(held, raws, source)
    ensures Upserted(held, raws, source)[id].at
         == if !LastTime(raws, id).Omitted? then Given(LastTime(raws, id))
            else if id in held then held[id].at else None
  {
    if raws != [] {
      var init := raws[..|raws|-1];
      if id in Upserted(held, init, source) {
        MergedTimeIsLatest(held, init, source, id);
      } else {
        NeverMentioned(held, init, source, id);
      }
    }
  }

  lemma {:induction false} NeverMentioned(held: Table, raws: seq<Raw>, source: Source, id: string)
    requires id !in Upserted(held, raws, source)
    ensures id !in held && LastTime(raws, id).Omitted?
  {
    if raws != [] { NeverMentioned(held, raws[..|raws|-1], source, id); }
  }

  lemma MentionsSnoc(raws: seq<Raw>, id: string)
    requires raws != []
    ensures Mentions(raws, id) <==> Mentions(raws[..|raws|-1], id) || raws[|raws|-1].id == Some(id)
  {
  }
}
