/** The timeline's total order: `occurred_at`, then the stable event id.

    Python compares ids as strings, code point by code point; `StrLess` is that order.
    The console compares with JavaScript's `<`, the same order over code units. */
module Ordering {
  import opened Options

  datatype Sort = Asc | Desc

  /** An ordering key; the decoded form of a cursor has the same two parts. */
  datatype Key = Key(at: int, id: string)

  /** The parts of an event that ordering and paging never look at. */
  datatype Detail = Detail(
    eventType: string, source: string, entityId: nat, cameraId: Option<string>, entityType: string, summary: string)

  datatype Event = Event(id: string, occurredAt: int, detail: Detail)

  /** The types of the timeline. */
  predicate IsTimelineType(eventType: string) {
    eventType in {
      "entity_created", "entity_closed", "observation_recorded", "zone_entered", "zone_exited",
      "zone_occupancy_changed", "alert_triggered", "alert_resolved" }
  }

  predicate StrLess(a: string, b: string) {
    if b == "" then false
    else if a == "" then true
    else if a[0] != b[0] then a[0] < b[0]
    else StrLess(a[1..], b[1..])
  }

  predicate KeyLess(a: Key, b: Key) {
    a.at < b.at || (a.at == b.at && StrLess(a.id, b.id))
  }

  /** `a` is listed before `b` under the requested sort. */
  predicate Precedes(a: Key, b: Key, sort: Sort) {
    if sort.Desc? then KeyLess(b, a) else KeyLess(a, b)
  }

  function KeyOf(e: Event): Key { Key(e.occurredAt, e.id) }

  function CompareEvents(left: Event, right: Event, sort: Sort): (c: int)
    ensures c < 0 <==> Precedes(KeyOf(left), KeyOf(right), sort)
    ensures c == 0 <==> KeyOf(left) == KeyOf(right)
  {
    StrLessTotal(left.id, right.id);
    if left.occurredAt != right.occurredAt then
      if sort.Desc? then
        (if left.occurredAt > right.occurredAt then -1 else 1)
      else
        (if left.occurredAt < right.occurredAt then -1 else 1)
    else if left.id == right.id then 0
    else if sort.Desc? then (if StrLess(right.id, left.id) then -1 else 1)
    else (if StrLess(left.id, right.id) then -1 else 1)
  }

  // ---- StrLess, and with it Precedes, is a strict total order ----

  lemma {:induction false} StrLessTotal(a: string, b: string)
    ensures StrLess(a, b) || a == b || StrLess(b, a)
    ensures !(StrLess(a, b) && StrLess(b, a))
    ensures a == b ==> !StrLess(a, b)
  {
    if a != "" && b != "" && a[0] == b[0] {
      StrLessTotal(a[1..], b[1..]);
      assert a == [a[0]] + a[1..] && b == [b[0]] + b[1..];
    }
  }

  lemma {:induction false} StrLessTransitive(a: string, b: string, c: string)
    requires StrLess(a, b) && StrLess(b, c)
    ensures StrLess(a, c)
  {
    if a != "" && a[0] == b[0] == c[0] {
      StrLessTransitive(a[1..], b[1..], c[1..]);
    }
  }

  lemma PrecedesTotal(a: Key, b: Key, sort: Sort)
    ensures Precedes(a, b, sort) || a == b || Precedes(b, a, sort)
    ensures !(Precedes(a, b, sort) && Precedes(b, a, sort))
    ensures !Precedes(a, a, sort)
  {
    StrLessTotal(a.id, b.id);
    StrLessTotal(a.id, a.id);
  }

  lemma PrecedesTransitive(a: Key, b: Key, c: Key, sort: Sort)
    requires Precedes(a, b, sort) && Precedes(b, c, sort)
    ensures Precedes(a, c, sort)
  {
    if a.at == b.at == c.at {
      if sort.Desc? {
        StrLessTransitive(c.id, b.id, a.id);
      } else {
        StrLessTransitive(a.id, b.id, c.id);
      }
    }
  }

  /** Negative transitivity: "not after" is a preorder. */
  lemma NotAfterTransitive(a: Key, b: Key, c: Key, sort: Sort)
    requires !Precedes(b, a, sort) && !Precedes(c, b, sort)
    ensures !Precedes(c, a, sort)
  {
    PrecedesTotal(a, b, sort);
    PrecedesTotal(b, c, sort);
    PrecedesTotal(a, c, sort);
    if Precedes(a, b, sort) && Precedes(b, c, sort) {
      PrecedesTransitive(a, b, c, sort);
    }
  }

  /** Weakly ordered: nothing is listed after something it precedes. */
  ghost predicate Ordered(s: seq<Event>, sort: Sort) {
    forall i, j | 0 <= i < j < |s| :: !Precedes(KeyOf(s[j]), KeyOf(s[i]), sort)
  }

  /** Strictly ordered, so keys are unique. */
  ghost predicate StrictlyOrdered(s: seq<Event>, sort: Sort) {
    forall i, j | 0 <= i < j < |s| :: Precedes(KeyOf(s[i]), KeyOf(s[j]), sort)
  }

  lemma OrderedCons(first: Event, tail: seq<Event>, sort: Sort)
    requires Ordered(tail, sort)
    requires forall k | 0 <= k < |tail| :: !Precedes(KeyOf(tail[k]), KeyOf(first), sort)
    ensures Ordered([first] + tail, sort)
  {
    hide Precedes, KeyOf;
  }

  lemma StrictlyOrderedCons(first: Event, tail: seq<Event>, sort: Sort)
    requires StrictlyOrdered(tail, sort)
    requires forall k | 0 <= k < |tail| :: Precedes(KeyOf(first), KeyOf(tail[k]), sort)
    ensures StrictlyOrdered([first] + tail, sort)
  {
    hide Precedes, KeyOf;
  }

  ghost predicate KeysIdentify(s: set<Event>) {
    forall a, b | a in s && b in s && KeyOf(a) == KeyOf(b) :: a == b
  }

  /** The first `n` elements, as Python's `s[:n]` for n >= 0. */
  function Take<T>(s: seq<T>, n: int): (r: seq<T>)
    ensures |r| == if n <= 0 then 0 else if n < |s| then n else |s|
    ensures r <= s
  {
    if n <= 0 then [] else if n < |s| then s[..n] else s
  }
}
