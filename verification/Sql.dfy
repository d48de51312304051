/** `SELECT ... WHERE ... ORDER BY key ASC LIMIT n`, over rows named by number. */
module Sql {

  ghost predicate Distinct<T>(s: seq<T>) {
    forall i, j | 0 <= i < j < |s| :: s[i] != s[j]
  }

  ghost predicate SortedBy(s: seq<nat>, key: nat -> int) {
    forall i, j | 0 <= i < j < |s| :: key(s[i]) <= key(s[j])
  }

  /** Every answer the statement may give: ties in `key` may come in any order. */
  ghost predicate IsSelection(chosen: seq<nat>, wanted: set<nat>, key: nat -> int, limit: nat) {
    && multiset(chosen) <= multiset(wanted)
    && |chosen| == (if limit < |wanted| then limit else |wanted|)
    && SortedBy(chosen, key)
    && (forall c, w | c in chosen && w in wanted && w !in chosen :: key(c) <= key(w))
  }

  lemma SelectionIsDistinct(chosen: seq<nat>, wanted: set<nat>)
    requires multiset(chosen) <= multiset(wanted)
    ensures Distinct(chosen) && forall i | 0 <= i < |chosen| :: chosen[i] in wanted
  {
    forall i | 0 <= i < |chosen| ensures chosen[i] in wanted {
      assert chosen[i] in multiset(chosen);
    }
    forall i, j | 0 <= i < j < |chosen| ensures chosen[i] != chosen[j] {
      var front, back := chosen[..j], chosen[j..];
      assert chosen == front + back;
      assert front[i] in multiset(front) && back[0] in multiset(back);
      assert multiset(chosen)[chosen[i]] <= multiset(wanted)[chosen[i]] <= 1;
      assert multiset(chosen) == multiset(front) + multiset(back);
    }
  }

  function InsertBy(x: nat, s: seq<nat>, key: nat -> int): (r: seq<nat>)
    ensures multiset(r) == multiset(s) + multiset{x}
  {
    if s == [] || key(x) < key(s[0]) then [x] + s
    else
      assert s == [s[0]] + s[1..];
      [s[0]] + InsertBy(x, s[1..], key)
  }

  function SortBy(s: seq<nat>, key: nat -> int): (r: seq<nat>)
    ensures multiset(r) == multiset(s)
  {
    if s == [] then []
    else
      assert s == [s[0]] + s[1..];
      InsertBy(s[0], SortBy(s[1..], key), key)
  }

  lemma {:induction false} InsertBySorted(x: nat, s: seq<nat>, key: nat -> int)
    requires SortedBy(s, key)
    ensures SortedBy(InsertBy(x, s, key), key)
  {
    if s != [] && key(s[0]) <= key(x) {
      InsertBySorted(x, s[1..], key);
      var tail := InsertBy(x, s[1..], key);
      forall i | 0 <= i < |tail| ensures key(s[0]) <= key(tail[i]) {
        assert tail[i] in multiset(s[1..]) + multiset{x};
      }
      SortedCons(s[0], tail, key);
    }
  }

  lemma SortedCons(x: nat, tail: seq<nat>, key: nat -> int)
    requires SortedBy(tail, key) && forall i | 0 <= i < |tail| :: key(x) <= key(tail[i])
    ensures SortedBy([x] + tail, key)
  {
  }

  lemma {:induction false} SortBySorted(s: seq<nat>, key: nat -> int)
    ensures SortedBy(SortBy(s, key), key)
  {
    if s != [] {
      SortBySorted(s[1..], key);
      InsertBySorted(s[0], SortBy(s[1..], key), key);
    }
  }

  /** The rows of the WHERE clause, sorted and cut. */
  function OrderByLimit(rows: seq<nat>, key: nat -> int, limit: nat): seq<nat> {
    var sorted := SortBy(rows, key);
    if limit < |sorted| then sorted[..limit] else sorted
  }

  lemma OrderByLimitSelects(rows: seq<nat>, wanted: set<nat>, key: nat -> int, limit: nat)
    requires multiset(rows) == multiset(wanted)
    ensures IsSelection(OrderByLimit(rows, key, limit), wanted, key, limit)
  {
    var sorted := SortBy(rows, key);
    SortBySorted(rows, key);
    SameMembers(sorted, wanted);
    hide SortedBy;
    if limit < |sorted| {
      FrontIsSorted(sorted, limit, key);
      FrontIsLeast(sorted, limit, key);
      FrontIsWithin(sorted, limit);
    }
  }

  lemma SameMembers(sorted: seq<nat>, wanted: set<nat>)
    requires multiset(sorted) == multiset(wanted)
    ensures |sorted| == |wanted| && forall w | w in wanted :: w in sorted
  {
    assert |multiset(sorted)| == |sorted| && |multiset(wanted)| == |wanted|;
    forall w | w in wanted ensures w in sorted { assert w in multiset(sorted); }
  }

  lemma FrontIsSorted(sorted: seq<nat>, limit: nat, key: nat -> int)
    requires SortedBy(sorted, key) && limit <= |sorted|
    ensures SortedBy(sorted[..limit], key)
  {
  }

  lemma FrontIsWithin(sorted: seq<nat>, limit: nat)
    requires limit <= |sorted|
    ensures multiset(sorted[..limit]) <= multiset(sorted)
  {
    assert sorted == sorted[..limit] + sorted[limit..];
  }

  lemma FrontIsLeast(sorted: seq<nat>, limit: nat, key: nat -> int)
    requires SortedBy(sorted, key) && limit <= |sorted|
    ensures forall c, w | c in sorted[..limit] && w in sorted && w !in sorted[..limit] :: key(c) <= key(w)
  {
  }

  // ---- which rows a limit reaches ----

  ghost function NoLater(wanted: set<nat>, key: nat -> int, w: nat): set<nat> {
    set x | x in wanted && key(x) <= key(w)
  }

  ghost function Earlier(wanted: set<nat>, key: nat -> int, w: nat): set<nat> {
    set x | x in wanted && key(x) < key(w)
  }

  ghost function Members(s: seq<nat>): set<nat> {
    set i | 0 <= i < |s| :: s[i]
  }

  lemma {:induction false} MembersCount(s: seq<nat>)
    requires Distinct(s)
    ensures |Members(s)| == |s|
  {
    if s == [] {
      assert Members(s) == {};
    } else {
      var n := |s| - 1;
      MembersCount(s[..n]);
      assert s[n] !in Members(s[..n]);
      forall x | x in Members(s[..n]) ensures x in Members(s) {
        var i :| 0 <= i < n && s[..n][i] == x;
        assert s[i] == x;
      }
      assert Members(s) == Members(s[..n]) + {s[n]};
    }
  }

  lemma {:induction false} Within(a: set<nat>, b: set<nat>)
    requires a <= b
    ensures |a| <= |b|
    ensures |a| == |b| ==> a == b
  {
    if a != {} {
      var x :| x in a;
      Within(a - {x}, b - {x});
    }
  }

  /** The ids below `n`. */
  function UpTo(n: nat): (r: set<nat>)
    ensures |r| == n && forall i: nat :: i in r <==> i < n
  {
    if n == 0 then {} else UpTo(n - 1) + {n - 1}
  }

  /** A row is selected when no more than `limit` rows come no later, itself included, and left out
      when `limit` rows come strictly earlier; between the two only ties decide. */
  lemma SelectionReaches(chosen: seq<nat>, wanted: set<nat>, key: nat -> int, limit: nat, w: nat)
    requires IsSelection(chosen, wanted, key, limit) && w in wanted
    ensures |NoLater(wanted, key, w)| <= limit ==> w in chosen
    ensures |Earlier(wanted, key, w)| >= limit ==> w !in chosen
  {
    SelectionIsDistinct(chosen, wanted);
    MembersCount(chosen);
    if w !in chosen {
      assert w !in Members(chosen);
      Within(Members(chosen), wanted);
      assert forall x | x in Members(chosen) :: key(x) <= key(w);
      Within(Members(chosen) + {w}, NoLater(wanted, key, w));
    } else {
      assert w in Members(chosen);
      forall x | x in Earlier(wanted, key, w) ensures x in Members(chosen) {
        assert x in chosen;
      }
      Within(Earlier(wanted, key, w) + {w}, Members(chosen));
    }
  }

  /** Over a table of `n` rows: only wanted rows are selected, all of them when the limit is `n` or more,
      and none is left out that comes strictly earlier than a selected one. */
  lemma SelectionTells(chosen: seq<nat>, wanted: set<nat>, key: nat -> int, limit: nat, n: nat, id: nat, other: nat)
    requires IsSelection(chosen, wanted, key, limit) && forall w | w in wanted :: w < n
    ensures id in chosen ==> id in wanted
    ensures limit >= n ==> (id in chosen <==> id in wanted)
    ensures id in chosen && other in wanted && other !in chosen ==> key(id) <= key(other)
  {
    SelectionIsDistinct(chosen, wanted);
    if id in wanted {
      Within(NoLater(wanted, key, id), UpTo(n));
      SelectionReaches(chosen, wanted, key, limit, id);
    }
  }
}
