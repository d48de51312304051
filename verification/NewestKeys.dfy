/** The `k` newest of a set of ordering keys. */
module NewestKeys {
  import opened Ordering

  ghost function Newer(s: set<Key>, e: Key): set<Key> {
    set x | x in s && KeyLess(e, x)
  }

  /** Members with fewer than `k` newer members. */
  ghost function Top(s: set<Key>, k: nat): set<Key> {
    set e | e in s && |Newer(s, e)| < k
  }

  lemma {:induction false} SubsetSize<T>(a: set<T>, b: set<T>)
    requires a <= b
    ensures |a| <= |b|
  {
    if a != {} {
      var x :| x in a;
      SubsetSize(a - {x}, b - {x});
    }
  }

  lemma KeyOrder(a: Key, b: Key)
    ensures KeyLess(a, b) || a == b || KeyLess(b, a)
    ensures !(KeyLess(a, b) && KeyLess(b, a)) && !KeyLess(a, a)
  {
    PrecedesTotal(a, b, Asc);
  }

  lemma NewerNested(s: set<Key>, a: Key, b: Key)
    requires KeyLess(a, b)
    ensures Newer(s, b) <= Newer(s, a)
    ensures b in s ==> |Newer(s, b)| < |Newer(s, a)|
  {
    forall x | x in Newer(s, b) ensures x in Newer(s, a) { PrecedesTransitive(a, b, x, Asc); }
    if b in s {
      KeyOrder(b, b);
      SubsetSize(Newer(s, b) + {b}, Newer(s, a));
    }
  }

  lemma {:induction false} Oldest(s: set<Key>) returns (m: Key)
    requires s != {}
    ensures m in s && Newer(s, m) == s - {m}
  {
    var first :| first in s;
    m := first;
    KeyOrder(first, first);
    if s != {first} {
      var next := Oldest(s - {first});
      KeyOrder(first, next);
      KeyOrder(next, next);
      if KeyLess(next, first) {
        m := next;
        assert Newer(s, next) == Newer(s - {first}, next) + {first};
      } else {
        NewerNested(s, first, next);
        assert Newer(s, next) == Newer(s - {first}, next);
      }
    }
  }

  lemma FewAreTop(s: set<Key>, k: nat)
    requires |Top(s, k)| < k
    ensures Top(s, k) == s
  {
    if |s| >= k { TopHasAtLeast(s, k); }
    forall e | e in s ensures e in Top(s, k) {
      KeyOrder(e, e);
      SubsetSize(Newer(s, e), s - {e});
    }
  }

  lemma {:induction false} TopHasAtLeast(s: set<Key>, k: nat)
    requires |s| >= k
    ensures |Top(s, k)| >= k
    decreases |s|
  {
    if |s| > k {
      var m := Oldest(s);
      var rest := s - {m};
      TopHasAtLeast(rest, k);
      forall e | e in Top(rest, k) ensures e in Top(s, k) {
        KeyOrder(e, m);
        assert Newer(s, e) == Newer(rest, e);
      }
      SubsetSize(Top(rest, k), Top(s, k));
    } else {
      forall e | e in s ensures e in Top(s, k) {
        KeyOrder(e, e);
        SubsetSize(Newer(s, e), s - {e});
      }
      assert Top(s, k) == s;
    }
  }

  /** Everything in the top is newer than anything below it. */
  lemma TopIsAbove(s: set<Key>, k: nat, x: Key, y: Key)
    requires x in s && x !in Top(s, k) && y in Top(s, k)
    ensures KeyLess(x, y)
  {
    KeyOrder(x, y);
    if KeyLess(y, x) { NewerNested(s, y, x); }
  }

  lemma TopWithin(a: set<Key>, b: set<Key>, k: nat)
    ensures Top(a + b, k) <= Top(Top(a, k) + b, k)
  {
    forall e | e in Top(a + b, k) ensures e in Top(Top(a, k) + b, k) {
      SubsetSize(Newer(a, e), Newer(a + b, e));
      SubsetSize(Newer(Top(a, k) + b, e), Newer(a + b, e));
    }
  }

  lemma TopCovers(a: set<Key>, b: set<Key>, k: nat, e: Key)
    requires e in Top(Top(a, k) + b, k)
    ensures e in Top(a + b, k)
  {
    if exists x :: x in Newer(a, e) && x !in Top(a, k) {
      var x :| x in Newer(a, e) && x !in Top(a, k);
      SubsetSize(Newer(a, x), a);
      TopHasAtLeast(a, k);
      forall y | y in Top(a, k) ensures y in Newer(Top(a, k) + b, e) {
        TopIsAbove(a, k, x, y);
        PrecedesTransitive(e, x, y, Asc);
      }
      SubsetSize(Top(a, k), Newer(Top(a, k) + b, e));
      assert false;
    }
    assert Newer(a + b, e) == Newer(Top(a, k) + b, e);
  }

  /** Keeping only the top of what has been seen loses nothing from any later top. */
  lemma TopAbsorbs(a: set<Key>, b: set<Key>, k: nat)
    ensures Top(Top(a, k) + b, k) == Top(a + b, k)
  {
    TopWithin(a, b, k);
    forall e | e in Top(Top(a, k) + b, k) ensures e in Top(a + b, k) { TopCovers(a, b, k, e); }
  }

  /** Strictly newest first. */
  ghost predicate NewestFirst(s: seq<Key>) {
    forall i, j | 0 <= i < j < |s| :: KeyLess(s[j], s[i])
  }

  ghost function Members(s: seq<Key>): set<Key> {
    set i | 0 <= i < |s| :: s[i]
  }

  lemma MembersSnoc(s: seq<Key>)
    requires s != []
    ensures Members(s) == Members(s[..|s|-1]) + {s[|s|-1]}
  {
  }

  lemma {:induction false} MembersCount(s: seq<Key>)
    requires NewestFirst(s)
    ensures |Members(s)| == |s|
  {
    if s != [] {
      var n := |s| - 1;
      forall i | 0 <= i < n ensures s[..n][i] != s[n] { KeyOrder(s[n], s[n]); }
      assert s[n] !in Members(s[..n]);
      hide Members;
      MembersCount(s[..n]);
      MembersSnoc(s);
    } else {
      assert Members([]) == {};
    }
  }

  lemma NewerAt(s: seq<Key>, i: nat)
    requires NewestFirst(s) && i < |s|
    ensures Newer(Members(s), s[i]) == Members(s[..i])
    ensures |Newer(Members(s), s[i])| == i
  {
    MembersCount(s[..i]);
    forall x ensures x in Newer(Members(s), s[i]) <==> x in Members(s[..i]) {
      if x in Newer(Members(s), s[i]) {
        var j :| 0 <= j < |s| && s[j] == x;
        KeyOrder(s[i], x);
        assert s[..i][j] == x;
      }
      if x in Members(s[..i]) {
        var j :| 0 <= j < i && s[..i][j] == x;
        assert s[j] == x;
      }
    }
  }

  /** The first `k` of a newest-first listing are the `k` newest. */
  lemma PrefixIsTop(s: seq<Key>, k: nat)
    requires NewestFirst(s)
    ensures Members(Take(s, k)) == Top(Members(s), k)
  {
    forall x ensures x in Members(Take(s, k)) <==> x in Top(Members(s), k) {
      if x in Members(s) {
        var i :| 0 <= i < |s| && s[i] == x;
        NewerAt(s, i);
        if i < k { assert Take(s, k)[i] == x; }
        else { NotInPrefix(s, k, i); }
      }
    }
  }

  lemma NotInPrefix(s: seq<Key>, k: nat, i: nat)
    requires NewestFirst(s) && k <= i < |s|
    ensures s[i] !in Members(Take(s, k))
  {
    forall j | 0 <= j < |Take(s, k)| ensures Take(s, k)[j] != s[i] { KeyOrder(s[i], s[i]); }
  }
}
