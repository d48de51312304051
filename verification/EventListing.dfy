/** The reference form of a timeline query: the strictly ordered listing of a set of events. */
module EventListing {
  import opened Ordering

  ghost function Insert(e: Event, l: seq<Event>, sort: Sort): seq<Event> {
    if l == [] || Precedes(KeyOf(e), KeyOf(l[0]), sort) then [e] + l
    else [l[0]] + Insert(e, l[1..], sort)
  }

  /** ORDER BY occurred_at, event_id. */
  ghost function Listing(s: set<Event>, sort: Sort): (l: seq<Event>)
  {
    if s == {} then []
    else
      var e :| e in s;
      Insert(e, Listing(s - {e}, sort), sort)
  }

  lemma {:induction false} InsertAccounts(e: Event, l: seq<Event>, sort: Sort)
    ensures multiset(Insert(e, l, sort)) == multiset(l) + multiset{e}
  {
    if l == [] || Precedes(KeyOf(e), KeyOf(l[0]), sort) {
    } else {
      InsertAccounts(e, l[1..], sort);
      assert l == [l[0]] + l[1..];
    }
  }

  lemma {:induction false} InsertKeepsOrder(e: Event, l: seq<Event>, sort: Sort)
    requires StrictlyOrdered(l, sort)
    requires forall x | x in l :: KeyOf(x) != KeyOf(e)
    ensures StrictlyOrdered(Insert(e, l, sort), sort)
  {
    hide Precedes;
    if l == [] {
    } else if Precedes(KeyOf(e), KeyOf(l[0]), sort) {
      forall i | 0 <= i < |l| ensures Precedes(KeyOf(e), KeyOf(l[i]), sort) {
        if i > 0 { PrecedesTransitive(KeyOf(e), KeyOf(l[0]), KeyOf(l[i]), sort); }
      }
      StrictlyOrderedCons(e, l, sort);
    } else {
      InsertKeepsOrder(e, l[1..], sort);
      InsertAccounts(e, l[1..], sort);
      PrecedesTotal(KeyOf(l[0]), KeyOf(e), sort);
      var tail := Insert(e, l[1..], sort);
      forall i | 0 <= i < |tail| ensures Precedes(KeyOf(l[0]), KeyOf(tail[i]), sort) {
        assert tail[i] in multiset(l[1..]) + multiset{e};
      }
      StrictlyOrderedCons(l[0], tail, sort);
    }
  }

  lemma {:induction false} ListingLists(s: set<Event>, sort: Sort)
    requires KeysIdentify(s)
    ensures StrictlyOrdered(Listing(s, sort), sort)
    ensures multiset(Listing(s, sort)) == multiset(s)
    ensures |Listing(s, sort)| == |s|
    ensures forall e :: e in Listing(s, sort) <==> e in s
  {
    if s != {} {
      var e :| e in s && Listing(s, sort) == Insert(e, Listing(s - {e}, sort), sort);
      ListingLists(s - {e}, sort);
      ListingStep(s, e, Listing(s - {e}, sort), sort);
    }
    MembersOf(Listing(s, sort), s);
  }

  lemma ListingStep(s: set<Event>, e: Event, rest: seq<Event>, sort: Sort)
    requires KeysIdentify(s) && e in s
    requires StrictlyOrdered(rest, sort) && multiset(rest) == multiset(s - {e})
    ensures StrictlyOrdered(Insert(e, rest, sort), sort)
    ensures multiset(Insert(e, rest, sort)) == multiset(s)
  {
    MembersOf(rest, s - {e});
    InsertAccounts(e, rest, sort);
    InsertKeepsOrder(e, rest, sort);
    assert multiset(s) == multiset(s - {e}) + multiset{e};
  }

  lemma MembersOf(l: seq<Event>, s: set<Event>)
    requires multiset(l) == multiset(s)
    ensures |l| == |s|
    ensures forall e :: e in l <==> e in s
  {
    assert |multiset(l)| == |l| && |multiset(s)| == |s|;
    assert forall e :: e in l <==> e in multiset(l);
  }

  lemma StrictIsWeak(l: seq<Event>, sort: Sort)
    requires StrictlyOrdered(l, sort)
    ensures Ordered(l, sort)
  {
    forall i, j | 0 <= i < j < |l| ensures !Precedes(KeyOf(l[j]), KeyOf(l[i]), sort) {
      PrecedesTotal(KeyOf(l[i]), KeyOf(l[j]), sort);
    }
  }

  /** A set has one strictly ordered listing. */
  lemma {:induction false} ListingUnique(a: seq<Event>, b: seq<Event>, sort: Sort)
    requires StrictlyOrdered(a, sort) && StrictlyOrdered(b, sort)
    requires forall e :: e in a <==> e in b
    ensures a == b
  {
    BothEmpty(a, b);
    if a != [] {
      HeadFirst(a, b[0], sort);
      HeadFirst(b, a[0], sort);
      PrecedesTotal(KeyOf(a[0]), KeyOf(b[0]), sort);
      TailMembers(a, sort);
      TailMembers(b, sort);
      ListingUnique(a[1..], b[1..], sort);
      assert a == [a[0]] + a[1..] && b == [b[0]] + b[1..];
    }
  }

  lemma BothEmpty<T>(a: seq<T>, b: seq<T>)
    requires forall e :: e in a <==> e in b
    ensures a == [] <==> b == []
  {
    if a != [] { assert a[0] in b; }
    if b != [] { assert b[0] in a; }
  }

  lemma HeadFirst(a: seq<Event>, e: Event, sort: Sort)
    requires StrictlyOrdered(a, sort) && a != [] && e in a
    ensures e == a[0] || Precedes(KeyOf(a[0]), KeyOf(e), sort)
  {
  }

  lemma TailMembers(a: seq<Event>, sort: Sort)
    requires StrictlyOrdered(a, sort) && a != []
    ensures forall e :: e in a[1..] <==> e in a && e != a[0]
  {
    forall e ensures e in a[1..] <==> e in a && e != a[0] {
      PrecedesTotal(KeyOf(a[0]), KeyOf(a[0]), sort);
      if e in a[1..] {
        var i :| 0 <= i < |a[1..]| && a[1..][i] == e;
        assert a[i+1] == e;
      }
      assert a == [a[0]] + a[1..];
    }
  }

  lemma SuffixMembers(l: seq<Event>, n: nat, sort: Sort)
    requires StrictlyOrdered(l, sort) && 0 < n <= |l|
    ensures forall e :: e in l[n..] <==> e in l && Precedes(KeyOf(l[n-1]), KeyOf(e), sort)
  {
    assert l == l[..n] + l[n..];
    forall e ensures e in l[n..] <==> e in l && Precedes(KeyOf(l[n-1]), KeyOf(e), sort) {
      if e in l[n..] {
        var i :| 0 <= i < |l[n..]| && l[n..][i] == e;
        assert e == l[n+i];
      } else if e in l[..n] {
        var i :| 0 <= i < n && l[i] == e;
        PrecedesTotal(KeyOf(l[i]), KeyOf(l[n-1]), sort);
      }
    }
  }

  /** What lies strictly after position `n - 1` is the listing without its first `n`. */
  lemma ListingAfter(s: set<Event>, later: set<Event>, n: nat, sort: Sort)
    requires KeysIdentify(s)
    requires 0 < n <= |Listing(s, sort)|
    requires forall e :: e in later <==> e in s && Precedes(KeyOf(Listing(s, sort)[n-1]), KeyOf(e), sort)
    ensures Listing(later, sort) == Listing(s, sort)[n..]
    ensures |later| < |s|
  {
    var l := Listing(s, sort);
    ListingLists(s, sort);
    ListingLists(later, sort);
    SuffixMembers(l, n, sort);
    ListingUnique(Listing(later, sort), l[n..], sort);
  }
}
