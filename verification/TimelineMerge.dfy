/** The bounded k-way merge of provider streams (src/timeline/composer.py). */
module TimelineMerge {
  import opened Options
  import opened Ordering

  type Streams = seq<seq<Event>>

  /** `b` is what one scan of the heads picks: a least head, the leftmost among equals. */
  ghost predicate IsBest(rests: Streams, b: nat, sort: Sort) {
    && b < |rests| && rests[b] != []
    && (forall i | 0 <= i < |rests| && rests[i] != [] ::
         !Precedes(KeyOf(rests[i][0]), KeyOf(rests[b][0]), sort))
    && (forall i | 0 <= i < b && rests[i] != [] ::
         Precedes(KeyOf(rests[b][0]), KeyOf(rests[i][0]), sort))
  }

  ghost predicate AllEmpty(rests: Streams) {
    forall i | 0 <= i < |rests| :: rests[i] == []
  }

  ghost function Total(rests: Streams): nat {
    if rests == [] then 0 else |rests[0]| + Total(rests[1..])
  }

  ghost function Union(rests: Streams): multiset<Event> {
    if rests == [] then multiset{} else multiset(rests[0]) + Union(rests[1..])
  }

  lemma {:induction false} BestExists(rests: Streams, n: nat, sort: Sort)
    requires n <= |rests| && !AllEmpty(rests[..n])
    ensures exists b: nat :: IsBest(rests[..n], b, sort)
  {
    if AllEmpty(rests[..n-1]) {
      assert forall i | 0 <= i < n - 1 :: rests[..n][i] == rests[..n-1][i];
      PrecedesTotal(KeyOf(rests[n-1][0]), KeyOf(rests[n-1][0]), sort);
      assert IsBest(rests[..n], n - 1, sort);
    } else {
      BestExists(rests, n - 1, sort);
      var b: nat :| IsBest(rests[..n-1], b, sort);
      if rests[n-1] != [] && Precedes(KeyOf(rests[n-1][0]), KeyOf(rests[b][0]), sort) {
        forall i | 0 <= i < n - 1 && rests[i] != []
          ensures Precedes(KeyOf(rests[n-1][0]), KeyOf(rests[i][0]), sort)
        {
          assert rests[..n-1][i] == rests[i];
          BeforeBest(rests[n-1][0], rests[b][0], rests[i][0], sort);
        }
        PrecedesTotal(KeyOf(rests[n-1][0]), KeyOf(rests[n-1][0]), sort);
        forall i | 0 <= i < n && rests[i] != []
          ensures !Precedes(KeyOf(rests[i][0]), KeyOf(rests[n-1][0]), sort)
        {
          PrecedesTotal(KeyOf(rests[i][0]), KeyOf(rests[n-1][0]), sort);
        }
        assert IsBest(rests[..n], n - 1, sort);
      } else {
        assert forall i | 0 <= i < n - 1 :: rests[..n][i] == rests[..n-1][i];
        assert IsBest(rests[..n], b, sort);
      }
    }
  }

  /** Before something that is not after `c` means before `c`. */
  lemma BeforeBest(a: Event, b: Event, c: Event, sort: Sort)
    requires Precedes(KeyOf(a), KeyOf(b), sort)
    requires !Precedes(KeyOf(c), KeyOf(b), sort)
    ensures Precedes(KeyOf(a), KeyOf(c), sort)
  {
    PrecedesTotal(KeyOf(b), KeyOf(c), sort);
    if Precedes(KeyOf(b), KeyOf(c), sort) {
      PrecedesTransitive(KeyOf(a), KeyOf(b), KeyOf(c), sort);
    }
  }

  ghost function Best(rests: Streams, sort: Sort): (b: nat)
    requires !AllEmpty(rests)
    ensures IsBest(rests, b, sort)
  {
    assert rests[..|rests|] == rests;
    BestExists(rests, |rests|, sort);
    var b: nat :| IsBest(rests, b, sort);
    b
  }

  ghost function Advance(rests: Streams, b: nat): (r: Streams)
    requires b < |rests| && rests[b] != []
  {
    rests[b := rests[b][1..]]
  }

  lemma {:induction false} AdvanceAccounts(rests: Streams, b: nat)
    requires b < |rests| && rests[b] != []
    ensures Total(Advance(rests, b)) == Total(rests) - 1
    ensures Union(rests) == multiset{rests[b][0]} + Union(Advance(rests, b))
  {
    if b == 0 {
      assert rests[0] == [rests[0][0]] + rests[0][1..];
      assert Advance(rests, 0)[1..] == rests[1..];
    } else {
      AdvanceAccounts(rests[1..], b - 1);
      assert Advance(rests, b)[1..] == Advance(rests[1..], b - 1);
    }
  }

  /** The unbounded merge. */
  ghost function Merge(rests: Streams, sort: Sort): seq<Event>
    decreases Total(rests)
  {
    if AllEmpty(rests) then []
    else
      var b := Best(rests, sort);
      AdvanceAccounts(rests, b);
      [rests[b][0]] + Merge(Advance(rests, b), sort)
  }

  // ---- the method ----

  ghost predicate Cursors(streams: Streams, indices: seq<nat>) {
    && |indices| == |streams|
    && forall i | 0 <= i < |streams| :: indices[i] <= |streams[i]|
  }

  /** What the cursors have not passed yet. */
  ghost function Rests(streams: Streams, indices: seq<nat>): Streams
    requires Cursors(streams, indices)
  {
    seq(|streams|, i requires 0 <= i < |streams| => streams[i][indices[i]..])
  }

  /** The scan of the first `i` heads has settled on `best`, found at `bestI`. */
  ghost predicate Scanned(rests: Streams, i: nat, best: Option<Event>, bestI: nat, sort: Sort) {
    && i <= |rests|
    && (best.None? ==> AllEmpty(rests[..i]))
    && (best.Some? ==> IsBest(rests[..i], bestI, sort) && best.value == rests[bestI][0])
  }

  /** An exhausted stream, or a head that is not strictly better, leaves the choice alone. */
  lemma ScanKeeps(rests: Streams, i: nat, best: Option<Event>, bestI: nat, sort: Sort)
    requires Scanned(rests, i, best, bestI, sort) && i < |rests|
    requires rests[i] == []
          || (best.Some? && !Precedes(KeyOf(rests[i][0]), KeyOf(best.value), sort))
    ensures Scanned(rests, i + 1, best, bestI, sort)
  {
  }

  /** A strictly better head takes over. */
  lemma ScanReplaces(rests: Streams, i: nat, best: Option<Event>, bestI: nat, sort: Sort)
    requires Scanned(rests, i, best, bestI, sort) && i < |rests| && rests[i] != []
    requires best.Some? ==> Precedes(KeyOf(rests[i][0]), KeyOf(best.value), sort)
    ensures Scanned(rests, i + 1, Some(rests[i][0]), i, sort)
  {
    forall j | 0 <= j < i && rests[j] != []
      ensures Precedes(KeyOf(rests[i][0]), KeyOf(rests[j][0]), sort)
    {
      assert rests[..i][j] == rests[j];
      BeforeBest(rests[i][0], rests[bestI][0], rests[j][0], sort);
    }
    forall j | 0 <= j < i + 1 && rests[j] != []
      ensures !Precedes(KeyOf(rests[j][0]), KeyOf(rests[i][0]), sort)
    {
      PrecedesTotal(KeyOf(rests[j][0]), KeyOf(rests[i][0]), sort);
    }
  }

  lemma {:induction false} StartAtZero(streams: Streams, indices: seq<nat>)
    requires |indices| == |streams| && forall i | 0 <= i < |streams| :: indices[i] == 0
    ensures Cursors(streams, indices) && Rests(streams, indices) == streams
  {
  }

  /** What a finished scan means for the merge. */
  lemma ScanDone(rests: Streams, best: Option<Event>, bestI: nat, sort: Sort)
    requires Scanned(rests, |rests|, best, bestI, sort)
    ensures best.None? ==> Merge(rests, sort) == []
    ensures best.Some? ==> bestI < |rests| && rests[bestI] != []
    ensures best.Some? ==> Merge(rests, sort) == [best.value] + Merge(Advance(rests, bestI), sort)
  {
  }

  lemma RestsAdvance(streams: Streams, indices: seq<nat>, b: nat)
    requires Cursors(streams, indices)
    requires b < |streams| && indices[b] < |streams[b]|
    ensures Cursors(streams, indices[b := indices[b] + 1])
    ensures Rests(streams, indices[b := indices[b] + 1]) == Advance(Rests(streams, indices), b)
  {
  }

  /** The inner loop: one pass over the heads. */
  method ScanHeads(streams: Streams, indices: seq<nat>, sort: Sort)
    returns (best: Option<Event>, bestI: nat)
    requires Cursors(streams, indices)
    ensures best.None? ==> Merge(Rests(streams, indices), sort) == []
    ensures best.Some? ==>
      && bestI < |streams| && indices[bestI] < |streams[bestI]|
      && best.value == streams[bestI][indices[bestI]]
      && Cursors(streams, indices[bestI := indices[bestI] + 1])
      && Merge(Rests(streams, indices), sort)
           == [best.value] + Merge(Rests(streams, indices[bestI := indices[bestI] + 1]), sort)
  {
    ghost var rests := Rests(streams, indices);
    best, bestI := None, 0;
    for i := 0 to |streams|
      invariant Scanned(rests, i, best, bestI, sort)
    {
      var pos := indices[i];
      assert rests[i] == streams[i][pos..];
      if pos >= |streams[i]| {
        ScanKeeps(rests, i, best, bestI, sort);
        continue;
      }
      var candidate := streams[i][pos];
      if best.None? || CompareEvents(candidate, best.value, sort) < 0 {
        ScanReplaces(rests, i, best, bestI, sort);
        best, bestI := Some(candidate), i;
      } else {
        ScanKeeps(rests, i, best, bestI, sort);
      }
    }
    ScanDone(rests, best, bestI, sort);
    if best.Some? {
      RestsAdvance(streams, indices, bestI);
    }
  }

  /** merge_ordered_streams: one cursor per stream, at most `limit` results. */
  method MergeOrderedStreams(streams: Streams, sort: Sort, limit: int) returns (result: seq<Event>)
    ensures result == Take(Merge(streams, sort), limit)
  {
    if limit < 1 { return []; }
    if |streams| == 0 { return []; }
    if |streams| == 1 {
      MergeOfOne(streams[0], sort);
      assert streams == [streams[0]];
      return Take(streams[0], limit);
    }
    var indices: seq<nat> := seq(|streams|, i => 0);
    result := [];
    StartAtZero(streams, indices);
    assert Pending(streams, indices, sort, result);
    hide Merge, Rests, Cursors, Pending;
    while |result| < limit
      invariant Cursors(streams, indices) && |result| <= limit
      invariant Pending(streams, indices, sort, result)
      decreases limit - |result|
    {
      var best, bestI := ScanHeads(streams, indices, sort);
      if best.None? {
        PendingPrefix(streams, indices, sort, result);
        return;
      }
      PendingStep(streams, indices, sort, result, best.value, bestI);
      result := result + [best.value];
      indices := indices[bestI := indices[bestI] + 1];
    }
    PendingPrefix(streams, indices, sort, result);
  }

  /** What is still behind the cursors completes the merge. */
  ghost predicate Pending(streams: Streams, indices: seq<nat>, sort: Sort, result: seq<Event>)
    requires Cursors(streams, indices)
  {
    result + Merge(Rests(streams, indices), sort) == Merge(streams, sort)
  }

  lemma PendingPrefix(streams: Streams, indices: seq<nat>, sort: Sort, result: seq<Event>)
    requires Cursors(streams, indices) && Pending(streams, indices, sort, result)
    ensures result <= Merge(streams, sort)
    ensures Merge(Rests(streams, indices), sort) == [] ==> result == Merge(streams, sort)
  {
  }

  lemma PendingStep(streams: Streams, indices: seq<nat>, sort: Sort, result: seq<Event>, best: Event, bestI: nat)
    requires Cursors(streams, indices) && Pending(streams, indices, sort, result)
    requires bestI < |indices| && Cursors(streams, indices[bestI := indices[bestI] + 1])
    requires Merge(Rests(streams, indices), sort)
          == [best] + Merge(Rests(streams, indices[bestI := indices[bestI] + 1]), sort)
    ensures Pending(streams, indices[bestI := indices[bestI] + 1], sort, result + [best])
  {
  }

  lemma {:induction false} MergeOfOne(s: seq<Event>, sort: Sort)
    ensures Merge([s], sort) == s
    decreases |s|
  {
    if s != [] {
      assert !AllEmpty([s]) by { assert [s][0] != []; }
      assert Advance([s], 0) == [s[1..]];
      MergeOfOne(s[1..], sort);
    } else {
      assert AllEmpty([s]);
    }
  }

  // ---- what the merge is: a sorted permutation of the union ----

  ghost predicate AllOrdered(rests: Streams, sort: Sort) {
    forall i | 0 <= i < |rests| :: Ordered(rests[i], sort)
  }

  lemma {:induction false} InUnion(rests: Streams, e: Event)
    requires e in Union(rests)
    ensures exists i, j | 0 <= i < |rests| && 0 <= j < |rests[i]| :: rests[i][j] == e
  {
    if e !in rests[0] {
      InUnion(rests[1..], e);
      var i, j :| 0 <= i < |rests[1..]| && 0 <= j < |rests[1..][i]| && rests[1..][i][j] == e;
      assert rests[i+1][j] == e;
    } else {
      var j :| 0 <= j < |rests[0]| && rests[0][j] == e;
      assert rests[0][j] == e;
    }
  }

  /** Nothing is lost or invented. */
  lemma {:induction false} MergeIsPermutation(rests: Streams, sort: Sort)
    ensures multiset(Merge(rests, sort)) == Union(rests)
    decreases Total(rests)
  {
    if AllEmpty(rests) {
      UnionOfEmpty(rests);
    } else {
      var b := Best(rests, sort);
      AdvanceAccounts(rests, b);
      MergeIsPermutation(Advance(rests, b), sort);
    }
  }

  lemma AdvanceKeepsOrdered(rests: Streams, b: nat, sort: Sort)
    requires AllOrdered(rests, sort) && b < |rests| && rests[b] != []
    ensures AllOrdered(Advance(rests, b), sort)
  {
    hide Precedes;
    assert Ordered(rests[b], sort);
  }

  /** Merging ordered streams gives an ordered listing. */
  lemma {:induction false} MergeIsOrdered(rests: Streams, sort: Sort)
    requires AllOrdered(rests, sort)
    ensures Ordered(Merge(rests, sort), sort)
    decreases Total(rests)
  {
    if !AllEmpty(rests) {
      var b := Best(rests, sort);
      AdvanceAccounts(rests, b);
      AdvanceKeepsOrdered(rests, b, sort);
      hide Ordered, AllOrdered, Precedes;
      MergeIsOrdered(Advance(rests, b), sort);
      NoneLaterBeforeBest(rests, b, Merge(Advance(rests, b), sort), sort);
      OrderedCons(rests[b][0], Merge(Advance(rests, b), sort), sort);
    }
  }

  lemma NoneLaterBeforeBest(rests: Streams, b: nat, tail: seq<Event>, sort: Sort)
    requires AllOrdered(rests, sort) && IsBest(rests, b, sort)
    requires tail == Merge(Advance(rests, b), sort)
    ensures forall k | 0 <= k < |tail| :: !Precedes(KeyOf(tail[k]), KeyOf(rests[b][0]), sort)
  {
    var rest := Advance(rests, b);
    MergeIsPermutation(rest, sort);
    forall k | 0 <= k < |tail| ensures !Precedes(KeyOf(tail[k]), KeyOf(rests[b][0]), sort) {
      assert tail[k] in multiset(tail);
      InUnion(rest, tail[k]);
      var i, j :| 0 <= i < |rest| && 0 <= j < |rest[i]| && rest[i][j] == tail[k];
      NoneBeforeBest(rests, b, i, if i == b then j + 1 else j, sort);
    }
  }

  lemma NoneBeforeBest(rests: Streams, b: nat, i: nat, j: nat, sort: Sort)
    requires AllOrdered(rests, sort) && IsBest(rests, b, sort)
    requires i < |rests| && j < |rests[i]|
    ensures !Precedes(KeyOf(rests[i][j]), KeyOf(rests[b][0]), sort)
  {
    if j > 0 {
      NotAfterTransitive(KeyOf(rests[b][0]), KeyOf(rests[i][0]), KeyOf(rests[i][j]), sort);
    }
  }

  lemma {:induction false} UnionOfEmpty(rests: Streams)
    requires AllEmpty(rests)
    ensures Union(rests) == multiset{}
  {
    if rests != [] { UnionOfEmpty(rests[1..]); }
  }

  // ---- looking at only the first k of each stream is enough ----

  ghost function Truncate(streams: Streams, k: nat): Streams {
    seq(|streams|, i requires 0 <= i < |streams| => Take(streams[i], k))
  }

  /** `short` shows at least the first `k` of every stream of `long`. */
  ghost predicate ShowsFirst(short: Streams, long: Streams, k: nat) {
    && |short| == |long|
    && forall i | 0 <= i < |long| ::
         short[i] <= long[i] && (|short[i]| >= k || short[i] == long[i])
  }

  lemma SameBest(short: Streams, long: Streams, k: nat, sort: Sort)
    requires ShowsFirst(short, long, k) && k > 0
    ensures AllEmpty(short) <==> AllEmpty(long)
    ensures !AllEmpty(long) ==> Best(short, sort) == Best(long, sort)
  {
  }

  lemma AdvanceShows(short: Streams, long: Streams, k: nat, b: nat)
    requires ShowsFirst(short, long, k) && k > 0
    requires b < |long| && long[b] != []
    ensures short[b] != [] && short[b][0] == long[b][0]
    ensures ShowsFirst(Advance(short, b), Advance(long, b), k - 1)
  {
  }

  lemma MergeStep(rests: Streams, k: nat, sort: Sort)
    requires !AllEmpty(rests) && k > 0
    ensures var b := Best(rests, sort);
            Take(Merge(rests, sort), k) == [rests[b][0]] + Take(Merge(Advance(rests, b), sort), k - 1)
  {
  }

  lemma {:induction false} FirstKDependOnFirstK(short: Streams, long: Streams, k: nat, sort: Sort)
    requires ShowsFirst(short, long, k)
    ensures Take(Merge(short, sort), k) == Take(Merge(long, sort), k)
    decreases k
  {
    if k > 0 {
      SameBest(short, long, k, sort);
      if !AllEmpty(long) {
        var b := Best(long, sort);
        AdvanceShows(short, long, k, b);
        FirstKDependOnFirstK(Advance(short, b), Advance(long, b), k - 1, sort);
        MergeStep(long, k, sort);
        MergeStep(short, k, sort);
      }
    }
  }

  // ---- the plain form: UNION ALL, ORDER BY, LIMIT ----

  /** Two ordered listings of the same events agree when keys identify events. */
  lemma {:induction false} OrderedListingUnique(a: seq<Event>, b: seq<Event>, sort: Sort)
    requires Ordered(a, sort) && Ordered(b, sort) && multiset(a) == multiset(b)
    requires KeysIdentify(set e | e in a)
    ensures a == b
  {
    if a == [] {
      assert |multiset(b)| == 0;
    } else {
      SameHead(a, b, sort);
      DropHead(a);
      DropHead(b);
      OrderedListingUnique(a[1..], b[1..], sort);
      assert a == [a[0]] + a[1..] && b == [b[0]] + b[1..];
    }
  }

  lemma SameHead(a: seq<Event>, b: seq<Event>, sort: Sort)
    requires Ordered(a, sort) && Ordered(b, sort) && multiset(a) == multiset(b) && a != []
    requires KeysIdentify(set e | e in a)
    ensures b != [] && a[0] == b[0]
  {
    assert a[0] in multiset(b);
    assert b[0] in multiset(a);
    HeadIsLeast(a, b[0], sort);
    HeadIsLeast(b, a[0], sort);
    PrecedesTotal(KeyOf(a[0]), KeyOf(b[0]), sort);
  }

  lemma DropHead(a: seq<Event>)
    requires a != []
    ensures multiset(a[1..]) == multiset(a) - multiset{a[0]}
    ensures forall e | e in a[1..] :: e in a
  {
    assert a == [a[0]] + a[1..];
  }

  lemma HeadIsLeast(a: seq<Event>, e: Event, sort: Sort)
    requires Ordered(a, sort) && e in a
    ensures !Precedes(KeyOf(e), KeyOf(a[0]), sort)
  {
    PrecedesTotal(KeyOf(e), KeyOf(e), sort);
  }

  /** The bounded merge of the truncated streams is the first `k` of *any* ordered listing of
      the union of the full streams, which is what the single SQL statement returns. */
  lemma BoundedMergeRefinesQuery(streams: Streams, plain: seq<Event>, k: nat, sort: Sort)
    requires AllOrdered(streams, sort)
    requires Ordered(plain, sort) && multiset(plain) == Union(streams)
    requires KeysIdentify(set e | e in plain)
    ensures Take(Merge(Truncate(streams, k), sort), k) == Take(plain, k)
  {
    FirstKDependOnFirstK(Truncate(streams, k), streams, k, sort);
    MergeIsPermutation(streams, sort);
    MergeIsOrdered(streams, sort);
    OrderedListingUnique(plain, Merge(streams, sort), sort);
  }
}
