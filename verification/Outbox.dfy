/** The notification outbox (src/storage/notification_repositories.py). A delivery's id is its
    position in the table; workers, keys and errors are numbers. */
module Outbox {
  import opened Options
  import opened Sql

  datatype Status = Pending | Processing | Delivered | Failed | Exhausted

  /** Who holds the row, since when. */
  datatype Lock = Lock(at: int, worker: nat)

  datatype Delivery = Delivery(
    key: nat, status: Status, attempts: nat, nextAttemptAt: int, lock: Option<Lock>,
    firstAttemptAt: Option<int>, lastAttemptAt: Option<int>, deliveredAt: Option<int>, exhaustedAt: Option<int>)

  datatype Attempt = Attempt(delivery: nat, number: nat, at: int)

  datatype Outcome = Outcome(status: Status, retryAt: Option<int>)

  type Rows = seq<Delivery>

  // ---- the statements, on values ----

  predicate Claimable(rows: Rows, id: nat, now: int) {
    && id < |rows|
    && (rows[id].status == Pending || rows[id].status == Failed)
    && rows[id].nextAttemptAt <= now
  }

  ghost function ClaimableIds(rows: Rows, now: int): set<nat> {
    set i: nat | i < |rows| && Claimable(rows, i, now)
  }

  function NextAttempt(rows: Rows): nat -> int {
    (i: nat) => if i < |rows| then rows[i].nextAttemptAt else 0
  }

  /** claim_due on the selected rows. */
  function Claimed(rows: Rows, ids: seq<nat>, worker: nat, now: int): (r: Rows)
    ensures |r| == |rows|
    ensures forall i | 0 <= i < |rows| ::
      r[i] == if i in ids then rows[i].(status := Processing, lock := Some(Lock(now, worker))) else rows[i]
  {
    seq(|rows|, i requires 0 <= i < |rows| =>
      if i in ids then rows[i].(status := Processing, lock := Some(Lock(now, worker))) else rows[i])
  }

  predicate Overdue(d: Delivery, cutoff: int) {
    d.status == Processing && (d.lock.None? || d.lock.value.at < cutoff)
  }

  /** recover_stale_locks. */
  function Recovered(rows: Rows, cutoff: int, now: int): (r: Rows)
    ensures |r| == |rows|
    ensures forall i | 0 <= i < |rows| ::
      r[i] == if Overdue(rows[i], cutoff)
              then rows[i].(status := Pending, lock := None, nextAttemptAt := now) else rows[i]
  {
    seq(|rows|, i requires 0 <= i < |rows| =>
      if Overdue(rows[i], cutoff) then rows[i].(status := Pending, lock := None, nextAttemptAt := now)
      else rows[i])
  }

  /** The rowcount of the recovery update. */
  function CountOverdue(rows: Rows, cutoff: int): nat {
    if rows == [] then 0
    else CountOverdue(rows[..|rows|-1], cutoff) + if Overdue(rows[|rows|-1], cutoff) then 1 else 0
  }

  /** record_attempt_and_update on the row; whoever calls it, the lock is dropped. */
  function AfterAttempt(d: Delivery, number: nat, at: int, outcome: Outcome): Delivery {
    var base := d.(attempts := number, lastAttemptAt := Some(at),
                   firstAttemptAt := if d.firstAttemptAt.None? then Some(at) else d.firstAttemptAt,
                   status := outcome.status, lock := None);
    if outcome.status == Delivered then base.(deliveredAt := Some(at), nextAttemptAt := at)
    else if outcome.status == Exhausted then base.(exhaustedAt := Some(at), nextAttemptAt := at)
    else if outcome.retryAt.Some? then base.(nextAttemptAt := outcome.retryAt.value)
    else base
  }

  predicate Retriable(d: Delivery) {
    d.status == Failed || d.status == Exhausted
  }

  /** schedule_manual_retry on an allowed row. */
  function Rescheduled(d: Delivery, now: int): Delivery {
    d.(status := Pending, nextAttemptAt := now, lock := None, exhaustedAt := None)
  }

  function NewDelivery(key: nat, nextAttemptAt: int): Delivery {
    Delivery(key, Pending, 0, nextAttemptAt, None, None, None, None, None)
  }

  predicate HasKey(rows: Rows, key: nat) {
    exists i | 0 <= i < |rows| :: rows[i].key == key
  }

  predicate InTable(rows: Rows, ids: seq<nat>) {
    forall i | 0 <= i < |ids| :: ids[i] < |rows|
  }

  lemma ClaimedSnoc(rows: Rows, ids: seq<nat>, k: nat, worker: nat, now: int)
    requires k < |ids| && ids[k] < |rows|
    ensures var before := Claimed(rows, ids[..k], worker, now);
            Claimed(rows, ids[..k+1], worker, now)
              == before[ids[k] := before[ids[k]].(status := Processing, lock := Some(Lock(now, worker)))]
  {
  }

  lemma SelectionInTable(rows: Rows, now: int, limit: nat, ids: seq<nat>)
    requires IsSelection(ids, ClaimableIds(rows, now), NextAttempt(rows), limit)
    ensures InTable(rows, ids)
  {
    SelectionIsDistinct(ids, ClaimableIds(rows, now));
  }

  // ---- the repository ----

  class DeliveryRepository {
    var rows: Rows
    var attempts: seq<Attempt>

    constructor ()
      ensures rows == [] && attempts == []
    {
      rows, attempts := [], [];
    }

    /** None when the idempotency key is already there. */
    method CreateIfAbsent(key: nat, nextAttemptAt: int) returns (id: Option<nat>)
      modifies this
      ensures attempts == old(attempts)
      ensures if HasKey(old(rows), key) then id == None && rows == old(rows)
              else id == Some(|old(rows)|) && rows == old(rows) + [NewDelivery(key, nextAttemptAt)]
    {
      for i := 0 to |rows|
        invariant forall k | 0 <= k < i :: rows[k].key != key
        invariant rows == old(rows) && attempts == old(attempts)
      {
        if rows[i].key == key { return None; }
      }
      id := Some(|rows|);
      rows := rows + [NewDelivery(key, nextAttemptAt)];
    }

    /** The SELECT of claim_due; an uncontended FOR UPDATE SKIP LOCKED skips nothing. */
    method SelectDue(batchSize: nat, now: int) returns (ids: seq<nat>)
      ensures IsSelection(ids, ClaimableIds(rows, now), NextAttempt(rows), batchSize)
      ensures InTable(rows, ids)
    {
      var due: seq<nat> := [];
      ghost var found: set<nat> := {};
      for i := 0 to |rows|
        invariant found == set k: nat | k < i && k in ClaimableIds(rows, now)
        invariant multiset(due) == multiset(found)
      {
        if Claimable(rows, i, now) { due, found := due + [i], found + {i}; }
      }
      assert found == ClaimableIds(rows, now);
      hide IsSelection, OrderByLimit;
      ids := OrderByLimit(due, NextAttempt(rows), batchSize);
      OrderByLimitSelects(due, found, NextAttempt(rows), batchSize);
      SelectionInTable(rows, now, batchSize, ids);
    }

    method ClaimDue(worker: nat, batchSize: nat, now: int) returns (ids: seq<nat>)
      modifies this
      ensures IsSelection(ids, ClaimableIds(old(rows), now), NextAttempt(old(rows)), batchSize)
      ensures rows == Claimed(old(rows), ids, worker, now) && attempts == old(attempts)
    {
      ids := SelectDue(batchSize, now);
      hide IsSelection, ClaimableIds, Claimable;
      assert Claimed(rows, [], worker, now) == rows;
      for k := 0 to |ids|
        invariant attempts == old(attempts)
        invariant rows == Claimed(old(rows), ids[..k], worker, now)
      {
        ClaimedSnoc(old(rows), ids, k, worker, now);
        rows := rows[ids[k] := rows[ids[k]].(status := Processing, lock := Some(Lock(now, worker)))];
      }
      assert ids[..|ids|] == ids;
    }

    /** The number of rows returned to PENDING. */
    method RecoverStaleLocks(lockTimeout: int, now: int) returns (count: nat)
      modifies this
      ensures rows == Recovered(old(rows), now - lockTimeout, now) && attempts == old(attempts)
      ensures count == CountOverdue(old(rows), now - lockTimeout)
    {
      var cutoff := now - lockTimeout;
      count := 0;
      for i := 0 to |rows|
        invariant attempts == old(attempts) && |rows| == |old(rows)|
        invariant forall k | 0 <= k < |rows| ::
          rows[k] == if k < i then Recovered(old(rows), cutoff, now)[k] else old(rows)[k]
        invariant count == CountOverdue(old(rows)[..i], cutoff)
      {
        assert old(rows)[..i+1][..i] == old(rows)[..i];
        if Overdue(rows[i], cutoff) {
          rows := rows[i := rows[i].(status := Pending, lock := None, nextAttemptAt := now)];
          count := count + 1;
        }
      }
      assert old(rows)[..|rows|] == old(rows);
    }

    /** `false` is LookupError. */
    method RecordAttempt(id: nat, number: nat, at: int, outcome: Outcome) returns (found: bool)
      modifies this
      ensures found == (id < |old(rows)|)
      ensures !found ==> rows == old(rows) && attempts == old(attempts)
      ensures found ==>
        && rows == old(rows)[id := AfterAttempt(old(rows)[id], number, at, outcome)]
        && attempts == old(attempts) + [Attempt(id, number, at)]
    {
      if id >= |rows| { return false; }
      attempts := attempts + [Attempt(id, number, at)];
      var d := rows[id].(attempts := number, lastAttemptAt := Some(at));
      if d.firstAttemptAt.None? { d := d.(firstAttemptAt := Some(at)); }
      d := d.(status := outcome.status, lock := None);
      if outcome.status == Delivered {
        d := d.(deliveredAt := Some(at), nextAttemptAt := at);
      } else if outcome.status == Exhausted {
        d := d.(exhaustedAt := Some(at), nextAttemptAt := at);
      } else if outcome.retryAt.Some? {
        d := d.(nextAttemptAt := outcome.retryAt.value);
      }
      rows := rows[id := d];
      return true;
    }

    /** `Some(false)` is the conflict error, `None` an unknown id. */
    method ScheduleManualRetry(id: nat, now: int) returns (done: Option<bool>)
      modifies this
      ensures attempts == old(attempts)
      ensures done == if id >= |old(rows)| then None else Some(Retriable(old(rows)[id]))
      ensures rows == if done == Some(true) then old(rows)[id := Rescheduled(old(rows)[id], now)] else old(rows)
    {
      if id >= |rows| { return None; }
      if rows[id].status != Failed && rows[id].status != Exhausted { return Some(false); }
      rows := rows[id := rows[id].(status := Pending, nextAttemptAt := now, lock := None, exhaustedAt := None)];
      return Some(true);
    }
  }
}
