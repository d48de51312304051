/** When a delivery may next be claimed, told from the history of the run instead of the row. */
module OutboxHistory {
  import opened Options
  import opened Sql
  import opened Outbox
  import opened OutboxRuns

  /** What the operations so far say of one delivery. `Waiting` has the time it was last given: by its
      enqueue, its failed record, a recovery or a manual retry. `Busy` keeps that time, as a failed
      record may bring none of its own. */
  datatype Tale =
    | Unknown
    | Waiting(at: int, failed: bool)
    | Busy(since: int, at: int)
    | Done(doneAt: int)
    | GivenUp(givenUpAt: int)

  function TimeOf(t: Tale): int {
    match t
    case Unknown => 0
    case Waiting(at, _) => at
    case Busy(_, at) => at
    case Done(at) => at
    case GivenUp(at) => at
  }

  /** One more operation; `count` is how many deliveries there were and `row` the one a record is for. */
  function Told(t: Tale, op: Op, id: nat, count: nat, isNew: bool, row: nat, timeout: int): Tale {
    match op
    case Enqueue(_, dueAt, _) => if isNew && id == count then Waiting(dueAt, false) else t
    case Claim(ids, _, now) => if id in ids then Busy(now, TimeOf(t)) else t
    case Recover(now) => if t.Busy? && now > t.since + timeout then Waiting(now, false) else t
    case Record(_, outcome, now) =>
      if row != id then t
      else if outcome.status == Delivered then Done(now)
      else if outcome.status == Exhausted then GivenUp(now)
      else Waiting(if outcome.retryAt.Some? then outcome.retryAt.value else TimeOf(t), true)
    case Retry(retried, now) =>
      if retried == id && (t.GivenUp? || (t.Waiting? && t.failed)) then Waiting(now, false) else t
  }

  /** The keys the run has enqueued. */
  ghost function Keys(ops: seq<Op>): set<nat> {
    set i | 0 <= i < |ops| && ops[i].Enqueue? :: ops[i].key
  }

  ghost function TaleOf(timeout: int, ops: seq<Op>, id: nat): Tale {
    if ops == [] then Unknown
    else
      var init, op := ops[..|ops|-1], ops[|ops|-1];
      var t, y := TaleOf(timeout, init, id), Exec(timeout, init);
      if !Allowed(y, op) then t
      else Told(t, op, id, |Keys(init)|, op.Enqueue? && op.key !in Keys(init),
                if op.Record? then y.leases[op.lease].row else 0, timeout)
  }

  /** When the delivery's attempts were recorded. */
  ghost function RecordTimes(timeout: int, ops: seq<Op>, id: nat): seq<int> {
    if ops == [] then []
    else
      var init, op := ops[..|ops|-1], ops[|ops|-1];
      var y := Exec(timeout, init);
      RecordTimes(timeout, init, id)
      + if op.Record? && Allowed(y, op) && y.leases[op.lease].row == id then [op.now] else []
  }

  /** The row's attempt counter and times. */
  predicate Stamped(d: Delivery, times: seq<int>) {
    && d.attempts == |times|
    && d.firstAttemptAt == (if times == [] then None else Some(times[0]))
    && d.lastAttemptAt == (if times == [] then None else Some(times[|times|-1]))
  }

  /** The row is as the tale has it. */
  predicate Tells(d: Delivery, t: Tale) {
    match t
    case Unknown => false
    case Waiting(at, failed) => d.status == (if failed then Failed else Pending) && d.nextAttemptAt == at
    case Busy(since, at) =>
      d.status == Processing && d.lock.Some? && d.lock.value.at == since && d.nextAttemptAt == at
    case Done(at) => d.status == Delivered && d.deliveredAt == Some(at) && d.nextAttemptAt == at
    case GivenUp(at) => d.status == Exhausted && d.exhaustedAt == Some(at) && d.nextAttemptAt == at
  }

  /** One key, one row. */
  ghost predicate KeysAreRows(rows: Rows, keys: set<nat>) {
    && |keys| == |rows| && (forall k :: k in keys <==> HasKey(rows, k))
  }

  ghost predicate Agrees(y: System, t: Tale, times: seq<int>, id: nat) {
    if id < |y.rows| then Tells(y.rows[id], t) && Stamped(y.rows[id], times) else t.Unknown? && times == []
  }

  lemma StepAgrees(y: System, op: Op, timeout: int, t: Tale, times: seq<int>, id: nat)
    requires WellFormed(y) && Allowed(y, op) && Meets(y, op) && Agrees(y, t, times, id)
    ensures var isNew := op.Enqueue? && !HasKey(y.rows, op.key);
            Agrees(Apply(y, op, timeout),
                   Told(t, op, id, |y.rows|, isNew, if op.Record? then y.leases[op.lease].row else 0, timeout),
                   times + (if op.Record? && y.leases[op.lease].row == id then [op.now] else []), id)
  {
    hide Held, Leases;
    if op.Claim? { ClaimedIds(y, op.ids, op.now); }
  }

  lemma StepKeys(y: System, op: Op, timeout: int, ops: seq<Op>)
    requires WellFormed(y) && Allowed(y, op) && KeysAreRows(y.rows, Keys(ops))
    ensures KeysAreRows(Apply(y, op, timeout).rows, Keys(ops + [op]))
  {
    KeysSnoc(ops, op);
    hide Keys;
    KeysOfRows(y, op, timeout);
  }

  lemma KeysSnoc(ops: seq<Op>, op: Op)
    ensures Keys(ops + [op]) == Keys(ops) + if op.Enqueue? then {op.key} else {}
  {
    var all := ops + [op];
    assert all[|ops|] == op;
    forall k | k in Keys(ops) ensures k in Keys(all) {
      var i :| 0 <= i < |ops| && ops[i].Enqueue? && ops[i].key == k;
      assert all[i] == ops[i];
    }
  }

  /** Only a new key makes a row. */
  lemma KeysOfRows(y: System, op: Op, timeout: int)
    requires WellFormed(y) && Allowed(y, op)
    ensures var rows, isNew := Apply(y, op, timeout).rows, op.Enqueue? && !HasKey(y.rows, op.key);
            && |rows| == |y.rows| + (if isNew then 1 else 0)
            && forall k :: HasKey(rows, k) <==> HasKey(y.rows, k) || (op.Enqueue? && k == op.key)
  {
    StepRows(y, op, timeout);
    var rows := Apply(y, op, timeout).rows;
    hide Apply;
    forall k | HasKey(y.rows, k) ensures HasKey(rows, k) {
      var i :| 0 <= i < |y.rows| && y.rows[i].key == k;
      assert rows[i].key == k;
    }
    if |rows| > |y.rows| { assert rows[|y.rows|].key == op.key; }
  }

  ghost predicate Account(timeout: int, ops: seq<Op>, id: nat) {
    && Agrees(Exec(timeout, ops), TaleOf(timeout, ops, id), RecordTimes(timeout, ops, id), id)
    && KeysAreRows(Exec(timeout, ops).rows, Keys(ops))
  }

  lemma TaleSnoc(timeout: int, ops: seq<Op>, op: Op, id: nat)
    ensures var t, y := TaleOf(timeout, ops, id), Exec(timeout, ops);
            TaleOf(timeout, ops + [op], id) ==
              if !Allowed(y, op) then t
              else Told(t, op, id, |Keys(ops)|, op.Enqueue? && op.key !in Keys(ops),
                        if op.Record? then y.leases[op.lease].row else 0, timeout)
    ensures var y := Exec(timeout, ops);
            RecordTimes(timeout, ops + [op], id) == RecordTimes(timeout, ops, id)
              + if op.Record? && Allowed(y, op) && y.leases[op.lease].row == id then [op.now] else []
  {
    hide Told, Keys;
    assert (ops + [op])[..|ops|] == ops;
  }

  lemma StepAccount(timeout: int, ops: seq<Op>, op: Op, id: nat)
    requires Account(timeout, ops, id) && Clean(timeout, ops + [op])
    ensures Account(timeout, ops + [op], id)
  {
    var y := Exec(timeout, ops);
    hide Apply, Allowed, Agrees, Told, Meets, Exec;
    TaleSnoc(timeout, ops, op, id);
    ExecSnoc(timeout, ops, op);
    CleanPrefix(timeout, ops, op);
    if Allowed(y, op) {
      StepAgrees(y, op, timeout, TaleOf(timeout, ops, id), RecordTimes(timeout, ops, id), id);
      StepKeys(y, op, timeout, ops);
    } else {
      NotAnEnqueue(y, op);
      assert RecordTimes(timeout, ops, id) + [] == RecordTimes(timeout, ops, id);
      KeysSnoc(ops, op);
    }
  }

  lemma NotAnEnqueue(y: System, op: Op)
    requires !Allowed(y, op)
    ensures !op.Enqueue?
  {
  }

  /** On clean runs every delivery is as its history tells, and there is one for each key. */
  lemma {:induction false} RowsAreAsTold(timeout: int, ops: seq<Op>, id: nat)
    requires Clean(timeout, ops)
    ensures Account(timeout, ops, id)
  {
    if ops == [] {
      assert Keys([]) == {};
    } else {
      var n := |ops| - 1;
      assert ops == ops[..n] + [ops[n]];
      CleanPrefix(timeout, ops[..n], ops[n]);
      RowsAreAsTold(timeout, ops[..n], id);
      StepAccount(timeout, ops[..n], ops[n], id);
    }
  }

  predicate IsDue(t: Tale, now: int) {
    t.Waiting? && t.at <= now
  }

  /** What claim_due may answer, read off the history: on clean runs, only deliveries that wait and whose
      time has come, all of them when the batch is large enough, and the earliest of them otherwise. */
  lemma ClaimsAreDue(timeout: int, ops: seq<Op>, now: int, batchSize: nat, ids: seq<nat>, id: nat, other: nat)
    requires Clean(timeout, ops)
    requires var rows := Exec(timeout, ops).rows;
             IsSelection(ids, ClaimableIds(rows, now), NextAttempt(rows), batchSize)
    ensures id in ids ==> IsDue(TaleOf(timeout, ops, id), now)
    ensures batchSize >= |Exec(timeout, ops).rows| ==> (id in ids <==> IsDue(TaleOf(timeout, ops, id), now))
    ensures id in ids && other !in ids && IsDue(TaleOf(timeout, ops, other), now) ==>
              TimeOf(TaleOf(timeout, ops, id)) <= TimeOf(TaleOf(timeout, ops, other))
  {
    var rows := Exec(timeout, ops).rows;
    RowsAreAsTold(timeout, ops, id);
    RowsAreAsTold(timeout, ops, other);
    DueIsClaimable(rows, TaleOf(timeout, ops, id), id, now);
    DueIsClaimable(rows, TaleOf(timeout, ops, other), other, now);
    hide IsSelection, Exec, TaleOf, Clean;
    SelectionTells(ids, ClaimableIds(rows, now), NextAttempt(rows), batchSize, |rows|, id, other);
  }

  lemma DueIsClaimable(rows: Rows, t: Tale, id: nat, now: int)
    requires if id < |rows| then Tells(rows[id], t) else t.Unknown?
    ensures id in ClaimableIds(rows, now) <==> IsDue(t, now)
    ensures IsDue(t, now) ==> NextAttempt(rows)(id) == TimeOf(t)
  {
  }

  // ---- recovered rows ----

  /** The rows a recovery takes from PROCESSING back to PENDING. */
  ghost function Returned(rows: Rows, cutoff: int, now: int): set<nat> {
    set i: nat | i < |rows| && rows[i].status == Processing && Recovered(rows, cutoff, now)[i].status == Pending
  }

  /** The count that a recovery answers with is the number of rows it returned. */
  lemma RecoveryCounts(rows: Rows, cutoff: int, now: int)
    ensures CountOverdue(rows, cutoff) == |Returned(rows, cutoff, now)|
  {
    OverdueCount(rows, cutoff);
    assert Returned(rows, cutoff, now) == OverdueIds(rows, cutoff);
  }

  ghost function OverdueIds(rows: Rows, cutoff: int): set<nat> {
    set i: nat | i < |rows| && Overdue(rows[i], cutoff)
  }

  lemma {:induction false} OverdueCount(rows: Rows, cutoff: int)
    ensures CountOverdue(rows, cutoff) == |OverdueIds(rows, cutoff)|
  {
    if rows != [] {
      var n := |rows| - 1;
      OverdueCount(rows[..n], cutoff);
      var before := OverdueIds(rows[..n], cutoff);
      assert OverdueIds(rows, cutoff) == if Overdue(rows[n], cutoff) then before + {n} else before;
    }
  }
}
