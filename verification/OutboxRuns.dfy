/** The outbox as a lease protocol between workers, over any interleaving and under any clock. */
module OutboxRuns {
  import opened Options
  import opened Outbox

  /** A claim some worker is processing; `attempts` is what the claimed record showed. */
  datatype Lease = Lease(row: nat, worker: nat, at: int, attempts: nat, recorded: bool)

  /** The tables, every claim ever made, and which claim each PROCESSING row is under. */
  datatype System = System(rows: Rows, attempts: seq<Attempt>, leases: seq<Lease>,
                           holder: map<nat, nat>, clock: int)

  datatype Op =
    | Enqueue(key: nat, dueAt: int, now: int)
    | Claim(ids: seq<nat>, worker: nat, now: int)
    | Recover(now: int)
    | Record(lease: nat, outcome: Outcome, now: int)
    | Retry(id: nat, now: int)

  /** Each claim is recorded at most once, with the status a worker sets. */
  ghost predicate Allowed(y: System, op: Op) {
    match op
    case Claim(ids, _, now) => multiset(ids) <= multiset(ClaimableIds(y.rows, now))
    case Record(c, outcome, _) =>
      c < |y.leases| && !y.leases[c].recorded && outcome.status in {Delivered, Failed, Exhausted}
    case _ => true
  }

  function Leases(rows: Rows, ids: seq<nat>, worker: nat, now: int): (r: seq<Lease>)
    requires forall i | 0 <= i < |ids| :: ids[i] < |rows|
    ensures |r| == |ids|
  {
    seq(|ids|, i requires 0 <= i < |ids| => Lease(ids[i], worker, now, rows[ids[i]].attempts, false))
  }

  ghost function Held(holder: map<nat, nat>, ids: seq<nat>, first: nat): map<nat, nat> {
    map r | r in holder.Keys + set i | 0 <= i < |ids| :: ids[i]
      :: if r in ids then first + IndexOf(ids, r) else holder[r]
  }

  function IndexOf(ids: seq<nat>, r: nat): (k: nat)
    requires r in ids
    ensures k < |ids| && ids[k] == r
  {
    if ids[0] == r then 0 else 1 + IndexOf(ids[1..], r)
  }

  ghost function Apply(y: System, op: Op, timeout: int): System
    requires Allowed(y, op) && WellFormed(y)
  {
    match op
    case Enqueue(key, dueAt, now) =>
      y.(rows := if HasKey(y.rows, key) then y.rows else y.rows + [NewDelivery(key, dueAt)], clock := now)
    case Claim(ids, worker, now) =>
      ClaimedIds(y, ids, now);
      System(Claimed(y.rows, ids, worker, now), y.attempts, y.leases + Leases(y.rows, ids, worker, now),
             Held(y.holder, ids, |y.leases|), now)
    case Recover(now) =>
      y.(rows := Recovered(y.rows, now - timeout, now), clock := now,
         holder := map r | r in y.holder && !(r < |y.rows| && Overdue(y.rows[r], now - timeout)) :: y.holder[r])
    case Record(c, outcome, now) =>
      var l := y.leases[c];
      System(y.rows[l.row := AfterAttempt(y.rows[l.row], l.attempts + 1, now, outcome)],
             y.attempts + [Attempt(l.row, l.attempts + 1, now)],
             y.leases[c := l.(recorded := true)], y.holder - {l.row}, now)
    case Retry(id, now) =>
      if id < |y.rows| && Retriable(y.rows[id]) then
        y.(rows := y.rows[id := Rescheduled(y.rows[id], now)], holder := y.holder - {id}, clock := now)
      else y.(clock := now)
  }

  predicate WellFormed(y: System) {
    forall c | 0 <= c < |y.leases| :: y.leases[c].row < |y.rows|
  }

  lemma ClaimedIds(y: System, ids: seq<nat>, now: int)
    requires multiset(ids) <= multiset(ClaimableIds(y.rows, now))
    ensures forall i | 0 <= i < |ids| :: ids[i] < |y.rows| && Claimable(y.rows, ids[i], now)
    ensures Sql.Distinct(ids)
  {
    Sql.SelectionIsDistinct(ids, ClaimableIds(y.rows, now));
  }

  lemma ApplyWellFormed(y: System, op: Op, timeout: int)
    requires Allowed(y, op) && WellFormed(y)
    ensures WellFormed(Apply(y, op, timeout))
    ensures |Apply(y, op, timeout).rows| >= |y.rows|
  {
    if op.Claim? { ClaimedIds(y, op.ids, op.now); }
  }

  /** Any interleaving; an operation that is not allowed is not taken. */
  ghost function Exec(timeout: int, ops: seq<Op>): (y: System)
    ensures WellFormed(y)
  {
    if ops == [] then System([], [], [], map[], 0)
    else
      var y := Exec(timeout, ops[..|ops|-1]);
      var op := ops[|ops|-1];
      if Allowed(y, op) then ApplyWellFormed(y, op, timeout); Apply(y, op, timeout)
      else y
  }

  // ---- how a claim loses its row ----

  /** A recovery meets the claim after its lease is overdue. */
  predicate Takes(y: System, op: Op, c: nat, timeout: int) {
    op.Recover? && c < |y.leases| && op.now > y.leases[c].at + timeout
  }

  /** Another claim on the same row is recorded. */
  ghost predicate Overrides(y: System, op: Op, c: nat) {
    op.Record? && Allowed(y, op) && op.lease != c && c < |y.leases| && y.leases[op.lease].row == y.leases[c].row
  }

  /** Some recovery of the run has taken the claim. */
  ghost predicate Taken(timeout: int, ops: seq<Op>, c: nat) {
    ops != []
    && (|| Taken(timeout, ops[..|ops|-1], c)
        || Takes(Exec(timeout, ops[..|ops|-1]), ops[|ops|-1], c, timeout))
  }

  /** Some recovery has taken the claim, or another claim on its row was recorded since. */
  ghost predicate Lost(timeout: int, ops: seq<Op>, c: nat) {
    ops != []
    && (|| Lost(timeout, ops[..|ops|-1], c)
        || Takes(Exec(timeout, ops[..|ops|-1]), ops[|ops|-1], c, timeout)
        || Overrides(Exec(timeout, ops[..|ops|-1]), ops[|ops|-1], c))
  }

  lemma ExecSnoc(timeout: int, ops: seq<Op>, op: Op)
    ensures var y := Exec(timeout, ops);
            Exec(timeout, ops + [op]) == if Allowed(y, op) then Apply(y, op, timeout) else y
    ensures forall c: nat :: Taken(timeout, ops + [op], c) <==>
              Taken(timeout, ops, c) || Takes(Exec(timeout, ops), op, c, timeout)
  {
    assert (ops + [op])[..|ops|] == ops;
  }

  /** The row is PROCESSING under exactly this claim. */
  predicate Holds(y: System, c: nat)
    requires c < |y.leases| && y.leases[c].row < |y.rows|
  {
    var l := y.leases[c];
    && y.rows[l.row].status == Processing
    && y.rows[l.row].lock == Some(Lock(l.at, l.worker))
    && l.row in y.holder && y.holder[l.row] == c
    && y.rows[l.row].attempts == l.attempts
  }

  predicate Owns(y: System, c: nat)
    requires c < |y.leases|
  {
    y.leases[c].row in y.holder && y.holder[y.leases[c].row] == c
  }

  predicate Unrecorded(y: System, c: nat) {
    c < |y.leases| && !y.leases[c].recorded
  }

  /** A lost claim never owns its row again; any other holds it. */
  ghost predicate Settled(y: System, c: nat, lost: bool)
    requires WellFormed(y)
  {
    Unrecorded(y, c) ==> if lost then !Owns(y, c) else Holds(y, c)
  }

  lemma ClaimSettles(y: System, op: Op, timeout: int, c: nat, lost: bool)
    requires op.Claim? && WellFormed(y) && Allowed(y, op) && Settled(y, c, lost)
    requires lost ==> c < |y.leases|
    ensures WellFormed(Apply(y, op, timeout)) && Settled(Apply(y, op, timeout), c, lost)
  {
    var y' := Apply(y, op, timeout);
    ClaimedIds(y, op.ids, op.now);
    ApplyWellFormed(y, op, timeout);
    hide Claimed, Held, Leases;
    if c < |y.leases| {
      OldClaimSettles(y, op, timeout, c, lost);
    } else if c < |y'.leases| {
      var k := c - |y.leases|;
      assert y'.leases[c] == Leases(y.rows, op.ids, op.worker, op.now)[k];
      NewLeaseHolds(y, op.ids, op.worker, op.now, k);
    }
  }

  lemma OldClaimSettles(y: System, op: Op, timeout: int, c: nat, lost: bool)
    requires op.Claim? && WellFormed(y) && Allowed(y, op) && Settled(y, c, lost) && c < |y.leases|
    requires WellFormed(Apply(y, op, timeout))
    ensures Settled(Apply(y, op, timeout), c, lost)
  {
    var row := y.leases[c].row;
    ClaimedIds(y, op.ids, op.now);
    assert Apply(y, op, timeout).leases[c] == y.leases[c];
    assert row !in op.ids ==> Claimed(y.rows, op.ids, op.worker, op.now)[row] == y.rows[row];
    assert row in op.ids ==> Claimable(y.rows, row, op.now);
    hide Claimed, Held, Leases, ClaimableIds;
    HeldElsewhere(y.holder, op.ids, |y.leases|, row);
  }

  lemma HeldElsewhere(holder: map<nat, nat>, ids: seq<nat>, first: nat, row: nat)
    ensures var held := Held(holder, ids, first);
            && (row !in ids ==> (row in held <==> row in holder) && (row in holder ==> held[row] == holder[row]))
            && (row in ids ==> row in held && held[row] >= first)
  {
  }

  lemma NewLeaseHolds(y: System, ids: seq<nat>, worker: nat, now: int, k: nat)
    requires k < |ids| && Sql.Distinct(ids) && forall i | 0 <= i < |ids| :: ids[i] < |y.rows|
    ensures var l := Leases(y.rows, ids, worker, now)[k];
            var row := Claimed(y.rows, ids, worker, now)[ids[k]];
            var held := Held(y.holder, ids, |y.leases|);
            && l.row == ids[k] && l.at == now && l.worker == worker && l.attempts == row.attempts
            && row.status == Processing && row.lock == Some(Lock(now, worker))
            && ids[k] in held && held[ids[k]] == |y.leases| + k
  {
  }

  lemma OtherStepsSettle(y: System, op: Op, timeout: int, c: nat, lost: bool)
    requires !op.Claim? && WellFormed(y) && Allowed(y, op) && Settled(y, c, lost)
    ensures WellFormed(Apply(y, op, timeout))
    ensures Settled(Apply(y, op, timeout), c, lost || Takes(y, op, c, timeout) || Overrides(y, op, c))
  {
    ApplyWellFormed(y, op, timeout);
  }

  lemma {:induction false} LostIsClaimed(timeout: int, ops: seq<Op>, c: nat)
    requires Lost(timeout, ops, c)
    ensures c < |Exec(timeout, ops).leases|
  {
    if Lost(timeout, ops[..|ops|-1], c) { LostIsClaimed(timeout, ops[..|ops|-1], c); }
  }

  lemma {:induction false} RunSettles(timeout: int, ops: seq<Op>, c: nat)
    ensures Settled(Exec(timeout, ops), c, Lost(timeout, ops, c))
  {
    if ops != [] {
      var y, op := Exec(timeout, ops[..|ops|-1]), ops[|ops|-1];
      var lost := Lost(timeout, ops[..|ops|-1], c);
      RunSettles(timeout, ops[..|ops|-1], c);
      if lost { LostIsClaimed(timeout, ops[..|ops|-1], c); }
      hide Settled, Apply;
      if Allowed(y, op) {
        if op.Claim? { ClaimSettles(y, op, timeout, c, lost); } else { OtherStepsSettle(y, op, timeout, c, lost); }
      }
    }
  }

  // ---- the theorems ----

  /** On every run an unrecorded claim holds its row exactly until it is lost. */
  lemma HoldsExactlyUntilLost(timeout: int, ops: seq<Op>, c: nat)
    requires Unrecorded(Exec(timeout, ops), c)
    ensures Holds(Exec(timeout, ops), c) <==> !Lost(timeout, ops, c)
  {
    RunSettles(timeout, ops, c);
  }

  /** No row has two claims that are neither recorded nor lost. */
  lemma LeasesAreExclusive(timeout: int, ops: seq<Op>, a: nat, b: nat)
    requires Unrecorded(Exec(timeout, ops), a) && !Lost(timeout, ops, a)
    requires Unrecorded(Exec(timeout, ops), b) && !Lost(timeout, ops, b)
    ensures Exec(timeout, ops).leases[a].row == Exec(timeout, ops).leases[b].row ==> a == b
  {
    HoldsExactlyUntilLost(timeout, ops, a);
    HoldsExactlyUntilLost(timeout, ops, b);
  }

  /** Recovery takes a holding claim's row from it exactly when the lease is overdue. */
  lemma RecoveryTakesOverdue(timeout: int, ops: seq<Op>, c: nat, now: int)
    requires Unrecorded(Exec(timeout, ops), c) && !Lost(timeout, ops, c)
    ensures var y := Exec(timeout, ops);
            var after := Recovered(y.rows, now - timeout, now)[y.leases[c].row];
            after.status != Processing <==> now > y.leases[c].at + timeout
  {
    HoldsExactlyUntilLost(timeout, ops, c);
  }

  /** No record of the run was made under a claim that a recovery had taken. */
  ghost predicate Clean(timeout: int, ops: seq<Op>) {
    if ops == [] then true
    else
      var init, op := ops[..|ops|-1], ops[|ops|-1];
      && Clean(timeout, init)
      && (op.Record? && Allowed(Exec(timeout, init), op) ==> !Taken(timeout, init, op.lease))
  }

  /** Every record of the run met its row still PROCESSING under its own claim. */
  ghost predicate AllMeet(timeout: int, ops: seq<Op>) {
    if ops == [] then true
    else
      var init, op := ops[..|ops|-1], ops[|ops|-1];
      && AllMeet(timeout, init)
      && (op.Record? && Allowed(Exec(timeout, init), op) ==> Holds(Exec(timeout, init), op.lease))
  }

  /** While records keep to untaken claims, recovery is the only way to lose a row. */
  lemma {:induction false} LostIsTaken(timeout: int, ops: seq<Op>, c: nat)
    requires Clean(timeout, ops) && Unrecorded(Exec(timeout, ops), c)
    ensures Lost(timeout, ops, c) <==> Taken(timeout, ops, c)
  {
    if ops != [] {
      var init, op := ops[..|ops|-1], ops[|ops|-1];
      var y := Exec(timeout, init);
      if c < |y.leases| {
        LostIsTaken(timeout, init, c);
        if Overrides(y, op, c) {
          LostIsTaken(timeout, init, op.lease);
          if !Lost(timeout, init, c) { LeasesAreExclusive(timeout, init, c, op.lease); }
        }
      } else {
        TakenIsLost(timeout, init, c);
        if Lost(timeout, init, c) { LostIsClaimed(timeout, init, c); }
      }
    }
  }

  lemma {:induction false} TakenIsLost(timeout: int, ops: seq<Op>, c: nat)
    ensures Taken(timeout, ops, c) ==> Lost(timeout, ops, c)
  {
    if ops != [] { TakenIsLost(timeout, ops[..|ops|-1], c); }
  }

  /** A record meets its row still PROCESSING under its own claim if and only if no recovery has
      taken the claim, however late it is, when the records before it met theirs. */
  lemma RecordMeetsItsClaim(timeout: int, ops: seq<Op>, op: Op)
    requires op.Record? && Allowed(Exec(timeout, ops), op) && Clean(timeout, ops)
    ensures Holds(Exec(timeout, ops), op.lease) <==> !Taken(timeout, ops, op.lease)
  {
    HoldsExactlyUntilLost(timeout, ops, op.lease);
    LostIsTaken(timeout, ops, op.lease);
  }

  /** The exact condition for a safe run: all records meet their claims if and only if none is made
      under a claim that a recovery had taken. */
  lemma {:induction false} SafeExactlyWhenClean(timeout: int, ops: seq<Op>)
    ensures AllMeet(timeout, ops) <==> Clean(timeout, ops)
  {
    if ops != [] {
      SafeExactlyWhenClean(timeout, ops[..|ops|-1]);
      hide Holds, Taken, Apply;
      var y, op := Exec(timeout, ops[..|ops|-1]), ops[|ops|-1];
      if Clean(timeout, ops[..|ops|-1]) && op.Record? && Allowed(y, op) {
        RecordMeetsItsClaim(timeout, ops[..|ops|-1], op);
      }
    }
  }

  // ---- a sufficient discipline: records within the timeout ----

  /** Clocks do not go back, and a record is no later than the timeout. */
  predicate Timely(y: System, op: Op, timeout: int) {
    && op.now >= y.clock
    && (op.Record? && op.lease < |y.leases| ==> op.now <= y.leases[op.lease].at + timeout)
  }

  ghost predicate TimelyRun(timeout: int, ops: seq<Op>) {
    ops == [] ||
    (TimelyRun(timeout, ops[..|ops|-1]) && Timely(Exec(timeout, ops[..|ops|-1]), ops[|ops|-1], timeout))
  }

  predicate Live(y: System, c: nat, timeout: int) {
    Unrecorded(y, c) && y.clock <= y.leases[c].at + timeout
  }

  /** A claim taken by a recovery is past its timeout from then on. */
  lemma {:induction false} TakenIsPast(timeout: int, ops: seq<Op>, c: nat)
    requires TimelyRun(timeout, ops) && Taken(timeout, ops, c)
    ensures c < |Exec(timeout, ops).leases| && Exec(timeout, ops).clock > Exec(timeout, ops).leases[c].at + timeout
  {
    if Taken(timeout, ops[..|ops|-1], c) { TakenIsPast(timeout, ops[..|ops|-1], c); }
  }

  lemma {:induction false} TimelyIsClean(timeout: int, ops: seq<Op>)
    requires TimelyRun(timeout, ops)
    ensures Clean(timeout, ops)
  {
    if ops != [] {
      var init, op := ops[..|ops|-1], ops[|ops|-1];
      TimelyIsClean(timeout, init);
      if op.Record? && Allowed(Exec(timeout, init), op) && Taken(timeout, init, op.lease) {
        TakenIsPast(timeout, init, op.lease);
        assert false;
      }
    }
  }

  /** On timely runs every unexpired unrecorded claim holds its row. */
  lemma RunIsSafe(timeout: int, ops: seq<Op>)
    requires TimelyRun(timeout, ops)
    ensures AllMeet(timeout, ops)
    ensures forall c: nat | Live(Exec(timeout, ops), c, timeout) :: Holds(Exec(timeout, ops), c)
  {
    TimelyIsClean(timeout, ops);
    SafeExactlyWhenClean(timeout, ops);
    forall c: nat | Live(Exec(timeout, ops), c, timeout) ensures Holds(Exec(timeout, ops), c) {
      HoldsExactlyUntilLost(timeout, ops, c);
      LostIsTaken(timeout, ops, c);
      if Taken(timeout, ops, c) { TakenIsPast(timeout, ops, c); }
    }
  }

  // ---- what clean runs keep ----

  /** A record that meets its claim; every other operation is free. */
  ghost predicate Meets(y: System, op: Op)
    requires WellFormed(y) && Allowed(y, op)
  {
    op.Record? ==> Holds(y, op.lease)
  }

  lemma CleanStep(timeout: int, ops: seq<Op>)
    requires Clean(timeout, ops) && ops != []
    ensures var y := Exec(timeout, ops[..|ops|-1]);
            Clean(timeout, ops[..|ops|-1]) && (Allowed(y, ops[|ops|-1]) ==> Meets(y, ops[|ops|-1]))
  {
    SafeExactlyWhenClean(timeout, ops);
  }

  lemma CleanPrefix(timeout: int, ops: seq<Op>, op: Op)
    requires Clean(timeout, ops + [op])
    ensures Clean(timeout, ops) && (Allowed(Exec(timeout, ops), op) ==> Meets(Exec(timeout, ops), op))
  {
    assert (ops + [op])[..|ops|] == ops;
    CleanStep(timeout, ops + [op]);
  }

  /** A delivered row is never touched again. */
  lemma {:induction false} DeliveredIsAbsorbing(timeout: int, ops: seq<Op>, more: seq<Op>, id: nat)
    requires Clean(timeout, ops + more)
    requires id < |Exec(timeout, ops).rows| && Exec(timeout, ops).rows[id].status == Delivered
    ensures id < |Exec(timeout, ops + more).rows|
    ensures Exec(timeout, ops + more).rows[id] == Exec(timeout, ops).rows[id]
  {
    hide *;
    if more == [] {
      assert ops + more == ops;
    } else {
      var n := |more| - 1;
      var y, op := Exec(timeout, ops + more[..n]), more[n];
      SplitLast(ops, more);
      CleanPrefix(timeout, ops + more[..n], op);
      DeliveredIsAbsorbing(timeout, ops, more[..n], id);
      ExecSnoc(timeout, ops + more[..n], op);
      if Allowed(y, op) { DeliveredStays(y, op, timeout, id); }
    }
  }

  lemma SplitLast(a: seq<Op>, b: seq<Op>)
    requires b != []
    ensures a + b == a + b[..|b|-1] + [b[|b|-1]]
  {
  }

  lemma DeliveredStays(y: System, op: Op, timeout: int, id: nat)
    requires WellFormed(y) && Allowed(y, op) && Meets(y, op)
    requires id < |y.rows| && y.rows[id].status == Delivered
    ensures var y' := Apply(y, op, timeout);
            id < |y'.rows| && y'.rows[id] == y.rows[id]
  {
    if op.Claim? {
      ClaimedIds(y, op.ids, op.now);
      assert id !in op.ids;
    }
  }

  // ---- attempt numbers ----

  function AttemptsOf(attempts: seq<Attempt>, id: nat): nat {
    if attempts == [] then 0
    else AttemptsOf(attempts[..|attempts|-1], id) + if attempts[|attempts|-1].delivery == id then 1 else 0
  }

  ghost predicate CountersMatch(rows: Rows, attempts: seq<Attempt>) {
    forall id: nat | id < |rows| :: rows[id].attempts == AttemptsOf(attempts, id)
  }

  ghost predicate InSequence(attempts: seq<Attempt>, bound: nat) {
    forall k | 0 <= k < |attempts| ::
      attempts[k].delivery < bound && attempts[k].number == AttemptsOf(attempts[..k], attempts[k].delivery) + 1
  }

  /** A row's counter is the number of its attempt rows, which are numbered 1, 2, 3, ... */
  ghost predicate Numbered(y: System) {
    CountersMatch(y.rows, y.attempts) && InSequence(y.attempts, |y.rows|)
  }

  lemma {:induction false} AttemptsNumbered(timeout: int, ops: seq<Op>)
    requires Clean(timeout, ops)
    ensures Numbered(Exec(timeout, ops))
  {
    if ops != [] {
      var y, op := Exec(timeout, ops[..|ops|-1]), ops[|ops|-1];
      CleanStep(timeout, ops);
      AttemptsNumbered(timeout, ops[..|ops|-1]);
      hide Clean, Numbered, Apply;
      if Allowed(y, op) { StepNumbered(y, op, timeout); }
    } else {
      assert Numbered(Exec(timeout, ops));
    }
  }

  /** Every step keeps the rows it has, key and all; only an enqueue adds one, under a new key. */
  lemma StepRows(y: System, op: Op, timeout: int)
    requires Allowed(y, op) && WellFormed(y)
    ensures var rows := Apply(y, op, timeout).rows;
            && (forall i | 0 <= i < |y.rows| :: rows[i].key == y.rows[i].key
                 && (!op.Record? ==> rows[i].attempts == y.rows[i].attempts))
            && (|rows| == |y.rows| || (op.Enqueue? && !HasKey(y.rows, op.key)
                 && rows == y.rows + [NewDelivery(op.key, op.dueAt)]))
            && (!op.Record? ==> Apply(y, op, timeout).attempts == y.attempts)
  {
  }

  lemma StepNumbered(y: System, op: Op, timeout: int)
    requires WellFormed(y) && Allowed(y, op) && Meets(y, op) && Numbered(y)
    ensures Numbered(Apply(y, op, timeout))
  {
    if op.Record? {
      RecordNumbered(y, op, timeout);
    } else {
      StepRows(y, op, timeout);
      hide Apply, Allowed, WellFormed, Meets;
      RowsNumbered(y.rows, Apply(y, op, timeout).rows, y.attempts);
    }
  }

  lemma RecordNumbered(y: System, op: Op, timeout: int)
    requires WellFormed(y) && Allowed(y, op) && Meets(y, op) && Numbered(y) && op.Record?
    ensures Numbered(Apply(y, op, timeout))
  {
    hide AttemptsOf, CountersMatch, InSequence;
    var l := y.leases[op.lease];
    AttemptNumbered(y.rows, y.attempts, l.row, AfterAttempt(y.rows[l.row], l.attempts + 1, op.now, op.outcome),
                    op.now);
  }

  /** Keeping every row's counter, and adding at most one row without attempts. */
  lemma RowsNumbered(rows: Rows, rows': Rows, attempts: seq<Attempt>)
    requires CountersMatch(rows, attempts) && InSequence(attempts, |rows|)
    requires |rows| <= |rows'| <= |rows| + 1 && forall i | 0 <= i < |rows| :: rows'[i].attempts == rows[i].attempts
    requires |rows'| > |rows| ==> rows'[|rows|].attempts == 0
    ensures CountersMatch(rows', attempts) && InSequence(attempts, |rows'|)
  {
    NoAttemptsYet(attempts, |rows|);
    hide AttemptsOf;
  }

  lemma AttemptNumbered(rows: Rows, attempts: seq<Attempt>, row: nat, d: Delivery, now: int)
    requires CountersMatch(rows, attempts) && InSequence(attempts, |rows|)
    requires row < |rows| && d.attempts == rows[row].attempts + 1
    ensures CountersMatch(rows[row := d], attempts + [Attempt(row, d.attempts, now)])
    ensures InSequence(attempts + [Attempt(row, d.attempts, now)], |rows|)
  {
    var after := attempts + [Attempt(row, d.attempts, now)];
    forall id ensures AttemptsOf(after, id) == AttemptsOf(attempts, id) + if id == row then 1 else 0 {
      assert after[..|attempts|] == attempts;
    }
    hide AttemptsOf;
    forall k | 0 <= k < |after|
      ensures after[k].delivery < |rows| && after[k].number == AttemptsOf(after[..k], after[k].delivery) + 1
    {
      assert after[..k] == attempts[..k];
      assert attempts[..|attempts|] == attempts;
    }
  }

  lemma {:induction false} NoAttemptsYet(attempts: seq<Attempt>, id: nat)
    requires forall k | 0 <= k < |attempts| :: attempts[k].delivery < id
    ensures AttemptsOf(attempts, id) == 0
  {
    if attempts != [] { NoAttemptsYet(attempts[..|attempts|-1], id); }
  }

  // ---- status and dates ----

  /** A row is locked exactly while PROCESSING, and its dates say what its status says. */
  predicate Dated(d: Delivery, clock: int) {
    && (d.lock.Some? <==> d.status == Processing)
    && (d.lock.Some? ==> d.lock.value.at <= clock)
    && (d.deliveredAt.Some? <==> d.status == Delivered)
    && (d.exhaustedAt.Some? <==> d.status == Exhausted)
    && (d.attempts > 0 <==> d.lastAttemptAt.Some?)
    && (d.lastAttemptAt.Some? <==> d.firstAttemptAt.Some?)
    && (d.lastAttemptAt.Some? ==> d.firstAttemptAt.value <= d.lastAttemptAt.value <= clock)
  }

  ghost predicate AllDated(rows: Rows, clock: int) {
    forall i | 0 <= i < |rows| :: Dated(rows[i], clock)
  }

  lemma StepDated(y: System, op: Op, timeout: int)
    requires WellFormed(y) && Allowed(y, op) && Meets(y, op) && op.now >= y.clock && AllDated(y.rows, y.clock)
    ensures var y' := Apply(y, op, timeout); AllDated(y'.rows, y'.clock)
  {
    var y' := Apply(y, op, timeout);
    if op.Claim? { ClaimedIds(y, op.ids, op.now); }
    forall i | 0 <= i < |y'.rows| ensures Dated(y'.rows[i], y'.clock) {
      if i < |y.rows| { assert Dated(y.rows[i], y.clock); }
    }
  }

  /** The clock of the run never goes back. */
  ghost predicate Forward(timeout: int, ops: seq<Op>) {
    ops == [] || (Forward(timeout, ops[..|ops|-1]) && ops[|ops|-1].now >= Exec(timeout, ops[..|ops|-1]).clock)
  }

  /** On clean runs the rows' locks, dates and counters agree with their status. */
  lemma {:induction false} RowsAreDated(timeout: int, ops: seq<Op>)
    requires Clean(timeout, ops) && Forward(timeout, ops)
    ensures AllDated(Exec(timeout, ops).rows, Exec(timeout, ops).clock)
  {
    if ops != [] {
      var y, op := Exec(timeout, ops[..|ops|-1]), ops[|ops|-1];
      CleanStep(timeout, ops);
      RowsAreDated(timeout, ops[..|ops|-1]);
      hide Clean, AllDated, Apply;
      if Allowed(y, op) { StepDated(y, op, timeout); }
    }
  }

  // ---- idempotency keys ----

  ghost predicate DistinctKeys(rows: Rows) {
    forall i, j | 0 <= i < j < |rows| :: rows[i].key != rows[j].key
  }

  lemma KeysStep(before: Rows, after: Rows, added: Delivery)
    requires DistinctKeys(before) && |after| >= |before|
    requires forall i | 0 <= i < |before| :: after[i].key == before[i].key
    requires |after| == |before| || (after == before + [added] && !HasKey(before, added.key))
    ensures DistinctKeys(after)
  {
  }

  /** No two deliveries ever share an idempotency key. */
  lemma {:induction false} KeysAreUnique(timeout: int, ops: seq<Op>)
    ensures DistinctKeys(Exec(timeout, ops).rows)
  {
    if ops != [] {
      var y, op := Exec(timeout, ops[..|ops|-1]), ops[|ops|-1];
      KeysAreUnique(timeout, ops[..|ops|-1]);
      if Allowed(y, op) {
        StepRows(y, op, timeout);
        KeysStep(y.rows, Apply(y, op, timeout).rows,
                 if op.Enqueue? then NewDelivery(op.key, op.dueAt) else NewDelivery(0, 0));
      }
    }
  }

  // ---- a run that is not clean ----

  /** Claimed by worker 1, recovered, claimed and delivered by worker 2, then recorded by worker 1. */
  function LateRun(): seq<Op> {
    [Enqueue(0, 0, 0), Claim([0], 1, 0), Recover(11), Claim([0], 2, 11), Record(1, Outcome(Delivered, None), 12)]
  }

  lemma LateRunClaimed()
    ensures var y := Exec(10, LateRun()[..2]);
            && y.leases == [Lease(0, 1, 0, 0, false)]
            && y.rows == [NewDelivery(0, 0).(status := Processing, lock := Some(Lock(0, 1)))]
  {
    var run := LateRun();
    ExecSnoc(10, [], run[0]);
    assert [] + [run[0]] == [run[0]] && run[..2] == [run[0]] + [run[1]];
    var y := Exec(10, [run[0]]);
    assert y.rows == [NewDelivery(0, 0)] && y.leases == [];
    hide Exec, Taken;
    ExecSnoc(10, [run[0]], run[1]);
    LateClaim(y, run[1], 10, Lease(0, 1, 0, 0, false));
  }

  lemma LateRunStart()
    ensures var y := Exec(10, LateRun()[..3]);
            && |y.rows| == 1 && Claimable(y.rows, 0, 11) && y.rows[0].attempts == 0
            && y.leases == [Lease(0, 1, 0, 0, false)] && Taken(10, LateRun()[..3], 0)
  {
    var run := LateRun();
    LateRunClaimed();
    hide Exec, Taken;
    ExecSnoc(10, run[..2], run[2]);
    assert run[..3] == run[..2] + [run[2]];
  }

  /** A record under a claim that was taken overwrites DELIVERED: the repository does not compare the
      lock holder. */
  lemma LateRecordOverwrites()
    ensures var late := Record(0, Outcome(Failed, Some(20)), 13);
            && Taken(10, LateRun(), 0) && Allowed(Exec(10, LateRun()), late)
            && |Exec(10, LateRun()).rows| == 1 && Exec(10, LateRun()).rows[0].status == Delivered
            && |Exec(10, LateRun() + [late]).rows| == 1 && Exec(10, LateRun() + [late]).rows[0].status == Failed
  {
    var run := LateRun();
    LateRunStart();
    hide Exec, Taken, ClaimableIds, Claimed, Held;
    ExecSnoc(10, run[..3], run[3]);
    assert run[..4] == run[..3] + [run[3]];
    LateClaim(Exec(10, run[..3]), run[3], 10, Lease(0, 2, 11, 0, false));
    ExecSnoc(10, run[..4], run[4]);
    assert run == run[..4] + [run[4]];
    ExecSnoc(10, run, Record(0, Outcome(Failed, Some(20)), 13));
  }

  lemma LateClaim(y: System, op: Op, timeout: int, lease: Lease)
    requires op.Claim? && op.ids == [0] && |y.rows| == 1 && Claimable(y.rows, 0, op.now) && WellFormed(y)
    requires lease == Lease(0, op.worker, op.now, y.rows[0].attempts, false)
    ensures Allowed(y, op)
    ensures Apply(y, op, timeout).leases == y.leases + [lease]
    ensures Apply(y, op, timeout).rows
         == [y.rows[0].(status := Processing, lock := Some(Lock(op.now, op.worker)))]
  {
    assert 0 in ClaimableIds(y.rows, op.now);
    assert multiset([0]) <= multiset(ClaimableIds(y.rows, op.now));
  }
}
