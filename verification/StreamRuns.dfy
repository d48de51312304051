/** One client's connection over any interleaving of publishes, broadcasts, subscription changes
    and reads: what back-pressure may and may not lose. */
module StreamRuns {
  import opened Ordering
  import opened ActivityStream

  datatype Op =
    | Publish(event: Event, payload: Payload)
    | Broadcast(text: string)
    | Subscribe(subscription: Subscription)
    | Read
    | Leave
    | Closing(code: int)

  /** `offered` is every message meant for the client while it was open, in order. */
  datatype Trace = Trace(client: Client, consumed: seq<Message>, offered: seq<Message>)

  function StepClient(c: Client, op: Op, size: nat): Client
    requires size >= 1
  {
    match op
    case Publish(e, p) => Published(c, size, e, p)
    case Broadcast(text) => Enqueued(c, size, Status(text))
    case Subscribe(s) => c.(subscription := s)
    case Read => if c.queue == [] then c else c.(queue := c.queue[1..])
    case Leave => c.(closed := true)
    case Closing(code) => Shut(c, size, code)
  }

  function Offer(c: Client, op: Op): seq<Message> {
    match op
    case Publish(e, p) => if !c.closed && Matches(c.subscription, e, p) then [TimelineEvent(e, p)] else []
    case Broadcast(text) => if !c.closed then [Status(text)] else []
    case _ => []
  }

  function StepTrace(t: Trace, op: Op, size: nat): Trace
    requires size >= 1
  {
    Trace(StepClient(t.client, op, size),
          if op == Read && t.client.queue != [] then t.consumed + [t.client.queue[0]] else t.consumed,
          t.offered + Offer(t.client, op))
  }

  /** A connection from its registration on. */
  function Exec(ops: seq<Op>, size: nat): Trace
    requires size >= 1
  {
    if ops == [] then Trace(Client([], 0, false, DefaultSubscription()), [], [])
    else StepTrace(Exec(ops[..|ops|-1], size), ops[|ops|-1], size)
  }

  // ---- losing only observations ----

  /** `kept` is `offered` with exactly `n` observations taken out, everything else in place. */
  ghost predicate Thinned(offered: seq<Message>, kept: seq<Message>, n: nat) {
    if offered == [] then kept == [] && n == 0
    else
      var last, init := offered[|offered|-1], offered[..|offered|-1];
      || (kept != [] && kept[|kept|-1] == last && Thinned(init, kept[..|kept|-1], n))
      || (n > 0 && IsObservation(last) && Thinned(init, kept, n - 1))
  }

  lemma ThinnedSnoc(offered: seq<Message>, kept: seq<Message>, n: nat, m: Message)
    requires Thinned(offered, kept, n)
    ensures Thinned(offered + [m], kept + [m], n)
  {
  }

  /** Taking out one more observation, wherever it is. */
  lemma {:induction false} ThinnedMore(offered: seq<Message>, a: seq<Message>, o: Message, b: seq<Message>, n: nat)
    requires IsObservation(o) && Thinned(offered, a + [o] + b, n)
    ensures Thinned(offered, a + b, n + 1)
    decreases |offered|
  {
    var kept := a + [o] + b;
    assert kept[|a|] == o;
    var last, init := offered[|offered|-1], offered[..|offered|-1];
    if n > 0 && IsObservation(last) && Thinned(init, kept, n - 1) {
      ThinnedMore(init, a, o, b, n - 1);
    } else if b == [] {
      assert kept[..|kept|-1] == a && a + b == a;
    } else {
      var b' := b[..|b|-1];
      assert kept[..|kept|-1] == a + [o] + b';
      ThinnedMore(init, a, o, b', n);
      assert (a + b)[..|a + b|-1] == a + b' && (a + b)[|a + b|-1] == last;
    }
  }

  function Keep(s: seq<Message>, wanted: Message -> bool): seq<Message> {
    if s == [] then []
    else Keep(s[..|s|-1], wanted) + if wanted(s[|s|-1]) then [s[|s|-1]] else []
  }

  /** `n` is the number of observations missing. */
  lemma {:induction false} ThinnedCounts(offered: seq<Message>, kept: seq<Message>, n: nat)
    requires Thinned(offered, kept, n)
    ensures |offered| == |kept| + n
    ensures |Keep(offered, m => IsObservation(m))| == |Keep(kept, m => IsObservation(m))| + n
    decreases |offered|
  {
    if offered != [] {
      var last, init := offered[|offered|-1], offered[..|offered|-1];
      if kept != [] && kept[|kept|-1] == last && Thinned(init, kept[..|kept|-1], n) {
        ThinnedCounts(init, kept[..|kept|-1], n);
      } else {
        ThinnedCounts(init, kept, n - 1);
      }
    }
  }

  /** Every kind of message without observations is kept whole and in order. */
  lemma {:induction false} ThinnedKeeps(offered: seq<Message>, kept: seq<Message>, n: nat, wanted: Message -> bool)
    requires Thinned(offered, kept, n) && forall m | wanted(m) :: !IsObservation(m)
    ensures Keep(offered, wanted) == Keep(kept, wanted)
    decreases |offered|
  {
    if offered != [] {
      var last, init := offered[|offered|-1], offered[..|offered|-1];
      if kept != [] && kept[|kept|-1] == last && Thinned(init, kept[..|kept|-1], n) {
        ThinnedKeeps(init, kept[..|kept|-1], n, wanted);
      } else {
        ThinnedKeeps(init, kept, n - 1, wanted);
      }
    }
  }

  // ---- the client's invariant ----

  ghost predicate Holds(t: Trace, size: nat) {
    && |t.client.queue| <= size
    && (!t.client.closed ==> Thinned(t.offered, t.consumed + t.client.queue, t.client.dropped))
  }

  lemma EnqueueHolds(c: Client, consumed: seq<Message>, offered: seq<Message>, size: nat, m: Message)
    requires size >= 1 && !c.closed && |c.queue| <= size
    requires Thinned(offered, consumed + c.queue, c.dropped)
    ensures var c' := Enqueued(c, size, m);
            && |c'.queue| <= size
            && (!c'.closed ==> Thinned(offered + [m], consumed + c'.queue, c'.dropped))
  {
    if |c.queue| < size {
      ThinnedSnoc(offered, consumed + c.queue, c.dropped, m);
      assert consumed + (c.queue + [m]) == consumed + c.queue + [m];
    } else if HasObservation(c.queue) {
      DropHolds(c.queue, consumed, offered, c.dropped, m);
    }
  }

  lemma DropHolds(queue: seq<Message>, consumed: seq<Message>, offered: seq<Message>, n: nat, m: Message)
    requires HasObservation(queue) && Thinned(offered, consumed + queue, n)
    ensures Thinned(offered + [m], consumed + (WithoutOldest(queue) + [m]), n + 1)
    ensures |WithoutOldest(queue)| == |queue| - 1
  {
    var i := OldestIs(queue);
    hide *;
    SplitAround(consumed, queue, i, m);
    ThinnedMore(offered, consumed + queue[..i], queue[i], queue[i+1..], n);
    ThinnedSnoc(offered, consumed + queue[..i] + queue[i+1..], n + 1, m);
  }

  lemma SplitAround<T>(before: seq<T>, q: seq<T>, i: nat, m: T)
    requires i < |q|
    ensures before + q == before + q[..i] + [q[i]] + q[i+1..]
    ensures before + (q[..i] + q[i+1..] + [m]) == before + q[..i] + q[i+1..] + [m]
    ensures |q[..i] + q[i+1..]| == |q| - 1
  {
  }

  lemma StepHolds(t: Trace, op: Op, size: nat)
    requires size >= 1 && Holds(t, size)
    ensures Holds(StepTrace(t, op, size), size)
  {
    hide Thinned, Enqueued, Matches;
    var c := t.client;
    assert t.offered + [] == t.offered;
    match op
    case Publish(e, p) =>
      if c.closed {
        EnqueuedWhenClosed(c, size, TimelineEvent(e, p));
      } else if Matches(c.subscription, e, p) {
        EnqueueHolds(c, t.consumed, t.offered, size, TimelineEvent(e, p));
      }
    case Broadcast(text) =>
      if c.closed {
        EnqueuedWhenClosed(c, size, Status(text));
      } else {
        EnqueueHolds(c, t.consumed, t.offered, size, Status(text));
      }
    case Read =>
      if c.queue != [] { assert t.consumed + [c.queue[0]] + c.queue[1..] == t.consumed + c.queue; }
    case _ =>
  }

  lemma {:induction false} ExecHolds(ops: seq<Op>, size: nat)
    requires size >= 1
    ensures Holds(Exec(ops, size), size)
  {
    if ops != [] {
      ExecHolds(ops[..|ops|-1], size);
      StepHolds(Exec(ops[..|ops|-1], size), ops[|ops|-1], size);
    }
  }

  predicate IsLifecycle(m: Message) {
    m.TimelineEvent? && !IsObservation(m)
  }

  /** On every run: the queue is within its size, and while the client is open everything but
      observations was delivered or is queued, in the order it was offered; `dropped` counts the
      missing observations. */
  lemma OpenClientLosesOnlyObservations(ops: seq<Op>, size: nat)
    requires size >= 1
    ensures var t := Exec(ops, size);
            && |t.client.queue| <= size
            && (!t.client.closed ==>
                 var kept := t.consumed + t.client.queue;
                 && Keep(kept, m => IsLifecycle(m)) == Keep(t.offered, m => IsLifecycle(m))
                 && Keep(kept, (m: Message) => m.Status?) == Keep(t.offered, (m: Message) => m.Status?)
                 && |t.offered| == |kept| + t.client.dropped
                 && |Keep(t.offered, m => IsObservation(m))|
                      == |Keep(kept, m => IsObservation(m))| + t.client.dropped)
  {
    var t := Exec(ops, size);
    ExecHolds(ops, size);
    if !t.client.closed {
      var kept := t.consumed + t.client.queue;
      hide Exec, Holds, Thinned;
      ThinnedCounts(t.offered, kept, t.client.dropped);
      ThinnedKeeps(t.offered, kept, t.client.dropped, m => IsLifecycle(m));
      ThinnedKeeps(t.offered, kept, t.client.dropped, (m: Message) => m.Status?);
    }
  }

  // ---- closing ----

  /** A client is closed for being slow exactly when a message meets a full queue that holds no
      observation. Then two messages are lost, the new one and the oldest queued one; only one
      is counted. */
  lemma ClosedExactlyWhenStuck(c: Client, size: nat, m: Message)
    requires size >= 1 && !c.closed && |c.queue| <= size
    ensures var c' := Enqueued(c, size, m);
            && (c'.closed <==> |c.queue| == size && !HasObservation(c.queue))
            && (c'.closed ==>
                 && c'.dropped == c.dropped + 1 && |c'.queue| == size
                 && c.queue + [Close(SLOW_CONSUMER)] == [c.queue[0]] + c'.queue)
            && (!c'.closed ==> c'.queue != [] && c'.queue[|c'.queue|-1] == m)
  {
  }

  /** A shutdown closes the client and says so where there is room, after all that is queued. */
  lemma ShutdownIsAnnounced(t: Trace, code: int, size: nat)
    requires size >= 1
    ensures var t' := StepTrace(t, Closing(code), size);
            && t'.client.closed && t'.client.dropped == t.client.dropped
            && t'.consumed == t.consumed && t'.offered == t.offered
            && t'.client.queue == t.client.queue + if |t.client.queue| < size then [Close(code)] else []
  {
    assert t.offered + [] == t.offered;
  }

  ghost predicate NeverWarns(t: Trace) {
    forall m | m in t.consumed + t.client.queue :: !m.Warning?
  }

  /** No client ever receives a stream.warning: an observation is dropped only to make room for
      the message that fills the queue again. */
  lemma {:induction false} WarningsNeverArrive(ops: seq<Op>, size: nat)
    requires size >= 1
    ensures NeverWarns(Exec(ops, size))
  {
    if ops != [] {
      var t, op := Exec(ops[..|ops|-1], size), ops[|ops|-1];
      WarningsNeverArrive(ops[..|ops|-1], size);
      StepNeverWarns(t, op, size);
    }
  }

  lemma StepNeverWarns(t: Trace, op: Op, size: nat)
    requires size >= 1 && NeverWarns(t)
    ensures NeverWarns(StepTrace(t, op, size))
  {
    if HasObservation(t.client.queue) { var _ := OldestIs(t.client.queue); }
    hide HasObservation, Matches, WithoutOldest;
    var t' := StepTrace(t, op, size);
    forall m | m in t'.consumed + t'.client.queue ensures !m.Warning? {
      assert m in t.consumed + t.client.queue || m.TimelineEvent? || m.Status? || m.Close?;
    }
  }

  /** Once closed, a client only drains: nothing is offered, nothing but a shutdown's close
      message is queued, and no count changes. */
  lemma ClosedOnlyDrains(t: Trace, op: Op, size: nat)
    requires size >= 1 && t.client.closed
    ensures var t' := StepTrace(t, op, size);
            && t'.client.closed && t'.offered == t.offered && t'.client.dropped == t.client.dropped
            && (!op.Closing? ==> t'.consumed + t'.client.queue == t.consumed + t.client.queue)
            && (op.Closing? ==> t.consumed + t.client.queue <= t'.consumed + t'.client.queue
                                                         <= t.consumed + t.client.queue + [Close(op.code)])
  {
  }
}
