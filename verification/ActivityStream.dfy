/** Back-pressured fan-out to WebSocket clients (src/services/activity_stream.py). */
module ActivityStream {
  import opened Options
  import opened Ordering

  /** An id read from the payload: missing, not a UUID, or a UUID. */
  datatype PayloadId = Absent | Unparsable | Id(value: nat)

  datatype Payload = Payload(zoneId: PayloadId, ruleId: PayloadId, severity: Option<string>)

  /** `Warning` is stream.warning, `Close` the _close message; `Status` is any broadcast. */
  datatype Message =
    | TimelineEvent(event: Event, payload: Payload)
    | Status(text: string)
    | Warning
    | Close(code: int)

  datatype Subscription = Subscription(
    eventTypes: set<string>, cameraIds: set<string>, entityIds: set<nat>, entityTypes: set<string>,
    zoneIds: set<nat>, ruleIds: set<nat>, severities: set<string>)

  function DefaultSubscription(): Subscription {
    Subscription(
      { "entity_created", "entity_closed", "zone_entered", "zone_exited", "zone_occupancy_changed",
        "alert_triggered", "alert_resolved" },
      {}, {}, {}, {}, {}, {})
  }

  /** ActivitySubscription.matches. */
  predicate Matches(s: Subscription, e: Event, p: Payload) {
    if e.detail.eventType !in s.eventTypes then false
    else if s.cameraIds != {} && (e.detail.cameraId.None? || e.detail.cameraId.value !in s.cameraIds) then false
    else if s.entityIds != {} && e.detail.entityId !in s.entityIds then false
    else if s.entityTypes != {} && e.detail.entityType !in s.entityTypes then false
    else if s.zoneIds != {} && (!p.zoneId.Id? || p.zoneId.value !in s.zoneIds) then false
    else if s.ruleIds != {} && (!p.ruleId.Id? || p.ruleId.value !in s.ruleIds) then false
    else s.severities == {} || (p.severity.Some? && p.severity.value in s.severities)
  }

  predicate Narrows<T>(a: set<T>, b: set<T>) {
    b == {} || (a != {} && a <= b)
  }

  /** Restricting any categories, in any combination, only ever removes events. */
  lemma NarrowingOnlyRemoves(a: Subscription, b: Subscription, e: Event, p: Payload)
    requires a.eventTypes <= b.eventTypes
    requires Narrows(a.cameraIds, b.cameraIds) && Narrows(a.entityIds, b.entityIds)
    requires Narrows(a.entityTypes, b.entityTypes) && Narrows(a.zoneIds, b.zoneIds)
    requires Narrows(a.ruleIds, b.ruleIds) && Narrows(a.severities, b.severities)
    ensures Matches(a, e, p) ==> Matches(b, e, p)
  {
  }

  predicate IsObservation(m: Message) {
    m.TimelineEvent? && m.event.detail.eventType == "observation_recorded"
  }

  predicate HasObservation(q: seq<Message>) {
    exists i | 0 <= i < |q| :: IsObservation(q[i])
  }

  function WithoutOldest(q: seq<Message>): seq<Message> {
    if q == [] then []
    else if IsObservation(q[0]) then q[1..]
    else [q[0]] + WithoutOldest(q[1..])
  }

  /** What is removed is the first observation, and nothing moves. */
  lemma {:induction false} OldestIs(q: seq<Message>) returns (i: nat)
    requires HasObservation(q)
    ensures i < |q| && IsObservation(q[i]) && !HasObservation(q[..i])
    ensures WithoutOldest(q) == q[..i] + q[i+1..]
  {
    hide HasObservation, IsObservation;
    HasTail(q);
    if IsObservation(q[0]) {
      i := 0;
      NoneInNothing();
    } else {
      var rest := OldestIs(q[1..]);
      i := rest + 1;
      OldestShifts(q, rest);
    }
  }

  lemma NoneInNothing()
    ensures !HasObservation([])
  {
  }

  lemma HasTail(q: seq<Message>)
    requires HasObservation(q)
    ensures q != [] && (!IsObservation(q[0]) ==> HasObservation(q[1..]))
  {
    var k :| 0 <= k < |q| && IsObservation(q[k]);
    if k > 0 { assert q[1..][k-1] == q[k]; }
  }

  lemma OldestShifts(q: seq<Message>, i: nat)
    requires i < |q| - 1 && !IsObservation(q[0]) && !HasObservation(q[1..][..i])
    ensures !HasObservation(q[..i+1])
    ensures [q[0]] + (q[1..][..i] + q[1..][i+1..]) == q[..i+1] + q[i+2..]
  {
  }

  // ---- one client, as a value ----

  datatype Client = Client(queue: seq<Message>, dropped: nat, closed: bool, subscription: Subscription)

  const SLOW_CONSUMER := 4002

  /** _enqueue. The warning has no branch here: by the time it is tried the queue is full. */
  function Enqueued(c: Client, size: nat, m: Message): Client
    requires size >= 1
  {
    if c.closed then c
    else if |c.queue| < size then c.(queue := c.queue + [m])
    else if HasObservation(c.queue) then
      c.(queue := WithoutOldest(c.queue) + [m], dropped := c.dropped + 1)
    else
      c.(queue := c.queue[1..] + [Close(SLOW_CONSUMER)], dropped := c.dropped + 1, closed := true)
  }

  function Published(c: Client, size: nat, e: Event, p: Payload): Client
    requires size >= 1
  {
    if Matches(c.subscription, e, p) then Enqueued(c, size, TimelineEvent(e, p)) else c
  }

  function Shut(c: Client, size: nat, code: int): Client {
    c.(closed := true, queue := if |c.queue| < size then c.queue + [Close(code)] else c.queue)
  }

  class ActivityClient {
    const clientId: nat
    const queueSize: nat
    var queue: seq<Message>
    var subscription: Subscription
    var droppedEvents: nat
    var closed: bool

    constructor (clientId: nat, queueSize: nat)
      ensures this.clientId == clientId && this.queueSize == queueSize
      ensures View() == Client([], 0, false, DefaultSubscription())
    {
      this.clientId, this.queueSize := clientId, queueSize;
      queue, subscription, droppedEvents, closed := [], DefaultSubscription(), 0, false;
    }

    ghost function View(): Client
      reads this
    {
      Client(queue, droppedEvents, closed, subscription)
    }

    ghost predicate Bounded()
      reads this
    {
      queueSize >= 1 && |queue| <= queueSize
    }

    /** `false` is QueueFull. */
    method PutNowait(m: Message) returns (ok: bool)
      requires Bounded()
      modifies this`queue
      ensures Bounded() && ok == (|old(queue)| < queueSize)
      ensures queue == if ok then old(queue) + [m] else old(queue)
    {
      ok := |queue| < queueSize;
      if ok { queue := queue + [m]; }
    }

    /** What a shutdown does to one client. */
    method ShutDown(code: int)
      requires Bounded()
      modifies this
      ensures Bounded() && View() == Shut(old(View()), queueSize, code)
    {
      closed := true;
      var _ := PutNowait(Close(code));
    }

    /** The consumer's queue.get. */
    method Read() returns (m: Option<Message>)
      requires Bounded()
      modifies this`queue
      ensures Bounded()
      ensures if old(queue) == [] then m == None && queue == []
              else m == Some(old(queue)[0]) && queue == old(queue)[1..]
    {
      if queue == [] { return None; }
      m := Some(queue[0]);
      queue := queue[1..];
    }

    /** _drop_oldest_observation: drain the queue, leaving out the first observation; refill. */
    method DropOldestObservation() returns (removed: bool)
      requires Bounded()
      modifies this`queue
      ensures Bounded() && removed == HasObservation(old(queue))
      ensures queue == if removed then WithoutOldest(old(queue)) else old(queue)
      ensures removed ==> |queue| == |old(queue)| - 1
    {
      if queue == [] { return false; }
      ghost var before := queue;
      var items: seq<Message> := [];
      removed := false;
      while queue != []
        invariant |items| + |queue| + (if removed then 1 else 0) == |before|
        invariant removed ==> HasObservation(before) && items + queue == WithoutOldest(before)
        invariant !removed ==> items + queue == before && !HasObservation(items)
        invariant !removed ==> items + WithoutOldest(queue) == WithoutOldest(before)
        decreases |queue|
      {
        DrainStep(items, queue);
        var item := queue[0];
        queue := queue[1..];
        if !removed && IsObservation(item) {
          removed := true;
          continue;
        }
        items := items + [item];
      }
      for i := 0 to |items|
        invariant queue == items[..i] && |items| <= queueSize
      {
        var _ := PutNowait(items[i]);
      }
      assert items[..|items|] == items && items + [] == items;
    }

    method Enqueue(m: Message)
      requires Bounded()
      modifies this
      ensures Bounded() && View() == Enqueued(old(View()), queueSize, m)
    {
      if closed { return; }
      var put := PutNowait(m);
      if put { return; }
      var removed := DropOldestObservation();
      if removed {
        droppedEvents := droppedEvents + 1;
        put := PutNowait(m);
        if put {
          var _ := PutNowait(Warning);
          return;
        }
      }
      closed := true;
      droppedEvents := droppedEvents + 1;
      put := PutNowait(Close(SLOW_CONSUMER));
      if !put {
        var _ := Read();
        var _ := PutNowait(Close(SLOW_CONSUMER));
      }
    }
  }

  lemma DrainStep(items: seq<Message>, queue: seq<Message>)
    requires queue != []
    ensures items + queue == items + [queue[0]] + queue[1..]
    ensures IsObservation(queue[0]) ==> WithoutOldest(queue) == queue[1..] && HasObservation(items + queue)
    ensures !IsObservation(queue[0]) ==>
      && items + WithoutOldest(queue) == items + [queue[0]] + WithoutOldest(queue[1..])
      && (!HasObservation(items) ==> !HasObservation(items + [queue[0]]))
  {
    var head, rest, shorter := [queue[0]], queue[1..], WithoutOldest(queue[1..]);
    assert WithoutOldest(queue) == if IsObservation(queue[0]) then rest else head + shorter;
    assert queue == head + rest;
    HasSnoc(items, queue[0]);
    HasAt(items, queue);
    hide *;
    Associative(items, head, rest);
    Associative(items, head, shorter);
  }

  lemma Associative<T>(a: seq<T>, b: seq<T>, c: seq<T>)
    ensures a + (b + c) == a + b + c
  {
  }

  lemma HasSnoc(items: seq<Message>, m: Message)
    ensures HasObservation(items + [m]) <==> HasObservation(items) || IsObservation(m)
  {
    var all := items + [m];
    assert all[|items|] == m;
    if HasObservation(items) {
      var i :| 0 <= i < |items| && IsObservation(items[i]);
      assert all[i] == items[i];
    }
  }

  lemma HasAt(items: seq<Message>, queue: seq<Message>)
    requires queue != []
    ensures IsObservation(queue[0]) ==> HasObservation(items + queue)
  {
    assert (items + queue)[|items|] == queue[0];
  }

  // ---- the broker ----

  class ActivityStreamBroker {
    const clientQueueSize: nat
    const maxConnections: nat
    var clients: seq<ActivityClient>
    var registered: nat

    constructor (clientQueueSize: nat, maxConnections: nat)
      requires clientQueueSize >= 1 && maxConnections >= 1
      ensures Valid() && clients == []
      ensures this.clientQueueSize == clientQueueSize && this.maxConnections == maxConnections
    {
      this.clientQueueSize, this.maxConnections := clientQueueSize, maxConnections;
      clients, registered := [], 0;
    }

    /** Distinct open connections, no more than allowed, each with its own bounded queue. */
    ghost predicate Valid()
      reads this, clients
    {
      && clientQueueSize >= 1 && |clients| <= maxConnections
      && (forall c | c in clients :: c.queueSize == clientQueueSize && c.Bounded() && c.clientId < registered)
      && (forall i, j | 0 <= i < j < |clients| :: clients[i].clientId != clients[j].clientId)
    }

    /** None when the connection limit is reached. */
    method Register() returns (r: Option<ActivityClient>)
      requires Valid()
      modifies this
      ensures Valid() && (r.None? <==> |old(clients)| >= maxConnections)
      ensures r.None? ==> clients == old(clients)
      ensures r.Some? ==>
        && fresh(r.value) && clients == old(clients) + [r.value]
        && r.value.View() == Client([], 0, false, DefaultSubscription())
    {
      if |clients| >= maxConnections { return None; }
      var c := new ActivityClient(registered, clientQueueSize);
      clients := clients + [c];
      registered := registered + 1;
      return Some(c);
    }

    /** The position of a client id, or the number of clients. */
    method Find(clientId: nat) returns (k: nat)
      requires Valid()
      ensures k <= |clients| && (k < |clients| ==> clients[k].clientId == clientId)
      ensures k == |clients| ==> forall c | c in clients :: c.clientId != clientId
    {
      k := 0;
      while k < |clients| && clients[k].clientId != clientId
        invariant k <= |clients|
        invariant forall i | 0 <= i < k :: clients[i].clientId != clientId
      {
        k := k + 1;
      }
    }

    method Unregister(clientId: nat)
      requires Valid()
      modifies this, clients
      ensures Valid()
      ensures forall c | c in clients :: c in old(clients) && c.clientId != clientId && unchanged(c)
      ensures forall c | c in old(clients) ::
        if c.clientId == clientId then c !in clients && c.View() == old(c.View()).(closed := true)
        else c in clients
    {
      var k := Find(clientId);
      if k < |clients| {
        var c := clients[k];
        clients := clients[..k] + clients[k+1..];
        c.closed := true;
      }
    }

    /** `false` is the unknown-client error. */
    method UpdateSubscription(clientId: nat, subscription: Subscription) returns (known: bool)
      requires Valid()
      modifies clients
      ensures Valid() && (known <==> exists c | c in clients :: c.clientId == clientId)
      ensures forall c | c in clients && c.clientId == clientId ::
        c.View() == old(c.View()).(subscription := subscription)
      ensures forall c | c in clients && c.clientId != clientId :: unchanged(c)
    {
      var k := Find(clientId);
      if k == |clients| { return false; }
      clients[k].subscription := subscription;
      assert clients[k] in clients;
      return true;
    }

    method Publish(e: Event, p: Payload)
      requires Valid()
      modifies clients
      ensures Valid()
      ensures forall c | c in clients :: c.View() == Published(old(c.View()), clientQueueSize, e, p)
    {
      hide Matches, Enqueued;
      for i := 0 to |clients|
        invariant Valid()
        invariant forall j | 0 <= j < |clients| ::
          clients[j].View() == if j < i then Published(old(clients[j].View()), clientQueueSize, e, p)
                               else old(clients[j].View())
      {
        var c := clients[i];
        if c.closed {
          EnqueuedWhenClosed(c.View(), clientQueueSize, TimelineEvent(e, p));
          continue;
        }
        if !Matches(c.subscription, e, p) { continue; }
        c.Enqueue(TimelineEvent(e, p));
      }
    }

    method BroadcastStatus(text: string)
      requires Valid()
      modifies clients
      ensures Valid()
      ensures forall c | c in clients :: c.View() == Enqueued(old(c.View()), clientQueueSize, Status(text))
    {
      hide Enqueued;
      for i := 0 to |clients|
        invariant Valid()
        invariant forall j | 0 <= j < |clients| ::
          clients[j].View() == if j < i then Enqueued(old(clients[j].View()), clientQueueSize, Status(text))
                               else old(clients[j].View())
      {
        var c := clients[i];
        if c.closed {
          EnqueuedWhenClosed(c.View(), clientQueueSize, Status(text));
        } else {
          c.Enqueue(Status(text));
        }
      }
    }

    method CloseAll(code: int)
      requires Valid()
      modifies this, clients
      ensures Valid() && clients == []
      ensures forall c | c in old(clients) :: c.View() == Shut(old(c.View()), clientQueueSize, code)
    {
      var leaving := clients;
      clients := [];
      for i := 0 to |leaving|
        invariant clients == []
        invariant forall c | c in leaving :: c.queueSize == clientQueueSize && c.Bounded()
        invariant forall j | 0 <= j < |leaving| ::
          leaving[j].View() == if j < i then Shut(old(leaving[j].View()), clientQueueSize, code)
                               else old(leaving[j].View())
      {
        leaving[i].ShutDown(code);
      }
    }
  }

  lemma EnqueuedWhenClosed(c: Client, size: nat, m: Message)
    requires size >= 1 && c.closed
    ensures Enqueued(c, size, m) == c
  {
  }
}
