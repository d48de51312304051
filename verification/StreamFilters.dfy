/** What a subscription lets through, category by category, and what the default one is worth. */
module StreamFilters {
  import opened Options
  import opened Ordering
  import opened ActivityStream
  import R = StreamRuns

  datatype Category = OfType | OfCamera | OfEntity | OfEntityType | OfZone | OfRule | OfSeverity

  datatype Value = Text(text: string) | Number(number: nat)

  /** The event's own value of a category; none when it is missing or cannot be parsed. */
  function ValueOf(c: Category, e: Event, p: Payload): Option<Value> {
    match c
    case OfType => Some(Text(e.detail.eventType))
    case OfCamera => if e.detail.cameraId.Some? then Some(Text(e.detail.cameraId.value)) else None
    case OfEntity => Some(Number(e.detail.entityId))
    case OfEntityType => Some(Text(e.detail.entityType))
    case OfZone => if p.zoneId.Id? then Some(Number(p.zoneId.value)) else None
    case OfRule => if p.ruleId.Id? then Some(Number(p.ruleId.value)) else None
    case OfSeverity => if p.severity.Some? then Some(Text(p.severity.value)) else None
  }

  function Texts(s: set<string>): set<Value> { set x | x in s :: Text(x) }

  function Numbers(s: set<nat>): set<Value> { set x | x in s :: Number(x) }

  function Wanted(c: Category, s: Subscription): set<Value> {
    match c
    case OfType => Texts(s.eventTypes)
    case OfCamera => Texts(s.cameraIds)
    case OfEntity => Numbers(s.entityIds)
    case OfEntityType => Texts(s.entityTypes)
    case OfZone => Numbers(s.zoneIds)
    case OfRule => Numbers(s.ruleIds)
    case OfSeverity => Texts(s.severities)
  }

  /** The subscription that keeps one category and frees the others; event types are freed by
      listing the event's own, as an empty list of types admits nothing. */
  function Only(c: Category, s: Subscription, e: Event): Subscription {
    var free := Subscription({e.detail.eventType}, {}, {}, {}, {}, {}, {});
    match c
    case OfType => free.(eventTypes := s.eventTypes)
    case OfCamera => free.(cameraIds := s.cameraIds)
    case OfEntity => free.(entityIds := s.entityIds)
    case OfEntityType => free.(entityTypes := s.entityTypes)
    case OfZone => free.(zoneIds := s.zoneIds)
    case OfRule => free.(ruleIds := s.ruleIds)
    case OfSeverity => free.(severities := s.severities)
  }

  /** AND across categories. */
  lemma MatchesIsConjunction(s: Subscription, e: Event, p: Payload)
    ensures Matches(s, e, p) <==> forall c: Category :: Matches(Only(c, s, e), e, p)
  {
    assert Matches(s, e, p) <==>
      (&& Matches(Only(OfType, s, e), e, p) && Matches(Only(OfCamera, s, e), e, p)
       && Matches(Only(OfEntity, s, e), e, p) && Matches(Only(OfEntityType, s, e), e, p)
       && Matches(Only(OfZone, s, e), e, p) && Matches(Only(OfRule, s, e), e, p)
       && Matches(Only(OfSeverity, s, e), e, p));
  }

  /** OR within one: with only one category kept, what matters is whether the event has a value of that
      category in the set. Nothing else it carries does, and without a value it matches no set at all. */
  lemma OnlyItsValueMatters(c: Category, s: Subscription, e: Event, p: Payload)
    ensures Matches(Only(c, s, e), e, p) <==>
              (c != OfType && Wanted(c, s) == {})
              || (ValueOf(c, e, p).Some? && ValueOf(c, e, p).value in Wanted(c, s))
  {
    SameText(s);
    hide Texts, Numbers;
  }

  lemma SameText(s: Subscription)
    ensures forall a: set<string> {:trigger Texts(a)} ::
              (Texts(a) == {} <==> a == {}) && forall x :: Text(x) in Texts(a) <==> x in a
    ensures forall a: set<nat> {:trigger Numbers(a)} ::
              (Numbers(a) == {} <==> a == {}) && forall x :: Number(x) in Numbers(a) <==> x in a
  {
    forall a: set<string> | a != {} ensures Texts(a) != {} {
      var x :| x in a;
      assert Text(x) in Texts(a);
    }
    forall a: set<nat> | a != {} ensures Numbers(a) != {} {
      var x :| x in a;
      assert Number(x) in Numbers(a);
    }
  }

  /** Both together. */
  lemma MatchesMeans(s: Subscription, e: Event, p: Payload)
    ensures Matches(s, e, p) <==>
              forall c: Category ::
                (c != OfType && Wanted(c, s) == {})
                || (ValueOf(c, e, p).Some? && ValueOf(c, e, p).value in Wanted(c, s))
  {
    MatchesIsConjunction(s, e, p);
    forall c: Category { OnlyItsValueMatters(c, s, e, p); }
    hide Matches, Wanted, ValueOf, Only;
  }

  // ---- the default subscription ----

  /** It lets through everything but observations. */
  lemma DefaultIsLifecycle(e: Event, p: Payload)
    requires IsTimelineType(e.detail.eventType)
    ensures Matches(DefaultSubscription(), e, p) <==> !IsObservation(TimelineEvent(e, p))
  {
  }

  ghost predicate NeverResubscribes(ops: seq<R.Op>) {
    forall i | 0 <= i < |ops| :: !ops[i].Subscribe?
  }

  ghost predicate Lossless(t: R.Trace) {
    && t.client.subscription == DefaultSubscription()
    && (forall m | m in t.client.queue :: !IsObservation(m))
    && (!t.client.closed ==> t.client.dropped == 0 && t.consumed + t.client.queue == t.offered)
  }

  /** So a client that keeps it loses nothing while it is open: back-pressure has nothing to drop. */
  lemma {:induction false} DefaultClientLosesNothing(ops: seq<R.Op>, size: nat)
    requires size >= 1 && NeverResubscribes(ops)
    ensures Lossless(R.Exec(ops, size))
  {
    if ops != [] {
      var n := |ops| - 1;
      DefaultClientLosesNothing(ops[..n], size);
      StepIsLossless(R.Exec(ops[..n], size), ops[n], size);
    }
  }

  lemma StepIsLossless(t: R.Trace, op: R.Op, size: nat)
    requires size >= 1 && Lossless(t) && !op.Subscribe?
    ensures Lossless(R.StepTrace(t, op, size))
  {
    var c := t.client;
    assert t.offered + [] == t.offered;
    assert !HasObservation(c.queue);
    match op
    case Publish(e, p) =>
      if !c.closed && Matches(c.subscription, e, p) {
        assert !IsObservation(TimelineEvent(e, p));
        hide Matches;
        assert t.consumed + (c.queue + [TimelineEvent(e, p)]) == t.consumed + c.queue + [TimelineEvent(e, p)];
      }
    case Broadcast(text) =>
      assert t.consumed + (c.queue + [Status(text)]) == t.consumed + c.queue + [Status(text)];
    case Read =>
      if c.queue != [] { assert t.consumed + [c.queue[0]] + c.queue[1..] == t.consumed + c.queue; }
    case _ =>
  }
}
