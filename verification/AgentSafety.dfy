/** What holds in every reachable state of the agent. */
module AgentSafety {
  import opened Agent
  import opened Hub
  import opened Peers
  import opened Protocol
  import opened Requests
  import opened Router
  import opened Wrappers
  import Decimal

  // ---------------------------------------------------------------------------
  // Tokens
  // ---------------------------------------------------------------------------

  function Pending(tokens: seq<PendingToken>, token: string): nat {
    if tokens == [] then 0
    else (if tokens[0].token == token then 1 else 0) + Pending(tokens[1..], token)
  }

  function Acceptances(accepted: seq<Acceptance>, token: string): nat {
    if accepted == [] then 0
    else (if accepted[0].token == token then 1 else 0) + Acceptances(accepted[1..], token)
  }

  lemma {:induction false} PendingAppend(a: seq<PendingToken>, b: seq<PendingToken>, token: string)
    ensures Pending(a + b, token) == Pending(a, token) + Pending(b, token)
  {
    if a == [] {
      assert a + b == b;
    } else {
      assert (a + b)[1..] == a[1..] + b;
      PendingAppend(a[1..], b, token);
    }
  }

  lemma {:induction false} AcceptancesAppend(a: seq<Acceptance>, b: seq<Acceptance>, token: string)
    ensures Acceptances(a + b, token) == Acceptances(a, token) + Acceptances(b, token)
  {
    if a == [] {
      assert a + b == b;
    } else {
      assert (a + b)[1..] == a[1..] + b;
      AcceptancesAppend(a[1..], b, token);
    }
  }

  lemma {:induction false} PendingRetain(tokens: seq<PendingToken>, p: PendingToken -> bool, token: string)
    ensures Pending(Retain(tokens, p), token) <= Pending(tokens, token)
    ensures (forall t :: t in tokens && t.token == token ==> !p(t)) ==> Pending(Retain(tokens, p), token) == 0
  {
    if tokens != [] {
      PendingRetain(tokens[1..], p, token);
      PendingAppend(if p(tokens[0]) then [tokens[0]] else [], Retain(tokens[1..], p), token);
    }
  }

  lemma {:induction false} PendingPositive(tokens: seq<PendingToken>, t: PendingToken)
    requires t in tokens
    ensures Pending(tokens, t.token) >= 1
  {
    if tokens[0] != t {
      PendingPositive(tokens[1..], t);
    }
  }

  /** One acceptance takes at least one pending copy, and leaves none. */
  lemma TokensAfterCount(tokens: seq<PendingToken>, presented: string, now: int, token: string)
    ensures var after := Pending(TokensAfter(tokens, presented, now), token);
      && after <= Pending(tokens, token)
      && (Valid(tokens, presented, now) && token == presented ==> after == 0 && Pending(tokens, token) >= 1)
  {
    var live := Live(tokens, now);
    PendingRetain(tokens, (t: PendingToken) => !t.IsExpired(now), token);
    PendingRetain(live, (t: PendingToken) => t.token != presented, token);
    if Valid(tokens, presented, now) {
      var t :| t in tokens && !t.IsExpired(now) && t.token == presented;
      PendingPositive(tokens, t);
    }
  }

  /** For each token string: acceptances and pending copies together never exceed the copies
      generated. Every pending copy was generated, and every acceptance fell within the life
      of a generated copy. */
  ghost predicate TokensSafe(s: System) {
    && (forall token :: Acceptances(s.history.accepted, token) + Pending(s.hub.tokens, token)
                        <= Pending(s.history.generated, token))
    && (forall t :: t in s.hub.tokens ==> t in s.history.generated)
    && (forall i :: 0 <= i < |s.history.accepted| ==> Timely(s.history.accepted[i], s.history.generated))
  }

  /** The acceptance happened no later than the expiry of a generated copy. */
  ghost predicate Timely(a: Acceptance, generated: seq<PendingToken>) {
    exists t :: t in generated && t.token == a.token && a.at <= t.expiresAt
  }

  lemma PresentingKeepsTokensSafe(s: System, h: nat, now: int, saved: bool)
    requires TokensSafe(s) && h in s.handlers && s.handlers[h].token.Some?
    ensures TokensSafe(AfterPresentToken(s, h, now, saved))
  {
    var presented := s.handlers[h].token.value;
    var s' := AfterPresentToken(s, h, now, saved);
    var accepted := Valid(s.hub.tokens, presented, now);
    var acceptance := Acceptance(presented, now, s.handlers[h].endpointId);
    forall token
      ensures Acceptances(s'.history.accepted, token) + Pending(s'.hub.tokens, token)
           <= Pending(s'.history.generated, token)
    {
      TokensAfterCount(s.hub.tokens, presented, now, token);
      AcceptancesAppend(s.history.accepted, [acceptance], token);
    }
    forall i | 0 <= i < |s'.history.accepted|
      ensures Timely(s'.history.accepted[i], s.history.generated)
    {
      if i < |s.history.accepted| {
        assert s'.history.accepted[i] == s.history.accepted[i];
      } else {
        var t :| t in s.hub.tokens && !t.IsExpired(now) && t.token == presented;
        assert t in s.history.generated;
      }
    }
  }

  lemma GeneratingKeepsTokensSafe(s: System, t: PendingToken)
    requires TokensSafe(s)
    ensures TokensSafe(s.(hub := WithToken(s.hub, t),
                          history := s.history.(generated := s.history.generated + [t])))
  {
    forall token
      ensures Pending(s.hub.tokens + [t], token) - Pending(s.hub.tokens, token)
           == Pending(s.history.generated + [t], token) - Pending(s.history.generated, token)
    {
      PendingAppend(s.hub.tokens, [t], token);
      PendingAppend(s.history.generated, [t], token);
    }
    forall i | 0 <= i < |s.history.accepted|
      ensures Timely(s.history.accepted[i], s.history.generated + [t])
    {
      assert Timely(s.history.accepted[i], s.history.generated);
      var a := s.history.accepted[i];
      var u :| u in s.history.generated && u.token == a.token && a.at <= u.expiresAt;
      assert u in s.history.generated + [t];
    }
  }

  lemma TokensStaySafe(s: System, step: Step)
    requires TokensSafe(s) && Enabled(s, step)
    ensures TokensSafe(Next(s, step))
  {
    match step {
      case PresentToken(h, now, saved) => PresentingKeepsTokensSafe(s, h, now, saved);
      case Generate(newToken, now, ttl) =>
        match NewToken(newToken, now, ttl) {
          case Some(t) => GeneratingKeepsTokensSafe(s, t);
          case None =>
        }
      case _ =>
        var s' := Next(s, step);
        assert s'.hub.tokens == s.hub.tokens && s'.history.accepted == s.history.accepted
               && s'.history.generated == s.history.generated;
    }
  }

  /** The critical section that accepts a token enrolls the presenting endpoint, whether or
      not the registry could be saved. */
  lemma AcceptanceEnrolls(s: System, h: nat, now: int, saved: bool)
    requires Enabled(s, PresentToken(h, now, saved))
    ensures var s' := Next(s, PresentToken(h, now, saved)); var c := s.handlers[h];
      if Valid(s.hub.tokens, c.token.value, now) then
        && s'.history.accepted == s.history.accepted + [Acceptance(c.token.value, now, c.endpointId)]
        && FindById(s'.hub.registry, c.endpointId) == Some(EnrolledEntry(c, now))
        && (s'.handlers[h].phase == Admitted <==> saved)
      else
        && s'.history.accepted == s.history.accepted
        && s'.hub.registry == s.hub.registry
        && s'.handlers[h].phase == Closed
  {
    AddReplaces(s.hub.registry, EnrolledEntry(s.handlers[h], now));
  }

  /** A new ticket enrolls a device exactly when its time to live ends within the dates and has
      not run out: any other time to live gives no ticket, or one that never works. */
  lemma TicketWorksIff(s: System, newToken: string, now: int, ttl: u64, later: int)
    requires IsDate(now) && now <= later
    requires forall t :: t in s.hub.tokens ==> t.token != newToken
    ensures Valid(Next(s, Generate(newToken, now, ttl)).hub.tokens, newToken, later)
       <==> ttl * SECOND <= LAST_DATE - now && later - now <= ttl * SECOND
  {
    TokenUsableIff(newToken, now, ttl);
    var issued := NewToken(newToken, now, ttl);
    if issued.Some? {
      TokenLife(newToken, now, ttl, now);
      TokenLife(newToken, now, ttl, later);
      assert forall t :: t in s.hub.tokens + [issued.value] && t.token == newToken ==> t == issued.value;
      assert issued.value in s.hub.tokens + [issued.value];
    }
  }

  // ---------------------------------------------------------------------------
  // Notifications
  // ---------------------------------------------------------------------------

  /** Each delivery has its own number, has reached exactly the targets
      that replied Ok so far, and answers its caller with that id. What is stored under an id
      is what a finished delivery with that id reached. */
  ghost predicate DeliveriesSafe(s: System) {
    && s.hub.counter == s.history.issued % COUNTER_RANGE
    && (forall f, g :: f in s.fanOuts && g in s.fanOuts && f != g ==> s.fanOuts[f].number != s.fanOuts[g].number)
    && (forall f :: f in s.fanOuts ==> DeliverySafe(s.fanOuts[f], s.history.issued))
    && (forall id :: id in s.hub.notifications ==> FinishedAs(s.fanOuts, id, s.hub.notifications[id]))
  }

  ghost predicate FinishedAs(fanOuts: map<nat, Delivery>, id: string, sentTo: seq<string>) {
    exists f :: f in fanOuts && fanOuts[f].outcome.Some? && fanOuts[f].Id() == id && fanOuts[f].sentTo == sentTo
  }

  ghost predicate DeliverySafe(fan: Delivery, issued: nat) {
    && 1 <= fan.number <= issued
    && |fan.replies| <= |fan.targets|
    && fan.sentTo == Reached(fan.targets, fan.replies)
    && (fan.outcome.Some? ==> |fan.replies| == |fan.targets| && fan.outcome.value == Ok(NotifyDelivered(fan.Id())))
  }

  lemma StartKeepsDeliveriesSafe(s: System, f: nat, request: Request, order: seq<string>)
    requires DeliveriesSafe(s) && f !in s.fanOuts && request.Notify?
    ensures DeliveriesSafe(AfterStartFanOut(s, f, request, order))
  {
    var s' := AfterStartFanOut(s, f, request, order);
    if Targets(s.hub.clients, order) != [] {
      CounterStep(s.history.issued);
      assert DeliverySafe(s'.fanOuts[f], s'.history.issued);
      StoredStayFinished(s, s'.fanOuts);
    }
  }

  lemma StoredStayFinished(s: System, fanOuts: map<nat, Delivery>)
    requires forall id :: id in s.hub.notifications ==> FinishedAs(s.fanOuts, id, s.hub.notifications[id])
    requires forall g :: g in s.fanOuts && s.fanOuts[g].outcome.Some? ==> g in fanOuts && fanOuts[g] == s.fanOuts[g]
    ensures forall id :: id in s.hub.notifications ==> FinishedAs(fanOuts, id, s.hub.notifications[id])
  {
    forall id | id in s.hub.notifications
      ensures FinishedAs(fanOuts, id, s.hub.notifications[id])
    {
      var sentTo := s.hub.notifications[id];
      assert FinishedAs(s.fanOuts, id, sentTo);
      var g :| g in s.fanOuts && s.fanOuts[g].outcome.Some? && s.fanOuts[g].Id() == id && s.fanOuts[g].sentTo == sentTo;
      assert fanOuts[g] == s.fanOuts[g];
    }
  }

  lemma CounterStep(issued: nat)
    ensures NextCounter(issued % COUNTER_RANGE) == (issued + 1) % COUNTER_RANGE
  {
  }

  lemma ReplyKeepsDeliveriesSafe(s: System, f: nat, reply: Reply)
    requires DeliveriesSafe(s) && Sending(s, f) && |s.fanOuts[f].replies| < |s.fanOuts[f].targets|
    ensures DeliveriesSafe(AfterTargetReplies(s, f, reply))
  {
    var s' := AfterTargetReplies(s, f, reply);
    var fan := s.fanOuts[f];
    assert (fan.replies + [reply])[..|fan.replies|] == fan.replies;
    assert DeliverySafe(s'.fanOuts[f], s'.history.issued);
    StoredStayFinished(s, s'.fanOuts);
  }

  lemma FinishKeepsDeliveriesSafe(s: System, f: nat)
    requires DeliveriesSafe(s) && Sending(s, f) && |s.fanOuts[f].replies| == |s.fanOuts[f].targets|
    ensures DeliveriesSafe(AfterFinishFanOut(s, f))
  {
    var s' := AfterFinishFanOut(s, f);
    assert DeliverySafe(s'.fanOuts[f], s'.history.issued);
    StoredStayFinished(s, s'.fanOuts);
    assert s'.fanOuts[f].Id() == s.fanOuts[f].Id() && s'.fanOuts[f].sentTo == s.fanOuts[f].sentTo;
    assert FinishedAs(s'.fanOuts, s.fanOuts[f].Id(), s.fanOuts[f].sentTo);
  }

  lemma DeliveriesStaySafe(s: System, step: Step)
    requires DeliveriesSafe(s) && Enabled(s, step)
    ensures DeliveriesSafe(Next(s, step))
  {
    match step {
      case StartFanOut(f, request, order) => StartKeepsDeliveriesSafe(s, f, request, order);
      case TargetReplies(f, reply) => ReplyKeepsDeliveriesSafe(s, f, reply);
      case FinishFanOut(f) => FinishKeepsDeliveriesSafe(s, f);
      case _ => OtherStepsKeepDeliveries(s, step);
    }
  }

  predicate SameDeliveries(s: System, s': System) {
    && s'.fanOuts == s.fanOuts && s'.hub.notifications == s.hub.notifications
    && s'.hub.counter == s.hub.counter && s'.history.issued == s.history.issued
  }

  lemma SectionsKeepDeliveries(s: System, step: Step)
    requires Enabled(s, step)
    requires step.PresentToken? || step.CheckRegistry? || step.Register? || step.Generate? || step.Revoke?
    ensures SameDeliveries(s, Next(s, step))
  {
  }

  lemma OtherStepsKeepDeliveries(s: System, step: Step)
    requires Enabled(s, step) && !step.StartFanOut? && !step.TargetReplies? && !step.FinishFanOut?
    ensures SameDeliveries(s, Next(s, step))
  {
    if step.PresentToken? || step.CheckRegistry? || step.Register? || step.Generate? || step.Revoke? {
      SectionsKeepDeliveries(s, step);
    }
  }

  /** A device that is sent the delivery's message reads its request and its id. */
  ghost predicate MessageSafe(fan: Delivery) {
    FromJson(fan.message) == Some(fan.request) && Beside(fan.message, "notification_id") == Some(fan.Id())
  }

  ghost predicate AllMessagesSafe(fanOuts: map<nat, Delivery>) {
    forall f :: f in fanOuts ==> MessageSafe(fanOuts[f])
  }

  ghost predicate MessagesSafe(s: System) {
    s.hub.counter == s.history.issued % COUNTER_RANGE && AllMessagesSafe(s.fanOuts)
  }

  lemma NewMessageIsSafe(number: nat, request: Request, targets: seq<(string, nat)>, id: string)
    requires request.Notify? && id == NotificationId(number % COUNTER_RANGE)
    ensures MessageSafe(NewDelivery(number, request, targets, id))
  {
    DeviceReadsAgent(request, id);
  }

  lemma StartAddsDelivery(s: System, f: nat, request: Request, order: seq<string>)
    requires request.Notify?
    ensures var s', targets := AfterStartFanOut(s, f, request, order), Targets(s.hub.clients, order);
      var counter := NextCounter(s.hub.counter);
      if targets == [] then s' == s
      else
        && s'.hub.counter == counter && s'.history.issued == s.history.issued + 1
        && s'.fanOuts == s.fanOuts[f := NewDelivery(s.history.issued + 1, request, targets, NotificationId(counter))]
  {
  }

  lemma StartKeepsMessagesSafe(s: System, f: nat, request: Request, order: seq<string>)
    requires MessagesSafe(s) && request.Notify?
    ensures MessagesSafe(AfterStartFanOut(s, f, request, order))
  {
    StartAddsDelivery(s, f, request, order);
    var s', targets := AfterStartFanOut(s, f, request, order), Targets(s.hub.clients, order);
    if targets != [] {
      AddedDeliveryIsSafe(s, s', f, request, targets);
    }
  }

  lemma AddedDeliveryIsSafe(s: System, s': System, f: nat, request: Request, targets: seq<(string, nat)>)
    requires MessagesSafe(s) && request.Notify?
    requires s'.hub.counter == NextCounter(s.hub.counter) && s'.history.issued == s.history.issued + 1
    requires var id := NotificationId(s'.hub.counter);
      s'.fanOuts == s.fanOuts[f := NewDelivery(s'.history.issued, request, targets, id)]
    ensures MessagesSafe(s')
  {
    var id := NotificationId(s'.hub.counter);
    CounterStep(s.history.issued);
    AddedMessageIsSafe(s.fanOuts, f, NewDelivery(s'.history.issued, request, targets, id), request, targets, id);
  }

  lemma AddedMessageIsSafe(fanOuts: map<nat, Delivery>, f: nat, fan: Delivery, request: Request,
                           targets: seq<(string, nat)>, id: string)
    requires AllMessagesSafe(fanOuts) && request.Notify? && fan == NewDelivery(fan.number, request, targets, id)
    requires id == NotificationId(fan.number % COUNTER_RANGE)
    ensures AllMessagesSafe(fanOuts[f := fan])
  {
    NewMessageIsSafe(fan.number, request, targets, id);
    OneMessageMore(fanOuts, f, fan);
  }

  lemma OneMessageMore(fanOuts: map<nat, Delivery>, f: nat, fan: Delivery)
    requires AllMessagesSafe(fanOuts) && MessageSafe(fan)
    ensures AllMessagesSafe(fanOuts[f := fan])
  {
  }

  predicate SameMessage(fan: Delivery, fan': Delivery) {
    fan'.message == fan.message && fan'.request == fan.request && fan'.number == fan.number
  }

  /** Later steps of a delivery keep its message, request and number. */
  lemma SameMessagesStaySafe(s: System, s': System)
    requires MessagesSafe(s) && s'.hub.counter == s.hub.counter && s'.history.issued == s.history.issued
    requires forall f :: f in s'.fanOuts ==> f in s.fanOuts && SameMessage(s.fanOuts[f], s'.fanOuts[f])
    ensures MessagesSafe(s')
  {
    forall f | f in s'.fanOuts
      ensures MessageSafe(s'.fanOuts[f])
    {
      assert MessageSafe(s.fanOuts[f]);
    }
  }

  lemma MessagesStaySafe(s: System, step: Step)
    requires MessagesSafe(s) && Enabled(s, step)
    ensures MessagesSafe(Next(s, step))
  {
    match step {
      case StartFanOut(f, request, order) => StartKeepsMessagesSafe(s, f, request, order);
      case TargetReplies(f, reply) => SameMessagesStaySafe(s, AfterTargetReplies(s, f, reply));
      case FinishFanOut(f) => SameMessagesStaySafe(s, AfterFinishFanOut(s, f));
      case _ => OtherStepsKeepDeliveries(s, step);
    }
  }

  // ---------------------------------------------------------------------------
  // Every reachable state
  // ---------------------------------------------------------------------------

  ghost predicate Safe(s: System) {
    && HandlersSafe(s)
    && ClientsSafe(s)
    && TokensSafe(s)
    && DeliveriesSafe(s)
    && MessagesSafe(s)
  }

  /** The invariant holds in every state of every run. */
  lemma {:induction false} AlwaysSafe(states: seq<System>, steps: seq<Step>, i: nat)
    requires Run(states, steps) && i < |states|
    ensures Safe(states[i])
  {
    if i == 0 {
    } else {
      AlwaysSafe(states, steps, i - 1);
      var s, step := states[i - 1], steps[i - 1];
      assert Enabled(s, step) && states[i] == Next(s, step);
      HandlersStaySafe(s, step);
      ClientsStaySafe(s, step);
      TokensStaySafe(s, step);
      DeliveriesStaySafe(s, step);
      MessagesStaySafe(s, step);
    }
  }

  /** The step lets handlers of endpoint k in: a valid token, or a registry hit. */
  ghost predicate Admits(s: System, step: Step, k: string) {
    match step
    case PresentToken(h, now, _) =>
      h in s.handlers && s.handlers[h].endpointId == k
      && s.handlers[h].token.Some? && Valid(s.hub.tokens, s.handlers[h].token.value, now)
    case CheckRegistry(h) =>
      h in s.handlers && s.handlers[h].endpointId == k && FindById(s.hub.registry, k).Some?
    case _ => false
  }

  lemma {:induction false} AdmittedByEarlierStep(states: seq<System>, steps: seq<Step>, i: nat, k: string)
    requires Run(states, steps) && i < |states| && k in states[i].history.admitted
    ensures exists j :: 0 <= j < i && Admits(states[j], steps[j], k)
  {
    if i > 0 {
      assert Enabled(states[i - 1], steps[i - 1]);
      if k in states[i - 1].history.admitted {
        AdmittedByEarlierStep(states, steps, i - 1, k);
      } else {
        assert Admits(states[i - 1], steps[i - 1], k);
      }
    }
  }

  /** Nobody is connected who was not let in earlier in the run. */
  lemma ConnectedWereAdmitted(states: seq<System>, steps: seq<Step>, i: nat, k: string)
    requires Run(states, steps) && i < |states| && k in states[i].hub.clients
    ensures exists j :: 0 <= j < i && Admits(states[j], steps[j], k)
  {
    AlwaysSafe(states, steps, i);
    AdmittedByEarlierStep(states, steps, i, k);
  }

  /** Two deliveries share an id exactly when their numbers differ by a multiple of 2^64. */
  lemma IdsCollideIff(f: Delivery, g: Delivery)
    ensures f.Id() == g.Id() <==> (f.number - g.number) % 0x1_0000_0000_0000_0000 == 0
  {
    if f.Id() == g.Id() {
      Decimal.PrefixedPrintIsInjective("n", f.number % COUNTER_RANGE, g.number % COUNTER_RANGE);
    }
    CongruentIff(f.number, g.number);
  }

  lemma CongruentIff(m: int, n: int)
    ensures m % COUNTER_RANGE == n % COUNTER_RANGE <==> (m - n) % COUNTER_RANGE == 0
  {
    var q, r := m / COUNTER_RANGE, n / COUNTER_RANGE;
    assert m - n == (q - r) * COUNTER_RANGE + (m % COUNTER_RANGE - n % COUNTER_RANGE);
  }

  /** Before the counter wraps, ids are pairwise distinct, and storing a finished delivery
      never overwrites an entry. */
  lemma NotificationsAreDistinct(states: seq<System>, steps: seq<Step>, i: nat)
    requires Run(states, steps) && i < |states| && states[i].history.issued < COUNTER_RANGE
    ensures forall f, g :: f in states[i].fanOuts && g in states[i].fanOuts && f != g ==>
      states[i].fanOuts[f].Id() != states[i].fanOuts[g].Id()
    ensures forall f :: Enabled(states[i], FinishFanOut(f)) ==>
      states[i].fanOuts[f].Id() !in states[i].hub.notifications
  {
    AlwaysSafe(states, steps, i);
    var s := states[i];
    forall f, g | f in s.fanOuts && g in s.fanOuts && f != g
      ensures s.fanOuts[f].Id() != s.fanOuts[g].Id()
    {
      TwoIdsDiffer(s, f, g);
    }
    forall f | Enabled(s, FinishFanOut(f))
      ensures s.fanOuts[f].Id() !in s.hub.notifications
    {
      UnfinishedIsNotStored(s, f);
    }
  }

  lemma TwoIdsDiffer(s: System, f: nat, g: nat)
    requires DeliveriesSafe(s) && s.history.issued < COUNTER_RANGE
    requires f in s.fanOuts && g in s.fanOuts && f != g
    ensures s.fanOuts[f].Id() != s.fanOuts[g].Id()
  {
    IdsCollideIff(s.fanOuts[f], s.fanOuts[g]);
    assert DeliverySafe(s.fanOuts[f], s.history.issued) && DeliverySafe(s.fanOuts[g], s.history.issued);
    NotCongruent(s.fanOuts[f].number, s.fanOuts[g].number);
  }

  lemma NotCongruent(m: nat, n: nat)
    requires m != n && m < COUNTER_RANGE && n < COUNTER_RANGE
    ensures (m - n) % COUNTER_RANGE != 0
  {
  }

  lemma UnfinishedIsNotStored(s: System, f: nat)
    requires DeliveriesSafe(s) && f in s.fanOuts && s.fanOuts[f].outcome.None?
    requires forall g :: g in s.fanOuts && g != f ==> s.fanOuts[g].Id() != s.fanOuts[f].Id()
    ensures s.fanOuts[f].Id() !in s.hub.notifications
  {
    var id := s.fanOuts[f].Id();
    assert id in s.hub.notifications ==> FinishedAs(s.fanOuts, id, s.hub.notifications[id]);
  }

  /** What every finished delivery reached is stored under its id. */
  ghost predicate AllKept(s: System) {
    forall f :: f in s.fanOuts && s.fanOuts[f].outcome.Some? ==> KeptAs(s.hub.notifications, s.fanOuts[f])
  }

  predicate KeptAs(notifications: map<string, seq<string>>, fan: Delivery) {
    fan.Id() in notifications && notifications[fan.Id()] == fan.sentTo
  }

  lemma FinishingKeepsAll(s: System, f: nat)
    requires Safe(s) && Enabled(s, FinishFanOut(f)) && s.history.issued < COUNTER_RANGE && AllKept(s)
    ensures AllKept(AfterFinishFanOut(s, f))
  {
    var s' := AfterFinishFanOut(s, f);
    forall g | g in s'.fanOuts && s'.fanOuts[g].outcome.Some?
      ensures KeptAs(s'.hub.notifications, s'.fanOuts[g])
    {
      if g != f {
        TwoIdsDiffer(s, f, g);
        assert KeptAs(s.hub.notifications, s.fanOuts[g]);
      }
    }
  }

  lemma AllStayKept(s: System, step: Step)
    requires Safe(s) && Enabled(s, step) && s.history.issued < COUNTER_RANGE && AllKept(s)
    ensures AllKept(Next(s, step))
  {
    match step {
      case FinishFanOut(f) => FinishingKeepsAll(s, f);
      case StartFanOut(f, request, order) => StartingKeepsAll(s, f, request, order);
      case TargetReplies(f, reply) => ReplyKeepsAll(s, f, reply);
      case _ => OtherStepsKeepDeliveries(s, step);
    }
  }

  lemma StartingKeepsAll(s: System, f: nat, request: Request, order: seq<string>)
    requires Enabled(s, StartFanOut(f, request, order)) && AllKept(s)
    ensures AllKept(AfterStartFanOut(s, f, request, order))
  {
  }

  lemma ReplyKeepsAll(s: System, f: nat, reply: Reply)
    requires Enabled(s, TargetReplies(f, reply)) && AllKept(s)
    ensures AllKept(AfterTargetReplies(s, f, reply))
  {
  }

  lemma IssuedNeverFalls(s: System, step: Step)
    requires Enabled(s, step)
    ensures s.history.issued <= Next(s, step).history.issued
  {
    if !step.StartFanOut? && !step.TargetReplies? && !step.FinishFanOut? {
      OtherStepsKeepDeliveries(s, step);
    }
  }

  /** Before the counter wraps, nothing stored is ever overwritten: in every state of the run
      each finished delivery's devices are stored under its id. */
  lemma {:induction false} NothingIsOverwritten(states: seq<System>, steps: seq<Step>, i: nat)
    requires Run(states, steps) && i < |states| && states[i].history.issued < COUNTER_RANGE
    ensures AllKept(states[i])
  {
    if i > 0 {
      var s, step := states[i - 1], steps[i - 1];
      assert Enabled(s, step) && states[i] == Next(s, step);
      IssuedNeverFalls(s, step);
      NothingIsOverwritten(states, steps, i - 1);
      AlwaysSafe(states, steps, i - 1);
      AllStayKept(s, step);
    }
  }

  // ---------------------------------------------------------------------------
  // An entry stays until its handler exits
  // ---------------------------------------------------------------------------

  /** At most one handler runs per endpoint. */
  ghost predicate OnePerEndpoint(s: System) {
    forall g, h :: g in s.handlers && h in s.handlers && g != h ==>
      s.handlers[g].phase != Closed && s.handlers[h].phase != Closed ==>
      s.handlers[g].endpointId != s.handlers[h].endpointId
  }

  /** The handler's own entry is in the client map. */
  predicate HasEntry(s: System, h: nat)
    requires h in s.handlers
  {
    var k := s.handlers[h].endpointId;
    k in s.hub.clients && s.hub.clients[k].connection == h
  }

  ghost predicate EntriesStay(s: System) {
    forall h :: InPhase(s, h, Serving) && h !in s.history.revoked ==> HasEntry(s, h)
  }

  /** The steps that take away the entry of a serving handler: its own exit, the exit or the
      registration of another handler for the same endpoint, and a revocation that names it. */
  predicate TakesEntry(s: System, step: Step, h: nat)
    requires h in s.handlers && HasEntry(s, h)
  {
    var k := s.handlers[h].endpointId;
    match step
    case Disconnect(g) => g in s.handlers && s.handlers[g].endpointId == k
    case Register(g, _) => g != h && g in s.handlers && s.handlers[g].endpointId == k
    case Revoke(nameOrId, saved) => saved && Revokes(s.hub, nameOrId) && Named(s.hub.clients[k], nameOrId)
    case _ => false
  }

  /** Exactly those steps do. */
  lemma EntryIsTakenIff(s: System, step: Step, h: nat)
    requires Safe(s) && Enabled(s, step) && InPhase(s, h, Serving) && HasEntry(s, h)
    ensures h in Next(s, step).handlers
    ensures !HasEntry(Next(s, step), h) <==> TakesEntry(s, step, h)
  {
    if !TouchesClients(step) {
      OtherStepsKeepClients(s, step);
    }
  }

  /** No other open handler has h's endpoint. */
  ghost predicate Alone(s: System, h: nat) {
    && h in s.handlers
    && forall g :: g in s.handlers && g != h && s.handlers[g].phase != Closed
         ==> s.handlers[g].endpointId != s.handlers[h].endpointId
  }

  /** The handler is gone, or it serves and has its entry or was revoked. */
  ghost predicate EntryKept(s: System, h: nat) {
    InPhase(s, h, Closed) || (InPhase(s, h, Serving) && (h in s.history.revoked || HasEntry(s, h)))
  }

  lemma ServingGoesOn(s: System, step: Step, h: nat)
    requires Enabled(s, step) && (InPhase(s, h, Serving) || InPhase(s, h, Closed))
    ensures InPhase(s, h, Closed) ==> InPhase(Next(s, step), h, Closed)
    ensures InPhase(s, h, Serving) && step != Disconnect(h) ==> InPhase(Next(s, step), h, Serving)
    ensures InPhase(s, h, Serving) && step == Disconnect(h) ==> InPhase(Next(s, step), h, Closed)
    ensures h in s.history.revoked ==> h in Next(s, step).history.revoked
  {
  }

  /** What is revoked is noted. */
  lemma RevokedIsNoted(s: System, nameOrId: string, saved: bool, h: nat)
    requires h in s.handlers && HasEntry(s, h) && TakesEntry(s, Revoke(nameOrId, saved), h)
    ensures h in Next(s, Revoke(nameOrId, saved)).history.revoked
  {
    var k := s.handlers[h].endpointId;
    assert k !in Revoked(s.hub, nameOrId, saved).clients;
  }

  lemma EntryKeptOneStep(s: System, step: Step, h: nat)
    requires Safe(s) && Enabled(s, step)
    requires EntryKept(s, h) && (InPhase(s, h, Serving) ==> Alone(s, h))
    ensures EntryKept(Next(s, step), h)
  {
    ServingGoesOn(s, step, h);
    if InPhase(s, h, Serving) && h !in s.history.revoked && step != Disconnect(h) {
      EntryIsTakenIff(s, step, h);
      if TakesEntry(s, step, h) && step.Revoke? {
        RevokedIsNoted(s, step.nameOrId, step.saved, h);
      }
    }
  }

  lemma RegisteringGivesEntry(s: System, step: Step, h: nat)
    requires Enabled(s, step) && !InPhase(s, h, Serving) && InPhase(Next(s, step), h, Serving)
    ensures HasEntry(Next(s, step), h)
  {
  }

  /** Once a handler has its entry, it has it as long as it serves, unless it is revoked or
      another open handler has its endpoint. What other devices do does not matter. */
  lemma {:induction false} EntryStaysWhileAlone(states: seq<System>, steps: seq<Step>, i: nat, j: nat, h: nat)
    requires Run(states, steps) && i <= j < |states|
    requires InPhase(states[i], h, Serving) && HasEntry(states[i], h)
    requires forall n :: i <= n < j && InPhase(states[n], h, Serving) ==> Alone(states[n], h)
    ensures EntryKept(states[j], h)
    ensures InPhase(states[j], h, Serving) && h !in states[j].history.revoked ==> HasEntry(states[j], h)
  {
    if i < j {
      EntryStaysWhileAlone(states, steps, i, j - 1, h);
      AlwaysSafe(states, steps, j - 1);
      assert Enabled(states[j - 1], steps[j - 1]);
      EntryKeptOneStep(states[j - 1], steps[j - 1], h);
    }
  }

  lemma {:induction false} ServingHadEntry(states: seq<System>, steps: seq<Step>, j: nat, h: nat) returns (i: nat)
    requires Run(states, steps) && j < |states| && InPhase(states[j], h, Serving)
    ensures i <= j && InPhase(states[i], h, Serving) && HasEntry(states[i], h)
  {
    assert Enabled(states[j - 1], steps[j - 1]);
    if InPhase(states[j - 1], h, Serving) {
      i := ServingHadEntry(states, steps, j - 1, h);
    } else {
      RegisteringGivesEntry(states[j - 1], steps[j - 1], h);
      i := j;
    }
  }

  /** If at most one handler ever runs per endpoint, a serving handler that was not revoked
      has its entry, in every state of the run. */
  lemma EntryStaysUntilExit(states: seq<System>, steps: seq<Step>, i: nat)
    requires Run(states, steps) && i < |states|
    requires forall j :: 0 <= j < i ==> OnePerEndpoint(states[j])
    ensures EntriesStay(states[i])
  {
    forall h | InPhase(states[i], h, Serving) && h !in states[i].history.revoked
      ensures HasEntry(states[i], h)
    {
      var start := ServingHadEntry(states, steps, i, h);
      EntryStaysWhileAlone(states, steps, start, i, h);
    }
  }

  /** Removal goes by endpoint alone: from any reachable state in which two handlers serve
      one endpoint, the exit of the handler that no longer owns the entry leaves the other,
      unrevoked, without one. */
  lemma OldHandlerDropsNewEntry(s: System, older: nat, newer: nat)
    requires Safe(s) && older != newer
    requires InPhase(s, older, Serving) && InPhase(s, newer, Serving)
    requires s.handlers[older].endpointId == s.handlers[newer].endpointId
    requires HasEntry(s, newer)
    ensures var s' := Next(s, Disconnect(older));
      InPhase(s', newer, Serving) && !HasEntry(s', newer) && s'.history.revoked == s.history.revoked
  {
    EntryIsTakenIff(s, Disconnect(older), newer);
  }

  /** Such states are reachable: one device that connects twice. */
  lemma TwoHandlersReachable(registry: seq<ClientEntry>, endpointId: string)
    returns (states: seq<System>, steps: seq<Step>)
    requires FindById(registry, endpointId).Some?
    ensures Run(states, steps)
    ensures var s := states[|steps|];
      InPhase(s, 0, Serving) && InPhase(s, 1, Serving) && HasEntry(s, 1)
      && s.handlers[0].endpointId == s.handlers[1].endpointId == endpointId
  {
    var s0 := System(HubState(map[], registry, [], map[], 0), map[], map[], 0, History([], [], {}, {}, 0));
    states, steps := [s0], [];
    states, steps := Connected(states, steps, 0, endpointId, "");
    states, steps := Connected(states, steps, 1, endpointId, "");
  }

  lemma Extended(states: seq<System>, steps: seq<Step>, step: Step) returns (states': seq<System>, steps': seq<Step>)
    requires Trace(states, steps) && Enabled(states[|steps|], step)
    ensures Trace(states', steps')
    ensures states' == states + [Next(states[|steps|], step)] && steps' == steps + [step]
  {
    states' := states + [Next(states[|steps|], step)];
    steps' := steps + [step];
  }

  /** A handler that gets through its registry check and registers. */
  lemma Connected(states: seq<System>, steps: seq<Step>, h: nat, endpointId: string, name: string)
    returns (states': seq<System>, steps': seq<Step>)
    requires Run(states, steps)
    requires var s := states[|steps|]; h !in s.handlers && FindById(s.hub.registry, endpointId).Some?
    ensures Run(states', steps')
    ensures var s, s' := states[|steps|], states'[|steps'|];
      && InPhase(s', h, Serving) && s'.handlers[h].endpointId == endpointId && HasEntry(s', h)
      && s'.hub.clients[endpointId].endpointId == endpointId && s'.hub.clients[endpointId].name == name
      && (forall g :: g in s.handlers ==> g in s'.handlers && s'.handlers[g] == s.handlers[g])
      && s'.handlers.Keys == s.handlers.Keys + {h}
      && s'.hub.registry == Touch(s.hub.registry, endpointId, [], 0) && s'.instant == s.instant
      && FindById(s'.hub.registry, endpointId).Some?
  {
    states', steps' := Extended(states, steps, Connect(h, endpointId, name, "", [], None));
    states', steps' := Extended(states', steps', CheckRegistry(h));
    states', steps' := Extended(states', steps', TakeStamp(h, states'[|steps'|].instant));
    states', steps' := Extended(states', steps', Register(h, 0));
    TouchKeepsFound(states[|steps|].hub.registry, endpointId, [], 0);
  }

  lemma TouchKeepsFound(peers: seq<ClientEntry>, endpointId: string, capabilities: seq<string>, now: int)
    requires FindById(peers, endpointId).Some?
    ensures FindById(Touch(peers, endpointId, capabilities, now), endpointId).Some?
  {
  }

  // ---------------------------------------------------------------------------
  // Freshness
  // ---------------------------------------------------------------------------

  /** The activity of a connected endpoint falls exactly when one of its handlers registers with
      a stamp older than the entry it replaces: the stamp is read before the lock is taken. */
  lemma ActivityFallsIff(s: System, step: Step, k: string)
    requires Safe(s) && Enabled(s, step)
    requires k in s.hub.clients && k in Next(s, step).hub.clients
    ensures Next(s, step).hub.clients[k].lastActive < s.hub.clients[k].lastActive
       <==> step.Register? && s.handlers[step.h].endpointId == k
            && s.handlers[step.h].stamp < s.hub.clients[k].lastActive
  {
    if step.Register? {
      RegisterFallsIff(s, step.h, step.now, k);
    } else if !TouchesClients(step) {
      OtherStepsKeepClients(s, step);
    }
  }

  lemma RegisterFallsIff(s: System, h: nat, now: int, k: string)
    requires Enabled(s, Register(h, now)) && k in s.hub.clients
    ensures var clients := Next(s, Register(h, now)).hub.clients;
      k in clients && clients[k].lastActive == if s.handlers[h].endpointId == k then s.handlers[h].stamp
                                               else s.hub.clients[k].lastActive
  {
  }

  /** A run in which it does: the handler that took its stamp first registers last. */
  lemma ActivityCanFall(registry: seq<ClientEntry>, endpointId: string) returns (states: seq<System>, steps: seq<Step>)
    requires FindById(registry, endpointId).Some?
    ensures Run(states, steps) && |steps| > 0 && steps[|steps| - 1] == Register(0, 0)
    ensures var s, s' := states[|steps| - 1], states[|steps|];
      && endpointId in s.hub.clients && s.hub.clients[endpointId].lastActive == 1
      && endpointId in s'.hub.clients && s'.hub.clients[endpointId].lastActive == 0
  {
    states, steps := Stamping(registry, endpointId);
    states, steps := Connected(states, steps, 1, endpointId, "");
    states, steps := Extended(states, steps, ReportFocus(1, Active, 1));
    states, steps := Extended(states, steps, Register(0, 0));
  }

  lemma Stamping(registry: seq<ClientEntry>, endpointId: string) returns (states: seq<System>, steps: seq<Step>)
    requires FindById(registry, endpointId).Some?
    ensures Run(states, steps)
    ensures var s := states[|steps|];
      && s.handlers == map[0 := Handler(endpointId, "", "", [], None, Stamped, 0)]
      && s.hub.registry == registry && s.instant == 0
  {
    states, steps := [System(HubState(map[], registry, [], map[], 0), map[], map[], 0, History([], [], {}, {}, 0))], [];
    states, steps := Extended(states, steps, Connect(0, endpointId, "", "", [], None));
    states, steps := Extended(states, steps, CheckRegistry(0));
    states, steps := Extended(states, steps, TakeStamp(0, 0));
  }

  /** The monotone clock and every living entry's activity stamp only move forward. */
  lemma ActivityNeverFalls(s: System, step: Step, k: string)
    requires Safe(s) && Enabled(s, step)
    requires k in s.hub.clients && k in Next(s, step).hub.clients
    requires s.hub.clients[k].connection == Next(s, step).hub.clients[k].connection
    ensures s.hub.clients[k].lastActive <= Next(s, step).hub.clients[k].lastActive
    ensures s.instant <= Next(s, step).instant
  {
    ActivityFallsIff(s, step, k);
    ClockGoesOn(s, step);
    assert step.Register? ==> s.handlers[step.h].phase == Stamped;
  }

  lemma ClockGoesOn(s: System, step: Step)
    requires Enabled(s, step)
    ensures s.instant <= Next(s, step).instant
  {
    if !TouchesClients(step) {
      OtherStepsKeepClients(s, step);
    }
  }

  lemma {:induction false} ActivityNeverFallsInRun(states: seq<System>, steps: seq<Step>, i: nat, j: nat, k: string)
    requires Run(states, steps) && i <= j < |states|
    requires forall m :: i <= m <= j ==> k in states[m].hub.clients
    requires forall m :: i <= m < j ==> states[m].hub.clients[k].connection == states[m + 1].hub.clients[k].connection
    ensures states[i].hub.clients[k].lastActive <= states[j].hub.clients[k].lastActive
    decreases j - i
  {
    if i < j {
      AlwaysSafe(states, steps, i);
      assert Enabled(states[i], steps[i]) && states[i + 1] == Next(states[i], steps[i]);
      ActivityNeverFalls(states[i], steps[i], k);
      ActivityNeverFallsInRun(states, steps, i + 1, j, k);
    }
  }

  /** A device that just reported activity, later than all other activity, heads the ranking of
      each of its capabilities. */
  lemma FocusHeadsRanking(s: System, h: nat, instant: int, capability: string, r: seq<ClientInfo>)
    requires Safe(s) && Enabled(s, ReportFocus(h, Active, instant))
    requires s.handlers[h].endpointId in s.hub.clients
    requires forall k :: k in s.hub.clients && k != s.handlers[h].endpointId ==> s.hub.clients[k].lastActive < instant
    requires capability in s.hub.clients[s.handlers[h].endpointId].capabilities
    requires IsClientRanking(Next(s, ReportFocus(h, Active, instant)).hub.clients, capability, r)
    ensures r != [] && r[0].endpointId == s.handlers[h].endpointId
  {
    var s' := Next(s, ReportFocus(h, Active, instant));
    FreshestHeadsRanking(s'.hub.clients, s.handlers[h].endpointId, capability, r);
  }

  /** So does a device that just connected, if its stamp is later than all other activity. The
      stamp is read before the lock is taken, so the condition is about the stamp. */
  lemma ConnectHeadsRanking(s: System, h: nat, now: int, capability: string, r: seq<ClientInfo>)
    requires Safe(s) && Enabled(s, Register(h, now))
    requires forall k :: k in s.hub.clients && k != s.handlers[h].endpointId ==>
      s.hub.clients[k].lastActive < s.handlers[h].stamp
    requires capability in s.handlers[h].capabilities
    requires IsClientRanking(Next(s, Register(h, now)).hub.clients, capability, r)
    ensures r != [] && r[0].endpointId == s.handlers[h].endpointId
  {
    var s' := Next(s, Register(h, now));
    FreshestHeadsRanking(s'.hub.clients, s.handlers[h].endpointId, capability, r);
  }
}
