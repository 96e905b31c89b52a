/** What the agent's steps do, said of hellos, tokens, reports and entries rather than of the
    functions the steps are built from. */
module AgentSteps {
  import opened Agent
  import opened AgentSafety
  import opened Hub
  import opened Peers
  import opened Protocol
  import opened Requests
  import opened Router
  import opened Wrappers

  // ---------------------------------------------------------------------------
  // Tickets
  // ---------------------------------------------------------------------------

  /** The step hands in the token, or runs at a time at which it has expired. */
  predicate UsesUp(s: System, step: Step, t: PendingToken) {
    step.PresentToken? && step.h in s.handlers
    && (s.handlers[step.h].token == Some(t.token) || t.expiresAt < step.now)
  }

  /** A pending ticket goes exactly when it is handed in, or when another one is after its expiry. */
  lemma TicketGoesIff(s: System, step: Step, t: PendingToken)
    requires Enabled(s, step) && t in s.hub.tokens
    ensures t !in Next(s, step).hub.tokens <==> UsesUp(s, step, t)
  {
    match step {
      case PresentToken(h, now, _) => TokensLeft(s.hub.tokens, s.handlers[h].token.value, now);
      case Generate(_, _, _) =>
      case _ => OtherStepsKeepTokens(s, step);
    }
  }

  lemma OtherStepsKeepTokens(s: System, step: Step)
    requires Enabled(s, step) && !step.PresentToken? && !step.Generate?
    ensures Next(s, step).hub.tokens == s.hub.tokens && Next(s, step).history.generated == s.history.generated
    ensures Next(s, step).history.accepted == s.history.accepted
  {
  }

  /** No step from the i-th up to the j-th state uses the ticket up. */
  ghost predicate Unused(states: seq<System>, steps: seq<Step>, i: nat, j: nat, t: PendingToken)
    requires Trace(states, steps) && j < |states|
  {
    forall n :: i <= n < j ==> !UsesUp(states[n], steps[n], t)
  }

  lemma TicketLasts(states: seq<System>, steps: seq<Step>, i: nat, j: nat, t: PendingToken)
    requires Trace(states, steps) && i <= j < |states| && t in states[i].hub.tokens
    requires Unused(states, steps, i, j, t)
    ensures t in states[j].hub.tokens
  {
    forall n | i <= n < j && t in states[n].hub.tokens
      ensures t in states[n + 1].hub.tokens
    {
      TicketLastsOneStep(states, steps, n, t);
    }
    Lasts(states, (s: System) => t in s.hub.tokens, i, j);
  }

  /** What holds at i and is kept by each step holds at j. */
  lemma {:induction false} Lasts<T(!new)>(states: seq<T>, p: T -> bool, i: nat, j: nat)
    requires i <= j < |states| && p(states[i])
    requires forall n :: i <= n < j && p(states[n]) ==> p(states[n + 1])
    ensures p(states[j])
  {
    if i < j {
      Lasts(states, p, i, j - 1);
      assert p(states[j - 1 + 1]);
    }
  }

  lemma TicketLastsOneStep(states: seq<System>, steps: seq<Step>, i: nat, t: PendingToken)
    requires Trace(states, steps) && i < |steps| && t in states[i].hub.tokens && !UsesUp(states[i], steps[i], t)
    ensures t in states[i + 1].hub.tokens
  {
    var s, step := states[i], steps[i];
    assert Enabled(s, step) && states[i + 1] == Next(s, step);
    TicketGoesIff(s, step, t);
  }

  /** A ticket that nobody hands in works until it expires, whatever else the agent does. */
  lemma TicketWorksUntilExpiry(states: seq<System>, steps: seq<Step>, i: nat, j: nat, t: PendingToken, now: int)
    requires Trace(states, steps) && i <= j < |states| && t in states[i].hub.tokens
    requires Unused(states, steps, i, j, t)
    requires now <= t.expiresAt
    ensures Valid(states[j].hub.tokens, t.token, now)
  {
    TicketLasts(states, steps, i, j, t);
    PendingIsValid(states[j].hub.tokens, t, now);
  }

  lemma PendingIsValid(tokens: seq<PendingToken>, t: PendingToken, now: int)
    requires t in tokens && now <= t.expiresAt
    ensures Valid(tokens, t.token, now)
  {
  }

  /** What is generated is pending and on record, once. */
  lemma GeneratedIsRecorded(s: System, newToken: string, now: int, ttl: u64)
    ensures var s' := Next(s, Generate(newToken, now, ttl)); var issued := NewToken(newToken, now, ttl);
      var added := if issued.Some? then [issued.value] else [];
      && s'.history.generated == s.history.generated + added
      && s'.hub.tokens == s.hub.tokens + added
      && (issued.Some? ==> issued.value.token == newToken && issued.value.createdAt == now)
  {
  }

  // ---------------------------------------------------------------------------
  // Enrolling and connecting
  // ---------------------------------------------------------------------------

  /** A handler starts with what its device's hello says. */
  lemma HelloIsRead(s: System, hello: Step)
    requires hello.Connect? && Enabled(s, hello)
    ensures var s' := Next(s, hello);
      && s' == s.(handlers := s'.handlers) && s'.handlers.Keys == s.handlers.Keys + {hello.h}
      && (forall g :: g in s.handlers ==> s'.handlers[g] == s.handlers[g])
      && var c := s'.handlers[hello.h];
         && c.endpointId == hello.endpointId && c.name == hello.name && c.platform == hello.platform
         && c.capabilities == hello.capabilities && c.token == hello.token && c.phase == Greeted
  {
  }

  /** A device that hands in a valid token is enrolled under the name and capabilities of its hello. */
  lemma HelloIsEnrolled(s: System, h: nat, hello: Step, now: int, saved: bool)
    requires hello.Connect? && hello.h == h && hello.token.Some? && Enabled(s, hello)
    requires Valid(s.hub.tokens, hello.token.value, now)
    ensures var s1 := Next(s, hello); Enabled(s1, PresentToken(h, now, saved))
    ensures var s2 := Next(Next(s, hello), PresentToken(h, now, saved)); var k := hello.endpointId;
      && FindById(s2.hub.registry, k) == Some(Peer(k, hello.name, ClientDetails(now, Some(now), hello.capabilities)))
      && (forall c: ClientEntry :: c.endpointId != k ==> (c in s2.hub.registry <==> c in s.hub.registry))
      && s2.hub.clients == s.hub.clients
      && InPhase(s2, h, if saved then Admitted else Closed)
  {
    var s1 := Next(s, hello);
    AddReplaces(s1.hub.registry, EnrolledEntry(s1.handlers[h], now));
  }

  /** A device without a token gets on exactly when it is enrolled. */
  lemma CheckAdmitsIff(s: System, h: nat)
    requires Enabled(s, CheckRegistry(h))
    ensures var s' := Next(s, CheckRegistry(h));
      && InPhase(s', h, if FindById(s.hub.registry, s.handlers[h].endpointId).Some? then Admitted else Closed)
      && s'.hub == s.hub
  {
  }

  /** Registering connects the device as its hello describes it, active, used at the time stamp,
      and refreshes its registry entry. */
  lemma HelloIsConnected(s: System, h: nat, instant: int, now: int)
    requires Enabled(s, TakeStamp(h, instant))
    ensures Enabled(Next(s, TakeStamp(h, instant)), Register(h, now))
    ensures var s2 := Next(Next(s, TakeStamp(h, instant)), Register(h, now)); var c := s.handlers[h];
      && InPhase(s2, h, Serving) && s2.instant == instant
      && s2.hub.clients == s.hub.clients[c.endpointId :=
           ConnectedClient(c.endpointId, c.name, c.platform, h, Active, c.capabilities, instant)]
      && (FindById(s.hub.registry, c.endpointId).Some? ==>
            var e := FindById(s.hub.registry, c.endpointId).value;
            FindById(s2.hub.registry, c.endpointId)
            == Some(Peer(e.endpointId, e.name, ClientDetails(e.details.enrolledAt, Some(now), c.capabilities))))
  {
    var c := s.handlers[h];
    var k := TouchRefreshesFirst(s.hub.registry, c.endpointId, c.capabilities, now);
    FoundAfterTouch(s.hub.registry, c.endpointId, c.capabilities, now);
  }

  lemma {:induction false} FoundAfterTouch(peers: seq<ClientEntry>, endpointId: string, capabilities: seq<string>,
                                           now: int)
    ensures FindById(Touch(peers, endpointId, capabilities, now), endpointId)
         == match FindById(peers, endpointId)
            case Some(e) => Some(e.(details := ClientDetails(e.details.enrolledAt, Some(now), capabilities)))
            case None => None
  {
    if peers != [] && peers[0].endpointId != endpointId {
      FoundAfterTouch(peers[1..], endpointId, capabilities, now);
      assert Touch(peers, endpointId, capabilities, now)[1..] == Touch(peers[1..], endpointId, capabilities, now);
    }
  }

  /** A connection that fails on the way closes its handler and changes nothing else. */
  lemma GivingUpCloses(s: System, h: nat)
    requires InPhase(s, h, Greeted) || InPhase(s, h, Admitted)
    ensures Enabled(s, GiveUp(h))
    ensures Next(s, GiveUp(h)) == s.(handlers := s.handlers[h := s.handlers[h].(phase := Closed)])
  {
  }

  /** What a handler can do where it stands; tickets and revocations can come at any time. */
  lemma WhatCanHappen(s: System, step: Step)
    ensures step.Connect? ==> (Enabled(s, step) <==> step.h !in s.handlers)
    ensures step.PresentToken? ==>
      (Enabled(s, step) <==> InPhase(s, step.h, Greeted) && s.handlers[step.h].token.Some?)
    ensures step.CheckRegistry? ==>
      (Enabled(s, step) <==> InPhase(s, step.h, Greeted) && s.handlers[step.h].token.None?)
    ensures step.TakeStamp? ==> (Enabled(s, step) <==> InPhase(s, step.h, Admitted) && s.instant <= step.instant)
    ensures step.Register? ==> (Enabled(s, step) <==> InPhase(s, step.h, Stamped))
    ensures step.ReportFocus? ==> (Enabled(s, step) <==> InPhase(s, step.h, Serving) && s.instant <= step.instant)
    ensures step.Disconnect? ==> (Enabled(s, step) <==> InPhase(s, step.h, Serving))
    ensures step.Generate? || step.Revoke? ==> Enabled(s, step)
  {
  }

  /** A handler's exit takes away the entry of its endpoint and no other. */
  lemma ExitDisconnects(s: System, h: nat)
    requires Enabled(s, Disconnect(h))
    ensures var s' := Next(s, Disconnect(h)); var k := s.handlers[h].endpointId;
      && InPhase(s', h, Closed)
      && s'.hub == s.hub.(clients := map j | j in s.hub.clients && j != k :: s.hub.clients[j])
  {
  }

  // ---------------------------------------------------------------------------
  // Focus
  // ---------------------------------------------------------------------------

  /** A device that just went idle comes behind every active device that can do the same. */
  lemma IdleComesBehind(s: System, h: nat, instant: int, capability: string, r: seq<ClientInfo>, i: nat, j: nat)
    requires Enabled(s, ReportFocus(h, Idle, instant)) && s.handlers[h].endpointId in s.hub.clients
    requires var s' := Next(s, ReportFocus(h, Idle, instant));
      && IsClientRanking(s'.hub.clients, capability, r) && i < |r| && j < |r|
      && r[i].endpointId == s.handlers[h].endpointId
      && s'.hub.clients[r[j].endpointId].focus == Active
    ensures j < i
  {
    var s' := Next(s, ReportFocus(h, Idle, instant));
    FocusReports(s.hub, s.handlers[h].endpointId, instant);
    assert s'.hub.clients[r[i].endpointId].focus == Idle;
    if i < j {
      ClientRankingOrder(s'.hub.clients, capability, r, i, j);
    }
  }

  // ---------------------------------------------------------------------------
  // Fan-out
  // ---------------------------------------------------------------------------

  /** Walking the client map adds each client that takes notifications, with its connection. */
  lemma {:induction false} TargetsStep(clients: map<string, ConnectedClient>, order: seq<string>, k: string)
    ensures Targets(clients, order + [k]) == Targets(clients, order)
              + (if k in clients && "Notify" in clients[k].capabilities then [(k, clients[k].connection)] else [])
  {
    if order == [] {
      assert [k][1..] == [] && [] + [k] == [k];
    } else {
      assert (order + [k])[1..] == order[1..] + [k];
      TargetsStep(clients, order[1..], k);
    }
  }

  /** The caller of a notification that no device takes is told so, and nothing is numbered. */
  lemma NobodyToNotify(s: System, f: nat, request: Request, order: seq<string>)
    requires Enabled(s, StartFanOut(f, request, order))
    ensures Targets(s.hub.clients, order) == []
       <==> forall k :: k in s.hub.clients ==> "Notify" !in s.hub.clients[k].capabilities
  {
    TargetsMembers(s.hub.clients, order);
    forall k | k in s.hub.clients && "Notify" in s.hub.clients[k].capabilities
      ensures Targets(s.hub.clients, order) != []
    {
      assert (k, s.hub.clients[k].connection) in Targets(s.hub.clients, order);
    }
    if Targets(s.hub.clients, order) != [] {
      assert Targets(s.hub.clients, order)[0] in Targets(s.hub.clients, order);
    }
  }

  lemma {:induction false} TargetsMembers(clients: map<string, ConnectedClient>, order: seq<string>)
    ensures forall t :: t in Targets(clients, order) <==>
      t.0 in order && t.0 in clients && "Notify" in clients[t.0].capabilities && t.1 == clients[t.0].connection
  {
    if order != [] {
      TargetsMembers(clients, order[1..]);
    }
  }

  /** The state of a delivery after some replies. */
  function Replied(s: System, f: nat, fan: Delivery, replies: seq<Reply>): System
    requires |replies| <= |fan.targets|
  {
    s.(fanOuts := s.fanOuts[f := fan.(replies := replies, sentTo := Reached(fan.targets, replies))])
  }

  lemma {:induction false} RepliesArrive(s: System, f: nat, replies: seq<Reply>)
    returns (states: seq<System>, steps: seq<Step>)
    requires Sending(s, f) && s.fanOuts[f].replies == [] && s.fanOuts[f].sentTo == []
    requires |replies| <= |s.fanOuts[f].targets|
    ensures Trace(states, steps) && states[0] == s
    ensures states[|steps|] == Replied(s, f, s.fanOuts[f], replies)
  {
    var fan := s.fanOuts[f];
    if replies == [] {
      states, steps := [s], [];
    } else {
      var init, last := replies[..|replies| - 1], replies[|replies| - 1];
      states, steps := RepliesArrive(s, f, init);
      OneReplyArrives(s, f, init, last);
      states, steps := Extended(states, steps, TargetReplies(f, last));
      assert replies == init + [last];
    }
  }

  lemma OneReplyArrives(s: System, f: nat, replies: seq<Reply>, reply: Reply)
    requires Sending(s, f) && |replies| < |s.fanOuts[f].targets|
    ensures var s' := Replied(s, f, s.fanOuts[f], replies);
      && Enabled(s', TargetReplies(f, reply))
      && Next(s', TargetReplies(f, reply)) == Replied(s, f, s.fanOuts[f], replies + [reply])
  {
    var fan := s.fanOuts[f];
    ReachedStep(fan.targets, replies, reply);
    var before := fan.(replies := replies, sentTo := Reached(fan.targets, replies));
    var after := fan.(replies := replies + [reply], sentTo := Reached(fan.targets, replies + [reply]));
    assert s.fanOuts[f := before][f := after] == s.fanOuts[f := after];
    if !reply.Ok? {
      assert Reached(fan.targets, replies) + [] == Reached(fan.targets, replies);
    }
  }

  /** A notification that some device takes can always run to its end, whatever the devices reply: the
      caller gets the new id, and the devices that replied Ok are stored under it. */
  lemma DeliveryRuns(s: System, f: nat, request: Request, order: seq<string>, replies: seq<Reply>)
    returns (states: seq<System>, steps: seq<Step>)
    requires f !in s.fanOuts && request.Notify? && Enumerates(order, s.hub.clients)
    requires var targets := Targets(s.hub.clients, order); targets != [] && |replies| == |targets|
    ensures Trace(states, steps) && states[0] == AfterStartFanOut(s, f, request, order)
    ensures Enabled(s, StartFanOut(f, request, order))
    ensures var s', targets := states[|steps|], Targets(s.hub.clients, order);
      && f in s'.fanOuts && s'.fanOuts[f].number == s.history.issued + 1
      && s'.fanOuts[f].outcome == Some(Ok(NotifyDelivered(s'.fanOuts[f].Id())))
      && s'.hub.notifications == s.hub.notifications[s'.fanOuts[f].Id() := Reached(targets, replies)]
      && s'.hub.clients == s.hub.clients && s'.hub.registry == s.hub.registry && s'.hub.tokens == s.hub.tokens
  {
    StartAddsDelivery(s, f, request, order);
    var s1 := AfterStartFanOut(s, f, request, order);
    states, steps := RepliesArrive(s1, f, replies);
    var s2 := states[|steps|];
    assert Enabled(s2, FinishFanOut(f));
    states, steps := Extended(states, steps, FinishFanOut(f));
  }

  // ---------------------------------------------------------------------------
  // What is recorded
  // ---------------------------------------------------------------------------

  /** A connection is recorded as revoked exactly when a saved revocation takes its entry away. */
  lemma RevokedIsRecordedIff(s: System, step: Step, h: nat)
    requires Safe(s) && Enabled(s, step) && h !in s.history.revoked
    ensures h in Next(s, step).history.revoked
       <==> step.Revoke? && exists k :: k in s.hub.clients && s.hub.clients[k].connection == h
                                        && k !in Next(s, step).hub.clients
  {
    if !step.Revoke? {
      OnlyRevokeRecords(s, step);
    }
  }

  lemma OnlyRevokeRecords(s: System, step: Step)
    requires Enabled(s, step) && !step.Revoke?
    ensures Next(s, step).history.revoked == s.history.revoked
  {
  }
}
