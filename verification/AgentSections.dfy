/** The agent's critical sections as code over the `Hub` object: each leaves the hub in exactly
    the state the corresponding step of the interleaving model gives. */
module AgentSections {
  import opened Agent
  import opened Hub
  import opened Peers
  import opened Protocol
  import opened Router
  import opened Wrappers
  import AgentSafety

  /** Consume the token and enroll the client, in one critical section. */
  method PresentTokenSection(hub: Hub, c: Handler, now: int, saved: bool, ghost s: System, ghost h: nat)
    returns (admitted: bool)
    requires hub.State() == s.hub
    requires h in s.handlers && s.handlers[h] == c && c.token.Some? && c.phase == Greeted
    modifies hub, hub.registry
    ensures hub.State() == AfterPresentToken(s, h, now, saved).hub
    ensures admitted <==> AfterPresentToken(s, h, now, saved).handlers[h].phase == Admitted
  {
    var valid := hub.ConsumeToken(c.token.value, now);
    if !valid {
      return false;
    }
    admitted := hub.registry.AddEntry(EnrolledEntry(c, now), saved);
  }

  /** Insert the connected client and refresh its registry entry. */
  method RegisterSection(hub: Hub, c: Handler, h: nat, now: int, ghost s: System)
    requires hub.State() == s.hub && h in s.handlers && s.handlers[h] == c
    modifies hub, hub.registry
    ensures hub.State() == AfterRegister(s, h, now).hub
  {
    hub.AddClient(ClientOf(h, c));
    TouchEntry(hub.registry, c.endpointId, c.capabilities, now);
  }

  lemma TargetsOfCapable(clients: map<string, ConnectedClient>, infos: seq<ClientInfo>)
    requires forall i :: 0 <= i < |infos| ==>
      infos[i].endpointId in clients && infos[i] == InfoOf(clients[infos[i].endpointId])
    ensures var capable := Capable(infos, "Notify");
      && (forall i :: 0 <= i < |capable| ==> capable[i].endpointId in clients)
      && Targets(clients, Order(infos)) == WithConnections(clients, capable)
  {
    if infos != [] {
      TargetsOfCapable(clients, infos[1..]);
      assert Order(infos) == [infos[0].endpointId] + Order(infos[1..]);
      var capable := Capable(infos[1..], "Notify");
      assert WithConnections(clients, [infos[0]] + capable)
          == [(infos[0].endpointId, clients[infos[0].endpointId].connection)] + WithConnections(clients, capable);
    }
  }

  function Order(infos: seq<ClientInfo>): seq<string> {
    seq(|infos|, i requires 0 <= i < |infos| => infos[i].endpointId)
  }

  function WithConnections(clients: map<string, ConnectedClient>, infos: seq<ClientInfo>): seq<(string, nat)>
    requires forall i :: 0 <= i < |infos| ==> infos[i].endpointId in clients
  {
    seq(|infos|, i requires 0 <= i < |infos| => (infos[i].endpointId, clients[infos[i].endpointId].connection))
  }

  /** The first locked section of a fan-out: find the targets, number the notification, build
      the message to forward. */
  method BeginFanOut(hub: Hub, request: Request)
    returns (r: Result<(seq<(string, nat)>, string, Json), SubportalError>, ghost order: seq<string>)
    requires request.Notify? && KeysMatch(hub.clients)
    modifies hub
    ensures Enumerates(order, old(hub.clients))
    ensures var targets := Targets(old(hub.clients), order);
      if targets == [] then
        r == Err(NoClient) && hub.State() == old(hub.State())
      else
        var id := NotificationId(hub.notificationCounter);
        && r == Ok((targets, id, Forwarded(request, id)))
        && hub.State() == old(hub.State()).(counter := NextCounter(old(hub.notificationCounter)))
  {
    var infos := hub.ClientInfos();
    order := Order(infos);
    assert forall k :: k in hub.clients ==> InfoOf(hub.clients[k]) in infos;
    EnumeratesOrder(hub.clients, infos);
    var capable := FanOutTargets(infos, "Notify");
    TargetsOfCapable(hub.clients, infos);
    if capable == [] {
      return Err(NoClient), order;
    }
    var targets := WithConnections(hub.clients, capable);
    var id := hub.NextNotificationId();
    return Ok((targets, id, Forwarded(request, id))), order;
  }

  lemma EnumeratesOrder(clients: map<string, ConnectedClient>, infos: seq<ClientInfo>)
    requires KeysMatch(clients) && Lists(clients, clients.Keys, infos)
    ensures Enumerates(Order(infos), clients)
  {
    forall k | k in clients
      ensures k in Order(infos)
    {
      var i :| 0 <= i < |infos| && infos[i] == InfoOf(clients[k]);
      assert Order(infos)[i] == k;
    }
  }

  /** A whole fan-out without interference: the notification is stored under the id that was
      forwarded and that the caller gets, with exactly the devices that took it. */
  method FanOut(hub: Hub, request: Request, answer: nat -> Reply)
    returns (r: Reply, ghost order: seq<string>)
    requires request.Notify? && KeysMatch(hub.clients)
    modifies hub
    ensures Enumerates(order, old(hub.clients))
    ensures var targets := Targets(old(hub.clients), order);
      if targets == [] then r == Err(NoClient) && hub.State() == old(hub.State())
      else
        var id := NotificationId(NextCounter(old(hub.notificationCounter)));
        var replies := seq(|targets|, i requires 0 <= i < |targets| => answer(targets[i].1));
        && r == Ok(NotifyDelivered(id))
        && hub.State() == old(hub.State()).(
             counter := NextCounter(old(hub.notificationCounter)),
             notifications := old(hub.pendingNotifications)[id := Reached(targets, replies)])
  {
    var begun;
    begun, order := BeginFanOut(hub, request);
    if begun.Err? {
      return Err(begun.error), order;
    }
    var (targets, id, _) := begun.value;
    var sentTo := SendToAll(targets, answer);
    hub.StoreNotification(id, sentTo);
    return Ok(NotifyDelivered(id)), order;
  }

  /** The first section of a fan-out is the model's step, for some enumeration of the map. */
  method StartFanOutSection(hub: Hub, request: Request, ghost s: System, ghost f: nat)
    returns (r: Result<(seq<(string, nat)>, string, Json), SubportalError>, ghost order: seq<string>)
    requires hub.State() == s.hub && f !in s.fanOuts && request.Notify? && KeysMatch(hub.clients)
    requires s.hub.counter == s.history.issued % COUNTER_RANGE
    modifies hub
    ensures Enabled(s, StartFanOut(f, request, order))
    ensures var s' := AfterStartFanOut(s, f, request, order);
      && hub.State() == s'.hub
      && match r
         case Ok((targets, id, message)) =>
           && f in s'.fanOuts && s'.fanOuts[f].targets == targets
           && s'.fanOuts[f].Id() == id && s'.fanOuts[f].message == message
         case Err(e) => e == NoClient && s' == s
  {
    r, order := BeginFanOut(hub, request);
    StartFanOutMeans(s, f, request, order);
  }

  lemma StartFanOutMeans(s: System, f: nat, request: Request, order: seq<string>)
    requires request.Notify? && s.hub.counter == s.history.issued % COUNTER_RANGE
    ensures var s' := AfterStartFanOut(s, f, request, order);
      var targets, counter := Targets(s.hub.clients, order), NextCounter(s.hub.counter);
      if targets == [] then s' == s
      else
        && f in s'.fanOuts && s'.hub == s.hub.(counter := counter)
        && Carries(s'.fanOuts[f], request, targets, counter)
  {
    AgentSafety.StartAddsDelivery(s, f, request, order);
    NewDeliveryCarries(s.history.issued + 1, request, Targets(s.hub.clients, order), NextCounter(s.hub.counter));
    AgentSafety.CounterStep(s.history.issued);
  }

  predicate Carries(fan: Delivery, request: Request, targets: seq<(string, nat)>, counter: u64) {
    && fan.targets == targets
    && fan.Id() == NotificationId(counter)
    && fan.message == Forwarded(request, NotificationId(counter))
  }

  lemma NewDeliveryCarries(number: nat, request: Request, targets: seq<(string, nat)>, counter: u64)
    requires request.Notify?
    ensures counter == number % COUNTER_RANGE ==>
      Carries(NewDelivery(number, request, targets, NotificationId(counter)), request, targets, counter)
  {
  }

  /** So is the second, whatever happened to the hub since the first. */
  method FinishFanOutSection(hub: Hub, id: string, sentTo: seq<string>, ghost s: System, ghost f: nat)
    returns (r: Reply)
    requires hub.State() == s.hub && Enabled(s, FinishFanOut(f))
    requires id == s.fanOuts[f].Id() && sentTo == s.fanOuts[f].sentTo
    modifies hub
    ensures hub.State() == AfterFinishFanOut(s, f).hub
    ensures AfterFinishFanOut(s, f).fanOuts[f].outcome == Some(r)
  {
    hub.StoreNotification(id, sentTo);
    return Ok(NotifyDelivered(id));
  }
}
