/** The agent's shared state and the operations its mutex guards. Each operation is a method on
    the `Hub` object, proved to compute a function of the state; the functions are what the
    interleaving of connection handlers is built from. */
module Hub {
  import opened Ordering
  import opened Peers
  import opened Protocol
  import opened Router
  import opened Wrappers
  import Decimal

  datatype ConnectedClient = ConnectedClient(
    endpointId: string,
    name: string,
    platform: string,
    connection: nat,
    focus: FocusState,
    capabilities: seq<string>,
    lastActive: int
  )

  datatype HubState = HubState(
    clients: map<string, ConnectedClient>,
    registry: seq<ClientEntry>,
    tokens: seq<PendingToken>,
    notifications: map<string, seq<string>>,
    counter: u64
  )

  const COUNTER_RANGE := 0x1_0000_0000_0000_0000

  // ---------------------------------------------------------------------------
  // The operations as functions of the state
  // ---------------------------------------------------------------------------

  function WithClient(h: HubState, c: ConnectedClient): HubState {
    h.(clients := h.clients[c.endpointId := c])
  }

  function WithoutClient(h: HubState, endpointId: string): HubState {
    h.(clients := h.clients - {endpointId})
  }

  /** Only a report of activity counts as use. */
  function WithFocus(h: HubState, endpointId: string, state: FocusState, now: int): HubState {
    if endpointId in h.clients then
      var c := h.clients[endpointId];
      var lastActive := if state == Active then now else c.lastActive;
      h.(clients := h.clients[endpointId := c.(lastActive := lastActive, focus := state)])
    else h
  }

  /** A report of activity makes its client active and used just now, a report of idleness makes it
      idle and leaves its time of use; nothing else changes, and nothing at all for an unknown id. */
  lemma FocusReports(h: HubState, endpointId: string, now: int)
    ensures forall state :: endpointId !in h.clients ==> WithFocus(h, endpointId, state, now) == h
    ensures forall state :: var h' := WithFocus(h, endpointId, state, now);
      h'.clients.Keys == h.clients.Keys && h' == h.(clients := h'.clients)
      && forall k :: k in h.clients && k != endpointId ==> h'.clients[k] == h.clients[k]
    ensures endpointId in h.clients ==>
      var c := h.clients[endpointId];
      && WithFocus(h, endpointId, Idle, now).clients[endpointId] == c.(focus := Idle)
      && WithFocus(h, endpointId, Active, now).clients[endpointId] == c.(focus := Active, lastActive := now)
  {
  }

  /** The counter is a u64 that wraps. */
  function NextCounter(counter: u64): u64 {
    (counter + 1) % COUNTER_RANGE
  }

  function NotificationId(number: nat): string {
    "n" + Decimal.Print(number)
  }

  lemma NotificationIdForm(number: nat)
    ensures var id := NotificationId(number); |id| > 1 && id[0] == 'n' && Decimal.Value(id[1..]) == number
  {
    Decimal.ValueOfPrint(number);
    assert NotificationId(number)[1..] == Decimal.Print(number);
  }

  function Live(tokens: seq<PendingToken>, now: int): seq<PendingToken> {
    Retain(tokens, (t: PendingToken) => !t.IsExpired(now))
  }

  predicate Valid(tokens: seq<PendingToken>, token: string, now: int) {
    exists t :: t in tokens && !t.IsExpired(now) && t.token == token
  }

  function WithToken(h: HubState, t: PendingToken): HubState {
    h.(tokens := h.tokens + [t])
  }

  /** Expired tokens go; a valid token goes with all its copies. */
  function TokensAfter(tokens: seq<PendingToken>, token: string, now: int): seq<PendingToken> {
    if Valid(tokens, token, now)
    then Retain(Live(tokens, now), (t: PendingToken) => t.token != token)
    else Live(tokens, now)
  }

  /** Consuming takes away the expired tokens and the copies of the one presented, and no other. */
  lemma TokensLeft(tokens: seq<PendingToken>, token: string, now: int)
    ensures forall t :: t in TokensAfter(tokens, token, now) <==> t in tokens && now <= t.expiresAt && t.token != token
  {
  }

  /** A token is valid exactly when a copy is left after pruning. */
  lemma ValidIffLive(tokens: seq<PendingToken>, token: string, now: int)
    ensures Valid(tokens, token, now)
       <==> exists i :: 0 <= i < |Live(tokens, now)| && Live(tokens, now)[i].token == token
  {
    var live := Live(tokens, now);
    if t :| t in tokens && !t.IsExpired(now) && t.token == token {
      assert t in live;
    }
    if i :| 0 <= i < |live| && live[i].token == token {
      assert live[i] in live;
    }
  }

  predicate Named(c: ConnectedClient, nameOrId: string) {
    c.endpointId == nameOrId || c.name == nameOrId
  }

  predicate Revokes(h: HubState, nameOrId: string) {
    exists c :: c in h.registry && Matches(c, nameOrId)
  }

  /** Connected clients go only when a registry entry matched and its removal was saved. */
  function Revoked(h: HubState, nameOrId: string, saved: bool): HubState {
    var clients := if Revokes(h, nameOrId) && saved
                   then map k | k in h.clients && !Named(h.clients[k], nameOrId) :: h.clients[k]
                   else h.clients;
    h.(registry := Remove(h.registry, nameOrId), clients := clients)
  }

  // ---------------------------------------------------------------------------
  // Routing over the client map
  // ---------------------------------------------------------------------------

  ghost predicate KeysMatch(clients: map<string, ConnectedClient>) {
    forall k :: k in clients ==> clients[k].endpointId == k
  }

  function InfoOf(c: ConnectedClient): ClientInfo {
    ClientInfo(c.endpointId, c.focus, c.capabilities, c.platform, c.lastActive)
  }

  /** The infos of some of the clients, each once, in any order. */
  ghost predicate Lists(clients: map<string, ConnectedClient>, keys: set<string>, infos: seq<ClientInfo>)
    requires keys <= clients.Keys
  {
    && DistinctIds(infos)
    && (forall k :: k in keys ==> InfoOf(clients[k]) in infos)
    && (forall i :: 0 <= i < |infos| ==>
          infos[i].endpointId in keys && infos[i] == InfoOf(clients[infos[i].endpointId]))
  }

  /** The capable connected clients, best first: said of the map, so of no iteration order. */
  ghost predicate IsClientRanking(clients: map<string, ConnectedClient>, capability: string, r: seq<ClientInfo>) {
    && StrictlySorted(r)
    && (forall k :: k in clients && capability in clients[k].capabilities ==> InfoOf(clients[k]) in r)
    && (forall i :: 0 <= i < |r| ==> r[i].endpointId in clients && r[i] == InfoOf(clients[r[i].endpointId])
                                     && capability in r[i].capabilities)
  }

  lemma RankingOfListing(clients: map<string, ConnectedClient>, infos: seq<ClientInfo>, capability: string,
                         r: seq<ClientInfo>)
    requires KeysMatch(clients) && Lists(clients, clients.Keys, infos) && IsRanking(infos, capability, r)
    ensures IsClientRanking(clients, capability, r)
  {
    assert forall i :: 0 <= i < |r| ==> r[i] in r;
  }

  /** Any two iteration orders of the client map give the same ranking. */
  lemma ClientRankingIsCanonical(clients: map<string, ConnectedClient>, capability: string, r: seq<ClientInfo>,
                                 s: seq<ClientInfo>)
    requires KeysMatch(clients)
    requires IsClientRanking(clients, capability, r) && IsClientRanking(clients, capability, s)
    ensures r == s
  {
    forall c
      ensures c in r <==> c in s
    {
      if c in r { assert InfoOf(clients[c.endpointId]) in s; }
      if c in s { assert InfoOf(clients[c.endpointId]) in r; }
    }
    StrictlySortedUnique(r, s);
  }

  /** What the order means for the map: active clients before idle ones, of equal focus the one used
      later first, of those used at the same time the smaller id first. */
  lemma ClientRankingOrder(clients: map<string, ConnectedClient>, capability: string, r: seq<ClientInfo>,
                           i: nat, j: nat)
    requires IsClientRanking(clients, capability, r) && i < j < |r|
    ensures var a, b := clients[r[i].endpointId], clients[r[j].endpointId];
      && (a.focus == Idle ==> b.focus == Idle)
      && (a.focus == b.focus ==> b.lastActive <= a.lastActive)
      && (a.focus == b.focus && a.lastActive == b.lastActive ==> StrLess(r[i].endpointId, r[j].endpointId))
  {
    assert IsRanking(r, capability, r);
    RankingOrder(r, capability, r, i, j);
  }

  /** An active client used later than every other one heads every ranking it is in. */
  lemma FreshestHeadsRanking(clients: map<string, ConnectedClient>, key: string, capability: string, r: seq<ClientInfo>)
    requires KeysMatch(clients) && IsClientRanking(clients, capability, r)
    requires key in clients && clients[key].focus == Active && capability in clients[key].capabilities
    requires forall k :: k in clients && k != key ==> clients[k].lastActive < clients[key].lastActive
    ensures r != [] && r[0].endpointId == key
  {
    var best := InfoOf(clients[key]);
    forall c | c in r && c != best
      ensures Before(best, c)
    {
      assert c == InfoOf(clients[c.endpointId]) && c.endpointId != key;
    }
    assert IsRanking(r, capability, r);
    BestIsHead(r, capability, r, best);
  }

  // ---------------------------------------------------------------------------
  // The object
  // ---------------------------------------------------------------------------

  class Hub {
    var clients: map<string, ConnectedClient>
    const registry: Registry<ClientDetails>
    var pendingTokens: seq<PendingToken>
    var pendingNotifications: map<string, seq<string>>
    var notificationCounter: u64

    constructor (registry: Registry<ClientDetails>)
      ensures this.registry == registry
      ensures State() == HubState(map[], registry.peers, [], map[], 0)
    {
      this.registry := registry;
      clients := map[];
      pendingTokens := [];
      pendingNotifications := map[];
      notificationCounter := 0;
    }

    ghost function State(): HubState
      reads this, registry
    {
      HubState(clients, registry.peers, pendingTokens, pendingNotifications, notificationCounter)
    }

    method AddClient(client: ConnectedClient)
      modifies this
      ensures State() == WithClient(old(State()), client)
    {
      clients := clients[client.endpointId := client];
    }

    method RemoveClient(endpointId: string)
      modifies this
      ensures State() == WithoutClient(old(State()), endpointId)
    {
      if endpointId in clients {
        clients := clients - {endpointId};
      }
    }

    method UpdateFocus(endpointId: string, state: FocusState, now: int)
      modifies this
      ensures State() == WithFocus(old(State()), endpointId, state, now)
    {
      if endpointId in clients {
        var c := clients[endpointId];
        if state == Active {
          c := c.(lastActive := now);
        }
        c := c.(focus := state);
        clients := clients[endpointId := c];
      }
    }

    method NextNotificationId() returns (id: string)
      modifies this
      ensures State() == old(State()).(counter := NextCounter(old(notificationCounter)))
      ensures id == NotificationId(notificationCounter)
    {
      notificationCounter := (notificationCounter + 1) % COUNTER_RANGE;
      id := "n" + Decimal.Print(notificationCounter);
    }

    /** A snapshot of every client, in the map's arbitrary iteration order. */
    method ClientInfos() returns (infos: seq<ClientInfo>)
      requires KeysMatch(clients)
      ensures Lists(clients, clients.Keys, infos)
    {
      infos := [];
      var keys := clients.Keys;
      while keys != {}
        invariant keys <= clients.Keys
        invariant Lists(clients, clients.Keys - keys, infos)
        decreases keys
      {
        var k :| k in keys;
        infos := infos + [InfoOf(clients[k])];
        keys := keys - {k};
      }
      assert clients.Keys - keys == clients.Keys;
    }

    /** The targets are the capable clients in ranking order, each with its connection. */
    ghost predicate RankedTargets(capability: string, targets: seq<(string, nat)>)
      reads this
    {
      exists ranking: seq<ClientInfo> :: IsClientRanking(clients, capability, ranking)
        && |targets| == |ranking|
        && forall i :: 0 <= i < |targets| ==>
             targets[i] == (ranking[i].endpointId, clients[ranking[i].endpointId].connection)
    }

    /** The routing order for a capability, with the connection of each client. */
    method RankedConnections(capability: string) returns (targets: seq<(string, nat)>, ghost ranking: seq<ClientInfo>)
      requires KeysMatch(clients)
      ensures RankedTargets(capability, targets)
      ensures IsClientRanking(clients, capability, ranking)
      ensures |targets| == |ranking|
      ensures forall i :: 0 <= i < |targets| ==>
        targets[i] == (ranking[i].endpointId, clients[ranking[i].endpointId].connection)
    {
      var infos := ClientInfos();
      var ranked := Rank(infos, capability);
      RankingOfListing(clients, infos, capability, ranked);
      ranking := ranked;
      targets := [];
      for i := 0 to |ranked|
        invariant |targets| == i
        invariant forall j :: 0 <= j < i ==>
          targets[j] == (ranked[j].endpointId, clients[ranked[j].endpointId].connection)
      {
        if ranked[i].endpointId in clients {
          targets := targets + [(ranked[i].endpointId, clients[ranked[i].endpointId].connection)];
        }
      }
    }

    method ConsumeToken(token: string, now: int) returns (valid: bool)
      modifies this
      ensures State() == old(State()).(tokens := TokensAfter(old(pendingTokens), token, now))
      ensures valid == Valid(old(pendingTokens), token, now)
    {
      ValidIffLive(pendingTokens, token, now);
      pendingTokens := Retain(pendingTokens, (t: PendingToken) => !t.IsExpired(now));
      assert pendingTokens == Live(old(pendingTokens), now);
      valid := false;
      for i := 0 to |pendingTokens|
        invariant valid <==> exists j :: 0 <= j < i && pendingTokens[j].token == token
      {
        if pendingTokens[i].token == token {
          valid := true;
        }
      }
      if valid {
        pendingTokens := Retain(pendingTokens, (t: PendingToken) => t.token != token);
      }
    }

    /** `token` is the random part of the ticket. Nothing is issued when the date library panics:
        that ends the request, without a reply and without a change. */
    method GenerateTicket(token: string, now: int, ttl: u64) returns (issued: bool)
      modifies this
      ensures issued == NewToken(token, now, ttl).Some?
      ensures State() == if issued then WithToken(old(State()), NewToken(token, now, ttl).value) else old(State())
    {
      var pending := NewToken(token, now, ttl);
      if pending.None? {
        return false;
      }
      pendingTokens := pendingTokens + [pending.value];
      return true;
    }

    method RevokeClient(nameOrId: string, saved: bool) returns (r: Result<Response, SubportalError>)
      requires KeysMatch(clients)
      modifies this, registry
      ensures State() == Revoked(old(State()), nameOrId, saved)
      ensures r == if !Revokes(old(State()), nameOrId) then Err(NotFound("no client matching '" + nameOrId + "'"))
                   else if !saved then Err(NotFound("failed to update registry for '" + nameOrId + "'"))
                   else Ok(Done)
    {
      var removed := registry.RemoveEntry(nameOrId, saved);
      match removed {
        case Err(_) =>
          return Err(NotFound("failed to update registry for '" + nameOrId + "'"));
        case Ok(false) =>
          return Err(NotFound("no client matching '" + nameOrId + "'"));
        case Ok(true) =>
      }
      ghost var before := clients;
      var keys, toDisconnect := clients.Keys, {};
      while keys != {}
        invariant keys <= clients.Keys && clients == before
        invariant toDisconnect == set k | k in clients.Keys - keys && Named(clients[k], nameOrId)
        decreases keys
      {
        var k :| k in keys;
        if Named(clients[k], nameOrId) {
          toDisconnect := toDisconnect + {clients[k].endpointId};
        }
        keys := keys - {k};
      }
      while toDisconnect != {}
        modifies this`clients
        invariant toDisconnect <= clients.Keys <= before.Keys
        invariant forall k :: k in clients ==> clients[k] == before[k]
        invariant forall k :: k in toDisconnect ==> Named(before[k], nameOrId)
        invariant forall k :: k in before ==> (k in clients <==> k in toDisconnect || !Named(before[k], nameOrId))
        decreases toDisconnect
      {
        var k :| k in toDisconnect;
        clients := clients - {k};
        toDisconnect := toDisconnect - {k};
      }
      assert clients == Revoked(old(State()), nameOrId, saved).clients;
      return Ok(Done);
    }

    method StoreNotification(id: string, sentTo: seq<string>)
      modifies this
      ensures State() == old(State()).(notifications := old(pendingNotifications)[id := sentTo])
    {
      pendingNotifications := pendingNotifications[id := sentTo];
    }
  }

  // ---------------------------------------------------------------------------
  // Requests that reach devices
  // ---------------------------------------------------------------------------

  function ConnectionOf(clients: map<string, ConnectedClient>, info: ClientInfo): nat
    requires info.endpointId in clients
  {
    clients[info.endpointId].connection
  }

  predicate CapableIn(clients: map<string, ConnectedClient>, capability: string, k: string) {
    k in clients && capability in clients[k].capabilities
  }

  /** k is the best capable client that is not unreachable. */
  ghost predicate BestReachable(clients: map<string, ConnectedClient>, capability: string, answer: nat -> Reply,
                                k: string) {
    && CapableIn(clients, capability, k)
    && answer(clients[k].connection) != Err(NoClient)
    && forall j :: CapableIn(clients, capability, j) && Before(InfoOf(clients[j]), InfoOf(clients[k])) ==>
         answer(clients[j].connection) == Err(NoClient)
  }

  /** A single-target request: rank under the lock, then fail over without it. `answer` gives
      the reply of each connection. The outcome is the reply of the best client that is not
      unreachable; only better-ranked clients were tried before it, and all were unreachable. */
  method HandleFailover(hub: Hub, capability: string, answer: nat -> Reply)
    returns (r: Reply, ghost ranking: seq<ClientInfo>, ghost contacted: nat)
    requires KeysMatch(hub.clients)
    ensures forall k :: BestReachable(hub.clients, capability, answer, k) ==> r == answer(hub.clients[k].connection)
    ensures r == Err(NoClient) <==>
      forall k :: CapableIn(hub.clients, capability, k) ==> answer(hub.clients[k].connection) == Err(NoClient)
    ensures IsClientRanking(hub.clients, capability, ranking)
    ensures contacted <= |ranking|
    ensures forall i :: 0 <= i < contacted - 1 ==> answer(ConnectionOf(hub.clients, ranking[i])) == Err(NoClient)
    ensures r != Err(NoClient) ==> contacted > 0 && r == answer(ConnectionOf(hub.clients, ranking[contacted - 1]))
    ensures r == Err(NoClient) ==> contacted == |ranking|
  {
    var targets;
    targets, ranking := hub.RankedConnections(capability);
    r, contacted := FailoverDecision(targets, answer);
    assert ConnectionsOf(hub.clients, ranking, targets);
    FailoverOnMap(hub.clients, capability, answer, ranking, targets, r);
  }

  ghost predicate ConnectionsOf(clients: map<string, ConnectedClient>, ranking: seq<ClientInfo>,
                                targets: seq<(string, nat)>) {
    && |targets| == |ranking|
    && forall i :: 0 <= i < |targets| ==>
         ranking[i].endpointId in clients && targets[i].1 == ConnectionOf(clients, ranking[i])
  }

  /** What failing over a ranking's connections means for the map. */
  lemma FailoverOnMap(clients: map<string, ConnectedClient>, capability: string, answer: nat -> Reply,
                      ranking: seq<ClientInfo>, targets: seq<(string, nat)>, r: Reply)
    requires KeysMatch(clients) && IsClientRanking(clients, capability, ranking)
    requires ConnectionsOf(clients, ranking, targets)
    requires forall k :: FirstReachable(targets, answer, k) ==> r == answer(targets[k].1)
    requires r == Err(NoClient) <==> forall i :: 0 <= i < |targets| ==> answer(targets[i].1) == Err(NoClient)
    ensures forall k :: BestReachable(clients, capability, answer, k) ==> r == answer(clients[k].connection)
    ensures r == Err(NoClient) <==>
      forall k :: CapableIn(clients, capability, k) ==> answer(clients[k].connection) == Err(NoClient)
  {
    assert r == Err(NoClient) <==> NoneReachable(clients, answer, ranking);
    NoneReachableIff(clients, capability, answer, ranking);
    forall k | BestReachable(clients, capability, answer, k)
      ensures r == answer(clients[k].connection)
    {
      var at := BestInRanking(clients, capability, answer, ranking, k);
      assert FirstReachable(targets, answer, at);
    }
  }

  ghost predicate NoneReachable(clients: map<string, ConnectedClient>, answer: nat -> Reply, ranking: seq<ClientInfo>)
    requires forall i :: 0 <= i < |ranking| ==> ranking[i].endpointId in clients
  {
    forall i :: 0 <= i < |ranking| ==> answer(ConnectionOf(clients, ranking[i])) == Err(NoClient)
  }

  lemma NoneReachableIff(clients: map<string, ConnectedClient>, capability: string, answer: nat -> Reply,
                         ranking: seq<ClientInfo>)
    requires KeysMatch(clients) && IsClientRanking(clients, capability, ranking)
    ensures NoneReachable(clients, answer, ranking)
       <==> forall k :: CapableIn(clients, capability, k) ==> answer(clients[k].connection) == Err(NoClient)
  {
    forall k | CapableIn(clients, capability, k)
      ensures exists i :: 0 <= i < |ranking| && ranking[i] == InfoOf(clients[k])
    {
      assert InfoOf(clients[k]) in ranking;
    }
    forall i | 0 <= i < |ranking|
      ensures CapableIn(clients, capability, ranking[i].endpointId)
    {
    }
  }

  /** In a ranking, every client in front of the best reachable one is unreachable. */
  lemma BestInRanking(clients: map<string, ConnectedClient>, capability: string, answer: nat -> Reply,
                      ranking: seq<ClientInfo>, k: string) returns (at: nat)
    requires KeysMatch(clients) && IsClientRanking(clients, capability, ranking)
    requires BestReachable(clients, capability, answer, k)
    ensures at < |ranking| && ranking[at] == InfoOf(clients[k])
    ensures forall i :: 0 <= i < at ==> answer(ConnectionOf(clients, ranking[i])) == Err(NoClient)
  {
    assert InfoOf(clients[k]) in ranking;
    at :| 0 <= at < |ranking| && ranking[at] == InfoOf(clients[k]);
    forall i | 0 <= i < at
      ensures answer(ConnectionOf(clients, ranking[i])) == Err(NoClient)
    {
      assert Before(ranking[i], ranking[at]);
      assert CapableIn(clients, capability, ranking[i].endpointId);
    }
  }

  /** The devices that took a notification, in the order they were tried. */
  function Reached(targets: seq<(string, nat)>, replies: seq<Reply>): seq<string>
    requires |replies| <= |targets|
  {
    if replies == [] then []
    else
      var n := |replies| - 1;
      Reached(targets, replies[..n]) + (if replies[n].Ok? then [targets[n].0] else [])
  }

  /** at lists the positions of the Ok replies, in order. */
  ghost predicate OkPositions(at: seq<nat>, replies: seq<Reply>) {
    && (forall m :: 0 <= m < |at| ==> at[m] < |replies| && replies[at[m]].Ok?)
    && (forall m, n :: 0 <= m < n < |at| ==> at[m] < at[n])
    && (forall i :: 0 <= i < |replies| && replies[i].Ok? ==> i in at)
  }

  lemma OneReplyMore(at: seq<nat>, replies: seq<Reply>, reply: Reply)
    requires OkPositions(at, replies)
    ensures OkPositions(if reply.Ok? then at + [|replies|] else at, replies + [reply])
  {
    var after := if reply.Ok? then at + [|replies|] else at;
    forall i | 0 <= i <= |replies| && (replies + [reply])[i].Ok?
      ensures i in after
    {
      assert i < |replies| ==> replies[i].Ok? && i in at;
    }
  }

  lemma ReachedStep(targets: seq<(string, nat)>, replies: seq<Reply>, reply: Reply)
    requires |replies| < |targets|
    ensures Reached(targets, replies + [reply])
         == Reached(targets, replies) + (if reply.Ok? then [targets[|replies|].0] else [])
  {
    assert (replies + [reply])[..|replies|] == replies;
  }

  /** r holds the targets at those positions. */
  ghost predicate Picks(at: seq<nat>, targets: seq<(string, nat)>, r: seq<string>) {
    |at| == |r| && forall m :: 0 <= m < |at| ==> at[m] < |targets| && r[m] == targets[at[m]].0
  }

  lemma OnePickMore(at: seq<nat>, targets: seq<(string, nat)>, r: seq<string>, n: nat)
    requires Picks(at, targets, r) && n < |targets|
    ensures Picks(at + [n], targets, r + [targets[n].0])
    ensures r + [] == r
  {
  }

  lemma {:induction false} PositionsExtend(at: seq<nat>, targets: seq<(string, nat)>, replies: seq<Reply>, reply: Reply)
    returns (after: seq<nat>)
    requires |replies| < |targets|
    requires OkPositions(at, replies) && Picks(at, targets, Reached(targets, replies))
    ensures OkPositions(after, replies + [reply]) && Picks(after, targets, Reached(targets, replies + [reply]))
  {
    var n := |replies|;
    after := if reply.Ok? then at + [n] else at;
    OneReplyMore(at, replies, reply);
    ReachedStep(targets, replies, reply);
    OnePickMore(at, targets, Reached(targets, replies), n);
  }

  /** They are the targets that answered Ok, all of them, in target order. */
  lemma {:induction false} ReachedIsSubsequence(targets: seq<(string, nat)>, replies: seq<Reply>) returns (at: seq<nat>)
    requires |replies| <= |targets|
    ensures OkPositions(at, replies) && Picks(at, targets, Reached(targets, replies))
  {
    if replies == [] {
      at := [];
    } else {
      var n := |replies| - 1;
      var before := ReachedIsSubsequence(targets, replies[..n]);
      at := PositionsExtend(before, targets, replies[..n], replies[n]);
      assert replies == replies[..n] + [replies[n]];
    }
  }

  method SendToAll(targets: seq<(string, nat)>, answer: nat -> Reply) returns (sentTo: seq<string>)
    ensures sentTo == Reached(targets, seq(|targets|, i requires 0 <= i < |targets| => answer(targets[i].1)))
  {
    sentTo := [];
    ghost var replies := seq(|targets|, i requires 0 <= i < |targets| => answer(targets[i].1));
    for i := 0 to |targets|
      invariant sentTo == Reached(targets, replies[..i])
    {
      if answer(targets[i].1).Ok? {
        sentTo := sentTo + [targets[i].0];
      }
      assert replies[..i + 1][..i] == replies[..i];
    }
    assert replies[..|targets|] == replies;
  }
}
