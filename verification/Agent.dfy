/** The agent at work: any number of connection handlers, enrollment requests and notification
    fan-outs interleave over the hub. One step is one critical section of the hub's mutex, or
    one action between two of them. `History` records what the properties talk about and is
    never read by a step. */
module Agent {
  import opened Hub
  import opened Peers
  import opened Protocol
  import opened Requests
  import opened Router
  import opened Wrappers

  // ---------------------------------------------------------------------------
  // State
  // ---------------------------------------------------------------------------

  /** Where a connection handler is: hello read, token or registry checked, activity stamp
      taken, registered and reading control messages, gone. */
  datatype Phase = Greeted | Admitted | Stamped | Serving | Closed

  datatype Handler = Handler(
    endpointId: string,
    name: string,
    platform: string,
    capabilities: seq<string>,
    token: Option<string>,
    phase: Phase,
    stamp: int
  )

  /** A notification on its way to its targets, one reply at a time. */
  datatype Delivery = Delivery(
    number: nat,
    request: Request,
    targets: seq<(string, nat)>,
    message: Json,
    replies: seq<Reply>,
    sentTo: seq<string>,
    outcome: Option<Reply>
  )
  {
    /** The counter wraps at 64 bits. */
    function Id(): string {
      NotificationId(number % COUNTER_RANGE)
    }
  }

  datatype Acceptance = Acceptance(token: string, at: int, endpointId: string)

  datatype History = History(
    generated: seq<PendingToken>,
    accepted: seq<Acceptance>,
    admitted: set<string>,
    revoked: set<nat>,
    issued: nat
  )

  /** `instant` is the latest reading of the monotone clock. */
  datatype System = System(
    hub: HubState,
    handlers: map<nat, Handler>,
    fanOuts: map<nat, Delivery>,
    instant: int,
    history: History
  )

  ghost predicate Initial(s: System) {
    && s.hub.clients == map[] && s.hub.tokens == [] && s.hub.notifications == map[] && s.hub.counter == 0
    && s.handlers == map[] && s.fanOuts == map[]
    && s.history == History([], [], {}, {}, 0)
  }

  // ---------------------------------------------------------------------------
  // Steps
  // ---------------------------------------------------------------------------

  datatype Step =
    | Connect(h: nat, endpointId: string, name: string, platform: string, capabilities: seq<string>,
              token: Option<string>)
    | PresentToken(h: nat, now: int, saved: bool)
    | CheckRegistry(h: nat)
    | GiveUp(h: nat)
    | TakeStamp(h: nat, instant: int)
    | Register(h: nat, now: int)
    | ReportFocus(h: nat, state: FocusState, instant: int)
    | Disconnect(h: nat)
    | Generate(newToken: string, now: int, ttl: u64)
    | Revoke(nameOrId: string, saved: bool)
    | StartFanOut(f: nat, request: Request, order: seq<string>)
    | TargetReplies(f: nat, reply: Reply)
    | FinishFanOut(f: nat)

  predicate InPhase(s: System, h: nat, phase: Phase) {
    h in s.handlers && s.handlers[h].phase == phase
  }

  /** An iteration order of the client map. */
  ghost predicate Enumerates(order: seq<string>, clients: map<string, ConnectedClient>) {
    && (forall k :: k in order <==> k in clients)
    && forall i, j :: 0 <= i < j < |order| ==> order[i] != order[j]
  }

  predicate Sending(s: System, f: nat) {
    f in s.fanOuts && s.fanOuts[f].outcome.None?
  }

  ghost predicate Enabled(s: System, step: Step) {
    match step
    case Connect(h, _, _, _, _, _) => h !in s.handlers
    case PresentToken(h, _, _) => InPhase(s, h, Greeted) && s.handlers[h].token.Some?
    case CheckRegistry(h) => InPhase(s, h, Greeted) && s.handlers[h].token.None?
    case GiveUp(h) => InPhase(s, h, Greeted) || InPhase(s, h, Admitted)
    case TakeStamp(h, instant) => InPhase(s, h, Admitted) && s.instant <= instant
    case Register(h, _) => InPhase(s, h, Stamped)
    case ReportFocus(h, _, instant) => InPhase(s, h, Serving) && s.instant <= instant
    case Disconnect(h) => InPhase(s, h, Serving)
    case Generate(_, _, _) => true
    case Revoke(_, _) => true
    case StartFanOut(f, request, order) => f !in s.fanOuts && request.Notify? && Enumerates(order, s.hub.clients)
    case TargetReplies(f, _) => Sending(s, f) && |s.fanOuts[f].replies| < |s.fanOuts[f].targets|
    case FinishFanOut(f) => Sending(s, f) && |s.fanOuts[f].replies| == |s.fanOuts[f].targets|
  }

  function WithPhase(s: System, h: nat, phase: Phase): System
    requires h in s.handlers
  {
    s.(handlers := s.handlers[h := s.handlers[h].(phase := phase)])
  }

  function EnrolledEntry(c: Handler, now: int): ClientEntry {
    Peer(c.endpointId, c.name, ClientDetails(now, Some(now), c.capabilities))
  }

  /** Enrollment: one critical section consumes the token and registers the client. A failed
      save ends the handler, though memory has already changed. */
  function AfterPresentToken(s: System, h: nat, now: int, saved: bool): System
    requires h in s.handlers && s.handlers[h].token.Some?
  {
    var c := s.handlers[h];
    var token := c.token.value;
    var tokens := TokensAfter(s.hub.tokens, token, now);
    if Valid(s.hub.tokens, token, now) then
      WithPhase(s, h, if saved then Admitted else Closed).(
        hub := s.hub.(tokens := tokens, registry := Add(s.hub.registry, EnrolledEntry(c, now))),
        history := s.history.(
          accepted := s.history.accepted + [Acceptance(token, now, c.endpointId)],
          admitted := s.history.admitted + {c.endpointId}))
    else
      WithPhase(s, h, Closed).(hub := s.hub.(tokens := tokens))
  }

  function AfterCheckRegistry(s: System, h: nat): System
    requires h in s.handlers
  {
    if FindById(s.hub.registry, s.handlers[h].endpointId).Some? then
      WithPhase(s, h, Admitted).(history := s.history.(admitted := s.history.admitted + {s.handlers[h].endpointId}))
    else WithPhase(s, h, Closed)
  }

  function ClientOf(h: nat, c: Handler): ConnectedClient {
    ConnectedClient(c.endpointId, c.name, c.platform, h, Active, c.capabilities, c.stamp)
  }

  function AfterRegister(s: System, h: nat, now: int): System
    requires h in s.handlers
  {
    var c := s.handlers[h];
    var hub := WithClient(s.hub, ClientOf(h, c));
    WithPhase(s, h, Serving).(hub := hub.(registry := Touch(hub.registry, c.endpointId, c.capabilities, now)))
  }

  function AfterRevoke(s: System, nameOrId: string, saved: bool): System {
    var hub := Revoked(s.hub, nameOrId, saved);
    var gone := set k | k in s.hub.clients && k !in hub.clients :: s.hub.clients[k].connection;
    s.(hub := hub, history := s.history.(revoked := s.history.revoked + gone))
  }

  /** The message forwarded to devices: the request with the notification id added. */
  function Forwarded(request: Request, id: string): Json {
    Injected(ToJson(request), "notification_id", Text(id))
  }

  /** Targets in iteration order, each with its connection. */
  function Targets(clients: map<string, ConnectedClient>, order: seq<string>): (r: seq<(string, nat)>)
  {
    if order == [] then []
    else (if order[0] in clients && "Notify" in clients[order[0]].capabilities
          then [(order[0], clients[order[0]].connection)] else [])
         + Targets(clients, order[1..])
  }

  function NewDelivery(number: nat, request: Request, targets: seq<(string, nat)>, id: string): Delivery
    requires request.Notify?
  {
    Delivery(number, request, targets, Forwarded(request, id), [], [], None)
  }

  /** Nothing happens when no client takes notifications: the request fails with NoClient. */
  function AfterStartFanOut(s: System, f: nat, request: Request, order: seq<string>): System
    requires request.Notify?
  {
    var targets := Targets(s.hub.clients, order);
    if targets == [] then s
    else
      var counter := NextCounter(s.hub.counter);
      var fan := NewDelivery(s.history.issued + 1, request, targets, NotificationId(counter));
      s.(hub := s.hub.(counter := counter),
         fanOuts := s.fanOuts[f := fan],
         history := s.history.(issued := s.history.issued + 1))
  }

  function AfterTargetReplies(s: System, f: nat, reply: Reply): System
    requires f in s.fanOuts && |s.fanOuts[f].replies| < |s.fanOuts[f].targets|
  {
    var fan := s.fanOuts[f];
    var sentTo := if reply.Ok? then fan.sentTo + [fan.targets[|fan.replies|].0] else fan.sentTo;
    s.(fanOuts := s.fanOuts[f := fan.(replies := fan.replies + [reply], sentTo := sentTo)])
  }

  function AfterFinishFanOut(s: System, f: nat): System
    requires f in s.fanOuts
  {
    var fan := s.fanOuts[f];
    s.(hub := s.hub.(notifications := s.hub.notifications[fan.Id() := fan.sentTo]),
       fanOuts := s.fanOuts[f := fan.(outcome := Some(Ok(NotifyDelivered(fan.Id()))))])
  }

  ghost function Next(s: System, step: Step): System
    requires Enabled(s, step)
  {
    match step
    case Connect(h, endpointId, name, platform, capabilities, token) =>
      s.(handlers := s.handlers[h := Handler(endpointId, name, platform, capabilities, token, Greeted, 0)])
    case PresentToken(h, now, saved) => AfterPresentToken(s, h, now, saved)
    case CheckRegistry(h) => AfterCheckRegistry(s, h)
    case GiveUp(h) => WithPhase(s, h, Closed)
    case TakeStamp(h, instant) =>
      s.(handlers := s.handlers[h := s.handlers[h].(phase := Stamped, stamp := instant)], instant := instant)
    case Register(h, now) => AfterRegister(s, h, now)
    case ReportFocus(h, state, instant) =>
      s.(hub := WithFocus(s.hub, s.handlers[h].endpointId, state, instant), instant := instant)
    case Disconnect(h) =>
      WithPhase(s, h, Closed).(hub := WithoutClient(s.hub, s.handlers[h].endpointId))
    case Generate(newToken, now, ttl) =>
      (match NewToken(newToken, now, ttl)
       case Some(t) => s.(hub := WithToken(s.hub, t), history := s.history.(generated := s.history.generated + [t]))
       case None => s)
    case Revoke(nameOrId, saved) => AfterRevoke(s, nameOrId, saved)
    case StartFanOut(f, request, order) => AfterStartFanOut(s, f, request, order)
    case TargetReplies(f, reply) => AfterTargetReplies(s, f, reply)
    case FinishFanOut(f) => AfterFinishFanOut(s, f)
  }

  /** States linked by enabled steps. */
  ghost predicate Trace(states: seq<System>, steps: seq<Step>) {
    && |states| == |steps| + 1
    && forall i :: 0 <= i < |steps| ==> Enabled(states[i], steps[i]) && states[i + 1] == Next(states[i], steps[i])
  }

  /** A run starts in an initial state. */
  ghost predicate Run(states: seq<System>, steps: seq<Step>) {
    Trace(states, steps) && Initial(states[0])
  }

  // ---------------------------------------------------------------------------
  // Connected clients
  // ---------------------------------------------------------------------------

  /** Each key is its entry's endpoint id, was admitted, and its entry was inserted by a
      handler that is still serving that endpoint. */
  ghost predicate ClientsSafe(s: System) {
    forall k :: k in s.hub.clients ==>
      var c := s.hub.clients[k];
      && c.endpointId == k
      && k in s.history.admitted
      && InPhase(s, c.connection, Serving)
      && s.handlers[c.connection].endpointId == k
      && c.lastActive <= s.instant
  }

  /** A handler past its check was admitted by it; stamps are in the past. */
  ghost predicate HandlersSafe(s: System) {
    forall h :: h in s.handlers ==>
      var c := s.handlers[h];
      && (c.phase in {Admitted, Stamped, Serving} ==> c.endpointId in s.history.admitted)
      && (c.phase == Stamped ==> c.stamp <= s.instant)
  }

  lemma ChecksKeepHandlersSafe(s: System, step: Step)
    requires HandlersSafe(s) && Enabled(s, step) && (step.PresentToken? || step.CheckRegistry?)
    ensures HandlersSafe(Next(s, step))
  {
  }

  lemma PhasesKeepHandlersSafe(s: System, step: Step)
    requires HandlersSafe(s) && Enabled(s, step)
    requires step.Connect? || step.GiveUp? || step.TakeStamp? || step.Register? || step.Disconnect?
    ensures HandlersSafe(Next(s, step))
  {
  }

  /** The other steps change no handler. */
  lemma OtherStepsKeepHandlers(s: System, step: Step)
    requires Enabled(s, step) && !step.PresentToken? && !step.CheckRegistry?
    requires !step.Connect? && !step.GiveUp? && !step.TakeStamp? && !step.Register? && !step.Disconnect?
    ensures var s' := Next(s, step);
      s'.handlers == s.handlers && s'.history.admitted == s.history.admitted && s.instant <= s'.instant
  {
  }

  lemma HandlersStaySafe(s: System, step: Step)
    requires HandlersSafe(s) && Enabled(s, step)
    ensures HandlersSafe(Next(s, step))
  {
    if step.PresentToken? || step.CheckRegistry? {
      ChecksKeepHandlersSafe(s, step);
    } else if step.Connect? || step.GiveUp? || step.TakeStamp? || step.Register? || step.Disconnect? {
      PhasesKeepHandlersSafe(s, step);
    } else {
      OtherStepsKeepHandlers(s, step);
    }
  }

  /** The steps that may change the client map. */
  predicate TouchesClients(step: Step) {
    step.Register? || step.ReportFocus? || step.Disconnect? || step.Revoke?
  }

  /** Neither the client map nor a serving handler changes; clock and admissions only grow. */
  ghost predicate SameClients(s: System, s': System) {
    && s'.hub.clients == s.hub.clients
    && (forall h :: InPhase(s, h, Serving) ==> h in s'.handlers && s'.handlers[h] == s.handlers[h])
    && s.history.admitted <= s'.history.admitted
    && s'.history.revoked == s.history.revoked
    && s.instant <= s'.instant
  }

  lemma ChecksKeepClients(s: System, step: Step)
    requires Enabled(s, step) && (step.PresentToken? || step.CheckRegistry?)
    ensures SameClients(s, Next(s, step))
  {
  }

  lemma PhasesKeepClients(s: System, step: Step)
    requires Enabled(s, step) && (step.Connect? || step.GiveUp? || step.TakeStamp?)
    ensures SameClients(s, Next(s, step))
  {
  }

  lemma RequestsKeepClients(s: System, step: Step)
    requires Enabled(s, step)
    requires step.Generate? || step.StartFanOut? || step.TargetReplies? || step.FinishFanOut?
    ensures SameClients(s, Next(s, step))
  {
  }

  /** The other steps leave it alone, and every serving handler with it. */
  lemma OtherStepsKeepClients(s: System, step: Step)
    requires Enabled(s, step) && !TouchesClients(step)
    ensures SameClients(s, Next(s, step))
  {
    if step.PresentToken? || step.CheckRegistry? {
      ChecksKeepClients(s, step);
    } else if step.Connect? || step.GiveUp? || step.TakeStamp? {
      PhasesKeepClients(s, step);
    } else {
      RequestsKeepClients(s, step);
    }
  }

  lemma RegisterKeepsClientsSafe(s: System, h: nat, now: int)
    requires ClientsSafe(s) && HandlersSafe(s) && Enabled(s, Register(h, now))
    ensures ClientsSafe(Next(s, Register(h, now)))
  {
    var s' := Next(s, Register(h, now));
    var k := s.handlers[h].endpointId;
    assert s'.hub.clients == s.hub.clients[k := ClientOf(h, s.handlers[h])];
  }

  lemma FocusKeepsClientsSafe(s: System, step: Step)
    requires ClientsSafe(s) && Enabled(s, step) && step.ReportFocus?
    ensures ClientsSafe(Next(s, step))
  {
  }

  lemma DisconnectKeepsClientsSafe(s: System, step: Step)
    requires ClientsSafe(s) && Enabled(s, step) && step.Disconnect?
    ensures ClientsSafe(Next(s, step))
  {
  }

  lemma RevokeKeepsClientsSafe(s: System, step: Step)
    requires ClientsSafe(s) && Enabled(s, step) && step.Revoke?
    ensures ClientsSafe(Next(s, step))
  {
  }

  lemma ClientsStaySafe(s: System, step: Step)
    requires ClientsSafe(s) && HandlersSafe(s) && Enabled(s, step)
    ensures ClientsSafe(Next(s, step))
  {
    match step {
      case Register(h, now) => RegisterKeepsClientsSafe(s, h, now);
      case ReportFocus(_, _, _) => FocusKeepsClientsSafe(s, step);
      case Disconnect(_) => DisconnectKeepsClientsSafe(s, step);
      case Revoke(_, _) => RevokeKeepsClientsSafe(s, step);
      case _ => OtherStepsKeepClients(s, step);
    }
  }
}
