/** `subportal confirm`, from the events each device sees to the exit code the caller gets. */
module ConfirmEndToEnd {
  import opened Desktop
  import opened Protocol
  import opened Requests
  import opened Router
  import opened Wrappers
  import ConfirmQueues

  /** A device in the race. A desktop shows a prompt and sees notification events until its
      own timeout or the end of the stream; a phone reports its user's decision. */
  datatype Device =
    | Unreachable
    | TaskCrashed
    | DesktopCannotShow
    | DesktopPrompt(promptId: int, events: seq<ConfirmEvent>)
    | Phone(decision: ConfirmDecision)

  // ---------------------------------------------------------------------------
  // What the users did
  // ---------------------------------------------------------------------------

  ghost predicate Approves(d: Device) {
    match d
    case DesktopPrompt(id, events) =>
      exists k :: FirstAbout(events, id, k) && events[k] == Invoked(id, "approve")
    case Phone(decision) => decision == Approved
    case _ => false
  }

  ghost predicate Denies(d: Device) {
    match d
    case DesktopPrompt(id, events) =>
      exists k :: FirstAbout(events, id, k)
        && ((events[k].Invoked? && events[k].action != "approve")
            || (events[k].Closed? && events[k].reason == 2))
    case Phone(decision) => decision == Denied
    case _ => false
  }

  predicate Asked(d: Device) {
    d.DesktopCannotShow? || d.DesktopPrompt? || d.Phone?
  }

  ghost predicate Decides(d: Device) {
    Approves(d) || Denies(d)
  }

  /** The first device in arrival order whose user decided, if any, has property p. */
  ghost predicate FirstToDecide(arrivals: seq<(string, Device)>, p: Device -> bool) {
    exists k :: 0 <= k < |arrivals| && Decides(arrivals[k].1) && p(arrivals[k].1)
      && forall i :: 0 <= i < k ==> !Decides(arrivals[i].1)
  }

  ghost predicate NobodyDecides(arrivals: seq<(string, Device)>) {
    forall i :: 0 <= i < |arrivals| ==> !Decides(arrivals[i].1)
  }

  ghost predicate SomeoneAsked(arrivals: seq<(string, Device)>) {
    exists i :: 0 <= i < |arrivals| && Asked(arrivals[i].1)
  }

  // ---------------------------------------------------------------------------
  // What the program does
  // ---------------------------------------------------------------------------

  /** The answer of a device that reads a confirmation request. Nothing comes back when it cannot
      read the message, and a message of another kind is no part of this. */
  function Answer(message: Json, outcome: Option<ConfirmDecision>): Option<WireResponse> {
    match FromJson(message)
    case Some(Confirm(_, _)) => Some(ReplyToWire(HandleConfirm(outcome)))
    case _ => None
  }

  /** The reply a device puts on the wire for a message; None when the exchange fails. */
  function DeviceWire(message: Json, d: Device): Option<WireResponse> {
    match d
    case DesktopCannotShow => Answer(message, None)
    case DesktopPrompt(id, events) => Answer(message, Some(DecisionOf(events, id)))
    case Phone(decision) => Answer(message, Some(decision))
    case _ => None
  }

  /** The task that forwards a request to one device. */
  function JoinedTask(request: Request, arrival: (string, Device)): Joined {
    if arrival.1.TaskCrashed? then Crashed
    else Finished(arrival.0, DeviceReply(DeviceWire(ToJson(request), arrival.1)))
  }

  function JoinedTasks(request: Request, arrivals: seq<(string, Device)>): (r: seq<Joined>)
    ensures |r| == |arrivals|
  {
    seq(|arrivals|, i requires 0 <= i < |arrivals| => JoinedTask(request, arrivals[i]))
  }

  /** The exit code `confirm` turns a call's result into. */
  function ExitCode(r: Result<Response, ClientError>): int {
    match r
    case Ok(_) => 0
    case Err(Protocol(UserDenied)) => 1
    case Err(Protocol(NoDecision)) => 3
    case Err(_) => 2
  }

  /** The agent's reply to the message of a client: the request it reads decides the strategy. */
  function AgentReply(message: Json, arrivals: seq<(string, Device)>): Option<Reply> {
    match FromJson(message)
    case Some(request) => if StrategyFor(request).Race? then Some(RaceResult(JoinedTasks(request, arrivals))) else None
    case None => None
  }

  /** The command against an agent that is up: request, race, reply, decoding, exit code. */
  function ConfirmExitCode(request: Request, host: Option<string>, arrivals: seq<(string, Device)>): int {
    match AgentReply(ClientMessage(request, host), arrivals)
    case Some(reply) => ExitCode(CallReply(request, Some(ReplyToWire(reply))))
    case None => ExitCode(CallReply(request, None))
  }

  // ---------------------------------------------------------------------------
  // The connection
  // ---------------------------------------------------------------------------

  /** A device's task carries its user's decision faithfully through handler and wire. */
  lemma TaskReflectsUser(request: Request, arrival: (string, Device))
    requires request.Confirm?
    ensures var j := JoinedTask(request, arrival); var d := arrival.1;
      && (Approves(d) ==> Decisive(j) && j.reply == Ok(Done))
      && (Denies(d) ==> Decisive(j) && j.reply == Err(UserDenied))
      && (!Decides(d) ==> !Decisive(j))
      && (!Decides(d) ==> (Asked(d) <==> Unanswered(j)))
      && !(Approves(d) && Denies(d))
  {
    DeviceReadsAgent(request, "");
    ErrorRoundTrip(UserDenied);
    ErrorRoundTrip(NoDecision);
    match arrival.1 {
      case DesktopPrompt(id, events) => DesktopReflectsUser(id, events);
      case _ =>
    }
  }

  lemma DesktopReflectsUser(id: int, events: seq<ConfirmEvent>)
    ensures Approves(DesktopPrompt(id, events)) <==> DecisionOf(events, id) == Approved
    ensures Denies(DesktopPrompt(id, events)) <==> DecisionOf(events, id) == Denied
  {
    DecisionByFirst(events, id);
    if !NoneAbout(events, id) {
      var k :| FirstAbout(events, id, k);
      assert DecisionOf(events, id) == Verdict(events[k]);
    }
  }

  /** A phone reports what its user did: the first submission to reach its prompt in time. */
  lemma PhoneReflectsUser(states: seq<ConfirmQueues.State>, steps: seq<ConfirmQueues.Step>, i: nat, p: nat)
    requires ConfirmQueues.Run(states, steps) && i < |states| && states[i].begun <= ConfirmQueues.INT_RANGE
    requires p in states[i].prompts && states[i].prompts[p].phase.Returned? && states[i].prompts[p].phase.result.Some?
    ensures var s := states[i]; var arrived := s.prompts[p].arrived;
      var phone := Phone(s.prompts[p].phase.result.value);
      && (arrived != [] ==> arrived[0] in s.submissions)
      && (Approves(phone) <==> arrived != [] && s.submissions[arrived[0]].approved)
      && (Denies(phone) <==> arrived != [] && !s.submissions[arrived[0]].approved)
  {
    ConfirmQueues.PromptsReturnFirstSubmission(states, steps, i);
  }

  lemma FirstDecider(arrivals: seq<(string, Device)>) returns (k: nat)
    ensures k <= |arrivals|
    ensures forall i :: 0 <= i < k ==> !Decides(arrivals[i].1)
    ensures k < |arrivals| ==> Decides(arrivals[k].1)
  {
    k := 0;
    while k < |arrivals| && !Decides(arrivals[k].1)
      invariant k <= |arrivals|
      invariant forall i :: 0 <= i < k ==> !Decides(arrivals[i].1)
    {
      k := k + 1;
    }
  }

  lemma RaceReflectsUsers(request: Request, arrivals: seq<(string, Device)>, k: nat)
    requires request.Confirm?
    requires k <= |arrivals|
    requires forall i :: 0 <= i < k ==> !Decides(arrivals[i].1)
    requires k < |arrivals| ==> Decides(arrivals[k].1)
    ensures RaceResult(JoinedTasks(request, arrivals)) ==
      if k < |arrivals| then (if Approves(arrivals[k].1) then Ok(Done) else Err(UserDenied))
      else Err(if SomeoneAsked(arrivals) then NoDecision else NoClient)
  {
    var tasks := JoinedTasks(request, arrivals);
    forall i | 0 <= i < |arrivals|
      ensures Decides(arrivals[i].1) <==> Decisive(tasks[i])
      ensures !Decides(arrivals[i].1) ==> (Asked(arrivals[i].1) <==> Unanswered(tasks[i]))
    {
      TaskReflectsUser(request, arrivals[i]);
    }
    if k < |arrivals| {
      RaceFirstDecisive(tasks, k);
      TaskReflectsUser(request, arrivals[k]);
    } else {
      RaceUndecided(tasks);
      if i :| 0 <= i < |arrivals| && Asked(arrivals[i].1) {
        assert Unanswered(tasks[i]);
      }
    }
  }

  /** The exit code says what the users decided: 0 exactly when the first to decide approved,
      1 exactly when the first to decide denied, 3 exactly when nobody decided though a device
      was asked, 2 exactly when no device was asked, or when the agent cannot be reached. */
  lemma ExitCodeReflectsUsers(request: Request, host: Option<string>, arrivals: seq<(string, Device)>)
    requires request.Confirm?
    ensures ConfirmExitCode(request, host, arrivals) == 0 <==> FirstToDecide(arrivals, d => Approves(d))
    ensures ConfirmExitCode(request, host, arrivals) == 1 <==> FirstToDecide(arrivals, d => Denies(d))
    ensures ConfirmExitCode(request, host, arrivals) == 3 <==> NobodyDecides(arrivals) && SomeoneAsked(arrivals)
    ensures ConfirmExitCode(request, host, arrivals) == 2 <==> !SomeoneAsked(arrivals)
    ensures ExitCode(CallReply(request, None)) == 2
  {
    var k := FirstDecider(arrivals);
    RaceReflectsUsers(request, arrivals, k);
    AgentReadsClient(request, host);
    CallRoundTrip(request, RaceResult(JoinedTasks(request, arrivals)));
    if k < |arrivals| {
      var d := arrivals[k].1;
      TaskReflectsUser(request, arrivals[k]);
      assert Asked(d);
      assert Approves(d) ==> FirstToDecide(arrivals, d => Approves(d));
      assert Denies(d) ==> FirstToDecide(arrivals, d => Denies(d));
      forall m | 0 <= m < |arrivals| && Decides(arrivals[m].1) && forall i :: 0 <= i < m ==> !Decides(arrivals[i].1)
        ensures m == k
      {
      }
    }
  }
}
