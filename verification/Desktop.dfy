/** The devices' side of a request: resolving a confirmation prompt from a stream of
    notification events, and turning the outcome into a reply. */
module Desktop {
  import opened Protocol
  import opened Wrappers
  import Base64

  /** Largest decoded file a device takes, and the command-line client sends. */
  const MAX_FILE_SIZE := 5 * 1024 * 1024

  /** `NotificationClosed` reason for "dismissed by the user". */
  const REASON_DISMISSED := 2

  datatype ConfirmDecision = Approved | Denied | Undecided

  datatype ConfirmEvent =
    | Invoked(id: int, action: string)
    | Closed(id: int, reason: int)

  /** What an event about the prompt itself means. */
  function Verdict(event: ConfirmEvent): ConfirmDecision {
    match event
    case Invoked(_, action) => if action == "approve" then Approved else Denied
    case Closed(_, reason) => if reason == REASON_DISMISSED then Denied else Undecided
  }

  /** The first event about this prompt is at k. */
  ghost predicate FirstAbout(events: seq<ConfirmEvent>, id: int, k: int) {
    && 0 <= k < |events|
    && events[k].id == id
    && forall i :: 0 <= i < k ==> events[i].id != id
  }

  ghost predicate NoneAbout(events: seq<ConfirmEvent>, id: int) {
    forall i :: 0 <= i < |events| ==> events[i].id != id
  }

  /** Waits for the first event about the prompt, ignoring other notifications' events; a
      stream that ends first means nobody answered. */
  method AwaitDecision(events: seq<ConfirmEvent>, id: int) returns (decision: ConfirmDecision)
    ensures NoneAbout(events, id) ==> decision == Undecided
    ensures forall k :: FirstAbout(events, id, k) ==> decision == Verdict(events[k])
    ensures decision == DecisionOf(events, id)
  {
    for i := 0 to |events|
      invariant NoneAbout(events[..i], id)
      invariant DecisionOf(events, id) == DecisionOf(events[i..], id)
    {
      assert NoneAbout(events[..i], id) ==> forall k :: 0 <= k < i ==> events[k] == events[..i][k];
      match events[i] {
        case Invoked(eid, action) =>
          if eid == id {
            DecisionByFirst(events, id);
            return if action == "approve" then Approved else Denied;
          }
        case Closed(eid, reason) =>
          if eid == id {
            DecisionByFirst(events, id);
            return if reason == REASON_DISMISSED then Denied else Undecided;
          }
      }
    }
    DecisionByFirst(events, id);
    return Undecided;
  }

  function DecisionOf(events: seq<ConfirmEvent>, id: int): ConfirmDecision {
    if events == [] then Undecided
    else if events[0].id == id then Verdict(events[0])
    else DecisionOf(events[1..], id)
  }

  lemma {:induction false} DecisionByFirst(events: seq<ConfirmEvent>, id: int)
    ensures NoneAbout(events, id) ==> DecisionOf(events, id) == Undecided
    ensures forall k :: FirstAbout(events, id, k) ==> DecisionOf(events, id) == Verdict(events[k])
    ensures NoneAbout(events, id) || exists k :: FirstAbout(events, id, k)
  {
    if events == [] {
    } else if events[0].id == id {
      assert FirstAbout(events, id, 0);
    } else {
      DecisionByFirst(events[1..], id);
      forall k | FirstAbout(events, id, k)
        ensures DecisionOf(events, id) == Verdict(events[k])
      {
        assert FirstAbout(events[1..], id, k - 1);
      }
      if k :| FirstAbout(events[1..], id, k) {
        assert FirstAbout(events, id, k + 1);
      }
    }
  }

  /** The events about one prompt, in order. */
  function Own(events: seq<ConfirmEvent>, id: int): seq<ConfirmEvent> {
    if events == [] then []
    else (if events[0].id == id then [events[0]] else []) + Own(events[1..], id)
  }

  /** Other notifications' events may be interleaved at will. */
  lemma {:induction false} InterleavingIsIrrelevant(events: seq<ConfirmEvent>, id: int)
    ensures DecisionOf(events, id) == DecisionOf(Own(events, id), id)
  {
    if events == [] {
    } else if events[0].id == id {
      assert Own(events, id)[0] == events[0];
    } else {
      InterleavingIsIrrelevant(events[1..], id);
      assert Own(events, id) == Own(events[1..], id);
    }
  }

  // ---------------------------------------------------------------------------
  // Handler branches
  // ---------------------------------------------------------------------------

  /** Replies to a confirmation; None stands for a prompt that could not be shown. */
  function HandleConfirm(outcome: Option<ConfirmDecision>): Reply {
    match outcome
    case None => Err(NoDecision)
    case Some(Approved) => Ok(Done)
    case Some(Denied) => Err(UserDenied)
    case Some(Undecided) => Err(NoDecision)
  }

  /** Replies to a file; `portalOpens` is whether the desktop portal opened it. */
  function HandleOpenFile(content: string, portalOpens: bool): Reply {
    var decodedLength := match Base64.Decode(content) case Some(data) => |data| case None => 0;
    if decodedLength > MAX_FILE_SIZE then Err(FileTooLarge(MAX_FILE_SIZE))
    else if portalOpens then Ok(Done)
    else Err(UserDenied)
  }
}
