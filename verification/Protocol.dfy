/** Requests, replies and errors, and their wire form. JSON values are trees; their text is
    not modelled. */
module Protocol {
  import opened Wrappers

  type u64 = n: int | 0 <= n < 0x1_0000_0000_0000_0000

  datatype Json =
    | Null
    | Bool(b: bool)
    | Number(n: int)
    | Text(s: string)
    | Array(items: seq<Json>)
    | Object(members: map<string, Json>)
  {
    function Get(key: string): Option<Json> {
      if Object? && key in members then Some(members[key]) else None
    }

    function AsText(): Option<string> {
      if Text? then Some(s) else None
    }

    function AsU64(): Option<u64> {
      if Number? && 0 <= n < 0x1_0000_0000_0000_0000 then Some(n) else None
    }

    /** The texts of an array, other items skipped; None when this is no array. */
    function AsTexts(): Option<seq<string>> {
      if Array? then Some(TextsOf(items)) else None
    }
  }

  function TextsOf(items: seq<Json>): seq<string> {
    if items == [] then []
    else (if items[0].Text? then [items[0].s] else []) + TextsOf(items[1..])
  }

  function TextArray(texts: seq<string>): Json {
    Array(seq(|texts|, i requires 0 <= i < |texts| => Text(texts[i])))
  }

  function GetText(params: Json, key: string, default: string): string {
    match params.Get(key)
    case Some(Text(s)) => s
    case _ => default
  }

  datatype Request =
    | Ping
    | OpenURI(uri: string)
    | OpenFile(name: string, mime: string, content: string)
    | Notify(title: string, body: Option<string>, urgency: Option<string>, icon: Option<string>)
    | Confirm(message: string, heading: Option<string>)
    | NotifyDismiss(id: string)
    | GenerateTicket(ttl: u64)
    | RevokeClient(nameOrId: string)

  datatype Response =
    | Pong(capabilities: seq<string>, version: string, clients: seq<string>, endpointId: string)
    | Done
    | NotifyDelivered(id: string)
    | TicketIssued(ticketJson: string)

  datatype SubportalError =
    | UserDenied
    | NoDecision
    | NotSupported(capability: string)
    | FileTooLarge(maxBytes: u64)
    | NoClient
    | NotFound(what: string)

  type Reply = Result<Response, SubportalError>

  datatype WireResponse = WireResponse(parameters: Option<Json>, error: Option<string>)

  // ---------------------------------------------------------------------------
  // Typed to wire
  // ---------------------------------------------------------------------------

  function WireId(e: SubportalError): string {
    match e
    case UserDenied => "io.subportal.UserDenied"
    case NoDecision => "io.subportal.NoDecision"
    case NotSupported(_) => "io.subportal.NotSupported"
    case FileTooLarge(_) => "io.subportal.FileTooLarge"
    case NoClient => "io.subportal.NoClient"
    case NotFound(_) => "io.subportal.NotFound"
  }

  function ErrorToWire(e: SubportalError): WireResponse {
    var params := match e
      case NotSupported(capability) => map["capability" := Text(capability)]
      case FileTooLarge(maxBytes) => map["max_bytes" := Number(maxBytes)]
      case NotFound(what) => map["what" := Text(what)]
      case _ => map[];
    WireResponse(Some(Object(params)), Some(WireId(e)))
  }

  function ResponseToWire(r: Response): WireResponse {
    var params := match r
      case Pong(capabilities, version, clients, endpointId) =>
        map["capabilities" := TextArray(capabilities), "version" := Text(version),
            "clients" := TextArray(clients), "endpoint_id" := Text(endpointId)]
      case Done => map[]
      case NotifyDelivered(id) => map["id" := Text(id)]
      case TicketIssued(ticketJson) => map["ticket_json" := Text(ticketJson)];
    WireResponse(Some(Object(params)), None)
  }

  function ReplyToWire(reply: Reply): WireResponse {
    match reply
    case Ok(response) => ResponseToWire(response)
    case Err(e) => ErrorToWire(e)
  }

  // ---------------------------------------------------------------------------
  // Wire to typed
  // ---------------------------------------------------------------------------

  function FromWire(id: string, params: Json): Option<SubportalError> {
    if id == "io.subportal.UserDenied" then Some(UserDenied)
    else if id == "io.subportal.NoDecision" then Some(NoDecision)
    else if id == "io.subportal.NotSupported" then Some(NotSupported(GetText(params, "capability", "unknown")))
    else if id == "io.subportal.FileTooLarge" then
      Some(FileTooLarge(
        match params.Get("max_bytes")
        case Some(v) => (match v.AsU64() case Some(n) => n case None => 0)
        case None => 0))
    else if id == "io.subportal.NoClient" then Some(NoClient)
    else if id == "io.subportal.NotFound" then Some(NotFound(GetText(params, "what", "unknown")))
    else None
  }

  function ErrorParams(wire: WireResponse): Json {
    match wire.parameters case Some(p) => p case None => Object(map[])
  }

  /** How the agent reads a device's answer; None stands for any transport failure. */
  function DeviceReply(wire: Option<WireResponse>): Reply {
    match wire
    case None => Err(NoClient)
    case Some(w) =>
      if w.error.Some? && FromWire(w.error.value, ErrorParams(w)).Some?
      then Err(FromWire(w.error.value, ErrorParams(w)).value)
      else Ok(Done)
  }

  datatype ClientError = DaemonUnreachable | Protocol(error: SubportalError)

  /** How the command-line client reads the agent's answer; None stands for a socket that
      cannot be reached or closes early. */
  function CallReply(request: Request, wire: Option<WireResponse>): Result<Response, ClientError> {
    match wire
    case None => Err(DaemonUnreachable)
    case Some(w) =>
      if w.error.Some? then
        (match FromWire(w.error.value, ErrorParams(w))
         case Some(e) => Err(Protocol(e))
         case None => Err(Protocol(NotSupported("unknown"))))
      else
        var params := match w.parameters case Some(p) => p case None => Null;
        match request
        case Ping =>
          Ok(Pong(
            GetTexts(params, "capabilities"),
            GetText(params, "version", "unknown"),
            GetTexts(params, "clients"),
            GetText(params, "endpoint_id", "unknown")))
        case Notify(_, _, _, _) =>
          (match params.Get("id")
           case Some(Text(id)) => Ok(NotifyDelivered(id))
           case _ => Ok(Done))
        case GenerateTicket(_) => Ok(TicketIssued(GetText(params, "ticket_json", "")))
        case _ => Ok(Done)
  }

  function GetTexts(params: Json, key: string): seq<string> {
    match params.Get(key)
    case Some(v) => (match v.AsTexts() case Some(texts) => texts case None => [])
    case None => []
  }

  // ---------------------------------------------------------------------------
  // Round trips
  // ---------------------------------------------------------------------------

  /** No error is mistaken for another, and its parameters survive. */
  lemma ErrorRoundTrip(e: SubportalError)
    ensures FromWire(WireId(e), ErrorParams(ErrorToWire(e))) == Some(e)
    ensures DeviceReply(Some(ErrorToWire(e))) == Err(e)
  {
    var id := WireId(e);
    match e {
      case UserDenied => assert |id| == 23 && id[13] == 'U';
      case NoDecision => assert |id| == 23 && id[13] == 'N';
      case NotSupported(_) => assert |id| == 25 && id[13] == 'N';
      case FileTooLarge(_) => assert |id| == 25 && id[13] == 'F';
      case NoClient => assert |id| == 21 && id[13] == 'N' && id[15] == 'C';
      case NotFound(_) => assert |id| == 21 && id[13] == 'N' && id[15] == 't';
    }
  }

  /** A device's answer counts as success exactly when it names no error of the protocol: an
      error id the agent does not know reads as success. */
  lemma DeviceSucceedsIff(wire: Option<WireResponse>)
    ensures DeviceReply(wire).Ok?
       <==> wire.Some? && (wire.value.error.None? || forall e :: WireId(e) != wire.value.error.value)
  {
    if wire.Some? && wire.value.error.Some? {
      var id, params := wire.value.error.value, ErrorParams(wire.value);
      KnownId(id, params);
    }
  }

  /** Such an id, from a device that speaks another version: what it refused counts as done. The
      command-line client takes the same answer as a failure. */
  lemma UnknownErrorIsSuccess(params: Option<Json>, request: Request)
    ensures var wire := Some(WireResponse(params, Some("io.subportal.Busy")));
      && DeviceReply(wire) == Ok(Done)
      && CallReply(request, wire) == Err(Protocol(NotSupported("unknown")))
  {
    assert "io.subportal.Busy"[13..] == "Busy";
  }

  /** An id is read as an error exactly when it is the id of one, of that very kind. */
  lemma KnownId(id: string, params: Json)
    ensures FromWire(id, params).Some? <==> exists e :: WireId(e) == id
    ensures FromWire(id, params).Some? ==> WireId(FromWire(id, params).value) == id
  {
    if e :| WireId(e) == id {
      ErrorRoundTrip(e);
    }
  }

  /** The answers the agent gives to each kind of request. */
  predicate Answers(request: Request, response: Response) {
    match request
    case Ping => response.Pong?
    case Notify(_, _, _, _) => response.NotifyDelivered? || response.Done?
    case GenerateTicket(_) => response.TicketIssued?
    case _ => response.Done?
  }

  lemma {:induction false} TextsOfTextArray(texts: seq<string>)
    ensures TextsOf(TextArray(texts).items) == texts
  {
    if texts == [] {
    } else {
      assert TextArray(texts).items[1..] == TextArray(texts[1..]).items;
      TextsOfTextArray(texts[1..]);
      assert texts == [texts[0]] + texts[1..];
    }
  }

  /** What the agent replies is what the client's caller gets. */
  lemma CallRoundTrip(request: Request, reply: Reply)
    requires reply.Ok? ==> Answers(request, reply.value)
    ensures CallReply(request, Some(ReplyToWire(reply)))
         == match reply { case Ok(response) => Ok(response) case Err(e) => Err(Protocol(e)) }
  {
    match reply {
      case Err(e) => ErrorRoundTrip(e);
      case Ok(Pong(capabilities, _, clients, _)) =>
        TextsOfTextArray(capabilities);
        TextsOfTextArray(clients);
      case _ =>
    }
  }

  // ---------------------------------------------------------------------------
  // The wire form
  // ---------------------------------------------------------------------------

  /** The documented names and parameters of errors. */
  lemma ErrorForms(capability: string, maxBytes: u64, what: string)
    ensures ErrorToWire(UserDenied) == WireResponse(Some(Object(map[])), Some("io.subportal.UserDenied"))
    ensures ErrorToWire(NoDecision) == WireResponse(Some(Object(map[])), Some("io.subportal.NoDecision"))
    ensures ErrorToWire(NoClient) == WireResponse(Some(Object(map[])), Some("io.subportal.NoClient"))
    ensures ErrorToWire(NotSupported(capability))
         == WireResponse(Some(Object(map["capability" := Text(capability)])), Some("io.subportal.NotSupported"))
    ensures ErrorToWire(FileTooLarge(maxBytes))
         == WireResponse(Some(Object(map["max_bytes" := Number(maxBytes)])), Some("io.subportal.FileTooLarge"))
    ensures ErrorToWire(NotFound(what))
         == WireResponse(Some(Object(map["what" := Text(what)])), Some("io.subportal.NotFound"))
  {
  }

  /** What is read when parameters, or the whole answer, are missing. */
  lemma MissingParameters(request: Request)
    ensures FromWire("io.subportal.NotSupported", Object(map[])) == Some(NotSupported("unknown"))
    ensures FromWire("io.subportal.FileTooLarge", Object(map[])) == Some(FileTooLarge(0))
    ensures FromWire("io.subportal.NotFound", Object(map[])) == Some(NotFound("unknown"))
    ensures CallReply(request, None) == Err(DaemonUnreachable)
    ensures CallReply(request, Some(WireResponse(None, None))) ==
      match request
      case Ping => Ok(Pong([], "unknown", [], "unknown"))
      case GenerateTicket(_) => Ok(TicketIssued(""))
      case _ => Ok(Done)
  {
    ErrorRoundTrip(NotSupported("unknown"));
    ErrorRoundTrip(FileTooLarge(0));
    ErrorRoundTrip(NotFound("unknown"));
  }

  /** A parameter that is there but of another type counts as missing. */
  lemma UnusableParameters(params: Json, key: string, default: string)
    ensures (forall s :: params.Get(key) != Some(Text(s))) ==> GetText(params, key, default) == default
    ensures (forall items :: params.Get(key) != Some(Array(items))) ==> GetTexts(params, key) == []
    ensures (forall n :: 0 <= n < 0x1_0000_0000_0000_0000 ==> params.Get("max_bytes") != Some(Number(n))) ==>
      FromWire("io.subportal.FileTooLarge", params) == Some(FileTooLarge(0))
    ensures (forall s :: params.Get("capability") != Some(Text(s))) ==>
      FromWire("io.subportal.NotSupported", params) == Some(NotSupported("unknown"))
    ensures (forall s :: params.Get("what") != Some(Text(s))) ==>
      FromWire("io.subportal.NotFound", params) == Some(NotFound("unknown"))
  {
    WhichError(params);
    match params.Get("max_bytes") {
      case Some(Number(n)) =>
        assert 0 <= n < 0x1_0000_0000_0000_0000 ==> params.Get("max_bytes") == Some(Number(n));
      case _ =>
    }
  }

  /** Which error an id stands for does not depend on its parameters. */
  lemma WhichError(params: Json)
    ensures var e := FromWire("io.subportal.FileTooLarge", params); e.Some? && e.value.FileTooLarge?
    ensures var e := FromWire("io.subportal.NotSupported", params); e.Some? && e.value.NotSupported?
    ensures var e := FromWire("io.subportal.NotFound", params); e.Some? && e.value.NotFound?
  {
    ErrorRoundTrip(FileTooLarge(0));
    ErrorRoundTrip(NotSupported(""));
    ErrorRoundTrip(NotFound(""));
  }

  /** Items of a list that are no texts are skipped, the others kept in order. */
  lemma {:induction false} TextsStep(items: seq<Json>, item: Json)
    ensures TextsOf(items + [item]) == TextsOf(items) + (if item.Text? then [item.s] else [])
  {
    if items == [] {
      assert [item][1..] == [];
    } else {
      var head, last := if items[0].Text? then [items[0].s] else [], if item.Text? then [item.s] else [];
      assert (items + [item])[1..] == items[1..] + [item];
      TextsStep(items[1..], item);
      assert head + (TextsOf(items[1..]) + last) == head + TextsOf(items[1..]) + last;
    }
  }
}
