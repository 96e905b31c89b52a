/** Requests as JSON trees, the two fields that travel beside a request's own, and what each
    party reads back. */
module Requests {
  import opened Protocol
  import opened Wrappers

  // ---------------------------------------------------------------------------
  // Request to JSON
  // ---------------------------------------------------------------------------

  function MethodOf(request: Request): string {
    match request
    case Ping => "io.subportal.Ping"
    case OpenURI(_) => "io.subportal.OpenURI"
    case OpenFile(_, _, _) => "io.subportal.OpenFile"
    case Notify(_, _, _, _) => "io.subportal.Notify"
    case Confirm(_, _) => "io.subportal.Confirm"
    case NotifyDismiss(_) => "io.subportal.NotifyDismiss"
    case GenerateTicket(_) => "io.subportal.GenerateTicket"
    case RevokeClient(_) => "io.subportal.RevokeClient"
  }

  function OptionalText(text: Option<string>): Json {
    match text case Some(t) => Text(t) case None => Null
  }

  function Parameters(request: Request): map<string, Json> {
    match request
    case Ping => map[]
    case OpenURI(uri) => map["uri" := Text(uri)]
    case OpenFile(name, mime, content) => map["name" := Text(name), "mime" := Text(mime), "content" := Text(content)]
    case Notify(title, body, urgency, icon) =>
      map["title" := Text(title), "body" := OptionalText(body), "urgency" := OptionalText(urgency),
        "icon" := OptionalText(icon)]
    case Confirm(message, heading) => map["message" := Text(message), "title" := OptionalText(heading)]
    case NotifyDismiss(id) => map["id" := Text(id)]
    case GenerateTicket(ttl) => map["ttl" := Number(ttl)]
    case RevokeClient(nameOrId) => map["name_or_id" := Text(nameOrId)]
  }

  function Envelope(verb: string, parameters: map<string, Json>): Json {
    Object(map["method" := Text(verb), "parameters" := Object(parameters)])
  }

  function ToJson(request: Request): Json {
    Envelope(MethodOf(request), Parameters(request))
  }

  /** Adds a field to the parameters; a message without a parameter object stays as it is. */
  function Injected(message: Json, key: string, value: Json): Json {
    match message.Get("parameters")
    case Some(Object(parameters)) => Object(message.members["parameters" := Object(parameters[key := value])])
    case _ => message
  }

  /** What the client writes: the request, with the name of its host if it has one. */
  function ClientMessage(request: Request, host: Option<string>): Json {
    match host
    case Some(h) => Injected(ToJson(request), "host", Text(h))
    case None => ToJson(request)
  }

  // ---------------------------------------------------------------------------
  // JSON to request
  // ---------------------------------------------------------------------------

  function TextField(p: map<string, Json>, key: string): Option<string> {
    if key in p then p[key].AsText() else None
  }

  /** An absent field and a null one are both "none"; anything else must be a text. */
  function OptionalField(p: map<string, Json>, key: string): Option<Option<string>> {
    if key !in p || p[key] == Null then Some(None)
    else match p[key].AsText() case Some(t) => Some(Some(t)) case None => None
  }

  /** Unknown fields are ignored. */
  function RequestOf(verb: string, p: map<string, Json>): Option<Request> {
    if verb == "io.subportal.Ping" then Some(Ping)
    else if verb == "io.subportal.OpenURI" then
      (match TextField(p, "uri") case Some(uri) => Some(OpenURI(uri)) case None => None)
    else if verb == "io.subportal.OpenFile" then
      (match (TextField(p, "name"), TextField(p, "mime"), TextField(p, "content"))
       case (Some(name), Some(mime), Some(content)) => Some(OpenFile(name, mime, content))
       case _ => None)
    else if verb == "io.subportal.Notify" then
      (match (TextField(p, "title"), OptionalField(p, "body"), OptionalField(p, "urgency"), OptionalField(p, "icon"))
       case (Some(title), Some(body), Some(urgency), Some(icon)) => Some(Notify(title, body, urgency, icon))
       case _ => None)
    else if verb == "io.subportal.Confirm" then
      (match (TextField(p, "message"), OptionalField(p, "title"))
       case (Some(message), Some(heading)) => Some(Confirm(message, heading))
       case _ => None)
    else if verb == "io.subportal.NotifyDismiss" then
      (match TextField(p, "id") case Some(id) => Some(NotifyDismiss(id)) case None => None)
    else if verb == "io.subportal.GenerateTicket" then
      (if "ttl" in p && p["ttl"].AsU64().Some? then Some(GenerateTicket(p["ttl"].AsU64().value)) else None)
    else if verb == "io.subportal.RevokeClient" then
      (match TextField(p, "name_or_id") case Some(nameOrId) => Some(RevokeClient(nameOrId)) case None => None)
    else None
  }

  function FromJson(message: Json): Option<Request> {
    match (message.Get("method"), message.Get("parameters"))
    case (Some(Text(verb)), Some(Object(p))) => RequestOf(verb, p)
    case _ => None
  }

  /** A text among the parameters, read before the request itself. */
  function Beside(message: Json, key: string): Option<string> {
    match message.Get("parameters")
    case Some(p) => (match p.Get(key) case Some(v) => v.AsText() case None => None)
    case None => None
  }

  // ---------------------------------------------------------------------------
  // Round trips
  // ---------------------------------------------------------------------------

  /** p has the request's parameters, a null one perhaps left out, and maybe more. */
  ghost predicate Carries(p: map<string, Json>, request: Request) {
    forall k :: k in Parameters(request) ==> FieldIs(p, k, Parameters(request)[k])
  }

  predicate FieldIs(p: map<string, Json>, k: string, value: Json) {
    if k in p then p[k] == value else value == Null
  }

  lemma OptionalFieldOf(p: map<string, Json>, key: string, text: Option<string>)
    requires FieldIs(p, key, OptionalText(text))
    ensures OptionalField(p, key) == Some(text)
  {
  }

  lemma NotifyOfCarrier(p: map<string, Json>, request: Request)
    requires Carries(p, request) && request.Notify?
    ensures RequestOf("io.subportal.Notify", p) == Some(request)
  {
    assert "title" in Parameters(request) && "body" in Parameters(request);
    assert "urgency" in Parameters(request) && "icon" in Parameters(request);
    OptionalFieldOf(p, "body", request.body);
    OptionalFieldOf(p, "urgency", request.urgency);
    OptionalFieldOf(p, "icon", request.icon);
  }

  lemma ConfirmOfCarrier(p: map<string, Json>, request: Request)
    requires Carries(p, request) && request.Confirm?
    ensures RequestOf("io.subportal.Confirm", p) == Some(request)
  {
    assert "message" in Parameters(request) && "title" in Parameters(request);
    OptionalFieldOf(p, "title", request.heading);
  }

  lemma OpenFileOfCarrier(p: map<string, Json>, request: Request)
    requires Carries(p, request) && request.OpenFile?
    ensures RequestOf("io.subportal.OpenFile", p) == Some(request)
  {
    assert "name" in Parameters(request) && "mime" in Parameters(request) && "content" in Parameters(request);
  }

  lemma RequestOfCarrier(p: map<string, Json>, request: Request)
    requires Carries(p, request)
    ensures RequestOf(MethodOf(request), p) == Some(request)
  {
    match request {
      case Notify(_, _, _, _) => NotifyOfCarrier(p, request);
      case Confirm(_, _) => ConfirmOfCarrier(p, request);
      case OpenFile(_, _, _) => OpenFileOfCarrier(p, request);
      case _ => ShortRequestOfCarrier(p, request);
    }
  }

  lemma ShortRequestOfCarrier(p: map<string, Json>, request: Request)
    requires Carries(p, request)
    requires !request.Notify? && !request.Confirm? && !request.OpenFile?
    ensures RequestOf(MethodOf(request), p) == Some(request)
  {
    match request {
      case Ping =>
      case OpenURI(_) => assert "uri" in Parameters(request);
      case NotifyDismiss(_) => assert "id" in Parameters(request);
      case GenerateTicket(_) => assert "ttl" in Parameters(request);
      case RevokeClient(_) => assert "name_or_id" in Parameters(request);
    }
  }

  /** Whatever is injected beside a request's own parameters, the request is read back, and
      the injected text too. */
  lemma InjectedIsReadBack(request: Request, key: string, value: string)
    requires key !in Parameters(request)
    ensures FromJson(Injected(ToJson(request), key, Text(value))) == Some(request)
    ensures Beside(Injected(ToJson(request), key, Text(value)), key) == Some(value)
  {
    var p := Parameters(request)[key := Text(value)];
    assert Injected(ToJson(request), key, Text(value)) == Envelope(MethodOf(request), p);
    RequestOfCarrier(p, request);
  }

  lemma NotOwnParameters(request: Request)
    ensures "host" !in Parameters(request) && "notification_id" !in Parameters(request)
  {
  }

  /** Client to agent: the agent reads the request that was sent, and the host if one was given. */
  lemma AgentReadsClient(request: Request, host: Option<string>)
    ensures FromJson(ClientMessage(request, host)) == Some(request)
    ensures Beside(ClientMessage(request, host), "host") == host
  {
    NotOwnParameters(request);
    match host {
      case Some(h) => InjectedIsReadBack(request, "host", h);
      case None => RequestOfCarrier(Parameters(request), request);
    }
  }

  /** Agent to device: with or without a notification id, the device reads the request. */
  lemma DeviceReadsAgent(request: Request, id: string)
    ensures FromJson(ToJson(request)) == Some(request)
    ensures Beside(ToJson(request), "notification_id") == None
    ensures FromJson(Injected(ToJson(request), "notification_id", Text(id))) == Some(request)
    ensures Beside(Injected(ToJson(request), "notification_id", Text(id)), "notification_id") == Some(id)
  {
    NotOwnParameters(request);
    RequestOfCarrier(Parameters(request), request);
    InjectedIsReadBack(request, "notification_id", id);
  }

  /** What is accepted says what is read: the method names the kind, and each parameter of the
      request stands in the message, an absent one counting as null. */
  lemma AcceptedMeansWritten(message: Json, request: Request)
    requires FromJson(message) == Some(request)
    ensures message.Get("method") == Some(Text(MethodOf(request)))
    ensures message.Get("parameters").Some? && message.Get("parameters").value.Object?
    ensures Carries(message.Get("parameters").value.members, request)
  {
  }

  /** And whatever says so is accepted. */
  lemma AcceptedIff(message: Json, request: Request)
    ensures FromJson(message) == Some(request)
       <==> && message.Get("method") == Some(Text(MethodOf(request)))
            && message.Get("parameters").Some? && message.Get("parameters").value.Object?
            && Carries(message.Get("parameters").value.members, request)
  {
    if FromJson(message) == Some(request) {
      AcceptedMeansWritten(message, request);
    } else if message.Get("parameters").Some? && message.Get("parameters").value.Object?
              && Carries(message.Get("parameters").value.members, request) {
      RequestOfCarrier(message.Get("parameters").value.members, request);
    }
  }

  // ---------------------------------------------------------------------------
  // The wire form
  // ---------------------------------------------------------------------------

  /** A request is its method and its parameters, under the documented names. */
  lemma RequestForms(request: Request)
    ensures ToJson(request)
         == Object(map["method" := Text(MethodOf(request)), "parameters" := Object(Parameters(request))])
    ensures MethodOf(request) == match request
      case Ping => "io.subportal.Ping"
      case OpenURI(_) => "io.subportal.OpenURI"
      case OpenFile(_, _, _) => "io.subportal.OpenFile"
      case Notify(_, _, _, _) => "io.subportal.Notify"
      case Confirm(_, _) => "io.subportal.Confirm"
      case NotifyDismiss(_) => "io.subportal.NotifyDismiss"
      case GenerateTicket(_) => "io.subportal.GenerateTicket"
      case RevokeClient(_) => "io.subportal.RevokeClient"
  {
  }

  lemma ParameterForms(request: Request)
    ensures Parameters(request) == match request
      case Ping => map[]
      case OpenURI(uri) => map["uri" := Text(uri)]
      case OpenFile(name, mime, content) => map["name" := Text(name), "mime" := Text(mime), "content" := Text(content)]
      case Notify(title, body, urgency, icon) =>
        map["title" := Text(title), "body" := TextOrNull(body), "urgency" := TextOrNull(urgency),
            "icon" := TextOrNull(icon)]
      case Confirm(message, title) => map["message" := Text(message), "title" := TextOrNull(title)]
      case NotifyDismiss(id) => map["id" := Text(id)]
      case GenerateTicket(ttl) => map["ttl" := Number(ttl)]
      case RevokeClient(nameOrId) => map["name_or_id" := Text(nameOrId)]
  {
  }

  function TextOrNull(text: Option<string>): Json {
    if text.None? then Null else Text(text.value)
  }
}
