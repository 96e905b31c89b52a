# subportal: a verified model

subportal lets a headless server ask the devices of its user to do things: open a link or a file,
show a notification, confirm an action. An agent on the server keeps a map of connected devices,
ranks them, routes each request to one, some or all of them, and reads their answers. A desktop
daemon and an Android app are the devices. This project models that system and proves what it
is for.

How the modules follow the program:

- `Utf8`, `Hex`, `Base45`, `Base64`, `Decimal`, `Bytes`, `Ordering`: the text and number
  encodings the rest relies on, defined here and proved invertible.
- `Ticket`, `CompactTicket`, `TicketLayout`: the compact enrollment ticket. `Ticket` holds the
  binary layout and its parser; `CompactTicket` holds the encoder and the cursor-moving decoder,
  proved against it, and the round trips; `TicketLayout` says by position where every byte goes and
  which inputs are refused.
- `Framing`, `OpenFileFits`: NUL-delimited messages over arbitrarily chunked input, and the file
  size limit against the message size limit.
- `Protocol`, `Requests`, `Router`, `Desktop`, `ConfirmEndToEnd`: replies, errors and requests on
  the wire, ranking, failover and race, a desktop's prompt, and one theorem about the exit code of
  `subportal confirm` through all of them.
- `Peers`, `Hub`: the registries and the agent's shared state as objects changed in place, each
  method proved to compute a function of the old state.
- `Agent`, `AgentSafety`, `AgentSteps`, `AgentRevocation`, `AgentSections`: connection handlers,
  ticket generation, revocation and notification fan-outs interleaved over the hub, one step per
  critical section; what holds in every reachable state; what the steps mean for hellos, tickets,
  reports and deliveries; what a revocation keeps out; and the sections as code over the `Hub`
  object, proved to do what the steps do. Each handler has a phase (its program counter); a history
  records what happened and no step reads it.
- `UseCounter`: the use-counted handle of the Android bindings, interleaved at each atomic
  operation. `ConfirmQueues`, `ConfirmSections`: prompts and submissions on Android, and their code
  over the objects, step by step. `Reload`: a device's connection tasks against its registry.
  `Utf16`, `Ffi`, `FfiLayout`, `FfiBuffers`: the converters between Kotlin and Rust, in place over a
  byte buffer, and where each byte goes.

Some promises do not hold of the code as it stands. Each is stated with the exact condition under
which it does:

- The decoder accepts bytes after the host name and any relay flag other than 1 as "none", so an
  accepted text need not be what the encoder writes (`CompactTicket.ReencodingAcceptedText`,
  `CompactTicket.TrailingByteIsDropped`, `CompactTicket.FlagTwoIsNoRelay`).
- An error id the agent does not know reads as success (`Protocol.DeviceSucceedsIff`,
  `Protocol.UnknownErrorIsSuccess`).
- A time to live whose end is not a date gives no token, or one that is born expired
  (`AgentSafety.TicketWorksIff`, `Peers.TokenIssuedIff`, `Peers.HugeTimesToLive`). The ranges are those
  of chrono 0.4.43, which Cargo.lock names.
- A revoked device stays or becomes connected without a new admission when it reconnected under
  another name than it enrolled with, or was between its check and its registration
  (`AgentRevocation.RevocationHoldsIff`, with a run for each cause).
- A saved revocation also disconnects a device that stays enrolled, when it reconnected under the
  name given (`AgentRevocation.RevocationOverreachesIff`, `AgentRevocation.NamesakeIsDisconnected`).
- An endpoint's activity can fall when it connects twice, because the stamp is read before the lock
  (`AgentSafety.ActivityFallsIff`, `AgentSafety.ActivityCanFall`).
- An older handler's exit takes a newer handler's entry for the same endpoint
  (`AgentSafety.EntryIsTakenIff`, `AgentSafety.OldHandlerDropsNewEntry`,
  `AgentSafety.TwoHandlersReachable`).
- A server enrolled again keeps the task of its old entry (`Reload.TaskIsCurrentIff`,
  `Reload.StaleTaskReachable`), and an initial load of a registry with a repeated id loses track of
  a task (`Reload.InitialLoadMatchesIff`).
- The documentation of `Confirm` (crates/subportal-lib/src/protocol.rs:60-63) counts a timeout as
  a denial; the code answers "no decision", and so does the model.

## Model

| member | source | states |
|---|---|---|
| Utf8.DecodeEncode | crates/subportal-iroh/src/ticket.rs:87-99 | Strict UTF-8 decoding (section 3 of RFC 3629) gives back every string that was encoded. |
| Utf8.EncodeDecode | crates/subportal-iroh/src/ticket.rs:184-196 | Strict decoding accepts nothing but encodings: encoding what it returns gives the same bytes. |
| Utf8.EncodeCharLayout | crates/subportal-iroh/src/ticket.rs:87-99 | Each character has the length, lead byte and continuation bytes of the table of section 3 of RFC 3629, and their free bits are its number. |
| Hex.DecodeEncode | crates/subportal-iroh/src/ticket.rs:126-132 | Decoding the lower-case hexadecimal text of any bytes (section 8 of RFC 4648) returns them. |
| Hex.EncodeDecode | crates/subportal-iroh/src/ticket.rs:49-55 | Encoding what a hexadecimal text decodes to gives that text in lower case. |
| Hex.DecodeLower | crates/subportal-iroh/src/ticket.rs:49-55 | Case does not matter to the decoder. |
| Hex.EncodeAt | crates/subportal-iroh/src/ticket.rs:126-132 | Each byte is two digits, the high half first, by position. |
| Hex.DecodesIff | crates/subportal-iroh/src/ticket.rs:50-55 | A text is decoded exactly when it is pairs of hexadecimal digits. |
| Base45.DecodeEncode | crates/subportal-iroh/src/ticket.rs:103-113 | Decoding the base45 text of any byte string returns it (section 4 of RFC 9285). |
| Base45.EncodeDecode | crates/subportal-iroh/src/ticket.rs:113 | The base45 decoder accepts no text but the encoding of what it returns. |
| Base45.EncodeTripleAt | crates/subportal-iroh/src/ticket.rs:103 | By position: three digits c, d, e of the alphabet with c + 45*d + 2025*e equal to 256*x + y for the two bytes x, y. |
| Base45.EncodeLastAt | crates/subportal-iroh/src/ticket.rs:103 | A last single byte is two digits c, d with c + 45*d equal to it. |
| Base45.EncodeIsQrAlphanumeric | crates/subportal-iroh/src/ticket.rs:39-41 | Every character of base45 text is in the QR alphanumeric set. |
| Bytes.BigEndian16Layout | crates/subportal-iroh/src/ticket.rs:73 | The more significant byte comes first, written and read. |
| TicketLayout.StoredFields | crates/subportal-iroh/src/ticket.rs:48-95 | What is stored of a ticket: the bytes of its hexadecimal texts, each address with octets and port, URL and host name. |
| TicketLayout.BinaryIsLaidOut | crates/subportal-iroh/src/ticket.rs:45-101 | By position: version 1, endpoint id in bytes 1 to 32, token in 33 to 48, count in 49, each address as tag, octets and port high byte first, flag, URL and host name with their lengths. |
| TicketLayout.AcceptedIsLaidOut | crates/subportal-iroh/src/ticket.rs:113-196 | Whatever the decoder accepts is laid out, by position, as it was read, with flag 1 exactly for a relay. |
| TicketLayout.FaultIsFirstWrong | crates/subportal-iroh/src/ticket.rs:49-99 | The encoder's error names the first thing wrong with the ticket: not hexadecimal, not 64 or 32 digits, no socket address, more than 255 addresses, more than 65535 or 255 bytes. |
| TicketLayout.OtherVersionIsRefused | crates/subportal-iroh/src/ticket.rs:120 | Any version but 1 is refused as unsupported. |
| TicketLayout.OtherTagIsRefused | crates/subportal-iroh/src/ticket.rs:167 | Any address tag but 4 and 6 is refused. |
| TicketLayout.BadTextIsRefused | crates/subportal-iroh/src/ticket.rs:184-196 | A URL or host name that is not UTF-8 is refused. |
| TicketLayout.RefusedText | crates/subportal-iroh/src/ticket.rs:109-113 | A text is refused for its prefix first, then for its base45, then for its bytes. |
| Ticket.TicketOfFieldsOf | crates/subportal-iroh/src/ticket.rs:42-101 | A ticket rebuilt from the fields stored for it is its normal form: hex in lower case, addresses without flow information and scope. |
| Ticket.FieldsOfTicketOf | crates/subportal-iroh/src/ticket.rs:198-204 | Every decoded ticket can be encoded again, and stores the fields it was decoded from. |
| Ticket.ParseFieldsOf | crates/subportal-iroh/src/ticket.rs:113-196 | Self-delimiting: on laid-out fields followed by any bytes the decoder returns the fields and leaves exactly those bytes. |
| Ticket.FieldsOfParse | crates/subportal-iroh/src/ticket.rs:113-196 | Whatever the decoder accepts is a layout of the fields it returns followed by the bytes it left, so it never reads past the end. |
| Ticket.ParseFieldsExtends | crates/subportal-iroh/src/ticket.rs:113-196 | More input never changes an answer: a result other than "truncated" on some bytes is the result on every extension. |
| Ticket.ProperPrefixIsTruncated | crates/subportal-iroh/src/ticket.rs:117-195 | On every proper prefix of a ticket's binary form the decoder reports truncation. |
| CompactTicket.ParseAddrTexts | crates/subportal-iroh/src/ticket.rs:60-64 | Fails exactly when some address text is no socket address; otherwise gives each text's address in order. |
| CompactTicket.WriteAddr | crates/subportal-iroh/src/ticket.rs:69-80 | Appends the tag, octets and port of the address without flow information and scope. |
| CompactTicket.WriteAddrs | crates/subportal-iroh/src/ticket.rs:68-81 | Appends the stored form of every address, in order. |
| CompactTicket.WriteRelay | crates/subportal-iroh/src/ticket.rs:84-95 | Appends the relay section, or fails exactly when the URL has more than 65535 bytes. |
| CompactTicket.WriteHost | crates/subportal-iroh/src/ticket.rs:98-101 | Appends the length-prefixed host name, or fails exactly when it has more than 255 bytes. |
| CompactTicket.ToCompact | crates/subportal-iroh/src/ticket.rs:42-105 | Reports the first check the ticket fails, in the order of the checks, and otherwise gives the prefixed base45 text of its binary form. |
| CompactTicket.Cursor.constructor | crates/subportal-iroh/src/ticket.rs:114 | A new cursor stands before the first byte. |
| CompactTicket.Cursor.ReadExact | crates/subportal-iroh/src/ticket.rs:117-119 | Gives exactly the next n bytes and advances past them, or reports truncation of the named field. |
| CompactTicket.ReadAddr | crates/subportal-iroh/src/ticket.rs:140-168 | Reads one tagged address as the address parser does and leaves the cursor behind it. |
| CompactTicket.ReadAddrs | crates/subportal-iroh/src/ticket.rs:138-170 | Reads the counted addresses, stopping at the first error, and leaves the cursor behind them. |
| CompactTicket.ReadHead | crates/subportal-iroh/src/ticket.rs:117-137 | Reads version, endpoint id, token and address count as the parser does. |
| CompactTicket.ReadRelay | crates/subportal-iroh/src/ticket.rs:173-187 | Reads the optional relay URL as the parser does, including its UTF-8 check. |
| CompactTicket.ReadHost | crates/subportal-iroh/src/ticket.rs:190-196 | Reads the host name as the parser does, including its UTF-8 check. |
| CompactTicket.ReadFields | crates/subportal-iroh/src/ticket.rs:116-196 | The cursor-moving decoder computes the parser function and stops exactly where the parser does. |
| CompactTicket.FromCompact | crates/subportal-iroh/src/ticket.rs:108-205 | The decoder computes the text-decoding function on every string, error cases included. |
| CompactTicket.RoundTrip | crates/subportal-iroh/src/ticket.rs:42-205 | Every ticket the encoder accepts is read back in normal form. |
| CompactTicket.InjectiveUpToNormalForm | crates/subportal-iroh/src/ticket.rs:42-205 | Two tickets share a compact form exactly when they have the same normal form. |
| CompactTicket.ParseDispatches | crates/subportal-iroh/src/ticket.rs:209-215 | The compact text goes to the compact decoder and comes back in normal form; a JSON object goes to the JSON decoder. |
| CompactTicket.TextShape | crates/subportal-iroh/src/ticket.rs:37-104 | The text has exactly 4 + 3*(n/2) + 2*(n mod 2) characters, n the sum of the field sizes, all of them QR alphanumeric. |
| CompactTicket.LayoutIsBinary | crates/subportal-iroh/src/ticket.rs:172-187 | A layout with some relay flag and trailing bytes is what the encoder writes exactly when nothing trails and the flag is 0 or 1. |
| CompactTicket.ReencodingAcceptedText | crates/subportal-iroh/src/ticket.rs:108-205 | Re-encoding an accepted text gives the same text exactly when nothing followed the host name and the relay flag was 0 or 1; the decoder also takes trailing bytes and other flags. |
| CompactTicket.OtherLayoutIsAccepted | crates/subportal-iroh/src/ticket.rs:172-205 | Every layout of a ticket's fields but the encoder's own is a second text that decodes to the same ticket. |
| CompactTicket.TrailingByteIsDropped | crates/subportal-iroh/src/ticket.rs:189-205 | For every ticket, a text with one more byte decodes to it and is not what re-encoding gives. |
| CompactTicket.FlagTwoIsNoRelay | crates/subportal-iroh/src/ticket.rs:172-187 | For every ticket without a relay, the text with flag 2 decodes to it and is not what re-encoding gives. |
| CompactTicket.BinaryIsStrict | crates/subportal-iroh/src/ticket.rs:83-101 | The binary form of a ticket parses to its fields with nothing left over and with flag 0 or 1. |
| Framing.FirstNulIsUnique | crates/subportal-lib/src/protocol.rs:235 | The first NUL is the only position with a NUL and none before it. |
| Framing.BufReader.constructor | crates/subportal-lib/src/protocol.rs:229-231 | A reader over a stream has all of the chunks' bytes still to come. |
| Framing.BufReader.FillBuf | crates/subportal-lib/src/protocol.rs:233-236 | Buffering more input changes no byte still to come; the buffer is empty only at the end. |
| Framing.BufReader.Consume | crates/subportal-lib/src/protocol.rs:233-236 | Consuming n bytes takes exactly the first n bytes still to come. |
| Framing.ReadPart | crates/subportal-lib/src/protocol.rs:233-236 | Takes a piece of the input: up to the limit and up to and including the first NUL. |
| Framing.ReadMessage | crates/subportal-lib/src/protocol.rs:229-248 | However the input is chunked, the result and the number of bytes taken depend on the bytes alone. |
| Framing.Writer.WriteMessage | crates/subportal-lib/src/protocol.rs:251-260 | Appends the payload and one NUL. |
| Framing.AcceptedIffNulInReach | crates/subportal-lib/src/protocol.rs:229-248 | A message is accepted exactly when a NUL is among the first MAX + 1 bytes. |
| Framing.ReadKinds | crates/subportal-lib/src/protocol.rs:233-244 | What stands before the first NUL, if that is in reach; otherwise too large or cut off by 8,388,608 bytes; and how many bytes are taken in each case. |
| Framing.FrameForm | crates/subportal-lib/src/protocol.rs:255-257 | A written message is its payload and a zero byte. |
| Framing.FrameIsReadBack | crates/subportal-lib/src/protocol.rs:229-260 | A NUL-free payload within the limit is read back and what followed is left; a longer one is refused as too large. |
| Framing.FramesAreReadBack | crates/subportal-lib/src/protocol.rs:229-260 | Any list of payloads written back to back is read back in order, and nothing else is consumed. |
| OpenFileFits.MessageShape | crates/subportal/src/main.rs:226-231 | A file message is NUL-free and its length is the other JSON plus 4*ceil(n/3). |
| OpenFileFits.ReceivedIff | crates/subportal-lib/src/protocol.rs:229-248 | A file message is received, and unchanged, exactly when content and other JSON fit the message limit. |
| OpenFileFits.AdmittedFileTravels | crates/subportal-lib/src/consts.rs:6-10 | Every file the client admits is received with up to 1,398,100 bytes of other JSON; for the largest file one more byte is too many. |
| OpenFileFits.UndecodableIsHandedOn | crates/subportal-desktop/src/handler.rs:51-61 | Content that is no base64 counts as small and is handed to the desktop. |
| OpenFileFits.SizeChecksAgree | crates/subportal-desktop/src/handler.rs:50-56 | The device answers "file too large" exactly to files the client would not have sent; to the others, what the desktop made of them. |
| Base64.Encode | crates/subportal/src/main.rs:226 | The text of n bytes has 4*ceil(n/3) characters. |
| Base64.EncodeGroupAt | crates/subportal/src/main.rs:226 | By position: four digits of the alphabet that are, most significant first, the same 24-bit number as the three bytes. |
| Base64.EncodeOneLeft | crates/subportal/src/main.rs:226 | A last single byte fills the first bits of two digits, zeros follow, and two pads. |
| Base64.EncodeTwoLeft | crates/subportal/src/main.rs:226 | Two last bytes fill the first bits of three digits, zeros follow, and one pad. |
| Base64.UnusedBitsAreZero | crates/subportal-desktop/src/handler.rs:51 | A last group is read exactly when the bits it does not use are zero. |
| Base64.DecodeEncode | crates/subportal-desktop/src/handler.rs:51 | Decoding the base64 text of any bytes returns them (section 4 of RFC 4648). |
| Base64.EncodeIsPlain | crates/subportal/src/main.rs:226 | Base64 text needs no JSON escaping. |
| Protocol.ErrorRoundTrip | crates/subportal-lib/src/protocol.rs:122-222 | No error is mistaken for another on the wire, its parameters survive, and the agent reads a device's error as that error. |
| Protocol.ErrorForms | crates/subportal-lib/src/protocol.rs:122-222 | Each error has its documented name and parameters on the wire. |
| Protocol.MissingParameters | crates/subportal-lib/src/client.rs:118-190 | What is read when parameters or the whole answer are missing. |
| Protocol.UnusableParameters | crates/subportal-lib/src/protocol.rs:133-163 | A parameter of another type counts as missing. |
| Protocol.TextsStep | crates/subportal-lib/src/client.rs:138-160 | Items of a list that are no texts are skipped, the others kept in order. |
| Protocol.KnownId | crates/subportal-lib/src/protocol.rs:133-163 | An id is read as an error exactly when it is the id of one, and as that kind. |
| Protocol.DeviceSucceedsIff | crates/subportal/src/hub.rs:271-287 | A device's answer counts as success exactly when it carries no error id the protocol knows. |
| Protocol.UnknownErrorIsSuccess | crates/subportal/src/hub.rs:271-287 | An error id outside the protocol: success for the agent, a failure for the client. |
| Protocol.TextsOfTextArray | crates/subportal-lib/src/client.rs:138-160 | A list of texts is read back from its JSON array unchanged. |
| Protocol.CallRoundTrip | crates/subportal-lib/src/client.rs:114-190 | What the agent replies, success or error, is what the client's caller gets. |
| Requests.RequestForms | crates/subportal-lib/src/protocol.rs:25-77 | Each request is its documented method with its parameters. |
| Requests.ParameterForms | crates/subportal-lib/src/protocol.rs:25-77 | Each request has its documented parameters, absent ones as null. |
| Requests.AcceptedIff | crates/subportal-lib/src/protocol.rs:25-77 | A message is read as a request exactly when it has its method and each of its parameters, a null one perhaps left out. |
| Requests.RequestOfCarrier | crates/subportal-lib/src/protocol.rs:25-77 | A message with the request's method and parameters is read as that request, whatever other parameters it has. |
| Requests.InjectedIsReadBack | crates/subportal/src/agent.rs:354-362 | Adding a foreign parameter changes nothing about the request, and the parameter is read back. |
| Requests.AgentReadsClient | crates/subportal-lib/src/server.rs:93-110 | The agent reads exactly the request the client sent, and its host exactly when it gave one. |
| Requests.DeviceReadsAgent | crates/subportal-desktop/src/main.rs:329-338 | A device reads exactly the request the agent forwards, and a notification id exactly when one was added. |
| Requests.AcceptedMeansWritten | crates/subportal-lib/src/protocol.rs:25-77 | In an accepted message the method names the request's kind and each parameter stands as read, an absent one counting as null. |
| Router.StrategyIsOwn | crates/subportal/src/router.rs:39-47 | Opening fails over, a confirmation races, a notification fans out, nothing else reaches a device; each needs the capability its method is named after. |
| Router.BeforeTotal | crates/subportal/src/router.rs:60-65 | The comparator orders any two clients with different ids. |
| Router.BeforeAsymmetric | crates/subportal/src/router.rs:60-65 | No two clients come before each other. |
| Router.BeforeTransitive | crates/subportal/src/router.rs:60-65 | The comparator is transitive. |
| Router.SortByComparator | crates/subportal/src/router.rs:60-65 | A sorted permutation of its input. |
| Router.Rank | crates/subportal/src/router.rs:54-68 | A sorted permutation of the capable clients; for distinct ids, strictly sorted and holding each capable client and no other. |
| Router.StrictlySortedUnique | crates/subportal/src/router.rs:49-65 | Two strictly sorted lists with the same members are equal. |
| Router.RankingIsCanonical | crates/subportal/src/router.rs:49-68 | Rankings of two listings with the same members are the same list. |
| Router.RankingOrder | crates/subportal/src/router.rs:49-65 | In a ranking active clients stand before idle ones, of equal focus the one used later first, of those used at the same time the smaller id first. |
| Router.BestIsHead | crates/subportal/src/router.rs:49-68 | A capable client that comes before all others heads the ranking. |
| Router.FanOutTargets | crates/subportal/src/router.rs:135-140 | Exactly the capable clients, in the order given. |
| Router.FailoverDecision | crates/subportal/src/router.rs:80-98 | The reply of the first target that is reachable; only unreachable ones were tried before it; "no client" exactly after all were tried in vain. |
| Router.RaceDecision | crates/subportal/src/router.rs:105-132 | The loop computes the race function of the arrival order. |
| Router.RaceOfOne | crates/subportal/src/router.rs:105-132 | A single device's answer is the result, whatever it is; a crash or no device counts as nobody reached. |
| Router.RaceFirstDecisive | crates/subportal/src/router.rs:100-126 | The first decisive answer to arrive wins. |
| Router.RaceUndecided | crates/subportal/src/router.rs:100-131 | Without a decision the result is "no decision" if some prompt went unanswered, otherwise "no client". |
| Router.AbstentionsNeverDecide | crates/subportal/src/router.rs:100-131 | Inserting or moving unreachable, unanswered or crashed tasks never changes a decision. |
| Router.RaceOrderIndependent | crates/subportal/src/router.rs:100-131 | If the decisive replies agree, every arrival order gives the same result; with none, so too. |
| Ordering.StrLessIff | crates/subportal/src/router.rs:64 | A text comes first exactly when it is a proper prefix or has the smaller character where the two first differ. |
| Ordering.StrLessTotal | crates/subportal/src/router.rs:64 | Any two different ids are ordered. |
| Ordering.StrLessTransitive | crates/subportal/src/router.rs:64 | The order of ids is transitive. |
| Desktop.AwaitDecision | crates/subportal-desktop/src/portal.rs:181-208 | The verdict of the first event about this prompt, and "no decision" when the stream has none. |
| Desktop.DecisionByFirst | crates/subportal-desktop/src/portal.rs:181-208 | The recursive decision is the verdict of the first event about the prompt. |
| Desktop.InterleavingIsIrrelevant | crates/subportal-desktop/src/portal.rs:186-206 | Events of other notifications, however interleaved, change nothing. |
| ConfirmEndToEnd.TaskReflectsUser | crates/subportal-desktop/src/handler.rs:89-106 | A device reads the forwarded request, and its task ends decisively exactly when its user decided, with the reply that says what was decided. |
| ConfirmEndToEnd.DesktopReflectsUser | crates/subportal-desktop/src/portal.rs:181-208 | The event loop approves or denies exactly when the user did. |
| ConfirmEndToEnd.PhoneReflectsUser | crates/subportal-android-core/src/lib.rs:593-608 | The decision a phone reports is its user's: that of the first submission to reach its prompt in time, over every interleaving of prompts and submissions. |
| ConfirmEndToEnd.RaceReflectsUsers | crates/subportal/src/router.rs:105-132 | The race's result is the decision of the first user to decide; otherwise whether some device was asked. |
| ConfirmEndToEnd.ExitCodeReflectsUsers | crates/subportal/src/main.rs:264-288 | Exit code 0 exactly when the first to decide approved, 1 exactly when the first to decide denied, 3 exactly when nobody decided though a device was asked, 2 exactly when none was asked; 2 also without an agent. Through the client's message, the strategy, the forwarded message, event loop, handler, wire, race and reply. |
| Peers.RetainAppend | crates/subportal-iroh/src/peers.rs:63 | What is kept stays in order. |
| Peers.AddReplaces | crates/subportal-iroh/src/peers.rs:61-66 | Adding leaves exactly one entry for the id, the new one, and every other entry untouched. |
| Peers.RemoveTakesMatches | crates/subportal-iroh/src/peers.rs:69-78 | Removing takes out every match by id or name and nothing else; it reports whether there was one. |
| Peers.FindByIdMeaning | crates/subportal-iroh/src/peers.rs:81-83 | An entry is found exactly when the id is enrolled, and it has that id. |
| Peers.TouchRefreshesFirst | crates/subportal-iroh/src/peers.rs:93-108 | Refreshing records time and capabilities in the first entry with the id, keeps the rest of it, and changes no other entry. |
| Peers.TokenIssuedIff | crates/subportal-iroh/src/peers.rs:128-140 | There is a token exactly when its expiry is a date: the time to live ends within the dates, or counts back from 2^64 by no more than the time since the first date. |
| Peers.TokenLife | crates/subportal-iroh/src/peers.rs:128-149 | A token that is issued lives for exactly its time to live, unless that was read as negative: then it is born expired. |
| Peers.TokenUsableIff | crates/subportal-iroh/src/peers.rs:128-149 | A ticket can be used at all exactly when its time to live ends within the dates. |
| Peers.HugeTimesToLive | crates/subportal-iroh/src/peers.rs:133 | No clock reading gives a token for 2^62 or 2^63 seconds; 2^64 - 1 seconds give one that expired a second ago. |
| Peers.Registry.constructor | crates/subportal-iroh/src/peers.rs:37-49 | The registry starts with what was loaded. |
| Peers.Registry.AddEntry | crates/subportal-iroh/src/peers.rs:204-208 | The new list is the old one with the entry added, even when saving fails. |
| Peers.Registry.RemoveEntry | crates/subportal-iroh/src/peers.rs:211-220 | The new list is the old one without the matches; an error exactly when something was removed and saving failed. |
| Peers.Registry.Find | crates/subportal-iroh/src/peers.rs:228-230 | The first entry with the id, if any. |
| Peers.TouchEntry | crates/subportal-iroh/src/peers.rs:93-108 | Refreshes the first entry with the id in place and nothing else. |
| Hub.TokensLeft | crates/subportal/src/hub.rs:166-174 | Consuming a token takes the expired ones and the copies of the one presented, and no other. |
| Hub.FocusReports | crates/subportal/src/hub.rs:86-93 | A report of activity makes its client active and used now, one of idleness makes it idle and keeps its time of use; nothing else changes. |
| Hub.NotificationIdForm | crates/subportal/src/hub.rs:98 | An id is the letter n and the decimal number. |
| Hub.Hub.constructor | crates/subportal/src/hub.rs:50-60 | A new hub has the registry and nothing else. |
| Hub.Hub.AddClient | crates/subportal/src/hub.rs:63-70 | The whole new state: the client under its id, replacing an older entry. |
| Hub.Hub.RemoveClient | crates/subportal/src/hub.rs:73-81 | The whole new state: the id is gone from the client map. |
| Hub.Hub.UpdateFocus | crates/subportal/src/hub.rs:86-93 | The whole new state: only a report of activity counts as use. |
| Hub.Hub.NextNotificationId | crates/subportal/src/hub.rs:96-99 | The counter advances by one (wrapping at 64 bits) and the id prints the new value. |
| Hub.Hub.ClientInfos | crates/subportal/src/hub.rs:102-113 | Every client's info, each once, in some order. |
| Hub.Hub.RankedConnections | crates/subportal/src/agent.rs:277-289 | The connections of the capable clients in ranking order, whatever order the map is walked in. |
| Hub.Hub.ConsumeToken | crates/subportal/src/hub.rs:166-174 | Valid exactly when an unexpired copy is pending; expired tokens go, and a valid token goes with all its copies. |
| Hub.Hub.GenerateTicket | crates/subportal/src/hub.rs:177-206 | Adds one pending copy, or, exactly when the expiry is out of range, issues nothing and changes nothing. |
| Hub.Hub.RevokeClient | crates/subportal/src/hub.rs:217-252 | The whole new state and the exact reply, in each of the three outcomes of the registry. |
| Hub.Hub.StoreNotification | crates/subportal/src/agent.rs:380-385 | Stores the reached devices under the id and changes nothing else. |
| Hub.RankingOfListing | crates/subportal/src/hub.rs:102-113 | A ranking of any listing of the map is a ranking of the map. |
| Hub.ClientRankingIsCanonical | crates/subportal/src/agent.rs:274-289 | Any two iteration orders of the client map give the same ranking. |
| Hub.ClientRankingOrder | crates/subportal/src/router.rs:49-65 | The same order, said of the connected clients themselves. |
| Hub.FreshestHeadsRanking | crates/subportal/src/router.rs:60-65 | An active client used later than all others heads the ranking of each of its capabilities. |
| Hub.HandleFailover | crates/subportal/src/agent.rs:304-314 | The reply of the best client that is not unreachable, said of the map alone; the clients tried are a prefix of the ranking, all but the last unreachable; "no client" exactly when all are. |
| Hub.ReachedIsSubsequence | crates/subportal/src/agent.rs:366-377 | The devices reached are the targets that answered Ok, all of them, in target order. |
| Hub.SendToAll | crates/subportal/src/agent.rs:367-377 | Exactly the targets that answered Ok, in the order of the snapshot. |
| Agent.HandlersStaySafe | crates/subportal/src/agent.rs:102-242 | Every step keeps: a handler past its check belongs to an admitted endpoint, and its stamp is in the past. |
| Agent.ClientsStaySafe | crates/subportal/src/agent.rs:102-242 | Every step keeps: each key is its entry's endpoint id, was admitted, and was inserted by a handler still serving that endpoint. |
| Agent.OtherStepsKeepClients | crates/subportal/src/agent.rs:102-242 | Steps other than register, focus, disconnect and revoke change neither the client map nor a serving handler. |
| AgentSafety.TokensAfterCount | crates/subportal/src/hub.rs:166-174 | Consuming never adds copies; an acceptance takes at least one and leaves none. |
| AgentSafety.TokensStaySafe | crates/subportal/src/hub.rs:166-211 | Every step keeps: per token, acceptances plus pending copies never exceed copies generated; every acceptance was in time. |
| AgentSafety.AcceptanceEnrolls | crates/subportal/src/agent.rs:128-153 | The section that accepts a token enrolls the presenting endpoint in memory, even when saving fails; one that refuses changes no registry entry. |
| AgentSafety.TicketWorksIff | crates/subportal/src/hub.rs:166-206 | A new ticket enrolls a device exactly when its time to live ends within the dates and has not run out. |
| AgentSafety.DeliveriesStaySafe | crates/subportal/src/agent.rs:330-390 | Every step keeps: deliveries have distinct numbers, answer their own id, and have reached exactly the targets that answered Ok; what is stored is what a finished delivery reached. |
| AgentSafety.MessagesStaySafe | crates/subportal/src/agent.rs:354-372 | Every step keeps: a device sent a delivery's message reads the delivery's own request and id. |
| AgentSafety.AlwaysSafe | crates/subportal/src/agent.rs:102-242 | All of these invariants hold in every state of every interleaving. |
| AgentSafety.AdmittedByEarlierStep | crates/subportal/src/agent.rs:128-170 | An endpoint is admitted only by an earlier step with a valid token or a registry hit. |
| AgentSafety.ConnectedWereAdmitted | crates/subportal/src/agent.rs:128-200 | Nobody is connected who was not let in earlier in the run. |
| AgentSafety.IdsCollideIff | crates/subportal/src/hub.rs:96-99 | Two deliveries share an id exactly when their numbers differ by a multiple of 2^64. |
| AgentSafety.NotificationsAreDistinct | crates/subportal/src/agent.rs:330-385 | Before the counter wraps, ids are pairwise distinct and storing a finished delivery overwrites nothing. |
| AgentSafety.EntryIsTakenIff | crates/subportal/src/hub.rs:73-81 | A serving handler loses its entry exactly by an exit or another registration for its endpoint, or a saved revocation that names it. |
| AgentSafety.EntryKeptOneStep | crates/subportal/src/agent.rs:192-239 | Every step keeps the entry of an unrevoked serving handler that is alone on its endpoint. |
| AgentSafety.EntryStaysWhileAlone | crates/subportal/src/agent.rs:192-239 | Once a handler has its entry it keeps it as long as it serves, unless it is revoked or another open handler has its endpoint; what other devices do does not matter. |
| AgentSafety.EntryStaysUntilExit | crates/subportal/src/agent.rs:192-239 | If at most one handler runs per endpoint, an unrevoked serving handler has its entry in every state of the run. |
| AgentSafety.OldHandlerDropsNewEntry | crates/subportal/src/agent.rs:236-239 | Without that condition an older handler's exit takes the newer handler's entry. |
| AgentSafety.TwoHandlersReachable | crates/subportal/src/agent.rs:102-242 | A state with two serving handlers for one endpoint is reachable. |
| AgentSafety.ActivityFallsIff | crates/subportal/src/agent.rs:181-200 | A connected endpoint's activity falls exactly when one of its handlers registers with a stamp older than the entry it replaces. |
| AgentSafety.ActivityCanFall | crates/subportal/src/agent.rs:181-200 | A run of two handlers of one endpoint in which it does. |
| AgentSafety.ActivityNeverFalls | crates/subportal/src/hub.rs:86-93 | No step lowers a living entry's activity stamp or the clock. |
| AgentSafety.ActivityNeverFallsInRun | crates/subportal/src/hub.rs:86-93 | Over any stretch of a run in which an entry lives, its activity stamp never falls. |
| AgentSafety.FocusHeadsRanking | crates/subportal/src/hub.rs:83-93 | A device that just reported activity, later than all other clients' activity, heads the ranking of each of its capabilities. |
| AgentSafety.ConnectHeadsRanking | crates/subportal/src/agent.rs:181-200 | So does a device that just connected with a stamp later than all other activity. |
| AgentSteps.TicketGoesIff | crates/subportal/src/hub.rs:166-206 | A pending ticket goes exactly when it is handed in, or when another one is after its expiry. |
| AgentSteps.TicketWorksUntilExpiry | crates/subportal/src/hub.rs:166-206 | Over any stretch of a run a ticket that nobody hands in works until it expires. |
| AgentSteps.GeneratedIsRecorded | crates/subportal/src/hub.rs:177-206 | What is generated is pending and on record, once. |
| AgentSteps.HelloIsRead | crates/subportal/src/agent.rs:115-126 | A handler starts with what its device's hello says. |
| AgentSteps.HelloIsEnrolled | crates/subportal/src/agent.rs:128-153 | A device with a valid token is enrolled under the name and capabilities of its hello; no other entry changes. |
| AgentSteps.CheckAdmitsIff | crates/subportal/src/agent.rs:156-170 | A device without a token gets on exactly when it is enrolled. |
| AgentSteps.HelloIsConnected | crates/subportal/src/agent.rs:181-200 | Registering connects the device as its hello describes it, active and used at its stamp, and refreshes its registry entry. |
| AgentSteps.GivingUpCloses | crates/subportal/src/agent.rs:172-175 | A connection that fails on the way closes its handler and changes nothing else. |
| AgentSteps.WhatCanHappen | crates/subportal/src/agent.rs:102-242 | What each handler can do where it stands. |
| AgentSteps.ExitDisconnects | crates/subportal/src/agent.rs:236-239 | A handler's exit takes the entry of its endpoint and no other. |
| AgentSteps.IdleComesBehind | crates/subportal/src/hub.rs:86-93 | A device that just went idle stands behind every active capable client in every ranking. |
| AgentSteps.TargetsStep | crates/subportal/src/agent.rs:336-352 | Each capable client of the walk is a target, in walking order, with its connection. |
| AgentSteps.NobodyToNotify | crates/subportal/src/agent.rs:336-339 | There is no target exactly when no connected client takes notifications. |
| AgentSteps.DeliveryRuns | crates/subportal/src/agent.rs:333-389 | A notification that some device takes can always run to its end: the caller gets the new id and the devices that replied Ok are stored under it. |
| AgentSteps.RevokedIsRecordedIff | crates/subportal/src/hub.rs:238-248 | A connection counts as revoked exactly when a revocation takes its entry. |
| AgentRevocation.RevocationHoldsIff | crates/subportal/src/hub.rs:213-252 | A saved revocation keeps an endpoint out of every later state up to its next admission exactly when none of its handlers was between check and registration and a connected one goes by the given name too. |
| AgentRevocation.OutLasts | crates/subportal/src/agent.rs:156-239 | An unconnected endpoint with no handler in flight stays unconnected until a check lets it in. |
| AgentRevocation.InFlightIsNotOut | crates/subportal/src/agent.rs:156-200 | A handler past its check can always register without looking again. |
| AgentRevocation.RevokedIsOut | crates/subportal/src/hub.rs:213-252 | Within one run: under that condition the endpoint is in no state between the revocation and its next admission. |
| AgentRevocation.NextAdmissionIsEnrollment | crates/subportal/src/agent.rs:128-170 | With unique ids in the registry file, what next lets a revoked endpoint in is a token, not a registry check. |
| AgentRevocation.RevocationOverreachesIff | crates/subportal/src/hub.rs:217-252 | With unique ids, a saved revocation disconnects a device and leaves it enrolled exactly when the name is one its connection goes by and no registry entry of it does. |
| AgentRevocation.NamesakeIsDisconnected | crates/subportal/src/hub.rs:230-248 | A run in which a device that reconnected under another's enrolled name goes with that other one. |
| AgentRevocation.RenamedStaysConnected | crates/subportal/src/hub.rs:230-248 | A run in which a device reconnected under a new name survives the revocation of its enrolled name. |
| AgentRevocation.InFlightStaysConnected | crates/subportal/src/agent.rs:156-200 | A run in which a device checked before its revocation is connected after it. |
| AgentSections.PresentTokenSection | crates/subportal/src/agent.rs:128-150 | The code of the enrollment section leaves the hub as the model's step does and admits exactly when the step does. |
| AgentSections.RegisterSection | crates/subportal/src/agent.rs:192-200 | The code of the registration section leaves the hub as the model's step does. |
| AgentSections.BeginFanOut | crates/subportal/src/agent.rs:333-365 | No target: an error and no change. Otherwise the targets of a complete enumeration, a new id, and the request with that id added. |
| AgentSections.FanOut | crates/subportal/src/agent.rs:330-390 | The notification is stored under the id the caller gets, with exactly the targets that answered Ok, and nothing else but the counter changes. |
| AgentSections.StartFanOutSection | crates/subportal/src/agent.rs:333-365 | The first section is the model's step for some enumeration of the map: same hub, targets, id and message. |
| AgentSections.FinishFanOutSection | crates/subportal/src/agent.rs:380-389 | So is the second, whatever happened to the hub in between; the caller gets the delivery's id. |
| AgentSections.EnumeratesOrder | crates/subportal/src/hub.rs:102-113 | The snapshot lists every key of the client map exactly once. |
| AgentSections.TargetsOfCapable | crates/subportal/src/agent.rs:336-352 | The capable clients of a snapshot with their connections are the targets of the model's step. |
| Decimal.ValueOfPrint | crates/subportal/src/hub.rs:98 | Reading a printed number gives the number. |
| Decimal.PrefixedPrintIsInjective | crates/subportal/src/hub.rs:98 | Prefixed prints of different numbers differ. |
| AgentSafety.NothingIsOverwritten | crates/subportal/src/agent.rs:380-385 | Before the counter wraps, in every state of a run each finished delivery has the devices it reached stored under its id. |
| UseCounter.MoveCounts | subportal-android/app/src/main/java/uniffi/subportal_android_core/subportal_android_core.kt:1512-1549 | Moving one thread changes the number of threads at a point by exactly its arrival or departure. |
| UseCounter.SafeStep | subportal-android/app/src/main/java/uniffi/subportal_android_core/subportal_android_core.kt:1509-1549 | Every atomic step keeps: the counter is the calls in flight plus one until destroy has decremented; it never overflows; freeing happens once, at zero. |
| UseCounter.AlwaysSafe | subportal-android/app/src/main/java/uniffi/subportal_android_core/subportal_android_core.kt:1509-1549 | So in every state of every interleaving. |
| UseCounter.FreedOnceAndUnused | subportal-android/app/src/main/java/uniffi/subportal_android_core/subportal_android_core.kt:1512-1549 | The object is freed at most once and only after destroy; once freeing is due no call runs, now or later. |
| UseCounter.QuiescentMeansFreed | subportal-android/app/src/main/java/uniffi/subportal_android_core/subportal_android_core.kt:1512-1549 | When every thread has come to rest after a destroy, the object has been freed. |
| UseCounter.WhatCanHappen | subportal-android/app/src/main/java/uniffi/subportal_android_core/subportal_android_core.kt:1512-1549 | Any new thread can start a call or a destroy, and any that has not ended can go on. |
| UseCounter.LiveCallEnters | subportal-android/app/src/main/java/uniffi/subportal_android_core/subportal_android_core.kt:1531-1539 | An undisturbed call on an object with room enters and is counted. |
| UseCounter.CallIsRefusedIff | subportal-android/app/src/main/java/uniffi/subportal_android_core/subportal_android_core.kt:1531-1538 | A call is refused exactly when the object was destroyed and no call runs, and overflows exactly at 2^63 - 1. |
| UseCounter.LateSwapReadsAgain | subportal-android/app/src/main/java/uniffi/subportal_android_core/subportal_android_core.kt:1539 | A count that changed meanwhile makes the call read again. |
| UseCounter.CallEnds | subportal-android/app/src/main/java/uniffi/subportal_android_core/subportal_android_core.kt:1545-1547 | The end of a call gives its count back and frees the object exactly when it was the last. |
| UseCounter.DestroyCounts | subportal-android/app/src/main/java/uniffi/subportal_android_core/subportal_android_core.kt:1512-1521 | The first destroy gives back the initial count; a later one does nothing. |
| UseCounter.SubportalCore.CompareAndSet | subportal-android/app/src/main/java/uniffi/subportal_android_core/subportal_android_core.kt:1539 | Sets the counter exactly when it has the expected value. |
| UseCounter.SubportalCore.DecrementAndGet | subportal-android/app/src/main/java/uniffi/subportal_android_core/subportal_android_core.kt:1545 | Decrements and returns the new value. |
| UseCounter.SubportalCore.FlipDestroyed | subportal-android/app/src/main/java/uniffi/subportal_android_core/subportal_android_core.kt:1515 | Sets the flag, and tells the one caller that found it unset. |
| UseCounter.SubportalCore.Advance | subportal-android/app/src/main/java/uniffi/subportal_android_core/subportal_android_core.kt:1512-1549 | Wherever a thread stands, its code up to the next atomic operation leaves object and thread exactly as the model's step does. |
| UseCounter.SubportalCore.DecrementAndClean | subportal-android/app/src/main/java/uniffi/subportal_android_core/subportal_android_core.kt:1545-1547 | Decrements, and frees exactly when the counter reaches zero. |
| UseCounter.SubportalCore.Enter | subportal-android/app/src/main/java/uniffi/subportal_android_core/subportal_android_core.kt:1531-1539 | Counts a call in, or refuses exactly at zero and at the maximum without a change. |
| UseCounter.SubportalCore.Destroy | subportal-android/app/src/main/java/uniffi/subportal_android_core/subportal_android_core.kt:1512-1521 | Only the first call decrements, and it frees exactly when no call is in flight. |
| Reload.ReloadMeaning | crates/subportal-desktop/src/main.rs:199-233 | After a reload the active ids are the registry's, kept ids keep their task, each new id has a new task for its entry, and live tasks match the map. |
| Reload.ReloadIsIdempotent | crates/subportal-desktop/src/main.rs:199-233 | Reloading again changes nothing. |
| Reload.TaskIsCurrentIff | crates/subportal-android-core/src/lib.rs:744-781 | A task serves the current registry entry exactly when its id is new or its entry did not change: a re-enrolled server keeps its old task. |
| Reload.StaleTaskReachable | crates/subportal-desktop/src/main.rs:199-233 | A run that enrolls a server, then enrolls it again with another address, ends with a task that serves the old entry. |
| Reload.ShutDownLeavesNone | crates/subportal-desktop/src/main.rs:187-190 | Shutdown leaves no task alive. |
| Reload.InitialLoadMatchesIff | crates/subportal-desktop/src/main.rs:162-165 | The initial load gives one task per id exactly when the registry lists no id twice. |
| Reload.AllSpawnedDuplicate | crates/subportal-desktop/src/main.rs:162-165 | A second entry for an active id leaves a task that the map no longer holds. |
| Reload.SafeStep | crates/subportal-desktop/src/main.rs:171-190 | Enroll, forget, reload and shutdown keep registry ids unique and tasks matching the map. |
| Reload.AlwaysSafe | crates/subportal-android-core/src/lib.rs:332-378 | So in every state of every run from a registry without duplicates, also when the initial load fails. |
| Reload.ReloadFollowsRegistry | crates/subportal-desktop/src/main.rs:171-190 | After each reload in a run the active ids are the registry's, kept ids keep their task, and the live tasks are exactly the map's. |
| Reload.ForgottenIsDropped | crates/subportal-desktop/src/main.rs:199-221 | After a forget and a reload the active ids are those of the entries that go neither by that id nor by that name. |
| Reload.EnrolledIsConnected | crates/subportal-desktop/src/main.rs:199-230 | After an enrollment and a reload the new server is active beside the others, with a task for its entry unless it had one. |
| Reload.StopEndsAll | crates/subportal-desktop/src/main.rs:171-194 | Stopping ends every task and nothing starts later. |
| Reload.UnreadableIsIgnored | crates/subportal-desktop/src/main.rs:179-182 | A registry that cannot be read changes nothing. |
| Reload.InitialLoadServes | crates/subportal-desktop/src/main.rs:153-165 | From a registry without duplicates each id starts with a task for its entry. |
| Reload.Connections.InitialLoad | crates/subportal-desktop/src/main.rs:162-165 | The loop leaves the state the load function gives. |
| Reload.Connections.DropDeparted | crates/subportal-desktop/src/main.rs:211-221 | Aborts and forgets exactly the tasks whose server is gone. |
| Reload.Connections.ReloadServers | crates/subportal-desktop/src/main.rs:199-233 | The in-place loops leave exactly the state the reload function gives; an unreadable registry changes nothing. |
| Reload.Connections.Stop | crates/subportal-desktop/src/main.rs:188-190 | Aborts every task in the map. |
| ConfirmQueues.PromptIdsCollideIff | subportal-android/app/src/main/java/io/subportal/android/notifications/ConfirmManager.kt:47-48 | Prompts share an id exactly when their numbers differ by a multiple of 2^32. |
| ConfirmQueues.RequestCodeIs | subportal-android/app/src/main/java/io/subportal/android/notifications/ConfirmManager.kt:108 | The request code in wrapping arithmetic is the wrapped double plus the answer bit. |
| ConfirmQueues.RequestCodesCollideIff | subportal-android/app/src/main/java/io/subportal/android/notifications/ConfirmManager.kt:107-108 | Request codes are equal exactly for the same answer and prompt numbers a multiple of 2^31 apart. |
| ConfirmQueues.SafeStep | subportal-android/app/src/main/java/io/subportal/android/notifications/ConfirmManager.kt:40-69 | Every step of every prompt and submission keeps the invariant: each prompt owns its id while in flight and its queue holds the first submission to arrive. |
| ConfirmQueues.AlwaysSafe | subportal-android/app/src/main/java/io/subportal/android/notifications/ConfirmManager.kt:40-69 | So in every state of every interleaving before 2^32 prompts. |
| ConfirmQueues.PromptsReturnFirstSubmission | subportal-android/app/src/main/java/io/subportal/android/notifications/ConfirmManager.kt:40-69 | A prompt returned the first submission for its own id on record as having reached its queue, otherwise no decision; ids are distinct. (`ConfirmQueues.OfferArrives` says what is on record.) |
| ConfirmQueues.LateAndForeignOffersAreIdle | subportal-android/app/src/main/java/io/subportal/android/notifications/ConfirmManager.kt:66-69 | An offer for another id, after a first one, or after the poll ended has no effect on the prompt's outcome. |
| ConfirmQueues.WhatCanHappen | subportal-android/app/src/main/java/io/subportal/android/notifications/ConfirmManager.kt:40-69 | What a prompt and a submission can do where they stand. |
| ConfirmQueues.PromptStarts | subportal-android/app/src/main/java/io/subportal/android/notifications/ConfirmManager.kt:47-50 | A prompt takes the next number, then registers under its id and polls. |
| ConfirmQueues.PromptIdForm | subportal-android/app/src/main/java/io/subportal/android/notifications/ConfirmManager.kt:33-48 | Ids are "confirm-" and a number from 9000 on. |
| ConfirmQueues.LookUpFinds | subportal-android/app/src/main/java/io/subportal/android/notifications/ConfirmManager.kt:68 | A submission finds the prompt its id stands for, if any does. |
| ConfirmQueues.OfferArrives | subportal-android/app/src/main/java/io/subportal/android/notifications/ConfirmManager.kt:66-69 | An offer to a polling prompt arrives, approval or denial, and fills an empty queue with that answer. |
| ConfirmQueues.WaitEnds | subportal-android/app/src/main/java/io/subportal/android/notifications/ConfirmManager.kt:53-60 | The end of a wait returns what the queue holds, no decision when time is up, an exception when nothing was shown. |
| ConfirmQueues.FirstTapDecides | subportal-android/app/src/main/java/io/subportal/android/notifications/ConfirmManager.kt:40-69 | Over a run: the first tap offered while a prompt polls is what the prompt returns. |
| ConfirmQueues.ExceptionMeansNotShown | subportal-android/app/src/main/java/io/subportal/android/notifications/ConfirmManager.kt:51-62 | Over a run: a prompt ends with an exception exactly when showing it failed. |
| ConfirmQueues.Queue.Offer | subportal-android/app/src/main/java/io/subportal/android/notifications/ConfirmManager.kt:49-68 | Takes a decision exactly when the slot is free; otherwise the first one stays. |
| ConfirmQueues.Manager.TakeNumber | subportal-android/app/src/main/java/io/subportal/android/notifications/ConfirmManager.kt:47-48 | Takes the next number in wrapping arithmetic and gives its id. |
| ConfirmQueues.Manager.OpenQueue | subportal-android/app/src/main/java/io/subportal/android/notifications/ConfirmManager.kt:49-50 | Registers a fresh, empty queue under the id. |
| ConfirmQueues.Manager.CloseQueue | subportal-android/app/src/main/java/io/subportal/android/notifications/ConfirmManager.kt:60 | Forgets the id alone. |
| ConfirmQueues.Manager.BeginPrompt | subportal-android/app/src/main/java/io/subportal/android/notifications/ConfirmManager.kt:47-50 | Takes the next number and registers a fresh, empty queue under its id and under no other. |
| ConfirmQueues.Manager.EndPrompt | subportal-android/app/src/main/java/io/subportal/android/notifications/ConfirmManager.kt:53-60 | Returns what is in the queue or no decision, and forgets the id alone. |
| ConfirmQueues.Manager.Submit | subportal-android/app/src/main/java/io/subportal/android/notifications/ConfirmManager.kt:66-69 | Fills a free slot of the id's queue and touches no other queue. |
| ConfirmSections.BeginSection | subportal-android/app/src/main/java/io/subportal/android/notifications/ConfirmManager.kt:47-48 | Taking a number leaves the object as the model's step does. |
| ConfirmSections.OpenSection | subportal-android/app/src/main/java/io/subportal/android/notifications/ConfirmManager.kt:49-50 | So does registering the queue, a fresh one that no other prompt has. |
| ConfirmSections.PollSection | subportal-android/app/src/main/java/io/subportal/android/notifications/ConfirmManager.kt:53-58 | So does the end of the wait, which takes what is there or times out, and returns what the model's prompt will. |
| ConfirmSections.RemoveSection | subportal-android/app/src/main/java/io/subportal/android/notifications/ConfirmManager.kt:60 | So does forgetting the id. |
| ConfirmSections.LookUpSection | subportal-android/app/src/main/java/io/subportal/android/notifications/ConfirmManager.kt:68 | So does a submission's look-up, which finds the queue of the prompt the model's finds. |
| ConfirmSections.OfferSection | subportal-android/app/src/main/java/io/subportal/android/notifications/ConfirmManager.kt:68 | So does its offer, which changes that prompt's queue and no other. |
| Utf16.FromTextToText | subportal-android/app/src/main/java/uniffi/subportal_android_core/subportal_android_core.kt:1302-1308 | A well-formed UTF-16 string is recovered from its text. |
| Utf16.Utf8RoundTrip | subportal-android/app/src/main/java/uniffi/subportal_android_core/subportal_android_core.kt:1295-1308 | Writing a string as UTF-8 and reading it back gives the string. |
| Utf16.ThreeBytesPerUnit | subportal-android/app/src/main/java/uniffi/subportal_android_core/subportal_android_core.kt:1319-1326 | UTF-8 needs at most three bytes for each UTF-16 unit. |
| Utf16.UnitsForm | subportal-android/app/src/main/java/uniffi/subportal_android_core/subportal_android_core.kt:1302-1308 | Characters beyond the first 65536 are a pair of units: ten bits after D800, ten after DC00. |
| Utf16.WritableIff | subportal-android/app/src/main/java/uniffi/subportal_android_core/subportal_android_core.kt:1302-1308 | A string can be written exactly when no surrogate in it stands alone. |
| Ffi.StringFits | subportal-android/app/src/main/java/uniffi/subportal_android_core/subportal_android_core.kt:1322-1332 | A string's written form fits what was allocated for it. |
| Ffi.Written | subportal-android/app/src/main/java/uniffi/subportal_android_core/subportal_android_core.kt:154-165 | For every value of every type, what is written never exceeds the allocation. |
| Ffi.ParseWritten | subportal-android/app/src/main/java/uniffi/subportal_android_core/subportal_android_core.kt:1741-1800 | Reading a written value returns it and leaves exactly what followed. |
| Ffi.LiftWritten | subportal-android/app/src/main/java/uniffi/subportal_android_core/subportal_android_core.kt:192-203 | Lifting a written value returns it; with anything after it in the buffer, it is refused as junk. |
| FfiLayout.AnyIntIsRead | subportal-android/app/src/main/java/uniffi/subportal_android_core/subportal_android_core.kt:1296 | Any four bytes are read as a number in two's complement, the most significant byte first; fewer underflow. |
| FfiLayout.WrittenLayout | subportal-android/app/src/main/java/uniffi/subportal_android_core/subportal_android_core.kt:1741-1861 | By position: numbers most significant byte first, texts after their length, flags as 0 or 1, 1 approved, 2 denied, 3 undecided, entries one after another after their count. |
| FfiLayout.Allocated | subportal-android/app/src/main/java/uniffi/subportal_android_core/subportal_android_core.kt:1322-1326 | Three bytes for each unit of a text, four for a number, one for a flag. |
| FfiLayout.AnyFlagIsRead | subportal-android/app/src/main/java/uniffi/subportal_android_core/subportal_android_core.kt:1259-1265 | Any byte but 0 reads as true, and as "there is a text". |
| FfiLayout.OtherVariantIsRefused | subportal-android/app/src/main/java/uniffi/subportal_android_core/subportal_android_core.kt:1789-1793 | Numbers outside the cases of a type are refused. |
| FfiLayout.NegativeSizeIsRefused | subportal-android/app/src/main/java/uniffi/subportal_android_core/subportal_android_core.kt:1296-1297 | A size with the sign bit set is refused, for a text and for a list. |
| FfiLayout.BadTextIsRefused | subportal-android/app/src/main/java/uniffi/subportal_android_core/subportal_android_core.kt:1296-1299 | A text announced longer than the buffer, or not in UTF-8, is refused. |
| FfiBuffers.ByteBuffer.Put | subportal-android/app/src/main/java/uniffi/subportal_android_core/subportal_android_core.kt:1328-1332 | Appends the bytes at the position and moves past them, touching nothing before it. |
| FfiBuffers.ByteBuffer.Get | subportal-android/app/src/main/java/uniffi/subportal_android_core/subportal_android_core.kt:1295-1299 | Gives exactly the next n bytes, or underflows. |
| FfiBuffers.WriteString | subportal-android/app/src/main/java/uniffi/subportal_android_core/subportal_android_core.kt:1328-1332 | Writes length and UTF-8 within the string's allocation; refused exactly for a lone surrogate. |
| FfiBuffers.WriteInfo | subportal-android/app/src/main/java/uniffi/subportal_android_core/subportal_android_core.kt:1758-1763 | Writes the four fields within the record's allocation. |
| FfiBuffers.WriteInfos | subportal-android/app/src/main/java/uniffi/subportal_android_core/subportal_android_core.kt:2074-2079 | Writes the records in order; refused exactly when one has a lone surrogate. |
| FfiBuffers.WriteServers | subportal-android/app/src/main/java/uniffi/subportal_android_core/subportal_android_core.kt:2074-2079 | Writes the size and the records within the list's allocation. |
| FfiBuffers.Write | subportal-android/app/src/main/java/uniffi/subportal_android_core/subportal_android_core.kt:1741-1861 | Writes exactly the specified bytes of any value within its allocation; refused exactly for a lone surrogate. |
| FfiBuffers.Lower | subportal-android/app/src/main/java/uniffi/subportal_android_core/subportal_android_core.kt:173-186 | Allocates, writes, and returns exactly the written bytes. |
| FfiBuffers.ReadInt | subportal-android/app/src/main/java/uniffi/subportal_android_core/subportal_android_core.kt:2062 | Reads a big-endian signed 32-bit number as the parser does. |
| FfiBuffers.ReadString | subportal-android/app/src/main/java/uniffi/subportal_android_core/subportal_android_core.kt:1295-1300 | Reads a string as the parser does, negative sizes and malformed text included. |
| FfiBuffers.ReadInfo | subportal-android/app/src/main/java/uniffi/subportal_android_core/subportal_android_core.kt:1742-1749 | Reads the four fields as the parser does. |
| FfiBuffers.ReadInfos | subportal-android/app/src/main/java/uniffi/subportal_android_core/subportal_android_core.kt:2061-2066 | Reads the counted records, stopping at the first error. |
| FfiBuffers.Read | subportal-android/app/src/main/java/uniffi/subportal_android_core/subportal_android_core.kt:1741-1861 | The in-place reader of every type computes the parser function and stops where it does. |
| FfiBuffers.LiftFrom | subportal-android/app/src/main/java/uniffi/subportal_android_core/subportal_android_core.kt:192-203 | Reading a whole buffer computes the lifting function, the junk check included. |

## Left out

- QUIC and iroh, D-Bus, desktop portals, Android services, key generation, sockets and files: a
  send is an arbitrary reply, a save is a flag that says whether it succeeded, and randomness and
  clock readings are parameters (one reading for each critical section).
- JSON text: values are trees, payloads are NUL-free bytes, and the JSON ticket decoder is a
  parameter.
- Socket-address text: an address text is the result of parsing it.
- Requests.RequestOfCarrier: reads parameters by name; the library also takes them as an array.
- Dismissal broadcasts, `Ping` aggregation, the event log, `notify-send` flags, URL detection, user
  interfaces and packaging: out of scope.
- Router.SortByComparator: a stable insertion sort over a sequence stands for the library's sort,
  which rearranges a vector of references in place.
- Ordering.StrLessTotal: ids are compared by character, which for UTF-8 strings is the order of their bytes.
- Hub.Hub.NextNotificationId: wraps at 64 bits as an optimised build does; a checked build panics instead.
- Hub.Hub.GenerateTicket: an expiry out of range panics and ends the request without a reply; the
  model says that nothing is issued, not how the connection closes.
- Peers.Registry.AddEntry: concurrent writers of one registry file and lost updates on disk are not modelled.
- ConfirmEndToEnd.ExitCodeReflectsUsers: covers the replies of the desktop and Android handlers in
  this repository; neither sends an error id the agent does not know, which would read as success
  (`Protocol.UnknownErrorIsSuccess`).
- AgentSafety.EntryStaysWhileAlone: that no other handler of the endpoint is open is up to the
  device; the agent does not enforce it.
- ConfirmQueues.AlwaysSafe: up to 2^32 prompts in a process, after which ids repeat
  (`ConfirmQueues.PromptIdsCollideIff`).
- ConfirmQueues.Manager.EndPrompt: one call stands for the poll's end and the cleanup;
  `ConfirmSections.PollSection` and `ConfirmSections.RemoveSection` are its two steps, with any
  interference between them.
- AgentSections.FanOut: without interference; `AgentSections.StartFanOutSection` and
  `AgentSections.FinishFanOutSection` are the two sections with any interference between them.
- UseCounter.SubportalCore.Enter: without interference; `UseCounter.SubportalCore.Advance` is one
  atomic operation at a time, with any interference between them. Freeing by the garbage collector
  is not modelled.
- CompactTicket.Cursor.ReadExact: where a cursor stands after a failed read is not used by the
  decoder; here it does not move.
- Ffi.LiftWritten: sizes stay within a 32-bit Int, as a Java buffer requires; sums that wrap
  64 bits are not modelled.
- FfiBuffers.ReadString: bytes that are not UTF-8 are an error here; Kotlin replaces them.
- Reload.Connections.Stop: closing the endpoint, and tasks that end by themselves (they loop
  forever), are not modelled.
