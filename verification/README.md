# Verification of the modem link

A Dafny model of the parts of the modem library where its correctness is decided: the socket
pool and receive path of the Air780E, the routing layer below every module, the HTTP, MQTT and
WebSocket engines on top, and the negotiation of the UART rate. `dafny verify dfyconfig.toml`
checks all of it.

Code that works step by step is a class whose methods change the same fields; each method is
proved equal to a function on a value of the state, and the properties are lemmas about those
functions. Code that several threads share is a state machine whose steps are its critical
sections, and the properties hold of every run, in every interleaving.

| file | what it models |
|---|---|
| `Bytes`, `Text`, `Wrappers`, `Framing` | octets, text searches, result types, and the framing of a byte stream by any decoder |
| `MqttPacket`, `MqttClient`, `MqttQos2` | the MQTT codec, the client's receive path, and the inbound QoS 2 exchange as a protocol between broker and client |
| `WsFrame`, `WsClient`, `WsClose` | the WebSocket codec, fragment handling with its limits, and how a session ends |
| `AtParser`, `HttpParser`, `HttpStream`, `HttpBody`, `HttpHead` | number parsing, the incremental response parser, its independence of how bytes are cut, body accounting and the chunk printer, and the response head from its printed text |
| `HttpUrl`, `HttpRedirect`, `HttpRedirectChain` | URLs, path normalisation and resolution, and the chain of requests one call turns into |
| `HttpUpload`, `HttpUploadClient`, `HttpUploadPeers` | what a chunked upload puts on a connection, the latches that decide it, and which server a connection is for |
| `BaudAlignment` | the rate negotiation against a module that hears only at its own rate |
| `HalRouter`, `HalGenerations` | routing and the hold for early events, with the ML307's cid pool, and the separation of cid generations |
| `Air780ePool`, `Air780eModes`, `Air780eOpen` | the six cids, the module-wide TLS switch under concurrent openers, and one open run alone |
| `Air780eClose`, `Air780eReceive`, `Air780eDrain` | the deferred peer close, the receive side as steps, and the drain loop |

## Where the code falls short of what it says

Six things the code or its comments promise do not hold as written. The model keeps the code as
it is, shows a failing run or input, and proves when the promise is kept.

* A `Write` refused because the server has already answered (`software_http_client.cpp:658-670`)
  clears the latch and keeps the socket, so with keep-alive the next request lands inside the
  open body. `RefusedWriteThenRequestGarbles` shows it; `WiresAreWellFormedExactly` proves it is
  the only way a connection is ever garbled.
* A peer close finished between the allocation of a cid and the hand-over of its socket
  (`air780e_hal.cpp:649-653`) leaks a mode reservation for good. `EarlyRetireLeaks` shows it,
  `LeaksNeverHeal` says it stays, and `ReservationsAreConservedExactly` gives the exact condition.
* A peer close noted for a live socket can be forgotten, because two calls that clear the note of
  a cid do so in a later critical section than the one that decided it: `RetireSlot`
  (`air780e_hal.cpp:542-562`, shown by `StaleClearLosesANote`) and the reader's look at a cid that
  is not in use (`air780e_hal.cpp:1001-1005`, shown by `StaleLookLosesANote`).
  `NotesAreLostExactly` is the exact condition.
* The header of the rate negotiation promises agreement on every path that returns a rate. A
  write that is applied while its OK is lost breaks it for any two rates
  (`LostAcknowledgementRun`); `SetModuleBaudRate` proves that nothing else does.
* The response parser depends on how the bytes were cut when a line ends in a bare LF and a CRLF
  follows (`BareLfMakesTheCutMatter`). For one line `LineIsCutProofExactlyWhenClean` is the exact
  condition. For a whole stream clean lines suffice (`HttpStream.SplitInvariance`), and any stream
  whose cut does not matter is one that is read plainly, line by line (`CutProofMeansPlain`).
* A relative redirect promises to keep the scheme, host and port in use. A host with a ':' in it,
  such as the literal of an IPv6 address, loses them (`ColonHostsLoseTheirAuthority`,
  `Ipv6LiteralLosesItsAuthority`); `RelativeRedirectKeepsAuthority` is the exact condition.

Path normalisation makes no promise about section 5.2.4 of RFC 3986, but comes close to it. The
two agree on every rooted path without empty segments (`NormalizedIsDotsRemoved`), and among the
paths without ".." on no others (`NormalizedIsDotsRemovedExactly`).

## Model

| member | source | states |
|---|---|---|
| Framing.SplitInvariance | src/protocol/mqtt/software_mqtt_client.cpp:341-373 | for any decoder whose answer no later byte changes, cutting a stream into arrivals changes neither the frames nor the leftover |
| Framing.NothingWholeIsLeft | src/protocol/mqtt/software_mqtt_client.cpp:341-373 | the receive loop never stops with a whole frame still in the buffer |
| MqttPacket.EncodeRemainingLength | src/protocol/mqtt/mqtt_packet.cpp:59-71 | the do-while loop produces the base-128 field, and nothing for a value above 268435455 |
| MqttPacket.DecodeRemainingLength | src/protocol/mqtt/mqtt_packet.cpp:73-90 | the four-step loop reads the field, and gives none for a short or overlong one |
| MqttPacket.RemainingLengthRoundTrip | src/protocol/mqtt/mqtt_packet.cpp:59-90 | every length up to 268435455 decodes to what was encoded, whatever follows it |
| MqttPacket.DecodedFieldIsMinimal | src/protocol/mqtt/mqtt_packet.cpp:73-90 | a field that decodes is the encoder's own if and only if it has one byte or its last byte is not zero |
| MqttPacket.TakePacketStable | src/protocol/mqtt/mqtt_packet.cpp:109-131 | bytes behind a whole packet never change it |
| MqttPacket.TakeUndoesEncode | src/protocol/mqtt/mqtt_packet.cpp:23-31 | a framed packet is taken back with its type, flags, length and body, to its last byte |
| MqttPacket.ReframingIsExactForMinimalLengths | src/protocol/mqtt/mqtt_packet.cpp:256-258 | taking a packet and framing it again reproduces its bytes if and only if its length field was minimal |
| MqttPacket.StreamRoundTrip | src/protocol/mqtt/mqtt_packet.cpp:109-131 | any list of framed packets with an incomplete tail, in any pieces, comes out of the loop as that list with the tail kept |
| MqttPacket.ReadUndoesAppend | src/protocol/mqtt/mqtt_packet.cpp:92-107 | a string field is read back for lengths up to 65535, and comes back shorter for every longer one |
| MqttPacket.ParseUndoesPublish | src/protocol/mqtt/mqtt_packet.cpp:145-166 | parsing undoes encoding if and only if the topic fits two length bytes and the QoS is 0, 1 or 2 |
| MqttPacket.ParseUndoesAck | src/protocol/mqtt/mqtt_packet.cpp:250-254 | every acknowledgement is taken and parsed back to its type and packet id |
| MqttPacket.AcknowledgementOctets | src/protocol/mqtt/mqtt_packet.cpp:250-254 | the octets of PUBACK, PUBREC, PUBREL and PUBCOMP, as sections 3.4 to 3.7 of MQTT 3.1.1 print them |
| MqttPacket.PublishOctets | src/protocol/mqtt/mqtt_packet.cpp:214-230 | the octets of a PUBLISH with one length octet: flags, length, topic, packet id from QoS 1 on, payload |
| MqttPacket.LengthOctets | src/protocol/mqtt/mqtt_packet.cpp:73-90 | a remaining length is its octets seven bits at a time, the least significant first |
| MqttClient.SoftwareMqttClient.OnTransportData | src/protocol/mqtt/software_mqtt_client.cpp:341-373 | one arrival: the 64 KiB check, then the packet loop, on the fields the client has |
| MqttClient.SoftwareMqttClient.HandlePublish | src/protocol/mqtt/software_mqtt_client.cpp:448-488 | what a PUBLISH delivers, holds and acknowledges for each QoS |
| MqttClient.SoftwareMqttClient.HandlePubrel | src/protocol/mqtt/software_mqtt_client.cpp:501-524 | a PUBREL delivers what is held for its id, once, and is always completed |
| MqttClient.DrainHandlesPackets | src/protocol/mqtt/software_mqtt_client.cpp:341-373 | one drain handles exactly the packets in the buffer, in order, and keeps the rest |
| MqttClient.AnyCutHandlesTheStream | src/protocol/mqtt/software_mqtt_client.cpp:341-373 | within the buffer limit, any cut of a stream has the effect of its packets in order |
| MqttClient.OverflowExactlyBeyondLimit | src/protocol/mqtt/software_mqtt_client.cpp:345-358 | the session ends if and only if an arrival does not fit behind the unfinished packet |
| MqttClient.StaysDown | src/protocol/mqtt/software_mqtt_client.cpp:150-180 | nothing that arrives revives a torn-down session |
| MqttClient.FirstCopyIsDelivered | src/protocol/mqtt/software_mqtt_client.cpp:448-524 | a QoS 2 message repeated before its PUBREL is handed over once, as it came first, with every packet answered |
| MqttClient.TeardownForgetsWhatWasHeld | src/protocol/mqtt/software_mqtt_client.cpp:150-162 | a message held when the connection goes down is never delivered, reconnected or not: every later delivery is of a PUBLISH that arrived since |
| MqttQos2.InvRun | src/protocol/mqtt/software_mqtt_client.cpp:448-524 | the protocol invariant that ties the broker's flights, both channels and the client's held ids holds in every run |
| MqttQos2.ExactlyOnce | src/protocol/mqtt/software_mqtt_client.cpp:448-524 | section 4.3.3 of MQTT 3.1.1: for any mix of ids, repeats and delays a message is delivered at most once, and exactly once when the broker has its PUBCOMP |
| MqttQos2.CanAlwaysFinish | src/protocol/mqtt/software_mqtt_client.cpp:448-524 | from every reachable state the exchange of any message in flight can be completed |
| MqttQos2.BytesFollowTheProtocol | src/protocol/mqtt/software_mqtt_client.cpp:341-524 | the client on bytes, cut in any way, delivers and replies exactly as the protocol does on messages |
| WsFrame.EncodeFrame | src/protocol/websocket/ws_frame.cpp:68-118 | the frame bytes with the shortest length form and the mask, and no frame for an illegal control frame |
| WsFrame.AppendMasked | src/protocol/websocket/ws_frame.cpp:38-52 | the loop appends each byte xored with its byte of the key; what the exclusive or is, WsFrame.XorBit says |
| WsFrame.XorBit | src/protocol/websocket/ws_frame.cpp:38-52 | a bit of a masked octet is set exactly when that bit of the octet and of the key differ |
| WsFrame.ServerReadsWhatWasMasked | src/protocol/websocket/ws_frame.cpp:68-118 | a server that reads the length form, takes the four key octets in front of the payload and undoes the mask by its own definition has the frame, to its last octet |
| WsFrame.FirstOctets | src/protocol/websocket/ws_frame.cpp:68-118 | the final bit and the opcode number in the first octet, for each of the six opcodes |
| WsFrame.RefusedExactly | src/protocol/websocket/ws_frame.cpp:120-173 | a frame is a violation if and only if it has a reserved bit, a reserved opcode, a mask, the top bit of a 64-bit length, or is a control frame in fragments or over 125 bytes however spelled |
| WsFrame.ReadLength | src/protocol/websocket/ws_frame.cpp:120-191 | the eight length bytes are read in network order |
| WsFrame.ReadFrame | src/protocol/websocket/ws_frame.cpp:120-191 | the checks in their order give a whole frame, a violation, or a wait for more bytes |
| WsFrame.TakeFrameStable | src/protocol/websocket/ws_frame.cpp:120-191 | bytes behind a frame never change it, and never cure a violation |
| WsFrame.TakeUndoesEncode | src/protocol/websocket/ws_frame.cpp:120-191 | every legal unmasked frame is taken back whole, whatever is behind it |
| WsFrame.EncoderRefusesExactlyTheIllegal | src/protocol/websocket/ws_frame.cpp:68-85 | the encoder refuses a frame if and only if it is a fragmented or oversized control frame |
| WsFrame.MaskedFrameIsRefused | src/protocol/websocket/ws_frame.cpp:120-150 | a masked frame is refused from a server, and the mask comes off by applying it twice |
| WsClient.SoftwareWsClient.SendFragment | src/protocol/websocket/software_ws_client.cpp:356-381 | the opcode rule: the first fragment names the kind, the others continue it |
| WsClient.SoftwareWsClient.DrainFrames | src/protocol/websocket/software_ws_client.cpp:498-523 | the frame loop, to the first incomplete or invalid frame or the end of the session |
| WsClient.SoftwareWsClient.HandleDataFrame | src/protocol/websocket/software_ws_client.cpp:569-621 | fragment reassembly with its three ways to fail |
| WsClient.AlwaysBounded | src/protocol/websocket/software_ws_client.cpp:474-496 | whatever a server sends, the receive buffer, the reassembly and every delivery stay within 64 KiB |
| WsClient.PartsHandled | src/protocol/websocket/software_ws_client.cpp:569-642 | the fragments of one message, with control frames between them, deliver it once and whole and answer each ping |
| WsClient.AnyCutHandlesTheStream | src/protocol/websocket/software_ws_client.cpp:460-523 | within the buffer limit, any cut of a stream has the effect of its frames in order |
| WsClient.MessagesSurviveTheWire | src/protocol/websocket/software_ws_client.cpp:363-375 | section 5.4 of RFC 6455 end to end: messages cut by the sender's rule, control frames between and behind them, and an unfinished frame last: each message arrives once, in order, whole, with its kind, pings are answered with their own payload, and the unfinished frame is kept |
| WsClose.PeerCloseIsAnswered | src/protocol/websocket/software_ws_client.cpp:644-674 | section 5.5.1 of RFC 6455: a close frame ends the session with the code it carries, or 1005, is echoed unless this end closed first, and nothing behind it is handled |
| WsClose.ShortCloseIsAnError | src/protocol/websocket/software_ws_client.cpp:644-650 | a close frame of one octet is an error answered with 1002 |
| WsClose.ViolationsNameTheirCode | src/protocol/websocket/software_ws_client.cpp:474-523 | a frame that breaks the rules ends the session with 1002, an arrival over 64 KiB with 1009 |
| WsClose.OneCloseForEachEnd | src/protocol/websocket/software_ws_client.cpp:644-710 | whatever arrives, a session that ends sends exactly one close frame and reports one end, and one that goes on does neither |
| AtParser.ParseUndoesDecimal | src/at_parser/at_parser.cpp:59-67 | a number printed in decimal, with or without a minus, parses back exactly while an int can hold it |
| AtParser.ToHexString | src/at_parser/at_parser.cpp:128-138 | the loop that collects digits backwards prints the number in lower-case hexadecimal |
| HttpParser.HttpResponseParser.Feed | src/protocol/http/http_parser.cpp:35-90 | one call: banked bytes and new ones, turn by turn, and how many of the caller's bytes were used |
| HttpParser.HttpResponseParser.FeedHeaders | src/protocol/http/http_parser.cpp:163-218 | one header line: duplicates, lengths, chunking, and the move to the body |
| HttpParser.HttpResponseParser.FeedChunkSize | src/protocol/http/http_parser.cpp:236-276 | one chunk-size line, with its extensions and its refusals |
| HttpParser.HttpResponseParser.Finish | src/protocol/http/http_parser.cpp:327-336 | a hang-up completes a close-delimited body and nothing else |
| HttpHead.HeadIsRead | src/protocol/http/http_parser.cpp:112-218 | any printed head, with blanks around its values, names in any letter case and cut anywhere, leaves exactly that version, status, reason and header map, the stated length or chunking, and the phase of its body |
| HttpHead.BodyFollowsHead | src/protocol/http/http_parser.cpp:35-218 | and what stands behind the head is read from there, wherever the bytes are cut |
| HttpHead.BadLinesAreRefused | src/protocol/http/http_parser.cpp:112-276 | a line without "HTTP/", without a blank behind it, without a colon or a name, or without a size is an error that changes nothing |
| HttpHead.BadLengthIsRefused | src/protocol/http/http_parser.cpp:200-212 | a Content-Length that is no number or more than an int holds is an error |
| HttpStream.LineIsCutProofExactlyWhenClean | src/protocol/http/http_parser.cpp:94-110 | one line reads the same for every cut behind it if and only if no bare LF stands before its CRLF |
| HttpStream.LoopIsParse | src/protocol/http/http_parser.cpp:52-90 | on a clean stream the banking loop comes to the end of a plain one-pass reading |
| HttpStream.SplitInvariance | src/protocol/http/http_parser.cpp:35-110 | for any cut of a clean stream the final state, headers, body, counters and bank are those of one call |
| HttpStream.ByteByByteIsPlain | src/protocol/http/http_parser.cpp:35-110 | fed a byte at a time the parser reads every stream plainly, clean or not |
| HttpStream.CutProofMeansPlain | src/protocol/http/http_parser.cpp:35-110 | a stream that leaves the same state for every cut is read plainly in each of them |
| HttpStream.CompletingCallReturnsTheEnd | src/protocol/http/http_parser.cpp:52-90 | the call that completes a response returns exactly where it ends in its own argument |
| HttpStream.EndIsTheSameForEveryCut | src/protocol/http/http_parser.cpp:52-90 | every cut agrees on which byte of the stream the response ends at |
| HttpStream.FedKeepsResting | src/protocol/http/http_parser.cpp:52-90 | the bank never holds an LF after a call, and is empty inside a body |
| HttpStream.BareLfMakesTheCutMatter | src/protocol/http/http_parser.cpp:94-110 | one stream with a bare LF, fed in two ways, ends in two different states |
| HttpBody.CompleteOnlyWhenWhole | src/protocol/http/http_parser.cpp:220-336 | over every run, on any stream and any cut: emitted and remaining bytes add up to Content-Length, and completion means the whole body, a chunk-size line of zero with a blank line behind it, or a hang-up on a close-delimited body |
| HttpBody.ChunkedBodyIsParsed | src/protocol/http/http_parser.cpp:236-316 | everything the chunked grammar derives is parsed to its payload, and nothing behind it is touched |
| HttpBody.ChunkedBodyFromParse | src/protocol/http/http_parser.cpp:236-316 | whatever the parser completes as chunked is derived by that grammar, with the payload it emitted |
| HttpBody.ChunkedRunFromGrammar | src/protocol/http/http_parser.cpp:236-316 | a clean chunked stream that completes over any list of arrivals is a body of that grammar and what is left of the stream, and its payload is what was emitted |
| HttpBody.HexValueOfHex | src/protocol/http/http_parser.cpp:236-276 | the size the printer writes is the size the parser reads |
| HttpBody.SizeLineIsRead | src/protocol/http/http_parser.cpp:236-276 | a chunk-size line reads as the size it shows, in any letter case, with blanks and with any extension |
| HttpBody.FrameIsChunk | src/protocol/http/software_http_client.cpp:35-43 | a printed frame is one chunk of the grammar |
| HttpBody.PrinterAndParserUndoEachOther | src/protocol/http/software_http_client.cpp:35-43 | section 7.1 of RFC 9112: frames and terminator, cut anywhere, emit exactly the pieces, use every byte and end complete |
| HttpUrl.ParsedIsWellFormed | src/protocol/http/http_request_builder.cpp:29-81 | every URL that parses has a host without '/' or '?', a port in range and a rooted path |
| HttpUrl.PrintParseRoundTrip | src/protocol/http/http_request_builder.cpp:29-81 | a URL printed as a redirect prints it parses back if and only if its host has no '@', and no ':' unless the port is written |
| HttpUrl.UrlIsRead | src/protocol/http/http_request_builder.cpp:29-81 | a URL reads as it is written: scheme, host, the port or 443 or 80, the path or "/", and no userinfo |
| HttpRedirect.NormalizePath | src/protocol/http/http_redirect.cpp:36-69 | the two loops over the segment stack compute the normalised path |
| HttpRedirect.NormalizedIsClean | src/protocol/http/http_redirect.cpp:36-69 | the result starts at '/', keeps the query, and has no empty, "." or ".." segment |
| HttpRedirect.NormalizeTwiceIsOnce | src/protocol/http/http_redirect.cpp:36-69 | normalising is idempotent |
| HttpRedirect.StackKeepsTheSurviving | src/protocol/http/http_redirect.cpp:46-56 | the stack keeps exactly the segments no later ".." takes, read from the right |
| HttpRedirect.NormalizedIsDotsRemoved | src/protocol/http/http_redirect.cpp:36-69 | on a rooted path without empty segments it is the string algorithm of section 5.2.4 of RFC 3986 |
| HttpRedirect.NormalizedIsDotsRemovedExactly | src/protocol/http/http_redirect.cpp:36-69 | on a rooted path without ".." it is that algorithm if and only if no segment but the last is empty |
| HttpRedirect.EmptySegmentsVanish | src/protocol/http/http_redirect.cpp:52-54 | with an empty segment it is not: the segment is dropped where the RFC keeps it |
| HttpRedirect.RelativePathExtendsTheDirectory | src/protocol/http/http_redirect.cpp:74-100 | a path-relative Location is put behind the directory of the base path |
| HttpRedirect.RelativeRedirectKeepsAuthority | src/protocol/http/http_redirect.cpp:127-180 | a relative redirect keeps scheme, host and port through print and parse, with the normalised path, if and only if the host can be printed |
| HttpRedirect.ColonHostsLoseTheirAuthority | src/protocol/http/http_redirect.cpp:155-167 | every host with a ':' that a URL carries before its default port loses its authority on every relative redirect |
| HttpRedirect.Ipv6LiteralLosesItsAuthority | src/protocol/http/http_redirect.cpp:155-167 | such a URL and a redirect that shows it |
| HttpRedirect.RedirectsAreWellFormed | src/protocol/http/http_redirect.cpp:127-180 | whatever a redirect resolves to has a host, a port in range and a rooted path |
| HttpRedirect.AbsoluteRedirectsAreFollowed | src/protocol/http/http_redirect.cpp:127-180 | an absolute Location, or one that starts at the authority, leads to the URL it prints |
| HttpRedirect.RootedReplacesThePath | src/protocol/http/http_redirect.cpp:74-100 | a Location from the root replaces path and query under the authority in use |
| HttpRedirect.QueryOnlyKeepsThePath | src/protocol/http/http_redirect.cpp:74-100 | a Location that is only a query keeps the path |
| HttpRedirect.FragmentsAreDropped | src/protocol/http/http_redirect.cpp:127-180 | a fragment changes nothing |
| HttpRedirect.OtherSchemesAreRefused | src/protocol/http/http_redirect.cpp:127-180 | a Location with any other scheme is refused |
| HttpRedirectChain.SoftwareHttpClient.Execute | src/protocol/http/software_http_client.cpp:278-305 | for any answers the call ends, its attempts form a chain from the caller's request with at most the allowed redirects, and its result is what ended the chain |
| HttpRedirectChain.SoftwareHttpClient.ExecuteAttempt | src/protocol/http/software_http_client.cpp:307-324 | one attempt, or two when the first lost its connection and the method is safe |
| HttpRedirectChain.SoftwareHttpClient.ApplyRedirect | src/protocol/http/software_http_client.cpp:326-397 | when a response is followed, refused or final, and the request that follows |
| HttpRedirectChain.ZeroLimitFollowsNothing | src/protocol/http/software_http_client.cpp:334-338 | with a limit of zero, as with a negative one, every attempt is the caller's own request and a redirect is handed back as the answer |
| HttpRedirectChain.AttemptsAreBounded | src/protocol/http/software_http_client.cpp:278-324 | a chain has at most two attempts for each of its redirects plus one |
| HttpRedirectChain.CredentialsStayHome | src/protocol/http/software_http_client.cpp:362-373 | a request that carries a credential header, and every request before it, went to the origin of the first |
| HttpRedirectChain.CredentialsStayInPlace | src/protocol/http/software_http_client.cpp:362-373 | in fields: a request with an Authorization, Cookie or Proxy-Authorization header in any letters, and all before it, went to the first one's scheme, port and host up to letter case |
| HttpRedirectChain.HeadersStayInPlace | src/protocol/http/software_http_client.cpp:362-373 | and while all of these stay the same no header is taken |
| HttpRedirectChain.PlainHeadersAlwaysGo | src/protocol/http/software_http_client.cpp:362-373 | every other header is on every request, in the caller's order |
| HttpRedirectChain.HeadersStayWhole | src/protocol/http/software_http_client.cpp:362-373 | inside one origin no header is taken |
| HttpRedirectChain.RequestsAreTheCallers | src/protocol/http/software_http_client.cpp:375-386 | each request is the caller's method and body or a bodiless GET, with every header that is no credential |
| HttpRedirectChain.MethodsFollowTheAnswers | src/protocol/http/software_http_client.cpp:375-386 | method and body follow from the statuses answered: 307 and 308 keep them, 303 makes a bodiless GET, 301 and 302 do so of all but GET and HEAD |
| HttpRedirectChain.AnswersHandedBackAreFinal | src/protocol/http/software_http_client.cpp:326-348 | a redirect answer that names a place is never handed back while following is on and the limit is not zero |
| HttpRedirectChain.SafeRequestsAreTriedTwice | src/protocol/http/software_http_client.cpp:307-324 | a GET, HEAD or OPTIONS whose connection was lost is given up only after a second try |
| HttpRedirectChain.OnlySafeRequestsRepeat | src/protocol/http/software_http_client.cpp:307-324 | a request repeats only after a lost connection, only if it is GET, HEAD or OPTIONS, and only once |
| HttpUpload.WireIsRequests | src/protocol/http/software_http_client.cpp:216-276 | a wire the server accepts is complete requests followed by at most one unfinished one, with no empty chunk |
| HttpUpload.RequestsAreWire | src/protocol/http/software_http_client.cpp:216-276 | and every such list of requests is a wire the server accepts |
| HttpUploadClient.SoftwareHttpClient.DropTransport | src/protocol/http/software_http_client.cpp:103-120 | the socket goes, and with it the upload latches |
| HttpUploadClient.SoftwareHttpClient.EnsureConnected | src/protocol/http/software_http_client.cpp:122-178 | reuse under keep-alive for the same host, port and security, else a new connection or none |
| HttpUploadClient.SoftwareHttpClient.StartRequest | src/protocol/http/software_http_client.cpp:216-276 | refused inside an upload, else connection, latches and head |
| HttpUploadClient.SoftwareHttpClient.OpenHead | src/protocol/http/software_http_client.cpp:495-530 | the head of a chunked upload and the arming of its latches |
| HttpUploadClient.SoftwareHttpClient.Write | src/protocol/http/software_http_client.cpp:616-720 | the eight gates in their order, then one frame, or a dropped connection |
| HttpUploadClient.SoftwareHttpClient.EndBody | src/protocol/http/software_http_client.cpp:722-798 | the gates, the terminator, and the ways the connection is given up |
| HttpUploadClient.StepIsWellExactly | src/protocol/http/software_http_client.cpp:103-178 | one step from a well-formed state stays well formed if and only if it does not start a request on a kept connection with an abandoned body |
| HttpUploadClient.WiresAreWellFormedExactly | src/protocol/http/software_http_client.cpp:103-178 | over every run of calls, data and failures, all connections carry complete requests and at most one unfinished one if and only if no step did that |
| HttpUploadClient.RefusedWriteThenRequestGarbles | src/protocol/http/software_http_client.cpp:658-670 | a run in which one did |
| HttpUploadClient.OneChunkPerAcceptedWrite | src/protocol/http/software_http_client.cpp:616-720 | while an upload is open the wire holds one chunk per accepted non-empty Write since its head, in order |
| HttpUploadClient.EndBodyCompletesTheUpload | src/protocol/http/software_http_client.cpp:757-797 | an EndBody whose terminator goes out leaves on its connection, kept or dropped, one complete request of exactly the accepted pieces behind complete requests |
| HttpUploadClient.UploadIsReadBack | src/protocol/http/software_http_client.cpp:702-797 | the bytes behind the last head on that connection, cut anywhere, are parsed back to the accepted pieces |
| HttpUploadPeers.OneServerPerConnection | src/protocol/http/software_http_client.cpp:122-178 | over every run, any two requests on one connection are for one host, port and security |
| HttpUploadPeers.SameServerReuses | src/protocol/http/software_http_client.cpp:122-127 | with keep-alive, a request for the server of the open connection goes onto it |
| HttpUploadPeers.OtherwiseRedials | src/protocol/http/software_http_client.cpp:122-178 | in every other case the old connection is given up as it stands and the request opens the next one |
| BaudAlignment.ListsRate | src/at_channel/baud_alignment.cpp:94-106 | true if and only if some maximal digit run of the answer is the decimal form of the rate |
| BaudAlignment.NoWholeInside | src/at_channel/baud_alignment.cpp:94-106 | the jump over a rejected hit skips no whole-number hit |
| BaudAlignment.BaudRateCandidates | src/at_channel/baud_alignment.cpp:118-126 | the positive rates to probe, without repeats, the requested one first |
| BaudAlignment.Link.FindModuleBaudRate | src/at_channel/baud_alignment.cpp:128-177 | the first candidate at which the port can be put and the module answers is found, and one in front of it was looked at and missed; a rate is returned only with both ends at it, and on error every candidate was missed and the host is back at its entry rate unless that move failed |
| BaudAlignment.Link.Query | src/at_channel/baud_alignment.cpp:54-66 | the answer is had exactly when both ends are at one rate and the command and its answer get through |
| BaudAlignment.Link.ConfirmRate | src/at_channel/baud_alignment.cpp:227-231 | confirmed if and only if the module is at the rate and one of four answers names it |
| BaudAlignment.ReportIsRead | src/at_channel/baud_alignment.cpp:72-92 | the printed answer line is found behind other lines and read as its rate |
| BaudAlignment.Link.SetModuleBaudRate | src/at_channel/baud_alignment.cpp:179-268 | from agreement, both ends are at the returned rate if and only if the first write was not both applied and unacknowledged; it writes if and only if the answer names the rate; an acknowledged and followed write ends in that rate with no second write if and only if the module took it and one of four probes is heard to name it, else the old rate is written back and searched for |
| BaudAlignment.LostAcknowledgementRun | src/at_channel/baud_alignment.cpp:200-214 | for any two rates, the run that applies the write and loses its OK returns the old rate, with only the host at it |
| HalRouter.Ml307Hal.SubscribeTcp | src/hal/imodule_hal.h:122-168 | the new route is handed the held data, then the held close, or the close a cut-short hold forces |
| HalRouter.Ml307Hal.Unsubscribe | src/hal/imodule_hal.h:178-183 | a route is withdrawn by its handle alone |
| HalRouter.Ml307Hal.DispatchTcpData | src/hal/imodule_hal.h:223-234 | data goes to the route of its cid, or into the hold |
| HalRouter.Ml307Hal.DispatchTcpClose | src/hal/imodule_hal.h:238-261 | a close reaches the route once and ends it, or is held |
| HalRouter.Ml307Hal.HoldLocked | src/hal/imodule_hal.h:332-343 | the hold keeps what fits into 4096 bytes and marks what it dropped |
| HalRouter.Ml307Hal.DiscardUndelivered | src/hal/imodule_hal.h:276-279 | the hold of one cid is voided and nothing else changes |
| HalRouter.Ml307Hal.AllocateConnectionId | src/modules/ml307/ml307_hal.cpp:473-518 | the lowest settled cid, else the free one released longest ago, with its hold voided |
| HalRouter.Ml307Hal.ReleaseConnectionId | src/modules/ml307/ml307_hal.cpp:520-540 | a cid goes back with its hold voided; one out of range is ignored |
| HalRouter.Ml307Hal.OnMipclose | src/modules/ml307/ml307_hal.cpp:935-946 | a reported close frees the cid and then ends its route |
| HalRouter.ListenerIsServed | src/hal/imodule_hal.h:223-261 | in fields: the one client with a route for the cid gets the data, and its route ends with the close |
| HalRouter.StrangerIsHeld | src/hal/imodule_hal.h:223-261 | in fields: without a route no client gets anything, and the first 4096 bytes and the close are held |
| HalGenerations.StepKeepsInv | src/hal/imodule_hal.h:122-183 | every event keeps the invariant that ties holds, routes and inboxes to what was dispatched |
| HalGenerations.GenerationsStayApart | src/modules/ml307/ml307_hal.cpp:473-540 | over every run a client has a prefix of what was dispatched for its cid since the last discard, only of its own generation, nothing after its close, and if cut short exactly 4096 bytes and then the close |
| HalGenerations.ListenersMissNothing | src/hal/imodule_hal.h:223-261 | a client that still listens has all of it |
| HalGenerations.WithdrawnGetsNothing | src/hal/imodule_hal.h:178-183 | over every run, a client that has withdrawn is given nothing more |
| HalGenerations.EveryCidComesBack | src/modules/ml307/ml307_hal.cpp:473-540 | a cid whose open failed, or that either side closed, can be taken again, with nothing held for it |
| Air780eModes.StepKeepsInv | src/modules/air780e/air780e_hal.cpp:724-812 | each critical section and each command keeps mode exclusion and never lets a counter fall behind what is held |
| Air780eModes.ModesExclude | src/modules/air780e/air780e_hal.cpp:724-776 | over all interleavings the two counters are never both positive, both are zero while switching, and a positive one means the module's switch is in its mode |
| Air780eModes.OpensGoOutInTheirMode | src/modules/air780e/air780e_hal.cpp:589-677 | every AT+CIPSTART finds the switch in its mode |
| Air780eModes.NoReleaseUnderflows | src/modules/air780e/air780e_hal.cpp:772-776 | a release always finds its counter positive, in every run |
| Air780eModes.ReservationsAreConservedExactly | src/modules/air780e/air780e_hal.cpp:538-585 | each counter equals the slots holding its mode plus opens past their reservation plus uncounted releases if and only if no hand-over found its slot retired or retaken |
| Air780eModes.ConservedWithoutEarlyRetire | src/modules/air780e/air780e_hal.cpp:589-677 | so it does if no cid is retired between its allocation and its hand-over |
| Air780eModes.EarlyRetireLeaks | src/modules/air780e/air780e_hal.cpp:649-653 | a run with one such retirement leaves a counter up that nobody holds |
| Air780eModes.LeaksNeverHeal | src/modules/air780e/air780e_hal.cpp:772-776 | and no later step brings it down |
| Air780eModes.JoinsItsMode | src/modules/air780e/air780e_hal.cpp:724-745 | a thread that opens next to a socket of its mode counts itself in, takes its cid and leaves the switch alone |
| Air780eModes.SwitchesToItsMode | src/modules/air780e/air780e_hal.cpp:746-770 | with no socket open it moves the switch first, and ends as the only holder of its mode |
| Air780eModes.GivesItBack | src/modules/air780e/air780e_hal.cpp:538-585 | closing the socket takes back the slot and the count |
| Air780eOpen.Air780eHal.ReserveSocketForMode | src/modules/air780e/air780e_hal.cpp:724-770 | refused under the opposite mode, counted under the same, else the switch moves or the reservation fails |
| Air780eOpen.Air780eHal.AllocateConnectionId | src/modules/air780e/air780e_hal.cpp:511-536 | the lowest free cid that is not to be avoided, with a fresh serial, or none if there is none |
| Air780eOpen.Air780eHal.RetireSlot | src/modules/air780e/air780e_hal.cpp:538-549 | the slot is blank again, and the mode it held is reported |
| Air780eOpen.Air780eHal.ReleaseConnectionId | src/modules/air780e/air780e_hal.cpp:581-585 | a slot goes back and the counters still count the holders |
| Air780eOpen.Air780eHal.OpenSocket | src/modules/air780e/air780e_hal.cpp:589-677 | the first free cid not held elsewhere decides; exhaustion is reported only when every free cid answered ALREADY CONNECT; a failure restores pool and counters |
| Air780eClose.CloseEndsOnlyItsSocket | src/modules/air780e/air780e_hal.cpp:1105-1124 | in every interleaving a socket is ended for a peer's close only if the line was handled while that socket held its cid, and never twice |
| Air780eClose.FinishTakesTheNotedSocket | src/modules/air780e/air780e_hal.cpp:1105-1124 | the slot that FinishClosedCid clears is the one whose serial was read when the line was handled |
| Air780eClose.LaterSocketsSurvive | src/modules/air780e/air780e_hal.cpp:511-585 | a socket opened on the cid later is never ended by the earlier note |
| Air780eClose.NotesAreLostExactly | src/modules/air780e/air780e_hal.cpp:994-1007 | a handled close of a socket that stays in use is forgotten if and only if its note is the only trace of it and a call begun earlier writes over it: a note or retirement for another socket of the cid, or the reader that saw the cid free |
| Air780eClose.StaleClearLosesANote | src/modules/air780e/air780e_hal.cpp:538-579 | a run in which the second section of RetireSlot wipes the next socket's note |
| Air780eClose.StaleLookLosesANote | src/modules/air780e/air780e_hal.cpp:1001-1005 | a run in which the reader, having seen the cid free, wipes the note of the socket that took it since |
| Air780eReceive.ReaderStepKeepsInv | src/modules/air780e/air780e_hal.cpp:927-1124 | each step of the reader strands nothing, keeps the order, and acts on a close only after a dry read |
| Air780eReceive.NothingIsStranded | src/modules/air780e/air780e_hal.cpp:927-1103 | in every reachable state unread bytes of a used cid have a flag, an arrival line on its way, or a pass that will still read them |
| Air780eReceive.QuietMeansDelivered | src/modules/air780e/air780e_hal.cpp:927-992 | once all lines are handled and no flag is up, everything taken in has been delivered |
| Air780eReceive.DeliveredInOrder | src/modules/air780e/air780e_hal.cpp:994-1103 | what was delivered is always the head of what the socket took in, and the rest is still in the module |
| Air780eReceive.CloseComesLast | src/modules/air780e/air780e_hal.cpp:1105-1124 | a noted close is acted on directly after a read of its cid that returned nothing or was refused |
| Air780eReceive.DryMeansDelivered | src/modules/air780e/air780e_hal.cpp:1056-1063 | an empty read finds everything taken in delivered |
| Air780eReceive.InUseExactlySinceAllocated | src/modules/air780e/air780e_hal.cpp:511-585 | over every run a cid is in use if and only if the last of its allocations, retirements and acted-on closes is an allocation |
| Air780eDrain.Receiver.DrainOneCid | src/modules/air780e/air780e_hal.cpp:994-1103 | reads of 720 bytes up to the 8 KiB budget; true exactly when at least the budget was waiting, else the cid is read dry and a noted close finished |
| Air780eDrain.Receiver.FinishClosedCid | src/modules/air780e/air780e_hal.cpp:1105-1124 | in fields: the note is taken, and the cid ends unused if and only if the note was its own serial |
| Air780eDrain.Receiver.DrainPending | src/modules/air780e/air780e_hal.cpp:970-992 | ends with every announced buffer delivered whole and in order over however many passes; a flagged cid has its flag and note cleared, and stays used if and only if the note was not its serial |
| Air780eDrain.ReaderTakesTheSameTurn | src/modules/air780e/air780e_hal.cpp:994-1103 | the reader of the step model, left alone, makes of a cid exactly what the method makes of it |

## Left out

- MqttQos2.ExactlyOnce: covers one connection, because Teardown empties the map of held messages (`software_mqtt_client.cpp:161`); what a broker repeats on a second connection is delivered again.
- HttpStream.SplitInvariance: needs status, header, chunk-size and trailer lines without a bare LF in front of their CRLF, while bodies and chunk data are unrestricted; for whole streams the converse is not claimed.
- HttpUploadClient.WiresAreWellFormedExactly: takes the Send of a request head to be whole or an error, as the client itself does; a short Send of a head is not modelled.
- HalGenerations.GenerationsStayApart: events are atomic, a cid has one route, and a client subscribes and withdraws before its cid is taken again.
- HalRouter.Ml307Hal.SubscribeTcp: requires that no route for the cid is registered, which the header demands of its callers.
- Air780eClose.CloseEndsOnlyItsSocket: the ownership test and the retirement in FinishClosedCid are one step, and serials do not wrap at 32 bits.
- Air780eReceive.NothingIsStranded: retiring a slot is one step, a read and the dispatch of its bytes are one step, and reads of live cids are answered and decodable.
- Air780eModes.OpensGoOutInTheirMode: the AT+CIPSSL? read-back is taken to tell the truth.
- HttpRedirect.NormalizedIsDotsRemovedExactly: leaves out paths with both ".." and empty segments, where a ".." may happen to take an empty segment away again.
- Air780eOpen.Air780eHal.RetireSlot: states the slot and the reported mode; the flag, the close note and the hold that go with a slot are in `Air780eClose`, `Air780eReceive` and `HalRouter`, and acknowledged sends are not modelled.
- Air780eOpen.Air780eHal.OpenSocket: runs alone, and the module answers AT+CIPSTART for a cid the same way throughout one call.
- WsClose.OneCloseForEachEnd: the caller's own Close, and its wait for the peer's half, are not modelled.
- BaudAlignment.Link.Query: an answered query proves that the ends agree, and a rate the module reports is its own, 0, or missing.
- Locks, threads and timers appear only as steps; that each mutex is released and each wait woken is not modelled.
- Re-entrant user callbacks, including a client that reconnects while it is being handed held events.
- The line assembly and prompt exchange of the UART channel: commands, answers and lines are taken as given.
- UDP sockets, acknowledged sends, and the decoding of hexadecimal payload lines.
- The ML307's open sequence, and its search over cids after a busy one.
- MQTT connection set-up, subscriptions, keep-alive and outbound publishing.
- The WebSocket handshake, the choice of masking keys, heartbeats and reconnection.
- TLS options, certificates, network registration, SIM and signal queries.
- The text of a request head beyond its being one Send: the header list is the caller's and the builder's.
- Read() and the queue of a streamed response body.
