# ProxySwiss: a model of its proxying core

ProxySwiss accepts connections (as a SOCKS5 proxy, as an HTTPS proxy, or as the mouth of a fixed tunnel), connects to
the wanted destination through a chain of SOCKS5 proxies, answers, and then relays bytes in both directions until each
side has closed. This project models that core in Dafny and proves what it is for.

* **Machines.** Every asynchronous operation of the program is "read exactly n bytes", "write all of this" or "read
  some". A protocol party is therefore a machine over its outstanding operation (`Wire`), and a transfer may bring any
  portion of the bytes. `Socks5Server`, `Socks5Client`, `HttpsServer`, `Chain`, `Relay` and `Sessions` are such
  machines; `Input` puts the three kinds of input behind one face; `Socks5Product` connects a client to a server;
  `System` puts everything that serves one connection together with the two sockets. About `System`, `SystemBounds`
  bounds what can happen before the relay, `SystemReach` says when the relay and the endless loop can be reached, and
  `HttpsAsked` when an HTTPS client is taken where its request line says.
* **Reference definitions.** `Rfc1928` (frames and one-shot parsers), the grammar in `HttpsServer`, `RequestLine`,
  `UrlGrammar`, `Ipv6Grammar`, `Rfc4291`, the grammar in `Ipv4Text`, `Splitting` and `Numerals` say what bytes and text
  mean without any of the machinery that reads them.
* **Objects.** The classes of the program that are updated step by step are classes here, with their fields, buffers
  and handler slots: `Session`, `Output`, `ServerSession`, `ClientSession`, `HttpsSession`, `ReadUntilOp`, `BinWriter`,
  `UrlParser`, `IpAddress`, `Core`. Their methods are proved to do what the machine or function beside them says; the
  lemmas are about the latter.

Errors, end of stream and partial transfers may occur at any operation and in any order. Where the code departs from
what it or a standard evidently means, the model follows the code, and a lemma says exactly when the two agree:
`Socks5Product.DestinationArrives` and `MajorArrives`, `Rfc1928.ConnectSound`, `CredsFrameHasWrongVersion` and
`StandardCredsReplyRefused`, `HttpsServer.HeadersAsMeant` and `BadHeaderAccepted`,
`System.TakenWhereAsked`, `HttpsAsked.TakenWhereNamed`, `Rfc4291.AgreeExactly`, `Ipv4Text.ParseExact` and
`AcceptedIsPrinted`, `UrlParsing.BareHostExact` and `UrlRoundTrip`. The one input on which the program does not go on is
told by `Ipv6Scanner.LoopEndsUnlessScoped` for address text, `UrlParsing.HangsExactly` for URLs,
`RequestLine.EndlessExactly` for request lines, `HttpsServer.HungExactly` for streams and `System.HungExactly` for
connections.
The comment in `parse_first_line` allows only host and port, but the code also lets a path pass; so does the model.
An endless loop is a value of its own (`Spins`, `Hangs`, `NoReturn`, `Endless`, `Hung`).

`dafny verify dfyconfig.toml` checks the whole project.

## Model

| member | source | states |
|---|---|---|
| `System.EndToEndTransparency` | src/proxyswiss/detail/session.cpp:57-267 | In every run that reaches the relay, the client's own bytes begin with a request for the session's destination as the code reads requests (the port of an IPv6 address unswapped; `TakenWhereAsked` says when that is what the bytes ask for), every hop has given exactly an accepting answer to its request, the output socket has carried the handshakes and then, in order and without gap, loss or repetition, what the client sent behind its request (all but at most one buffer of it); and the same the other way round, behind the answers and the reply. |
| `System.TakenWhereAsked` | src/proxy/detail/server_session_socks5.cpp:281-305 | A SOCKS5 client is taken where its own bytes ask for if and only if they do not ask for an IPv6 address with a port of two different bytes. |
| `HttpsAsked.TakenWhereNamed` | src/proxy/detail/server_session_https.cpp:113-165 | An HTTPS client is taken where its own request line names if and only if the host is a standard IPv6 address in brackets, a whole printed IPv4 address, or a name that does not begin like one, and the port is plain digits. |
| `HttpsAsked.TargetAsNamed` | src/common/net/url_parser.cpp:72-149 | The destination read for a target is the one that the target names under the same condition. |
| `SystemBounds.SetupIsBounded` | src/proxyswiss/detail/session.cpp:57-191 | A run that has not reached the relay has at most as many events, whatever portions they move, as the greatest handshakes of the input and of every hop have bytes, and four more; with an HTTPS input, whose header lines nothing bounds, the bytes the client sent take the place of the greatest request. |
| `SystemBounds.EventsAreCounted` | src/proxyswiss/detail/session.cpp:57-191 | Before the relay every event moves a byte on one of the four directions or is one of at most four that do not. |
| `System.HalfCloseLosesNothing` | src/proxyswiss/detail/session.cpp:203-239 | When a socket has been shut down for sending, everything that came from the other side behind the handshakes has been written to it. |
| `System.RouteOnTheWire` | src/proxyswiss/detail/output.cpp:115-141 | In the relay, a parser of section 4 of RFC 1928 finds on the output stream, behind the greeting and credentials for hop i, a CONNECT request for hop i+1, or for the final destination behind the last hop. |
| `System.HonestAnswer` | src/proxyswiss/detail/session.cpp:84-179 | Whatever happens, once a client has received the byte that tells the answer, the connect handler has been called exactly once, its result tells what the chain did, and REP is 0 (the status code begins with 2) if and only if the chain reached the destination. |
| `System.OneUserPerSocket` | src/proxyswiss/detail/session.cpp:68-191 | Outside reading the request and writing the reply the input has no operation on the input socket, and in the relay no client session is left on the output socket, so no handshake can take payload bytes. |
| `System.StuckOnlyWhenOver` | src/proxyswiss/detail/session.cpp:57-267 | Nothing more can happen if and only if the session is closed, or both directions of the relay have stopped, or what the client has sent is an HTTPS request line that names a host which the address scanner never gets past. |
| `System.SuccessIsPossible` | src/proxyswiss/detail/session.cpp:57-267 | Unless that is so, or the relay has closed the sockets, an event without a failure is possible: bytes move, a name is resolved or the connection is made. |
| `System.HungExactly` | src/proxy/detail/server_session_https.cpp:60-80 | In every run the connection hangs if and only if its input is HTTPS and the bytes received are exactly a line of at most 2048 bytes, the method, a target that begins like a URL with a hanging host, and a version. |
| `SystemReach.RelayIsReachable` | src/proxyswiss/detail/session.cpp:57-191 | The relay to a destination can be reached if and only if some bytes ask for it and every hop can be asked for the next one (credentials and names fit into a length byte). |
| `SystemReach.RelayIsReached` | src/proxyswiss/detail/session.cpp:57-191 | From any bytes that are just a request, there is a run to the relay in which the client has sent exactly these bytes; so the results about the relay speak of something. |
| `SystemReach.HangIsReached` | src/proxy/detail/server_session_https.cpp:60-80 | The endless loop is reached from every line that hangs. |
| `System.RunKeepsInv` | src/proxyswiss/detail/session.cpp:57-267 | The invariant that ties session, input, chain, client session of the hop, relay and the four socket logs to each other holds after every run. |
| `System.StepKeepsInv` | src/proxyswiss/detail/session.cpp:57-267 | Every completion, failure or partial transfer, in any order, keeps that invariant. |
| `System.AfterHopKeepsInv` | src/proxyswiss/detail/output.cpp:157-196 | After any move of a hop's client session and the handlers it calls, the next hop is asked, the answer awaited or the reply begun with all logs accounted for. |
| `System.ConcludeKeepsInv` | src/proxyswiss/detail/session.cpp:84-156 | The one result of the chain turns into the one reply. |
| `System.WroteReplyKeepsInv` | src/proxyswiss/detail/session.cpp:158-191 | The relay starts only after the reply was written without error and the chain succeeded; otherwise the session closes. |
| `System.RelayMoves` | src/proxyswiss/detail/session.cpp:193-267 | What a step of the relay moves is what the socket logs gain. |
| `Chain.FarEndIsCurrentHop` | src/proxyswiss/detail/output.cpp:46-196 | For any chain length and in every reachable state after the TCP connect, also when the handler has been called, the far end of the socket is proxy `cur_proxy_` (the final destination if no hop is left), the TCP peer is the first target (its resolved address if it is a name), and exactly the hops before it (and perhaps it) have been asked, in order, each for the next. |
| `Chain.CompletesExactlyOnce` | src/proxyswiss/detail/output.cpp:40-196 | Every run has at most 2n+2 completions; as long as an operation is outstanding the handler has not been called and both outcomes are possible; afterwards it has been called exactly once, with success only after all n hops were asked and with the index of the current hop, or no index exactly if there is no chain, on failure. |
| `Chain.SucceedsIffAllGood` | src/proxyswiss/detail/output.cpp:88-196 | Success is reported if and only if resolving, connecting, every request and every response succeeded. |
| `Chain.RunKeepsInv` | src/proxyswiss/detail/output.cpp:46-196 | The route invariant holds after every run. |
| `Chain.StepKeepsInv` | src/proxyswiss/detail/output.cpp:88-196 | Each callback keeps the route invariant. |
| `Chain.RunIsBounded` | src/proxyswiss/detail/output.cpp:115-196 | The measure 2(n - cur_proxy_) and its like bound the number of completions. |
| `Outputs.Output.ConnectThroughChain` | src/proxyswiss/detail/output.cpp:46-86 | The object starts as the machine does: resolving or connecting to the first proxy, or to the destination without a chain, with the right index bound in. |
| `Outputs.Output.HandleResolve` | src/proxyswiss/detail/output.cpp:88-113 | The callback is the machine's step and keeps the route invariant. |
| `Outputs.Output.HandleConnect` | src/proxyswiss/detail/output.cpp:143-155 | The callback is the machine's step and keeps the route invariant. |
| `Outputs.Output.ConnectNext` | src/proxyswiss/detail/output.cpp:115-141 | Reports the error, or success behind the last hop, or asks the hop for the next target. |
| `Outputs.Output.HandleWriteConnectRequest` | src/proxyswiss/detail/output.cpp:157-170 | The callback is the machine's step and keeps the route invariant. |
| `Outputs.Output.HandleReadConnectResponse` | src/proxyswiss/detail/output.cpp:172-196 | The callback is the machine's step: a response other than success ends with the response and the hop's index. |
| `Outputs.Output.CallAndClearHandler` | src/proxyswiss/detail/output.cpp:40-44 | The handler slot is full before and empty after, and the handler is called once. |
| `Relay.RelayDelivers` | src/proxyswiss/detail/session.cpp:193-267 | In every interleaving each direction delivers in order a prefix of what it consumed, lacks at most 4096 bytes, has shut down the other socket only when nothing is lacking, and lacks something only while a write is pending or the sockets are closed. |
| `Relay.ClosedRelayQuiets` | src/proxyswiss/detail/session.cpp:63-66 | After `close_all` each direction begins at most one more operation, the number of further completions is bounded, and nothing more can happen if and only if nothing is outstanding. |
| `Relay.RunKeepsInv` | src/proxyswiss/detail/session.cpp:193-267 | consumed = delivered + the unwritten part of the buffer, in every reachable state. |
| `Relay.StepKeepsInv` | src/proxyswiss/detail/session.cpp:203-267 | Every completion keeps the relay invariant. |
| `Sessions.HonestReply` | src/proxyswiss/detail/session.cpp:84-151 | The client is told of success if and only if the chain succeeded. |
| `Sessions.Session.HandleReadConnectRequest` | src/proxyswiss/detail/session.cpp:68-82 | Closes both sockets on an error, otherwise goes on with the destination. |
| `Sessions.Session.HandleConnectOutput` | src/proxyswiss/detail/session.cpp:84-156 | The reply to be written is the one for the result. |
| `Sessions.Session.HandleWriteConnectResponse` | src/proxyswiss/detail/session.cpp:158-179 | Starts the relay exactly if the reply was written and the chain succeeded; closes both sockets otherwise. |
| `Sessions.Session.MakeTunnel` | src/proxyswiss/detail/session.cpp:181-191 | Two distinct 4096-byte buffers, a read outstanding on each socket, nothing consumed or delivered. |
| `Sessions.Session.InputReadOk` | src/proxyswiss/detail/session.cpp:203-206 | The bytes are in the input buffer and a write of exactly them is outstanding; the other direction is untouched. |
| `Sessions.Session.OutputReadOk` | src/proxyswiss/detail/session.cpp:222-225 | The same from the output socket. |
| `Sessions.Session.InputReadError` | src/proxyswiss/detail/session.cpp:207-219 | At end of stream only the output socket is shut down for sending; on any other error both sockets are closed. |
| `Sessions.Session.OutputReadError` | src/proxyswiss/detail/session.cpp:226-238 | The same from the output socket. |
| `Sessions.Session.OutputWriteSome` | src/proxyswiss/detail/session.cpp:247-267 | The bytes that leave are those read into the buffer, which has not changed since; after the last of them the next read begins. |
| `Sessions.Session.InputWriteSome` | src/proxyswiss/detail/session.cpp:241-259 | The same towards the client. |
| `Sessions.Session.OutputWriteError` | src/proxyswiss/detail/session.cpp:261-265 | Both sockets are closed; the unwritten part of the buffer is lost. |
| `Sessions.Session.InputWriteError` | src/proxyswiss/detail/session.cpp:253-257 | The same towards the client. |
| `Input.RequestIsRead` | src/proxyswiss/detail/input.cpp:25-39 | For each kind of input, the destination handed over is the one that the consumed bytes ask for, and nothing behind the request has been consumed. |
| `Input.RequestStable` | src/proxyswiss/detail/input.cpp:25-39 | What follows a request does not change what the request and its reply are. |
| `Input.ReplyIsWritten` | src/proxyswiss/detail/input.cpp:41-55 | When the response handler is called without an error, everything the input has to say has been written. |
| `Input.AnswerIsTold` | src/proxyswiss/detail/input.cpp:41-55 | The reply code, or the status code, on the stream is that of the response. |
| `Input.HungExactly` | src/proxy/detail/server_session_https.cpp:60-80 | An input hangs if and only if it is HTTPS and the bytes it has taken are a hanging line. |
| `Input.ReadIsDecided` | src/proxyswiss/detail/input.cpp:25-39 | When an input with no failure reads no more, its phase is what the one-shot parser says of any stream that begins with the bytes taken: the request, an error, or the endless loop. |
| `Input.AdvanceKeepsInv` | src/proxyswiss/detail/input.cpp:25-55 | Each kind of input keeps its invariant under every transfer. |
| `Socks5Product.ClientAndServerAgree` | src/proxy/detail/client_session_socks5.cpp:64-276 | Client (without credentials) and server connected to each other, in every interleaving and portioning: the run is bounded, never stuck before both are finished, and then the server has the client's destination (with the port of an IPv6 address swapped), the client the major code for the reply code, and each side has received exactly what the other sent. |
| `Socks5Product.StepKeepsInv` | src/proxy/detail/server_session_socks5.cpp:40-305 | Every transfer keeps both sides on their scripts. |
| `Socks5Product.SomebodyCanMove` | src/proxy/detail/server_session_socks5.cpp:40-341 | No deadlock: unless both sides are finished, one of them can transfer a byte. |
| `Socks5Product.MajorArrives` | src/proxy/detail/server_session_socks5.cpp:343-354 | The client learns the meant result exactly for success, connection refused and unknown error; host unreachable arrives as connection refused, a bad address type as unknown error. |
| `Socks5Product.DestinationArrives` | src/proxy/detail/server_session_socks5.cpp:281-305 | The destination arrives unchanged exactly if it is not an IPv6 address with a port of two different bytes; port 443 arrives as 47873. |
| `Socks5Product.CredentialsAreTurnedAway` | src/proxy/detail/server_session_socks5.cpp:98-108 | A client that has credentials offers only their method and is refused. |
| `Socks5Server.StagedReaderRefinesParser` | src/proxy/detail/server_session_socks5.cpp:40-305 | For every stream and every portioning the staged reads end exactly when the one-shot parser of sections 3 and 4 of RFC 1928 has an answer, with the same value or error (the IPv6 port aside), having taken exactly the frame. |
| `Socks5Server.AdvanceKeepsInv` | src/proxy/detail/server_session_socks5.cpp:40-341 | After every partial or complete transfer the state is told by the bytes taken, and what has been said is what the state says. |
| `Socks5Server.BreakKeepsInv` | src/proxy/detail/server_session_socks5.cpp:49-305 | A failed operation is reported, and nothing but a part of the due bytes has been written. |
| `Socks5Server.DoneKeepsAt` | src/proxy/detail/server_session_socks5.cpp:49-305 | Each read handler continues the parse of the bytes taken so far. |
| `Socks5ServerSessions.ServerSession.ReadConnectRequest` | src/proxy/detail/server_session_socks5.cpp:27-38 | The first read is outstanding and the slot is filled. |
| `Socks5ServerSessions.ServerSession.AuthReadReqHandler` | src/proxy/detail/server_session_socks5.cpp:49-84 | Checks version and number of methods, then reads that many methods into a fresh buffer. |
| `Socks5ServerSessions.ServerSession.AuthReadReqMethodsHandler` | src/proxy/detail/server_session_socks5.cpp:86-122 | Goes on if and only if method 0 is among the methods. |
| `Socks5ServerSessions.ServerSession.Contains` | src/proxy/detail/server_session_socks5.cpp:101-102 | Found if and only if the byte is in the buffer. |
| `Socks5ServerSessions.ServerSession.ConnReadReqHandler` | src/proxy/detail/server_session_socks5.cpp:144-179 | Version, command and address type are checked as the machine does. |
| `Socks5ServerSessions.ServerSession.StoreIpv4` | src/proxy/detail/server_session_socks5.cpp:199-204 | Loading and swapping the 32-bit and 16-bit words stores the address and port that the bytes have in network order. |
| `Socks5ServerSessions.ServerSession.StoreName` | src/proxy/detail/server_session_socks5.cpp:256-262 | The name is the bytes behind the length byte, and the port is in network order. |
| `Socks5ServerSessions.ServerSession.AddrIpv6Handler` | src/proxy/detail/server_session_socks5.cpp:281-305 | The 16 bytes are stored in order; the port is loaded without a swap. |
| `Socks5ServerSessions.ServerSession.FrameReply` | src/proxy/detail/server_session_socks5.cpp:315-324 | The buffer holds the ten bytes of a reply with this code. |
| `Socks5ServerSessions.ServerSession.WriteConnectResponse` | src/proxy/detail/server_session_socks5.cpp:309-330 | The reply for the major code is being written. |
| `Socks5ServerSessions.ServerSession.Receive` | src/proxy/detail/server_session_socks5.cpp:181-279 | Bytes in any portions go to the right place of the right buffer, never outside the 270 bytes, and after the last one the handler does what the machine does. |
| `Socks5ServerSessions.ServerSession.Transmit` | src/proxy/detail/server_session_socks5.cpp:114-122 | Bytes leave in order, and after the last one the handler does what the machine does. |
| `Socks5ServerSessions.ServerSession.FailOp` | src/proxy/detail/server_session_socks5.cpp:49-56 | The handler of a failed operation calls the user's handler once, with the error. |
| `Socks5ServerSessions.ServerSession.CallReadHandler` | src/proxy/detail/server_session_socks5.cpp:358-366 | The slot is full before and empty after, and the handler is called once. |
| `Socks5Client.StagedReaderRefinesParser` | src/proxy/detail/client_session_socks5.cpp:64-470 | For every portioning the session ends exactly when the one-shot parser of the answers has a result, with that result, having taken exactly the answers and said exactly its script, or a prefix of it if it was turned away. |
| `Socks5Client.AdvanceKeepsInv` | src/proxy/detail/client_session_socks5.cpp:82-470 | After every partial or complete transfer the state is told by the answers taken, and what has been said is what the state says. |
| `Socks5Client.BreakKeepsInv` | src/proxy/detail/client_session_socks5.cpp:82-470 | A failed operation is reported, and only a prefix of the script has been written. |
| `Socks5Client.DoneKeepsAt` | src/proxy/detail/client_session_socks5.cpp:107-470 | Each read handler continues the parse of the answers taken so far. |
| `Socks5ClientSessions.ClientSession.WriteConnectRequest` | src/proxy/detail/client_session_socks5.cpp:44-62 | Values longer than 255 bytes are reported at once and nothing is sent; otherwise the greeting is being written. |
| `Socks5ClientSessions.ClientSession.FrameGreeting` | src/proxy/detail/client_session_socks5.cpp:64-75 | The writer has produced exactly the greeting with the method for the credentials. |
| `Socks5ClientSessions.ClientSession.FrameCreds` | src/proxy/detail/client_session_socks5.cpp:155-165 | The writer has produced exactly the frame of the credentials. |
| `Socks5ClientSessions.ClientSession.FrameRequest` | src/proxy/detail/client_session_socks5.cpp:223-253 | The writer, with its swaps, has produced exactly the CONNECT frame in network order. |
| `Socks5ClientSessions.ClientSession.AuthReadRespHandler` | src/proxy/detail/client_session_socks5.cpp:107-153 | Checks the selected method, then writes the credentials or the request. |
| `Socks5ClientSessions.ClientSession.AuthReadCredsReplyHandler` | src/proxy/detail/client_session_socks5.cpp:196-221 | Checks the status, then writes the request. |
| `Socks5ClientSessions.ClientSession.ConnReadRespHandler` | src/proxy/detail/client_session_socks5.cpp:301-350 | Checks version, reply code and address type. |
| `Socks5ClientSessions.ClientSession.ConnReadRespAddrComplete` | src/proxy/detail/client_session_socks5.cpp:352-381 | The response stored is the one for the reply code, and the handler is called once. |
| `Socks5ClientSessions.ClientSession.ReadConnectResponse` | src/proxy/detail/client_session_socks5.cpp:280-299 | The header of the reply is being read. |
| `Socks5ClientSessions.ClientSession.Receive` | src/proxy/detail/client_session_socks5.cpp:383-458 | Bytes in any portions go to the right place of the right buffer, never outside the 270 bytes, and after the last one the handler does what the machine does. |
| `Socks5ClientSessions.ClientSession.Transmit` | src/proxy/detail/client_session_socks5.cpp:77-97 | Bytes leave in order, and after the last one the handler does what the machine does. |
| `Socks5ClientSessions.ClientSession.FailOp` | src/proxy/detail/client_session_socks5.cpp:82-92 | The handler of a failed operation calls the user's handler once, with the error. |
| `Socks5ClientSessions.ClientSession.CallWriteHandler` | src/proxy/detail/client_session_socks5.cpp:34-42 | The slot is full before and empty after, and the handler is called once. |
| `Rfc1928.ConnectRoundTrip` | src/proxy/detail/client_session_socks5.cpp:223-253 | Parsing the CONNECT frame of a destination, whatever follows it, gives the destination back and the length of the frame. |
| `Rfc1928.ConnectSound` | src/proxy/detail/server_session_socks5.cpp:144-305 | A parsed request is the frame of its result (reserved byte aside) if and only if it does not give an empty name; an empty name is accepted as the unset address. |
| `Rfc1928.ConnectPrefixFree` | src/proxy/detail/client_session_socks5.cpp:223-253 | If one CONNECT frame is a prefix of another, they are equal and lead to the same target. |
| `Rfc1928.CredsRoundTrip` | src/proxy/detail/client_session_socks5.cpp:155-165 | Parsing the frame of credentials, whatever follows it, gives them back. |
| `Rfc1928.CredsPrefixFree` | src/proxy/detail/client_session_socks5.cpp:155-165 | If one frame of credentials is a prefix of another, the credentials are equal. |
| `Rfc1928.CredsFrameHasWrongVersion` | src/proxy/detail/client_session_socks5.cpp:159 | The frame never is that of section 2 of RFC 1929, and differs from it in the version byte only. |
| `Rfc1928.StandardCredsReplyRefused` | src/proxy/detail/client_session_socks5.cpp:207-217 | An answer to the credentials is accepted exactly with version 5 and status 0; one of the version of RFC 1929 is always refused. |
| `Rfc1928.ReplyRoundTrip` | src/proxy/detail/server_session_socks5.cpp:315-324 | The reply is read back as its code and its ten bytes, whatever follows. |
| `Rfc1928.ParseRequestStable` | src/proxy/detail/server_session_socks5.cpp:40-305 | Later bytes do not change a finished parse. |
| `HttpsServer.AcceptedExactly` | src/proxy/detail/server_session_https.cpp:44-198 | A stream is accepted if and only if it begins with a valid CONNECT line, any number of non-empty lines and an empty line, each of at most 2048 bytes with its only LF at the end; exactly those bytes are consumed. |
| `HttpsServer.HungExactly` | src/proxy/detail/server_session_https.cpp:60-80 | The reader hangs on a stream, with n bytes taken, if and only if the first n bytes are a line whose target has a hanging host. |
| `HttpsServer.HangingRequest` | src/proxy/detail/server_session_https.cpp:60-80 | The line CONNECT http://u@[::1%1]junk HTTP/1.0 hangs, whatever follows it, although its scheme, its credentials and what stands behind the bracket would all be refused. |
| `HttpsServer.StagedReaderRefinesParser` | src/proxy/detail/server_session_https.cpp:60-111 | The byte-by-byte reader stops exactly when the one-shot parser has an answer, with that answer. |
| `HttpsServer.HeadersAsMeant` | src/proxy/detail/server_session_https.cpp:95-104 | Reading headers gives the same as with the outcome of `verify_header_line` looked at, if and only if no header line fails to verify. |
| `HttpsServer.BadHeaderAccepted` | src/proxy/detail/server_session_https.cpp:96-100 | Any accepted request stays accepted with a header line added that does not verify. |
| `HttpsServer.HonestStatus` | src/proxy/detail/server_session_https.cpp:202-237 | The status code begins with 2 for success and with 5 for everything else. |
| `HttpsServer.AdvanceKeepsInv` | src/proxy/detail/server_session_https.cpp:60-111 | After every byte the state is told by the bytes taken. |
| `HttpsServer.ParseStable` | src/proxy/detail/server_session_https.cpp:60-111 | Later bytes do not change a finished parse. |
| `HttpsServer.ReplyEndsAtEmptyLine` | src/proxy/detail/server_session_https.cpp:202-224 | A reader of lines up to an empty one takes exactly the reply off the stream, whatever follows, so the payload begins right behind it. |
| `RequestLine.FirstLineExact` | src/proxy/detail/server_session_https.cpp:113-165 | A request line is accepted if and only if it is the method, a space, a target without spaces, a space and one of the two versions, where the target is the text of a readable host and port; a path behind them is ignored. |
| `RequestLine.EndlessExactly` | src/proxy/detail/server_session_https.cpp:113-165 | Parsing a request line never returns if and only if it is the method, a space, a target without spaces, a space and a version, and the target is a URL that hangs. |
| `RequestLine.ThreeParts` | src/proxy/detail/server_session_https.cpp:117-118 | Three parts without spaces, joined by spaces, split into just these. |
| `HttpsSessions.ReadRequestLine` | src/proxy/detail/server_session_https.cpp:113-165 | The checks on the split line and the parsed URL come to the reading of the line. |
| `HttpsSessions.VerifyHeaderLine` | src/proxy/detail/server_session_https.cpp:167-179 | No error if and only if there are exactly two non-empty parts around ": ". |
| `HttpsSessions.TrimLine` | src/proxy/detail/server_session_https.cpp:181-198 | Removes LF or CR LF in place, and nothing from a line that does not end with LF. |
| `HttpsSessions.HttpsSession.ReadLine` | src/proxy/detail/server_session_https.cpp:44-48 | A fresh read of at most 2048 bytes up to LF is outstanding. |
| `HttpsSessions.HttpsSession.HandleReadFirstLine` | src/proxy/detail/server_session_https.cpp:60-80 | The handler does what the machine does with the line. |
| `HttpsSessions.HttpsSession.HandleReadAnotherLine` | src/proxy/detail/server_session_https.cpp:82-111 | The handler does what the machine does with the line; the outcome of verifying is not used. |
| `HttpsSessions.HttpsSession.Receive` | src/proxy/detail/server_session_https.cpp:44-58 | A byte arriving for the current line does what the machine does. |
| `HttpsSessions.HttpsSession.WriteConnectResponse` | src/proxy/detail/server_session_https.cpp:202-224 | The reply text for the version of the request is being written. |
| `HttpsSessions.HttpsSession.Transmit` | src/proxy/detail/server_session_https.cpp:217-223 | Bytes of the reply leave in order, and the handler is called once after the last. |
| `HttpsSessions.HttpsSession.FailOp` | src/proxy/detail/server_session_https.cpp:60-64 | A failed operation calls the user's handler once, with the error. |
| `ReadUntil.ReadUntilOp.HandleRead` | src/proxy/detail/read_until.cpp:35-74 | The handler is called, once, exactly when the bytes read are the shortest prefix of the stream that ends with the delimiter or has the maximal length, and the buffer is then that prefix; otherwise one more byte is asked for. |
| `ReadUntil.ReadUntilOp.Start` | src/proxy/detail/read_until.cpp:29-32 | The same for the empty prefix. |
| `ReadUntil.Snoc` | src/proxy/detail/read_until.cpp:35-65 | Reading one byte on from an open text, the stopping place is the new end or still to come. |
| `ReadUntil.UntilIs` | src/proxy/detail/read_until.cpp:35-53 | The shortest stopping prefix is determined by the prefixes. |
| `Ipv6Scanner.ScannerMeaning` | src/common/net/inet_pton.cpp:36-151 | Whole runs of the five-state loop come to the meaning of the text said as fields between colons: words before the gap, zeros, words after it, or rejection, or an endless loop. |
| `Ipv6Scanner.LoopEndsUnlessScoped` | src/common/net/inet_pton.cpp:44-144 | The loop never ends if and only if a fine address is followed by '%' and only decimal digits worth at most 0xFFFF. |
| `Ipv6Scanner.StepProgress` | src/common/net/inet_pton.cpp:46-144 | An iteration is a fixed point exactly at the end of a scope; any other reads a character, lowers the rank of the state, or fails. |
| `Ipv6Scanner.Step` | src/common/net/inet_pton.cpp:46-144 | Front and back never hold more than eight words together, and the current word never exceeds 0xFFFFF. |
| `Ipv6Scanner.InetPton6` | src/common/net/inet_pton.cpp:36-151 | The loop over its two byte arrays returns 1, returns -1 or never returns as the meaning says, and on 1 the destination holds the denoted words. |
| `Ipv6Scanner.FinishAddress` | src/common/net/inet_pton.cpp:146-147 | The final copy never overlaps the front words, and gives front, zeros and back. |
| `Ipv6Scanner.FrontFieldsAre` | src/common/net/inet_pton.cpp:56-94 | Reading fields from the front with the switch to the back gives the words parted at the first gap. |
| `Rfc4291.StandardIsAccepted` | src/common/net/inet_pton.cpp:36-151 | Of the texts that section 2.2 of RFC 4291 allows, those in forms 1 and 2 (hexadecimal groups, or groups around one gap) are accepted for the words they stand for, and every one in form 3 (an IPv4 address in the last place, ::ffff:129.144.52.38) is refused. |
| `Rfc4291.DottedIsRefused` | src/common/net/inet_pton.cpp:56-93 | No text with a dot in it is accepted, and none hangs. |
| `Rfc4291.AgreeExactly` | src/common/net/inet_pton.cpp:36-151 | Scanner and standard agree on a text, which is an address and for which words, if and only if it is not in form 3 and is not accepted with one of four liberties: fields of more than four digits, empty fields for 0, fewer than eight words without a gap, a gap for no word. |
| `Rfc4291.StandardTextIs` | src/common/net/inet_pton.cpp:36-151 | The standard texts are exactly those in form 3 and those accepted without any of the four liberties. |
| `Rfc4291.PrintedIsStandard` | src/common/net/inet_ntop.cpp:28-47 | What is printed is a text in form 1 or 2, for the words printed. |
| `Ipv6Printer.RoundTrip` | src/common/net/inet_ntop.cpp:28-47 | Scanning the printed text of any sixteen bytes gives them back. |
| `Ipv6Printer.PrintLength` | src/common/net/inet_ntop.cpp:30-44 | Printed IPv6 text has at most 39 characters. |
| `Ipv6Printer.PrintedWithScopeSpins` | src/common/net/inet_pton.cpp:129-139 | Any printed address followed by '%' and a 16-bit number starts the endless loop. |
| `Ipv6Printer.InetNtop6` | src/common/net/inet_ntop.cpp:28-47 | The loop leaves exactly the printed text and its terminator in the buffer, and is aborted exactly if they do not fit. |
| `Ipv6Printer.NextPiece` | src/common/net/inet_ntop.cpp:33-43 | One turn prints a piece of the text and goes on at the right byte. |
| `Ipv4Text.ParseExact` | src/common/net/inet_pton.cpp:16-35 | A text is read as the quad q if and only if its part before the first NUL is four fields joined by dots and a tail that does not begin with a digit, where a field is any space, at most one sign and at least one digit, and the fields convert to the numbers of q. |
| `Ipv4Text.AcceptedExactly` | src/common/net/inet_pton.cpp:16-35 | A text is taken for an IPv4 address if and only if it begins with such fields, worth at most 255 each. |
| `Ipv4Text.AcceptedIsPrinted` | src/common/net/inet_pton.cpp:16-35 | An accepted text is the printed text of its quad if and only if nothing follows the fields and each of them is a plain number. |
| `Ipv4Text.RoundTrip` | src/common/net/inet_pton.cpp:16-35 | A printed quad followed by a text is read as that quad if and only if the text does not begin with a digit, or the last number is 0 and the digits the text begins with are zeros. |
| `Ipv4Text.ParsedHasDot` | src/common/net/inet_pton.cpp:19-23 | Text without a dot is never taken for an IPv4 address. |
| `IpAddresses.RoundTrip` | src/common/net/ip_address.cpp:94-164 | Every address printed and read through the IPv4-first dispatcher comes back. |
| `IpAddresses.Ipv6TextIsNotIpv4` | src/common/net/ip_address.cpp:131-136 | No printed IPv6 text is taken by the IPv4 branch. |
| `IpAddresses.TextInjective` | src/common/net/ip_address.cpp:94-106 | Distinct addresses have distinct text. |
| `IpAddresses.IpAddress.ToString` | src/common/net/ip_address.cpp:98-106 | The 128-character buffer always suffices, and the text is the printed address. |
| `IpAddresses.IpAddress.FromString` | src/common/net/ip_address.cpp:131-136 | Accepts, rejects or never returns as reading does; the object changes only on acceptance. |
| `IpAddresses.IpAddress.FromStringIpv4` | src/common/net/ip_address.cpp:138-148 | The same for IPv4 text. |
| `IpAddresses.IpAddress.FromStringIpv6` | src/common/net/ip_address.cpp:150-164 | The same for IPv6 text; the empty text is rejected. |
| `IpAddresses.IpAddress.Equals` | src/common/net/ip_address.cpp:178-191 | Equal if and only if the same address; bytes of the union behind an IPv4 address do not count. |
| `IpAddresses.IpAddress.SetIpv4` | src/common/net/ip_address.cpp:55-58 | The address is the given one. |
| `IpAddresses.IpAddress.SetIpv6` | src/common/net/ip_address.cpp:64-67 | The address is the given one. |
| `UrlParsing.UrlRoundTrip` | src/common/net/url_parser.cpp:33-156 | Printing a URL and parsing the text gives it back if and only if no delimiter in it can be mistaken and its host name is not empty and does not begin with the four fields of an IPv4 address. |
| `UrlParsing.BareHostExact` | src/common/net/url_parser.cpp:97-122 | A host without brackets is read as an IPv4 address if and only if it begins with four fields joined by dots, and as a name if and only if it does not and is not empty. |
| `UrlParsing.QuadWithTail` | src/common/net/url_parser.cpp:97-122 | A printed IPv4 address with text behind it that begins with no digit is read as that address: 1.2.3.4.example.com as 1.2.3.4. |
| `UrlParsing.HangsExactly` | src/common/net/url_parser.cpp:33-96 | Parsing a URL never returns if and only if, behind an unmistakable scheme and unmistakable credentials if there are any, it has a host in brackets that is an address with a scope of decimal digits, or none, worth at most 0xFFFF; whatever stands behind the bracket. |
| `UrlParsing.ParseExact` | src/common/net/url_parser.cpp:33-156 | A URL is accepted as u if and only if it is the text of unmistakable components whose host and port read as those of u; nothing of it is lost. |
| `UrlGrammar.CutExact` | src/common/net/url_parser.cpp:33-156 | Cutting at the delimiters and joining are inverse to each other. |
| `UrlGrammar.SchemeMark` | src/common/net/url_parser.cpp:33-46 | No occurrence of "://" straddles the end of a scheme. |
| `UrlParsing.UrlParser.Parse` | src/common/net/url_parser.cpp:21-190 | With no index out of range, the cursor-based parser comes to the parse of the whole text, and changes its members only on success. |
| `UrlParsing.UrlParser.ParseScheme` | src/common/net/url_parser.cpp:33-46 | The scheme and the cursor behind it. |
| `UrlParsing.UrlParser.ParseUser` | src/common/net/url_parser.cpp:47-70 | The credentials and the cursor behind them. |
| `UrlParsing.UrlParser.ParseBracketed` | src/common/net/url_parser.cpp:72-96 | An IPv6 host and the cursor behind the bracket. |
| `UrlParsing.UrlParser.ParseBare` | src/common/net/url_parser.cpp:97-122 | An IPv4 address or name and the cursor behind it. |
| `UrlParsing.UrlParser.ParsePort` | src/common/net/url_parser.cpp:124-149 | The optional port and the cursor at the path. |
| `UrlParsing.FindRest` | src/common/net/url_parser.cpp:49-107 | Searching from a cursor is searching in the rest of the text. |
| `Numerals.StrToUintExact` | src/common/base/str.h:90-99 | A text is converted to v if and only if it is a field (space, a sign, digits) worth v, or is empty and v is 0. |
| `Numerals.StrToUintReadsNumeral` | src/common/base/str.h:90-99 | A printed number is read back. |
| `Numerals.UnsignedReadsNumeral` | src/common/net/inet_pton.cpp:19 | A printed number is read back where it stands, provided no digit follows. |
| `Splitting.SplitExact` | src/common/base/str.cpp:88-113 | Parts are the split of a text if and only if they join to it and each ends at the first place the delimiter can be found. |
| `Splitting.PartsAvoidDelimiter` | src/common/base/str.cpp:88-113 | No part contains the delimiter. |
| `Splitting.SplitCount` | src/common/base/str.cpp:88-113 | Splitting at a character gives one part more than it occurs, so three parts exactly for two spaces. |
| `Splitting.StrSplit` | src/common/base/str.cpp:88-113 | The loop ends, and its parts are the split of the text. |
| `Splitting.BinScan` | src/common/base/bin_scan.cpp:8-22 | Finds the first occurrence of the pattern, or that there is none. |
| `BinWriting.BinWriter.WriteRaw` | src/common/base/bin_writer.cpp:33-44 | All of the bytes or none are appended, exactly if they fit, and memory behind them is untouched. |
| `BinWriting.BinWriter.WriteUint16` | src/common/base/bin_writer.h:19-22 | The bytes as they lie in memory are appended, or nothing. |
| `BinWriting.BinWriter.WriteUint32` | src/common/base/bin_writer.h:19-22 | The bytes as they lie in memory are appended, or nothing. |
| `BinWriting.BinWriter.WriteUint8` | src/common/base/bin_writer.h:19-22 | The byte is appended, or nothing. |
| `BinWriting.BinWriter.WriteByteArray16` | src/common/base/bin_writer.h:70-80 | Length and bytes are appended together, or nothing at all. |
| `BinWriting.BinWriter.WriteByteArray` | src/common/base/bin_writer.cpp:46-49 | Length and bytes are appended together, or nothing at all. |
| `Bytes.SwappedInMemory16` | src/proxy/detail/client_session_socks5.cpp:253 | A swapped 16-bit number lies in memory in network order. |
| `Bytes.SwappedInMemory32` | src/proxy/detail/client_session_socks5.cpp:241-242 | The swapped value of four octets lies in memory as these octets. |
| `Bytes.LoadedAndSwapped` | src/proxy/detail/server_session_socks5.cpp:199-204 | Loading and swapping reads network order. |
| `UidTable.LiveHandlesDistinct` | src/proxyswiss/detail/debug_uid_table.h:36-50 | Over any history, the living handles are distinct at all times if and only if there are never more than 2^32 of them; the last of these holds the exhausted id. |
| `UidTable.TableIsTheLiving` | src/proxyswiss/detail/debug_uid_table.h:36-50 | Over any history, the table is exactly the ids of the living handles at all times if and only if there are never more than 2^32 - 1 of them. |
| `UidTable.RunKeepsInv` | src/proxyswiss/detail/debug_uid_table.h:36-50 | Over every history the table has no duplicates and holds exactly the proper ids of the living handles. |
| `UidTable.AllocIsSmall` | src/proxyswiss/detail/debug_uid_table.h:36-44 | The id given out is the least unused one and at most the number of ids in use. |
| `UidTable.Pigeonhole` | src/proxyswiss/detail/debug_uid_table.h:36-44 | A table that holds all ids below n has at least n entries. |
| `UidTable.FreeExhausted` | src/proxyswiss/detail/debug_uid_table.h:45-50 | Freeing the exhausted handle changes nothing, in every history. |
| `UidTable.Core.AllocId` | src/proxyswiss/detail/debug_uid_table.h:36-44 | The nested search finds the least unused id and appends it; a full table is unchanged. |
| `UidTable.Core.FreeId` | src/proxyswiss/detail/debug_uid_table.h:45-50 | The first entry equal to the id, if any, is erased. |

## Left out

- Assertions are taken as in a release build, where they do nothing. In a debug build the one at src/proxy/destination_from_url_parser.cpp:34 fails for every IPv6 host, and the one at src/proxy/detail/server_session_socks5.cpp:264 for an empty name.
- boost asio itself: a composed read or write is a sequence of transfers of arbitrary portions, each operation ends at most once, and an operation begun on closed sockets can only fail. Connecting and resolving end with an arbitrary result; the first endpoint of a resolution is a parameter.
- The acceptor loop, object lifetimes through `shared_from_this`, console output, the log file with its history set, and the texts of errors.
- The command line and `print_config`; configuration is a parameter.
- `sscanf_s` and `strtoul` are given by a small specification (space, sign, decimal digits, saturation at 2^32 - 1 whatever the sign, otherwise negation modulo 2^32).
- Wide characters: text is a sequence of 8-bit characters on which conversions do nothing; the `wchar_t` instance of splitting, which passes character counts to a byte scanner, is not modelled.
- The scope number of `inet_ntop`, which no caller passes, and its wide instance.
- `ip_address::is_local`, `to_sockaddr`, `from_sockaddr`, and `host_address::from_string`.
- Memory of size_t(-1) bytes or more: the position in `bin_writer` does not wrap.
- Sessions.Session.CloseAll: the failure of the operations that are outstanding when the sockets are closed is an event of the relay machine, not of this method.
- Relay.ClosedRelayQuiets: lets an operation outstanding at the time of closing still succeed, or go on in portions, which is more than the sockets do.
- System.RunKeepsInv: the parts are composed as machines; the classes are tied to them method by method, not composed with each other.
