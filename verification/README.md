# A Dafny model of a minimal WebSocket handshake client and connection-routing server

The repository is a teaching example with two halves:

- `client.js` opens a raw TCP connection. It upgrades the connection to a WebSocket by hand, following the opening handshake of RFC 6455 (section 4.1):
  - it writes an HTTP upgrade request with a random `Sec-WebSocket-Key`;
  - it reads the server's first reply;
  - it extracts the `Sec-WebSocket-Accept` header;
  - it checks that header against the SHA-1/base64 digest of the key and the RFC's GUID.
- `wsserver.js` wraps the `ws` library's server in a `WebSocketServer` event emitter. The emitter keeps a registry `connections` from peer address to live socket. It routes `sendMessage` and `closeConnection` calls through that registry, and it reports everything as `debug`, `error`, `open`, `connection`, `message` and `close` events.

The model has five modules:

- `Wrappers` (`wrappers.dfy`): `Option`, `Result` and `Outcome`.
- `HeaderText` (`header_text.dfy`): the meaning of the header regex `^Sec-WebSocket-Accept: (.+)$` with flags `gmi`.
  - `RegexExec` is the regex semantics, written by position over the text. It has multiline anchors at the four ECMAScript line terminators (LF, CR, U+2028, U+2029), a `.` that stops at them, a non-empty greedy capture, and ASCII case folding.
  - `FirstHeader` is an independent line-by-line reference.
  - `RegexAgreesWithLines` proves the two equal.
- `Handshake` (`handshake.dfy`): the client's pure helpers:
  - the request template;
  - `getWSAccept`;
  - the expected accept token;
  - `validateDigest`, both as written and as intended.
- `ClientUpgrade` (`client_upgrade.dfy`): `upgradeSocket`, modelled as a one-shot state machine over the ordered `data` events of the socket. It records an action trace: listen, write, then resolve or throw.
- `WsServer` (`ws_server.dfy`): the server as a value.
  - Every handler returns the next server. Handlers append to an event trace (what the server emits) and an action trace (`ws.send` and `ws.close` calls).
  - `Step` and `Run` drive the server with arbitrary inputs. `Consistent` ties the registry to the trace: the registered addresses are exactly those opened and not closed since.

Library calls are parameters of the model:

- SHA-1 and base64 are the function values of a `Crypto`.
- `Url.parse(url).hostname` is an `Option<string>`.
- `JSON.stringify` is a function from message objects to text.
- The outcome of `ws`'s `handleUpgrade` is an input: called back with a socket, threw, or declined.

Three behaviours are modelled as the code has them:

- **Failed handshakes.** Section 4.1 of RFC 6455 requires a client to fail the connection when the `Sec-WebSocket-Accept` value is missing or wrong. The comments at client.js:14 and client.js:75 say the digest verifies the server's reply, and the `.catch` at client.js:50-52 expects a failed upgrade to reject the promise. The code never calls `reject`:
  - an error thrown by `validateDigest` escapes the `data` listener, so the promise stays pending (`Phase.Thrown` in the model). The throw surfaces from the socket's `data` emission as an uncaught exception, which ends the Node process when no `uncaughtException` handler is installed, so the `.catch` at client.js:50-52 never runs. With the check as written, this happens on every reply without the accept header;
  - the digest comparison as written never fails at all (see Findings).
- **Empty forwarded header.** The code picks the peer address with `||`, so a present but empty `x-forwarded-for` header falls back to the socket's remote address (`WsServer.PeerAddress`).
- **Close order.** The registry holds one connection per address, and a later upgrade from the same address overwrites the earlier entry. The earlier socket's `close` handler still deletes whatever is registered under the address it captured, so it removes the later entry (`WsServer.StaleCloseRemovesSuccessor`).

## Model

| member | source | states |
|---|---|---|
| HeaderText.RegexExec | client.js:84-85 | `exec` finds no match exactly when no position is a line start followed by the prefix (ASCII case-insensitively) and one more non-terminator character; a match yields a non-empty value with no line terminator |
| HeaderText.RegexExecIsLeftmost | client.js:84-85 | the value returned is captured at the leftmost matching position: no earlier position matches |
| HeaderText.Lines | client.js:84 | splitting at the four ECMAScript line terminators yields at least one line and lines free of terminators |
| HeaderText.LinesOfUnlines | client.js:94-102 | joining terminator-free lines with LF and splitting the result again gives the same lines back |
| HeaderText.LeftmostMatchIsFirstHeaderLine | client.js:84-86 | the leftmost regex match is the first line that starts with the prefix and has a non-empty rest, and the capture is that rest |
| HeaderText.RegexAgreesWithLines | client.js:84-86 | for a printable-ASCII prefix, the multiline regex search and the line-by-line search return the same value on every text |
| Handshake.AssembleHandshake | client.js:91-103 | the request is its lines joined with LF: the fixed `GET / HTTP/1.1`, Host, Upgrade, Connection, Origin, Key, Version `13`, then two empty lines (the blank line, and the empty remainder after the final LF); splitting returns exactly these lines when no substituted value contains a line break. Partners: `RequestHeadersRoundTrip` reads each value back; `HeaderText.LinesOfUnlines` is the split-join round trip |
| Handshake.RequestHeadersRoundTrip | client.js:93-102 | reading the request back gives the parsed hostname (or `null`), the URL, the key and version `13` under their header names |
| Handshake.GetWSAccept | client.js:83-88 | returns the value of the first response line carrying the accept header with a non-empty value; throws the missing-header error exactly when no line does |
| Handshake.AcceptAfterStatusLine | client.js:83-88 | after a status line ending in CRLF, the next line's token is extracted exactly, without the CR |
| Handshake.EmptyAcceptLineIsSkipped | client.js:84 | a header line with nothing after `Sec-WebSocket-Accept: ` is not a match; extraction continues with the following lines |
| Handshake.DigestInput | client.js:78 | the hashed text is the key followed by the 36-character GUID |
| Handshake.ExpectedAccept | client.js:78 | the token is the base64 text of the SHA-1 digest of the key followed by the GUID, as section 4.2.2 of RFC 6455 defines it. Partners: `IntendedAcceptsExpectedToken` (a reply carrying it passes the intended check), `DigestInputDeterminesKey`, `ValidateDigest` |
| Handshake.DigestInputDeterminesKey | client.js:78 | two keys give the same hashed text exactly when they are equal |
| Handshake.Not | client.js:79 | JavaScript `!` always produces a boolean |
| Handshake.StrictEquals | client.js:79 | `===` between a boolean and a string is always false |
| Handshake.ValidateDigestAsWritten | client.js:76-80 | the check as written fails exactly when the accept header is missing, and then with the missing-header error; it never reports a mismatch |
| Handshake.ValidateDigest | client.js:76-80 | the intended check passes exactly when the first accept value equals base64(SHA-1(key + GUID)); a missing header and a wrong token give their own errors |
| Handshake.IntendedAcceptsExpectedToken | client.js:76-80 | a reply whose line after the status line carries the expected token passes the intended check, whatever follows |
| Handshake.AsWrittenAcceptsMismatch | client.js:79 | whenever the token differs from the expected one, the check as written passes and the intended one fails with a mismatch |
| Handshake.AsWrittenAgreesOnlyOnCorrectTokens | client.js:79 | with the header present, the two checks agree exactly on responses carrying the expected token |
| Handshake.AsWrittenAcceptsWrongToken | client.js:76-80 | concretely: with the sample key of RFC 6455, its expected token, and a `101` reply whose accept value is `AAAA`, the check as written passes |
| Handshake.IntendedRejectsWrongToken | client.js:76-80 | on the same reply the intended check fails with a digest mismatch |
| ClientUpgrade.Start | client.js:58-72 | the listener is installed before the request is written; the request written is the assembled template for the generated key |
| ClientUpgrade.OnData | client.js:62-66 | the one-shot listener handles one event and removes itself; it resolves exactly when the check returns normally; without a listener, data changes nothing |
| ClientUpgrade.FeedAfterListenerIsInert | client.js:62 | once the listener is gone, any further data leaves the attempt unchanged |
| ClientUpgrade.FirstResponseDecides | client.js:62-66 | the final state is the state after the first data event alone |
| ClientUpgrade.OnlyFirstResponseCounts | client.js:62-66 | appending later data events to the first one changes nothing |
| ClientUpgrade.UpgradeSocket | client.js:58-72 | the complete trace is listen, write the request once, then at most one verdict on the first response; the promise resolves exactly when that response passes the check, the listener throws the check's error otherwise, and while no data has arrived the promise stays pending and the listener stays installed. Given a URL that `Url.parse` accepts, the promise is never rejected. Partners: `FirstResponseDecides`, `OnlyFirstResponseCounts`, `AsWrittenResolvesOnAnyToken`, `IntendedResolvesOnlyOnExpectedToken` |
| ClientUpgrade.AsWrittenResolvesOnAnyToken | client.js:62-66 | with the check as written, the handshake resolves exactly when the first response has an accept header, whatever its token |
| ClientUpgrade.IntendedResolvesOnlyOnExpectedToken | client.js:62-66 | with the intended check, it resolves exactly on the expected token; otherwise the listener throws |
| WsServer.NewServer | wsserver.js:7-11 | a new server has no registered address, no socket handlers and empty traces, and its registry and trace agree. Partners: `NewServerIsConsistent`, `CreatedServerStaysConsistent` |
| WsServer.CreateServer | wsserver.js:13-21 | announces `Create server.` and leaves the registry, the socket handlers and the action trace as they are |
| WsServer.PeerAddress | wsserver.js:35 | the address is the forwarded-for header when present and non-empty, otherwise the socket's remote address |
| WsServer.ShallowCopy | wsserver.js:75 | the copy made before serialising has exactly the message's fields |
| WsServer.OnClose | wsserver.js:30-32 | the server's own close emits `close` without payload and changes nothing else |
| WsServer.OnConnection | wsserver.js:34-51 | registers `{ ws, address }` under the peer address, replacing any earlier entry, leaves every other address alone, binds the socket's handlers to that address, then emits the debug line and `open` |
| WsServer.SendMessage | wsserver.js:69-76 | a registered address gets one `send` of the serialised message on its socket after a debug line; an unregistered one gets one error and nothing is sent; the registry never changes |
| WsServer.CloseConnection | wsserver.js:78-85 | a registered address gets one `close` request on its socket and keeps its entry; an unregistered one gets one error |
| WsServer.OnUpgrade | wsserver.js:53-67 | on success, the socket lands under the address the upgrade announced and receives `{ action: 'ping' }`; the events are upgrade, connection request, `open`, `connection`, send, with no error; other addresses and other sockets' handlers are untouched, and the upgraded socket is the only one that gains handlers. A throwing negotiation is reported as an error, and a throwing or declined one registers nothing, installs no handlers and sends nothing |
| WsServer.OnSocketMessage | wsserver.js:40-42 | forwards the data with the address captured at connection time and changes nothing else |
| WsServer.OnSocketClose | wsserver.js:43-46 | emits `close` with the captured address and deletes that address from the registry, leaving every other address alone |
| WsServer.OnSocketError | wsserver.js:47-49 | reports the error with the captured address and changes nothing else |
| WsServer.LiveIgnoresQuietEvents | wsserver.js:36-50 | events other than `open` and a connection's `close` do not change which addresses the trace shows as live |
| WsServer.Step | wsserver.js:16-49 | routes each input to its handler; the event and action traces only grow, and a socket's handlers, once installed, stay installed. Partners: `StepKeepsConsistent`, `RunAppend`, `RunKeepsConsistent` |
| WsServer.StepKeepsConsistent | wsserver.js:30-85 | every handler keeps the registered addresses equal to those opened and not closed since, each entry filed under its own address with its handlers installed |
| WsServer.RunKeepsConsistent | wsserver.js:30-85 | any sequence of inputs keeps that agreement, and both traces only grow |
| WsServer.NewServerIsConsistent | wsserver.js:7-14 | a newly created server starts in agreement |
| WsServer.CreatedServerStaysConsistent | wsserver.js:7-85 | after any inputs to a newly created server, its registered addresses are exactly those opened and not closed since in its event trace, each entry filed under its own address |
| WsServer.RunAppend | wsserver.js:30-85 | running one more input after a sequence is one more handler call on the resulting server |
| WsServer.RegistryRoundTrip | wsserver.js:34-67 | after an upgrade, the address maps to the new socket; after that socket closes, it maps to nothing and every other address is as before |
| WsServer.StaleCloseRemovesSuccessor | wsserver.js:34-67 | after two upgrades from one address, the second socket is registered; when the first socket then closes, the address is deleted although the second socket never closed |
| WsServer.StaleCloseStrandsSuccessor | wsserver.js:43-46 | after that stale close, a message for the address is reported as failed and nothing is sent to the still-open second socket |

## Left out

- Sockets, TLS/TCP connection set-up (`getSocket`), the `end` listener, the demo calls at module level in both files, the 5-second destroy timer, console logging and the HTTP `Hello world!` handler. These are I/O and demonstration plumbing.
- The demo's reply of `{ action: 'pong' }` to every message: it is an application listener, not part of the server. The same effect is a `SendRequest` input after a `SocketMessage` input, because emitting `message` is that handler's last step.
- Listeners that re-enter the server in the middle of a handler. Node runs listeners synchronously inside `emit`, but the model applies the application's calls as later inputs. The two differ where an emit precedes the handler's own update:
  - a `close` listener that calls `sendMessage` for the closing address still finds the entry, because the `close` emit at wsserver.js:44 comes before the `delete` at wsserver.js:45, so it sends to the closing socket; as a later `SendRequest` input the same call reports a send failure;
  - a `debug` listener fired at wsserver.js:36 runs before the registration.
- What follows `Phase.Thrown`: the uncaught exception raised from the socket's `data` emission, and the process exit it causes without an `uncaughtException` handler. The event loop is not modelled; `Phase.Thrown` stands for that path.
- `genKey`: the 16 random bytes are not modelled. The key is a parameter.
- SHA-1, base64, `Url.parse` and `JSON.stringify`: library algorithms, passed in as function values or already-parsed values.
- ClientUpgrade.UpgradeSocket: assumes `Url.parse` succeeds, because the only call site passes the constant `HostUrl` (client.js:3, client.js:34). The legacy parser throws on a non-string URL and on a malformed percent-escape in the user info (`http://%zz@localhost:8080`). `assembleHandshake` would then throw inside the promise executor (client.js:69), which rejects the promise after the `data` listener is installed and before anything is written. That rejection path is not modelled.
- `Buffer.toString()`: `data` events are modelled as already decoded text. Each event is one chunk as TCP delivered it, so a reply split across chunks is judged on its first chunk, as the code does.
- The WebSocket data framing after the upgrade: the code does not implement it.
- `destroy`: it only wraps `wss.close` in a promise. The resulting server `close` is `WsServer.OnClose`.
- The internals of the `ws` library: negotiation, its 400/503 replies, `send`/`close` framing, and the asynchronous delivery of its events. Its outcomes and events are inputs, and each socket is assumed to be delivered by one upgrade only.
- Inherited object keys of the registry (`__proto__`, `toString`, …): the registry is modelled as a plain map. `req.socket.remoteAddress` is taken to be a string, never `undefined`.
- What a template literal makes of a thrown non-string error (`${error}`): errors are modelled as text.
- An `error` event with no listener, which Node turns into a throw. The demo always installs one.
- Handshake.GetWSAccept: the regex `i` flag is modelled as ASCII folding. This is exact for the all-ASCII header name, because non-unicode case folding maps no non-ASCII character onto an ASCII letter of this pattern.
- Handshake.ValidateDigest: compares the accept value exactly, as the source's comparison does. Section 4.1 of RFC 6455 ignores leading and trailing whitespace around the value, so a reply whose token is followed by a space fails here although an RFC client would accept it.
- Handshake.RequestHeadersRoundTrip: states the round trip only for non-empty values. An empty value leaves its header line without a value to read back.

## Findings

| source | as written | input that shows it | evidently intended | confidence | as-written member | corrected member |
|---|---|---|---|---|---|---|
| client.js:79 | `!digest === accept` parses as `(!digest) === accept`, a boolean compared with a string, so it is always false and the mismatch error is never thrown | key `dGhlIHNhbXBsZSBub25jZQ==` with expected token `s3pPLMBiTxaQ9kYGzzhZRbK+xOo=` and a reply carrying `Sec-WebSocket-Accept: AAAA`: the check passes | `digest !== accept`: throw unless the accept value equals base64(SHA-1(key + GUID)) | not executed | Handshake.AsWrittenAcceptsWrongToken | Handshake.ValidateDigest |
