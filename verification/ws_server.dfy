/**
  The `WebSocketServer` of `wsserver.js`: a registry `connections` from peer address to the
  record `{ ws, address }`, the upgrade path that fills it, the send/close routing that reads
  it, and the per-connection handlers that empty it.

  The server is a value; each handler returns the next value. What the server emits is an
  ordered trace of `Event`s and what it asks of the `ws` library (`ws.send`, `ws.close`) an
  ordered trace of `Action`s. The `ws` library itself is not modelled: the outcome of
  `handleUpgrade` is an input, and the events a `ws` object raises are inputs too.
*/
module WsServer {
  import opened Wrappers

  /** A `ws` connection object, told apart by identity. */
  datatype Socket = Socket(id: nat)

  /** The record `{ ws, address }` stored under `connections[address]`. */
  datatype Entry = Entry(ws: Socket, address: string)

  /** What the server reads of an upgrade request: the `x-forwarded-for` header, if sent,
      and `req.socket.remoteAddress`. */
  datatype Request = Request(forwardedFor: Option<string>, remoteAddress: string)

  /** JSON values, for the message objects handed to `sendMessage`. */
  datatype Json =
    | JNull
    | JBool(b: bool)
    | JNumber(n: int)
    | JString(s: string)
    | JArray(items: seq<Json>)
    | JObject(fields: map<string, Json>)

  type JsonObject = map<string, Json>

  /** What an `error` event carries: a message string, or the exception `handleUpgrade` threw. */
  datatype ErrorValue = Text(text: string) | Thrown(exception: string)

  /** The server's notifications. `Close(None)` is the server's own `close` with no payload;
      `Close(Some(a))` is a connection's `close` with payload `{ address: a }`. */
  datatype Event =
    | Debug(text: string)
    | Error(value: ErrorValue)
    | Connection(ws: Socket)
    | Open(address: string)
    | Close(peer: Option<string>)
    | Message(address: string, message: string)

  /** Calls on a `ws` object. */
  datatype Action = Send(ws: Socket, text: string) | CloseSocket(ws: Socket)

  /** The server: the registry, the address each socket's handlers captured when they were
      installed, and the two traces. */
  datatype Server = Server(
    connections: map<string, Entry>,
    handlers: map<Socket, string>,
    events: seq<Event>,
    actions: seq<Action>)

  /** What `handleUpgrade` did: called back with a new socket, threw synchronously, or
      declined the request without calling back. */
  datatype UpgradeOutcome = Upgraded(ws: Socket) | Threw(exception: string) | Declined

  /** `{ action: 'ping' }`, the message sent on every new connection. */
  const Ping: JsonObject := map["action" := JString("ping")]

  // ---------------------------------------------------------------------------
  // Notification texts
  // ---------------------------------------------------------------------------

  function UpgradeText(a: string): string { "Socket upgrade for " + a + "." }
  function ConnectionText(a: string): string { "Connection request from " + a + "." }
  function SendText(a: string): string { "Send message to " + a + "." }
  function SendFailedText(a: string): string { "Send failed, no connection for " + a + "." }
  function ClosingText(a: string): string { "Closing connection to " + a + "." }
  function CloseFailedText(a: string): string { "Close failed, no connection for " + a + "." }
  function SocketErrorText(a: string, error: string): string { "Websocket error on " + a + ", " + error + "." }

  // ---------------------------------------------------------------------------
  // The registry and the handlers
  // ---------------------------------------------------------------------------

  /** The constructor: an empty registry, no socket handlers, nothing emitted; the registry
      and the (empty) trace agree from the start. */
  function NewServer(): (r: Server)
    ensures forall a :: Lookup(r, a).None?
    ensures |r.handlers| == 0 && r.events == [] && r.actions == []
    ensures Consistent(r)
  {
    Server(map[], map[], [], [])
  }

  /** `createServer`: announces itself; the wiring to the HTTP server is not modelled. */
  function CreateServer(s: Server): (r: Server)
    ensures r.connections == s.connections && r.handlers == s.handlers && r.actions == s.actions
    ensures r.events == s.events + [Debug("Create server.")]
  {
    s.(events := s.events + [Debug("Create server.")])
  }

  /** `connections[address]`: the entry registered under `address`, if any. */
  function Lookup(s: Server, address: string): Option<Entry> {
    if address in s.connections then Some(s.connections[address]) else None
  }

  /** `req.headers['x-forwarded-for'] || req.socket.remoteAddress`: an empty header is falsy. */
  function PeerAddress(req: Request): (a: string)
    ensures req.forwardedFor.Some? && req.forwardedFor.value != "" ==> a == req.forwardedFor.value
    ensures req.forwardedFor.None? || req.forwardedFor.value == "" ==> a == req.remoteAddress
  {
    match req.forwardedFor
    case Some(header) => if header != "" then header else req.remoteAddress
    case None => req.remoteAddress
  }

  /** `Object.assign({}, message)`: a copy of the message's own fields. */
  function ShallowCopy(message: JsonObject): (r: JsonObject)
    ensures r == message
  {
    var copy := map k | k in message :: message[k];
    assert copy.Keys == message.Keys;
    copy
  }

  /** `onClose`: the server's own close, with no payload. */
  function OnClose(s: Server): (r: Server)
    ensures r.connections == s.connections && r.handlers == s.handlers && r.actions == s.actions
    ensures r.events == s.events + [Close(None)]
  {
    s.(events := s.events + [Close(None)])
  }

  /** `onConnection`: registers `{ ws, address }` under the peer address, overwriting any
      earlier entry, installs the socket's handlers, and announces the connection. */
  function OnConnection(s: Server, ws: Socket, req: Request): (r: Server)
    ensures Lookup(r, PeerAddress(req)) == Some(Entry(ws, PeerAddress(req)))
    ensures forall b :: b != PeerAddress(req) ==> Lookup(r, b) == Lookup(s, b)
    ensures ws in r.handlers && r.handlers[ws] == PeerAddress(req)
    ensures forall w :: w != ws ==> (w in r.handlers <==> w in s.handlers)
    ensures forall w :: w != ws && w in s.handlers ==> r.handlers[w] == s.handlers[w]
    ensures r.events == s.events + [Debug(ConnectionText(PeerAddress(req))), Open(PeerAddress(req))]
    ensures r.actions == s.actions
  {
    var address := PeerAddress(req);
    Server(
      s.connections[address := Entry(ws, address)],
      s.handlers[ws := address],
      s.events + [Debug(ConnectionText(address)), Open(address)],
      s.actions)
  }

  /** `sendMessage`: routes a serialised copy of `message` to the socket registered under
      `address`, or reports that there is none. The registry never changes. */
  function SendMessage(s: Server, address: string, message: JsonObject, stringify: JsonObject -> string): (r: Server)
    ensures r.connections == s.connections && r.handlers == s.handlers
    ensures Lookup(s, address).None? ==>
      r.events == s.events + [Error(Text(SendFailedText(address)))] && r.actions == s.actions
    ensures Lookup(s, address).Some? ==>
      && r.events == s.events + [Debug(SendText(address))]
      && r.actions == s.actions + [Send(Lookup(s, address).value.ws, stringify(message))]
  {
    if address !in s.connections then
      s.(events := s.events + [Error(Text(SendFailedText(address)))])
    else
      var copy := ShallowCopy(message);
      s.(events := s.events + [Debug(SendText(address))],
         actions := s.actions + [Send(s.connections[address].ws, stringify(copy))])
  }

  /** `closeConnection`: asks the registered socket to close, or reports that there is none.
      The entry stays until the socket's `close` event arrives. */
  function CloseConnection(s: Server, address: string): (r: Server)
    ensures r.connections == s.connections && r.handlers == s.handlers
    ensures Lookup(s, address).None? ==>
      r.events == s.events + [Error(Text(CloseFailedText(address)))] && r.actions == s.actions
    ensures Lookup(s, address).Some? ==>
      && r.events == s.events + [Debug(ClosingText(address))]
      && r.actions == s.actions + [CloseSocket(Lookup(s, address).value.ws)]
  {
    if address !in s.connections then
      s.(events := s.events + [Error(Text(CloseFailedText(address)))])
    else
      s.(events := s.events + [Debug(ClosingText(address))],
         actions := s.actions + [CloseSocket(s.connections[address].ws)])
  }

  /** `onUpgrade`: announces the upgrade, then reacts to what `handleUpgrade` did. On success
      the callback re-emits `connection` on the `ws` server (which runs `onConnection`),
      emits `connection` itself and sends the ping; a synchronous throw is reported. */
  function OnUpgrade(s: Server, req: Request, outcome: UpgradeOutcome, stringify: JsonObject -> string): (r: Server)
    ensures outcome.Upgraded? ==>
      && Lookup(r, PeerAddress(req)) == Some(Entry(outcome.ws, PeerAddress(req)))
      && r.actions == s.actions + [Send(outcome.ws, stringify(Ping))]
      && r.events == s.events + [Debug(UpgradeText(PeerAddress(req))), Debug(ConnectionText(PeerAddress(req))),
                                 Open(PeerAddress(req)), Connection(outcome.ws), Debug(SendText(PeerAddress(req)))]
    ensures outcome.Upgraded? ==> forall b :: b != PeerAddress(req) ==> Lookup(r, b) == Lookup(s, b)
    ensures outcome.Upgraded? ==> outcome.ws in r.handlers && r.handlers[outcome.ws] == PeerAddress(req)
    ensures forall w :: w in s.handlers && !(outcome.Upgraded? && w == outcome.ws) ==>
      w in r.handlers && r.handlers[w] == s.handlers[w]
    ensures outcome.Upgraded? ==> r.handlers.Keys == s.handlers.Keys + {outcome.ws}
    ensures !outcome.Upgraded? ==> r.connections == s.connections && r.handlers == s.handlers && r.actions == s.actions
    ensures outcome.Threw? ==>
      r.events == s.events + [Debug(UpgradeText(PeerAddress(req))), Error(Thrown(outcome.exception))]
    ensures outcome.Declined? ==> r.events == s.events + [Debug(UpgradeText(PeerAddress(req)))]
  {
    var address := PeerAddress(req);
    var announced := s.(events := s.events + [Debug(UpgradeText(address))]);
    match outcome
    case Upgraded(ws) =>
      var registered := OnConnection(announced, ws, req);
      var connected := registered.(events := registered.events + [Connection(ws)]);
      SendMessage(connected, address, Ping, stringify)
    case Threw(exception) =>
      announced.(events := announced.events + [Error(Thrown(exception))])
    case Declined =>
      announced
  }

  /** A socket's `message` handler: forwards the data with the address it captured. */
  function OnSocketMessage(s: Server, ws: Socket, data: string): (r: Server)
    ensures r.connections == s.connections && r.handlers == s.handlers && r.actions == s.actions
    ensures ws in s.handlers ==> r.events == s.events + [Message(s.handlers[ws], data)]
    ensures ws !in s.handlers ==> r == s
  {
    if ws !in s.handlers then s
    else s.(events := s.events + [Message(s.handlers[ws], data)])
  }

  /** A socket's `close` handler: announces the close and deletes the captured address from
      the registry, whichever socket is registered there now. */
  function OnSocketClose(s: Server, ws: Socket): (r: Server)
    ensures ws in s.handlers ==> s.handlers[ws] !in r.connections
    ensures ws in s.handlers ==> forall b :: b != s.handlers[ws] ==> Lookup(r, b) == Lookup(s, b)
    ensures ws in s.handlers ==> r.events == s.events + [Close(Some(s.handlers[ws]))]
    ensures ws !in s.handlers ==> r == s
    ensures r.actions == s.actions && r.handlers == s.handlers
  {
    if ws !in s.handlers then s
    else
      var address := s.handlers[ws];
      s.(connections := s.connections - {address},
         events := s.events + [Close(Some(address))])
  }

  /** A socket's `error` handler: reports the error with the captured address. */
  function OnSocketError(s: Server, ws: Socket, error: string): (r: Server)
    ensures r.connections == s.connections && r.handlers == s.handlers && r.actions == s.actions
    ensures ws in s.handlers ==> r.events == s.events + [Error(Text(SocketErrorText(s.handlers[ws], error)))]
    ensures ws !in s.handlers ==> r == s
  {
    if ws !in s.handlers then s
    else s.(events := s.events + [Error(Text(SocketErrorText(s.handlers[ws], error)))])
  }

  // ---------------------------------------------------------------------------
  // Runs of the server
  // ---------------------------------------------------------------------------

  /** Everything that can reach the server: HTTP upgrades, events of `ws` objects, the
      `ws` server's own close, and calls from the application. */
  datatype Input =
    | UpgradeRequest(req: Request, outcome: UpgradeOutcome)
    | SocketMessage(ws: Socket, data: string)
    | SocketClosed(ws: Socket)
    | SocketError(ws: Socket, error: string)
    | ServerClosed
    | SendRequest(address: string, message: JsonObject)
    | CloseRequest(address: string)

  /** One input, routed to its handler. No handler rewrites what was already emitted or
      asked for, and a socket's handlers, once installed, stay installed. */
  function Step(s: Server, input: Input, stringify: JsonObject -> string): (r: Server)
    ensures s.events <= r.events && s.actions <= r.actions
    ensures s.handlers.Keys <= r.handlers.Keys
  {
    match input
    case UpgradeRequest(req, outcome) => OnUpgrade(s, req, outcome, stringify)
    case SocketMessage(ws, data) => OnSocketMessage(s, ws, data)
    case SocketClosed(ws) => OnSocketClose(s, ws)
    case SocketError(ws, error) => OnSocketError(s, ws, error)
    case ServerClosed => OnClose(s)
    case SendRequest(address, message) => SendMessage(s, address, message, stringify)
    case CloseRequest(address) => CloseConnection(s, address)
  }

  function Run(s: Server, inputs: seq<Input>, stringify: JsonObject -> string): Server
    decreases |inputs|
  {
    if |inputs| == 0 then s else Run(Step(s, inputs[0], stringify), inputs[1..], stringify)
  }

  /** The addresses an observer of the trace believes connected: opened and not closed since. */
  function Live(events: seq<Event>): set<string>
    decreases |events|
  {
    if |events| == 0 then {}
    else
      var before := Live(events[..|events| - 1]);
      match events[|events| - 1]
      case Open(a) => before + {a}
      case Close(Some(a)) => before - {a}
      case _ => before
  }

  /** The registry and the trace agree: the registered addresses are exactly the live ones,
      and every entry is filed under its own address and has its handlers installed. */
  ghost predicate Consistent(s: Server) {
    && s.connections.Keys == Live(s.events)
    && forall a :: a in s.connections ==> s.connections[a].address == a && s.connections[a].ws in s.handlers
  }

  /** Appending events that neither open nor close a connection leaves `Live` alone. */
  lemma {:induction false} LiveIgnoresQuietEvents(events: seq<Event>, more: seq<Event>)
    requires forall k :: 0 <= k < |more| ==> !more[k].Open? && !(more[k].Close? && more[k].peer.Some?)
    ensures Live(events + more) == Live(events)
    decreases |more|
  {
    if |more| > 0 {
      var init := more[..|more| - 1];
      var last := more[|more| - 1];
      assert (events + more)[..|events + more| - 1] == events + init;
      assert (events + more)[|events + more| - 1] == last;
      assert !last.Open? && !(last.Close? && last.peer.Some?);
      LiveIgnoresQuietEvents(events, init);
    } else {
      assert events + more == events;
    }
  }

  lemma LiveOpen(events: seq<Event>, t: string, a: string)
    ensures Live(events + [Debug(t), Open(a)]) == Live(events) + {a}
  {
    assert (events + [Debug(t), Open(a)])[..|events| + 1] == events + [Debug(t)];
    LiveIgnoresQuietEvents(events, [Debug(t)]);
  }

  lemma LiveClose(events: seq<Event>, a: string)
    ensures Live(events + [Close(Some(a))]) == Live(events) - {a}
  {
    assert (events + [Close(Some(a))])[..|events|] == events;
  }

  /** A handler that keeps the registry, keeps every installed handler and emits neither
      `open` nor a connection's `close` keeps the agreement. */
  lemma QuietKeepsConsistent(s: Server, r: Server, more: seq<Event>)
    requires Consistent(s)
    requires r.connections == s.connections && s.handlers.Keys <= r.handlers.Keys
    requires r.events == s.events + more
    requires forall k :: 0 <= k < |more| ==> !more[k].Open? && !(more[k].Close? && more[k].peer.Some?)
    ensures Consistent(r)
  {
    LiveIgnoresQuietEvents(s.events, more);
  }

  /** Registering a connection opens its address in the trace. */
  lemma ConnectionKeepsConsistent(s: Server, ws: Socket, req: Request)
    requires Consistent(s)
    ensures Consistent(OnConnection(s, ws, req))
  {
    var r := OnConnection(s, ws, req);
    var address := PeerAddress(req);
    LiveOpen(s.events, ConnectionText(address), address);
    assert r.connections.Keys == s.connections.Keys + {address};
  }

  lemma UpgradeKeepsConsistent(s: Server, req: Request, outcome: UpgradeOutcome, stringify: JsonObject -> string)
    requires Consistent(s)
    ensures Consistent(OnUpgrade(s, req, outcome, stringify))
  {
    var address := PeerAddress(req);
    var announced := s.(events := s.events + [Debug(UpgradeText(address))]);
    QuietKeepsConsistent(s, announced, [Debug(UpgradeText(address))]);
    match outcome {
      case Upgraded(ws) =>
        var registered := OnConnection(announced, ws, req);
        ConnectionKeepsConsistent(announced, ws, req);
        var connected := registered.(events := registered.events + [Connection(ws)]);
        QuietKeepsConsistent(registered, connected, [Connection(ws)]);
        SendKeepsConsistent(connected, address, Ping, stringify);
      case Threw(exception) =>
        QuietKeepsConsistent(announced, OnUpgrade(s, req, outcome, stringify), [Error(Thrown(exception))]);
      case Declined =>
    }
  }

  lemma SendKeepsConsistent(s: Server, address: string, message: JsonObject, stringify: JsonObject -> string)
    requires Consistent(s)
    ensures Consistent(SendMessage(s, address, message, stringify))
  {
    var r := SendMessage(s, address, message, stringify);
    if address in s.connections {
      QuietKeepsConsistent(s, r, [Debug(SendText(address))]);
    } else {
      QuietKeepsConsistent(s, r, [Error(Text(SendFailedText(address)))]);
    }
  }

  /** A connection's close closes the captured address in the trace and in the registry. */
  lemma SocketCloseKeepsConsistent(s: Server, ws: Socket)
    requires Consistent(s)
    ensures Consistent(OnSocketClose(s, ws))
  {
    if ws in s.handlers {
      LiveClose(s.events, s.handlers[ws]);
      assert OnSocketClose(s, ws).connections.Keys == s.connections.Keys - {s.handlers[ws]};
    }
  }

  /** Every handler keeps the registry and the trace in agreement. */
  lemma StepKeepsConsistent(s: Server, input: Input, stringify: JsonObject -> string)
    requires Consistent(s)
    ensures Consistent(Step(s, input, stringify))
  {
    var r := Step(s, input, stringify);
    match input
    case UpgradeRequest(req, outcome) =>
      UpgradeKeepsConsistent(s, req, outcome, stringify);
    case SocketMessage(ws, data) =>
      if ws in s.handlers {
        QuietKeepsConsistent(s, r, [Message(s.handlers[ws], data)]);
      }
    case SocketClosed(ws) =>
      SocketCloseKeepsConsistent(s, ws);
    case SocketError(ws, error) =>
      if ws in s.handlers {
        QuietKeepsConsistent(s, r, [Error(Text(SocketErrorText(s.handlers[ws], error)))]);
      }
    case ServerClosed =>
      QuietKeepsConsistent(s, r, [Close(None)]);
    case SendRequest(address, message) =>
      SendKeepsConsistent(s, address, message, stringify);
    case CloseRequest(address) =>
      if address in s.connections {
        QuietKeepsConsistent(s, r, [Debug(ClosingText(address))]);
      } else {
        QuietKeepsConsistent(s, r, [Error(Text(CloseFailedText(address)))]);
      }
  }

  /** From any server whose registry and trace agree, any sequence of inputs keeps them in
      agreement, and the traces only grow. */
  lemma {:induction false} RunKeepsConsistent(s: Server, inputs: seq<Input>, stringify: JsonObject -> string)
    requires Consistent(s)
    ensures Consistent(Run(s, inputs, stringify))
    ensures s.events <= Run(s, inputs, stringify).events
    ensures s.actions <= Run(s, inputs, stringify).actions
    decreases |inputs|
  {
    if |inputs| > 0 {
      StepKeepsConsistent(s, inputs[0], stringify);
      RunKeepsConsistent(Step(s, inputs[0], stringify), inputs[1..], stringify);
    }
  }

  lemma NewServerIsConsistent()
    ensures Consistent(CreateServer(NewServer()))
  {
    assert [Debug("Create server.")][..0] == [];
  }

  /** Whatever the application and the network do to a newly created server, the addresses
      in its registry are exactly those the trace shows opened and not closed since. */
  lemma CreatedServerStaysConsistent(inputs: seq<Input>, stringify: JsonObject -> string)
    ensures var r := Run(CreateServer(NewServer()), inputs, stringify);
      && r.connections.Keys == Live(r.events)
      && forall a :: a in r.connections ==> r.connections[a].address == a
  {
    NewServerIsConsistent();
    RunKeepsConsistent(CreateServer(NewServer()), inputs, stringify);
  }

  /** Running one more input is one more step. */
  lemma {:induction false} RunAppend(s: Server, inputs: seq<Input>, input: Input, stringify: JsonObject -> string)
    ensures Run(s, inputs + [input], stringify) == Step(Run(s, inputs, stringify), input, stringify)
    decreases |inputs|
  {
    if |inputs| == 0 {
      assert [] + [input] == [input];
      assert [input][1..] == [];
    } else {
      assert (inputs + [input])[0] == inputs[0];
      assert (inputs + [input])[1..] == inputs[1..] + [input];
      RunAppend(Step(s, inputs[0], stringify), inputs[1..], input, stringify);
    }
  }

  // ---------------------------------------------------------------------------
  // Scenarios
  // ---------------------------------------------------------------------------

  /** Upgrade, then the socket closes: the address is registered in between and gone
      afterwards, and every other address is as it was. */
  lemma RegistryRoundTrip(s: Server, ws: Socket, req: Request, stringify: JsonObject -> string)
    ensures var a := PeerAddress(req);
      && Lookup(Run(s, [UpgradeRequest(req, Upgraded(ws))], stringify), a) == Some(Entry(ws, a))
      && Lookup(Run(s, [UpgradeRequest(req, Upgraded(ws)), SocketClosed(ws)], stringify), a) == None
      && forall b :: b != a ==>
           Lookup(Run(s, [UpgradeRequest(req, Upgraded(ws)), SocketClosed(ws)], stringify), b) == Lookup(s, b)
  {
    var up, down := UpgradeRequest(req, Upgraded(ws)), SocketClosed(ws);
    RunAppend(s, [], up, stringify);
    assert Run(s, [], stringify) == s;
    assert [] + [up] == [up];
    RunAppend(s, [up], down, stringify);
    assert [up] + [down] == [up, down];
  }

  /** Two upgrades from one address leave one entry, the second. When the first socket then
      closes, its handler deletes the address, and with it the entry of the second socket,
      which never closed. */
  lemma StaleCloseRemovesSuccessor(s: Server, first: Socket, second: Socket, req: Request,
                                   stringify: JsonObject -> string)
    requires first != second
    ensures var a := PeerAddress(req);
      var both := [UpgradeRequest(req, Upgraded(first)), UpgradeRequest(req, Upgraded(second))];
      && Lookup(Run(s, both, stringify), a) == Some(Entry(second, a))
      && Lookup(Run(s, both + [SocketClosed(first)], stringify), a) == None
  {
    var a := PeerAddress(req);
    var up1, up2 := UpgradeRequest(req, Upgraded(first)), UpgradeRequest(req, Upgraded(second));
    var both := [up1, up2];
    RunAppend(s, [], up1, stringify);
    assert Run(s, [], stringify) == s;
    assert [] + [up1] == [up1];
    var s1 := OnUpgrade(s, req, Upgraded(first), stringify);
    assert s1.handlers[first] == a;
    RunAppend(s, [up1], up2, stringify);
    assert [up1] + [up2] == both;
    var s2 := OnUpgrade(s1, req, Upgraded(second), stringify);
    assert Run(s, both, stringify) == s2;
    assert s2.handlers[first] == a;
    RunAppend(s, both, SocketClosed(first), stringify);
  }

  /** After that stale close the second socket, still open, can no longer be reached: a
      message for its address is reported as failed. */
  lemma StaleCloseStrandsSuccessor(s: Server, first: Socket, second: Socket, req: Request,
                                   message: JsonObject, stringify: JsonObject -> string)
    requires first != second
    ensures var a := PeerAddress(req);
      var stale := [UpgradeRequest(req, Upgraded(first)), UpgradeRequest(req, Upgraded(second)), SocketClosed(first)];
      && Run(s, stale + [SendRequest(a, message)], stringify).events
         == Run(s, stale, stringify).events + [Error(Text(SendFailedText(a)))]
      && Run(s, stale + [SendRequest(a, message)], stringify).actions == Run(s, stale, stringify).actions
  {
    var a := PeerAddress(req);
    var both := [UpgradeRequest(req, Upgraded(first)), UpgradeRequest(req, Upgraded(second))];
    var stale := both + [SocketClosed(first)];
    StaleCloseRemovesSuccessor(s, first, second, req, stringify);
    assert stale == [UpgradeRequest(req, Upgraded(first)), UpgradeRequest(req, Upgraded(second)), SocketClosed(first)];
    RunAppend(s, stale, SendRequest(a, message), stringify);
  }
}
