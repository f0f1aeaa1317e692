/**
  `upgradeSocket` as a one-shot state machine. The promise executor installs a `once('data')`
  listener, assembles the request and writes it; the first `data` event removes the listener
  (Node's `once` unregisters before it calls), runs the digest check and resolves when the
  check returns normally. When the check throws, the exception escapes the listener and the
  promise is neither resolved nor rejected: the source never calls `reject`.

  The transport is an ordered list of `data` payloads already decoded to text; what the
  socket does is recorded as an action trace. The digest check is a parameter so that the
  machine can be run with the check as written and with the intended one.
*/
module ClientUpgrade {
  import opened Wrappers
  import opened HeaderText
  import opened Handshake

  /** What the handshake does to the socket and to the promise, in order. */
  datatype Action =
    | ListenOnce                 // socket.once('data', ...)
    | Write(request: string)     // socket.write(upgradeRequest)
    | Resolve                    // resolve()
    | Throw(error: ClientError)  // validateDigest threw inside the listener

  datatype Phase = AwaitingResponse | Resolved | Thrown(error: ClientError)

  /** One handshake attempt: its key, whether the one-shot listener is still installed,
      where the promise stands, and the actions so far. */
  datatype Attempt = Attempt(key: string, listening: bool, phase: Phase, actions: seq<Action>)

  /** A digest check: given the key and the response text, return normally or throw. */
  type Validator = (string, string) -> Outcome<ClientError>

  /** The executor of `upgradeSocket`'s promise, with `key` the value `genKey` produced and
      `hostname` what `Url.parse(url).hostname` gave. */
  function Start(url: string, hostname: Option<string>, key: string): (a: Attempt)
    ensures a.listening && a.phase == AwaitingResponse && a.key == key
    ensures a.actions == [ListenOnce, Write(AssembleHandshake(url, hostname, key))]
  {
    Attempt(key, true, AwaitingResponse, [ListenOnce, Write(AssembleHandshake(url, hostname, key))])
  }

  /** A `data` event. Only the installed one-shot listener looks at it; any later data is
      outside the handshake. */
  function OnData(a: Attempt, data: string, validate: Validator): (r: Attempt)
    ensures !a.listening ==> r == a
    ensures a.listening ==> !r.listening && r.key == a.key
    ensures a.listening ==> (r.phase == Resolved <==> validate(a.key, data) == Pass)
  {
    if !a.listening then a
    else match validate(a.key, data)
      case Pass => a.(listening := false, phase := Resolved, actions := a.actions + [Resolve])
      case Fail(e) => a.(listening := false, phase := Thrown(e), actions := a.actions + [Throw(e)])
  }

  /** Deliver the `data` events in arrival order. */
  function Feed(a: Attempt, events: seq<string>, validate: Validator): Attempt
    decreases |events|
  {
    if |events| == 0 then a else Feed(OnData(a, events[0], validate), events[1..], validate)
  }

  /** The whole handshake against a transport that delivers `events`. The action trace: the
      listener is installed before the request is written, the request is written exactly
      once, and at most one verdict follows, on the first response. The promise resolves
      exactly when that response passes the check; while no data has arrived the promise
      stays pending and the listener stays installed. */
  function UpgradeSocket(url: string, hostname: Option<string>, key: string, events: seq<string>,
                         validate: Validator): (r: Attempt)
    ensures r.key == key && (r.listening <==> |events| == 0)
    ensures |events| == 0 ==> r.phase == AwaitingResponse
    ensures r.actions == [ListenOnce, Write(AssembleHandshake(url, hostname, key))]
                         + (if |events| == 0 then [] else [Verdict(validate(key, events[0]))])
    ensures r.phase == Resolved <==> |events| > 0 && validate(key, events[0]) == Pass
    ensures |events| > 0 && validate(key, events[0]).Fail? ==> r.phase == Thrown(validate(key, events[0]).error)
  {
    FirstResponseDecides(url, hostname, key, events, validate);
    Feed(Start(url, hostname, key), events, validate)
  }

  /** What the listener would do with a response, as the action it records. */
  function Verdict(o: Outcome<ClientError>): Action {
    match o
    case Pass => Resolve
    case Fail(e) => Throw(e)
  }

  /** Once the listener is gone, further data changes nothing. */
  lemma {:induction false} FeedAfterListenerIsInert(a: Attempt, events: seq<string>, validate: Validator)
    requires !a.listening
    ensures Feed(a, events, validate) == a
    decreases |events|
  {
    if |events| > 0 {
      FeedAfterListenerIsInert(OnData(a, events[0], validate), events[1..], validate);
    }
  }

  /** Only the first response is consulted: the attempt ends up where the listener left it. */
  lemma FirstResponseDecides(url: string, hostname: Option<string>, key: string, events: seq<string>,
                             validate: Validator)
    ensures Feed(Start(url, hostname, key), events, validate)
         == if |events| == 0 then Start(url, hostname, key)
            else OnData(Start(url, hostname, key), events[0], validate)
  {
    if |events| > 0 {
      var a := OnData(Start(url, hostname, key), events[0], validate);
      assert Feed(Start(url, hostname, key), events, validate) == Feed(a, events[1..], validate);
      FeedAfterListenerIsInert(a, events[1..], validate);
    }
  }

  /** Whatever arrives after the first response has no effect. */
  lemma OnlyFirstResponseCounts(url: string, hostname: Option<string>, key: string, first: string,
                                later: seq<string>, validate: Validator)
    ensures UpgradeSocket(url, hostname, key, [first] + later, validate)
         == UpgradeSocket(url, hostname, key, [first], validate)
  {
    FirstResponseDecides(url, hostname, key, [first] + later, validate);
    FirstResponseDecides(url, hostname, key, [first], validate);
  }

  /** With the check as written, the handshake resolves whenever the first response carries
      an accept header, whatever token it holds. */
  lemma AsWrittenResolvesOnAnyToken(c: Crypto, url: string, hostname: Option<string>, key: string,
                                    events: seq<string>)
    ensures UpgradeSocket(url, hostname, key, events, (k, r) => ValidateDigestAsWritten(c, k, r)).phase == Resolved
        <==> |events| > 0 && FirstHeader(events[0], AcceptPrefix).Some?
  {
  }

  /** With the intended check, the handshake resolves exactly when the first response carries
      the expected token; a first response without it makes the listener throw. */
  lemma IntendedResolvesOnlyOnExpectedToken(c: Crypto, url: string, hostname: Option<string>, key: string,
                                            events: seq<string>)
    ensures UpgradeSocket(url, hostname, key, events, (k, r) => ValidateDigest(c, k, r)).phase == Resolved
        <==> |events| > 0 && FirstHeader(events[0], AcceptPrefix) == Some(ExpectedAccept(c, key))
    ensures |events| > 0 && FirstHeader(events[0], AcceptPrefix) != Some(ExpectedAccept(c, key)) ==>
      UpgradeSocket(url, hostname, key, events, (k, r) => ValidateDigest(c, k, r)).phase.Thrown?
  {
  }
}
