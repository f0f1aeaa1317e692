/**
  The pure helpers of the client half of the opening handshake of RFC 6455 (section 4.1):
  the upgrade request template, extraction of the `Sec-WebSocket-Accept` value from the
  response text, the expected accept token of section 4.2.2, and the digest check, both
  as the source writes it and as it is evidently meant.

  SHA-1 and base64 are library calls whose algorithms are not part of this model; they
  enter as the two function values of a `Crypto`.
*/
module Handshake {
  import opened Wrappers
  import opened HeaderText

  /** The fixed GUID of RFC 6455 appended to the key before hashing. */
  const GUID: string := "258EAFA5-E914-47DA-95CA-C5AB0DC85B11"

  /** Header-line prefixes, with the one space the template and the regex put after the colon. */
  const AcceptPrefix: string := "Sec-WebSocket-Accept: "
  const KeyPrefix: string := "Sec-WebSocket-Key: "
  const HostPrefix: string := "Host: "
  const OriginPrefix: string := "Origin: "
  const VersionPrefix: string := "Sec-WebSocket-Version: "

  /** The request line; the template never puts the URL's path here. */
  const RequestLine: string := "GET / HTTP/1.1"

  /** The two errors `client.js` can throw during the handshake. */
  datatype ClientError = MissingAcceptHeader | DigestMismatch

  // ---------------------------------------------------------------------------
  // assembleHandshake
  // ---------------------------------------------------------------------------

  /** `${urlParts.hostname}`: the parsed hostname, or "null" when the URL has no host. */
  function HostText(hostname: Option<string>): string {
    match hostname
    case Some(h) => h
    case None => "null"
  }

  /** The template literal of the upgrade request, one template line per source line:
      every line break is a single LF and the text ends with an empty line. */
  function RequestTemplate(url: string, hostname: Option<string>, key: string): string {
    RequestLine + "\n"
    + HostPrefix + HostText(hostname) + "\n"
    + "Upgrade: websocket" + "\n"
    + "Connection: Upgrade" + "\n"
    + OriginPrefix + url + "\n"
    + KeyPrefix + key + "\n"
    + "Sec-WebSocket-Version: 13" + "\n"
    + "\n"
  }

  /** The upgrade request for `url`, where `hostname` is what `Url.parse(url).hostname`
      gave: its lines joined with LF, and splitting it at line terminators gives those
      lines back when no substituted value contains a line terminator. */
  function AssembleHandshake(url: string, hostname: Option<string>, key: string): (r: string)
    ensures r == Unlines(RequestLines(url, hostname, key))
    ensures NoTerminator(url) && NoTerminator(HostText(hostname)) && NoTerminator(key) ==>
      Lines(r) == RequestLines(url, hostname, key)
  {
    TemplateSplitsIntoLines(url, hostname, key);
    RequestTemplate(url, hostname, key)
  }

  /** The request's lines: the fixed request line whatever the URL's path, the six headers
      in template order, then the empty line that ends the request. */
  function RequestLines(url: string, hostname: Option<string>, key: string): seq<string> {
    [ RequestLine,
      HostPrefix + HostText(hostname),
      "Upgrade: websocket",
      "Connection: Upgrade",
      OriginPrefix + url,
      KeyPrefix + key,
      "Sec-WebSocket-Version: 13",
      "",
      "" ]
  }

  /** The template is its lines joined with LF, and splitting it at line terminators
      gives those lines back when no substituted value contains a line terminator. */
  lemma TemplateSplitsIntoLines(url: string, hostname: Option<string>, key: string)
    ensures RequestTemplate(url, hostname, key) == Unlines(RequestLines(url, hostname, key))
    ensures NoTerminator(url) && NoTerminator(HostText(hostname)) && NoTerminator(key) ==>
      Lines(RequestTemplate(url, hostname, key)) == RequestLines(url, hostname, key)
  {
    TemplateIsUnlines(url, hostname, key);
    if NoTerminator(url) && NoTerminator(HostText(hostname)) && NoTerminator(key) {
      RequestLinesHaveNoTerminator(url, hostname, key);
      LinesOfUnlines(RequestLines(url, hostname, key));
    }
  }

  /** Only the substituted values can bring a line terminator into a request line. */
  lemma RequestLinesHaveNoTerminator(url: string, hostname: Option<string>, key: string)
    requires NoTerminator(url) && NoTerminator(HostText(hostname)) && NoTerminator(key)
    ensures forall k :: 0 <= k < |RequestLines(url, hostname, key)| ==> NoTerminator(RequestLines(url, hostname, key)[k])
  {
    var ls := RequestLines(url, hostname, key);
    NoTerminatorConcat(HostPrefix, HostText(hostname));
    NoTerminatorConcat(OriginPrefix, url);
    NoTerminatorConcat(KeyPrefix, key);
    FixedLinesHaveNoTerminator();
    assert NoTerminator(ls[1]) && NoTerminator(ls[4]) && NoTerminator(ls[5]);
  }

  /** The lines of the template that substitute nothing. */
  lemma FixedLinesHaveNoTerminator()
    ensures NoTerminator(RequestLine) && NoTerminator("Upgrade: websocket")
    ensures NoTerminator("Connection: Upgrade") && NoTerminator("Sec-WebSocket-Version: 13")
  {
  }

  lemma NoTerminatorConcat(a: string, b: string)
    requires PrintableAscii(a) && NoTerminator(b)
    ensures NoTerminator(a + b)
  {
    forall k | 0 <= k < |a + b|
      ensures !IsTerminator((a + b)[k])
    {
      if k < |a| {
        assert (a + b)[k] == a[k];
      } else {
        assert (a + b)[k] == b[k - |a|];
      }
    }
  }

  /** The template is its lines joined with LF, built up one line at a time. */
  lemma TemplateIsUnlines(url: string, hostname: Option<string>, key: string)
    ensures RequestTemplate(url, hostname, key) == Unlines(RequestLines(url, hostname, key))
  {
    var ls := RequestLines(url, hostname, key);
    var host := HostText(hostname);
    var p1 := RequestLine;
    assert Unlines(ls[..1]) == p1;
    var p2 := p1 + "\n" + HostPrefix + host;
    assert ls[..2][..1] == ls[..1];
    assert Unlines(ls[..2]) == p2;
    var p3 := p2 + "\n" + "Upgrade: websocket";
    assert ls[..3][..2] == ls[..2];
    assert Unlines(ls[..3]) == p3;
    var p4 := p3 + "\n" + "Connection: Upgrade";
    assert ls[..4][..3] == ls[..3];
    assert Unlines(ls[..4]) == p4;
    var p5 := p4 + "\n" + OriginPrefix + url;
    assert ls[..5][..4] == ls[..4];
    assert Unlines(ls[..5]) == p5;
    var p6 := p5 + "\n" + KeyPrefix + key;
    assert ls[..6][..5] == ls[..5];
    assert Unlines(ls[..6]) == p6;
    var p7 := p6 + "\n" + "Sec-WebSocket-Version: 13";
    assert ls[..7][..6] == ls[..6];
    assert Unlines(ls[..7]) == p7;
    assert ls[..8][..7] == ls[..7];
    assert Unlines(ls[..8]) == p7 + "\n" + "";
    assert ls[..8] == ls[..|ls| - 1];
    assert Unlines(ls) == p7 + "\n" + "" + "\n" + "";
  }

  /** Reading the request back recovers each substituted value verbatim, and the version. */
  lemma RequestHeadersRoundTrip(url: string, hostname: Option<string>, key: string)
    requires NoTerminator(url) && NoTerminator(HostText(hostname)) && NoTerminator(key)
    ensures |HostText(hostname)| > 0 ==>
      FirstHeader(AssembleHandshake(url, hostname, key), HostPrefix) == Some(HostText(hostname))
    ensures |url| > 0 ==> FirstHeader(AssembleHandshake(url, hostname, key), OriginPrefix) == Some(url)
    ensures |key| > 0 ==> FirstHeader(AssembleHandshake(url, hostname, key), KeyPrefix) == Some(key)
    ensures FirstHeader(AssembleHandshake(url, hostname, key), VersionPrefix) == Some("13")
  {
    if |HostText(hostname)| > 0 {
      HostLineRoundTrip(url, hostname, key);
    }
    if |url| > 0 {
      OriginLineRoundTrip(url, hostname, key);
    }
    if |key| > 0 {
      KeyLineRoundTrip(url, hostname, key);
    }
    VersionLineRoundTrip(url, hostname, key);
  }

  /** The host line is the first that carries `Host: `. */
  lemma HostLineRoundTrip(url: string, hostname: Option<string>, key: string)
    requires |HostText(hostname)| > 0
    ensures FirstHeaderLine(RequestLines(url, hostname, key), HostPrefix) == Some(HostText(hostname))
  {
    var ls := RequestLines(url, hostname, key);
    assert !SameIgnoringCase(ls[0][0], HostPrefix[0]);
    assert ls[1][..|HostPrefix|] == HostPrefix && ls[1][|HostPrefix|..] == HostText(hostname);
    FirstHeaderLineAt(ls, HostPrefix, 1);
  }

  /** The lines before the origin line start with other letters than `Origin: `. */
  lemma OriginLineRoundTrip(url: string, hostname: Option<string>, key: string)
    requires |url| > 0
    ensures FirstHeaderLine(RequestLines(url, hostname, key), OriginPrefix) == Some(url)
  {
    var ls := RequestLines(url, hostname, key);
    assert !SameIgnoringCase(ls[0][0], OriginPrefix[0]) && !SameIgnoringCase(ls[1][0], OriginPrefix[0]);
    assert !SameIgnoringCase(ls[2][0], OriginPrefix[0]) && !SameIgnoringCase(ls[3][0], OriginPrefix[0]);
    assert ls[4][..|OriginPrefix|] == OriginPrefix && ls[4][|OriginPrefix|..] == url;
    FirstHeaderLineAt(ls, OriginPrefix, 4);
  }

  /** No line before the key line carries `Sec-WebSocket-Key: `. */
  lemma KeyLineRoundTrip(url: string, hostname: Option<string>, key: string)
    requires |key| > 0
    ensures FirstHeaderLine(RequestLines(url, hostname, key), KeyPrefix) == Some(key)
  {
    var ls := RequestLines(url, hostname, key);
    assert !SameIgnoringCase(ls[0][0], KeyPrefix[0]) && !SameIgnoringCase(ls[1][0], KeyPrefix[0]);
    assert !SameIgnoringCase(ls[2][0], KeyPrefix[0]) && !SameIgnoringCase(ls[3][0], KeyPrefix[0]);
    assert !SameIgnoringCase(ls[4][0], KeyPrefix[0]);
    assert ls[5][..|KeyPrefix|] == KeyPrefix && ls[5][|KeyPrefix|..] == key;
    FirstHeaderLineAt(ls, KeyPrefix, 5);
  }

  /** The key line shares `Sec-WebSocket-` with the version prefix and differs after it. */
  lemma VersionLineRoundTrip(url: string, hostname: Option<string>, key: string)
    ensures FirstHeaderLine(RequestLines(url, hostname, key), VersionPrefix) == Some("13")
  {
    var ls := RequestLines(url, hostname, key);
    assert !SameIgnoringCase(ls[0][0], VersionPrefix[0]) && !SameIgnoringCase(ls[1][0], VersionPrefix[0]);
    assert !SameIgnoringCase(ls[2][0], VersionPrefix[0]) && !SameIgnoringCase(ls[3][0], VersionPrefix[0]);
    assert !SameIgnoringCase(ls[4][0], VersionPrefix[0]) && !SameIgnoringCase(ls[5][14], VersionPrefix[14]);
    assert ls[6][|VersionPrefix|..] == "13";
    FirstHeaderLineAt(ls, VersionPrefix, 6);
  }

  // ---------------------------------------------------------------------------
  // getWSAccept
  // ---------------------------------------------------------------------------

  /** `getWSAccept`: group 1 of the first match of `^Sec-WebSocket-Accept: (.+)$` (flags
      `gmi`), or the thrown error when nothing matches. It agrees with reading the response
      line by line and taking the first line that carries the header with a non-empty value. */
  function GetWSAccept(response: string): (r: Result<string, ClientError>)
    ensures r.Success? <==> FirstHeader(response, AcceptPrefix).Some?
    ensures r.Success? ==> FirstHeader(response, AcceptPrefix) == Some(r.value)
    ensures r.Success? ==> |r.value| > 0 && NoTerminator(r.value)
    ensures r.Failure? ==> r.error == MissingAcceptHeader
  {
    assert PrintableAscii(AcceptPrefix);
    RegexAgreesWithLines(response, AcceptPrefix);
    match RegexExec(response, AcceptPrefix)
    case Some(accept) => Success(accept)
    case None => Failure(MissingAcceptHeader)
  }

  /** A typical `101` response: a status line that is not the header, then the header. */
  lemma AcceptAfterStatusLine(status: string, token: string, rest: string)
    requires NoTerminator(status) && LineHeader(status, AcceptPrefix).None?
    requires NoTerminator(token) && |token| > 0
    ensures GetWSAccept(status + "\r\n" + AcceptPrefix + token + "\r\n" + rest) == Success(token)
  {
    var line := AcceptPrefix + token;
    var t3 := "\n" + rest;
    var t2 := line + ['\r'] + t3;
    var t1 := [] + ['\n'] + t2;
    var response := status + "\r\n" + AcceptPrefix + token + "\r\n" + rest;
    assert response == status + ['\r'] + t1;
    assert FirstHeader(t2, AcceptPrefix) == Some(token) by {
      assert line[..|AcceptPrefix|] == AcceptPrefix;
      FirstHeaderCons(line, '\r', t3, AcceptPrefix);
    }
    assert FirstHeader(t1, AcceptPrefix) == Some(token) by {
      FirstHeaderCons([], '\n', t2, AcceptPrefix);
    }
    FirstHeaderCons(status, '\r', t1, AcceptPrefix);
  }

  /** A header line with nothing after the prefix never matches `.+`: the search goes on
      to the next line. */
  lemma EmptyAcceptLineIsSkipped(rest: string)
    ensures GetWSAccept(AcceptPrefix + "\n" + rest) == GetWSAccept(rest)
  {
    assert AcceptPrefix + "\n" + rest == AcceptPrefix + ['\n'] + rest;
    FirstHeaderCons(AcceptPrefix, '\n', rest, AcceptPrefix);
  }

  // ---------------------------------------------------------------------------
  // The accept token and validateDigest
  // ---------------------------------------------------------------------------

  /** The two library primitives the digest is built from. `sha1` hashes the UTF-8 bytes
      of its text argument, as `createHash('sha1').update(text)` does. */
  datatype Crypto = Crypto(sha1: string -> seq<bv8>, base64: seq<bv8> -> string)

  /** The text that is hashed: the key followed by the GUID. */
  function DigestInput(key: string): (t: string)
    ensures |t| == |key| + 36
    ensures t[..|key|] == key && t[|key|..] == GUID
  {
    key + GUID
  }

  /** The accept token the server must return for `key` (section 4.2.2 of RFC 6455): the
      base64 text of the SHA-1 digest of the key followed by the GUID. */
  function ExpectedAccept(c: Crypto, key: string): (r: string)
    ensures r == c.base64(c.sha1(key + GUID))
  {
    c.base64(c.sha1(DigestInput(key)))
  }

  /** The hashed text determines the key, so the token depends on the key and nothing else. */
  lemma DigestInputDeterminesKey(key1: string, key2: string)
    ensures DigestInput(key1) == DigestInput(key2) <==> key1 == key2
  {
    if DigestInput(key1) == DigestInput(key2) {
      assert key1 == DigestInput(key1)[..|key1|];
    }
  }

  /** The JavaScript values that meet in `!digest === accept`. */
  datatype JsValue = JsBool(b: bool) | JsString(s: string)

  /** ECMAScript ToBoolean: a string is truthy exactly when it is not empty. */
  function Truthy(v: JsValue): bool {
    match v
    case JsBool(b) => b
    case JsString(s) => |s| > 0
  }

  /** The `!` operator: always a boolean. */
  function Not(v: JsValue): (r: JsValue)
    ensures r.JsBool?
  {
    JsBool(!Truthy(v))
  }

  /** `===`: values of different types are never strictly equal. */
  function StrictEquals(a: JsValue, b: JsValue): (r: bool)
    ensures a.JsBool? != b.JsBool? ==> !r
  {
    a == b
  }

  /** `validateDigest` as written: `(!digest) === accept` compares a boolean with a string. */
  function ValidateDigestAsWritten(c: Crypto, key: string, response: string): (r: Outcome<ClientError>)
    ensures r.Fail? <==> FirstHeader(response, AcceptPrefix).None?
    ensures r.Fail? ==> r.error == MissingAcceptHeader
  {
    match GetWSAccept(response)
    case Failure(e) => Fail(e)
    case Success(accept) =>
      var digest := ExpectedAccept(c, key);
      if StrictEquals(Not(JsString(digest)), JsString(accept)) then Fail(DigestMismatch) else Pass
  }

  /** `validateDigest` with its comparison corrected to `digest !== accept`: fail unless the
      accept header is present and equal to the expected token. Section 4.1 of RFC 6455 also
      ignores leading and trailing whitespace around the value; this check, like the source,
      compares exactly. */
  function ValidateDigest(c: Crypto, key: string, response: string): (r: Outcome<ClientError>)
    ensures r.Pass? <==> FirstHeader(response, AcceptPrefix) == Some(ExpectedAccept(c, key))
    ensures FirstHeader(response, AcceptPrefix).None? ==> r == Fail(MissingAcceptHeader)
    ensures FirstHeader(response, AcceptPrefix).Some? && r.Fail? ==> r.error == DigestMismatch
  {
    match GetWSAccept(response)
    case Failure(e) => Fail(e)
    case Success(accept) => if accept != ExpectedAccept(c, key) then Fail(DigestMismatch) else Pass
  }

  /** A server that answers with the expected token after its status line passes the
      intended check, whatever follows the header. */
  lemma IntendedAcceptsExpectedToken(c: Crypto, key: string, status: string, rest: string)
    requires NoTerminator(status) && LineHeader(status, AcceptPrefix).None?
    requires NoTerminator(ExpectedAccept(c, key)) && |ExpectedAccept(c, key)| > 0
    ensures ValidateDigest(c, key, status + "\r\n" + AcceptPrefix + ExpectedAccept(c, key) + "\r\n" + rest) == Pass
  {
    AcceptAfterStatusLine(status, ExpectedAccept(c, key), rest);
  }

  /** The check as written lets every token through: a response whose token differs from
      the expected one passes it, while the intended check rejects it. */
  lemma AsWrittenAcceptsMismatch(c: Crypto, key: string, response: string)
    requires FirstHeader(response, AcceptPrefix).Some?
    requires FirstHeader(response, AcceptPrefix).value != ExpectedAccept(c, key)
    ensures ValidateDigestAsWritten(c, key, response) == Pass
    ensures ValidateDigest(c, key, response) == Fail(DigestMismatch)
  {
  }

  /** Where the accept header is present, the check as written and the intended check agree
      exactly on the responses that carry the expected token. */
  lemma AsWrittenAgreesOnlyOnCorrectTokens(c: Crypto, key: string, response: string)
    requires FirstHeader(response, AcceptPrefix).Some?
    ensures ValidateDigestAsWritten(c, key, response) == ValidateDigest(c, key, response)
        <==> FirstHeader(response, AcceptPrefix).value == ExpectedAccept(c, key)
  {
  }

  // The concrete instance below. Its literals are parameters fixed by `requires` only to keep
  // them out of the solver's context except where a proof step needs them.

  /** The status line of a `101` response is one line and does not carry the accept header. */
  lemma SwitchingProtocolsLine(status: string)
    requires status == "HTTP/1.1 101 Switching Protocols"
    ensures NoTerminator(status) && LineHeader(status, AcceptPrefix).None?
  {
    assert !SameIgnoringCase(status[0], AcceptPrefix[0]);
  }

  /** The reply of the concrete instance below carries `token` as its accept value. */
  lemma SampleReplyCarriesToken(status: string, token: string)
    requires status == "HTTP/1.1 101 Switching Protocols"
    requires token == "AAAA"
    ensures FirstHeader(status + "\r\n" + AcceptPrefix + token + "\r\n" + "\r\n", AcceptPrefix) == Some(token)
  {
    SwitchingProtocolsLine(status);
    assert NoTerminator(token) && |token| > 0;
    AcceptAfterStatusLine(status, token, "\r\n");
  }

  /** A concrete instance: the key of section 1.3 of RFC 6455, a hash stand-in that yields
      that section's token, and a server that answers `AAAA` instead. The check as written
      lets the reply through. */
  lemma AsWrittenAcceptsWrongToken(status: string, key: string, expected: string, token: string)
    requires status == "HTTP/1.1 101 Switching Protocols"
    requires key == "dGhlIHNhbXBsZSBub25jZQ=="
    requires expected == "s3pPLMBiTxaQ9kYGzzhZRbK+xOo="
    requires token == "AAAA"
    ensures
      var c := Crypto(_ => [], _ => expected);
      var response := status + "\r\n" + AcceptPrefix + token + "\r\n" + "\r\n";
      ValidateDigestAsWritten(c, key, response) == Pass
  {
    SampleReplyCarriesToken(status, token);
  }

  /** The same instance under the intended check: the wrong token is rejected. */
  lemma IntendedRejectsWrongToken(status: string, key: string, expected: string, token: string)
    requires status == "HTTP/1.1 101 Switching Protocols"
    requires key == "dGhlIHNhbXBsZSBub25jZQ=="
    requires expected == "s3pPLMBiTxaQ9kYGzzhZRbK+xOo="
    requires token == "AAAA"
    ensures
      var c := Crypto(_ => [], _ => expected);
      var response := status + "\r\n" + AcceptPrefix + token + "\r\n" + "\r\n";
      ValidateDigest(c, key, response) == Fail(DigestMismatch)
  {
    var c := Crypto(_ => [], _ => expected);
    SampleReplyCarriesToken(status, token);
    assert ExpectedAccept(c, key) == expected;
    assert expected != token by {
      assert expected[0] != token[0];
    }
  }
}
