/**
 * `Proxy::run`: one client connection from its first byte to the start of
 * the relay. The head is framed by `read_header`, parsed by `httparse`
 * (foreign, passed in as `parse`), checked against the configured users,
 * and routed: a CONNECT request opens a tunnel to its target (port 443 by
 * default), any other request is forwarded to its `Host` (port 80 by
 * default) with the credentials removed. Every refusal answers the client
 * with a fixed response and ends the connection with an error.
 *
 * A run is summed up as a `Session`: the bytes written to the client, the
 * target handed to the connector (if any), the bytes written to the
 * destination, and how `run` leaves the pre-relay phase.
 */
module Pipeline {

  import opened Base
  import opened Config
  import opened Authorization
  import opened Framing
  import opened Connector
  import opened Forward

  /** The size of the head buffer `run` allocates on its stack. */
  const HeaderBufferSize: nat := 32 * 1024

  // ---------------------------------------------------------------------
  // The fixed responses

  /** `write_400`. */
  const BadRequest: seq<byte> := ByteString("HTTP/1.1 400 Bad Request\r\n\r\n")

  /** `write_500`. */
  const InternalError: seq<byte> := ByteString("HTTP/1.1 500 Internal\r\n\r\n")

  /** `write_200_established`. */
  const Established: seq<byte> := ByteString("HTTP/1.1 200 Connection established\r\n\r\n")

  /** The challenge `run` writes when authentication fails (section 4.3 of RFC 7235). */
  const AuthRequired: seq<byte> :=
    ByteString("HTTP/1.1 407 Proxy Authentication Required\r\n") + ByteString("Proxy-Authenticate: Basic\r\n\r\n")

  // ---------------------------------------------------------------------
  // What httparse reports

  /** The fields of a completely parsed request head; httparse leaves a
      field unset when the head did not carry it. */
  datatype Head = Head(
    verb: Option<string>,
    path: Option<string>,
    version: Option<Version>,
    headers: seq<Header>)

  /** `Request::parse`: an error, `Status::Partial`, or `Status::Complete`. */
  datatype ParseResult = Malformed | Partial | Complete(head: Head)

  // ---------------------------------------------------------------------
  // Looking up headers

  /** `headers.iter().find(|h| h.name.to_lowercase() == name)`: the index
      of the first header with that name, ignoring case. */
  function Find(headers: seq<Header>, name: string): (r: Option<nat>)
    ensures r.None? <==> forall i | 0 <= i < |headers| :: LowerAscii(headers[i].name) != name
    ensures r.Some? ==> r.value < |headers| && LowerAscii(headers[r.value].name) == name
    ensures r.Some? ==> forall j | 0 <= j < r.value :: LowerAscii(headers[j].name) != name
  {
    if headers == [] then None
    else if LowerAscii(headers[0].name) == name then Some(0)
    else match Find(headers[1..], name)
      case None => None
      case Some(i) => Some(i + 1)
  }

  /** Lines 87-95 of `run`: the verdict of `auth` on the lossily decoded
      value of the first `Proxy-Authorization` header, None without one. */
  function ProxyAuthorization(users: seq<User>, headers: seq<Header>, codecs: Codecs): (r: Option<bool>)
    ensures Find(headers, "proxy-authorization").None? ==> r == None
    ensures Find(headers, "proxy-authorization").Some? ==>
      var value := headers[Find(headers, "proxy-authorization").value].value;
      && (r.Some? <==> DecodeCredentials(codecs.lossy(value), codecs).Some?)
      && (r == Some(true) <==>
            exists u | u in users :: DecodeCredentials(codecs.lossy(value), codecs) == Some((u.login, u.pass)))
  {
    match Find(headers, "proxy-authorization")
    case None => None
    case Some(i) => Auth(users, codecs.lossy(headers[i].value), codecs)
  }

  // ---------------------------------------------------------------------
  // The session

  /** The observable effects of one run up to the relay: the bytes written
      to the client, the (target, default port) handed to
      `connect_with_timeout`, the bytes written to the destination, and
      either the connection the relay starts on or the error `run` returns. */
  datatype Session = Session(
    toClient: seq<byte>,
    dialed: Option<(string, string)>,
    toDest: seq<byte>,
    exit: Result<Attempt, Error>)

  /** The shape every session has: a destination is written to only after a
      successful connect; the relay starts only on the connector's
      connection; each error goes with its own response. */
  predicate Coherent(p: Proxy, net: Network, s: Session)
  {
    && (s.dialed.None? ==> s.exit.Err? && s.toDest == [])
    && (s.dialed.Some? ==> s.exit == ConnectWithTimeout(p, s.dialed.value.0, s.dialed.value.1, net))
    && (s.dialed.Some? && s.exit.Err? ==> s.toClient == InternalError && s.toDest == [])
    && (s.exit.Ok? ==> (s.toClient == Established && s.toDest == []) || s.toClient == [])
    && (s.dialed.None? ==>
          && (s.toClient == BadRequest <==>
                s.exit.error in {ReadHeaderIncorrectRequest, ReadHeaderBufferOverflow, NotFoundHeaderHost})
          && (s.toClient == AuthRequired <==> s.exit.error == AuthenticationRequired)
          && (s.toClient == [] <==> s.exit.error in {IO, HttParse}))
  }

  /** A refusal before any connect. */
  function Refuse(p: Proxy, net: Network, reply: seq<byte>, e: Error): (s: Session)
    requires reply == BadRequest <==> e in {ReadHeaderIncorrectRequest, ReadHeaderBufferOverflow, NotFoundHeaderHost}
    requires reply == AuthRequired <==> e == AuthenticationRequired
    requires reply == [] <==> e in {IO, HttParse}
    ensures Coherent(p, net, s)
  {
    Session(reply, None, [], Err(e))
  }

  /** `connect_with_timeout(host, port)`, then `write_500` on failure or
      `reply` to the client and `forward` to the destination on success. */
  function Dialed(p: Proxy, host: string, port: string, net: Network, reply: seq<byte>, forward: seq<byte>): (s: Session)
    requires reply == [] || (reply == Established && forward == [])
    ensures Coherent(p, net, s)
  {
    match ConnectWithTimeout(p, host, port, net)
    case Err(e) => Session(InternalError, Some((host, port)), [], Err(e))
    case Ok(conn) => Session(reply, Some((host, port)), forward, Ok(conn))
  }

  lemma ResponsesDiffer()
    ensures |BadRequest| == 28 && |InternalError| == 25 && |Established| == 39 && |AuthRequired| == 73
  {
  }

  /** Lines 81-147 of `run`, after a complete parse; `body` is the part of
      the buffer read past the head. */
  function Route(p: Proxy, head: Head, body: seq<byte>, codecs: Codecs, net: Network): (s: Session)
    ensures Coherent(p, net, s)
  {
    ResponsesDiffer();
    if head.verb.None? || head.path.None? || head.version.None? then
      Refuse(p, net, BadRequest, ReadHeaderIncorrectRequest)
    else if p.users != [] && ProxyAuthorization(p.users, head.headers, codecs) != Some(true) then
      Refuse(p, net, AuthRequired, AuthenticationRequired)
    else if UpperAscii(head.verb.value) == "CONNECT" then
      Dialed(p, head.path.value, "443", net, Established, [])
    else match Find(head.headers, "host")
      case None => Refuse(p, net, BadRequest, NotFoundHeaderHost)
      case Some(i) =>
        var request := Request(head.verb.value, head.path.value, head.version.value, head.headers, body);
        Dialed(p, codecs.lossy(head.headers[i].value), "80", net, [], request)
  }

  /** What `read_header` can return over a buffer of `len` bytes: the head
      end within the bytes read, or one of its three errors. */
  predicate Framed(framed: Result<(nat, nat), Error>, len: nat)
  {
    match framed
    case Ok((h, n)) => h <= n <= len
    case Err(e) => e in {ReadHeaderBufferOverflow, ReadHeaderIncorrectRequest, IO}
  }

  /** `run` up to `copy_bidirectional`, given what `read_header` returned
      and the buffer it filled. Writes to the client and the destination
      are taken to succeed. */
  function Run(p: Proxy, framed: Result<(nat, nat), Error>, buf: seq<byte>,
               parse: seq<byte> -> ParseResult, codecs: Codecs, net: Network): (s: Session)
    requires Framed(framed, |buf|)
    ensures Coherent(p, net, s)
  {
    ResponsesDiffer();
    match framed
    case Err(e) =>
      Refuse(p, net, if e == ReadHeaderIncorrectRequest || e == ReadHeaderBufferOverflow then BadRequest else [], e)
    case Ok((h, n)) =>
      match parse(buf[..h])
      case Malformed => Refuse(p, net, [], HttParse)
      case Partial => Refuse(p, net, BadRequest, ReadHeaderIncorrectRequest)
      case Complete(head) => Route(p, head, buf[h..n], codecs, net)
  }

  // ---------------------------------------------------------------------
  // Properties of a run

  /** A framing failure is answered with 400 when the head was too long or
      cut short, and with nothing when the read itself failed; nothing is dialed. */
  lemma FramingFailure(p: Proxy, e: Error, buf: seq<byte>, parse: seq<byte> -> ParseResult, codecs: Codecs, net: Network)
    requires e in {ReadHeaderBufferOverflow, ReadHeaderIncorrectRequest, IO}
    ensures var s := Run(p, Err(e), buf, parse, codecs, net);
      && s.dialed == None && s.exit == Err(e)
      && (s.toClient == BadRequest <==> e != IO)
      && (e == IO ==> s.toClient == [])
  {
    ResponsesDiffer();
  }

  /** A head httparse rejects ends the run with HttParse and no reply. */
  lemma MalformedHeadSilent(p: Proxy, h: nat, n: nat, buf: seq<byte>, parse: seq<byte> -> ParseResult,
                            codecs: Codecs, net: Network)
    requires h <= n <= |buf| && parse(buf[..h]) == Malformed
    ensures Run(p, Ok((h, n)), buf, parse, codecs, net) == Session([], None, [], Err(HttParse))
  {
  }

  /** A partial head, or one without method, path or version, is refused
      with 400 before authentication. */
  lemma IncompleteHeadRejected(p: Proxy, h: nat, n: nat, buf: seq<byte>, parse: seq<byte> -> ParseResult,
                               codecs: Codecs, net: Network)
    requires h <= n <= |buf|
    requires parse(buf[..h]).Partial? ||
      (parse(buf[..h]).Complete? &&
        var head := parse(buf[..h]).head;
        head.verb.None? || head.path.None? || head.version.None?)
    ensures Run(p, Ok((h, n)), buf, parse, codecs, net) == Session(BadRequest, None, [], Err(ReadHeaderIncorrectRequest))
  {
  }

  /** The authentication gate: with users configured, a request whose first
      `Proxy-Authorization` header is missing, malformed or names no
      configured user gets the 407 challenge and reaches no destination. */
  lemma AuthenticationGate(p: Proxy, head: Head, body: seq<byte>, codecs: Codecs, net: Network)
    requires head.verb.Some? && head.path.Some? && head.version.Some?
    requires p.users != [] && ProxyAuthorization(p.users, head.headers, codecs) != Some(true)
    ensures Route(p, head, body, codecs, net) == Session(AuthRequired, None, [], Err(AuthenticationRequired))
  {
  }

  /** Whatever the request, a connect is attempted only when no users are
      configured or the request carries a configured user's credential. */
  lemma DialedOnlyWhenAuthorized(p: Proxy, framed: Result<(nat, nat), Error>, buf: seq<byte>,
                                 parse: seq<byte> -> ParseResult, codecs: Codecs, net: Network)
    requires Framed(framed, |buf|)
    ensures Run(p, framed, buf, parse, codecs, net).dialed.Some? ==>
      && framed.Ok?
      && parse(buf[..framed.value.0]).Complete?
      && var headers := parse(buf[..framed.value.0]).head.headers;
         (p.users == [] ||
          exists u | u in p.users ::
            && Find(headers, "proxy-authorization").Some?
            && DecodeCredentials(codecs.lossy(headers[Find(headers, "proxy-authorization").value].value), codecs)
               == Some((u.login, u.pass)))
  {
    if framed.Ok? && parse(buf[..framed.value.0]).Complete? {
      var (h, n) := framed.value;
      RouteDialedOnlyWhenAuthorized(p, parse(buf[..h]).head, buf[h..n], codecs, net);
    }
  }

  /** The gate of `DialedOnlyWhenAuthorized`, for a completely parsed head. */
  lemma RouteDialedOnlyWhenAuthorized(p: Proxy, head: Head, body: seq<byte>, codecs: Codecs, net: Network)
    ensures Route(p, head, body, codecs, net).dialed.Some? ==>
      (p.users == [] ||
       exists u | u in p.users ::
         && Find(head.headers, "proxy-authorization").Some?
         && DecodeCredentials(codecs.lossy(head.headers[Find(head.headers, "proxy-authorization").value].value), codecs)
            == Some((u.login, u.pass)))
  {
    if p.users != [] {
      var verdict := ProxyAuthorization(p.users, head.headers, codecs);
      if head.verb.Some? && head.path.Some? && head.version.Some? && verdict != Some(true) {
        AuthenticationGate(p, head, body, codecs, net);
      }
    }
  }

  /** With no users configured the proxy never challenges. */
  lemma OpenProxyNeverChallenges(p: Proxy, framed: Result<(nat, nat), Error>, buf: seq<byte>,
                                 parse: seq<byte> -> ParseResult, codecs: Codecs, net: Network)
    requires Framed(framed, |buf|)
    requires p.users == []
    ensures var s := Run(p, framed, buf, parse, codecs, net);
      s.toClient != AuthRequired && s.exit != Err(AuthenticationRequired)
  {
    ResponsesDiffer();
  }

  /** CONNECT (in any letter case) opens a tunnel to the request target with
      443 as the default port: 200 to the client and nothing to the
      destination on success, 500 and the connector's error otherwise. */
  lemma ConnectTunnel(p: Proxy, head: Head, body: seq<byte>, codecs: Codecs, net: Network)
    requires head.verb.Some? && head.path.Some? && head.version.Some?
    requires p.users == [] || ProxyAuthorization(p.users, head.headers, codecs) == Some(true)
    requires UpperAscii(head.verb.value) == "CONNECT"
    ensures var s := Route(p, head, body, codecs, net);
      && s.dialed == Some((head.path.value, "443"))
      && s.toDest == []
      && s.exit == ConnectWithTimeout(p, head.path.value, "443", net)
      && s.toClient == (if s.exit.Ok? then Established else InternalError)
  {
  }

  /** Any other method is sent to the first `Host` header's value with 80 as
      the default port; on success the destination receives the re-written
      head followed by the body bytes read with it, and the client nothing. */
  lemma PlainForward(p: Proxy, head: Head, body: seq<byte>, codecs: Codecs, net: Network)
    requires head.verb.Some? && head.path.Some? && head.version.Some?
    requires p.users == [] || ProxyAuthorization(p.users, head.headers, codecs) == Some(true)
    requires UpperAscii(head.verb.value) != "CONNECT"
    requires Find(head.headers, "host").Some?
    ensures var host := codecs.lossy(head.headers[Find(head.headers, "host").value].value);
      var s := Route(p, head, body, codecs, net);
      && s.dialed == Some((host, "80"))
      && s.exit == ConnectWithTimeout(p, host, "80", net)
      && (s.exit.Ok? ==>
            s.toClient == [] &&
            s.toDest == Request(head.verb.value, head.path.value, head.version.value, head.headers, body))
      && (s.exit.Err? ==> s.toClient == InternalError && s.toDest == [])
  {
  }

  /** A request that is not CONNECT and has no `Host` header gets 400. */
  lemma MissingHostRejected(p: Proxy, head: Head, body: seq<byte>, codecs: Codecs, net: Network)
    requires head.verb.Some? && head.path.Some? && head.version.Some?
    requires p.users == [] || ProxyAuthorization(p.users, head.headers, codecs) == Some(true)
    requires UpperAscii(head.verb.value) != "CONNECT"
    requires Find(head.headers, "host").None?
    ensures Route(p, head, body, codecs, net) == Session(BadRequest, None, [], Err(NotFoundHeaderHost))
  {
  }

  /** What a routed request sends to a destination, if anything: the
      re-written head and the body. */
  lemma RouteForwarded(p: Proxy, head: Head, body: seq<byte>, codecs: Codecs, net: Network)
    ensures var s := Route(p, head, body, codecs, net);
      s.toDest != [] ==>
        && head.verb.Some? && head.path.Some? && head.version.Some?
        && s.toDest == Request(head.verb.value, head.path.value, head.version.value, head.headers, body)
  {
    if head.verb.Some? && head.path.Some? && head.version.Some? {
      if p.users != [] && ProxyAuthorization(p.users, head.headers, codecs) != Some(true) {
        AuthenticationGate(p, head, body, codecs, net);
      } else if UpperAscii(head.verb.value) == "CONNECT" {
        ConnectTunnel(p, head, body, codecs, net);
      } else if Find(head.headers, "host").Some? {
        PlainForward(p, head, body, codecs, net);
      } else {
        MissingHostRejected(p, head, body, codecs, net);
      }
    }
  }

  /** The credentials stay at the proxy: whatever reaches a destination is
      the request line of the parsed head, the lines of its headers other
      than `Proxy-Authorization` in their original order, the blank line and
      the bytes read past the head. */
  lemma NoCredentialForwarded(p: Proxy, framed: Result<(nat, nat), Error>, buf: seq<byte>,
                              parse: seq<byte> -> ParseResult, codecs: Codecs, net: Network)
    requires Framed(framed, |buf|)
    ensures var s := Run(p, framed, buf, parse, codecs, net);
      s.toDest != [] ==>
        && framed.Ok?
        && parse(buf[..framed.value.0]).Complete?
        && var head := parse(buf[..framed.value.0]).head;
           && head.verb.Some? && head.path.Some? && head.version.Some?
           && s.toDest == RequestLine(head.verb.value, head.path.value, head.version.value)
                          + HeaderLines(Kept(head.headers)) + CRLF + buf[framed.value.0..framed.value.1]
           && (forall i | 0 <= i < |Kept(head.headers)| :: !IsProxyAuthorization(Kept(head.headers)[i].name))
  {
    var s := Run(p, framed, buf, parse, codecs, net);
    if s.toDest != [] {
      var (h, n) := framed.value;
      RouteForwarded(p, parse(buf[..h]).head, buf[h..n], codecs, net);
    }
  }

  /** A configured user's credential in the first `Proxy-Authorization`
      header makes the gate answer Some(true). */
  lemma CredentialPassesGate(users: seq<User>, headers: seq<Header>, codecs: Codecs, u: User)
    requires u in users && Find(headers, "proxy-authorization").Some?
    requires DecodeCredentials(codecs.lossy(headers[Find(headers, "proxy-authorization").value].value), codecs)
      == Some((u.login, u.pass))
    ensures ProxyAuthorization(users, headers, codecs) == Some(true)
  {
  }

  /** A request carrying a configured user's credential in its first
      `Proxy-Authorization` header passes the gate: it is not challenged,
      and it is dialed when it is CONNECT or names a host. */
  lemma AuthorizedCredentialAdmitted(p: Proxy, head: Head, body: seq<byte>, codecs: Codecs, net: Network, u: User)
    requires head.verb.Some? && head.path.Some? && head.version.Some?
    requires u in p.users && Find(head.headers, "proxy-authorization").Some?
    requires DecodeCredentials(codecs.lossy(head.headers[Find(head.headers, "proxy-authorization").value].value), codecs)
      == Some((u.login, u.pass))
    ensures var s := Route(p, head, body, codecs, net);
      && s.toClient != AuthRequired && s.exit != Err(AuthenticationRequired)
      && (UpperAscii(head.verb.value) == "CONNECT" || Find(head.headers, "host").Some? ==> s.dialed.Some?)
  {
    CredentialPassesGate(p.users, head.headers, codecs, u);
    ResponsesDiffer();
    if UpperAscii(head.verb.value) == "CONNECT" {
      ConnectTunnel(p, head, body, codecs, net);
      ConnectErrors(p, head.path.value, "443", net);
    } else if Find(head.headers, "host").Some? {
      PlainForward(p, head, body, codecs, net);
      ConnectErrors(p, codecs.lossy(head.headers[Find(head.headers, "host").value].value), "80", net);
    } else {
      MissingHostRejected(p, head, body, codecs, net);
    }
  }

  // ---------------------------------------------------------------------
  // The driver

  /** `run` from its buffer allocation to the relay: frame the head with
      `read_header` over a 32 KiB buffer, then decide as `Run` does. `read`
      is what was taken from the client; the framing verdict depends only
      on the client's bytes and how its stream ends, not on how they arrive. */
  method Handle(p: Proxy, client: Reader, parse: seq<byte> -> ParseResult, codecs: Codecs, net: Network)
    returns (s: Session, ghost framed: Result<(nat, nat), Error>, ghost read: seq<byte>)
    modifies client
    ensures old(client.data) == read + client.data && |read| <= HeaderBufferSize
    ensures framed.Ok? ==> framed.value.0 <= framed.value.1 == |read|
    ensures framed.Err? ==> framed.error in {ReadHeaderBufferOverflow, ReadHeaderIncorrectRequest, IO}
    ensures framed.Ok? ==> Expected(old(client.data), client.failing, HeaderBufferSize) == Ok(framed.value.0)
    ensures framed.Err? ==> Expected(old(client.data), client.failing, HeaderBufferSize) == Err(framed.error)
    ensures s == Run(p, framed, read, parse, codecs, net)
  {
    var buf := new byte[HeaderBufferSize];
    var r;
    ghost var filled;
    r, filled := ReadHeader(client, buf);
    ReadHeaderOutcome(old(client.data), client.failing, HeaderBufferSize, buf[..filled], client.data, r);
    framed := r;
    read := buf[..filled];
    var bytes := if r.Ok? then buf[..r.value.1] else [];
    s := Run(p, r, bytes, parse, codecs, net);
  }
}
