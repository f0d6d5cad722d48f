# tiny-proxy core in Dafny

A model of `tiny-proxy-core`, an HTTP forward proxy library. One call of
`Proxy::run` serves one client connection:

1. It frames the request head. `read_header` reads the client stream into
   a 32 KiB buffer until a blank line ends the head.
2. It parses the head with `httparse`.
3. If users are configured, it checks the Basic credential in the first
   `Proxy-Authorization` header (`auth`).
4. It routes the request:
   - CONNECT opens a tunnel to the request target (default port 443).
   - Any other method is forwarded to the first `Host` header (default
     port 80). The head is re-serialised without the credential, and the
     body bytes already read follow it (`write_http`).
5. It connects outbound through `connect`: the target is resolved, and
   the attempts run in a fixed order. First IPv6 targets from the IPv6
   source address, then IPv4 targets from the IPv4 source address, then
   IPv4 targets unbound.

Most refusals get a fixed response: 400, 407 or 500. Two get no reply at all: a failed read while framing, and a head that httparse rejects.

Modules, one per file:

| file | module | models |
|---|---|---|
| base.dfy | `Base` | bytes, `Option`/`Result`, the crate's `Error` enum, UTF-8 encoding of `str`, ASCII case folding, `split_once`/`splitn(2, ..)` |
| config.dfy | `Config` | `User`, `Proxy` and its builder methods |
| auth.dfy | `Authorization` | `util::auth` |
| framing.dfy | `Framing` | `util::read_header` over a client `Reader` (a class) and an `array<byte>` buffer, plus the unit tests of `util.rs` |
| connector.dfy | `Connector` | `Proxy::connect` and `Proxy::connect_with_timeout` |
| forward.dfy | `Forward` | `Proxy::write_http` |
| pipeline.dfy | `Pipeline` | `Proxy::run` up to the relay, and the fixed responses of `util.rs` |

Code that works step by step is modelled as imperative Dafny, and each
such method is proved against a reference function:

- `ReadHeader` is a loop over the buffer, checked against `HeadEnd` and `Expected`.
- `WriteHttp` appends to its output, checked against `Request`.
- `Partition`, `TryEach` and `TryPlan` are loops, checked against
  `Ipv4s`/`Ipv6s`, `Outcome` and `Staged`.
- `Connect` has no loop of its own. It splits the target, resolves it and
  calls `TryPlan`, and it is checked against `ConnectSpec`.

The decision logic of `run` is the pure function `Pipeline.Run`. Its
`Session` result records four things:

- the bytes written to the client;
- the target handed to the connector;
- the bytes written to the destination;
- either the connection the relay starts on, or the error `run` returns.

Foreign code is passed in as function-typed values:

- `Codecs`: base64, strict UTF-8 and lossy UTF-8.
- `parse`: httparse.
- `Network`: the resolver, each socket attempt, and whether the connect
  deadline expires.

Read sizes are left open. `Reader.Read` may hand over any non-zero number
of the remaining bytes, so every property of `ReadHeader` holds however
the bytes arrive.

## Model

| member | source | states |
|---|---|---|
| Base.ByteString | tiny-proxy-core/src/util.rs:7 | a byte-string literal has one byte per character, each equal to the character's code |
| Base.EncodeChar | tiny-proxy-core/src/lib.rs:227 | a character is 1 to 4 bytes; exactly ASCII characters are one byte equal to their code; every byte of a multi-byte encoding is >= 0x80 |
| Base.Utf8Append | tiny-proxy-core/src/lib.rs:227 | the bytes of a concatenation are the concatenated bytes (`format!` then `as_bytes`) |
| Base.Utf8OfAscii | tiny-proxy-core/src/lib.rs:235 | an ASCII name is written one byte per character, byte = code |
| Base.Utf8AsciiByte | tiny-proxy-core/src/lib.rs:235 | an ASCII byte occurs in the UTF-8 form of a string iff that character occurs in the string |
| Base.LowerAscii | tiny-proxy-core/src/lib.rs:92 | lower-casing keeps the length and folds each character on its own |
| Base.UpperAscii | tiny-proxy-core/src/lib.rs:104 | upper-casing keeps the length and folds each character on its own |
| Base.Decimal | tiny-proxy-core/src/lib.rs:227 | `{version}` prints as decimal digits that denote the version, with no leading zero; a version below 10 is its single digit |
| Base.DecimalOfDigits | tiny-proxy-core/src/lib.rs:227 | the other direction of the round trip: digits without a leading zero are exactly what `Decimal` prints for the number they denote |
| Base.SplitOnce | tiny-proxy-core/src/util.rs:27 | None iff the separator is absent; otherwise the string is before + separator + after, and the separator is not in before |
| Base.SplitFirst | tiny-proxy-core/src/util.rs:35-37 | the first piece never holds the separator; with a separator, the pieces rejoin to the input; without one, the input and the default |
| Base.SplitOnceJoin | tiny-proxy-core/src/util.rs:35-37 | splitting before + sep + after (sep not in before) gives back exactly (before, after), so later separators stay in the second piece |
| Config.Proxy.Default | tiny-proxy-core/src/lib.rs:22-29 | the derived default has no users, no bind addresses, nodelay off and no connect timeout |
| Config.Proxy.AddUser | tiny-proxy-core/src/lib.rs:32-38 | one user is appended after the existing users, and every other field is unchanged |
| Config.Proxy.SetBindIpv4 | tiny-proxy-core/src/lib.rs:40-43 | sets the IPv4 source, and every other field is unchanged |
| Config.Proxy.SetBindIpv6 | tiny-proxy-core/src/lib.rs:45-48 | sets the IPv6 source, and every other field is unchanged |
| Config.Proxy.SetNodelay | tiny-proxy-core/src/lib.rs:49-52 | sets nodelay, and every other field is unchanged |
| Authorization.TrimStart | tiny-proxy-core/src/util.rs:27 | the result is a suffix; everything dropped is white space; it does not start with white space |
| Authorization.TrimEnd | tiny-proxy-core/src/util.rs:27 | the result is a prefix; everything dropped is white space; it does not end with white space |
| Authorization.DecodeCredentials | tiny-proxy-core/src/util.rs:27-37 | no space after trimming means no credential; a decoded login never contains `:` |
| Authorization.AnyUserMatches | tiny-proxy-core/src/util.rs:38 | true iff some user has exactly that login and password |
| Authorization.Auth | tiny-proxy-core/src/util.rs:26-41 | Some iff the header holds a decodable Basic credential; then true iff a configured user has exactly the decoded login and password |
| Authorization.BasicPayload | tiny-proxy-core/src/util.rs:27-29 | "Basic " + payload survives trimming and splits into ("Basic", payload) |
| Authorization.CredentialRoundTrip | tiny-proxy-core/src/util.rs:27-37 | encoding login:pass (login without `:`) and decoding it gives back (login, pass), extra colons included |
| Authorization.CredentialWithoutColon | tiny-proxy-core/src/util.rs:35-37 | text without `:` decodes to (text, "") |
| Authorization.DecodedCredentialsOrigin | tiny-proxy-core/src/util.rs:27-37 | every decoded pair comes from "Basic " + a payload that decodes to login:pass, or to the login alone with an empty password |
| Authorization.OtherSchemeRejected | tiny-proxy-core/src/util.rs:29-31 | any scheme other than exactly `Basic` gives None |
| Authorization.BadBase64Rejected | tiny-proxy-core/src/util.rs:32 | a payload that is not base64 gives None |
| Authorization.BadUtf8Rejected | tiny-proxy-core/src/util.rs:33 | decoded bytes that are not UTF-8 give None |
| Authorization.DimaAccepted | tiny-proxy/src/main.rs:5 | the configured user dima/qwe123 is accepted with its own credential |
| Authorization.DimaWrongPassword | tiny-proxy-core/src/util.rs:38-40 | a well-formed credential with a wrong password gives Some(false) |
| Authorization.DigestRejected | tiny-proxy-core/src/util.rs:29-31 | "Digest abc" gives None for any users |
| Authorization.AddedUserAuthorized | tiny-proxy-core/src/lib.rs:32-38 | a user added with `add_user` passes `auth` with their own credential |
| Framing.FindTerminator | tiny-proxy-core/src/util.rs:63-78 | returns the first terminator at or after `from`, and None only when there is none |
| Framing.HeadEndMeaning | tiny-proxy-core/src/util.rs:63-78 | `HeadEnd` is Some(h) iff h is just past the first terminator; None iff there is no terminator |
| Framing.NoTerminatorNoHead | tiny-proxy-core/src/util.rs:49-54 | with no terminator there is no head end |
| Framing.NoTerminatorExtends | tiny-proxy-core/src/util.rs:56-57 | appending bytes keeps the already scanned positions free of terminators |
| Framing.HeadEndStable | tiny-proxy-core/src/util.rs:67-71 | bytes read past the head never move where the head ends |
| Framing.ScanFromOldLength | tiny-proxy-core/src/util.rs:56-63 | a scan that starts at max(2, old length) finds the same terminator as a scan from 2, even one that straddles two reads |
| Framing.SkipNonTerminators | tiny-proxy-core/src/util.rs:63-78 | positions that hold no terminator can be skipped |
| Framing.CrlfLinesNoTerminator | tiny-proxy-core/src/util.rs:63-78 | head lines each ended by CRLF hold no terminator |
| Framing.WellFormedHeadEnd | tiny-proxy-core/src/util.rs:63-78 | lines + CRLF + body has its head end just past the blank line, whatever the body |
| Framing.NoLineFeedNoHead | tiny-proxy-core/src/util.rs:63-78 | bytes without LF after terminator-free bytes make no head end |
| Framing.Reader.constructor | tiny-proxy-core/src/util.rs:43-46 | a client stream holding the given bytes and ending in end-of-stream or a failed read |
| Framing.Reader.Read | tiny-proxy-core/src/util.rs:52 | hands over the next 0 < n bytes into `buf[from..]` and changes nothing else; at the end, Ok(0) or Err(IO) |
| Framing.ReadHeader | tiny-proxy-core/src/util.rs:43-80 | the bytes read are a prefix of the stream; Ok((h, n)) iff `HeadEnd` of those n bytes is h; BufferOverflow iff the buffer filled without one; IncorrectRequest or IO only at the end of the stream |
| Framing.ScanNewBytes | tiny-proxy-core/src/util.rs:60-78 | the scan from `idx` finds exactly `HeadEnd` of the filled bytes, or reports that no terminator exists |
| Framing.ReadHeaderOutcome | tiny-proxy-core/src/util.rs:43-80 | however the bytes arrive, `ReadHeader`'s answer is `Expected` of the stream, the buffer size and how the stream ends |
| Framing.SampleLines | tiny-proxy-core/src/util.rs:106 | the test's two lines are head lines, 41 bytes with their CRLFs |
| Framing.ExampleHeadOnly | tiny-proxy-core/src/util.rs:104-111 | the sample head in a buffer of its own size gives Ok((43, 43)) |
| Framing.ExampleHeadWithBody | tiny-proxy-core/src/util.rs:112-119 | with "data" after it, the head still ends at 43 |
| Framing.ExampleLineOnly | tiny-proxy-core/src/util.rs:87-102 | a lone request line gives BufferOverflow |
| Framing.ExampleBrokenBlankLine | tiny-proxy-core/src/util.rs:131-141 | a blank line cut short (CR without LF) gives BufferOverflow |
| Framing.ExampleEmpty | tiny-proxy-core/src/util.rs:120-130 | an empty stream gives IncorrectRequest |
| Connector.HostPort | tiny-proxy-core/src/lib.rs:168-171 | the name holds no `:`; with a `:` the pieces rejoin to the target; without one, the target and the default port |
| Connector.LookupNameOfTarget | tiny-proxy-core/src/lib.rs:168-176 | a target that holds `:` is resolved exactly as given; otherwise `:` and the default port are appended |
| Connector.Ipv4s | tiny-proxy-core/src/lib.rs:176-182 | every kept address is IPv4 and was resolved |
| Connector.Ipv6s | tiny-proxy-core/src/lib.rs:176-182 | every kept address is IPv6 and was resolved |
| Connector.PartitionIsPermutation | tiny-proxy-core/src/lib.rs:173-182 | the two lists together are a permutation of the resolver's answer |
| Connector.PartitionKeepsOrder | tiny-proxy-core/src/lib.rs:173-182 | the split distributes over concatenation, so each family keeps resolver order |
| Connector.Partition | tiny-proxy-core/src/lib.rs:173-182 | the loop yields exactly `Ipv4s` and `Ipv6s` of the answer |
| Connector.Attempts | tiny-proxy-core/src/lib.rs:185-193 | one attempt per target, in order, all from the given source |
| Connector.PlanFamilies | tiny-proxy-core/src/lib.rs:184-213 | every attempt targets a resolved address; IPv6 targets are tried only from the configured IPv6 source, IPv4 targets only from the IPv4 source or unbound |
| Connector.PlanLength | tiny-proxy-core/src/lib.rs:184-213 | the number of attempts per configuration |
| Connector.BoundBeforeUnbound | tiny-proxy-core/src/lib.rs:196-213 | with an IPv4 source, every bound attempt comes before every unbound attempt |
| Connector.Outcome | tiny-proxy-core/src/lib.rs:185-214 | running a plan fails only with IO or DistConnect |
| Connector.OutcomeInPlan | tiny-proxy-core/src/lib.rs:190-191 | an established connection is one of the planned attempts |
| Connector.OutcomeDecidedAt | tiny-proxy-core/src/lib.rs:185-214 | the first attempt that is not refused decides: its connection, or IO if its socket failed |
| Connector.OutcomeDistConnect | tiny-proxy-core/src/lib.rs:214 | DistConnect iff every planned connect is refused |
| Connector.OutcomeAppend | tiny-proxy-core/src/lib.rs:184-214 | a later loop runs only when every connect of the earlier ones was refused, with the attempt count carried on |
| Connector.ConnectSpec | tiny-proxy-core/src/lib.rs:163-215 | connect fails only with IO or DistConnect |
| Connector.ConnectWithTimeout | tiny-proxy-core/src/lib.rs:152-161 | Timeout iff a timeout is set and the deadline passes; in every other case, with or without a timeout, the result is `connect`'s own |
| Connector.ConnectErrors | tiny-proxy-core/src/lib.rs:170 | the connector's errors are IO, DistConnect and Timeout; IncorrectHost never arises |
| Connector.ConnectedToResolved | tiny-proxy-core/src/lib.rs:163-215 | an established connection goes to an address the target's name resolved to, from a source of the same family |
| Connector.Ipv6NeedsSource | tiny-proxy-core/src/lib.rs:184-214 | without an IPv6 source, an IPv6-only name is not attempted and gives DistConnect |
| Connector.SetBindIpv6Plan | tiny-proxy-core/src/lib.rs:45-48 | setting an IPv6 source puts the bound IPv6 attempts in front of the previous plan, which is otherwise unchanged |
| Connector.TryEach | tiny-proxy-core/src/lib.rs:185-193 | one attempt loop: None iff every connect was refused, else the plan's outcome |
| Connector.PlanStages | tiny-proxy-core/src/lib.rs:184-214 | running the plan as one list equals running its three loops in turn |
| Connector.TryPlan | tiny-proxy-core/src/lib.rs:173-214 | the three loops return the staged outcome of the plan |
| Connector.Connect | tiny-proxy-core/src/lib.rs:163-215 | the method returns exactly `ConnectSpec` |
| Forward.Kept | tiny-proxy-core/src/lib.rs:230-233 | no kept header is `Proxy-Authorization`; each kept header comes from the input |
| Forward.WriteHttp | tiny-proxy-core/src/lib.rs:217-249 | the bytes written are exactly `Request`: the request line, the kept headers in order, CRLF, then the body |
| Forward.KeptAppend | tiny-proxy-core/src/lib.rs:230-239 | filtering distributes over concatenation, so the original order is kept |
| Forward.KeptExactly | tiny-proxy-core/src/lib.rs:230-239 | a header is forwarded iff it is in the request and is not `Proxy-Authorization`, name and value unchanged |
| Forward.KeptAll | tiny-proxy-core/src/lib.rs:230-239 | without a `Proxy-Authorization` header every header is forwarded |
| Forward.RequestFraming | tiny-proxy-core/src/lib.rs:226-245 | the request starts with the request line and ends with CRLF followed by the whole body |
| Forward.HeaderLineIsHeadLine | tiny-proxy-core/src/lib.rs:235-238 | a header with an ASCII name and a value without CR or LF is written as one head line |
| Forward.LineTexts | tiny-proxy-core/src/lib.rs:235-237 | one line per header: name, `: `, value |
| Forward.HeaderLinesAsLines | tiny-proxy-core/src/lib.rs:230-239 | the header section is those lines, each ended by CRLF |
| Forward.HeaderLinesAreHeadLines | tiny-proxy-core/src/lib.rs:230-239 | for headers with ASCII names and no CR or LF, each forwarded header line is a head line, and the header section is those lines each ended by CRLF |
| Forward.KeptOneLine | tiny-proxy-core/src/lib.rs:230-233 | the headers that are forwarded are as free of line breaks as the received ones |
| Forward.RequestLineIsHeadLine | tiny-proxy-core/src/lib.rs:227 | with no line break in method and path, the request line is one head line followed by CRLF |
| Forward.RequestAsLines | tiny-proxy-core/src/lib.rs:226-245 | the forwarded request is head lines (the request line, then the kept headers), each ended by CRLF, then the blank line and the body |
| Forward.ForwardedHeadEnd | tiny-proxy-core/src/lib.rs:226-245 | when method, path and headers hold no line break, a receiver that frames the forwarded request as `read_header` does finds the head ending exactly before the body |
| Pipeline.Find | tiny-proxy-core/src/lib.rs:115-120 | None iff no header has that name, ignoring case; otherwise the index of the first such header |
| Pipeline.ProxyAuthorization | tiny-proxy-core/src/lib.rs:88-95 | None without a `Proxy-Authorization` header. With one, the first such header decides: Some iff its lossily decoded value is a decodable Basic credential, and true iff that credential is a configured user's login and password |
| Pipeline.CredentialPassesGate | tiny-proxy-core/src/lib.rs:88-97 | a configured user's credential in the first `Proxy-Authorization` header gives Some(true) |
| Pipeline.Route | tiny-proxy-core/src/lib.rs:81-145 | after a complete parse, the session is `Coherent` |
| Pipeline.Run | tiny-proxy-core/src/lib.rs:54-147 | every session is `Coherent`: a destination gets bytes only after a successful connect; the relay starts only on the connector's connection; 400, 407, 500 and silence each go with their own errors |
| Pipeline.FramingFailure | tiny-proxy-core/src/lib.rs:61-72 | a framing error is answered with 400 iff it is not IO, nothing is dialed, and the error is returned |
| Pipeline.MalformedHeadSilent | tiny-proxy-core/src/lib.rs:76 | a head httparse rejects gets no reply and returns HttParse |
| Pipeline.IncompleteHeadRejected | tiny-proxy-core/src/lib.rs:76-84 | a partial head, or one missing method, path or version, gets 400 and IncorrectRequest |
| Pipeline.AuthenticationGate | tiny-proxy-core/src/lib.rs:87-102 | with users, a missing, malformed or unknown credential gets 407, AuthenticationRequired and no connect |
| Pipeline.DialedOnlyWhenAuthorized | tiny-proxy-core/src/lib.rs:87-105 | a connect happens only when no users are set, or the first credential decodes to a configured user |
| Pipeline.RouteDialedOnlyWhenAuthorized | tiny-proxy-core/src/lib.rs:87-126 | the same gate for a completely parsed head |
| Pipeline.AuthorizedCredentialAdmitted | tiny-proxy-core/src/lib.rs:87-126 | a configured user's credential is never challenged, and a CONNECT request or one with a Host header is then dialed |
| Pipeline.OpenProxyNeverChallenges | tiny-proxy-core/src/lib.rs:87 | with no users, no 407 and no AuthenticationRequired |
| Pipeline.ConnectTunnel | tiny-proxy-core/src/lib.rs:104-113 | CONNECT in any letter case dials the path with port 443; 200 on success, 500 and the connector's error otherwise; nothing to the destination |
| Pipeline.PlainForward | tiny-proxy-core/src/lib.rs:114-145 | any other method dials the first Host value with port 80; on success the destination gets `Request` with the body read past the head |
| Pipeline.MissingHostRejected | tiny-proxy-core/src/lib.rs:115-124 | no Host header gets 400 and NotFoundHeaderHost, with no connect |
| Pipeline.RouteForwarded | tiny-proxy-core/src/lib.rs:134-142 | anything sent to a destination is the re-written request of the parsed head |
| Pipeline.NoCredentialForwarded | tiny-proxy-core/src/lib.rs:134-142 | a destination receives only a completely parsed head with its method, path and version, re-written as its request line, then the lines of `Kept` of its headers (none of them `Proxy-Authorization`), CRLF, and the bytes read past the head |
| Pipeline.Handle | tiny-proxy-core/src/lib.rs:54-61 | framing over a 32 KiB buffer gives `Expected` of the client's bytes, and the session is `Run` over the bytes read |

## Left out

- Writes to the client and the destination are taken to succeed. `write_all` and `flush` errors, which `run` turns into IO, are not modelled.
- The relay `copy_bidirectional` and its errors are not modelled. A session ends where the relay would start.
- DNS, socket creation and binding, connect, and the deadline are oracles in `Network`. The deadline is only the `expired` flag, so durations are not modelled.
- httparse is the `parse` oracle, including its limit of 32 headers and its token rules.
- base64, `String::from_utf8` and `String::from_utf8_lossy` are oracles in `Codecs`.
- `nodelay` is stored but never read by the core, so no behaviour depends on it.
- The payloads and messages of `Error` variants are not modelled.
- `tiny-proxy/src/main.rs` (the listener loop) is not part of this model. Only its user dima/qwe123 appears, as an example.
- Base.LowerAscii: `to_lowercase` folds only ASCII letters here. httparse only yields ASCII tokens for header names, so nothing changes for parsed input.
- Base.UpperAscii: `to_uppercase` folds only ASCII letters here. httparse only yields ASCII tokens for methods, so nothing changes for parsed input.
- Framing.Reader.Read: how many bytes a read hands over is nondeterministic, not a particular transport's behaviour.
- Framing.ReadHeader: it does not state that `buf[filled..]` is unchanged, because no caller reads those bytes.
- Config.Proxy.AddUser: the builders take the record by value and return it, so they are record updates rather than in-place updates.
- Pipeline.Run: it does not model `Unknown`, and does not model IncorrectHost beyond showing that it never arises.
