/**
 * `Proxy::write_http`: for a request that is not CONNECT, the proxy
 * re-serialises the parsed head towards the destination: the request line,
 * every header except `Proxy-Authorization` (in their original order),
 * the blank line, then whatever body bytes were already read with the head.
 * The destination stream is the output byte sequence.
 */
module Forward {

  import opened Base
  import opened Framing

  /** A parsed header: its name as text and its value as raw bytes. */
  datatype Header = Header(name: string, value: seq<byte>)

  /** The protocol minor version as `httparse` reports it (a `u8`). */
  type Version = v: nat | v < 256

  /** `h.name.to_lowercase() == "proxy-authorization"`. */
  predicate IsProxyAuthorization(name: string)
  {
    LowerAscii(name) == "proxy-authorization"
  }

  /** The headers that are forwarded, in their original order. */
  function Kept(headers: seq<Header>): (r: seq<Header>)
    ensures forall i | 0 <= i < |r| :: !IsProxyAuthorization(r[i].name) && r[i] in headers
    ensures |r| <= |headers|
  {
    if headers == [] then []
    else
      var last := headers[|headers| - 1];
      Kept(headers[..|headers| - 1]) + (if IsProxyAuthorization(last.name) then [] else [last])
  }

  /** `{method} {path} HTTP/1.{version}` followed by CRLF, as UTF-8. */
  function RequestLine(verb: string, path: string, version: Version): seq<byte>
  {
    Utf8(verb + " " + path + " HTTP/1." + Decimal(version) + "\r\n")
  }

  /** `name`, `: `, the value and CRLF. */
  function HeaderLine(h: Header): seq<byte>
  {
    Utf8(h.name) + Utf8(": ") + h.value + CRLF
  }

  function HeaderLines(headers: seq<Header>): seq<byte>
  {
    if headers == [] then []
    else HeaderLines(headers[..|headers| - 1]) + HeaderLine(headers[|headers| - 1])
  }

  lemma AppendPieces(x: seq<byte>, a: seq<byte>, b: seq<byte>, c: seq<byte>, d: seq<byte>)
    ensures x + a + b + c + d == x + (a + b + c + d)
  {
  }

  lemma KeptSnoc(headers: seq<Header>, h: Header)
    ensures Kept(headers + [h]) == Kept(headers) + (if IsProxyAuthorization(h.name) then [] else [h])
  {
    assert (headers + [h])[..|headers|] == headers;
  }

  lemma HeaderLinesSnoc(headers: seq<Header>, h: Header)
    ensures HeaderLines(headers + [h]) == HeaderLines(headers) + HeaderLine(h)
  {
    assert (headers + [h])[..|headers|] == headers;
  }

  lemma TakeOneMore(headers: seq<Header>, i: nat)
    requires i < |headers|
    ensures headers[..i + 1] == headers[..i] + [headers[i]]
  {
  }

  /** The bytes `write_http` sends to the destination. */
  function Request(verb: string, path: string, version: Version, headers: seq<Header>, body: seq<byte>): seq<byte>
  {
    RequestLine(verb, path, version) + HeaderLines(Kept(headers)) + CRLF + body
  }

  /** `write_http`, with each `write_all` appending to `out`. */
  method WriteHttp(verb: string, path: string, version: Version, headers: seq<Header>, body: seq<byte>)
    returns (out: seq<byte>)
    ensures out == Request(verb, path, version, headers, body)
  {
    out := Utf8(verb + " " + path + " HTTP/1." + Decimal(version) + "\r\n");
    ghost var line := out;
    assert line == RequestLine(verb, path, version);
    var i := 0;
    ghost var kept: seq<Header> := [];
    while i < |headers|
      invariant i <= |headers|
      invariant kept == Kept(headers[..i])
      invariant out == line + HeaderLines(kept)
    {
      var h := headers[i];
      TakeOneMore(headers, i);
      KeptSnoc(headers[..i], h);
      if IsProxyAuthorization(h.name) {
        i := i + 1;
        continue;
      }
      ghost var before := out;
      out := out + Utf8(h.name) + Utf8(": ") + h.value + CRLF;
      AppendPieces(before, Utf8(h.name), Utf8(": "), h.value, CRLF);
      HeaderLinesSnoc(kept, h);
      ConcatAssoc(line, HeaderLines(kept), HeaderLine(h));
      kept := kept + [h];
      i := i + 1;
    }
    assert headers[..i] == headers;
    out := out + CRLF;
    if body != [] {
      out := out + body;
    }
  }

  /** Filtering distributes over concatenation: the order of the
      remaining headers is the original order. */
  lemma {:induction false} KeptAppend(a: seq<Header>, b: seq<Header>)
    ensures Kept(a + b) == Kept(a) + Kept(b)
    decreases |b|
  {
    if b == [] {
      assert a + b == a;
    } else {
      var b' := b[..|b| - 1];
      assert (a + b)[..|a + b| - 1] == a + b';
      KeptAppend(a, b');
    }
  }

  /** Exactly the `Proxy-Authorization` headers are dropped: every other
      header is forwarded, with its name and value unchanged. */
  lemma {:induction false} KeptExactly(headers: seq<Header>, h: Header)
    ensures h in Kept(headers) <==> h in headers && !IsProxyAuthorization(h.name)
    decreases |headers|
  {
    if headers != [] {
      var init := headers[..|headers| - 1];
      KeptExactly(init, h);
      assert headers == init + [headers[|headers| - 1]];
    }
  }

  /** Without a `Proxy-Authorization` header nothing is dropped. */
  lemma {:induction false} KeptAll(headers: seq<Header>)
    requires forall i | 0 <= i < |headers| :: !IsProxyAuthorization(headers[i].name)
    ensures Kept(headers) == headers
    decreases |headers|
  {
    if headers != [] {
      var init := headers[..|headers| - 1];
      KeptAll(init);
      assert headers == init + [headers[|headers| - 1]];
    }
  }

  /** The forwarded request starts with the request line and ends with the
      body bytes read along with the head: none of them is dropped. */
  lemma RequestFraming(verb: string, path: string, version: Version, headers: seq<Header>, body: seq<byte>)
    ensures var out := Request(verb, path, version, headers, body);
      && |out| >= |body| + 2
      && out[..|RequestLine(verb, path, version)|] == RequestLine(verb, path, version)
      && out[|out| - |body|..] == body
      && out[|out| - |body| - 2..|out| - |body|] == CRLF
  {
    var line := RequestLine(verb, path, version);
    var out := Request(verb, path, version, headers, body);
    assert out == line + (HeaderLines(Kept(headers)) + CRLF + body);
  }

  /** A header the proxy can send on one line: a non-empty ASCII name and
      a value, neither holding CR or LF (what httparse accepts). */
  predicate OneLine(h: Header)
  {
    && h.name != [] && IsAscii(h.name)
    && (forall c | c in h.name :: c != '\r' && c != '\n')
    && CR !in h.value && LF !in h.value
  }

  lemma HeaderLineIsHeadLine(h: Header)
    requires OneLine(h)
    ensures IsHeadLine(Utf8(h.name) + Utf8(": ") + h.value)
  {
    var name := Utf8(h.name);
    var sep := Utf8(": ");
    var line := name + sep + h.value;
    Utf8OfAscii(h.name);
    Utf8OfAscii(": ");
    forall k | 0 <= k < |line| ensures line[k] != CR && line[k] != LF {
      if k < |name| {
        assert line[k] as int == h.name[k] as int;
        assert h.name[k] in h.name;
      } else if k < |name| + |sep| {
        assert line[k] as int == ": "[k - |name|] as int;
      } else {
        assert line[k] == h.value[k - |name| - |sep|];
      }
    }
  }

  /** The header lines the proxy writes, each without its CRLF. */
  function LineTexts(headers: seq<Header>): (r: seq<seq<byte>>)
    ensures |r| == |headers|
    ensures forall i | 0 <= i < |r| :: r[i] == Utf8(headers[i].name) + Utf8(": ") + headers[i].value
  {
    seq(|headers|, i requires 0 <= i < |headers| => Utf8(headers[i].name) + Utf8(": ") + headers[i].value)
  }

  /** The header section is those lines, each ended by CRLF. */
  lemma {:induction false} HeaderLinesAsLines(headers: seq<Header>)
    ensures HeaderLines(headers) == CrlfLines(LineTexts(headers))
    decreases |headers|
  {
    if headers != [] {
      var init := headers[..|headers| - 1];
      var h := headers[|headers| - 1];
      var lines := LineTexts(headers);
      HeaderLinesAsLines(init);
      assert lines[..|lines| - 1] == LineTexts(init);
      assert lines[|lines| - 1] == Utf8(h.name) + Utf8(": ") + h.value;
      ConcatAssoc(CrlfLines(LineTexts(init)), lines[|lines| - 1], CRLF);
    }
  }

  /** A header section of ASCII names and values without CR or LF is a
      sequence of head lines, each ended by CRLF. */
  lemma HeaderLinesAreHeadLines(headers: seq<Header>)
    requires forall i | 0 <= i < |headers| :: OneLine(headers[i])
    ensures forall i | 0 <= i < |headers| :: IsHeadLine(LineTexts(headers)[i])
    ensures HeaderLines(headers) == CrlfLines(LineTexts(headers))
  {
    HeaderLinesAsLines(headers);
    forall i | 0 <= i < |headers| ensures IsHeadLine(LineTexts(headers)[i]) {
      HeaderLineIsHeadLine(headers[i]);
    }
  }

  /** Prepending a line to CRLF-ended lines. */
  lemma {:induction false} CrlfLinesCons(x: seq<byte>, rest: seq<seq<byte>>)
    ensures CrlfLines([x] + rest) == x + CRLF + CrlfLines(rest)
    decreases |rest|
  {
    if rest == [] {
      assert [x] + rest == [x];
      assert CrlfLines([x]) == CrlfLines([]) + x + CRLF;
    } else {
      var init := rest[..|rest| - 1];
      var last := rest[|rest| - 1];
      assert ([x] + rest)[..|[x] + rest| - 1] == [x] + init;
      CrlfLinesCons(x, init);
      ConcatAssoc(x + CRLF, CrlfLines(init) + last, CRLF);
      ConcatAssoc(x + CRLF, CrlfLines(init), last);
    }
  }

  /** Text that holds neither CR nor LF. */
  predicate NoLineBreak(s: string)
  {
    '\r' !in s && '\n' !in s
  }

  /** `{method} {path} HTTP/1.{version}`: the request line without its CRLF. */
  function RequestText(verb: string, path: string, version: Version): string
  {
    verb + " " + path + " HTTP/1." + Decimal(version)
  }

  /** The request line without its CRLF is a head line when the method and
      the path hold no line break. */
  lemma RequestLineIsHeadLine(verb: string, path: string, version: Version)
    requires NoLineBreak(verb) && NoLineBreak(path)
    ensures RequestLine(verb, path, version) == Utf8(RequestText(verb, path, version)) + CRLF
    ensures IsHeadLine(Utf8(RequestText(verb, path, version)))
  {
    var text := RequestText(verb, path, version);
    var d := Decimal(version);
    assert '\r' !in d && '\n' !in d;
    assert '\r' !in text && '\n' !in text;
    Utf8AsciiByte(text, CR);
    Utf8AsciiByte(text, LF);
    Utf8Append(text, "\r\n");
    Utf8OfAscii("\r\n");
    assert |EncodeChar(text[|text| - 1])| >= 1;
    var u := Utf8(text);
    forall i | 0 <= i < |u| ensures u[i] != CR && u[i] != LF {
      assert u[i] in u;
    }
  }

  /** The forwarded headers are as well formed as the received ones. */
  lemma KeptOneLine(headers: seq<Header>)
    requires forall i | 0 <= i < |headers| :: OneLine(headers[i])
    ensures forall i | 0 <= i < |Kept(headers)| :: OneLine(Kept(headers)[i])
  {
    var kept := Kept(headers);
    forall i | 0 <= i < |kept| ensures OneLine(kept[i]) {
      assert kept[i] in headers;
      var j :| 0 <= j < |headers| && headers[j] == kept[i];
    }
  }

  /** The forwarded request as head lines, the blank line and the body. */
  lemma RequestAsLines(verb: string, path: string, version: Version, headers: seq<Header>, body: seq<byte>)
    requires NoLineBreak(verb) && NoLineBreak(path)
    requires forall i | 0 <= i < |headers| :: OneLine(headers[i])
    ensures var lines := [Utf8(RequestText(verb, path, version))] + LineTexts(Kept(headers));
      && (forall i | 0 <= i < |lines| :: IsHeadLine(lines[i]))
      && Request(verb, path, version, headers, body) == CrlfLines(lines) + CRLF + body
  {
    var kept := Kept(headers);
    var first := Utf8(RequestText(verb, path, version));
    KeptOneLine(headers);
    RequestLineIsHeadLine(verb, path, version);
    HeaderLinesAreHeadLines(kept);
    var lines := [first] + LineTexts(kept);
    CrlfLinesCons(first, LineTexts(kept));
    forall i | 0 <= i < |lines| ensures IsHeadLine(lines[i]) {
      if i > 0 {
        assert lines[i] == LineTexts(kept)[i - 1];
      }
    }
  }

  /** A receiver that frames the forwarded request as `read_header` does
      finds the head exactly where the proxy wrote it, and the body bytes
      after it untouched, provided the method, the path and the headers
      hold no line break (which httparse guarantees of what it accepts). */
  lemma ForwardedHeadEnd(verb: string, path: string, version: Version, headers: seq<Header>, body: seq<byte>)
    requires NoLineBreak(verb) && NoLineBreak(path)
    requires forall i | 0 <= i < |headers| :: OneLine(headers[i])
    ensures var out := Request(verb, path, version, headers, body);
      HeadEnd(out) == Some(|out| - |body|)
  {
    var lines := [Utf8(RequestText(verb, path, version))] + LineTexts(Kept(headers));
    RequestAsLines(verb, path, version, headers, body);
    WellFormedHeadEnd(lines, body);
  }
}
