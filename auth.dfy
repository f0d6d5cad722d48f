/**
 * The Basic credential check of `util::auth`: the value of a
 * `Proxy-Authorization` header is trimmed, split at its first space into a
 * scheme and a payload, the scheme must be exactly `Basic`, the payload is
 * base64-decoded and UTF-8-decoded (both foreign and passed in as `Codecs`),
 * and the text is split at its first `:` into login and password
 * (the Basic scheme of section 2 of RFC 7617).
 */
module Authorization {

  import opened Base
  import opened Config

  /** The foreign decoders the core calls: base64 with the standard alphabet
      (section 4 of RFC 4648), strict UTF-8 (`String::from_utf8`) and lossy
      UTF-8 (`String::from_utf8_lossy`). */
  datatype Codecs = Codecs(
    base64: string -> Option<seq<byte>>,
    utf8: seq<byte> -> Option<string>,
    lossy: seq<byte> -> string)

  /** Unicode's White_Space property, which `str::trim` strips. */
  predicate IsWhitespace(c: char)
  {
    var v := c as int;
    || 0x09 <= v <= 0x0D || v == 0x20 || v == 0x85 || v == 0xA0 || v == 0x1680
    || 0x2000 <= v <= 0x200A || v == 0x2028 || v == 0x2029 || v == 0x202F
    || v == 0x205F || v == 0x3000
  }

  function TrimStart(s: string): (r: string)
    ensures |r| <= |s| && r == s[|s| - |r|..]
    ensures forall i | 0 <= i < |s| - |r| :: IsWhitespace(s[i])
    ensures r != [] ==> !IsWhitespace(r[0])
  {
    if s != [] && IsWhitespace(s[0]) then TrimStart(s[1..]) else s
  }

  function TrimEnd(s: string): (r: string)
    ensures |r| <= |s| && r == s[..|r|]
    ensures forall i | |r| <= i < |s| :: IsWhitespace(s[i])
    ensures r != [] ==> !IsWhitespace(r[|r| - 1])
  {
    if s != [] && IsWhitespace(s[|s| - 1]) then TrimEnd(s[..|s| - 1]) else s
  }

  /** `str::trim`: the longest infix that neither starts nor ends with white space. */
  function Trim(s: string): (r: string)
  {
    TrimEnd(TrimStart(s))
  }

  /** Lines 27-37 of `auth`: the (login, password) pair carried by a header
      value, or None when it is not a decodable Basic credential. */
  function DecodeCredentials(header: string, codecs: Codecs): (r: Option<(string, string)>)
    ensures ' ' !in Trim(header) ==> r == None
    ensures r.Some? ==> ':' !in r.value.0
  {
    match SplitOnce(Trim(header), ' ')
    case None => None
    case Some((scheme, payload)) =>
      if scheme != "Basic" then None
      else match codecs.base64(payload)
        case None => None
        case Some(raw) =>
          match codecs.utf8(raw)
          case None => None
          case Some(text) => Some(SplitFirst(text, ':', ""))
  }

  /** `users.iter().any(|u| u.login == login && u.pass == pass)`. */
  function AnyUserMatches(users: seq<User>, login: string, pass: string): (r: bool)
    ensures r <==> exists i | 0 <= i < |users| :: users[i].login == login && users[i].pass == pass
  {
    if users == [] then false
    else (users[0].login == login && users[0].pass == pass) || AnyUserMatches(users[1..], login, pass)
  }

  /** `auth`: None for a malformed credential, otherwise whether some
      configured user has exactly that login and password. */
  function Auth(users: seq<User>, header: string, codecs: Codecs): (r: Option<bool>)
    ensures r.Some? <==> DecodeCredentials(header, codecs).Some?
    ensures r.Some? ==>
      (r.value <==> exists u | u in users :: (u.login, u.pass) == DecodeCredentials(header, codecs).value)
  {
    match DecodeCredentials(header, codecs)
    case None => None
    case Some((login, pass)) =>
      var ok := AnyUserMatches(users, login, pass);
      assert ok <==> exists u | u in users :: u.login == login && u.pass == pass by {
        if ok {
          var i :| 0 <= i < |users| && users[i].login == login && users[i].pass == pass;
          assert users[i] in users;
        }
      }
      Some(ok)
  }

  /** A value "Basic <payload>" whose payload does not end in white space
      keeps its shape through trimming and the split at the first space. */
  lemma BasicPayload(payload: string, codecs: Codecs)
    requires payload != [] && !IsWhitespace(payload[|payload| - 1])
    ensures Trim("Basic " + payload) == "Basic " + payload
    ensures SplitOnce(Trim("Basic " + payload), ' ') == Some(("Basic", payload))
  {
    var h := "Basic " + payload;
    assert h[0] == 'B' && h[|h| - 1] == payload[|payload| - 1];
    assert TrimStart(h) == h;
    assert "Basic " + payload == "Basic" + [' '] + payload;
    SplitOnceJoin("Basic", ' ', payload);
  }

  /** Round trip: encoding `login:pass` (login without `:`) in a Basic
      credential and decoding it gives back the same pair; any further `:`
      stays in the password. */
  lemma CredentialRoundTrip(login: string, pass: string, payload: string, raw: seq<byte>, codecs: Codecs)
    requires ':' !in login
    requires payload != [] && !IsWhitespace(payload[|payload| - 1])
    requires codecs.base64(payload) == Some(raw)
    requires codecs.utf8(raw) == Some(login + ":" + pass)
    ensures DecodeCredentials("Basic " + payload, codecs) == Some((login, pass))
  {
    BasicPayload(payload, codecs);
    assert login + ":" + pass == login + [':'] + pass;
    SplitOnceJoin(login, ':', pass);
  }

  /** Without a `:` the whole decoded text is the login and the password is empty. */
  lemma CredentialWithoutColon(text: string, payload: string, raw: seq<byte>, codecs: Codecs)
    requires ':' !in text
    requires payload != [] && !IsWhitespace(payload[|payload| - 1])
    requires codecs.base64(payload) == Some(raw)
    requires codecs.utf8(raw) == Some(text)
    ensures DecodeCredentials("Basic " + payload, codecs) == Some((text, ""))
  {
    BasicPayload(payload, codecs);
  }

  /** Conversely, every pair `DecodeCredentials` yields comes from a header
      that, once trimmed, is "Basic " followed by a payload that decodes
      to the login, then `:` and the password, or to the login alone with
      an empty password. */
  lemma {:induction false} DecodedCredentialsOrigin(header: string, codecs: Codecs, login: string, pass: string)
    requires DecodeCredentials(header, codecs) == Some((login, pass))
    ensures exists payload: string, raw: seq<byte> ::
      && Trim(header) == "Basic " + payload
      && codecs.base64(payload) == Some(raw)
      && (codecs.utf8(raw) == Some(login + ":" + pass)
          || (pass == "" && codecs.utf8(raw) == Some(login)))
  {
    var (scheme, payload) := SplitOnce(Trim(header), ' ').value;
    var raw := codecs.base64(payload).value;
    var text := codecs.utf8(raw).value;
    assert Trim(header) == "Basic " + payload;
    if ':' in text {
      assert text == login + ":" + pass;
    }
  }

  /** Any scheme other than exactly `Basic` (case matters) is refused. */
  lemma OtherSchemeRejected(users: seq<User>, header: string, scheme: string, rest: string, codecs: Codecs)
    requires Trim(header) == scheme + " " + rest
    requires ' ' !in scheme && scheme != "Basic"
    ensures Auth(users, header, codecs) == None
  {
    assert scheme + " " + rest == scheme + [' '] + rest;
    SplitOnceJoin(scheme, ' ', rest);
  }

  /** A payload that is not valid base64 is refused. */
  lemma BadBase64Rejected(users: seq<User>, payload: string, codecs: Codecs)
    requires payload != [] && !IsWhitespace(payload[|payload| - 1])
    requires codecs.base64(payload) == None
    ensures Auth(users, "Basic " + payload, codecs) == None
  {
    BasicPayload(payload, codecs);
  }

  /** A payload whose bytes are not UTF-8 is refused. */
  lemma BadUtf8Rejected(users: seq<User>, payload: string, raw: seq<byte>, codecs: Codecs)
    requires payload != [] && !IsWhitespace(payload[|payload| - 1])
    requires codecs.base64(payload) == Some(raw) && codecs.utf8(raw) == None
    ensures Auth(users, "Basic " + payload, codecs) == None
  {
    BasicPayload(payload, codecs);
  }

  /** The worked example: user dima/qwe123 is accepted with its own credential. */
  lemma DimaAccepted(payload: string, raw: seq<byte>, codecs: Codecs)
    requires payload != [] && !IsWhitespace(payload[|payload| - 1])
    requires codecs.base64(payload) == Some(raw) && codecs.utf8(raw) == Some("dima:qwe123")
    ensures Auth([User("dima", "qwe123")], "Basic " + payload, codecs) == Some(true)
  {
    assert "dima" + ":" + "qwe123" == "dima:qwe123";
    CredentialRoundTrip("dima", "qwe123", payload, raw, codecs);
  }

  /** The worked example with a wrong password: the credential is well formed, so Some(false). */
  lemma DimaWrongPassword(payload: string, raw: seq<byte>, codecs: Codecs)
    requires payload != [] && !IsWhitespace(payload[|payload| - 1])
    requires codecs.base64(payload) == Some(raw) && codecs.utf8(raw) == Some("dima:qwe124")
    ensures Auth([User("dima", "qwe123")], "Basic " + payload, codecs) == Some(false)
  {
    assert "dima" + ":" + "qwe124" == "dima:qwe124";
    CredentialRoundTrip("dima", "qwe124", payload, raw, codecs);
  }

  /** The worked example with another scheme: "Digest abc" is refused whatever the users. */
  lemma DigestRejected(users: seq<User>, codecs: Codecs)
    ensures Auth(users, "Digest abc", codecs) == None
  {
    var h := "Digest abc";
    assert !IsWhitespace(h[0]) && !IsWhitespace(h[|h| - 1]);
    assert Trim(h) == h;
    assert h == "Digest" + " " + "abc";
    OtherSchemeRejected(users, h, "Digest", "abc", codecs);
  }

  /** A user added with `add_user` is accepted by `auth` with their own credential. */
  lemma AddedUserAuthorized(p: Proxy, login: string, pass: string, payload: string, raw: seq<byte>, codecs: Codecs)
    requires ':' !in login
    requires payload != [] && !IsWhitespace(payload[|payload| - 1])
    requires codecs.base64(payload) == Some(raw)
    requires codecs.utf8(raw) == Some(login + ":" + pass)
    ensures Auth(p.AddUser(login, pass).users, "Basic " + payload, codecs) == Some(true)
  {
    CredentialRoundTrip(login, pass, payload, raw, codecs);
    var users := p.AddUser(login, pass).users;
    assert users[|users| - 1] in users;
  }
}
