/**
 * Shared vocabulary of the proxy core: bytes, the Option/Result wrappers,
 * the crate's error enum, and the few text operations the core relies on
 * (UTF-8 encoding of `str` values, ASCII case folding, decimal formatting,
 * splitting at the first occurrence of a character).
 */
module Base {

  newtype byte = b: int | 0 <= b < 256

  datatype Option<+T> = None | Some(value: T)

  datatype Result<+T, +E> = Ok(value: T) | Err(error: E)

  /** The variants of the crate's `Error` enum; the payloads of `IO`,
      `Timeout` and `HttParse` (foreign error values) are dropped. */
  datatype Error =
    | IO
    | Timeout
    | HttParse
    | ReadHeaderBufferOverflow
    | ReadHeaderIncorrectRequest
    | AuthenticationRequired
    | NotFoundHeaderHost
    | IncorrectHost
    | DistConnect
    | Unknown

  /** A Rust byte-string literal `b"..."`: one byte per character. */
  function ByteString(s: string): (r: seq<byte>)
    requires forall i | 0 <= i < |s| :: s[i] as int < 256
    ensures |r| == |s|
    ensures forall i | 0 <= i < |s| :: r[i] as int == s[i] as int
  {
    seq(|s|, i requires 0 <= i < |s| => s[i] as int as byte)
  }

  /** The UTF-8 encoding of one Unicode scalar value (what `str::as_bytes`
      holds for that character). */
  function EncodeChar(c: char): (r: seq<byte>)
    ensures 1 <= |r| <= 4
    ensures |r| == 1 <==> c as int < 0x80
    ensures c as int < 0x80 ==> r[0] as int == c as int
    ensures c as int >= 0x80 ==> forall i | 0 <= i < |r| :: r[i] >= 0x80
  {
    var v := c as int;
    if v < 0x80 then [v as byte]
    else if v < 0x800 then
      [(0xC0 + v / 0x40) as byte, (0x80 + v % 0x40) as byte]
    else if v < 0x1_0000 then
      [(0xE0 + v / 0x1000) as byte, (0x80 + (v / 0x40) % 0x40) as byte, (0x80 + v % 0x40) as byte]
    else
      [(0xF0 + v / 0x4_0000) as byte, (0x80 + (v / 0x1000) % 0x40) as byte,
       (0x80 + (v / 0x40) % 0x40) as byte, (0x80 + v % 0x40) as byte]
  }

  /** The bytes of a Rust `str`: the concatenated UTF-8 encodings. */
  function Utf8(s: string): seq<byte>
  {
    if s == [] then [] else Utf8(s[..|s| - 1]) + EncodeChar(s[|s| - 1])
  }

  lemma {:induction false} Utf8Append(s: string, t: string)
    ensures Utf8(s + t) == Utf8(s) + Utf8(t)
    decreases |t|
  {
    if t == [] {
      assert s + t == s;
    } else {
      var t' := t[..|t| - 1];
      var c := t[|t| - 1];
      assert (s + t)[..|s + t| - 1] == s + t' && (s + t)[|s + t| - 1] == c;
      Utf8Append(s, t');
      assert Utf8(s + t) == Utf8(s) + Utf8(t') + EncodeChar(c);
      assert Utf8(s) + Utf8(t') + EncodeChar(c) == Utf8(s) + (Utf8(t') + EncodeChar(c));
    }
  }

  predicate IsAscii(s: string)
  {
    forall i | 0 <= i < |s| :: s[i] as int < 0x80
  }

  /** An ASCII string is sent one byte per character, each byte the character's code. */
  lemma {:induction false} Utf8OfAscii(s: string)
    requires IsAscii(s)
    ensures |Utf8(s)| == |s|
    ensures forall i | 0 <= i < |s| :: Utf8(s)[i] as int == s[i] as int
  {
    if s != [] {
      Utf8OfAscii(s[..|s| - 1]);
    }
  }

  /** A byte below 0x80 occurs in the UTF-8 form of `s` only as the
      encoding of that very ASCII character: multi-byte sequences never
      contain ASCII bytes. */
  lemma {:induction false} Utf8AsciiByte(s: string, b: byte)
    requires b < 0x80
    ensures (b in Utf8(s)) <==> (b as int as char) in s
  {
    if s != [] {
      var s' := s[..|s| - 1];
      Utf8AsciiByte(s', b);
      assert s == s' + [s[|s| - 1]];
    }
  }

  function LowerChar(c: char): char
  {
    if 'A' <= c <= 'Z' then (c as int + 32) as char else c
  }

  function UpperChar(c: char): char
  {
    if 'a' <= c <= 'z' then (c as int - 32) as char else c
  }

  /** ASCII lower-casing (`str::to_lowercase` restricted to ASCII letters). */
  function LowerAscii(s: string): (r: string)
    ensures |r| == |s|
    ensures forall i | 0 <= i < |s| :: r[i] == LowerChar(s[i])
  {
    seq(|s|, i requires 0 <= i < |s| => LowerChar(s[i]))
  }

  /** ASCII upper-casing (`str::to_uppercase` restricted to ASCII letters). */
  function UpperAscii(s: string): (r: string)
    ensures |r| == |s|
    ensures forall i | 0 <= i < |s| :: r[i] == UpperChar(s[i])
  {
    seq(|s|, i requires 0 <= i < |s| => UpperChar(s[i]))
  }

  predicate IsDigits(s: string)
  {
    forall i | 0 <= i < |s| :: '0' <= s[i] <= '9'
  }

  /** The number a run of decimal digits denotes, most significant first. */
  function DigitsValue(s: string): nat
    requires IsDigits(s)
  {
    if s == [] then 0 else DigitsValue(s[..|s| - 1]) * 10 + (s[|s| - 1] as int - '0' as int)
  }

  /** `format!("{n}")` for an unsigned integer: the digits that denote `n`,
      without leading zeros. */
  function Decimal(n: nat): (r: string)
    ensures |r| >= 1 && IsDigits(r)
    ensures DigitsValue(r) == n
    ensures n >= 1 ==> r[0] != '0'
    ensures n < 10 ==> r == [(n + '0' as int) as char]
  {
    var d := ((n % 10) + '0' as int) as char;
    if n < 10 then [d]
    else
      var r := Decimal(n / 10) + [d];
      assert r[..|r| - 1] == Decimal(n / 10);
      r
  }

  /** Digits without a leading zero denote at least 1. */
  lemma {:induction false} LeadingDigitPositive(s: string)
    requires s != [] && IsDigits(s) && s[0] != '0'
    ensures DigitsValue(s) >= 1
    decreases |s|
  {
    if |s| > 1 {
      LeadingDigitPositive(s[..|s| - 1]);
    }
  }

  /** The other half of the round trip: the digits of a number without
      leading zeros are exactly what `Decimal` prints for the number they
      denote. */
  lemma {:induction false} DecimalOfDigits(s: string)
    requires s != [] && IsDigits(s)
    requires |s| > 1 ==> s[0] != '0'
    ensures Decimal(DigitsValue(s)) == s
    decreases |s|
  {
    if |s| > 1 {
      var init := s[..|s| - 1];
      var v := DigitsValue(init);
      var c := s[|s| - 1] as int - '0' as int;
      LeadingDigitPositive(init);
      DecimalOfDigits(init);
      var n := v * 10 + c;
      assert n / 10 == v && n % 10 == c;
      assert s == init + [s[|s| - 1]];
    }
  }

  /** `str::split_once` on a single character: the text before and after its
      first occurrence, or None when it does not occur. */
  function SplitOnce(s: string, sep: char): (r: Option<(string, string)>)
    ensures r.None? <==> sep !in s
    ensures r.Some? ==> s == r.value.0 + [sep] + r.value.1 && sep !in r.value.0
  {
    if s == [] then None
    else if s[0] == sep then Some(([], s[1..]))
    else match SplitOnce(s[1..], sep)
      case None => None
      case Some((before, after)) => Some(([s[0]] + before, after))
  }

  /** `splitn(2, sep)` followed by `next()` twice with a default for the
      second piece: the first piece always exists. */
  function SplitFirst(s: string, sep: char, default: string): (r: (string, string))
    ensures sep !in r.0
    ensures sep in s ==> s == r.0 + [sep] + r.1
    ensures sep !in s ==> r == (s, default)
  {
    match SplitOnce(s, sep)
    case Some(pieces) => pieces
    case None => (s, default)
  }

  /** Splitting is undone by joining: whatever follows the separator is kept whole. */
  lemma {:induction false} SplitOnceJoin(before: string, sep: char, after: string)
    requires sep !in before
    ensures SplitOnce(before + [sep] + after, sep) == Some((before, after))
  {
    var s := before + [sep] + after;
    if before == [] {
      assert s[1..] == after;
    } else {
      assert s[0] == before[0] && s[1..] == before[1..] + [sep] + after;
      SplitOnceJoin(before[1..], sep, after);
      assert [before[0]] + before[1..] == before;
    }
  }
}
