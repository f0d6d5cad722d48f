/**
 * The header framer `util::read_header`: it fills a caller-owned buffer
 * from the client stream, read by read, and after each read scans the
 * newly arrived bytes for the end of the request head: a `\n` whose
 * preceding byte is `\n`, or whose two preceding bytes are `\n\r`.
 * Positions 0 and 1 are never examined.
 *
 * The client stream is a `Reader` holding the bytes still to come and
 * whether the stream ends in a failed read rather than end-of-stream. How
 * many bytes one read hands over is left open, so everything proved about
 * `ReadHeader` holds for every way the bytes may arrive.
 */
module Framing {

  import opened Base

  const LF: byte := 10
  const CR: byte := 13
  const CRLF: seq<byte> := [CR, LF]

  /** Position `j` of `s` ends a request head, as `read_header` tests it. */
  predicate TerminatorAt(s: seq<byte>, j: int)
  {
    2 <= j < |s| && s[j] == LF && (s[j - 1] == LF || (s[j - 1] == CR && s[j - 2] == LF))
  }

  /** No position below `k` ends a head. */
  predicate NoTerminatorBelow(s: seq<byte>, k: int)
  {
    forall j | 2 <= j < k :: !TerminatorAt(s, j)
  }

  /** `h` is the offset just past the first terminator of `s`. */
  predicate IsHeadEnd(s: seq<byte>, h: int)
  {
    3 <= h <= |s| && TerminatorAt(s, h - 1) && NoTerminatorBelow(s, h - 1)
  }

  /** The first terminator at or after `from`. */
  function FindTerminator(s: seq<byte>, from: nat): (r: Option<nat>)
    ensures r.Some? ==> from <= r.value && TerminatorAt(s, r.value)
    ensures r.Some? ==> forall j | from <= j < r.value :: !TerminatorAt(s, j)
    ensures r.None? ==> forall j | from <= j < |s| :: !TerminatorAt(s, j)
    decreases |s| - from
  {
    if from >= |s| then None
    else if TerminatorAt(s, from) then Some(from)
    else FindTerminator(s, from + 1)
  }

  /** Where the head of `s` ends, scanning from position 2: the reference
      definition the framer is checked against. */
  function HeadEnd(s: seq<byte>): Option<nat>
  {
    match FindTerminator(s, 2)
    case None => None
    case Some(j) => Some(j + 1)
  }

  /** `HeadEnd` finds exactly the first terminator, and finds none only when there is none. */
  lemma HeadEndMeaning(s: seq<byte>)
    ensures forall h :: HeadEnd(s) == Some(h) <==> IsHeadEnd(s, h)
    ensures HeadEnd(s) == None <==> NoTerminatorBelow(s, |s|)
  {
    forall h ensures HeadEnd(s) == Some(h) <==> IsHeadEnd(s, h) {
      if IsHeadEnd(s, h) {
        assert FindTerminator(s, 2).Some?;
      }
    }
  }

  /** Without a terminator there is no head end. */
  lemma NoTerminatorNoHead(s: seq<byte>)
    requires NoTerminatorBelow(s, |s|)
    ensures HeadEnd(s) == None
  {
  }

  lemma ConcatAssoc(a: seq<byte>, b: seq<byte>, c: seq<byte>)
    ensures a + (b + c) == (a + b) + c
  {
  }

  /** Appending bytes keeps the old positions free of terminators. */
  lemma NoTerminatorExtends(s: seq<byte>, t: seq<byte>)
    requires NoTerminatorBelow(s, |s|)
    ensures NoTerminatorBelow(s + t, |s|)
  {
    assert forall j | 2 <= j < |s| :: TerminatorAt(s + t, j) == TerminatorAt(s, j);
  }

  /** Bytes read past the head never move where the head ends. */
  lemma HeadEndStable(s: seq<byte>, t: seq<byte>)
    requires HeadEnd(s).Some?
    ensures HeadEnd(s + t) == HeadEnd(s)
  {
    var h := HeadEnd(s).value;
    HeadEndMeaning(s);
    HeadEndMeaning(s + t);
    assert forall j | 2 <= j < |s| :: TerminatorAt(s + t, j) == TerminatorAt(s, j);
    assert IsHeadEnd(s + t, h);
  }

  /** A terminator that straddles the boundary between what was scanned
      before (`s`, which holds none) and the newly read bytes `t` is still
      found by a scan that starts at the old length, as `read_header`'s
      does: positions below `max(2, |s|)` cannot end a head of `s + t`. */
  lemma {:induction false} ScanFromOldLength(s: seq<byte>, t: seq<byte>)
    requires NoTerminatorBelow(s, |s|)
    ensures FindTerminator(s + t, 2) == FindTerminator(s + t, if |s| < 2 then 2 else |s|)
  {
    var u := s + t;
    forall j | 2 <= j < |s| ensures !TerminatorAt(u, j) {
      assert TerminatorAt(u, j) == TerminatorAt(s, j);
    }
    SkipNonTerminators(u, 2, if |s| < 2 then 2 else |s|);
  }

  lemma {:induction false} SkipNonTerminators(s: seq<byte>, from: nat, to: nat)
    requires from <= to
    requires forall j | from <= j < to :: !TerminatorAt(s, j)
    ensures FindTerminator(s, from) == FindTerminator(s, to)
    decreases |s| - from
  {
    if from < to && from < |s| {
      SkipNonTerminators(s, from + 1, to);
    }
  }

  // ---------------------------------------------------------------------
  // Well-formed heads

  /** Lines each followed by CRLF. */
  function CrlfLines(lines: seq<seq<byte>>): (r: seq<byte>)
  {
    if lines == [] then [] else CrlfLines(lines[..|lines| - 1]) + lines[|lines| - 1] + CRLF
  }

  /** A request line or header line: not empty, no CR and no LF. */
  predicate IsHeadLine(line: seq<byte>)
  {
    line != [] && forall i | 0 <= i < |line| :: line[i] != CR && line[i] != LF
  }

  /** Lines ended by CRLF contain no terminator. */
  lemma {:induction false} CrlfLinesNoTerminator(lines: seq<seq<byte>>)
    requires forall i | 0 <= i < |lines| :: IsHeadLine(lines[i])
    ensures NoTerminatorBelow(CrlfLines(lines), |CrlfLines(lines)|)
    ensures lines != [] ==> |CrlfLines(lines)| >= 3
  {
    if lines != [] {
      var init := lines[..|lines| - 1];
      var line := lines[|lines| - 1];
      var p := CrlfLines(init);
      var u := CrlfLines(lines);
      assert u == p + line + CRLF;
      CrlfLinesNoTerminator(init);
      forall j | 2 <= j < |u| ensures !TerminatorAt(u, j) {
        if j < |p| {
          assert TerminatorAt(u, j) == TerminatorAt(p, j);
        } else if j < |p| + |line| {
          assert u[j] == line[j - |p|];
        } else if j == |p| + |line| {
          assert u[j] == CR;
        } else {
          assert u[j - 1] == CR && u[j - 2] == line[|line| - 1];
        }
      }
    }
  }

  /** A well-formed head (at least one line, each ended by CRLF, then a
      blank line) ends right after the blank line's CRLF, whatever follows. */
  lemma WellFormedHeadEnd(lines: seq<seq<byte>>, body: seq<byte>)
    requires lines != []
    requires forall i | 0 <= i < |lines| :: IsHeadLine(lines[i])
    ensures HeadEnd(CrlfLines(lines) + CRLF + body) == Some(|CrlfLines(lines)| + 2)
  {
    var p := CrlfLines(lines);
    var u := p + CRLF + body;
    CrlfLinesNoTerminator(lines);
    assert p[|p| - 1] == LF by {
      assert p == CrlfLines(lines[..|lines| - 1]) + lines[|lines| - 1] + CRLF;
    }
    forall j | 2 <= j < |p| + 1 ensures !TerminatorAt(u, j) {
      if j < |p| {
        assert TerminatorAt(u, j) == TerminatorAt(p, j);
      } else {
        assert u[j] == CR;
      }
    }
    assert TerminatorAt(u, |p| + 1);
    HeadEndMeaning(u);
    assert IsHeadEnd(u, |p| + 2);
  }

  /** A head prefix free of terminators followed by bytes without LF holds no terminator. */
  lemma NoLineFeedNoHead(p: seq<byte>, t: seq<byte>)
    requires NoTerminatorBelow(p, |p|)
    requires forall i | 0 <= i < |t| :: t[i] != LF
    ensures HeadEnd(p + t) == None
  {
    var u := p + t;
    forall j | 2 <= j < |u| ensures !TerminatorAt(u, j) {
      if j < |p| {
        assert TerminatorAt(u, j) == TerminatorAt(p, j);
      } else {
        assert u[j] == t[j - |p|];
      }
    }
    HeadEndMeaning(u);
  }

  // ---------------------------------------------------------------------
  // The client stream

  /** The client's half of the connection: `data` is every byte the client
      still sends; once it is used up, reads return end-of-stream, or fail
      when `failing` is set. */
  class Reader {
    var data: seq<byte>
    const failing: bool

    constructor (data: seq<byte>, failing: bool)
      ensures this.data == data && this.failing == failing
    {
      this.data := data;
      this.failing := failing;
    }

    /** `AsyncRead::read` into `buf[from..]`. While bytes remain, Ok(n)
        hands over the next n of them, 0 < n, as many as the transport
        chooses within the room left; then Ok(0) at end-of-stream or
        Err(IO) for a failed read. Nothing outside `buf[from..from + n]`
        changes. */
    method Read(buf: array<byte>, from: nat) returns (r: Result<nat, Error>)
      requires from < buf.Length
      modifies this, buf
      ensures buf[..from] == old(buf[..from])
      ensures old(data) == [] ==> r == (if failing then Err(IO) else Ok(0))
      ensures old(data) == [] ==> data == [] && buf[..] == old(buf[..])
      ensures old(data) != [] ==> r.Ok? && 0 < r.value && from + r.value <= buf.Length
      ensures old(data) != [] ==>
        && old(data) == buf[from..from + r.value] + data
        && buf[from + r.value..] == old(buf[from + r.value..])
    {
      if data == [] {
        return if failing then Err(IO) else Ok(0);
      }
      var n := if |data| <= buf.Length - from then |data| else buf.Length - from;
      forall i | from <= i < from + n {
        buf[i] := data[i - from];
      }
      assert buf[from..from + n] == data[..n];
      assert data == data[..n] + data[n..];
      data := data[n..];
      r := Ok(n);
    }
  }

  // ---------------------------------------------------------------------
  // read_header

  /** `read_header(stream, buf)`. On success (h, n): the first n bytes of
      `buf` are the next n bytes of the stream and h is where the head ends
      in them. BufferOverflow exactly when the buffer filled up without a
      terminator; IncorrectRequest when the stream ended first; IO when a
      read failed first. `filled` is how many bytes were read in every case. */
  method ReadHeader(reader: Reader, buf: array<byte>) returns (r: Result<(nat, nat), Error>, ghost filled: nat)
    modifies reader, buf
    ensures filled <= buf.Length
    ensures old(reader.data) == buf[..filled] + reader.data
    ensures r.Ok? ==> r.value.1 == filled && HeadEnd(buf[..filled]) == Some(r.value.0)
    ensures r.Ok? ==> 3 <= r.value.0 <= r.value.1 <= buf.Length
    ensures r.Err? ==> HeadEnd(buf[..filled]) == None
    ensures r.Err? ==> r.error == ReadHeaderBufferOverflow || r.error == ReadHeaderIncorrectRequest || r.error == IO
    ensures r == Err(ReadHeaderBufferOverflow) <==> r.Err? && filled == buf.Length
    ensures r == Err(ReadHeaderIncorrectRequest) || r == Err(IO) ==>
      reader.data == [] && (r == Err(IO) <==> reader.failing)
  {
    var bufLen := 0;
    ghost var got: seq<byte> := [];
    while true
      invariant bufLen <= buf.Length && got == buf[..bufLen]
      invariant old(reader.data) == got + reader.data
      invariant NoTerminatorBelow(got, bufLen)
      decreases buf.Length - bufLen
    {
      if bufLen >= buf.Length {
        NoTerminatorNoHead(got);
        return Err(ReadHeaderBufferOverflow), bufLen;
      }
      var read := reader.Read(buf, bufLen);
      if read.Err? {
        NoTerminatorNoHead(got);
        return Err(read.error), bufLen;
      }
      var n := read.value;
      if n == 0 {
        NoTerminatorNoHead(got);
        return Err(ReadHeaderIncorrectRequest), bufLen;
      }
      var idx := bufLen;
      bufLen := bufLen + n;
      assert got == buf[..idx];
      assert buf[..bufLen] == buf[..idx] + buf[idx..bufLen];
      NoTerminatorExtends(got, buf[idx..bufLen]);
      ConcatAssoc(got, buf[idx..bufLen], reader.data);
      got := got + buf[idx..bufLen];
      if idx < 2 {
        idx := 2;
      }
      var found := ScanNewBytes(buf, idx, bufLen);
      if found.Some? {
        return Ok((found.value, bufLen)), bufLen;
      }
    }
  }

  /** The inner `while` of `read_header`: scans `buf[idx..len]`, knowing that
      no position below `idx` ends a head, and answers where the head ends. */
  method ScanNewBytes(buf: array<byte>, idx: nat, len: nat) returns (found: Option<nat>)
    requires 2 <= idx && len <= buf.Length
    requires NoTerminatorBelow(buf[..len], idx)
    ensures found.Some? ==> HeadEnd(buf[..len]) == found && 3 <= found.value <= len
    ensures found.None? ==> HeadEnd(buf[..len]) == None && NoTerminatorBelow(buf[..len], len)
  {
    var i := idx;
    HeadEndMeaning(buf[..len]);
    while i < len
      invariant 2 <= i
      invariant NoTerminatorBelow(buf[..len], i)
      decreases len - i
    {
      if buf[i] == LF {
        match buf[i - 1]
        case 10 =>
          assert IsHeadEnd(buf[..len], i + 1);
          return Some(i + 1);
        case 13 =>
          if buf[i - 2] == LF {
            assert IsHeadEnd(buf[..len], i + 1);
            return Some(i + 1);
          }
        case _ =>
      }
      i := i + 1;
    }
    return None;
  }

  /** What `read_header` answers for a stream that sends `data` and then
      ends (in a failed read when `failing`), with a buffer of `cap` bytes:
      the head end when the first `cap` bytes hold a terminator; otherwise
      BufferOverflow when the stream fills the buffer, else IO or
      IncorrectRequest by how the stream ends. Only the bytes read so far
      depend on how the bytes arrive. */
  function Expected(data: seq<byte>, failing: bool, cap: nat): Result<nat, Error>
  {
    var window := if |data| <= cap then data else data[..cap];
    match HeadEnd(window)
    case Some(h) => Ok(h)
    case None =>
      if |data| >= cap then Err(ReadHeaderBufferOverflow)
      else if failing then Err(IO)
      else Err(ReadHeaderIncorrectRequest)
  }

  /** Whatever the read sizes, the contract of `ReadHeader` pins its answer
      to `Expected`: `got` is what it read and `rest` what it left unread. */
  lemma ReadHeaderOutcome(data: seq<byte>, failing: bool, cap: nat, got: seq<byte>, rest: seq<byte>,
                          r: Result<(nat, nat), Error>)
    requires data == got + rest && |got| <= cap
    requires r.Ok? ==> r.value.1 == |got| && HeadEnd(got) == Some(r.value.0)
    requires r.Err? ==> HeadEnd(got) == None
    requires r.Err? ==> r.error == ReadHeaderBufferOverflow || r.error == ReadHeaderIncorrectRequest || r.error == IO
    requires r == Err(ReadHeaderBufferOverflow) <==> r.Err? && |got| == cap
    requires r == Err(ReadHeaderIncorrectRequest) || r == Err(IO) ==> rest == [] && (r == Err(IO) <==> failing)
    ensures r.Ok? ==> Expected(data, failing, cap) == Ok(r.value.0)
    ensures r.Err? ==> Expected(data, failing, cap) == Err(r.error)
  {
    var window := if |data| <= cap then data else data[..cap];
    assert window[..|got|] == got;
    if r.Ok? {
      HeadEndStable(got, window[|got|..]);
      assert got + window[|got|..] == window;
    } else if r.error == ReadHeaderBufferOverflow {
      assert window == got;
    } else {
      assert data == got;
    }
  }

  // ---------------------------------------------------------------------
  // The framing examples of `util.rs`

  /** A request line and a Host line. */
  function SampleLines(): (lines: seq<seq<byte>>)
    ensures |lines| == 2 && forall i | 0 <= i < |lines| :: IsHeadLine(lines[i])
    ensures |CrlfLines(lines)| == 41
  {
    var lines := [ByteString("GET /hello world"), ByteString("Host: hello-world.com")];
    assert CrlfLines(lines) == CrlfLines(lines[..1]) + lines[1] + CRLF;
    assert CrlfLines(lines[..1]) == CrlfLines([]) + lines[0] + CRLF;
    lines
  }

  /** The sample request reads as one head of 43 bytes when the buffer is exactly its size. */
  method ExampleHeadOnly() returns (r: Result<(nat, nat), Error>)
    ensures r == Ok((43, 43))
  {
    var head := CrlfLines(SampleLines()) + CRLF;
    var reader := new Reader(head, false);
    var buf := new byte[|head|];
    ghost var filled;
    r, filled := ReadHeader(reader, buf);
    ReadHeaderOutcome(head, false, |head|, buf[..filled], reader.data, r);
    WellFormedHeadEnd(SampleLines(), []);
    assert head + [] == head;
  }

  /** With a body behind the head, the head still ends at 43. */
  method ExampleHeadWithBody() returns (r: Result<(nat, nat), Error>)
    ensures r.Ok? && r.value.0 == 43
  {
    var head := CrlfLines(SampleLines()) + CRLF;
    var data := head + ByteString("data");
    var reader := new Reader(data, false);
    var buf := new byte[|data|];
    ghost var filled;
    r, filled := ReadHeader(reader, buf);
    ReadHeaderOutcome(data, false, |data|, buf[..filled], reader.data, r);
    WellFormedHeadEnd(SampleLines(), ByteString("data"));
  }

  /** A lone request line without a line end fills its buffer: BufferOverflow. */
  method ExampleLineOnly() returns (r: Result<(nat, nat), Error>)
    ensures r == Err(ReadHeaderBufferOverflow)
  {
    var data := SampleLines()[0];
    var reader := new Reader(data, false);
    var buf := new byte[|data|];
    ghost var filled;
    r, filled := ReadHeader(reader, buf);
    ReadHeaderOutcome(data, false, |data|, buf[..filled], reader.data, r);
    NoLineFeedNoHead([], data);
    assert [] + data == data;
  }

  /** A blank line cut short (`\r` without `\n`) is no terminator: BufferOverflow. */
  method ExampleBrokenBlankLine() returns (r: Result<(nat, nat), Error>)
    ensures r == Err(ReadHeaderBufferOverflow)
  {
    var lines := CrlfLines(SampleLines());
    var tail := [CR] + ByteString("data");
    var data := lines + tail;
    var reader := new Reader(data, false);
    var buf := new byte[|data|];
    ghost var filled;
    r, filled := ReadHeader(reader, buf);
    ReadHeaderOutcome(data, false, |data|, buf[..filled], reader.data, r);
    CrlfLinesNoTerminator(SampleLines());
    NoLineFeedNoHead(lines, tail);
  }

  /** A client that sends nothing at all: IncorrectRequest. */
  method ExampleEmpty() returns (r: Result<(nat, nat), Error>)
    ensures r == Err(ReadHeaderIncorrectRequest)
  {
    var reader := new Reader([], false);
    var buf := new byte[50];
    ghost var filled;
    r, filled := ReadHeader(reader, buf);
    ReadHeaderOutcome([], false, 50, buf[..filled], reader.data, r);
  }
}
