/** The aws-chunked decoder (internal/s3api/chunked.go). */
module Chunked {
  import opened Strings
  import opened Wrappers

  // The aws-chunked decoder (internal/s3api/chunked.go).
  //
  // Bytes are characters.  What the standard library does with the trailers, base64 and checksums is
  // given by a Library; reads of the underlying stream may be short in any way.

  /** The checksum trailer's value, or None if the trailers are malformed, and what follows them. */
  datatype Trailers = Trailers(value: Option<string>, rest: string)

  datatype Library = Library(
    readTrailers: string -> Trailers,
    decodeBase64: string -> Option<seq<bv8>>,
    checksum: string -> seq<bv8>)

  /** `summed` is what was fed to the checksum. */
  datatype State = State(
    input: string,
    remaining: nat,
    decoded: nat,
    summed: string,
    needChunkCRLF: bool,
    done: bool)

  datatype Error = NoError | EOF | UnexpectedEOF | Invalid

  datatype Result = Result(state: State, data: string, error: Error)

  // ------------------------------------------------------------------ headers

  function HexDigit(c: char): Option<nat> {
    if '0' <= c <= '9' then Some(c as int - '0' as int)
    else if 'a' <= c <= 'f' then Some(c as int - 'a' as int + 10)
    else if 'A' <= c <= 'F' then Some(c as int - 'A' as int + 10)
    else None
  }

  function ParseDigits(s: string): Option<nat> {
    if s == [] then Some(0)
    else
      match (ParseDigits(s[..|s| - 1]), HexDigit(s[|s| - 1]))
      case (Some(n), Some(d)) => Some(16 * n + d)
      case _ => None
  }

  const INT64_LIMIT := 0x8000_0000_0000_0000

  /** A signed 64-bit hexadecimal number. */
  function ParseHex(s: string): Option<int> {
    var negative := s != [] && s[0] == '-';
    var digits := if s != [] && (s[0] == '-' || s[0] == '+') then s[1..] else s;
    if digits == [] then None
    else match ParseDigits(digits)
      case None => None
      case Some(n) =>
        var value: int := if negative then 0 - n else n;
        if -INT64_LIMIT <= value < INT64_LIMIT then Some(value) else None
  }

  function Before(s: string, c: char): string {
    match IndexOf(s, c)
    case None => s
    case Some(i) => s[..i]
  }

  /** A chunk's size stands before the first semicolon of its header. */
  function SizeOf(header: string): Option<int> {
    ParseHex(Before(header, ';'))
  }

  /** A line and what follows it; without a newline the whole input is consumed in vain. */
  datatype Line = Line(text: Option<string>, rest: string)

  function ReadLine(input: string): Line {
    match IndexOf(input, '\n')
    case None => Line(None, "")
    case Some(i) => Line(Some(input[..i + 1]), input[i + 1..])
  }

  const CRLF := "\r\n"

  predicate EndsInCRLF(line: string) {
    |line| >= 2 && line[|line| - 2..] == CRLF
  }

  // ------------------------------------------------------------------- reading

  predicate Verifies(lib: Library, expectedDecoded: int, s: State, trailer: string) {
    && s.decoded == expectedDecoded
    && lib.decodeBase64(trailer).Some? && |lib.decodeBase64(trailer).value| > 0
    && lib.decodeBase64(trailer).value == lib.checksum(s.summed)
  }

  function Fail(s: State): Result {
    Result(s, "", Invalid)
  }

  function Min(a: nat, b: nat): nat {
    if a <= b then a else b
  }

  /** Reading into a buffer of `size` when the stream has at most `available` bytes at hand. */
  function ReadData(s: State, size: nat, available: nat): Result {
    if s.input == [] then Result(s, "", UnexpectedEOF)
    else
      var n := Min(Min(size, s.remaining), Min(available, |s.input|));
      var data := s.input[..n];
      Result(
        State(s.input[n..], s.remaining - n, s.decoded + n, s.summed + data,
              s.needChunkCRLF || (n > 0 && s.remaining == n), s.done),
        data, NoError)
  }

  function ReadEnd(lib: Library, expectedDecoded: int, s: State): Result {
    var trailers := lib.readTrailers(s.input);
    var t := s.(input := trailers.rest);
    if trailers.value.Some? && Verifies(lib, expectedDecoded, t, trailers.value.value)
    then Result(t.(done := true), "", EOF) else Fail(t)
  }

  function ReadHeader(lib: Library, expectedDecoded: int, s: State, size: nat, available: nat): Result {
    var line := ReadLine(s.input);
    var t := s.(input := line.rest);
    if line.text.None? || !EndsInCRLF(line.text.value) then Fail(t)
    else
      match SizeOf(line.text.value[..|line.text.value| - 2])
      case None => Fail(t)
      case Some(n) =>
        if n < 0 then Fail(t)
        else if n == 0 then ReadEnd(lib, expectedDecoded, t)
        else ReadData(t.(remaining := n), size, available)
  }

  function ReadChunk(lib: Library, expectedDecoded: int, s: State, size: nat, available: nat): Result {
    if s.remaining == 0 then ReadHeader(lib, expectedDecoded, s, size, available) else ReadData(s, size, available)
  }

  /** One call of Read. */
  function Read(lib: Library, expectedDecoded: int, s: State, size: nat, available: nat): Result {
    if s.done then Result(s, "", EOF)
    else if size == 0 then Result(s, "", NoError)
    else if s.needChunkCRLF then
      if |s.input| < 2 then Fail(s.(input := ""))
      else if s.input[..2] != CRLF then Fail(s.(input := s.input[2..]))
      else ReadChunk(lib, expectedDecoded, s.(input := s.input[2..], needChunkCRLF := false), size, available)
    else ReadChunk(lib, expectedDecoded, s, size, available)
  }

  /** A stream that breaks off before the end is an error at the next read, whatever was due. */
  lemma BreakingOffFails(lib: Library, expectedDecoded: int, s: State, size: nat, available: nat)
    requires !s.done && size > 0 && s.input == ""
    ensures var r := Read(lib, expectedDecoded, s, size, available);
            r.data == "" && r.error == if s.remaining > 0 && !s.needChunkCRLF then UnexpectedEOF else Invalid
  {
  }

  /** A buffer's size and how much of the stream is at hand, for one call. */
  datatype Call = Call(size: nat, available: nat)

  function Start(input: string): State {
    State(input, 0, 0, "", false, false)
  }

  function After(lib: Library, expectedDecoded: int, s: State, calls: seq<Call>): State {
    if calls == [] then s
    else
      var n := |calls| - 1;
      Read(lib, expectedDecoded, After(lib, expectedDecoded, s, calls[..n]), calls[n].size, calls[n].available).state
  }

  function LastResult(lib: Library, expectedDecoded: int, s: State, calls: seq<Call>): Result
    requires calls != []
  {
    var n := |calls| - 1;
    Read(lib, expectedDecoded, After(lib, expectedDecoded, s, calls[..n]), calls[n].size, calls[n].available)
  }

  /** Everything the calls delivered. */
  function Delivered(lib: Library, expectedDecoded: int, s: State, calls: seq<Call>): string {
    if calls == [] then ""
    else
      Delivered(lib, expectedDecoded, s, calls[..|calls| - 1]) + LastResult(lib, expectedDecoded, s, calls).data
  }

  // ------------------------------------------------------------- any input at all

  lemma ReadDataKeepsSum(s: State, size: nat, available: nat)
    ensures var r := ReadData(s, size, available);
            r.state.summed == s.summed + r.data && r.state.decoded == s.decoded + |r.data|
  {
  }

  lemma ReadHeaderKeepsSum(lib: Library, expectedDecoded: int, s: State, size: nat, available: nat)
    ensures var r := ReadHeader(lib, expectedDecoded, s, size, available);
            r.state.summed == s.summed + r.data && r.state.decoded == s.decoded + |r.data|
  {
    var line := ReadLine(s.input);
    var t := s.(input := line.rest);
    if line.text.Some? && EndsInCRLF(line.text.value) {
      var n := SizeOf(line.text.value[..|line.text.value| - 2]);
      if n.Some? && n.value > 0 {
        ReadDataKeepsSum(t.(remaining := n.value), size, available);
      }
    }
  }

  lemma ReadKeepsSum(lib: Library, expectedDecoded: int, s: State, size: nat, available: nat)
    ensures var r := Read(lib, expectedDecoded, s, size, available);
            r.state.summed == s.summed + r.data && r.state.decoded == s.decoded + |r.data|
  {
    var t := if s.needChunkCRLF && |s.input| >= 2 then s.(input := s.input[2..], needChunkCRLF := false) else s;
    ReadHeaderKeepsSum(lib, expectedDecoded, t, size, available);
    ReadDataKeepsSum(t, size, available);
  }

  /** The checksum covers exactly what was delivered, whatever the input and after any errors. */
  lemma {:induction false} SummedIsDelivered(lib: Library, expectedDecoded: int, input: string, calls: seq<Call>)
    ensures var s := After(lib, expectedDecoded, Start(input), calls);
            s.summed == Delivered(lib, expectedDecoded, Start(input), calls) && s.decoded == |s.summed|
    decreases |calls|
  {
    if calls != [] {
      var n := |calls| - 1;
      SummedIsDelivered(lib, expectedDecoded, input, calls[..n]);
      ReadKeepsSum(lib, expectedDecoded, After(lib, expectedDecoded, Start(input), calls[..n]), calls[n].size, calls[n].available);
    }
  }

  /** What is left of the input is the end of a chunk if one is due, a header of size zero and the
      trailers, whose checksum is `trailer`. */
  predicate IsEnding(lib: Library, s: State, header: string, trailers: string, trailer: string) {
    && !s.done && s.remaining == 0 && '\n' !in header && SizeOf(header) == Some(0)
    && s.input == (if s.needChunkCRLF then CRLF else "") + (header + CRLF + trailers)
    && lib.readTrailers(trailers).value == Some(trailer)
  }

  ghost predicate AtEnding(lib: Library, s: State, trailer: string) {
    exists header, trailers :: IsEnding(lib, s, header, trailers, trailer)
  }

  lemma NoPrefix(a: string, b: string)
    requires a == b
    ensures a == "" + b
  {
  }

  lemma LineIsHeader(input: string) returns (header: string)
    requires ReadLine(input).text.Some? && EndsInCRLF(ReadLine(input).text.value)
    ensures var line := ReadLine(input);
            header == line.text.value[..|line.text.value| - 2] && input == header + CRLF + line.rest && '\n' !in header
  {
    var line := ReadLine(input);
    header := line.text.value[..|line.text.value| - 2];
    assert line.text.value == header + CRLF;
    assert input == line.text.value + line.rest;
    var before := input[..IndexOf(input, '\n').value];
    forall k | 0 <= k < |header| ensures header[k] != '\n' {
      assert header[k] == before[k] && before[k] in before;
    }
  }

  lemma ReadHeaderDone(lib: Library, expectedDecoded: int, s: State, size: nat, available: nat)
    requires !s.done && s.remaining == 0 && !s.needChunkCRLF
    ensures var r := ReadHeader(lib, expectedDecoded, s, size, available);
            && (r.error == EOF <==> r.state.done)
            && (r.state.done ==> exists trailer :: AtEnding(lib, s, trailer) && Verifies(lib, expectedDecoded, r.state, trailer))
  {
    var r := ReadHeader(lib, expectedDecoded, s, size, available);
    if r.state.done {
      var header := LineIsHeader(s.input);
      var rest := ReadLine(s.input).rest;
      assert r == ReadEnd(lib, expectedDecoded, s.(input := rest));
      var trailer := lib.readTrailers(rest).value.value;
      NoPrefix(s.input, header + CRLF + rest);
      assert IsEnding(lib, s, header, rest, trailer);
      assert Verifies(lib, expectedDecoded, r.state, trailer);
    }
  }

  lemma ReadDone(lib: Library, expectedDecoded: int, s: State, size: nat, available: nat)
    requires !s.done
    ensures var r := Read(lib, expectedDecoded, s, size, available);
            && (r.error == EOF <==> r.state.done)
            && (r.state.done ==> exists trailer :: AtEnding(lib, s, trailer) && Verifies(lib, expectedDecoded, r.state, trailer))
  {
    var r := Read(lib, expectedDecoded, s, size, available);
    if s.remaining == 0 && !s.needChunkCRLF {
      ReadHeaderDone(lib, expectedDecoded, s, size, available);
    } else if s.remaining == 0 && |s.input| >= 2 {
      var t := s.(input := s.input[2..], needChunkCRLF := false);
      ReadHeaderDone(lib, expectedDecoded, t, size, available);
      if r.state.done {
        var trailer :| AtEnding(lib, t, trailer) && Verifies(lib, expectedDecoded, r.state, trailer);
        assert s.input == CRLF + t.input;
        EndingAfterChunk(lib, s, t.input, trailer);
      }
    }
  }

  lemma EndingAfterChunk(lib: Library, s: State, rest: string, trailer: string)
    requires s.needChunkCRLF && s.input == CRLF + rest
    requires AtEnding(lib, s.(input := rest, needChunkCRLF := false), trailer)
    ensures AtEnding(lib, s, trailer)
  {
    var t := s.(input := rest, needChunkCRLF := false);
    var header, trailers :| IsEnding(lib, t, header, trailers, trailer);
    NoPrefix(header + CRLF + trailers, header + CRLF + trailers);
    assert rest == header + CRLF + trailers;
    assert IsEnding(lib, s, header, trailers, trailer);
  }

  /** Once done, always done: some call found the ending of the input and verified its trailer
      against all that was delivered. */
  lemma {:induction false} DoneMeansVerified(lib: Library, expectedDecoded: int, input: string, calls: seq<Call>)
      returns (k: nat, trailer: string)
    requires After(lib, expectedDecoded, Start(input), calls).done
    ensures k < |calls| && AtEnding(lib, After(lib, expectedDecoded, Start(input), calls[..k]), trailer)
    ensures Verifies(lib, expectedDecoded, After(lib, expectedDecoded, Start(input), calls), trailer)
    decreases |calls|
  {
    var n := |calls| - 1;
    var before := After(lib, expectedDecoded, Start(input), calls[..n]);
    if before.done {
      k, trailer := DoneMeansVerified(lib, expectedDecoded, input, calls[..n]);
      assert calls[..n][..k] == calls[..k];
    } else {
      ReadDone(lib, expectedDecoded, before, calls[n].size, calls[n].available);
      k := n;
      trailer :| AtEnding(lib, before, trailer)
                 && Verifies(lib, expectedDecoded, After(lib, expectedDecoded, Start(input), calls), trailer);
    }
  }

  /** After the calls so far the input is at its ending, and the trailer there gives the checksum of
      `delivered`. */
  ghost predicate FoundTrailer(lib: Library, expectedDecoded: int, input: string, calls: seq<Call>, trailer: string, delivered: string) {
    && AtEnding(lib, After(lib, expectedDecoded, Start(input), calls), trailer)
    && lib.decodeBase64(trailer) == Some(lib.checksum(delivered)) && |lib.checksum(delivered)| > 0
  }

  /** For any input and any calls, even after errors, a read reports the end only if all that was
      delivered has the announced length and the checksum that the trailer gives which an earlier
      read, or this one, found at the ending of the input. */
  lemma EndIsVerified(lib: Library, expectedDecoded: int, input: string, calls: seq<Call>)
    requires calls != [] && LastResult(lib, expectedDecoded, Start(input), calls).error == EOF
    ensures var delivered := Delivered(lib, expectedDecoded, Start(input), calls);
            && |delivered| == expectedDecoded
            && exists k: nat, trailer :: k < |calls| && FoundTrailer(lib, expectedDecoded, input, calls[..k], trailer, delivered)
  {
    var n := |calls| - 1;
    var before := After(lib, expectedDecoded, Start(input), calls[..n]);
    if !before.done {
      ReadDone(lib, expectedDecoded, before, calls[n].size, calls[n].available);
    }
    SummedIsDelivered(lib, expectedDecoded, input, calls);
    var k, trailer := DoneMeansVerified(lib, expectedDecoded, input, calls);
    assert FoundTrailer(lib, expectedDecoded, input, calls[..k], trailer, Delivered(lib, expectedDecoded, Start(input), calls));
  }

  // ------------------------------------------------------------------ round trip

  /** One chunk on the wire, under any header that gives its size. */
  datatype Chunk = Chunk(header: string, data: string)

  predicate ValidChunk(c: Chunk) {
    c.data != "" && '\n' !in c.header && SizeOf(c.header) == Some(|c.data|)
  }

  /** The end of the stream: a header of size zero and the trailers. */
  datatype Ending = Ending(header: string, trailers: string)

  function Wire(chunks: seq<Chunk>, ending: Ending): string {
    if chunks == [] then ending.header + CRLF + ending.trailers
    else chunks[0].header + CRLF + chunks[0].data + CRLF + Wire(chunks[1..], ending)
  }

  function Payload(chunks: seq<Chunk>): string {
    if chunks == [] then "" else chunks[0].data + Payload(chunks[1..])
  }

  /** A body whose length and checksum trailer are those of its payload. */
  predicate ValidBody(lib: Library, expectedDecoded: int, chunks: seq<Chunk>, ending: Ending) {
    var payload, trailer := Payload(chunks), lib.readTrailers(ending.trailers).value;
    && (forall c <- chunks :: ValidChunk(c))
    && '\n' !in ending.header && SizeOf(ending.header) == Some(0)
    && |payload| == expectedDecoded
    && trailer.Some? && lib.decodeBase64(trailer.value) == Some(lib.checksum(payload)) && |lib.checksum(payload)| > 0
  }

  /** Where the reader is: `current` is what it has not delivered of its chunk. */
  ghost predicate OnWire(s: State, current: string, chunks: seq<Chunk>, ending: Ending) {
    && !s.done && s.remaining == |current| && s.decoded == |s.summed|
    && s.input == (if current != "" then current + CRLF else if s.needChunkCRLF then CRLF else "") + Wire(chunks, ending)
    && (current != "" ==> !s.needChunkCRLF)
  }

  lemma HeaderLine(header: string, rest: string)
    requires '\n' !in header
    ensures var line := ReadLine(header + CRLF + rest);
            line.text == Some(header + CRLF) && line.rest == rest && EndsInCRLF(header + CRLF)
            && (header + CRLF)[..|header + CRLF| - 2] == header
  {
    var s := header + CRLF + rest;
    var i := IndexOf(s, '\n').value;
    assert s[|header| + 1] == '\n';
    assert i <= |header| + 1;
    assert s[..|header| + 2] == header + CRLF && s[|header| + 2..] == rest;
  }

  /** Reading inside a chunk. */
  lemma ReadDataOnWire(s: State, current: string, chunks: seq<Chunk>, ending: Ending, size: nat, available: nat) returns (left: string)
    requires OnWire(s, current, chunks, ending) && current != "" && size > 0
    ensures var r := ReadData(s, size, available);
            && r.error == NoError && current == r.data + left && OnWire(r.state, left, chunks, ending)
            && r.state.summed == s.summed + r.data && (available > 0 ==> r.data != "")
  {
    var n := Min(Min(size, s.remaining), Min(available, |s.input|));
    left := current[n..];
    assert s.input[..n] == current[..n];
    assert s.input[n..] == left + CRLF + Wire(chunks, ending);
    if left == "" {
      assert s.input[n..] == CRLF + Wire(chunks, ending);
    }
  }

  /** Reading at the start of a chunk. */
  lemma ReadHeaderOnWire(lib: Library, expectedDecoded: int, s: State, chunks: seq<Chunk>, ending: Ending, size: nat, available: nat)
      returns (left: string)
    requires OnWire(s, "", chunks, ending) && !s.needChunkCRLF && chunks != [] && size > 0
    requires forall c <- chunks :: ValidChunk(c)
    ensures var r := ReadHeader(lib, expectedDecoded, s, size, available);
            && r.error == NoError && chunks[0].data == r.data + left && OnWire(r.state, left, chunks[1..], ending)
            && r.state.summed == s.summed + r.data && (available > 0 ==> r.data != "")
  {
    var c := chunks[0];
    assert ValidChunk(c);
    var rest := c.data + CRLF + Wire(chunks[1..], ending);
    assert s.input == c.header + CRLF + rest;
    HeaderLine(c.header, rest);
    var t := s.(input := rest, remaining := |c.data|);
    left := ReadDataOnWire(t, c.data, chunks[1..], ending, size, available);
  }

  lemma ReadEndOnWire(lib: Library, expectedDecoded: int, s: State, ending: Ending, size: nat, available: nat)
    requires OnWire(s, "", [], ending) && !s.needChunkCRLF && '\n' !in ending.header && SizeOf(ending.header) == Some(0)
    requires s.decoded == expectedDecoded
    requires var trailer := lib.readTrailers(ending.trailers).value;
             trailer.Some? && lib.decodeBase64(trailer.value) == Some(lib.checksum(s.summed)) && |lib.checksum(s.summed)| > 0
    ensures var r := ReadHeader(lib, expectedDecoded, s, size, available); r.error == EOF && r.data == "" && r.state.done
  {
    assert s.input == "" + Wire([], ending) == ending.header + CRLF + ending.trailers;
    HeaderLine(ending.header, ending.trailers);
    var t := s.(input := ending.trailers);
    assert ReadHeader(lib, expectedDecoded, s, size, available) == ReadEnd(lib, expectedDecoded, t);
  }

  /** Between two chunks, the end of the last one is skipped first. */
  lemma SkipChunkEnd(lib: Library, expectedDecoded: int, s: State, chunks: seq<Chunk>, ending: Ending, size: nat, available: nat)
      returns (t: State)
    requires OnWire(s, "", chunks, ending) && size > 0
    ensures OnWire(t, "", chunks, ending) && !t.needChunkCRLF && t.summed == s.summed && t.decoded == s.decoded
    ensures Read(lib, expectedDecoded, s, size, available) == ReadHeader(lib, expectedDecoded, t, size, available)
  {
    t := s;
    if s.needChunkCRLF {
      assert s.input[..2] == CRLF && s.input[2..] == Wire(chunks, ending);
      t := s.(input := s.input[2..], needChunkCRLF := false);
    }
  }

  /** What is still to come of a valid body. */
  ghost predicate ToCome(s: State, current: string, chunks: seq<Chunk>, body: seq<Chunk>, ending: Ending) {
    OnWire(s, current, chunks, ending) && s.summed + current + Payload(chunks) == Payload(body)
    && forall c <- chunks :: ValidChunk(c)
  }

  lemma ReadInChunk(lib: Library, expectedDecoded: int, body: seq<Chunk>, ending: Ending, s: State, current: string,
                    chunks: seq<Chunk>, size: nat, available: nat)
      returns (left: string)
    requires ToCome(s, current, chunks, body, ending) && current != "" && size > 0
    ensures var r := Read(lib, expectedDecoded, s, size, available);
            && r.error == NoError && ToCome(r.state, left, chunks, body, ending)
            && (available > 0 ==> r.data != "")
  {
    left := ReadDataOnWire(s, current, chunks, ending, size, available);
    var r := ReadData(s, size, available);
    assert Read(lib, expectedDecoded, s, size, available) == r;
    assert s.summed + r.data + left + Payload(chunks) == s.summed + (r.data + left) + Payload(chunks);
  }

  lemma ReadNextChunk(lib: Library, expectedDecoded: int, body: seq<Chunk>, ending: Ending, s: State, chunks: seq<Chunk>,
                      size: nat, available: nat)
      returns (left: string)
    requires ToCome(s, "", chunks, body, ending) && chunks != [] && size > 0
    ensures var r := Read(lib, expectedDecoded, s, size, available);
            && r.error == NoError && ToCome(r.state, left, chunks[1..], body, ending)
            && (available > 0 ==> r.data != "")
  {
    var t := SkipChunkEnd(lib, expectedDecoded, s, chunks, ending, size, available);
    left := ReadHeaderOnWire(lib, expectedDecoded, t, chunks, ending, size, available);
    var r := ReadHeader(lib, expectedDecoded, t, size, available);
    Regroup(s.summed, r.data, left, Payload(chunks[1..]));
  }

  lemma Regroup(summed: string, data: string, left: string, later: string)
    ensures summed + "" + ((data + left) + later) == summed + data + left + later
  {
  }

  /** One call on a valid body delivers the next bytes of the payload, or the end when there are
      none. */
  lemma ReadOnWire(lib: Library, expectedDecoded: int, body: seq<Chunk>, ending: Ending, s: State, current: string, chunks: seq<Chunk>,
                   size: nat, available: nat)
    requires ValidBody(lib, expectedDecoded, body, ending) && ToCome(s, current, chunks, body, ending)
    ensures var r := Read(lib, expectedDecoded, s, size, available);
            if r.error == EOF then r.data == "" && r.state.done && s.summed == Payload(body)
            else r.error == NoError && StillOnWire(r.state, body, ending) && (size > 0 && available > 0 ==> r.data != "")
  {
    var r := Read(lib, expectedDecoded, s, size, available);
    if size == 0 {
      assert ToCome(r.state, current, chunks, body, ending);
    } else if current != "" {
      var left := ReadInChunk(lib, expectedDecoded, body, ending, s, current, chunks, size, available);
      assert ToCome(r.state, left, chunks, body, ending);
    } else if chunks != [] {
      var left := ReadNextChunk(lib, expectedDecoded, body, ending, s, chunks, size, available);
      assert ToCome(r.state, left, chunks[1..], body, ending);
    } else {
      assert s.summed + "" + "" == s.summed;
      var t := SkipChunkEnd(lib, expectedDecoded, s, chunks, ending, size, available);
      ReadEndOnWire(lib, expectedDecoded, t, ending, size, available);
    }
  }

  predicate Productive(call: Call) {
    call.size > 0 && call.available > 0
  }

  function CountProductive(calls: seq<Call>): nat {
    if calls == [] then 0
    else CountProductive(calls[..|calls| - 1]) + if Productive(calls[|calls| - 1]) then 1 else 0
  }

  ghost predicate StillOnWire(s: State, body: seq<Chunk>, ending: Ending) {
    exists current, chunks :: ToCome(s, current, chunks, body, ending)
  }

  lemma {:induction false} StaysOnWire(lib: Library, expectedDecoded: int, body: seq<Chunk>, ending: Ending, calls: seq<Call>)
    requires ValidBody(lib, expectedDecoded, body, ending)
    ensures var s := After(lib, expectedDecoded, Start(Wire(body, ending)), calls);
            if s.done then s.summed == Payload(body)
            else StillOnWire(s, body, ending) && CountProductive(calls) <= |s.summed|
    ensures calls != [] ==> LastResult(lib, expectedDecoded, Start(Wire(body, ending)), calls).error in {NoError, EOF}
    decreases |calls|
  {
    var start := Start(Wire(body, ending));
    if calls == [] {
      assert "" + "" + Payload(body) == Payload(body);
      assert ToCome(start, "", body, body, ending);
    } else {
      var n := |calls| - 1;
      StaysOnWire(lib, expectedDecoded, body, ending, calls[..n]);
      var s := After(lib, expectedDecoded, start, calls[..n]);
      if !s.done {
        var current, chunks :| ToCome(s, current, chunks, body, ending);
        ReadOnWire(lib, expectedDecoded, body, ending, s, current, chunks, calls[n].size, calls[n].available);
        ReadKeepsSum(lib, expectedDecoded, s, calls[n].size, calls[n].available);
        ReadDone(lib, expectedDecoded, s, calls[n].size, calls[n].available);
      }
    }
  }

  /** Round trip.  Whatever the split into chunks, the buffers and the short reads: no call fails,
      what was delivered is a beginning of the payload and all of it when the end is reported, and
      the end is reported after at most one more productive call than the payload has bytes. */
  lemma RoundTrip(lib: Library, expectedDecoded: int, body: seq<Chunk>, ending: Ending, calls: seq<Call>)
    requires ValidBody(lib, expectedDecoded, body, ending) && calls != []
    ensures var start := Start(Wire(body, ending));
            var delivered, last := Delivered(lib, expectedDecoded, start, calls), LastResult(lib, expectedDecoded, start, calls);
            && last.error in {NoError, EOF}
            && delivered <= Payload(body)
            && (last.error == EOF ==> delivered == Payload(body))
            && (CountProductive(calls) > |Payload(body)| ==> last.state.done)
  {
    var start := Start(Wire(body, ending));
    StaysOnWire(lib, expectedDecoded, body, ending, calls);
    SummedIsDelivered(lib, expectedDecoded, Wire(body, ending), calls);
    var n := |calls| - 1;
    var before := After(lib, expectedDecoded, start, calls[..n]);
    if !before.done {
      ReadDone(lib, expectedDecoded, before, calls[n].size, calls[n].available);
    }
    var s := After(lib, expectedDecoded, start, calls);
    if !s.done {
      PartOfPayload(s, body, ending);
    }
  }

  lemma PartOfPayload(s: State, body: seq<Chunk>, ending: Ending)
    requires StillOnWire(s, body, ending)
    ensures s.summed <= Payload(body)
  {
    var current, chunks :| ToCome(s, current, chunks, body, ending);
    assert Payload(body) == s.summed + (current + Payload(chunks));
  }

  // --------------------------------------------------------- nothing else is accepted

  /** Chunks on the wire, without what follows them. */
  function Head(chunks: seq<Chunk>): string {
    if chunks == [] then "" else chunks[0].header + CRLF + chunks[0].data + CRLF + Head(chunks[1..])
  }

  lemma Prepend(pre: string, a: string, b: string, c: string)
    ensures pre + (a + b + c) == (pre + a) + b + c
  {
  }

  lemma {:induction false} HeadGrows(chunks: seq<Chunk>, c: Chunk)
    ensures Head(chunks + [c]) == Head(chunks) + (c.header + CRLF + c.data) + CRLF
    ensures Payload(chunks + [c]) == Payload(chunks) + c.data
  {
    if chunks == [] {
      assert [] + [c] == [c] && [c][1..] == [];
      assert c.header + CRLF + c.data + CRLF + "" == "" + (c.header + CRLF + c.data) + CRLF;
    } else {
      var all, first := chunks + [c], chunks[0];
      assert all[0] == first && all[1..] == chunks[1..] + [c];
      HeadGrows(chunks[1..], c);
      Prepend(first.header + CRLF + first.data + CRLF, Head(chunks[1..]), c.header + CRLF + c.data, CRLF);
      Prepend(first.data, Payload(chunks[1..]), c.data, "");
    }
  }

  lemma {:induction false} WireIsHead(chunks: seq<Chunk>, ending: Ending)
    ensures Wire(chunks, ending) == Head(chunks) + (ending.header + CRLF + ending.trailers)
  {
    if chunks == [] {
      NoPrefix(ending.header + CRLF + ending.trailers, ending.header + CRLF + ending.trailers);
    } else {
      WireIsHead(chunks[1..], ending);
    }
  }

  /** The reader stands between two chunks of `input`, or, with `part` of the next one delivered, in it
      or at its end. */
  ghost predicate Between(input: string, s: State, body: seq<Chunk>) {
    && !s.done && s.remaining == 0 && !s.needChunkCRLF && (forall c <- body :: ValidChunk(c))
    && input == Head(body) + s.input && s.summed == Payload(body)
  }

  ghost predicate Within(input: string, s: State, body: seq<Chunk>, header: string, part: string) {
    && !s.done && (s.needChunkCRLF <==> s.remaining == 0) && (forall c <- body :: ValidChunk(c))
    && '\n' !in header && SizeOf(header) == Some(|part| + s.remaining) && |part| + s.remaining > 0
    && input == Head(body) + (header + CRLF + part) + s.input && s.summed == Payload(body) + part
  }

  ghost predicate Placed(input: string, s: State) {
    (exists body :: Between(input, s, body)) || (exists body, header, part :: Within(input, s, body, header, part))
  }

  lemma DataStays(input: string, s: State, body: seq<Chunk>, header: string, part: string, size: nat, available: nat)
    requires Within(input, s, body, header, part) && s.remaining > 0 && ReadData(s, size, available).error == NoError
    ensures var r := ReadData(s, size, available); Within(input, r.state, body, header, part + r.data)
  {
    var r := ReadData(s, size, available);
    assert s.input == r.data + r.state.input;
    Shift(Head(body), header + CRLF, part, r.data, r.state.input);
    Shift(Payload(body), "", part, r.data, "");
  }

  lemma Shift(a: string, b: string, part: string, data: string, rest: string)
    ensures a + (b + part) + (data + rest) == a + (b + (part + data)) + rest
    ensures a + part + data == a + (part + data)
  {
  }

  lemma NothingYet(a: string, b: string, rest: string)
    ensures a + (b + rest) == a + (b + "") + rest && a + "" == a
  {
    assert b + "" == b;
  }

  lemma HeaderStays(lib: Library, expectedDecoded: int, input: string, s: State, body: seq<Chunk>, size: nat, available: nat)
    requires Between(input, s, body) && ReadHeader(lib, expectedDecoded, s, size, available).error == NoError
    ensures Placed(input, ReadHeader(lib, expectedDecoded, s, size, available).state)
  {
    var header := LineIsHeader(s.input);
    var n := SizeOf(header).value;
    var t := s.(input := ReadLine(s.input).rest, remaining := n);
    NothingYet(Head(body), header + CRLF, t.input);
    NothingYet(Payload(body), "", "");
    assert Within(input, t, body, header, "");
    DataStays(input, t, body, header, "", size, available);
  }

  /** Past the end of a chunk. */
  lemma ChunkIsOver(input: string, s: State, body: seq<Chunk>, header: string, part: string, rest: string)
    requires Within(input, s, body, header, part) && s.needChunkCRLF && s.input == CRLF + rest
    ensures Between(input, s.(input := rest, needChunkCRLF := false), body + [Chunk(header, part)])
  {
    HeadGrows(body, Chunk(header, part));
    assert Head(body) + (header + CRLF + part) + (CRLF + rest) == Head(body) + (header + CRLF + part) + CRLF + rest;
  }

  /** `input` is the wire of a valid body with this payload. */
  ghost predicate IsBodyOf(lib: Library, expectedDecoded: int, input: string, payload: string) {
    exists body, ending :: ValidBody(lib, expectedDecoded, body, ending) && input == Wire(body, ending) && Payload(body) == payload
  }

  lemma EndIsEnding(lib: Library, expectedDecoded: int, input: string, s: State, body: seq<Chunk>, size: nat, available: nat)
    requires Between(input, s, body) && s.decoded == |s.summed|
    requires ReadHeader(lib, expectedDecoded, s, size, available).error == EOF
    ensures IsBodyOf(lib, expectedDecoded, input, s.summed)
  {
    var header := LineIsHeader(s.input);
    var trailers := ReadLine(s.input).rest;
    var ending := Ending(header, trailers);
    WireIsHead(body, ending);
    assert ReadHeader(lib, expectedDecoded, s, size, available) == ReadEnd(lib, expectedDecoded, s.(input := trailers));
    assert ValidBody(lib, expectedDecoded, body, ending);
  }

  lemma AtBoundary(lib: Library, expectedDecoded: int, input: string, s: State, body: seq<Chunk>, size: nat, available: nat)
    requires Between(input, s, body) && s.decoded == |s.summed|
    ensures var r := ReadHeader(lib, expectedDecoded, s, size, available);
            && (r.error == NoError ==> Placed(input, r.state))
            && (r.error == EOF ==> IsBodyOf(lib, expectedDecoded, input, s.summed))
  {
    var r := ReadHeader(lib, expectedDecoded, s, size, available);
    if r.error == NoError {
      HeaderStays(lib, expectedDecoded, input, s, body, size, available);
    } else if r.error == EOF {
      EndIsEnding(lib, expectedDecoded, input, s, body, size, available);
    }
  }

  lemma InChunk(lib: Library, expectedDecoded: int, input: string, s: State, body: seq<Chunk>, header: string, part: string,
                size: nat, available: nat)
    requires Within(input, s, body, header, part) && s.decoded == |s.summed| && size > 0
    ensures var r := Read(lib, expectedDecoded, s, size, available);
            && (r.error == NoError ==> Placed(input, r.state))
            && (r.error == EOF ==> IsBodyOf(lib, expectedDecoded, input, s.summed))
  {
    if s.remaining > 0 {
      if ReadData(s, size, available).error == NoError {
        DataStays(input, s, body, header, part, size, available);
      }
    } else if |s.input| >= 2 && s.input[..2] == CRLF {
      var rest := s.input[2..];
      assert s.input == CRLF + rest;
      ChunkIsOver(input, s, body, header, part, rest);
      AtBoundary(lib, expectedDecoded, input, s.(input := rest, needChunkCRLF := false), body + [Chunk(header, part)], size, available);
    }
  }

  /** A call that does not fail keeps the reader placed, or ends at the ending of a valid body. */
  lemma ReadStaysPlaced(lib: Library, expectedDecoded: int, input: string, s: State, size: nat, available: nat)
    requires Placed(input, s) && s.decoded == |s.summed|
    ensures var r := Read(lib, expectedDecoded, s, size, available);
            && (r.error == NoError ==> Placed(input, r.state))
            && (r.error == EOF ==> IsBodyOf(lib, expectedDecoded, input, s.summed))
  {
    if size > 0 {
      if body :| Between(input, s, body) {
        AtBoundary(lib, expectedDecoded, input, s, body, size, available);
      } else {
        var body, header, part :| Within(input, s, body, header, part);
        InChunk(lib, expectedDecoded, input, s, body, header, part, size, available);
      }
    }
  }

  /** No call failed or reported the end. */
  predicate AllClean(lib: Library, expectedDecoded: int, input: string, calls: seq<Call>)
    decreases |calls|
  {
    calls != [] ==>
      AllClean(lib, expectedDecoded, input, calls[..|calls| - 1])
      && LastResult(lib, expectedDecoded, Start(input), calls).error == NoError
  }

  lemma {:induction false} CleanIsPlaced(lib: Library, expectedDecoded: int, input: string, calls: seq<Call>)
    requires AllClean(lib, expectedDecoded, input, calls)
    ensures Placed(input, After(lib, expectedDecoded, Start(input), calls))
    decreases |calls|
  {
    if calls == [] {
      NoPrefix(input, input);
      assert Between(input, Start(input), []);
    } else {
      var n := |calls| - 1;
      CleanIsPlaced(lib, expectedDecoded, input, calls[..n]);
      SummedIsDelivered(lib, expectedDecoded, input, calls[..n]);
      ReadStaysPlaced(lib, expectedDecoded, input, After(lib, expectedDecoded, Start(input), calls[..n]), calls[n].size, calls[n].available);
    }
  }

  /** The calls reach the end and none fails on the way. */
  predicate Decodes(lib: Library, expectedDecoded: int, input: string, calls: seq<Call>) {
    && calls != [] && AllClean(lib, expectedDecoded, input, calls[..|calls| - 1])
    && LastResult(lib, expectedDecoded, Start(input), calls).error == EOF
  }

  /** Round trip, backwards: what is decoded without a failure was the wire of a valid body, and what
      was delivered is its payload. */
  lemma DecodedIsValid(lib: Library, expectedDecoded: int, input: string, calls: seq<Call>)
    requires Decodes(lib, expectedDecoded, input, calls)
    ensures IsBodyOf(lib, expectedDecoded, input, Delivered(lib, expectedDecoded, Start(input), calls))
  {
    var n := |calls| - 1;
    var s := After(lib, expectedDecoded, Start(input), calls[..n]);
    CleanIsPlaced(lib, expectedDecoded, input, calls[..n]);
    SummedIsDelivered(lib, expectedDecoded, input, calls[..n]);
    SummedIsDelivered(lib, expectedDecoded, input, calls);
    ReadStaysPlaced(lib, expectedDecoded, input, s, calls[n].size, calls[n].available);
    EndDeliversNothing(lib, expectedDecoded, s, calls[n].size, calls[n].available);
  }

  lemma EndDeliversNothing(lib: Library, expectedDecoded: int, s: State, size: nat, available: nat)
    requires Read(lib, expectedDecoded, s, size, available).error == EOF
    ensures Read(lib, expectedDecoded, s, size, available).state.summed == s.summed
  {
  }

  /** On a valid body nothing fails before the end. */
  lemma {:induction false} NotDoneIsClean(lib: Library, expectedDecoded: int, body: seq<Chunk>, ending: Ending, calls: seq<Call>)
    requires ValidBody(lib, expectedDecoded, body, ending)
    requires !After(lib, expectedDecoded, Start(Wire(body, ending)), calls).done
    ensures AllClean(lib, expectedDecoded, Wire(body, ending), calls)
    decreases |calls|
  {
    if calls != [] {
      var n := |calls| - 1;
      var s := After(lib, expectedDecoded, Start(Wire(body, ending)), calls[..n]);
      StaysOnWire(lib, expectedDecoded, body, ending, calls);
      if !s.done {
        ReadDone(lib, expectedDecoded, s, calls[n].size, calls[n].available);
      }
      NotDoneIsClean(lib, expectedDecoded, body, ending, calls[..n]);
    }
  }

  /** The calls up to the first to report the end. */
  lemma {:induction false} FirstEnd(lib: Library, expectedDecoded: int, body: seq<Chunk>, ending: Ending, calls: seq<Call>)
      returns (first: seq<Call>)
    requires ValidBody(lib, expectedDecoded, body, ending)
    requires After(lib, expectedDecoded, Start(Wire(body, ending)), calls).done
    ensures first <= calls && Decodes(lib, expectedDecoded, Wire(body, ending), first)
    decreases |calls|
  {
    var n := |calls| - 1;
    var input := Wire(body, ending);
    var s := After(lib, expectedDecoded, Start(input), calls[..n]);
    if s.done {
      first := FirstEnd(lib, expectedDecoded, body, ending, calls[..n]);
    } else {
      ReadDone(lib, expectedDecoded, s, calls[n].size, calls[n].available);
      NotDoneIsClean(lib, expectedDecoded, body, ending, calls[..n]);
      first := calls;
    }
  }

  lemma CountOneMore(calls: seq<Call>, call: Call)
    ensures CountProductive(calls + [call]) == CountProductive(calls) + if Productive(call) then 1 else 0
  {
    assert (calls + [call])[..|calls|] == calls;
  }

  lemma {:induction false} ByteByByte(n: nat) returns (calls: seq<Call>)
    ensures |calls| == n && CountProductive(calls) == n
  {
    if n == 0 {
      calls := [];
    } else {
      var before := ByteByByte(n - 1);
      calls := before + [Call(1, 1)];
      CountOneMore(before, Call(1, 1));
    }
  }

  lemma ValidIsDecoded(lib: Library, expectedDecoded: int, body: seq<Chunk>, ending: Ending) returns (calls: seq<Call>)
    requires ValidBody(lib, expectedDecoded, body, ending)
    ensures Decodes(lib, expectedDecoded, Wire(body, ending), calls)
  {
    var all := ByteByByte(|Payload(body)| + 1);
    RoundTrip(lib, expectedDecoded, body, ending, all);
    calls := FirstEnd(lib, expectedDecoded, body, ending, all);
  }

  /** The decoder's language: some reads decode an input if and only if it is the wire of a body whose
      payload has the announced length and the checksum in its trailer. */
  lemma DecodesExactly(lib: Library, expectedDecoded: int, input: string)
    ensures (exists calls :: Decodes(lib, expectedDecoded, input, calls))
       <==> exists payload :: IsBodyOf(lib, expectedDecoded, input, payload)
  {
    forall calls | Decodes(lib, expectedDecoded, input, calls)
      ensures exists payload :: IsBodyOf(lib, expectedDecoded, input, payload)
    {
      DecodedIsValid(lib, expectedDecoded, input, calls);
    }
    forall payload | IsBodyOf(lib, expectedDecoded, input, payload)
      ensures exists calls :: Decodes(lib, expectedDecoded, input, calls)
    {
      var body, ending :| ValidBody(lib, expectedDecoded, body, ending) && input == Wire(body, ending) && Payload(body) == payload;
      var calls := ValidIsDecoded(lib, expectedDecoded, body, ending);
    }
  }

  // ------------------------------------------------------------ the usual header

  function Digit(d: nat): char
    requires d < 16
  {
    "0123456789abcdef"[d]
  }

  function Hex(n: nat): string {
    if n < 16 then [Digit(n)] else Hex(n / 16) + [Digit(n % 16)]
  }

  /** The header an encoder writes gives back the size. */
  lemma {:induction false} HexRoundTrip(n: nat)
    ensures ParseDigits(Hex(n)) == Some(n)
    decreases n
  {
    DigitOf(n % 16);
    if n < 16 {
      assert [Digit(n)] == "" + [Digit(n)];
      LastDigit("", Digit(n));
    } else {
      HexRoundTrip(n / 16);
      LastDigit(Hex(n / 16), Digit(n % 16));
    }
  }

  lemma {:induction false} HexIsDigits(n: nat)
    ensures Hex(n) != "" && forall c <- Hex(n) :: HexDigit(c).Some?
    decreases n
  {
    DigitOf(n % 16);
    if n >= 16 {
      HexIsDigits(n / 16);
    }
  }

  lemma DigitOf(d: nat)
    requires d < 16
    ensures HexDigit(Digit(d)) == Some(d)
  {
  }

  lemma LastDigit(s: string, c: char)
    ensures ParseDigits(s + [c]) == match (ParseDigits(s), HexDigit(c))
                                    case (Some(n), Some(d)) => Some(16 * n + d)
                                    case _ => None
  {
    assert (s + [c])[..|s|] == s;
  }

  /** The size stands before the first semicolon; what follows it is ignored. */
  lemma SizeOfExactly(size: string, extension: string)
    requires ';' !in size
    ensures SizeOf(size) == ParseHex(size) && SizeOf(size + ";" + extension) == ParseHex(size)
  {
    IndexOfFirst(size, ';', extension);
    assert (size + ";" + extension)[..|size|] == size;
  }

  /** A sign may stand before the digits, and the number must fit 64 bits. */
  lemma ParseHexExactly(digits: string, n: nat)
    requires digits != "" && ParseDigits(digits) == Some(n)
    ensures ParseHex(digits) == ParseHex("+" + digits) == if n < INT64_LIMIT then Some(n) else None
    ensures ParseHex("-" + digits) == if n <= INT64_LIMIT then Some(0 - n) else None
  {
    OnlyDigitsParse(digits);
    assert digits[0] in digits;
    assert ("+" + digits)[1..] == digits && ("-" + digits)[1..] == digits;
    assert HexDigit('-').None? && HexDigit('+').None?;
  }

  lemma NoNumber(digits: string)
    requires digits == "" || (digits[0] !in {'+', '-'} && ParseDigits(digits).None?)
    ensures ParseHex(digits) == ParseHex("+" + digits) == ParseHex("-" + digits) == None
  {
    assert ("+" + digits)[1..] == digits && ("-" + digits)[1..] == digits;
  }

  lemma HexDigitExactly(c: char, d: nat)
    ensures HexDigit(c) == Some(d) <==> d < 16 && (c == "0123456789abcdef"[d] || c == "0123456789ABCDEF"[d])
  {
  }

  lemma {:induction false} OnlyDigitsParse(s: string)
    ensures ParseDigits(s).Some? <==> forall c <- s :: HexDigit(c).Some?
    decreases |s|
  {
    if s != [] {
      var n := |s| - 1;
      OnlyDigitsParse(s[..n]);
      assert s == s[..n] + [s[n]];
    }
  }

  lemma PlainHeaderParses(n: nat)
    requires n < INT64_LIMIT
    ensures ParseHex(Hex(n)) == Some(n) && ';' !in Hex(n) && '\n' !in Hex(n)
  {
    HexRoundTrip(n);
    HexIsDigits(n);
    assert HexDigit('\n').None? && HexDigit(';').None? && HexDigit('-').None? && HexDigit('+').None?;
    assert Hex(n)[0] in Hex(n);
  }

  lemma PlainHeaderIsValid(data: string)
    requires 0 < |data| < INT64_LIMIT
    ensures ValidChunk(Chunk(Hex(|data|), data))
  {
    PlainHeaderParses(|data|);
    assert Before(Hex(|data|), ';') == Hex(|data|);
  }

  // ---------------------------------------------------------- the code, as run

  class Reader {
    const lib: Library
    const expectedDecoded: int
    var state: State

    constructor (lib: Library, body: string, decodedLength: int)
      requires decodedLength >= 0
      ensures this.lib == lib && expectedDecoded == decodedLength && state == Start(body)
    {
      this.lib := lib;
      expectedDecoded := decodedLength;
      state := Start(body);
    }

    /** The comparison in constant time. */
    method Verify(trailer: string) returns (ok: bool)
      ensures ok <==> Verifies(lib, expectedDecoded, state, trailer)
    {
      if state.decoded != expectedDecoded {
        return false;
      }
      var decoded := lib.decodeBase64(trailer);
      if decoded.None? || |decoded.value| == 0 {
        return false;
      }
      var expected, actual := decoded.value, lib.checksum(state.summed);
      if |actual| != |expected| {
        return false;
      }
      var mismatch: bv8 := 0;
      for i := 0 to |actual|
        invariant mismatch == 0 <==> actual[..i] == expected[..i]
      {
        mismatch := mismatch | (actual[i] ^ expected[i]);
        assert actual[..i + 1] == actual[..i] + [actual[i]];
        assert expected[..i + 1] == expected[..i] + [expected[i]];
      }
      assert actual[..|actual|] == actual && expected[..|expected|] == expected;
      return mismatch == 0;
    }

    method ReadTrailer() returns (error: Error)
      modifies this
      ensures Result(state, "", error) == ReadEnd(lib, expectedDecoded, old(state))
    {
      var trailers := lib.readTrailers(state.input);
      state := state.(input := trailers.rest);
      if trailers.value.None? {
        return Invalid;
      }
      var ok := Verify(trailers.value.value);
      if !ok {
        return Invalid;
      }
      state := state.(done := true);
      return EOF;
    }

    method ReadFrom(size: nat, available: nat) returns (data: string, error: Error)
      modifies this
      ensures Result(state, data, error) == ReadData(old(state), size, available)
    {
      if state.input == [] {
        return "", UnexpectedEOF;
      }
      var n := Min(Min(size, state.remaining), Min(available, |state.input|));
      data := state.input[..n];
      state := state.(input := state.input[n..], summed := state.summed + data, decoded := state.decoded + n,
                      remaining := state.remaining - n, needChunkCRLF := state.needChunkCRLF || (n > 0 && state.remaining == n));
      return data, NoError;
    }

    /** awsChunkedReader.Read. */
    method ReadNext(size: nat, available: nat) returns (data: string, error: Error)
      modifies this
      ensures Result(state, data, error) == Read(lib, expectedDecoded, old(state), size, available)
    {
      if state.done {
        return "", EOF;
      }
      if size == 0 {
        return "", NoError;
      }
      if state.needChunkCRLF {
        if |state.input| < 2 {
          state := state.(input := "");
          return "", Invalid;
        }
        var ending := state.input[..2];
        state := state.(input := state.input[2..]);
        if ending != CRLF {
          return "", Invalid;
        }
        state := state.(needChunkCRLF := false);
      }
      if state.remaining == 0 {
        var line := ReadLine(state.input);
        state := state.(input := line.rest);
        if line.text.None? || !EndsInCRLF(line.text.value) {
          return "", Invalid;
        }
        var chunkSize := SizeOf(line.text.value[..|line.text.value| - 2]);
        if chunkSize.None? || chunkSize.value < 0 {
          return "", Invalid;
        }
        if chunkSize.value == 0 {
          error := ReadTrailer();
          return "", error;
        }
        state := state.(remaining := chunkSize.value);
      }
      data, error := ReadFrom(size, available);
    }
  }

}
