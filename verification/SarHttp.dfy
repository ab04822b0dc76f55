/**
 * The HTTP client of the SAR seeding tool: chunked bodies (section 7.1 of
 * RFC 9112), the test for a complete response, and the loop that reads until
 * that test passes. The main results say what the division of the byte stream
 * into reads can and cannot change.
 */
module SarHttp {
  import opened Wrappers
  import opened Bytes
  import opened Text
  import opened HttpHeaders
  import Utf8

  // ---- chunked bodies --------------------------------------------------------------

  /** Whether arithmetic in `usize` wraps, as in a release build, or is checked. */
  datatype Build = Wrapping | Checked

  /** `Panicked` stands for a panic: of checked arithmetic, or of a slice out of range. */
  datatype HttpError =
    | MissingHeaderEnd
    | MissingStatus
    | IncompleteChunkSize
    | InvalidChunkSize
    | IncompleteTrailer
    | IncompleteChunk
    | MissingTerminator
    | Panicked

  /**
   * A decoded body and the offset after its last byte, an error, or the size of a chunk that no `usize` sum
   * can hold, with the offset from which bytes up to there make the decoder panic.
   */
  datatype Scan = Decoded(body: seq<byte>, end: nat) | Failed(error: HttpError) | Overflowed(at: nat)

  /** The size in a chunk's first line; extensions after a semicolon are ignored. */
  function ChunkSize(line: seq<byte>): (size: Option<nat>)
    ensures size.Some? ==> size.value <= U64_MAX
  {
    ParseUint(Trim(Split(Utf8.Decode(line), ';')[0]), 16, U64_MAX)
  }

  /** What stands at an offset: nothing decodable, a panic, the end of the body, or the data of one chunk. */
  datatype Step = Broken(error: HttpError) | Overflow(at: nat) | Final(end: nat) | Data(from: nat, to: nat)

  function ReadStep(build: Build, bytes: seq<byte>, offset: nat): (r: Step)
    ensures r.Final? ==> offset + 4 <= r.end <= |bytes|
    ensures r.Data? ==> offset + 2 <= r.from < r.to && r.to + 2 <= |bytes|
    ensures r.Overflow? ==> offset + 2 <= r.at <= |bytes|
    ensures r.Broken? ==> r.error != Panicked
  {
    var found := Find(bytes, CRLF, offset);
    if found.None? then Broken(IncompleteChunkSize)
    else
      var size := ChunkSize(bytes[offset..found.value]);
      var data := found.value + 2;
      if size.None? then Broken(InvalidChunkSize)
      else if size.value == 0 then
        if data + 2 <= |bytes| then Final(data + 2) else Broken(IncompleteTrailer)
      else if data + size.value + 2 > U64_MAX then OverflowStep(build, |bytes|, data, data + size.value + 2)
      else if |bytes| < data + size.value + 2 then Broken(IncompleteChunk)
      else if bytes[data + size.value..data + size.value + 2] != CRLF then Broken(MissingTerminator)
      else Data(data, data + size.value)
  }

  /** A wrapped sum is small: as soon as the bytes reach it, the decoder slices out of range. */
  function OverflowStep(build: Build, length: nat, data: nat, sum: nat): (r: Step)
    requires sum > U64_MAX
    ensures r.Overflow? || r == Broken(IncompleteChunk)
    ensures r.Overflow? ==> r.at >= data
  {
    var wrapped := sum - U64_MAX - 1;
    if build.Checked? then Overflow(data)
    else if length < wrapped then Broken(IncompleteChunk)
    else Overflow(Max(data, wrapped))
  }

  function ChunksFrom(build: Build, bytes: seq<byte>, offset: nat): (r: Scan)
    ensures r.Decoded? ==> offset + 2 < r.end <= |bytes|
    ensures r.Overflowed? ==> offset + 2 <= r.at <= |bytes|
    ensures r.Failed? ==> r.error != Panicked
    decreases |bytes| - offset
  {
    match ReadStep(build, bytes, offset)
    case Broken(e) => Failed(e)
    case Overflow(at) => Overflowed(at)
    case Final(end) => Decoded([], end)
    case Data(from, to) =>
      match ChunksFrom(build, bytes, to + 2)
      case Decoded(body, end) => Decoded(bytes[from..to] + body, end)
      case Failed(e) => Failed(e)
      case Overflowed(at) => Overflowed(at)
  }

  /** A decode carried on after the bytes already decoded. */
  function Continued(decoded: seq<byte>, rest: Scan): Result<seq<byte>, HttpError> {
    match rest
    case Decoded(body, _) => Ok(decoded + body)
    case Failed(e) => Err(e)
    case Overflowed(_) => Err(Panicked)
  }

  function ChunkedBody(build: Build, bytes: seq<byte>): Result<seq<byte>, HttpError> {
    Continued([], ChunksFrom(build, bytes, 0))
  }

  lemma ContinueAfterData(build: Build, bytes: seq<byte>, offset: nat, decoded: seq<byte>)
    requires ReadStep(build, bytes, offset).Data?
    ensures var Data(from, to) := ReadStep(build, bytes, offset);
            Continued(decoded, ChunksFrom(build, bytes, offset))
            == Continued(decoded + bytes[from..to], ChunksFrom(build, bytes, to + 2))
  {
    hide ReadStep;
    var Data(from, to) := ReadStep(build, bytes, offset);
    var rest := ChunksFrom(build, bytes, to + 2);
    if rest.Decoded? { Assoc(decoded, bytes[from..to], rest.body); }
  }

  lemma ContinueAtEnd(build: Build, bytes: seq<byte>, offset: nat, decoded: seq<byte>)
    ensures var step, r := ReadStep(build, bytes, offset), Continued(decoded, ChunksFrom(build, bytes, offset));
            && (step.Broken? ==> r == Err(step.error))
            && (step.Overflow? ==> r == Err(Panicked))
            && (step.Final? ==> r == Ok(decoded))
  {
    hide ReadStep;
    assert decoded + [] == decoded;
  }

  method DecodeChunkedBody(build: Build, bytes: seq<byte>) returns (r: Result<seq<byte>, HttpError>)
    requires |bytes| <= ISIZE_MAX
    ensures r == ChunkedBody(build, bytes)
  {
    hide ChunkSize, ChunksFrom, Continued, Wrapped, Find;
    var decoded: seq<byte>, offset: nat := [], 0;
    while true
      invariant offset <= |bytes|
      invariant Continued(decoded, ChunksFrom(build, bytes, offset)) == ChunkedBody(build, bytes)
      decreases |bytes| - offset
    {
      ContinueAtEnd(build, bytes, offset, decoded);
      if ReadStep(build, bytes, offset).Data? { ContinueAfterData(build, bytes, offset, decoded); }
      var lineEnd := Find(bytes, CRLF, offset);
      if lineEnd.None? {
        return Err(IncompleteChunkSize);
      }
      var size := ChunkSize(bytes[offset..lineEnd.value]);
      if size.None? {
        return Err(InvalidChunkSize);
      }
      offset := lineEnd.value + 2;
      if size.value == 0 {
        return if |bytes| >= offset + 2 then Ok(decoded) else Err(IncompleteTrailer);
      }
      var sum := offset + size.value + 2;
      WrappedSum(sum);
      WrappedSum(offset + size.value);
      if build.Checked? && sum > U64_MAX {
        return Err(Panicked);
      }
      if |bytes| < Wrapped(sum) {
        return Err(IncompleteChunk);
      }
      var end := Wrapped(offset + size.value);
      if end < offset || end > |bytes| {
        return Err(Panicked);
      }
      decoded := decoded + bytes[offset..end];
      offset := end;
      if bytes[offset..offset + 2] != CRLF {
        return Err(MissingTerminator);
      }
      offset := offset + 2;
    }
  }

  lemma SameSlice(bytes: seq<byte>, other: seq<byte>, end: nat, i: nat, j: nat)
    requires i <= j <= end <= |bytes| && end <= |other| && other[..end] == bytes[..end]
    ensures other[i..j] == bytes[i..j]
  {
    assert other[i..j] == other[..end][i..j];
    assert bytes[i..j] == bytes[..end][i..j];
  }

  /** The bytes that settle a step for good. */
  function StepReach(step: Step): Option<nat> {
    match step
    case Broken(_) => None
    case Overflow(at) => Some(at)
    case Final(end) => Some(end)
    case Data(_, to) => Some(to + 2)
  }

  /** The bytes that settle a scan for good; none when more bytes may change it. */
  function Reach(scan: Scan): Option<nat> {
    match scan
    case Decoded(_, end) => Some(end)
    case Failed(_) => None
    case Overflowed(at) => Some(at)
  }

  lemma OverflowIsLocal(build: Build, length: nat, other: nat, data: nat, sum: nat)
    requires sum > U64_MAX
    requires var step := OverflowStep(build, length, data, sum); step.Overflow? && other >= step.at
    ensures OverflowStep(build, other, data, sum) == OverflowStep(build, length, data, sum)
  {
  }

  /** One step reads nothing past its reach. */
  lemma StepIsLocal(build: Build, bytes: seq<byte>, other: seq<byte>, offset: nat, end: nat)
    requires var reach := StepReach(ReadStep(build, bytes, offset)); reach.Some? && end >= reach.value
    requires end <= |bytes| && end <= |other| && other[..end] == bytes[..end]
    ensures ReadStep(build, other, offset) == ReadStep(build, bytes, offset)
  {
    hide ChunkSize, Find, OverflowStep;
    var line := Find(bytes, CRLF, offset).value;
    forall i | offset <= i <= line ensures OccursAt(other, CRLF, i) <==> OccursAt(bytes, CRLF, i) {
      SameSlice(bytes, other, end, i, i + 2);
    }
    FindIs(other, CRLF, offset, line);
    SameSlice(bytes, other, end, offset, line);
    var step := ReadStep(build, bytes, offset);
    if step.Data? { SameSlice(bytes, other, end, step.to, step.to + 2); }
    if step.Overflow? {
      var data := line + 2;
      OverflowIsLocal(build, |bytes|, |other|, data, data + ChunkSize(bytes[offset..line]).value + 2);
    }
  }

  /** A settled decode, or panic, depends only on the bytes that settle it. */
  lemma {:induction false} ChunksAreLocal(build: Build, bytes: seq<byte>, other: seq<byte>, offset: nat)
    requires var reach := Reach(ChunksFrom(build, bytes, offset));
             reach.Some? && reach.value <= |other| && other[..reach.value] == bytes[..reach.value]
    ensures ChunksFrom(build, other, offset) == ChunksFrom(build, bytes, offset)
    decreases |bytes| - offset
  {
    hide ReadStep;
    var end := Reach(ChunksFrom(build, bytes, offset)).value;
    StepIsLocal(build, bytes, other, offset, end);
    var step := ReadStep(build, bytes, offset);
    if step.Data? {
      ChunksAreLocal(build, bytes, other, step.to + 2);
      SameSlice(bytes, other, end, step.from, step.to);
    }
  }

  /** Of the prefixes of a settled body exactly those that reach its end are settled, all in the same way. */
  lemma PrefixDecodesFromEndOn(build: Build, bytes: seq<byte>, m: nat)
    requires Reach(ChunksFrom(build, bytes, 0)).Some? && m <= |bytes|
    ensures Reach(ChunksFrom(build, bytes[..m], 0)).Some? <==> m >= Reach(ChunksFrom(build, bytes, 0)).value
    ensures m >= Reach(ChunksFrom(build, bytes, 0)).value ==>
              ChunksFrom(build, bytes[..m], 0) == ChunksFrom(build, bytes, 0)
  {
    hide ChunksFrom;
    var end := Reach(ChunksFrom(build, bytes, 0)).value;
    if m >= end {
      assert bytes[..m][..end] == bytes[..end];
      ChunksAreLocal(build, bytes, bytes[..m], 0);
    } else if Reach(ChunksFrom(build, bytes[..m], 0)).Some? {
      PrefixSettles(build, bytes, m);
    }
  }

  /** Appending bytes never changes a successful decode, nor averts a panic. */
  lemma PrefixSettles(build: Build, bytes: seq<byte>, m: nat)
    requires m <= |bytes| && Reach(ChunksFrom(build, bytes[..m], 0)).Some?
    ensures ChunksFrom(build, bytes, 0) == ChunksFrom(build, bytes[..m], 0)
  {
    hide ChunksFrom;
    var end := Reach(ChunksFrom(build, bytes[..m], 0)).value;
    assert bytes[..m][..end] == bytes[..end];
    ChunksAreLocal(build, bytes[..m], bytes, 0);
  }

  // ---- an encoder to decode --------------------------------------------------------------

  function EncodeChunk(chunk: seq<byte>): seq<byte> {
    HexLine(|chunk|) + (chunk + CRLF)
  }

  function HexLine(n: nat): seq<byte> { HexBytes(n) + CRLF }

  function HexBytes(n: nat): (s: seq<byte>)
    ensures forall i | 0 <= i < |s| :: s[i] != 13 && s[i] != 10
  {
    HexIsPlain(n);
    Utf8.Ascii(FormatUint(n, 16))
  }

  lemma HexIsPlain(n: nat)
    ensures Utf8.IsAscii(FormatUint(n, 16))
    ensures forall i | 0 <= i < |FormatUint(n, 16)| :: FormatUint(n, 16)[i] as int > 32 && FormatUint(n, 16)[i] != ';'
  {
    var t := FormatUint(n, 16);
    forall i | 0 <= i < |t| ensures '0' <= t[i] <= '9' || 'a' <= t[i] <= 'f' || 'A' <= t[i] <= 'F' {
      assert DigitValue(t[i], 16).Some?;
    }
  }

  function EncodeChunks(chunks: seq<seq<byte>>): seq<byte> {
    if chunks == [] then HexLine(0) + CRLF else EncodeChunk(chunks[0]) + EncodeChunks(chunks[1..])
  }

  lemma PlainSizeText(t: string)
    requires t != "" && forall i | 0 <= i < |t| :: t[i] as int > 32 && (t[i] as int) < 128 && t[i] != ';'
    ensures Trim(Split(t, ';')[0]) == t
  {
    hide Trim, TrimStart, TrimEnd;
    assert Split(t, ';')[0] == t by {
      hide IsTrimmed;
      IndexOfIs(t, ';', 0, |t|);
    }
    hide Split, IndexOf;
    assert IsTrimmed(t);
    TrimTrims(t);
  }

  lemma HexSizeReadsBack(n: nat)
    requires n <= U64_MAX
    ensures ChunkSize(HexBytes(n)) == Some(n)
  {
    hide Trim, Split, ParseUint, FormatUint;
    var t := FormatUint(n, 16);
    HexIsPlain(n);
    Utf8.AsciiDecodes(t);
    PlainSizeText(t);
    ParseFormatted(n, 16, U64_MAX);
  }

  /** A hex line ends at its own CRLF. */
  lemma HexLineIsFound(bytes: seq<byte>, offset: nat, n: nat)
    requires n <= U64_MAX && OccursAt(bytes, HexLine(n), offset)
    ensures Find(bytes, CRLF, offset) == Some(offset + |HexBytes(n)|)
    ensures bytes[offset..offset + |HexBytes(n)|] == HexBytes(n)
  {
    var hex, line := HexBytes(n), HexLine(n);
    hide HexBytes;
    OccursSplit(bytes, hex, CRLF, offset);
    assert bytes[offset..offset + |hex|] == hex;
    forall i | offset <= i < offset + |hex| ensures !OccursAt(bytes, CRLF, i) {
      assert bytes[i] == bytes[offset..offset + |hex|][i - offset] == hex[i - offset] != 13;
      assert i + 2 <= |bytes| ==> bytes[i..i + 2][0] == bytes[i];
    }
    FindIs(bytes, CRLF, offset, offset + |hex|);
  }

  /** Decoding an encoded chunk list yields its concatenation and stops at its end. */
  lemma {:induction false} EncodedChunksDecode(build: Build, bytes: seq<byte>, offset: nat, chunks: seq<seq<byte>>)
    requires |bytes| <= U64_MAX && forall i | 0 <= i < |chunks| :: chunks[i] != []
    requires OccursAt(bytes, EncodeChunks(chunks), offset)
    ensures ChunksFrom(build, bytes, offset) == Decoded(Concat(chunks), offset + |EncodeChunks(chunks)|)
    decreases chunks
  {
    hide ReadStep, OccursAt, HexLine;
    if chunks == [] {
      EndStep(build, bytes, offset);
    } else {
      var chunk := chunks[0];
      OccursSplit(bytes, EncodeChunk(chunk), EncodeChunks(chunks[1..]), offset);
      ChunkStep(build, bytes, offset, chunk);
      EncodedChunksDecode(build, bytes, offset + |EncodeChunk(chunk)|, chunks[1..]);
    }
  }

  lemma EndStep(build: Build, bytes: seq<byte>, offset: nat)
    requires OccursAt(bytes, HexLine(0) + CRLF, offset)
    ensures ReadStep(build, bytes, offset) == Final(offset + |HexLine(0) + CRLF|)
  {
    hide ChunkSize;
    OccursSplit(bytes, HexLine(0), CRLF, offset);
    HexLineIsFound(bytes, offset, 0);
    HexSizeReadsBack(0);
  }

  lemma ChunkStep(build: Build, bytes: seq<byte>, offset: nat, chunk: seq<byte>)
    requires |bytes| <= U64_MAX && chunk != [] && OccursAt(bytes, EncodeChunk(chunk), offset)
    ensures var from := offset + |HexLine(|chunk|)|;
            && ReadStep(build, bytes, offset) == Data(from, from + |chunk|)
            && bytes[from..from + |chunk|] == chunk
  {
    hide ChunkSize, Find, HexBytes, OverflowStep;
    OccursSplit(bytes, HexLine(|chunk|), chunk + CRLF, offset);
    OccursSplit(bytes, chunk, CRLF, offset + |HexLine(|chunk|)|);
    HexLineIsFound(bytes, offset, |chunk|);
    HexSizeReadsBack(|chunk|);
  }

  // ---- responses ------------------------------------------------------------------------

  predicate IsChunkedLine(line: string) {
    match SplitOnce(line, ':')
    case None => false
    case Some((name, value)) =>
      EqIgnoreAsciiCase(name, "transfer-encoding")
      && var parts := Split(value, ',');
         exists i | 0 <= i < |parts| :: EqIgnoreAsciiCase(Trim(parts[i]), "chunked")
  }

  predicate IsChunked(headers: string) {
    var lines := Lines(headers);
    exists i | 0 <= i < |lines| :: IsChunkedLine(lines[i])
  }

  /** What `complete_http_response` says, or that it panics. */
  datatype Verdict = NoHeader | Unfinished | Finished | Panics

  /** `complete_http_response`. */
  function Complete(build: Build, bytes: seq<byte>): Verdict {
    var end := HeaderEnd(bytes);
    if end.None? then NoHeader
    else
      var headers := Utf8.Decode(bytes[..end.value]);
      if IsChunked(headers) then
        match ChunkedBody(build, bytes[end.value + 4..]) {
          case Ok(_) => Finished
          case Err(e) => if e == Panicked then Panics else Unfinished
        }
      else match ContentLength(headers) {
        case None => Finished
        case Some(length) => Reaches(build, |bytes|, end.value + 4 + length)
      }
  }

  /** `bytes.len() >= sum`, where the sum may not fit. */
  function Reaches(build: Build, length: nat, sum: nat): Verdict {
    if build.Checked? && sum > U64_MAX then Panics
    else if length >= Wrapped(sum) then Finished else Unfinished
  }

  /** A parsed response; `body` is its bytes, which the source then decodes as text. */
  datatype Response = Response(status: nat, body: seq<byte>)

  function Status(headers: string): Option<nat> {
    var lines := Lines(headers);
    if lines == [] then None
    else
      var words := Words(lines[0]);
      if |words| < 2 then None else ParseUint(words[1], 10, 0xFFFF)
  }

  /** `parse_http_response`. */
  function ParseResponse(build: Build, bytes: seq<byte>): Result<Response, HttpError> {
    var end := HeaderEnd(bytes);
    if end.None? then Err(MissingHeaderEnd)
    else
      var headers := Utf8.Decode(bytes[..end.value]);
      var status := Status(headers);
      if status.None? then Err(MissingStatus)
      else if IsChunked(headers) then
        match ChunkedBody(build, bytes[end.value + 4..]) {
          case Err(e) => Err(e)
          case Ok(body) => Ok(Response(status.value, body))
        }
      else Ok(Response(status.value, bytes[end.value + 4..]))
  }

  // ---- the read loop ---------------------------------------------------------------------

  /** What the loop has collected when it stops, given what each read returns; an empty read is the end of the stream. */
  function Received(build: Build, response: seq<byte>, pieces: seq<seq<byte>>): Result<seq<byte>, HttpError>
    decreases |pieces|
  {
    if pieces == [] || pieces[0] == [] then Ok(response)
    else match Complete(build, response + pieces[0]) {
      case Finished => Ok(response + pieces[0])
      case Panics => Err(Panicked)
      case NoHeader => Received(build, response + pieces[0], pieces[1..])
      case Unfinished => Received(build, response + pieces[0], pieces[1..])
    }
  }

  /** The response, or the error, that the reads lead to. */
  function Fetched(build: Build, pieces: seq<seq<byte>>): Result<Response, HttpError> {
    match Received(build, [], pieces) case Err(e) => Err(e) case Ok(response) => ParseResponse(build, response)
  }

  method ReadResponse(build: Build, pieces: seq<seq<byte>>) returns (r: Result<Response, HttpError>)
    ensures r == Fetched(build, pieces)
  {
    hide Complete, ParseResponse;
    var response: seq<byte>, i := [], 0;
    while i < |pieces|
      invariant 0 <= i <= |pieces|
      invariant Received(build, response, pieces[i..]) == Received(build, [], pieces)
    {
      if pieces[i] == [] {
        break;
      }
      response := response + pieces[i];
      var verdict := Complete(build, response);
      if verdict.Panics? {
        return Err(Panicked);
      }
      if verdict.Finished? {
        break;
      }
      i := i + 1;
    }
    r := ParseResponse(build, response);
  }

  // ---- when a prefix is complete ------------------------------------------------------------

  /** How many bytes of a stream make the loop stop, and whether by a panic. */
  datatype Stop = Never | At(count: nat, panics: bool)

  function Needed(build: Build, stream: seq<byte>): Stop {
    var end := HeaderEnd(stream);
    if end.None? then Never
    else
      var headers := Utf8.Decode(stream[..end.value]);
      if IsChunked(headers) then
        match ChunksFrom(build, stream[end.value + 4..], 0) {
          case Failed(_) => Never
          case Decoded(_, last) => At(end.value + 4 + last, false)
          case Overflowed(at) => At(end.value + 4 + at, true)
        }
      else match ContentLength(headers) {
        case None => At(end.value + 4, false)
        case Some(length) => NeededFor(build, end.value + 4, length)
      }
  }

  /** A sum that overflows is settled as soon as the header is in. */
  function NeededFor(build: Build, start: nat, length: nat): Stop {
    if build.Checked? && start + length > U64_MAX then At(start, true)
    else At(Max(start, Wrapped(start + length)), false)
  }

  /** A prefix is judged complete, or makes the test panic, exactly when it holds the needed bytes. */
  lemma CompleteExactlyFromNeeded(build: Build, stream: seq<byte>, m: nat)
    requires m <= |stream|
    ensures var need, verdict := Needed(build, stream), Complete(build, stream[..m]);
            && (verdict == Finished <==> need.At? && !need.panics && m >= need.count)
            && (verdict == Panics <==> need.At? && need.panics && m >= need.count)
  {
    hide HeaderEnd, IsChunked, ContentLength, ChunksFrom, Utf8.Decode, Wrapped;
    HeaderOfPrefix(stream, m);
    if HeaderEnd(stream[..m]).Some? {
      var end := HeaderEnd(stream).value;
      var body, k := stream[end + 4..], m - end - 4;
      if Reach(ChunksFrom(build, body, 0)).Some? {
        PrefixDecodesFromEndOn(build, body, k);
      } else if Reach(ChunksFrom(build, body[..k], 0)).Some? {
        PrefixSettles(build, body, k);
      }
    }
  }

  /** `pieces` divides `stream`: no read is empty or larger than the buffer. */
  predicate Divides(pieces: seq<seq<byte>>, stream: seq<byte>) {
    && (forall i | 0 <= i < |pieces| :: 0 < |pieces[i]| <= 4096)
    && Concat(pieces) == stream
  }

  lemma OneReadMore(stream: seq<byte>, got: nat, pieces: seq<seq<byte>>)
    requires got <= |stream| && pieces != [] && Divides(pieces, stream[got..])
    ensures var next := got + |pieces[0]|;
            && got < next <= |stream| && stream[..got] + pieces[0] == stream[..next]
            && Divides(pieces[1..], stream[next..])
  {
    var next := got + |pieces[0]|;
    assert stream[got..] == pieces[0] + Concat(pieces[1..]);
    assert stream[got..next] == stream[got..][..|pieces[0]|] == pieces[0];
    assert stream[next..] == stream[got..][|pieces[0]|..] == Concat(pieces[1..]);
  }

  /**
   * The loop stops at the first read boundary that reaches the needed bytes, hence less than one read past
   * them, or at the end of the stream; where the test panics there, the loop does.
   */
  lemma {:induction false} LoopStopsAtNeeded(build: Build, stream: seq<byte>, got: nat, pieces: seq<seq<byte>>)
    requires got <= |stream| && Divides(pieces, stream[got..])
    requires var need := Needed(build, stream); need.At? ==> got < need.count
    ensures var need, r := Needed(build, stream), Received(build, stream[..got], pieces);
            if need.At? && need.panics then r == Err(Panicked)
            else
              && r.Ok? && |r.value| <= |stream| && r.value == stream[..|r.value|]
              && (need.At? && need.count <= |stream| ==> need.count <= |r.value| < need.count + 4096)
              && (need.Never? || need.count > |stream| ==> r.value == stream)
    decreases |pieces|
  {
    hide Complete, Needed;
    NeededIsPositive(build, stream);
    if pieces == [] {
      assert stream[..got] == stream;
    } else {
      var next := got + |pieces[0]|;
      OneReadMore(stream, got, pieces);
      CompleteExactlyFromNeeded(build, stream, next);
      var need := Needed(build, stream);
      if !(need.At? && next >= need.count) {
        LoopStopsAtNeeded(build, stream, next, pieces[1..]);
      }
    }
  }

  lemma NeededIsPositive(build: Build, stream: seq<byte>)
    ensures var need := Needed(build, stream);
            need.At? ==> 4 <= need.count && (need.panics ==> need.count <= |stream|)
  {
    hide HeaderEnd, IsChunked, ContentLength, ChunksFrom, Wrapped;
    var end := HeaderEnd(stream);
    if end.Some? {
      var scan := ChunksFrom(build, stream[end.value + 4..], 0);
      assert scan.Overflowed? ==> end.value + 4 + scan.at <= |stream|;
    }
  }

  /** For a message that is exactly as long as needed every division stops at its last byte, and no proper prefix is complete. */
  lemma StopsExactlyAtFullMessage(build: Build, stream: seq<byte>, pieces: seq<seq<byte>>, m: nat)
    requires Needed(build, stream) == At(|stream|, false) && Divides(pieces, stream) && m < |stream|
    ensures Received(build, [], pieces) == Ok(stream)
    ensures Complete(build, stream[..m]) != Finished && Complete(build, stream[..m]) != Panics
  {
    hide Complete, Needed;
    CompleteExactlyFromNeeded(build, stream, m);
    NeededIsPositive(build, stream);
    assert stream[0..] == stream == stream[..|stream|] && stream[..0] == [];
    LoopStopsAtNeeded(build, stream, 0, pieces);
  }

  // ---- what the division into reads can change --------------------------------------------------

  /** The result is the same for every division of the stream into reads. */
  ghost predicate SplitIndependent(build: Build, stream: seq<byte>) {
    forall r1, r2 :: Divides(r1, stream) && Divides(r2, stream) ==> Fetched(build, r1) == Fetched(build, r2)
  }

  /** A response whose body is taken as it is: a status line and no chunked coding. */
  predicate TakesBodyAsIs(stream: seq<byte>) {
    var end := HeaderEnd(stream);
    end.Some? && var headers := Utf8.Decode(stream[..end.value]); Status(headers).Some? && !IsChunked(headers)
  }

  /** What parsing a sufficient prefix gives: everything, except that an unframed body is cut at the prefix. */
  lemma ParseOfPrefix(build: Build, stream: seq<byte>, m: nat)
    requires m <= |stream|
    requires m < |stream| ==> var need := Needed(build, stream); need.At? && !need.panics && need.count <= m
    ensures !TakesBodyAsIs(stream) ==> ParseResponse(build, stream[..m]) == ParseResponse(build, stream)
    ensures TakesBodyAsIs(stream) ==>
              var end := HeaderEnd(stream).value;
              && end + 4 <= m
              && ParseResponse(build, stream[..m])
                 == Ok(Response(Status(Utf8.Decode(stream[..end])).value, stream[end + 4..m]))
  {
    hide HeaderEnd, IsChunked, ContentLength, ChunksFrom, Status, Wrapped;
    HeaderOfPrefix(stream, m);
    if m == |stream| {
      assert stream[..m] == stream;
    } else {
      var end := HeaderEnd(stream).value;
      var body, k := stream[end + 4..], m - end - 4;
      assert body[..k] == stream[end + 4..m];
      if ChunksFrom(build, body, 0).Decoded? {
        PrefixDecodesFromEndOn(build, body, k);
      }
    }
  }

  /** The loop panics, or hands a sufficient prefix on. */
  lemma ResultOfReads(build: Build, stream: seq<byte>, pieces: seq<seq<byte>>) returns (m: nat)
    requires Divides(pieces, stream)
    ensures var need := Needed(build, stream);
            if need.At? && need.panics then Received(build, [], pieces) == Err(Panicked)
            else
              && m <= |stream| && Received(build, [], pieces) == Ok(stream[..m])
              && (m < |stream| ==> need.At? && need.count <= m)
  {
    hide Complete, Needed;
    NeededIsPositive(build, stream);
    assert stream[0..] == stream && stream[..0] == [];
    LoopStopsAtNeeded(build, stream, 0, pieces);
    var r := Received(build, [], pieces);
    m := if r.Ok? then |r.value| else 0;
  }

  /** A stream in single bytes. */
  function Singles(s: seq<byte>): (pieces: seq<seq<byte>>)
    ensures Divides(pieces, s)
  {
    if s == [] then [] else [[s[0]]] + Singles(s[1..])
  }

  lemma {:induction false} ConcatJoins(a: seq<seq<byte>>, b: seq<seq<byte>>)
    ensures Concat(a + b) == Concat(a) + Concat(b)
  {
    if a == [] {
      assert a + b == b;
    } else {
      ConcatJoins(a[1..], b);
      assert (a + b)[1..] == a[1..] + b;
      Assoc(a[0], Concat(a[1..]), Concat(b));
    }
  }

  /** Reads that stay below the needed bytes are all consumed. */
  lemma {:induction false} EarlyReadsAreConsumed(
      build: Build, stream: seq<byte>, got: nat, early: seq<seq<byte>>, late: seq<seq<byte>>)
    requires Needed(build, stream).At?
    requires got <= |stream| && Divides(early + late, stream[got..])
    requires got + |Concat(early)| < Needed(build, stream).count
    requires forall i | 0 <= i < |early| :: early[i] != []
    ensures got + |Concat(early)| <= |stream|
    ensures Received(build, stream[..got], early + late) == Received(build, stream[..got + |Concat(early)|], late)
    ensures Divides(late, stream[got + |Concat(early)|..])
    decreases |early|
  {
    hide *;
    var pieces := early + late;
    NothingRead();
    if early == [] {
      assert pieces == late;
    } else {
      var next := got + |early[0]|;
      assert pieces[0] == early[0] && pieces[1..] == early[1..] + late;
      OneReadMore(stream, got, pieces);
      FirstOfReads(early);
      CompleteExactlyFromNeeded(build, stream, next);
      ReadOn(build, stream[..got], pieces);
      EarlyReadsAreConsumed(build, stream, next, early[1..], late);
    }
  }

  lemma NothingRead()
    ensures Concat([]) == []
  {
  }

  lemma FirstOfReads(pieces: seq<seq<byte>>)
    requires pieces != []
    ensures Concat(pieces) == pieces[0] + Concat(pieces[1..])
  {
  }

  lemma ReadOn(build: Build, response: seq<byte>, pieces: seq<seq<byte>>)
    requires pieces != [] && pieces[0] != []
    requires !Complete(build, response + pieces[0]).Finished? && !Complete(build, response + pieces[0]).Panics?
    ensures Received(build, response, pieces) == Received(build, response + pieces[0], pieces[1..])
  {
    hide Complete;
  }

  lemma DividesAround(stream: seq<byte>, i: nat, j: nat)
    requires i < j <= |stream| && j - i <= 4096
    ensures Divides(Singles(stream[..i]) + ([stream[i..j]] + Singles(stream[j..])), stream)
  {
    hide Singles;
    var early, rest := Singles(stream[..i]), Singles(stream[j..]);
    var late := [stream[i..j]] + rest;
    ConcatJoins(early, late);
    assert late[1..] == rest;
    assert Concat(late) == stream[i..j] + stream[j..] == stream[i..];
    assert Concat(early + late) == stream[..i] + stream[i..] == stream;
  }

  /** Some division stops at exactly `m` bytes, for any `m` from the needed count on that one more read can reach. */
  lemma SomeDivisionStopsAt(build: Build, stream: seq<byte>, m: nat) returns (pieces: seq<seq<byte>>)
    requires Needed(build, stream).At? && !Needed(build, stream).panics
    requires 0 < Needed(build, stream).count <= m <= |stream| && m < Needed(build, stream).count + 4096
    ensures Divides(pieces, stream) && Received(build, [], pieces) == Ok(stream[..m])
  {
    hide Complete, Needed;
    var short := Needed(build, stream).count - 1;
    var early := Singles(stream[..short]);
    var late := [stream[short..m]] + Singles(stream[m..]);
    pieces := early + late;
    DividesAround(stream, short, m);
    assert stream[0..] == stream && stream[..0] == [];
    EarlyReadsAreConsumed(build, stream, 0, early, late);
    assert stream[..short] + late[0] == stream[..m];
    CompleteExactlyFromNeeded(build, stream, m);
  }

  /**
   * The result depends on the division exactly when an unframed body runs past the point where the loop may
   * stop. Chunked responses, truncated ones and ones without a header or a status never depend on it, and
   * neither do lengths that make the test panic.
   */
  lemma SplitIndependentExactlyWhen(build: Build, stream: seq<byte>)
    ensures var need := Needed(build, stream);
            SplitIndependent(build, stream) <==> !TakesBodyAsIs(stream) || need.panics || |stream| <= need.count
  {
    hide Complete, Divides, Received, ParseResponse;
    AsIsNeeds(build, stream);
    var need := Needed(build, stream);
    if !TakesBodyAsIs(stream) || need.panics || |stream| <= need.count {
      forall r1, r2 | Divides(r1, stream) && Divides(r2, stream) ensures Fetched(build, r1) == Fetched(build, r2) {
        SameResult(build, stream, r1);
        SameResult(build, stream, r2);
      }
    } else {
      NeededIsPositive(build, stream);
      var r1 := SomeDivisionStopsAt(build, stream, need.count);
      var r2 := SomeDivisionStopsAt(build, stream, need.count + 1);
      ParseOfPrefix(build, stream, need.count);
      ParseOfPrefix(build, stream, need.count + 1);
      var end := HeaderEnd(stream).value;
      assert |stream[end + 4..need.count]| != |stream[end + 4..need.count + 1]|;
      assert Fetched(build, r1) != Fetched(build, r2);
    }
  }

  lemma AsIsNeeds(build: Build, stream: seq<byte>)
    ensures TakesBodyAsIs(stream) ==>
              Needed(build, stream).At? && Needed(build, stream).count >= HeaderEnd(stream).value + 4
  {
    hide HeaderEnd, IsChunked, ContentLength, Status, Wrapped;
  }

  lemma SameResult(build: Build, stream: seq<byte>, pieces: seq<seq<byte>>)
    requires Divides(pieces, stream)
    requires var need := Needed(build, stream);
             TakesBodyAsIs(stream) ==> need.At? && (need.panics || |stream| <= need.count)
    ensures var need := Needed(build, stream);
            Fetched(build, pieces) == if need.At? && need.panics then Err(Panicked) else ParseResponse(build, stream)
  {
    hide Complete, Needed, ParseResponse, TakesBodyAsIs, Received;
    var m := ResultOfReads(build, stream, pieces);
    var need := Needed(build, stream);
    if !(need.At? && need.panics) {
      ParseOfPrefix(build, stream, m);
      if m == |stream| { assert stream[..m] == stream; }
      ParseOfPrefix(build, stream, |stream|);
      assert stream[..|stream|] == stream;
    }
  }

  lemma OverflowIsSettled(stream: seq<byte>, length: nat)
    requires TakesBodyAsIs(stream)
    requires var end := HeaderEnd(stream).value;
             && ContentLength(Utf8.Decode(stream[..end])) == Some(length)
             && length <= U64_MAX < end + 4 + length
    ensures Needed(Wrapping, stream) == At(HeaderEnd(stream).value + 4, false)
    ensures Needed(Checked, stream) == At(HeaderEnd(stream).value + 4, true)
  {
    hide IsChunked, ContentLength, HeaderEnd, Status, Utf8.Decode, Wrapped;
    var start := HeaderEnd(stream).value + 4;
    if start <= U64_MAX { WrappedSum(start + length); }
  }

  /**
   * A length so large that its sum with the header's does not fit: with checked arithmetic every division
   * panics; without, the result depends on the division as soon as there is a body.
   */
  lemma OverflowingLength(stream: seq<byte>, length: nat)
    requires TakesBodyAsIs(stream)
    requires var end := HeaderEnd(stream).value;
             && ContentLength(Utf8.Decode(stream[..end])) == Some(length)
             && length <= U64_MAX < end + 4 + length
    ensures SplitIndependent(Wrapping, stream) <==> |stream| == HeaderEnd(stream).value + 4
    ensures forall pieces | Divides(pieces, stream) :: Fetched(Checked, pieces) == Err(Panicked)
  {
    OverflowIsSettled(stream, length);
    hide *;
    SplitIndependentExactlyWhen(Wrapping, stream);
    HeaderIsInside(stream);
    forall pieces | Divides(pieces, stream) ensures Fetched(Checked, pieces) == Err(Panicked) {
      SameResult(Checked, stream, pieces);
    }
  }

  lemma HeaderIsInside(stream: seq<byte>)
    ensures HeaderEnd(stream).Some? ==> HeaderEnd(stream).value + 4 <= |stream|
  {
  }

  // ---- well-formed messages ---------------------------------------------------------------------

  /** A chunked message: whatever the reads, the loop stops at its last byte with the concatenated chunks. */
  lemma ChunkedMessage(build: Build, head: seq<byte>, chunks: seq<seq<byte>>, pieces: seq<seq<byte>>)
    requires forall i | 0 <= i < |chunks| :: chunks[i] != []
    requires var headers := Utf8.Decode(head); IsChunked(headers) && Status(headers).Some?
    requires HeaderEnd(head + HEADER_END) == Some(|head|)
    requires var stream := head + HEADER_END + EncodeChunks(chunks); |stream| <= U64_MAX && Divides(pieces, stream)
    ensures Received(build, [], pieces) == Ok(head + HEADER_END + EncodeChunks(chunks))
    ensures Fetched(build, pieces) == Ok(Response(Status(Utf8.Decode(head)).value, Concat(chunks)))
  {
    hide Complete, IsChunked, Status, EncodeChunks, Received, Divides, HeaderEnd, ChunksFrom, Concat;
    var body := EncodeChunks(chunks);
    var stream := head + HEADER_END + body;
    HeaderThenBody(head, body);
    assert body[0..|body|] == body;
    EncodedChunksDecode(build, body, 0, chunks);
    assert [] + Concat(chunks) == Concat(chunks);
    StopsExactlyAtFullMessage(build, stream, pieces, 0);
  }

  /** A message with its length: whatever the reads, the loop stops at its last byte with the body. */
  lemma LengthMessage(build: Build, head: seq<byte>, body: seq<byte>, pieces: seq<seq<byte>>)
    requires var headers := Utf8.Decode(head);
             !IsChunked(headers) && Status(headers).Some? && ContentLength(headers) == Some(|body|)
    requires HeaderEnd(head + HEADER_END) == Some(|head|)
    requires var stream := head + HEADER_END + body; |stream| <= U64_MAX && Divides(pieces, stream)
    ensures Received(build, [], pieces) == Ok(head + HEADER_END + body)
    ensures Fetched(build, pieces) == Ok(Response(Status(Utf8.Decode(head)).value, body))
  {
    hide Complete, IsChunked, Status, ContentLength, Received, Divides, HeaderEnd, ChunksFrom, Concat;
    HeaderThenBody(head, body);
    StopsExactlyAtFullMessage(build, head + HEADER_END + body, pieces, 0);
  }
}
