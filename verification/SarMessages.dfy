/**
 * What the SAR seeding tool's client reads, message by message: a status line,
 * header fields and a body go in as bytes, and the status and the body come out
 * for every division into reads. Also the full grammar of a chunked body.
 */
module SarMessages {
  import opened Wrappers
  import opened Bytes
  import opened Text
  import opened HttpHeaders
  import opened SarHttp
  import Utf8

  // ---- the field that announces chunks -----------------------------------------------

  /** A comma-separated list one part of which is "chunked", in any case and with whitespace around it. */
  ghost predicate ListsChunked(value: string) {
    exists parts, i :: AreParts(parts, ',') && value == JoinWith(parts, ',') && PartIsChunked(parts, i)
  }

  ghost predicate PartIsChunked(parts: seq<string>, i: nat) { i < |parts| && Lower(Trim(parts[i])) == "chunked" }

  ghost predicate NamesChunked(line: string) {
    exists name, value :: IsField(line, name, value) && Lower(name) == "transfer-encoding" && ListsChunked(value)
  }

  lemma PartsAre(value: string, parts: seq<string>)
    ensures AreParts(parts, ',') && value == JoinWith(parts, ',') <==> parts == Split(value, ',')
  {
    JoinOfSplit(value, ',');
    if AreParts(parts, ',') { SplitOfJoin(parts, ','); }
  }

  lemma ListsChunkedIs(value: string)
    ensures ListsChunked(value) <==>
            var parts := Split(value, ','); exists i | 0 <= i < |parts| :: EqIgnoreAsciiCase(Trim(parts[i]), "chunked")
  {
    hide Split, Trim, JoinWith;
    assert Lower("chunked") == "chunked";
    PartsAre(value, Split(value, ','));
    if ListsChunked(value) {
      var parts, i :| AreParts(parts, ',') && value == JoinWith(parts, ',') && PartIsChunked(parts, i);
      PartsAre(value, parts);
    }
    if i :| 0 <= i < |Split(value, ',')| && EqIgnoreAsciiCase(Trim(Split(value, ',')[i]), "chunked") {
      assert PartIsChunked(Split(value, ','), i);
    }
  }

  lemma ChunkedLineIs(line: string)
    ensures IsChunkedLine(line) <==> NamesChunked(line)
  {
    hide Split, Trim, SplitOnce, ListsChunked;
    assert Lower("transfer-encoding") == "transfer-encoding";
    var split := SplitOnce(line, ':');
    if split.Some? {
      SplitOnceIs(line, ':', split.value.0, split.value.1);
      ListsChunkedIs(split.value.1);
    }
    if NamesChunked(line) {
      var name, value :| IsField(line, name, value) && Lower(name) == "transfer-encoding" && ListsChunked(value);
      SplitOnceIs(line, ':', name, value);
    }
  }

  lemma GzipThenChunked()
    ensures NamesChunked("Transfer-Encoding: gzip, Chunked")
  {
    hide ListsChunked, IsField, Lower;
    EncodingField(" gzip, Chunked");
    assert "Transfer-Encoding" + (":" + " gzip, Chunked") == "Transfer-Encoding: gzip, Chunked";
    ListOfTwo();
  }

  lemma EncodingField(value: string)
    ensures IsField("Transfer-Encoding" + (":" + value), "Transfer-Encoding", value)
    ensures Lower("Transfer-Encoding") == "transfer-encoding"
  {
  }

  lemma ListOfTwo()
    ensures ListsChunked(" gzip, Chunked")
  {
    var parts := [" gzip", " Chunked"];
    assert parts[1..] == [" Chunked"];
    TwoParts();
    LastPartIsChunked(parts);
    hide Trim, PartIsChunked;
    assert JoinWith(parts, ',') == " gzip" + ("," + " Chunked");
  }

  lemma TwoParts()
    ensures " gzip" + ("," + " Chunked") == " gzip, Chunked"
    ensures ',' !in " gzip" && ',' !in " Chunked"
  {
  }

  lemma LastPartIsChunked(parts: seq<string>)
    requires |parts| == 2 && parts[1] == " Chunked"
    ensures PartIsChunked(parts, 1)
  {
    TrimSpace("Chunked");
    hide Trim;
    assert " " + "Chunked" == " Chunked" && Lower("Chunked") == "chunked";
  }

  // ---- heads ---------------------------------------------------------------------------

  /** Text for one line. */
  predicate IsPlain(text: string) { '\r' !in text && '\n' !in text }

  predicate IsWord(text: string) { text != "" && forall i | 0 <= i < |text| :: !IsWhitespace(text[i]) }

  function EncodeEach(texts: seq<string>): (lines: seq<seq<byte>>)
    ensures |lines| == |texts| && forall i | 0 <= i < |texts| :: lines[i] == Utf8.Encode(texts[i])
  {
    seq(|texts|, i requires 0 <= i < |texts| => Utf8.Encode(texts[i]))
  }

  function StatusText(version: string, code: nat, reason: string): string {
    version + (" " + (FormatUint(code, 10) + (" " + reason)))
  }

  /** The head's bytes, without the blank line. */
  function Head(version: string, code: nat, reason: string, fields: seq<string>): seq<byte> {
    JoinLines(EncodeEach([StatusText(version, code, reason)] + fields))
  }

  predicate IsHead(version: string, code: nat, reason: string, fields: seq<string>) {
    && IsWord(version) && "HTTP/" <= version
    && code <= 0xFFFF
    && IsPlain(reason)
    && forall i | 0 <= i < |fields| :: fields[i] != "" && IsPlain(fields[i])
  }

  lemma {:induction false} PlainEncodes(text: string)
    requires IsPlain(text)
    ensures forall i | 0 <= i < |Utf8.Encode(text)| :: Utf8.Encode(text)[i] != 13 && Utf8.Encode(text)[i] != 10
    ensures text != "" ==> Utf8.Encode(text) != []
  {
    if text != "" {
      PlainCharEncodes(text[0]);
      assert IsPlain(text[1..]);
      PlainEncodes(text[1..]);
      hide Utf8.EncodeChar;
    }
  }

  lemma PlainCharEncodes(c: char)
    requires c != '\r' && c != '\n'
    ensures Utf8.EncodeChar(c) != []
    ensures forall i | 0 <= i < |Utf8.EncodeChar(c)| :: Utf8.EncodeChar(c)[i] != 13 && Utf8.EncodeChar(c)[i] != 10
  {
    if c as int >= 128 { Utf8.CharIsEncoding(c, []); }
  }

  lemma PlainIsLine(text: string)
    requires text != "" && IsPlain(text)
    ensures IsLine(Utf8.Encode(text))
  {
    hide Utf8.Valid, Utf8.Encode;
    PlainEncodes(text);
    Utf8.EncodedDecodes(text);
  }

  lemma {:induction false} DecodedEach(texts: seq<string>, lines: seq<seq<byte>>)
    requires |lines| == |texts| && forall i | 0 <= i < |texts| :: lines[i] == Utf8.Encode(texts[i])
    ensures DecodeEach(lines) == texts
  {
    hide Utf8.Encode, Utf8.Decode, Utf8.Valid;
    if texts != [] {
      Utf8.EncodedDecodes(texts[0]);
      DecodedEach(texts[1..], lines[1..]);
    }
  }

  lemma StatusTextIsPlain(version: string, code: nat, reason: string)
    requires IsHead(version, code, reason, [])
    ensures IsPlain(StatusText(version, code, reason)) && StatusText(version, code, reason) != ""
  {
    var digits := FormatUint(code, 10);
    forall c | c in digits ensures c != '\r' && c != '\n' {
      assert DigitValue(c, 10).Some?;
    }
    hide FormatUint;
    assert IsWhitespace('\r') && IsWhitespace('\n');
  }

  /** The status line is the second word, and its name, ending at a colon if at all, starts with an H. */
  lemma StatusLineSays(version: string, code: nat, reason: string)
    requires IsHead(version, code, reason, [])
    ensures |Words(StatusText(version, code, reason))| >= 2
    ensures ParseUint(Words(StatusText(version, code, reason))[1], 10, 0xFFFF) == Some(code)
  {
    var digits := FormatUint(code, 10);
    forall i | 0 <= i < |digits| ensures !IsWhitespace(digits[i]) {
      assert DigitValue(digits[i], 10).Some?;
    }
    hide FormatUint, Words, ParseUint, IsWhitespace;
    WordThenSpace(digits, reason);
    WordThenSpace(version, digits + (" " + reason));
    ParseFormatted(code, 10, 0xFFFF);
  }

  lemma StatusLineIsNoField(version: string, code: nat, reason: string)
    requires IsHead(version, code, reason, [])
    ensures !NamesChunked(StatusText(version, code, reason)) && Silent(StatusText(version, code, reason))
  {
    hide FormatUint, ListsChunked, SpellsNumber, IsWhitespace, Trim;
    var text := StatusText(version, code, reason);
    assert text[0] == 'H';
    forall name, value | IsField(text, name, value)
      ensures Lower(name) != "transfer-encoding" && Lower(name) != "content-length"
    {
      if name != "" {
        assert name[0] == 'H' && Lower(name)[0] == 'h';
      }
    }
  }

  /** What a head means: where it ends, its status, whether it announces chunks, and the length it announces. */
  lemma HeadMeans(version: string, code: nat, reason: string, fields: seq<string>)
    requires IsHead(version, code, reason, fields)
    ensures var head := Head(version, code, reason, fields);
            var headers := Utf8.Decode(head);
            && HeaderEnd(head + HEADER_END) == Some(|head|)
            && Status(headers) == Some(code)
            && (IsChunked(headers) <==> exists i | 0 <= i < |fields| :: NamesChunked(fields[i]))
            && ContentLength(headers) == LengthIn(fields)
  {
    hide *;
    HeadLines(version, code, reason, fields);
    StatusLineSays(version, code, reason) by { IsHeadWithoutFields(version, code, reason, fields); }
    StatusLineIsNoField(version, code, reason) by { IsHeadWithoutFields(version, code, reason, fields); }
    LinesMean(Utf8.Decode(Head(version, code, reason, fields)), StatusText(version, code, reason), fields, code);
  }

  lemma IsHeadWithoutFields(version: string, code: nat, reason: string, fields: seq<string>)
    requires IsHead(version, code, reason, fields)
    ensures IsHead(version, code, reason, [])
  {
  }

  lemma HeadLines(version: string, code: nat, reason: string, fields: seq<string>)
    requires IsHead(version, code, reason, fields)
    ensures var head := Head(version, code, reason, fields);
            && HeaderEnd(head + HEADER_END) == Some(|head|)
            && Lines(Utf8.Decode(head)) == [StatusText(version, code, reason)] + fields
  {
    hide StatusText, IsPlain, IsWord, IsLine, JoinLines, HeaderEnd, Lines, Utf8.Decode, Utf8.Encode, DecodeEach;
    StatusTextIsPlain(version, code, reason);
    var texts := [StatusText(version, code, reason)] + fields;
    var lines := EncodeEach(texts);
    forall i | 0 <= i < |lines| ensures IsLine(lines[i]) {
      PlainIsLine(texts[i]);
    }
    JoinedLinesEndFirst(lines);
    LinesOfJoined(lines);
    DecodedEach(texts, lines);
  }

  lemma LinesMean(headers: string, status: string, fields: seq<string>, code: nat)
    requires Lines(headers) == [status] + fields
    requires |Words(status)| >= 2 && ParseUint(Words(status)[1], 10, 0xFFFF) == Some(code)
    requires !NamesChunked(status) && Silent(status)
    ensures Status(headers) == Some(code)
    ensures IsChunked(headers) <==> exists i | 0 <= i < |fields| :: NamesChunked(fields[i])
    ensures ContentLength(headers) == LengthIn(fields)
  {
    hide Lines, Words, ParseUint, NamesChunked, Silent, LengthOf, IsChunkedLine;
    var lines := [status] + fields;
    NoLengthOf(status);
    assert lines[1..] == fields;
    forall i | 0 <= i < |lines| ensures IsChunkedLine(lines[i]) <==> NamesChunked(lines[i]) {
      ChunkedLineIs(lines[i]);
    }
    if i :| 0 <= i < |fields| && NamesChunked(fields[i]) {
      assert lines[i + 1] == fields[i];
    }
  }

  // ---- whole messages --------------------------------------------------------------------

  /** A response with a field that names the chunked coding is decoded, whatever the reads. */
  lemma ChunkedResponse(build: Build, version: string, code: nat, reason: string, fields: seq<string>, i: nat,
                        chunks: seq<seq<byte>>, pieces: seq<seq<byte>>)
    requires IsHead(version, code, reason, fields) && i < |fields| && NamesChunked(fields[i])
    requires forall k | 0 <= k < |chunks| :: chunks[k] != []
    requires var stream := Head(version, code, reason, fields) + HEADER_END + EncodeChunks(chunks);
             |stream| <= U64_MAX && Divides(pieces, stream)
    ensures Fetched(build, pieces) == Ok(Response(code, Concat(chunks)))
  {
    hide *;
    HeadMeans(version, code, reason, fields);
    ChunkedMessage(build, Head(version, code, reason, fields), chunks, pieces);
  }

  /** Without such a field the first length announced is that of the body. */
  lemma MeasuredResponse(build: Build, version: string, code: nat, reason: string, fields: seq<string>, i: nat,
                         body: seq<byte>, pieces: seq<seq<byte>>)
    requires IsHead(version, code, reason, fields) && forall k | 0 <= k < |fields| :: !NamesChunked(fields[k])
    requires i < |fields| && Announces(fields[i], |body|) && forall k | 0 <= k < i :: Silent(fields[k])
    requires var stream := Head(version, code, reason, fields) + HEADER_END + body;
             |stream| <= U64_MAX && Divides(pieces, stream)
    ensures Fetched(build, pieces) == Ok(Response(code, body))
  {
    hide *;
    HeadMeans(version, code, reason, fields);
    LengthInIs(fields, |body|);
    LengthMessage(build, Head(version, code, reason, fields), body, pieces);
  }

  /** With neither, the body is what came along with the end of the head, or less than one read of it. */
  lemma UnmeasuredResponse(build: Build, version: string, code: nat, reason: string, fields: seq<string>,
                           body: seq<byte>, pieces: seq<seq<byte>>) returns (m: nat)
    requires IsHead(version, code, reason, fields)
    requires forall k | 0 <= k < |fields| :: !NamesChunked(fields[k]) && Silent(fields[k])
    requires Divides(pieces, Head(version, code, reason, fields) + HEADER_END + body)
    ensures m <= |body| && m < 4096 && Fetched(build, pieces) == Ok(Response(code, body[..m]))
  {
    hide *;
    HeadMeans(version, code, reason, fields);
    LengthInIs(fields, 0);
    var head := Head(version, code, reason, fields);
    HeaderThenBody(head, body);
    m := BodySoFar(build, head, code, body, pieces);
  }

  lemma BodySoFar(build: Build, head: seq<byte>, code: nat, body: seq<byte>, pieces: seq<seq<byte>>) returns (m: nat)
    requires var stream := head + HEADER_END + body;
             && HeaderEnd(stream) == Some(|head|) && stream[..|head|] == head && stream[|head| + 4..] == body
             && Divides(pieces, stream)
    requires var headers := Utf8.Decode(head);
             Status(headers) == Some(code) && !IsChunked(headers) && ContentLength(headers) == None
    ensures m <= |body| && m < 4096 && Fetched(build, pieces) == Ok(Response(code, body[..m]))
  {
    hide HeaderEnd, Status, IsChunked, ContentLength, Divides, Complete, Received, ParseResponse, Utf8.Decode;
    var stream := head + HEADER_END + body;
    var start := |head| + 4;
    assert Needed(build, stream) == At(start, false);
    assert TakesBodyAsIs(stream);
    hide Needed, TakesBodyAsIs;
    assert stream[0..] == stream && stream[..0] == [];
    LoopStopsAtNeeded(build, stream, 0, pieces);
    var got := |Received(build, [], pieces).value|;
    ParseOfPrefix(build, stream, got);
    m := got - start;
    assert stream[start..got] == stream[start..][..m];
  }

  /** Without a blank line there is no response. */
  lemma HeadIsMissing(build: Build, stream: seq<byte>, pieces: seq<seq<byte>>)
    requires Divides(pieces, stream) && forall i: nat :: !OccursAt(stream, [13, 10, 13, 10], i)
    ensures Fetched(build, pieces) == Err(MissingHeaderEnd)
  {
    hide Fetched, Divides, Status, IsChunked, ContentLength, Utf8.Decode;
    assert HeaderEnd(stream) == None;
    SameResult(build, stream, pieces);
  }

  /** The status is the number that the first line's second word spells, and without one the head is refused. */
  lemma StatusIsMissing(build: Build, head: seq<byte>, body: seq<byte>)
    requires HeaderEnd(head + HEADER_END) == Some(|head|)
    requires var lines := Lines(Utf8.Decode(head));
             lines == [] || |Words(lines[0])| < 2 || forall n | 0 <= n <= 65_535 :: !SpellsNumber(Words(lines[0])[1], n)
    ensures ParseResponse(build, head + HEADER_END + body) == Err(MissingStatus)
  {
    hide Utf8.Decode, Lines, Words, HeaderEnd, IsChunked, ParseUint, SpellsNumber;
    HeaderThenBody(head, body);
    var lines := Lines(Utf8.Decode(head));
    if lines != [] && |Words(lines[0])| >= 2 {
      NumberSpelled(Words(lines[0])[1]);
    }
  }

  lemma NumberSpelled(word: string)
    ensures var n := ParseUint(word, 10, 0xFFFF); n.Some? ==> n.value <= 65_535 && SpellsNumber(word, n.value)
  {
    hide ParseUint, Spells;
    var n := ParseUint(word, 10, 0xFFFF);
    if n.Some? { ParsesExactly(word, n.value, 10, 0xFFFF); }
  }

  // ---- the grammar of a chunked body -----------------------------------------------------------

  /** A chunk as it stands in the stream: its size line and its data. */
  datatype Piece = Piece(line: seq<byte>, data: seq<byte>)

  /** Hexadecimal digits, whose value fits a `usize`, and after a semicolon anything. */
  ghost predicate GivesSize(text: string, n: nat) {
    && n <= U64_MAX
    && exists parts :: AreParts(parts, ';') && text == JoinWith(parts, ';') && SpellsSize(Trim(parts[0]), n)
  }

  ghost predicate SpellsSize(text: string, n: nat) {
    Spells(text, n, 16) || (text != "" && text[0] == '+' && Spells(text[1..], n, 16))
  }

  lemma ChunkSizeIs(line: seq<byte>, n: nat)
    ensures ChunkSize(line) == Some(n) <==> GivesSize(Utf8.Decode(line), n)
  {
    hide Trim, Split, ParseUint, Spells, JoinWith, Utf8.Decode;
    var text := Utf8.Decode(line);
    JoinOfSplit(text, ';');
    ParsesExactly(Trim(Split(text, ';')[0]), n, 16, U64_MAX);
    forall parts | AreParts(parts, ';') && text == JoinWith(parts, ';') ensures parts == Split(text, ';') {
      SplitOfJoin(parts, ';');
    }
  }

  /** A size line: the first CRLF is the one behind it. */
  ghost predicate SizeLine(line: seq<byte>, n: nat) {
    && (forall i | 0 <= i < |line| :: !OccursAt(line + CRLF, CRLF, i))
    && GivesSize(Utf8.Decode(line), n)
  }

  ghost predicate ArePieces(pieces: seq<Piece>) {
    forall i | 0 <= i < |pieces| :: pieces[i].data != [] && SizeLine(pieces[i].line, |pieces[i].data|)
  }

  function Spell(pieces: seq<Piece>): seq<byte> {
    if pieces == [] then [] else (pieces[0].line + CRLF) + (pieces[0].data + CRLF) + Spell(pieces[1..])
  }

  function DataOf(pieces: seq<Piece>): seq<byte> {
    if pieces == [] then [] else pieces[0].data + DataOf(pieces[1..])
  }

  /** Chunks, a size line of zero, and two bytes of whatever value; more may follow. */
  ghost predicate StandsAt(bytes: seq<byte>, offset: nat, pieces: seq<Piece>, last: seq<byte>) {
    && ArePieces(pieces) && SizeLine(last, 0)
    && OccursAt(bytes, Spell(pieces) + (last + CRLF), offset)
    && offset + |Spell(pieces)| + |last| + 4 <= |bytes|
  }

  lemma LineEnds(bytes: seq<byte>, offset: nat, at: nat)
    requires offset <= at && at + 2 <= |bytes|
    ensures Find(bytes, CRLF, offset) == Some(at) <==>
            var line := bytes[offset..at];
            OccursAt(bytes, line + CRLF, offset) && forall i | 0 <= i < |line| :: !OccursAt(line + CRLF, CRLF, i)
  {
    var line := bytes[offset..at];
    OccursSplit(bytes, line, CRLF, offset);
    Occurs(bytes, line, offset);
    Occurs(bytes, CRLF, at);
    if OccursAt(bytes, CRLF, at) {
      assert bytes[offset..at + 2] == line + CRLF;
      forall i | 0 <= i < |line| ensures OccursAt(line + CRLF, CRLF, i) <==> OccursAt(bytes, CRLF, offset + i) {
        Shifted(bytes, offset, at + 2, i);
      }
      hide OccursAt;
      if forall i | 0 <= i < |line| :: !OccursAt(line + CRLF, CRLF, i) {
        forall k | offset <= k < at ensures !OccursAt(bytes, CRLF, k) {
          assert !OccursAt(line + CRLF, CRLF, k - offset);
        }
        FindIs(bytes, CRLF, offset, at);
      }
    }
  }

  lemma Shifted(bytes: seq<byte>, offset: nat, end: nat, i: nat)
    requires offset + i + 2 <= end <= |bytes|
    ensures OccursAt(bytes[offset..end], CRLF, i) <==> OccursAt(bytes, CRLF, offset + i)
  {
    CrLfAt(bytes[offset..end], i);
    CrLfAt(bytes, offset + i);
  }

  lemma CrLfAt(bytes: seq<byte>, at: nat)
    ensures OccursAt(bytes, CRLF, at) <==> at + 2 <= |bytes| && bytes[at] == 13 && bytes[at + 1] == 10
  {
    if at + 2 <= |bytes| {
      assert bytes[at..at + 2] == [bytes[at], bytes[at + 1]];
    }
  }

  lemma FinalStep(build: Build, bytes: seq<byte>, offset: nat, at: nat)
    requires offset <= at && at + 4 <= |bytes|
    ensures ReadStep(build, bytes, offset) == Final(at + 4) <==>
            Find(bytes, CRLF, offset) == Some(at) && ChunkSize(bytes[offset..at]) == Some(0)
  {
    hide Find, ChunkSize, OverflowStep;
  }

  lemma DataStep(build: Build, bytes: seq<byte>, offset: nat, at: nat, to: nat)
    requires |bytes| <= U64_MAX && offset <= at && at + 2 < to && to + 2 <= |bytes|
    ensures ReadStep(build, bytes, offset) == Data(at + 2, to) <==>
            && Find(bytes, CRLF, offset) == Some(at) && ChunkSize(bytes[offset..at]) == Some(to - at - 2)
            && bytes[to..to + 2] == CRLF
  {
    hide Find, ChunkSize, OverflowStep;
  }

  lemma LastLineIs(build: Build, bytes: seq<byte>, offset: nat, at: nat)
    requires offset <= at && at + 4 <= |bytes|
    ensures ReadStep(build, bytes, offset) == Final(at + 4) <==>
            var line := bytes[offset..at]; SizeLine(line, 0) && OccursAt(bytes, line + CRLF, offset)
  {
    hide Find, ChunkSize, GivesSize, OccursAt, ReadStep, Utf8.Decode;
    FinalStep(build, bytes, offset, at);
    LineEnds(bytes, offset, at);
    ChunkSizeIs(bytes[offset..at], 0);
  }

  lemma OneChunkIs(build: Build, bytes: seq<byte>, offset: nat, at: nat, to: nat)
    requires |bytes| <= U64_MAX && offset <= at && at + 2 < to && to + 2 <= |bytes|
    ensures ReadStep(build, bytes, offset) == Data(at + 2, to) <==>
            var line := bytes[offset..at];
            SizeLine(line, to - at - 2) && OccursAt(bytes, line + CRLF, offset) && OccursAt(bytes, CRLF, to)
  {
    hide Find, ChunkSize, GivesSize, OccursAt, ReadStep, Utf8.Decode;
    DataStep(build, bytes, offset, at, to);
    LineEnds(bytes, offset, at);
    ChunkSizeIs(bytes[offset..at], to - at - 2);
    Occurs(bytes, CRLF, to);
  }

  lemma StepFits(build: Build, bytes: seq<byte>, offset: nat)
    ensures var step := ReadStep(build, bytes, offset);
            && (step.Data? ==> offset + 2 <= step.from < step.to && step.to + 2 <= |bytes|)
            && (step.Final? ==> offset + 4 <= step.end <= |bytes|)
  {
  }

  lemma {:induction false} DecodedStands(build: Build, bytes: seq<byte>, offset: nat)
    returns (pieces: seq<Piece>, last: seq<byte>)
    requires |bytes| <= U64_MAX && ChunksFrom(build, bytes, offset).Decoded?
    ensures StandsAt(bytes, offset, pieces, last) && ChunksFrom(build, bytes, offset).body == DataOf(pieces)
    decreases |bytes| - offset
  {
    hide ReadStep, StandsAt, DataOf;
    StepFits(build, bytes, offset);
    match ReadStep(build, bytes, offset)
    case Final(end) =>
      pieces, last := [], bytes[offset..end - 4];
      FinalStands(build, bytes, offset, end);
    case Data(from, to) =>
      var rest;
      rest, last := DecodedStands(build, bytes, to + 2);
      pieces := [Piece(bytes[offset..from - 2], bytes[from..to])] + rest;
      DataStands(build, bytes, offset, from, to, rest, last);
  }

  lemma FinalStands(build: Build, bytes: seq<byte>, offset: nat, end: nat)
    requires offset + 4 <= end <= |bytes| && ReadStep(build, bytes, offset) == Final(end)
    ensures StandsAt(bytes, offset, [], bytes[offset..end - 4]) && DataOf([]) == []
  {
    hide ReadStep, StandsAt, SizeLine, OccursAt;
    LastLineIs(build, bytes, offset, end - 4);
    NoPieces(bytes, offset, bytes[offset..end - 4]);
  }

  lemma DataStands(build: Build, bytes: seq<byte>, offset: nat, from: nat, to: nat, rest: seq<Piece>, last: seq<byte>)
    requires |bytes| <= U64_MAX && offset + 2 <= from < to && to + 2 <= |bytes|
    requires ReadStep(build, bytes, offset) == Data(from, to) && StandsAt(bytes, to + 2, rest, last)
    ensures var pieces := [Piece(bytes[offset..from - 2], bytes[from..to])] + rest;
            StandsAt(bytes, offset, pieces, last) && DataOf(pieces) == bytes[from..to] + DataOf(rest)
  {
    hide ReadStep, StandsAt, SizeLine, OccursAt;
    var piece := Piece(bytes[offset..from - 2], bytes[from..to]);
    assert ([piece] + rest)[1..] == rest;
    hide DataOf;
    OneChunkIs(build, bytes, offset, from - 2, to);
    Occurs(bytes, piece.data, from);
    OnePieceMore(bytes, offset, piece, rest, last);
  }

  lemma NoPieces(bytes: seq<byte>, offset: nat, last: seq<byte>)
    ensures StandsAt(bytes, offset, [], last) <==>
            SizeLine(last, 0) && OccursAt(bytes, last + CRLF, offset) && offset + |last| + 4 <= |bytes|
  {
    assert Spell([]) + (last + CRLF) == last + CRLF;
  }

  lemma OnePieceMore(bytes: seq<byte>, offset: nat, piece: Piece, rest: seq<Piece>, last: seq<byte>)
    ensures var from := offset + |piece.line| + 2;
            var to := from + |piece.data|;
            StandsAt(bytes, offset, [piece] + rest, last) <==>
            && piece.data != [] && SizeLine(piece.line, |piece.data|)
            && OccursAt(bytes, piece.line + CRLF, offset) && OccursAt(bytes, piece.data, from) && OccursAt(bytes, CRLF, to)
            && StandsAt(bytes, to + 2, rest, last)
  {
    hide SizeLine, OccursAt, ArePieces, Spell;
    PiecesGrow(piece, rest);
    SpellGrows(piece, rest, last);
    var line, data, tail := piece.line + CRLF, piece.data + CRLF, Spell(rest) + (last + CRLF);
    OccursSplit(bytes, line, data + tail, offset);
    OccursSplit(bytes, data, tail, offset + |line|);
    OccursSplit(bytes, piece.data, CRLF, offset + |line|);
  }

  lemma SpellGrows(piece: Piece, rest: seq<Piece>, last: seq<byte>)
    ensures var line, data := piece.line + CRLF, piece.data + CRLF;
            && Spell([piece] + rest) + (last + CRLF) == line + (data + (Spell(rest) + (last + CRLF)))
            && |Spell([piece] + rest)| == |piece.line| + 2 + |piece.data| + 2 + |Spell(rest)|
  {
    assert ([piece] + rest)[1..] == rest;
  }

  lemma PiecesGrow(piece: Piece, rest: seq<Piece>)
    ensures ArePieces([piece] + rest) <==> piece.data != [] && SizeLine(piece.line, |piece.data|) && ArePieces(rest)
  {
    var pieces := [piece] + rest;
    forall i | 0 <= i < |rest| ensures pieces[i + 1] == rest[i] {}
    if ArePieces(pieces) {
      assert pieces[0] == piece;
      forall i | 0 <= i < |rest| ensures rest[i].data != [] && SizeLine(rest[i].line, |rest[i].data|) {
        assert pieces[i + 1].data != [];
      }
    }
  }

  lemma {:induction false} StandingDecodes(build: Build, bytes: seq<byte>, offset: nat, pieces: seq<Piece>, last: seq<byte>)
    requires |bytes| <= U64_MAX && StandsAt(bytes, offset, pieces, last)
    ensures ChunksFrom(build, bytes, offset) == Decoded(DataOf(pieces), offset + |Spell(pieces)| + |last| + 4)
    decreases |pieces|
  {
    hide ReadStep, StandsAt;
    if pieces == [] {
      LastStep(build, bytes, offset, last);
    } else {
      var piece, rest := pieces[0], pieces[1..];
      assert pieces == [piece] + rest;
      FirstStep(build, bytes, offset, piece, rest, last);
      StandingDecodes(build, bytes, offset + |piece.line| + 2 + |piece.data| + 2, rest, last);
    }
  }

  lemma LastStep(build: Build, bytes: seq<byte>, offset: nat, last: seq<byte>)
    requires StandsAt(bytes, offset, [], last)
    ensures ReadStep(build, bytes, offset) == Final(offset + |last| + 4)
  {
    hide ReadStep, StandsAt, SizeLine, OccursAt;
    NoPieces(bytes, offset, last);
    OccursSplit(bytes, last, CRLF, offset);
    Occurs(bytes, last, offset);
    LastLineIs(build, bytes, offset, offset + |last|);
  }

  lemma FirstStep(build: Build, bytes: seq<byte>, offset: nat, piece: Piece, rest: seq<Piece>, last: seq<byte>)
    requires |bytes| <= U64_MAX && StandsAt(bytes, offset, [piece] + rest, last)
    ensures var from := offset + |piece.line| + 2;
            var to := from + |piece.data|;
            && ReadStep(build, bytes, offset) == Data(from, to) && bytes[from..to] == piece.data
            && StandsAt(bytes, to + 2, rest, last)
  {
    hide ReadStep, StandsAt, SizeLine, OccursAt;
    OnePieceMore(bytes, offset, piece, rest, last);
    var from := offset + |piece.line| + 2;
    var to := from + |piece.data|;
    OccursSplit(bytes, piece.line, CRLF, offset);
    Occurs(bytes, piece.line, offset);
    Occurs(bytes, piece.data, from);
    Occurs(bytes, CRLF, to);
    OneChunkIs(build, bytes, offset, from - 2, to);
  }

  lemma Occurs(bytes: seq<byte>, pattern: seq<byte>, at: nat)
    ensures OccursAt(bytes, pattern, at) <==> at + |pattern| <= |bytes| && bytes[at..at + |pattern|] == pattern
  {
  }

  /** A chunked body decodes exactly when the grammar generates it, and to its data. */
  lemma ChunkedExactly(build: Build, bytes: seq<byte>, body: seq<byte>)
    requires |bytes| <= U64_MAX
    ensures ChunkedBody(build, bytes) == Ok(body) <==>
            exists pieces, last :: StandsAt(bytes, 0, pieces, last) && body == DataOf(pieces)
  {
    hide ChunksFrom, StandsAt, DataOf;
    if ChunkedBody(build, bytes).Ok? {
      var pieces, last := DecodedStands(build, bytes, 0);
      assert [] + DataOf(pieces) == DataOf(pieces);
    }
    if pieces, last :| StandsAt(bytes, 0, pieces, last) && body == DataOf(pieces) {
      StandingDecodes(build, bytes, 0, pieces, last);
    }
  }

  // ---- what each error means ---------------------------------------------------------------------

  /** Why no chunk and no end stands at an offset. */
  ghost predicate Explains(bytes: seq<byte>, offset: nat, error: HttpError) {
    match error
    case IncompleteChunkSize => forall i | offset <= i :: !OccursAt(bytes, CRLF, i)
    case InvalidChunkSize => exists at: nat :: at <= |bytes| && LineAt(bytes, offset, at) && forall n: nat :: !GivesSize(Utf8.Decode(bytes[offset..at]), n)
    case IncompleteTrailer => exists at: nat :: SizeAt(bytes, offset, at, 0) && |bytes| < at + 4
    case IncompleteChunk => exists at: nat, n: nat :: n > 0 && SizeAt(bytes, offset, at, n) && |bytes| < at + n + 4
    case MissingTerminator =>
      exists at: nat, n: nat :: n > 0 && SizeAt(bytes, offset, at, n) && at + n + 4 <= |bytes| && !OccursAt(bytes, CRLF, at + 2 + n)
    case _ => false
  }

  /** The first CRLF from `offset` on stands at `at`. */
  ghost predicate LineAt(bytes: seq<byte>, offset: nat, at: nat) {
    offset <= at && OccursAt(bytes, CRLF, at) && forall i | offset <= i < at :: !OccursAt(bytes, CRLF, i)
  }

  ghost predicate SizeAt(bytes: seq<byte>, offset: nat, at: nat, n: nat) {
    LineAt(bytes, offset, at) && at <= |bytes| && GivesSize(Utf8.Decode(bytes[offset..at]), n)
  }

  lemma BrokenSays(build: Build, bytes: seq<byte>, offset: nat)
    requires ReadStep(build, bytes, offset).Broken?
    ensures Explains(bytes, offset, ReadStep(build, bytes, offset).error)
  {
    hide Utf8.Decode, GivesSize, ChunkSize;
    var found := Find(bytes, CRLF, offset);
    if found.Some? {
      var at := found.value;
      assert LineAt(bytes, offset, at);
      var size := ChunkSize(bytes[offset..at]);
      if size.Some? {
        ChunkSizeIs(bytes[offset..at], size.value);
        assert SizeAt(bytes, offset, at, size.value);
      } else {
        forall n: nat ensures !GivesSize(Utf8.Decode(bytes[offset..at]), n) { ChunkSizeIs(bytes[offset..at], n); }
      }
      hide Find;
    }
  }

  /** A failed decode read whole chunks up to where the error explains itself. */
  lemma {:induction false} FailureSays(build: Build, bytes: seq<byte>, offset: nat) returns (pieces: seq<Piece>, at: nat)
    requires offset <= |bytes| <= U64_MAX && ChunksFrom(build, bytes, offset).Failed?
    ensures PiecesEnd(bytes, offset, pieces, at) && Explains(bytes, at, ChunksFrom(build, bytes, offset).error)
    decreases |bytes| - offset
  {
    hide ReadStep, Explains, PiecesEnd;
    StepFits(build, bytes, offset);
    match ReadStep(build, bytes, offset)
    case Broken(_) =>
      BrokenSays(build, bytes, offset);
      pieces, at := [], offset;
      NoPiecesEnd(bytes, offset);
    case Data(from, to) =>
      var rest;
      rest, at := FailureSays(build, bytes, to + 2);
      pieces := [Piece(bytes[offset..from - 2], bytes[from..to])] + rest;
      PiecesEndLater(build, bytes, offset, from, to, rest, at);
  }

  /** Whole chunks stand from `offset` to `at`. */
  ghost predicate PiecesEnd(bytes: seq<byte>, offset: nat, pieces: seq<Piece>, at: nat) {
    ArePieces(pieces) && OccursAt(bytes, Spell(pieces), offset) && at == offset + |Spell(pieces)|
  }

  lemma NoPiecesEnd(bytes: seq<byte>, offset: nat)
    requires offset <= |bytes|
    ensures PiecesEnd(bytes, offset, [], offset)
  {
  }

  lemma PiecesEndLater(build: Build, bytes: seq<byte>, offset: nat, from: nat, to: nat, rest: seq<Piece>, at: nat)
    requires |bytes| <= U64_MAX && offset + 2 <= from < to && to + 2 <= |bytes|
    requires ReadStep(build, bytes, offset) == Data(from, to) && PiecesEnd(bytes, to + 2, rest, at)
    ensures PiecesEnd(bytes, offset, [Piece(bytes[offset..from - 2], bytes[from..to])] + rest, at)
  {
    hide ReadStep, SizeLine, OccursAt, ArePieces;
    var piece := Piece(bytes[offset..from - 2], bytes[from..to]);
    OneChunkIs(build, bytes, offset, from - 2, to);
    PiecesGrow(piece, rest);
    assert ([piece] + rest)[1..] == rest;
    var line, data := piece.line + CRLF, piece.data + CRLF;
    assert Spell([piece] + rest) == line + data + Spell(rest);
    hide Spell;
    Occurs(bytes, piece.data, from);
    OccursSplit(bytes, piece.data, CRLF, from);
    OccursSplit(bytes, line, data, offset);
    OccursSplit(bytes, line + data, Spell(rest), offset);
  }
}
