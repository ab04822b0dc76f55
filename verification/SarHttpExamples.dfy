/** Two responses whose result depends on how their bytes were divided into reads. */
module SarHttpExamples {
  import opened Wrappers
  import opened Bytes
  import opened Text
  import opened HttpHeaders
  import opened SarHttp
  import RpcFraming
  import Utf8

  /** "HTTP/1.1 200 OK" */
  function StatusText(): string { "HTTP/1.1" + (" " + ("200" + (" " + "OK"))) }

  function StatusLine(): seq<byte> { Utf8.Ascii(StatusText()) }

  lemma StatusTextIsPlain()
    ensures StatusText() != "" && Utf8.IsAscii(StatusText())
    ensures forall i | 0 <= i < |StatusText()| :: 32 <= StatusText()[i] as int < 128 && StatusText()[i] != ':'
  {
  }

  lemma StatusLineIsLine()
    ensures IsLine(StatusLine()) && Utf8.Decode(StatusLine()) == StatusText()
  {
    StatusTextIsPlain();
    hide StatusText, IsLine, Utf8.Decode, Utf8.Valid;
    RpcFraming.AsciiLine(StatusText());
    Utf8.AsciiDecodes(StatusText());
  }

  lemma StatusWords()
    ensures Words(StatusText()) == ["HTTP/1.1"] + (["200"] + Words("OK"))
  {
    hide Words, TrimStart, WordLen;
    WordThenSpace("HTTP/1.1", "200" + (" " + "OK"));
    WordThenSpace("200", "OK");
  }

  /** A line without a colon is no header field. */
  lemma StatusLineIsNoField()
    ensures !IsChunkedLine(StatusText()) && LengthOf(StatusText()) == None
  {
    StatusTextIsPlain();
    hide StatusText, ParseUint, Split;
    IndexOfIs(StatusText(), ':', 0, |StatusText()|);
  }

  lemma TwoHundred()
    ensures ParseUint("200", 10, 0xFFFF) == Some(200)
  {
    assert "200"[..2] == "20" && "20"[..1] == "2";
    assert DigitsValue("2", 10) == Some(2);
    assert DigitsValue("20", 10) == Some(20);
    assert DigitsValue("200", 10) == Some(200);
  }

  /** A head of the status line and others that are no transfer coding: the body is taken as it is. */
  lemma PlainHead(lines: seq<seq<byte>>, body: seq<byte>)
    requires AreLines(lines) && lines[0] == StatusLine()
    requires forall i | 0 <= i < |lines| :: !IsChunkedLine(Utf8.Decode(lines[i]))
    ensures var head := JoinLines(lines);
            var stream := head + HEADER_END + body;
            && TakesBodyAsIs(stream) && HeaderEnd(stream) == Some(|head|) && stream[..|head|] == head
            && ContentLength(Utf8.Decode(head)) == LengthIn(DecodeEach(lines))
  {
    hide IsChunkedLine, LengthOf, HeaderEnd, JoinLines, IsLine, StatusLine, Utf8.Decode, Utf8.Valid, Lines, Status;
    var head := JoinLines(lines);
    JoinedLinesEndFirst(lines);
    HeaderThenBody(head, body);
    LinesOfJoined(lines);
    DecodedLines(lines);
    StatusIs200(Utf8.Decode(head), DecodeEach(lines));
  }

  lemma StatusIs200(headers: string, lines: seq<string>)
    requires Lines(headers) == lines && lines != [] && lines[0] == Utf8.Decode(StatusLine())
    ensures Status(headers) == Some(200)
  {
    hide Lines, ParseUint, Words, Utf8.Decode, StatusText;
    StatusLineIsLine();
    StatusWords();
    TwoHundred();
    assert Words(lines[0])[1] == "200";
  }

  lemma {:induction false} DecodedLines(lines: seq<seq<byte>>)
    ensures |DecodeEach(lines)| == |lines|
    ensures forall i | 0 <= i < |lines| :: DecodeEach(lines)[i] == Utf8.Decode(lines[i])
  {
    if lines != [] {
      DecodedLines(lines[1..]);
    }
  }

  /** A head of one line that is no field. */
  lemma OneLineHead(line: seq<byte>)
    requires IsLine(line) && !IsChunkedLine(Utf8.Decode(line)) && LengthOf(Utf8.Decode(line)) == None
    ensures JoinLines([line]) == line && AreLines([line])
    ensures forall i | 0 <= i < |[line]| :: !IsChunkedLine(Utf8.Decode([line][i]))
    ensures LengthIn(DecodeEach([line])) == None
  {
    hide IsLine, IsChunkedLine, LengthOf, Utf8.Decode;
    assert [line][1..] == [];
    assert DecodeEach([line]) == [Utf8.Decode(line)];
    assert [Utf8.Decode(line)][1..] == [];
  }

  /** Without a length: a status line, a blank line and one byte. */
  lemma OneByteTooMany(build: Build)
    ensures !SplitIndependent(build, StatusLine() + HEADER_END + [120])
  {
    hide *;
    StatusLineIsLine();
    StatusLineIsNoField();
    OneLineHead(StatusLine());
    PlainHead([StatusLine()], [120]);
    NothingAnnounced(build, StatusLine(), [120]);
  }

  /** A body taken as it is that no length announces. */
  lemma NothingAnnounced(build: Build, head: seq<byte>, body: seq<byte>)
    requires var stream := head + HEADER_END + body;
             && TakesBodyAsIs(stream) && HeaderEnd(stream) == Some(|head|) && stream[..|head|] == head
    requires ContentLength(Utf8.Decode(head)) == None && body != []
    ensures !SplitIndependent(build, head + HEADER_END + body)
  {
    hide HeaderEnd, ContentLength, Status, SplitIndependent, IsChunked, Utf8.Decode;
    SplitIndependentExactlyWhen(build, head + HEADER_END + body);
  }

  function HugeHead(): seq<byte> { JoinLines([StatusLine(), RpcFraming.LengthLine(U64_MAX)]) }

  lemma HugeHeadIsPlain()
    ensures var lines := [StatusLine(), RpcFraming.LengthLine(U64_MAX)];
            && HugeHead() == JoinLines(lines) && AreLines(lines) && lines[0] == StatusLine()
            && (forall i | 0 <= i < |lines| :: !IsChunkedLine(Utf8.Decode(lines[i])))
            && LengthIn(DecodeEach(lines)) == Some(U64_MAX)
  {
    var last := RpcFraming.LengthLine(U64_MAX);
    assert HugeHead() == JoinLines([StatusLine(), last]);
    hide *;
    StatusLineIsLine();
    StatusLineIsNoField();
    LengthLineIsPlain(U64_MAX);
    RpcFraming.LengthFieldReadsBack(U64_MAX);
    TwoPlainLines(StatusLine(), last);
    SecondLineHasLength([StatusLine(), last], U64_MAX);
  }

  lemma TwoPlainLines(first: seq<byte>, second: seq<byte>)
    requires IsLine(first) && !IsChunkedLine(Utf8.Decode(first))
    requires IsLine(second) && !IsChunkedLine(Utf8.Decode(second))
    ensures var lines := [first, second];
            AreLines(lines) && forall i | 0 <= i < |lines| :: !IsChunkedLine(Utf8.Decode(lines[i]))
  {
    hide IsLine, IsChunkedLine, Utf8.Decode;
  }

  /** With a length of 2^64 - 1, whose sum with the header's wraps: the reads matter, or all of them panic. */
  lemma HugeLengthMatters()
    ensures !SplitIndependent(Wrapping, HugeHead() + HEADER_END + [97, 98])
    ensures forall pieces | Divides(pieces, HugeHead() + HEADER_END + [97, 98]) ::
              Fetched(Checked, pieces) == Err(Panicked)
  {
    var head, stream := HugeHead(), HugeHead() + HEADER_END + [97, 98];
    assert |stream| == |head| + 6;
    hide *;
    HugeHeadIsPlain();
    PlainHead([StatusLine(), RpcFraming.LengthLine(U64_MAX)], [97, 98]);
    OverflowingLength(stream, U64_MAX);
  }

  lemma SecondLineHasLength(lines: seq<seq<byte>>, n: nat)
    requires |lines| == 2 && LengthOf(Utf8.Decode(lines[0])) == None && LengthOf(Utf8.Decode(lines[1])) == Some(n)
    ensures LengthIn(DecodeEach(lines)) == Some(n)
  {
    hide LengthOf, Utf8.Decode;
    assert LengthIn(DecodeEach(lines[1..])) == Some(n);
  }

  lemma LengthLineIsPlain(n: nat)
    ensures IsLine(RpcFraming.LengthLine(n)) && !IsChunkedLine(Utf8.Decode(RpcFraming.LengthLine(n)))
  {
    RpcFraming.LengthLineIsField(n);
    assert |Lower("Content-Length")| != |Lower("transfer-encoding")|;
    RpcFraming.AsciiLine("Content-Length: ");
    RpcFraming.DigitsAreAscii(n);
    RpcFraming.AsciiLine(FormatUint(n, 10));
    RpcFraming.LineConcat(Utf8.Ascii("Content-Length: "), RpcFraming.Digits(n));
  }
}
