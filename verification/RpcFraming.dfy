/**
 * The reticulumd RPC transport: a length-prefixed frame inside an HTTP message
 * (`encode_frame`, `decode_frame`, `build_http_post`, `parse_http_response_body`).
 * The serializer is a parameter; sections 5 and 6.3 of RFC 9112 govern the message.
 */
module RpcFraming {
  import opened Wrappers
  import opened Bytes
  import opened Text
  import opened HttpHeaders
  import Utf8

  datatype RpcError =
    | Unserializable
    | FrameTooLarge
    | MissingFrameHeader
    | IncompleteFrame
    | Undecodable
    | MissingHeaders
    | HeadersNotText
    | MissingContentLength
    | IncompleteBody
    | Panicked

  // ---- frames ------------------------------------------------------------------------

  /** The frame of a payload. */
  function Framed(payload: seq<byte>): seq<byte> { ToBigEndian(|payload|, 4) + payload }

  method EncodeFrame<T>(serialize: T -> Option<seq<byte>>, message: T) returns (r: Result<seq<byte>, RpcError>)
    ensures r == match serialize(message) {
                   case None => Err(Unserializable)
                   case Some(payload) =>
                     if |payload| < 0x1_0000_0000 then Ok(Framed(payload)) else Err(FrameTooLarge)
                 }
  {
    var framed: seq<byte> := [0, 0, 0, 0];
    var payload := serialize(message);
    if payload.None? {
      return Err(Unserializable);
    }
    framed := framed + payload.value;
    var payloadLen := |framed| - 4;
    if payloadLen >= 0x1_0000_0000 {
      return Err(FrameTooLarge);
    }
    framed := ToBigEndian(payloadLen, 4) + framed[4..];
    r := Ok(framed);
  }

  function DecodeFrame<T>(deserialize: seq<byte> -> Option<T>, bytes: seq<byte>): Result<T, RpcError> {
    if |bytes| < 4 then Err(MissingFrameHeader)
    else
      var len := FromBigEndian(bytes[..4]);
      if |bytes| < 4 + len then Err(IncompleteFrame)
      else match deserialize(bytes[4..4 + len]) {
        case None => Err(Undecodable)
        case Some(message) => Ok(message)
      }
  }

  /** A frame decodes to its payload whatever follows it, and no proper prefix of it decodes. */
  lemma FrameRoundTrip<T>(deserialize: seq<byte> -> Option<T>, payload: seq<byte>, junk: seq<byte>, m: nat)
    requires |payload| < 0x1_0000_0000 && deserialize(payload).Some? && m < |Framed(payload)|
    ensures DecodeFrame(deserialize, Framed(payload) + junk) == Ok(deserialize(payload).value)
    ensures DecodeFrame(deserialize, Framed(payload)[..m]) == Err(if m < 4 then MissingFrameHeader else IncompleteFrame)
  {
    var header, frame := ToBigEndian(|payload|, 4), Framed(payload);
    Pow256Values();
    BigEndianRoundTrip(|payload|, 4);
    var bytes := frame + junk;
    assert bytes[..4] == header && bytes[4..4 + |payload|] == payload;
    if m >= 4 {
      assert frame[..m][..4] == header;
    }
  }

  /** What a decode read is a frame. */
  lemma DecodedIsFrame(bytes: seq<byte>)
    requires |bytes| >= 4 && |bytes| >= 4 + FromBigEndian(bytes[..4])
    ensures var payload := bytes[4..4 + FromBigEndian(bytes[..4])];
            |payload| < 0x1_0000_0000 && Framed(payload) <= bytes
  {
    var len := FromBigEndian(bytes[..4]);
    Pow256Values();
    BigEndianUnique(bytes[..4]);
    assert bytes[..4 + len] == bytes[..4] + bytes[4..4 + len];
  }

  /** The frame decoder accepts exactly a frame of a payload it can deserialize, with anything after it. */
  lemma DecodesExactlyFrames<T>(deserialize: seq<byte> -> Option<T>, bytes: seq<byte>, message: T)
    ensures DecodeFrame(deserialize, bytes) == Ok(message) <==>
            exists payload :: |payload| < 0x1_0000_0000 && Framed(payload) <= bytes && deserialize(payload) == Some(message)
  {
    hide Framed, FromBigEndian;
    if DecodeFrame(deserialize, bytes) == Ok(message) {
      DecodedIsFrame(bytes);
    }
    if payload :| |payload| < 0x1_0000_0000 && Framed(payload) <= bytes && deserialize(payload) == Some(message) {
      hide DecodeFrame;
      FrameIsNotEmpty(payload);
      var junk := bytes[|Framed(payload)|..];
      assert bytes == Framed(payload) + junk;
      FrameRoundTrip(deserialize, payload, junk, 0);
    }
  }

  lemma FrameIsNotEmpty(payload: seq<byte>)
    ensures |Framed(payload)| >= 4
  {
  }

  // ---- HTTP ------------------------------------------------------------------------------

  function RequestLine(path: seq<byte>): seq<byte> { Utf8.Ascii("POST ") + path + Utf8.Ascii(" HTTP/1.1") }

  function HostLine(host: seq<byte>): seq<byte> { Utf8.Ascii("Host: ") + host }

  function TypeLine(): seq<byte> { Utf8.Ascii("Content-Type: application/msgpack") }

  function LengthLine(n: nat): seq<byte> { Utf8.Ascii("Content-Length: ") + Digits(n) }

  function PostLines(path: seq<byte>, host: seq<byte>, length: nat): (lines: seq<seq<byte>>)
    ensures |lines| == 4
  {
    [RequestLine(path), HostLine(host), TypeLine(), LengthLine(length)]
  }

  function Digits(n: nat): (s: seq<byte>) {
    DigitsAreAscii(n);
    Utf8.Ascii(FormatUint(n, 10))
  }

  lemma DigitsAreAscii(n: nat)
    ensures forall i | 0 <= i < |FormatUint(n, 10)| :: '0' <= FormatUint(n, 10)[i] <= '9'
    ensures Utf8.IsAscii(FormatUint(n, 10))
  {
    var t := FormatUint(n, 10);
    forall i | 0 <= i < |t| ensures '0' <= t[i] <= '9' {
      assert DigitValue(t[i], 10).Some?;
    }
  }

  method BuildHttpPost(path: seq<byte>, host: seq<byte>, body: seq<byte>) returns (request: seq<byte>)
    ensures request == JoinLines(PostLines(path, host, |body|)) + HEADER_END + body
  {
    hide RequestLine, HostLine, TypeLine, LengthLine, JoinLines;
    request := [];
    request := request + (RequestLine(path) + CRLF);
    request := request + (HostLine(host) + CRLF);
    request := request + (TypeLine() + CRLF);
    request := request + (LengthLine(|body|) + CRLF);
    request := request + CRLF;
    JoinFour(PostLines(path, host, |body|));
    request := request + body;
  }

  lemma JoinFour(lines: seq<seq<byte>>)
    requires |lines| == 4
    ensures JoinLines(lines) + HEADER_END
            == [] + (lines[0] + CRLF) + (lines[1] + CRLF) + (lines[2] + CRLF) + (lines[3] + CRLF) + CRLF
  {
    assert lines[1..][1..] == lines[2..] && lines[2..][1..] == lines[3..];
    assert JoinLines(lines[3..]) == lines[3];
    assert JoinLines(lines[2..]) == lines[2] + (CRLF + lines[3]);
    assert JoinLines(lines[1..]) == lines[1] + (CRLF + JoinLines(lines[2..]));
    assert JoinLines(lines) == lines[0] + (CRLF + JoinLines(lines[1..]));
  }

  /** No slice reaches 2^64 bytes; a sum that does panics, checked when it is made and wrapped when it is used. */
  function ParseHttpResponseBody(response: seq<byte>): Result<seq<byte>, RpcError> {
    var end := HeaderEnd(response);
    if end.None? then Err(MissingHeaders)
    else
      var headers := response[..end.value];
      if !Utf8.Valid(headers) then Err(HeadersNotText)
      else
        var start := end.value + 4;
        match ContentLength(Utf8.Decode(headers)) {
          case None => Err(MissingContentLength)
          case Some(length) =>
            if start + length <= |response| then Ok(response[start..start + length])
            else if start + length > U64_MAX then Err(Panicked)
            else Err(IncompleteBody)
        }
  }

  /** The posted head, byte by byte. */
  lemma PostedHead(path: seq<byte>, host: seq<byte>, n: nat)
    ensures JoinLines(PostLines(path, host, n)) + HEADER_END ==
            (Utf8.Encode("POST ") + path + Utf8.Encode(" HTTP/1.1") + CRLF)
            + (Utf8.Encode("Host: ") + host + CRLF)
            + (Utf8.Encode("Content-Type: application/msgpack") + CRLF)
            + (Utf8.Encode("Content-Length: ") + Utf8.Encode(FormatUint(n, 10)) + CRLF)
            + CRLF
  {
    hide *;
    JoinFour(PostLines(path, host, n));
    FourLines(path, host, n);
    RequestLineIs(path);
    HostLineIs(host);
    TypeLineIs();
    LengthLineIs(n);
    var first := RequestLine(path) + CRLF;
    assert [] + first == first;
  }

  lemma FourLines(path: seq<byte>, host: seq<byte>, n: nat)
    ensures PostLines(path, host, n) == [RequestLine(path), HostLine(host), TypeLine(), LengthLine(n)]
  {
  }

  lemma RequestLineIs(path: seq<byte>)
    ensures RequestLine(path) == Utf8.Encode("POST ") + path + Utf8.Encode(" HTTP/1.1")
  {
    hide Utf8.Ascii, Utf8.Encode;
    Utf8.AsciiIsEncoded("POST ");
    Utf8.AsciiIsEncoded(" HTTP/1.1");
  }

  lemma HostLineIs(host: seq<byte>)
    ensures HostLine(host) == Utf8.Encode("Host: ") + host
  {
    hide Utf8.Ascii, Utf8.Encode;
    Utf8.AsciiIsEncoded("Host: ");
  }

  lemma TypeLineIs()
    ensures TypeLine() == Utf8.Encode("Content-Type: application/msgpack")
  {
    hide Utf8.Ascii, Utf8.Encode;
    Utf8.AsciiIsEncoded("Content-Type: application/msgpack");
  }

  lemma LengthLineIs(n: nat)
    ensures LengthLine(n) == Utf8.Encode("Content-Length: ") + Utf8.Encode(FormatUint(n, 10))
  {
    hide Utf8.Ascii, Utf8.Encode, FormatUint;
    Utf8.AsciiIsEncoded("Content-Length: ");
    DigitsAreAscii(n);
    Utf8.AsciiIsEncoded(FormatUint(n, 10));
  }

  /** A well-formed head whose first announced length is `n`. */
  ghost predicate HeadFor(head: seq<byte>, n: nat) {
    && Utf8.Valid(head) && HeaderEnd(head + HEADER_END) == Some(|head|)
    && var lines := Lines(Utf8.Decode(head));
       exists i | 0 <= i < |lines| :: Announces(lines[i], n) && forall j | 0 <= j < i :: Silent(lines[j])
  }

  lemma LengthSays(head: seq<byte>, n: nat)
    ensures HeadFor(head, n) <==>
            && Utf8.Valid(head) && HeaderEnd(head + HEADER_END) == Some(|head|)
            && ContentLength(Utf8.Decode(head)) == Some(n)
  {
    hide HeaderEnd, Lines, Announces, Silent, LengthIn;
    LengthInIs(Lines(Utf8.Decode(head)), n);
  }

  /** A body is read exactly when it stands behind a head that announces its length; what follows it does not matter. */
  lemma BodyIsRead(response: seq<byte>, body: seq<byte>)
    ensures ParseHttpResponseBody(response) == Ok(body) <==>
            exists head :: HeadFor(head, |body|) && head + HEADER_END + body <= response
  {
    hide HeadFor, HeaderEnd, ContentLength, Utf8.Valid, Utf8.Decode;
    if ParseHttpResponseBody(response) == Ok(body) {
      var end := HeaderEnd(response).value;
      var head := response[..end];
      HeadStands(response);
      LengthSays(head, |body|);
      assert head + HEADER_END + body == response[..end + 4 + |body|];
    }
    if head :| HeadFor(head, |body|) && head + HEADER_END + body <= response {
      LengthSays(head, |body|);
      var rest := response[|head| + 4..];
      assert response == head + HEADER_END + rest;
      HeaderThenBody(head, rest);
      assert response[|head| + 4..|head| + 4 + |body|] == body;
    }
  }

  /** A body cut short, and a head that announces no length. */
  lemma BodyIsMissing(head: seq<byte>, got: seq<byte>, n: nat)
    requires HeadFor(head, n) && |got| < n && |head| + 4 + n <= U64_MAX
    ensures ParseHttpResponseBody(head + HEADER_END + got) == Err(IncompleteBody)
  {
    hide HeadFor, HeaderEnd, ContentLength, Utf8.Valid, Utf8.Decode;
    LengthSays(head, n);
    HeaderThenBody(head, got);
  }

  lemma LengthIsMissing(head: seq<byte>, got: seq<byte>)
    requires Utf8.Valid(head) && HeaderEnd(head + HEADER_END) == Some(|head|)
    requires forall i | 0 <= i < |Lines(Utf8.Decode(head))| :: Silent(Lines(Utf8.Decode(head))[i])
    ensures ParseHttpResponseBody(head + HEADER_END + got) == Err(MissingContentLength)
  {
    hide HeaderEnd, Utf8.Valid, Utf8.Decode, Lines, LengthIn, Silent;
    LengthInIs(Lines(Utf8.Decode(head)), 0);
    HeaderThenBody(head, got);
  }

  lemma HeadStands(response: seq<byte>)
    requires HeaderEnd(response).Some?
    ensures var end := HeaderEnd(response).value;
            end + 4 <= |response| && response[..end] + HEADER_END == response[..end + 4]
            && HeaderEnd(response[..end] + HEADER_END) == Some(end)
  {
    var end := HeaderEnd(response).value;
    assert response[..end + 4] == response[..end] + response[end..end + 4];
    HeaderOfPrefix(response, end + 4);
  }

  /** Text that may stand in the request line or the host line. */
  predicate InLine(text: seq<byte>) {
    Utf8.Valid(text) && forall i | 0 <= i < |text| :: text[i] != 13 && text[i] != 10
  }

  lemma AsciiLine(t: string)
    requires t != "" && forall i | 0 <= i < |t| :: 32 <= t[i] as int < 128
    ensures IsLine(Utf8.Ascii(t))
  {
    Utf8.AsciiDecodes(t);
  }

  lemma LineConcat(a: seq<byte>, b: seq<byte>)
    requires IsLine(a) && InLine(b)
    ensures IsLine(a + b)
  {
    Utf8.ValidConcat(a, b);
  }

  lemma PostLinesAreLines(path: seq<byte>, host: seq<byte>, length: nat)
    requires InLine(path) && InLine(host)
    ensures AreLines(PostLines(path, host, length))
  {
    hide Utf8.Valid;
    AsciiLine("POST ");
    AsciiLine(" HTTP/1.1");
    LineConcat(Utf8.Ascii("POST "), path);
    LineConcat(Utf8.Ascii("POST ") + path, Utf8.Ascii(" HTTP/1.1"));
    AsciiLine("Host: ");
    LineConcat(Utf8.Ascii("Host: "), host);
    AsciiLine("Content-Type: application/msgpack");
    AsciiLine("Content-Length: ");
    DigitsAreAscii(length);
    AsciiLine(FormatUint(length, 10));
    LineConcat(Utf8.Ascii("Content-Length: "), Digits(length));
    assert IsLine(RequestLine(path)) && IsLine(HostLine(host)) && IsLine(TypeLine()) && IsLine(LengthLine(length));
  }

  /** A line whose text starts with `name` and a colon, where `name` has no colon, is the field `name`. */
  lemma FieldOfLine(line: seq<byte>, name: string, rest: seq<byte>)
    requires Utf8.IsAscii(name) && forall i | 0 <= i < |name| :: name[i] != ':'
    requires line == Utf8.Ascii(name + ":") + rest && Utf8.IsAscii(name + ":")
    ensures SplitOnce(Utf8.Decode(line), ':') == Some((name, Utf8.Decode(rest)))
  {
    Utf8.AsciiDecodes(name + ":");
    Utf8.DecodeConcat(Utf8.Ascii(name + ":"), rest);
    var s := Utf8.Decode(line);
    assert s == name + ":" + Utf8.Decode(rest);
    assert s[|name|] == ':' && s[..|name|] == name && s[|name| + 1..] == Utf8.Decode(rest);
    IndexOfIs(s, ':', 0, |name|);
  }

  lemma RequestLineHasNoLength(path: seq<byte>)
    ensures LengthOf(Utf8.Decode(RequestLine(path))) == None
  {
    hide Utf8.Decode, LengthOf, Utf8.Ascii;
    var rest := path + Utf8.Ascii(" HTTP/1.1");
    Assoc(Utf8.Ascii("POST "), path, Utf8.Ascii(" HTTP/1.1"));
    Utf8.AsciiDecodes("POST ");
    Utf8.DecodeConcat(Utf8.Ascii("POST "), rest);
    PostIsNotLength(Utf8.Decode(rest));
  }

  lemma PostIsNotLength(rest: string)
    ensures LengthOf("POST " + rest) == None
  {
    hide ParseUint, Trim;
    var s := "POST " + rest;
    var i := IndexOf(s, ':', 0);
    assert s[0] == 'P' && i > 0;
    assert Lower(s[..i])[0] == 'p' && Lower("content-length")[0] == 'c';
  }

  lemma OtherFieldHasNoLength(line: seq<byte>, name: string, rest: seq<byte>)
    requires Utf8.IsAscii(name) && forall i | 0 <= i < |name| :: name[i] != ':'
    requires line == Utf8.Ascii(name + ":") + rest && |name| != 14
    ensures LengthOf(Utf8.Decode(line)) == None
  {
    FieldOfLine(line, name, rest);
    assert |Lower(name)| != |Lower("content-length")|;
  }

  lemma LengthFieldReadsBack(n: nat)
    requires n <= U64_MAX
    ensures LengthOf(Utf8.Decode(LengthLine(n))) == Some(n)
  {
    hide Trim, TrimStart, TrimEnd, ParseUint, Utf8.Decode, FormatUint, SplitOnce;
    var digits := FormatUint(n, 10);
    DigitsAreAscii(n);
    LengthLineIsField(n);
    assert Lower("Content-Length") == Lower("content-length");
    assert IsTrimmed(digits);
    TrimSpace(digits);
    ParseFormatted(n, 10, U64_MAX);
  }

  lemma AsciiConcat(a: string, b: string)
    requires Utf8.IsAscii(a) && Utf8.IsAscii(b)
    ensures Utf8.Ascii(a + b) == Utf8.Ascii(a) + Utf8.Ascii(b)
  {
  }

  /** Moves the space after a field's colon from its name to its value. */
  lemma SpaceBelongsToValue(field: string, rest: seq<byte>)
    requires Utf8.IsAscii(field)
    ensures Utf8.Ascii(field + " ") + rest == Utf8.Ascii(field) + (Utf8.Ascii(" ") + rest)
  {
    AsciiConcat(field, " ");
    Assoc(Utf8.Ascii(field), Utf8.Ascii(" "), rest);
  }

  lemma LengthLineIsField(n: nat)
    ensures SplitOnce(Utf8.Decode(LengthLine(n)), ':') == Some(("Content-Length", " " + FormatUint(n, 10)))
  {
    hide Utf8.Decode, FormatUint, SplitOnce, Utf8.Ascii;
    DigitsAreAscii(n);
    var value := " " + FormatUint(n, 10);
    AsciiConcat(" ", FormatUint(n, 10));
    Utf8.AsciiDecodes(value);
    assert "Content-Length" + ":" == "Content-Length:" && "Content-Length:" + " " == "Content-Length: ";
    SpaceBelongsToValue("Content-Length:", Digits(n));
    FieldOfLine(LengthLine(n), "Content-Length", Utf8.Ascii(value));
  }

  lemma PostedLength(path: seq<byte>, host: seq<byte>, n: nat)
    requires n <= U64_MAX
    ensures LengthIn(DecodeEach(PostLines(path, host, n))) == Some(n)
  {
    hide LengthOf, RequestLine, HostLine, TypeLine, LengthLine;
    RequestLineHasNoLength(path);
    HostLineHasNoLength(host);
    TypeLineHasNoLength();
    LengthFieldReadsBack(n);
    FourthLineHasLength(PostLines(path, host, n), n);
  }

  lemma FourthLineHasLength(lines: seq<seq<byte>>, n: nat)
    requires |lines| == 4
    requires forall i | 0 <= i < 3 :: LengthOf(Utf8.Decode(lines[i])) == None
    requires LengthOf(Utf8.Decode(lines[3])) == Some(n)
    ensures LengthIn(DecodeEach(lines)) == Some(n)
  {
    hide LengthOf, Utf8.Decode;
    assert lines[1..][1..] == lines[2..] && lines[2..][1..] == lines[3..];
    assert LengthIn(DecodeEach(lines[3..])) == Some(n);
    assert LengthIn(DecodeEach(lines[2..])) == Some(n);
    assert LengthIn(DecodeEach(lines[1..])) == Some(n);
  }

  lemma HostLineHasNoLength(host: seq<byte>)
    ensures LengthOf(Utf8.Decode(HostLine(host))) == None
  {
    hide Utf8.Decode, LengthOf, Utf8.Ascii;
    assert "Host" + ":" == "Host:" && "Host:" + " " == "Host: ";
    SpaceBelongsToValue("Host:", host);
    OtherFieldHasNoLength(HostLine(host), "Host", Utf8.Ascii(" ") + host);
  }

  lemma TypeLineHasNoLength()
    ensures LengthOf(Utf8.Decode(TypeLine())) == None
  {
    hide Utf8.Decode, LengthOf, Utf8.Ascii;
    assert "Content-Type" + ":" == "Content-Type:" && "Content-Type:" + " application/msgpack" == "Content-Type: application/msgpack";
    AsciiConcat("Content-Type:", " application/msgpack");
    OtherFieldHasNoLength(TypeLine(), "Content-Type", Utf8.Ascii(" application/msgpack"));
  }

  /** Reading back a posted message gives exactly its body, whatever bytes the body holds. */
  lemma PostRoundTrip(path: seq<byte>, host: seq<byte>, body: seq<byte>)
    requires InLine(path) && InLine(host) && |body| <= U64_MAX
    ensures ParseHttpResponseBody(JoinLines(PostLines(path, host, |body|)) + HEADER_END + body) == Ok(body)
  {
    hide Utf8.Valid, Utf8.Decode, HeaderEnd, JoinLines, PostLines, LengthIn, DecodeEach, Lines;
    var lines := PostLines(path, host, |body|);
    PostLinesAreLines(path, host, |body|);
    var head := JoinLines(lines);
    JoinedLinesEndFirst(lines);
    HeaderThenBody(head, body);
    LinesOfJoined(lines);
    PostedLength(path, host, |body|);
    var stream := head + HEADER_END + body;
    assert stream[|head| + 4..|head| + 4 + |body|] == stream[|head| + 4..];
  }

  /** A framed message posted over HTTP arrives as it was sent. */
  lemma RpcRoundTrip<T>(deserialize: seq<byte> -> Option<T>, path: seq<byte>, host: seq<byte>, payload: seq<byte>)
    requires InLine(path) && InLine(host)
    requires |payload| < 0x1_0000_0000 && deserialize(payload).Some?
    ensures var frame := Framed(payload);
            var body := ParseHttpResponseBody(JoinLines(PostLines(path, host, |frame|)) + HEADER_END + frame);
            body.Ok? && DecodeFrame(deserialize, body.value) == Ok(deserialize(payload).value)
  {
    hide ParseHttpResponseBody, DecodeFrame, JoinLines, PostLines;
    PostRoundTrip(path, host, Framed(payload));
    FrameRoundTrip(deserialize, payload, [], 0);
    assert Framed(payload) + [] == Framed(payload);
  }
}
