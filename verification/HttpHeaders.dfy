/** What the two HTTP readers of the repository share: finding the header's end and its length line. */
module HttpHeaders {
  import opened Wrappers
  import opened Bytes
  import opened Text
  import Utf8

  const CRLF: seq<byte> := [13, 10]
  const HEADER_END: seq<byte> := [13, 10, 13, 10]

  function HeaderEnd(bytes: seq<byte>): (r: Option<nat>)
    ensures r.Some? ==> r.value + 4 <= |bytes|
  {
    Find(bytes, HEADER_END, 0)
  }

  function LengthOf(line: string): Option<nat> {
    match SplitOnce(line, ':')
    case None => None
    case Some((name, value)) =>
      if EqIgnoreAsciiCase(name, "content-length") then ParseUint(Trim(value), 10, U64_MAX) else None
  }

  /** The first `Content-Length` line whose value is a number. */
  function LengthIn(lines: seq<string>): Option<nat> {
    if lines == [] then None
    else
      var here := LengthOf(lines[0]);
      if here.Some? then here else LengthIn(lines[1..])
  }

  function ContentLength(headers: string): Option<nat> { LengthIn(Lines(headers)) }

  /** Whether a line is the field `name: value`, the name ending at the first colon. */
  ghost predicate IsField(line: string, name: string, value: string) {
    line == name + (":" + value) && ':' !in name
  }

  /** Whether a line announces a body of `n` bytes. */
  ghost predicate Announces(line: string, n: nat) {
    && n <= U64_MAX
    && exists name, value :: IsField(line, name, value) && Lower(name) == "content-length" && SpellsNumber(Trim(value), n)
  }

  ghost predicate SpellsNumber(text: string, n: nat) {
    Spells(text, n, 10) || (text != "" && text[0] == '+' && Spells(text[1..], n, 10))
  }

  lemma LengthOfIs(line: string, n: nat)
    ensures LengthOf(line) == Some(n) <==> Announces(line, n)
  {
    hide Trim, ParseUint, Spells, SplitOnce;
    assert Lower("content-length") == "content-length";
    var split := SplitOnce(line, ':');
    if split.Some? {
      var (name, value) := split.value;
      SplitOnceIs(line, ':', name, value);
      ParsesExactly(Trim(value), n, 10, U64_MAX);
    }
    if Announces(line, n) {
      var name, value :| IsField(line, name, value) && Lower(name) == "content-length" && SpellsNumber(Trim(value), n);
      SplitOnceIs(line, ':', name, value);
    }
  }

  ghost predicate Silent(line: string) { forall n: nat :: !Announces(line, n) }

  lemma NoLengthOf(line: string)
    ensures LengthOf(line) == None <==> Silent(line)
  {
    hide Announces, LengthOf;
    if LengthOf(line).Some? { LengthOfIs(line, LengthOf(line).value); }
    forall n: nat | Announces(line, n) ensures LengthOf(line) == Some(n) { LengthOfIs(line, n); }
  }

  /** The length is that of the first line that announces one. */
  lemma {:induction false} LengthInIs(lines: seq<string>, n: nat)
    ensures LengthIn(lines) == Some(n) <==>
            exists i | 0 <= i < |lines| :: Announces(lines[i], n) && forall j | 0 <= j < i :: Silent(lines[j])
    ensures LengthIn(lines) == None <==> forall i | 0 <= i < |lines| :: Silent(lines[i])
  {
    hide LengthOf, Announces, Silent;
    if lines != [] {
      var rest := lines[1..];
      LengthInIs(rest, n);
      LengthOfIs(lines[0], n);
      NoLengthOf(lines[0]);
      AnnouncingIsNotSilent(lines[0], n);
      forall i | 0 < i < |lines| ensures lines[i] == rest[i - 1] {}
      if i :| 0 <= i < |rest| && Announces(rest[i], n) && forall j | 0 <= j < i :: Silent(rest[j]) {
        assert lines[i + 1] == rest[i];
      }
    }
  }

  lemma AnnouncingIsNotSilent(line: string, n: nat)
    ensures Announces(line, n) ==> !Silent(line)
  {
  }

  lemma HeaderOfPrefix(stream: seq<byte>, m: nat)
    requires m <= |stream|
    ensures HeaderEnd(stream[..m]).Some? <==> HeaderEnd(stream).Some? && HeaderEnd(stream).value + 4 <= m
    ensures HeaderEnd(stream[..m]).Some? ==>
              var end := HeaderEnd(stream).value;
              && HeaderEnd(stream[..m]) == Some(end)
              && stream[..m][..end] == stream[..end]
              && stream[..m][end + 4..] == stream[end + 4..][..m - end - 4]
  {
    FindInPrefix(stream, HEADER_END, 0, m);
  }

  lemma HeaderThenBody(head: seq<byte>, body: seq<byte>)
    requires HeaderEnd(head + HEADER_END) == Some(|head|)
    ensures var stream := head + HEADER_END + body;
            && HeaderEnd(stream) == Some(|head|)
            && stream[..|head|] == head && stream[|head| + 4..] == body
  {
    var stream := head + HEADER_END + body;
    var k := |head| + 4;
    assert stream[..k] == head + HEADER_END;
    HeaderOfPrefix(stream, k);
  }

  // ---- headers written line by line ------------------------------------------------------

  /** A header line: something, well formed, without CR or LF. */
  predicate IsLine(line: seq<byte>) {
    line != [] && Utf8.Valid(line) && forall i | 0 <= i < |line| :: line[i] != 13 && line[i] != 10
  }

  predicate AreLines(lines: seq<seq<byte>>) {
    lines != [] && forall i | 0 <= i < |lines| :: IsLine(lines[i])
  }

  function JoinLines(lines: seq<seq<byte>>): seq<byte>
    requires lines != []
  {
    if |lines| == 1 then lines[0] else lines[0] + (CRLF + JoinLines(lines[1..]))
  }

  function DecodeEach(lines: seq<seq<byte>>): seq<string> {
    if lines == [] then [] else [Utf8.Decode(lines[0])] + DecodeEach(lines[1..])
  }

  lemma {:induction false} JoinedIsNotEmpty(lines: seq<seq<byte>>)
    requires AreLines(lines)
    ensures JoinLines(lines) != [] && JoinLines(lines)[0] == lines[0][0] && JoinLines(lines)[0] != 13
  {
    assert IsLine(lines[0]);
  }

  /** The blank line after joined lines is the first one. */
  lemma {:induction false} JoinedLinesEndFirst(lines: seq<seq<byte>>)
    requires AreLines(lines)
    ensures HeaderEnd(JoinLines(lines) + HEADER_END) == Some(|JoinLines(lines)|)
  {
    var head := JoinLines(lines);
    var stream := head + HEADER_END;
    forall i | 0 <= i < |head| ensures !OccursAt(stream, HEADER_END, i) {
      NoBlankLineInside(lines, i);
    }
    assert stream[|head|..|head| + 4] == HEADER_END;
    FindIs(stream, HEADER_END, 0, |head|);
  }

  lemma {:induction false} NoBlankLineInside(lines: seq<seq<byte>>, i: nat)
    requires AreLines(lines) && i < |JoinLines(lines)|
    ensures !OccursAt(JoinLines(lines) + HEADER_END, HEADER_END, i)
    decreases |lines|
  {
    var line, stream := lines[0], JoinLines(lines) + HEADER_END;
    assert IsLine(line);
    if i < |line| {
      assert stream[i] == line[i] != 13;
      assert i + 4 <= |stream| ==> stream[i..i + 4][0] == stream[i];
    } else {
      var rest := JoinLines(lines[1..]);
      JoinedIsNotEmpty(lines[1..]);
      assert stream == line + (CRLF + (rest + HEADER_END));
      if i == |line| {
        assert stream[i + 2] == rest[0] != 13;
        assert stream[i..i + 4][2] == stream[i + 2];
      } else if i == |line| + 1 {
        assert stream[i] == 10;
        assert stream[i..i + 4][0] == stream[i];
      } else {
        var k := i - |line| - 2;
        NoBlankLineInside(lines[1..], k);
        assert i + 4 <= |stream| ==> stream[i..i + 4] == (rest + HEADER_END)[k..k + 4];
      }
    }
  }

  lemma {:induction false} NoLineFeedDecodes(s: seq<byte>)
    requires Utf8.Valid(s) && forall i | 0 <= i < |s| :: s[i] != 10
    ensures forall i | 0 <= i < |Utf8.Decode(s)| :: Utf8.Decode(s)[i] != '\n'
    ensures s != [] ==> Utf8.Decode(s) != ""
    decreases |s|
  {
    if s != [] {
      var n := Utf8.CharLen(s);
      NoLineFeedDecodes(s[n..]);
      ScalarIsNotLineFeed(s[..n]);
    }
  }

  lemma ScalarIsNotLineFeed(w: seq<byte>)
    requires Utf8.IsChar(w) && w[0] != 10
    ensures Utf8.Scalar(w) != '\n'
  {
  }

  /** Joined lines are well formed and split back into the lines. */
  lemma {:induction false} LinesOfJoined(lines: seq<seq<byte>>)
    requires AreLines(lines)
    ensures Utf8.Valid(JoinLines(lines))
    ensures Lines(Utf8.Decode(JoinLines(lines))) == DecodeEach(lines)
    decreases |lines|
  {
    hide Utf8.Valid, Utf8.Decode, Lines;
    assert IsLine(lines[0]);
    var first := Utf8.Decode(lines[0]);
    NoLineFeedDecodes(lines[0]);
    if |lines| == 1 {
      LinesAre(first, "");
      assert lines[1..] == [];
    } else {
      var rest := JoinLines(lines[1..]);
      LinesOfJoined(lines[1..]);
      CrLfDecodes();
      Utf8.DecodeConcat(CRLF, rest);
      Utf8.DecodeConcat(lines[0], CRLF + rest);
      Utf8.ValidConcat(CRLF, rest);
      Utf8.ValidConcat(lines[0], CRLF + rest);
      LinesAre(first, Utf8.Decode(rest));
    }
  }

  lemma CrLfDecodes()
    ensures Utf8.Valid(CRLF) && Utf8.Decode(CRLF) == "\r\n"
  {
    Utf8.AsciiDecodes("\r\n");
    assert Utf8.Ascii("\r\n") == CRLF;
  }
}
