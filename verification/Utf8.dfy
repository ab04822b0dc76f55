/**
 * UTF-8 as section 4 of RFC 3629 defines it, the way the standard library's
 * `str::from_utf8` reports the first ill-formed byte sequence, and the two
 * lossy decoders built on that report.
 */
module Utf8 {
  import opened Wrappers
  import opened Bytes

  // ---- the grammar of RFC 3629 ----------------------------------------------

  predicate Tail(b: byte) { 0x80 <= b <= 0xBF }

  /** Legal first two bytes of a three-byte character. */
  predicate Lead3(b0: byte, b1: byte) {
    || (b0 == 0xE0 && 0xA0 <= b1 <= 0xBF)
    || (0xE1 <= b0 <= 0xEC && Tail(b1))
    || (b0 == 0xED && 0x80 <= b1 <= 0x9F)
    || (0xEE <= b0 <= 0xEF && Tail(b1))
  }

  /** Legal first two bytes of a four-byte character. */
  predicate Lead4(b0: byte, b1: byte) {
    || (b0 == 0xF0 && 0x90 <= b1 <= 0xBF)
    || (0xF1 <= b0 <= 0xF3 && Tail(b1))
    || (b0 == 0xF4 && 0x80 <= b1 <= 0x8F)
  }

  /** Length of the character at the front of `s`, or 0 when there is none. */
  function CharLen(s: seq<byte>): (n: nat)
    ensures n <= |s| && n <= 4
  {
    if |s| >= 1 && s[0] < 0x80 then 1
    else if |s| >= 2 && 0xC2 <= s[0] <= 0xDF && Tail(s[1]) then 2
    else if |s| >= 3 && Lead3(s[0], s[1]) && Tail(s[2]) then 3
    else if |s| >= 4 && Lead4(s[0], s[1]) && Tail(s[2]) && Tail(s[3]) then 4
    else 0
  }

  predicate IsChar(w: seq<byte>) { w != [] && CharLen(w) == |w| }

  /** Well-formed UTF-8: a concatenation of characters. */
  predicate Valid(s: seq<byte>)
    decreases |s|
  {
    s == [] || (CharLen(s) > 0 && Valid(s[CharLen(s)..]))
  }

  lemma CharLenExtends(s: seq<byte>, t: seq<byte>)
    ensures CharLen(s) > 0 ==> CharLen(s + t) == CharLen(s)
  {
  }

  lemma {:induction false} ValidConcat(a: seq<byte>, b: seq<byte>)
    requires Valid(a)
    ensures Valid(a + b) <==> Valid(b)
    decreases |a|
  {
    if a == [] {
      assert a + b == b;
    } else {
      var n := CharLen(a);
      CharLenExtends(a, b);
      assert (a + b)[n..] == a[n..] + b;
      ValidConcat(a[n..], b);
    }
  }

  // ---- maximal subparts of ill-formed text ------------------------------------

  /** A proper, non-empty beginning of some character. */
  ghost predicate Begins(p: seq<byte>) {
    p != [] && exists w :: IsChar(w) && |p| < |w| && w[..|p|] == p
  }

  lemma BeginsExactly(p: seq<byte>)
    ensures Begins(p) <==>
            || (|p| == 1 && 0xC2 <= p[0] <= 0xF4)
            || (|p| == 2 && (Lead3(p[0], p[1]) || Lead4(p[0], p[1])))
            || (|p| == 3 && Lead4(p[0], p[1]) && Tail(p[2]))
  {
    if |p| == 1 && 0xC2 <= p[0] <= 0xF4 {
      var b1: byte := if p[0] == 0xE0 then 0xA0 else if p[0] == 0xF0 then 0x90 else 0x80;
      var w := if p[0] <= 0xDF then [p[0], b1] else if p[0] <= 0xEF then [p[0], b1, 0x80] else [p[0], b1, 0x80, 0x80];
      assert IsChar(w) && w[..1] == p;
    } else if |p| == 2 && (Lead3(p[0], p[1]) || Lead4(p[0], p[1])) {
      var w := if Lead3(p[0], p[1]) then p + [0x80] else p + [0x80, 0x80];
      assert IsChar(w) && w[..2] == p;
    } else if |p| == 3 && Lead4(p[0], p[1]) && Tail(p[2]) {
      var w := p + [0x80];
      assert IsChar(w) && w[..3] == p;
    }
    if Begins(p) {
      var w :| IsChar(w) && |p| < |w| && w[..|p|] == p;
      assert forall i | 0 <= i < |p| :: p[i] == w[i];
    }
  }

  /**
   * Length of the maximal subpart at the front of text that starts with no
   * character: its longest beginning that some character also begins with, or one byte.
   */
  ghost function SubpartLen(s: seq<byte>): (n: nat)
    requires s != [] && CharLen(s) == 0
    ensures 1 <= n <= |s|
  {
    if |s| >= 3 && Begins(s[..3]) then 3 else if |s| >= 2 && Begins(s[..2]) then 2 else 1
  }

  lemma SubpartIsMaximal(s: seq<byte>)
    requires s != [] && CharLen(s) == 0
    ensures SubpartLen(s) == 1 || Begins(s[..SubpartLen(s)])
    ensures forall m | SubpartLen(s) < m <= |s| :: !Begins(s[..m])
  {
    forall m | SubpartLen(s) < m <= |s| ensures !Begins(s[..m]) { BeginsExactly(s[..m]); }
  }

  /** The text without its maximal ill-formed subparts. */
  ghost function WithoutIllFormed(s: seq<byte>): seq<byte>
    decreases |s|
  {
    if s == [] then []
    else if CharLen(s) > 0 then s[..CharLen(s)] + WithoutIllFormed(s[CharLen(s)..])
    else WithoutIllFormed(s[SubpartLen(s)..])
  }

  // ---- what `str::from_utf8` reports ------------------------------------------

  /** `Utf8Error::valid_up_to`, or the whole length when the text is well formed. */
  function ValidUpTo(s: seq<byte>): (n: nat)
    ensures n <= |s|
    decreases |s|
  {
    if CharLen(s) == 0 then 0 else CharLen(s) + ValidUpTo(s[CharLen(s)..])
  }

  /** `Utf8Error::error_len`: bytes to skip, or None when the input ends inside a character. */
  function ErrorLen(s: seq<byte>): (r: Option<nat>)
    requires s != [] && CharLen(s) == 0
    ensures r.Some? ==> 1 <= r.value <= |s|
  {
    if 0xC2 <= s[0] <= 0xDF then if |s| < 2 then None else Some(1)
    else if 0xE0 <= s[0] <= 0xEF then
      if |s| < 2 then None
      else if !Lead3(s[0], s[1]) then Some(1)
      else if |s| < 3 then None
      else Some(2)
    else if 0xF0 <= s[0] <= 0xF4 then
      if |s| < 2 then None
      else if !Lead4(s[0], s[1]) then Some(1)
      else if |s| < 3 then None
      else if !Tail(s[2]) then Some(2)
      else if |s| < 4 then None
      else Some(3)
    else Some(1)
  }

  /** A reported error is the maximal subpart; an unreported one is all that is left. */
  lemma ErrorLenIsSubpart(s: seq<byte>)
    requires s != [] && CharLen(s) == 0
    ensures ErrorLen(s).Some? ==> SubpartLen(s) == ErrorLen(s).value
    ensures ErrorLen(s).None? ==> SubpartLen(s) == |s| <= 3 && forall i | 1 <= i < |s| :: Tail(s[i])
  {
    forall m | 1 <= m <= |s| && m <= 3 ensures |s[..m]| == m && forall i | 0 <= i < m :: s[..m][i] == s[i] {}
    if |s| >= 1 { BeginsExactly(s[..1]); }
    if |s| >= 2 { BeginsExactly(s[..2]); }
    if |s| >= 3 { BeginsExactly(s[..3]); }
  }

  lemma CharLenOfPrefix(s: seq<byte>, m: nat)
    requires CharLen(s) <= m <= |s| && CharLen(s) > 0
    ensures CharLen(s[..m]) == CharLen(s)
  {
    assert forall i | 0 <= i < m :: s[..m][i] == s[i];
  }

  lemma {:induction false} ValidUpToIsLongest(s: seq<byte>)
    ensures Valid(s[..ValidUpTo(s)])
    ensures Valid(s) <==> ValidUpTo(s) == |s|
    ensures ValidUpTo(s) < |s| ==> CharLen(s[ValidUpTo(s)..]) == 0
    decreases |s|
  {
    hide CharLen;
    var n := CharLen(s);
    if n == 0 {
      assert s[0..] == s;
    } else {
      var rest := s[n..];
      ValidUpToIsLongest(rest);
      var v := ValidUpTo(rest);
      assert ValidUpTo(s) == n + v;
      assert s[n + v..] == rest[v..];
      var whole := s[..n + v];
      CharLenOfPrefix(s, n + v);
      assert whole[n..] == rest[..v];
    }
  }

  // ---- the decoder of text.rs ---------------------------------------------------

  lemma {:induction false} TailsVanish(s: seq<byte>)
    requires forall i | 0 <= i < |s| :: Tail(s[i])
    ensures WithoutIllFormed(s) == []
    decreases |s|
  {
    if s != [] {
      TailsVanish(s[SubpartLen(s)..]);
    }
  }

  lemma StepOverChar(s: seq<byte>, head: seq<byte>, rest: seq<byte>)
    requires s == head + rest && CharLen(s) == |head| > 0
    ensures WithoutIllFormed(s) == head + WithoutIllFormed(rest)
  {
    assert s[..|head|] == head && s[|head|..] == rest;
  }

  /** Well-formed text in front passes through unchanged. */
  lemma {:induction false} WellFormedPassesThrough(a: seq<byte>, b: seq<byte>)
    requires Valid(a)
    ensures WithoutIllFormed(a + b) == a + WithoutIllFormed(b)
    decreases |a|
  {
    if a == [] {
      assert a + b == b;
    } else {
      var n := CharLen(a);
      var head, rest := a[..n], a[n..];
      assert a == head + rest;
      CharLenExtends(a, b);
      Assoc(head, rest, b);
      StepOverChar(a + b, head, rest + b);
      WellFormedPassesThrough(rest, b);
      Assoc(head, rest, WithoutIllFormed(b));
    }
  }

  lemma ValidPrefixPassesThrough(s: seq<byte>)
    ensures var v := ValidUpTo(s);
            && WithoutIllFormed(s) == s[..v] + WithoutIllFormed(s[v..])
            && (v == |s| ==> WithoutIllFormed(s) == s)
            && (v < |s| ==> CharLen(s[v..]) == 0)
  {
    hide *;
    var v := ValidUpTo(s);
    ValidUpToIsLongest(s);
    WellFormedPassesThrough(s[..v], s[v..]);
    NothingDecodesToNothing();
    assert s == s[..v] + s[v..];
    assert v == |s| ==> s[..v] == s && s[v..] == [] && s + [] == s;
  }

  /** How far past the valid prefix the next round starts. */
  function Skip(s: seq<byte>): (n: nat)
    requires s != [] && CharLen(s) == 0
    ensures 1 <= n <= |s|
  {
    match ErrorLen(s) { case Some(n) => n case None => 1 }
  }

  /** Skipping the reported length, or one byte of a truncated tail, loses nothing that is kept. */
  lemma SkipDropsSubpart(s: seq<byte>)
    requires s != [] && CharLen(s) == 0
    ensures WithoutIllFormed(s[Skip(s)..]) == WithoutIllFormed(s)
  {
    ErrorLenIsSubpart(s);
    if ErrorLen(s).None? {
      TailsVanish(s[1..]);
    }
  }

  lemma DecodeRound(decoded: seq<byte>, s: seq<byte>, v: nat)
    requires v == ValidUpTo(s) < |s| && CharLen(s[v..]) == 0
    ensures 1 <= Skip(s[v..]) <= |s| - v
    ensures decoded + WithoutIllFormed(s) ==
            (decoded + s[..v]) + WithoutIllFormed(s[v + Skip(s[v..])..])
  {
    hide *;
    ValidPrefixPassesThrough(s);
    SkipDropsSubpart(s[v..]);
    assert s[v..][Skip(s[v..])..] == s[v + Skip(s[v..])..];
    Assoc(decoded, s[..v], WithoutIllFormed(s[v..]));
  }

  lemma NothingDecodesToNothing()
    ensures WithoutIllFormed([]) == []
  {
  }

  method DecodeIgnoringErrors(bytes: seq<byte>) returns (decoded: seq<byte>)
    ensures decoded == WithoutIllFormed(bytes)
  {
    hide *;
    decoded := [];
    var remaining := bytes;
    while remaining != []
      invariant decoded + WithoutIllFormed(remaining) == WithoutIllFormed(bytes)
      decreases |remaining|
    {
      var validUpTo := ValidUpTo(remaining);
      ValidPrefixPassesThrough(remaining);
      if validUpTo == |remaining| {
        return decoded + remaining;
      }
      DecodeRound(decoded, remaining, validUpTo);
      var next := validUpTo + Skip(remaining[validUpTo..]);
      if validUpTo > 0 {
        decoded := decoded + remaining[..validUpTo];
      }
      remaining := remaining[if next <= |remaining| then next else |remaining|..];
    }
    assert WithoutIllFormed([]) == [] by { NothingDecodesToNothing(); }
  }

  lemma {:induction false} DecodedIsWellFormed(s: seq<byte>)
    ensures Valid(WithoutIllFormed(s))
    decreases |s|
  {
    if s != [] {
      var n := CharLen(s);
      if n > 0 {
        DecodedIsWellFormed(s[n..]);
        assert IsChar(s[..n]) && s[..n][n..] == [];
        ValidConcat(s[..n], WithoutIllFormed(s[n..]));
      } else {
        DecodedIsWellFormed(s[SubpartLen(s)..]);
      }
    }
  }

  /** The decoder changes exactly the ill-formed texts, and a second pass changes nothing. */
  lemma DecoderFixesExactlyTheIllFormed(s: seq<byte>)
    ensures WithoutIllFormed(s) == s <==> Valid(s)
    ensures WithoutIllFormed(WithoutIllFormed(s)) == WithoutIllFormed(s)
  {
    DecodedIsWellFormed(s);
    if Valid(s) {
      WellFormedPassesThrough(s, []);
      assert s + [] == s;
    }
    var d := WithoutIllFormed(s);
    WellFormedPassesThrough(d, []);
    assert d + [] == d;
  }

  // ---- decoding to characters -----------------------------------------------------

  function Append6(high: int, tail: byte): int { high * 64 + (tail as int - 0x80) }

  function Scalar(w: seq<byte>): char
    requires IsChar(w)
  {
    var lead: int := w[0];
    if |w| == 1 then lead as char
    else if |w| == 2 then Append6(lead - 0xC0, w[1]) as char
    else if |w| == 3 then Append6(Append6(lead - 0xE0, w[1]), w[2]) as char
    else Append6(Append6(Append6(lead - 0xF0, w[1]), w[2]), w[3]) as char
  }

  /** `String::from_utf8_lossy`: U+FFFD for every maximal ill-formed subpart. */
  function Decode(s: seq<byte>): string
    decreases |s|
  {
    if s == [] then ""
    else if CharLen(s) > 0 then [Scalar(s[..CharLen(s)])] + Decode(s[CharLen(s)..])
    else
      var skip := match ErrorLen(s) { case Some(n) => n case None => |s| };
      ['\U{FFFD}'] + Decode(s[skip..])
  }

  lemma {:induction false} DecodeConcat(a: seq<byte>, b: seq<byte>)
    requires Valid(a)
    ensures Decode(a + b) == Decode(a) + Decode(b)
    decreases |a|
  {
    if a == [] {
      assert a + b == b;
    } else {
      var n := CharLen(a);
      CharLenExtends(a, b);
      assert (a + b)[n..] == a[n..] + b;
      assert (a + b)[..n] == a[..n];
      DecodeConcat(a[n..], b);
    }
  }

  /** Every maximal ill-formed subpart becomes one replacement character. */
  lemma EachSubpartIsReplaced(s: seq<byte>)
    requires s != [] && CharLen(s) == 0
    ensures Decode(s) == ['\U{FFFD}'] + Decode(s[SubpartLen(s)..])
  {
    ErrorLenIsSubpart(s);
  }

  // ---- encoding ---------------------------------------------------------------------

  function Six(n: nat): byte { 0x80 + n % 64 }

  function Above(n: nat): nat { n / 64 }

  /** The bytes of a character, by the table in section 3 of RFC 3629. */
  function EncodeChar(c: char): seq<byte> {
    var n := c as nat;
    if n < 0x80 then [n]
    else if n < 0x800 then [0xC0 + Above(n), Six(n)]
    else if n < 0x1_0000 then [0xE0 + Above(Above(n)), Six(Above(n)), Six(n)]
    else [0xF0 + Above(Above(Above(n))), Six(Above(Above(n))), Six(Above(n)), Six(n)]
  }

  function Encode(t: string): seq<byte> {
    if t == "" then [] else EncodeChar(t[0]) + Encode(t[1..])
  }

  /** The grammar's characters are exactly the encodings of characters, one each. */
  lemma CharIsEncoding(c: char, w: seq<byte>)
    ensures IsChar(EncodeChar(c)) && Scalar(EncodeChar(c)) == c
    ensures IsChar(w) ==> EncodeChar(Scalar(w)) == w
  {
    EncodedChar(c);
    if IsChar(w) { CharOfScalar(w); }
  }

  lemma EncodedChar(c: char)
    ensures IsChar(EncodeChar(c)) && Scalar(EncodeChar(c)) == c
  {
    var n := c as nat;
    EncodedIsChar(c);
    hide IsChar;
    Appended(n);
    Appended(n / 64);
    Appended(n / 64 / 64);
    hide Append6, Six;
  }

  lemma Appended(n: nat)
    ensures Append6(n / 64, Six(n)) == n && Tail(Six(n))
  {
  }

  lemma EncodedIsChar(c: char)
    ensures IsChar(EncodeChar(c))
  {
    var n := c as nat;
    var n1, n2 := n / 64, n / 64 / 64;
    Appended(n);
    Appended(n1);
    Appended(n2);
    LeadsAreLegal(n2, n1 % 64, n2 / 64, n2 % 64);
    assert n == n1 * 64 + n % 64 && n1 == n2 * 64 + n1 % 64 && n2 == n2 / 64 * 64 + n2 % 64;
    hide Append6, Lead3, Lead4, Tail;
  }

  /** `high` and `low` are a three-byte character's first ten bits, `top` and `next` a four-byte one's first nine. */
  lemma LeadsAreLegal(high: nat, low: nat, top: nat, next: nat)
    requires low < 64 && next < 64
    ensures high < 16 && 0x20 <= high * 64 + low && !(0x360 <= high * 64 + low < 0x380) ==> Lead3(0xE0 + high, 0x80 + low)
    ensures 0x10 <= top * 64 + next < 0x110 ==> Lead4(0xF0 + top, 0x80 + next)
  {
  }

  lemma CharOfScalar(w: seq<byte>)
    requires IsChar(w)
    ensures EncodeChar(Scalar(w)) == w
  {
    if |w| == 2 { TwoBytes(w); }
    if |w| == 3 { ThreeBytes(w); }
    if |w| == 4 { FourBytes(w); }
  }

  lemma Unappended(high: nat, tail: byte)
    requires Tail(tail)
    ensures var n := Append6(high, tail); n >= 0 && Above(n) == high && Six(n) == tail
  {
  }

  lemma TwoBytes(w: seq<byte>)
    requires IsChar(w) && |w| == 2
    ensures EncodeChar(Scalar(w)) == w
  {
    Unappended(w[0] - 0xC0, w[1]);
  }

  lemma ThreeBytes(w: seq<byte>)
    requires IsChar(w) && |w| == 3
    ensures EncodeChar(Scalar(w)) == w
  {
    ThreeByteRange(w);
    EncodedThree(Scalar(w), w[0] - 0xE0, w[1], w[2]);
    hide EncodeChar;
  }

  lemma EncodedThree(c: char, high: nat, t1: byte, t2: byte)
    requires Tail(t1) && Tail(t2) && high < 16
    requires 0x800 <= c as int == Append6(Append6(high, t1), t2) < 0x1_0000
    ensures EncodeChar(c) == [0xE0 + high, t1, t2]
  {
    hide Six, Above, Append6, Tail;
    Unappended(high, t1);
    Unappended(Append6(high, t1), t2);
  }

  lemma ThreeByteRange(w: seq<byte>)
    requires IsChar(w) && |w| == 3
    ensures w[0] >= 0xE0 && Tail(w[1]) && Tail(w[2])
    ensures 0x800 <= Append6(Append6(w[0] - 0xE0, w[1]), w[2]) < 0x1_0000
  {
  }

  lemma FourBytes(w: seq<byte>)
    requires IsChar(w) && |w| == 4
    ensures EncodeChar(Scalar(w)) == w
  {
    FourByteRange(w);
    EncodedFour(Scalar(w), w[0] - 0xF0, w[1], w[2], w[3]);
    hide EncodeChar;
  }

  lemma EncodedFour(c: char, high: nat, t1: byte, t2: byte, t3: byte)
    requires Tail(t1) && Tail(t2) && Tail(t3) && high < 16
    requires c as int == Append6(Append6(Append6(high, t1), t2), t3) >= 0x1_0000
    ensures EncodeChar(c) == [0xF0 + high, t1, t2, t3]
  {
    hide Six, Above, Append6, Tail;
    Unappended(high, t1);
    Unappended(Append6(high, t1), t2);
    Unappended(Append6(Append6(high, t1), t2), t3);
  }

  lemma FourByteRange(w: seq<byte>)
    requires IsChar(w) && |w| == 4
    ensures w[0] >= 0xF0 && Tail(w[1]) && Tail(w[2]) && Tail(w[3])
    ensures 0x1_0000 <= Append6(Append6(Append6(w[0] - 0xF0, w[1]), w[2]), w[3])
  {
  }

  /** Encoded text is well formed and decodes back. */
  lemma {:induction false} EncodedDecodes(t: string)
    ensures Valid(Encode(t)) && Decode(Encode(t)) == t
    decreases |t|
  {
    if t != "" {
      var first, rest := EncodeChar(t[0]), Encode(t[1..]);
      EncodedDecodes(t[1..]);
      EncodedChar(t[0]);
      CharLenExtends(first, rest);
      hide EncodeChar, Scalar, CharLen;
      assert (first + rest)[..|first|] == first && (first + rest)[|first|..] == rest;
      assert t == [t[0]] + t[1..];
    }
  }

  /** Well-formed text is exactly the encodings of texts, and no two texts share one. */
  lemma {:induction false} ValidIsEncoded(s: seq<byte>)
    ensures Valid(s) <==> Encode(Decode(s)) == s
    decreases |s|
  {
    hide *;
    if Valid(s) {
      FirstCharacter(s);
      if s != [] {
        var n := CharLen(s);
        ValidIsEncoded(s[n..]);
        CharOfScalar(s[..n]);
        EncodeFirst(Scalar(s[..n]), Decode(s[n..]));
        assert s == s[..n] + s[n..];
      }
    } else {
      EncodedDecodes(Decode(s));
    }
  }

  lemma EncodeFirst(c: char, rest: string)
    ensures Encode([c] + rest) == EncodeChar(c) + Encode(rest) && Encode("") == []
  {
    hide EncodeChar;
    assert ([c] + rest)[1..] == rest;
  }

  lemma FirstCharacter(s: seq<byte>)
    requires Valid(s)
    ensures s == [] ==> Encode(Decode(s)) == s
    ensures var n := CharLen(s);
            s != [] ==> n > 0 && IsChar(s[..n]) && Valid(s[n..]) && Decode(s) == [Scalar(s[..n])] + Decode(s[n..])
  {
    hide Scalar, CharLen, ErrorLen;
    if s != [] {
      CharLenOfPrefix(s, CharLen(s));
    } else {
      assert Decode(s) == "";
    }
  }

  // ---- ASCII literals --------------------------------------------------------------

  predicate IsAscii(t: string) { forall i | 0 <= i < |t| :: t[i] as int < 128 }

  function Ascii(t: string): (s: seq<byte>)
    requires IsAscii(t)
    ensures |s| == |t| && forall i | 0 <= i < |t| :: s[i] == t[i] as int
  {
    seq(|t|, i requires 0 <= i < |t| => t[i] as int)
  }

  lemma {:induction false} AsciiDecodes(t: string)
    requires IsAscii(t)
    ensures Valid(Ascii(t)) && Decode(Ascii(t)) == t
    decreases |t|
  {
    if t != "" {
      AsciiDecodes(t[1..]);
      assert Ascii(t)[1..] == Ascii(t[1..]);
      assert t == [t[0]] + t[1..];
    }
  }

  lemma {:induction false} AsciiIsEncoded(t: string)
    requires IsAscii(t)
    ensures Ascii(t) == Encode(t)
  {
    if t != "" {
      AsciiIsEncoded(t[1..]);
      assert Ascii(t) == [t[0] as int] + Ascii(t[1..]);
    }
  }
}
