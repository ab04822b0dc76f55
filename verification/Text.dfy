/** The `str` operations that the header and identifier code uses. */
module Text {
  import opened Wrappers

  // ---- trimming and case -----------------------------------------------------

  /** Unicode White_Space, what `char::is_whitespace` tests. */
  predicate IsWhitespace(c: char) {
    var n := c as int;
    || 0x09 <= n <= 0x0D || n == 0x20 || n == 0x85 || n == 0xA0 || n == 0x1680
    || 0x2000 <= n <= 0x200A || n == 0x2028 || n == 0x2029 || n == 0x202F
    || n == 0x205F || n == 0x3000
  }

  /** The 25 characters with that property. */
  function Blanks(): string {
    "\t\n\U{0B}\U{0C}\r \U{85}\U{A0}\U{1680}\U{2000}\U{2001}\U{2002}\U{2003}\U{2004}\U{2005}\U{2006}\U{2007}\U{2008}\U{2009}\U{200A}\U{2028}\U{2029}\U{202F}\U{205F}\U{3000}"
  }

  lemma WhitespaceIs(c: char)
    ensures IsWhitespace(c) <==> c in Blanks()
  {
    BlanksAreWhitespace();
    var n, s := c as int, Blanks();
    if 0x09 <= n <= 0x0D { assert s[n - 0x09] == c; }
    if 0x2000 <= n <= 0x200A { assert s[n - 0x2000 + 9] == c; }
    assert s[5] == ' ' && s[6] as int == 0x85 && s[7] as int == 0xA0 && s[8] as int == 0x1680;
    assert s[20] as int == 0x2028 && s[21] as int == 0x2029 && s[22] as int == 0x202F && s[23] as int == 0x205F;
    assert s[24] as int == 0x3000;
  }

  lemma BlanksAreWhitespace()
    ensures |Blanks()| == 25 && forall i | 0 <= i < 25 :: IsWhitespace(Blanks()[i])
  {
  }

  function TrimStart(s: string): (r: string)
    ensures r == "" || !IsWhitespace(r[0])
    ensures |r| <= |s|
  {
    if s != "" && IsWhitespace(s[0]) then TrimStart(s[1..]) else s
  }

  function TrimEnd(s: string): (r: string)
    ensures r == "" || !IsWhitespace(r[|r| - 1])
    ensures r <= s
  {
    if s != "" && IsWhitespace(s[|s| - 1]) then TrimEnd(s[..|s| - 1]) else s
  }

  function Trim(s: string): string { TrimEnd(TrimStart(s)) }

  /** No whitespace at either end. */
  predicate IsTrimmed(s: string) {
    s == "" || (!IsWhitespace(s[0]) && !IsWhitespace(s[|s| - 1]))
  }

  lemma TrimTrims(s: string)
    ensures IsTrimmed(Trim(s))
    ensures IsTrimmed(s) ==> Trim(s) == s
  {
  }

  function LowerChar(c: char): char {
    if 'A' <= c <= 'Z' then (c as int + 32) as char else c
  }

  function Capitals(): string { "ABCDEFGHIJKLMNOPQRSTUVWXYZ" }

  function Smalls(): string { "abcdefghijklmnopqrstuvwxyz" }

  lemma LettersAre()
    ensures |Capitals()| == 26 && forall i | 0 <= i < 26 :: Capitals()[i] as int == 'A' as int + i
    ensures |Smalls()| == 26 && forall i | 0 <= i < 26 :: Smalls()[i] as int == 'a' as int + i
  {
  }

  /** Each capital letter becomes the small one, and nothing else changes. */
  lemma LowerCharIs(c: char)
    ensures |Capitals()| == |Smalls()| && forall i | 0 <= i < |Capitals()| && c == Capitals()[i] :: LowerChar(c) == Smalls()[i]
    ensures c !in Capitals() ==> LowerChar(c) == c
  {
    LettersAre();
    hide Capitals, Smalls;
    if 'A' <= c <= 'Z' {
      assert Capitals()[c as int - 'A' as int] == c;
    }
  }

  /** `to_ascii_lowercase`. */
  function Lower(s: string): (r: string)
    ensures |r| == |s| && forall i | 0 <= i < |s| :: r[i] == LowerChar(s[i])
  {
    seq(|s|, i requires 0 <= i < |s| => LowerChar(s[i]))
  }

  ghost predicate Blank(s: string) { forall i | 0 <= i < |s| :: IsWhitespace(s[i]) }

  lemma {:induction false} TrimStartIs(s: string)
    ensures exists front :: Blank(front) && s == front + TrimStart(s)
  {
    hide *;
    TrimOne(s);
    if s != "" && IsWhitespace(s[0]) {
      TrimStartIs(s[1..]);
      var front :| Blank(front) && s[1..] == front + TrimStart(s[1..]);
      BlankGrows(front, s[0]);
      assert s == [s[0]] + s[1..];
      Assoc([s[0]], front, TrimStart(s));
    } else {
      BlankGrows("", ' ');
      assert s == "" + TrimStart(s);
    }
  }

  lemma TrimOne(s: string)
    ensures TrimStart(s) == if s != "" && IsWhitespace(s[0]) then TrimStart(s[1..]) else s
    ensures TrimEnd(s) == if s != "" && IsWhitespace(s[|s| - 1]) then TrimEnd(s[..|s| - 1]) else s
  {
  }

  lemma BlankGrows(blank: string, c: char)
    ensures Blank("")
    ensures Blank(blank) && IsWhitespace(c) ==> Blank([c] + blank) && Blank(blank + [c])
  {
  }

  lemma {:induction false} TrimEndIs(s: string)
    ensures exists back :: Blank(back) && s == TrimEnd(s) + back
  {
    hide *;
    TrimOne(s);
    if s != "" && IsWhitespace(s[|s| - 1]) {
      var init, last := s[..|s| - 1], s[|s| - 1];
      TrimEndIs(init);
      var back :| Blank(back) && init == TrimEnd(init) + back;
      BlankGrows(back, last);
      assert s == init + [last];
      Assoc(TrimEnd(s), back, [last]);
    } else {
      BlankGrows("", ' ');
      assert s == TrimEnd(s) + "";
    }
  }

  /** Trimming takes whitespace off both ends and nothing else. */
  lemma TrimIs(s: string)
    ensures IsTrimmed(Trim(s))
    ensures exists front, back :: Blank(front) && Blank(back) && s == front + Trim(s) + back
  {
    TrimTrims(s);
    TrimStartIs(s);
    TrimEndIs(TrimStart(s));
    var front :| Blank(front) && s == front + TrimStart(s);
    var back :| Blank(back) && TrimStart(s) == TrimEnd(TrimStart(s)) + back;
    Assoc(front, Trim(s), back);
  }

  lemma TrimSpace(s: string)
    requires IsTrimmed(s)
    ensures Trim(" " + s) == s
  {
    assert (" " + s)[1..] == s;
    assert TrimStart(" " + s) == TrimStart(s) == s;
    TrimTrims(s);
  }

  predicate EqIgnoreAsciiCase(a: string, b: string) { Lower(a) == Lower(b) }

  // ---- splitting ---------------------------------------------------------------

  /** Position of the first `c` at or after `from`, or the length. */
  function IndexOf(s: string, c: char, from: nat): (i: nat)
    requires from <= |s|
    ensures from <= i <= |s| && (i < |s| ==> s[i] == c)
    ensures forall k | from <= k < i :: s[k] != c
    decreases |s| - from
  {
    if from == |s| || s[from] == c then from else IndexOf(s, c, from + 1)
  }

  lemma IndexOfIs(s: string, c: char, from: nat, at: nat)
    requires from <= at <= |s| && (at < |s| ==> s[at] == c)
    requires forall k | from <= k < at :: s[k] != c
    ensures IndexOf(s, c, from) == at
  {
  }

  function SplitOnce(s: string, sep: char): Option<(string, string)> {
    var i := IndexOf(s, sep, 0);
    if i == |s| then None else Some((s[..i], s[i + 1..]))
  }

  /** What is split at the first separator joins back, and nothing before it contains another. */
  lemma SplitOnceIs(s: string, sep: char, left: string, right: string)
    ensures SplitOnce(s, sep) == Some((left, right)) <==> s == left + ([sep] + right) && sep !in left
  {
    var i := IndexOf(s, sep, 0);
    if i < |s| {
      assert s == s[..i] + ([sep] + s[i + 1..]);
      assert sep !in s[..i];
    }
    if s == left + ([sep] + right) && sep !in left {
      IndexOfIs(s, sep, 0, |left|);
      assert s[..|left|] == left && s[|left| + 1..] == right;
    }
  }

  lemma NothingToSplit(s: string, sep: char)
    ensures SplitOnce(s, sep) == None <==> sep !in s
  {
    if sep !in s {
      IndexOfIs(s, sep, 0, |s|);
    }
  }

  function JoinWith(parts: seq<string>, sep: char): string
    requires parts != []
  {
    if |parts| == 1 then parts[0] else parts[0] + ([sep] + JoinWith(parts[1..], sep))
  }

  ghost predicate AreParts(parts: seq<string>, sep: char) {
    parts != [] && forall i | 0 <= i < |parts| :: sep !in parts[i]
  }

  lemma SplitStep(first: string, rest: string, sep: char)
    requires sep !in first
    ensures Split(first + ([sep] + rest), sep) == [first] + Split(rest, sep)
    ensures Split(first, sep) == [first]
  {
    var s := first + ([sep] + rest);
    IndexOfIs(s, sep, 0, |first|);
    IndexOfIs(first, sep, 0, |first|);
    assert s[..|first|] == first && s[|first| + 1..] == rest;
    hide IndexOf;
  }

  /** Splitting is the inverse of joining: it gives the only parts that join to the text. */
  lemma {:induction false} SplitOfJoin(parts: seq<string>, sep: char)
    requires AreParts(parts, sep)
    ensures Split(JoinWith(parts, sep), sep) == parts
    decreases |parts|
  {
    hide Split;
    SplitStep(parts[0], if |parts| == 1 then "" else JoinWith(parts[1..], sep), sep);
    if |parts| > 1 {
      SplitOfJoin(parts[1..], sep);
    }
  }

  lemma {:induction false} JoinOfSplit(s: string, sep: char)
    ensures AreParts(Split(s, sep), sep) && JoinWith(Split(s, sep), sep) == s
    decreases |s|
  {
    var i := IndexOf(s, sep, 0);
    if i < |s| {
      JoinOfSplit(s[i + 1..], sep);
      assert Split(s, sep)[1..] == Split(s[i + 1..], sep);
      assert s == s[..i] + ([sep] + s[i + 1..]);
    }
  }

  function Split(s: string, sep: char): seq<string>
    decreases |s|
  {
    var i := IndexOf(s, sep, 0);
    if i == |s| then [s] else [s[..i]] + Split(s[i + 1..], sep)
  }

  /** `str::lines`: split after each LF, dropping a CR in front of it; nothing after a final LF. */
  function Lines(s: string): seq<string>
    decreases |s|
  {
    if s == "" then []
    else
      var i := IndexOf(s, '\n', 0);
      if i == |s| then [s]
      else [WithoutReturn(s[..i])] + Lines(s[i + 1..])
  }

  function WithoutReturn(line: string): string {
    if line != "" && line[|line| - 1] == '\r' then line[..|line| - 1] else line
  }

  /** A line ends at the first LF; one CR in front of it is dropped. */
  lemma LinesAre(first: string, rest: string)
    requires '\n' !in first
    ensures first == "" || first[|first| - 1] != '\r' ==> Lines(first + ("\n" + rest)) == [first] + Lines(rest)
    ensures Lines(first + ("\r\n" + rest)) == [first] + Lines(rest)
    ensures Lines(first) == if first == "" then [] else [first]
  {
    hide Lines;
    LineStep(first, rest);
    LineStep(first + "\r", rest);
    assert (first + "\r")[..|first|] == first;
    Assoc(first, "\r", "\n" + rest);
    assert "\r" + ("\n" + rest) == "\r\n" + rest;
    LastLine(first);
  }

  lemma LastLine(last: string)
    requires '\n' !in last
    ensures Lines(last) == if last == "" then [] else [last]
  {
    IndexOfIs(last, '\n', 0, |last|);
  }

  lemma LineStep(first: string, rest: string)
    requires '\n' !in first
    ensures Lines(first + ("\n" + rest)) == [WithoutReturn(first)] + Lines(rest)
  {
    var s := first + ("\n" + rest);
    IndexOfIs(s, '\n', 0, |first|);
    assert s[..|first|] == first && s[|first| + 1..] == rest;
    hide IndexOf;
  }

  /** `split_whitespace`: the maximal runs without whitespace. */
  function Words(s: string): seq<string>
    decreases |s|
  {
    var t := TrimStart(s);
    if t == "" then []
    else
      var w := WordLen(t);
      [t[..w]] + Words(t[w..])
  }

  function WordLen(s: string): (n: nat)
    ensures n <= |s|
    ensures s != "" && !IsWhitespace(s[0]) ==> n > 0
  {
    if s == "" || IsWhitespace(s[0]) then 0 else 1 + WordLen(s[1..])
  }

  /** Words are what stands between whitespace. */
  lemma WordsAre(blank: string, word: string, rest: string)
    requires Blank(blank) && (rest == "" || IsWhitespace(rest[0]))
    requires word != "" && forall i | 0 <= i < |word| :: !IsWhitespace(word[i])
    ensures Words(blank) == []
    ensures Words(blank + (word + rest)) == [word] + Words(rest)
  {
    TrimStartSkips(blank, word + rest);
    TrimStartSkips(blank, "");
    assert blank + "" == blank;
    WordLenIs(word, rest);
    assert (word + rest)[..|word|] == word && (word + rest)[|word|..] == rest;
    hide TrimStart, WordLen;
  }

  lemma {:induction false} TrimStartSkips(blank: string, s: string)
    requires Blank(blank) && (s == "" || !IsWhitespace(s[0]))
    ensures TrimStart(blank + s) == s
  {
    if blank == "" {
      assert blank + s == s;
    } else {
      assert (blank + s)[1..] == blank[1..] + s;
      TrimStartSkips(blank[1..], s);
    }
  }

  /** A space ends a word. */
  lemma WordThenSpace(word: string, rest: string)
    requires word != "" && forall i | 0 <= i < |word| :: !IsWhitespace(word[i])
    ensures Words(word + (" " + rest)) == [word] + Words(rest)
  {
    WordsAre("", word, " " + rest);
    assert "" + (word + (" " + rest)) == word + (" " + rest);
    assert (" " + rest)[1..] == rest && TrimStart(" " + rest) == TrimStart(rest);
  }

  lemma {:induction false} WordLenIs(word: string, rest: string)
    requires (forall i | 0 <= i < |word| :: !IsWhitespace(word[i])) && (rest == "" || IsWhitespace(rest[0]))
    ensures WordLen(word + rest) == |word|
  {
    if word != "" {
      assert (word + rest)[1..] == word[1..] + rest;
      WordLenIs(word[1..], rest);
    }
  }

  // ---- unsigned numbers -----------------------------------------------------------

  predicate Radix(r: nat) { r == 10 || r == 16 }

  function DigitValue(c: char, radix: nat): Option<nat>
    requires Radix(radix)
  {
    if '0' <= c <= '9' then Some(c as int - '0' as int)
    else if radix == 16 && 'a' <= c <= 'f' then Some(c as int - 'a' as int + 10)
    else if radix == 16 && 'A' <= c <= 'F' then Some(c as int - 'A' as int + 10)
    else None
  }

  /** The digits of both cases, and no others. */
  lemma DigitsAre(c: char, d: nat)
    ensures DigitValue(c, 16) == Some(d) <==> d < 16 && (c == "0123456789abcdef"[d] || c == "0123456789ABCDEF"[d])
    ensures DigitValue(c, 10) == Some(d) <==> d < 10 && c == "0123456789"[d]
  {
  }

  /** The number that digits spell; none for an empty text or a foreign character. */
  function DigitsValue(s: string, radix: nat): Option<nat>
    requires Radix(radix)
  {
    if s == "" then None
    else
      var last := DigitValue(s[|s| - 1], radix);
      if last.None? then None
      else if |s| == 1 then last
      else match DigitsValue(s[..|s| - 1], radix) {
        case None => None
        case Some(high) => Some(high * radix + last.value)
      }
  }

  /** `from_str_radix` and `parse`: an optional plus sign, then digits worth at most `max`. */
  function ParseUint(s: string, radix: nat, max: nat): (r: Option<nat>)
    requires Radix(radix)
    ensures r.Some? ==> r.value <= max
  {
    match DigitsValue(if s != "" && s[0] == '+' then s[1..] else s, radix) {
      case Some(n) => if n <= max then Some(n) else None
      case None => None
    }
  }

  function DigitChar(d: nat): char
    requires d < 16
  {
    if d < 10 then ('0' as int + d) as char else ('a' as int + d - 10) as char
  }

  /** `{}` and `{:x}`. */
  function FormatUint(n: nat, radix: nat): (s: string)
    requires Radix(radix)
    ensures s != "" && forall i | 0 <= i < |s| :: DigitValue(s[i], radix).Some?
  {
    if n < radix then [DigitChar(n)] else FormatUint(n / radix, radix) + [DigitChar(n % radix)]
  }

  lemma {:induction false} FormattedDigitsValue(n: nat, radix: nat)
    requires Radix(radix)
    ensures DigitsValue(FormatUint(n, radix), radix) == Some(n)
    decreases n
  {
    var s := FormatUint(n, radix);
    if n >= radix {
      FormattedDigitsValue(n / radix, radix);
      assert s[..|s| - 1] == FormatUint(n / radix, radix);
      if radix == 10 {
        assert n / 10 * 10 + n % 10 == n;
      } else {
        assert n / 16 * 16 + n % 16 == n;
      }
    }
  }

  /** Reading a formatted number gives it back when it fits. */
  lemma ParseFormatted(n: nat, radix: nat, max: nat)
    requires Radix(radix) && n <= max
    ensures ParseUint(FormatUint(n, radix), radix, max) == Some(n)
  {
    FormattedDigitsValue(n, radix);
  }

  // ---- every spelling of a number --------------------------------------------------

  function Zeros(k: nat): (s: string)
    ensures |s| == k && forall i | 0 <= i < k :: s[i] == '0'
  {
    seq(k, _ => '0')
  }

  lemma {:induction false} CaseDoesNotMatter(s: string, radix: nat)
    requires Radix(radix)
    ensures DigitsValue(Lower(s), radix) == DigitsValue(s, radix)
  {
    if s != "" {
      CaseDoesNotMatter(s[..|s| - 1], radix);
      assert Lower(s)[..|s| - 1] == Lower(s[..|s| - 1]);
    }
  }

  lemma {:induction false} LeadingZeros(k: nat, s: string, radix: nat)
    requires Radix(radix) && s != ""
    ensures DigitsValue(Zeros(k) + s, radix) == DigitsValue(s, radix)
    decreases |s|
  {
    var long := Zeros(k) + s;
    var init := s[..|s| - 1];
    assert long[..|long| - 1] == Zeros(k) + init;
    if |s| > 1 {
      LeadingZeros(k, init, radix);
    } else {
      assert Zeros(k) + init == Zeros(k);
      OnlyZeros(k, radix);
    }
  }

  lemma {:induction false} OnlyZeros(k: nat, radix: nat)
    requires Radix(radix)
    ensures DigitsValue(Zeros(k), radix) == if k == 0 then None else Some(0)
  {
    if k > 0 {
      OnlyZeros(k - 1, radix);
      assert Zeros(k)[..k - 1] == Zeros(k - 1);
    }
  }

  /** Whether `s` spells `n`: its digits in either case, after any number of zeros. */
  ghost predicate Spells(s: string, n: nat, radix: nat)
    requires Radix(radix)
  {
    exists k: nat :: Lower(s) == Zeros(k) + FormatUint(n, radix)
  }

  lemma LowerDigit(c: char, radix: nat)
    requires Radix(radix) && DigitValue(c, radix).Some?
    ensures DigitValue(c, radix).value < radix && LowerChar(c) == DigitChar(DigitValue(c, radix).value)
  {
  }

  lemma {:induction false} DigitsAreSpelled(s: string, radix: nat)
    requires Radix(radix) && DigitsValue(s, radix).Some?
    ensures Spells(s, DigitsValue(s, radix).value, radix)
    decreases |s|
  {
    hide FormatUint;
    var init, c := s[..|s| - 1], s[|s| - 1];
    var d := DigitValue(c, radix).value;
    LowerDigit(c, radix);
    assert s == init + [c];
    if |s| == 1 {
      OneMoreDigit(0, d, radix);
      assert Lower(s) == Zeros(0) + FormatUint(d, radix);
    } else {
      DigitsAreSpelled(init, radix);
      SpellingGrows(init, DigitsValue(init, radix).value, c, d, radix);
    }
  }

  lemma SpellingGrows(init: string, high: nat, c: char, d: nat, radix: nat)
    requires Radix(radix) && Spells(init, high, radix) && d < radix && LowerChar(c) == DigitChar(d)
    ensures Spells(init + [c], high * radix + d, radix)
  {
    var k: nat :| Lower(init) == Zeros(k) + FormatUint(high, radix);
    OneMoreDigit(0, d, radix);
    OneMoreDigit(high, d, radix);
    ZeroIsOneDigit(radix);
    hide FormatUint, DigitChar, LowerChar;
    assert Lower(init + [c]) == Lower(init) + [DigitChar(d)];
    if high == 0 {
      assert Zeros(k) + "0" == Zeros(k + 1);
      assert Lower(init + [c]) == Zeros(k + 1) + FormatUint(d, radix);
    } else {
      Assoc(Zeros(k), FormatUint(high, radix), [DigitChar(d)]);
    }
  }

  lemma ZeroIsOneDigit(radix: nat)
    requires Radix(radix)
    ensures FormatUint(0, radix) == "0"
  {
  }

  lemma OneMoreDigit(high: nat, d: nat, radix: nat)
    requires Radix(radix) && d < radix
    ensures FormatUint(d, radix) == [DigitChar(d)]
    ensures high > 0 ==> FormatUint(high * radix + d, radix) == FormatUint(high, radix) + [DigitChar(d)]
  {
    hide DigitChar, DigitValue;
    DivideBack(high, d, radix);
  }

  lemma DivideBack(high: nat, d: nat, radix: nat)
    requires Radix(radix) && d < radix
    ensures (high * radix + d) / radix == high && (high * radix + d) % radix == d
    ensures high > 0 ==> high * radix + d >= radix
  {
    if radix == 10 {
      assert (high * 10 + d) / 10 == high;
    } else {
      assert (high * 16 + d) / 16 == high;
    }
  }

  /** A text parses as `n` exactly when it spells `n`, with or without a plus sign. */
  lemma ParsesExactly(s: string, n: nat, radix: nat, max: nat)
    requires Radix(radix)
    ensures ParseUint(s, radix, max) == Some(n) <==>
            n <= max && (Spells(s, n, radix) || (s != "" && s[0] == '+' && Spells(s[1..], n, radix)))
  {
    var digits := if s != "" && s[0] == '+' then s[1..] else s;
    DigitsExactly(digits, n, radix);
    if s != "" && s[0] == '+' {
      DigitsExactly(s, n, radix);
      SignIsNoDigit(s, radix);
    }
  }

  lemma DigitsExactly(s: string, n: nat, radix: nat)
    requires Radix(radix)
    ensures DigitsValue(s, radix) == Some(n) <==> Spells(s, n, radix)
  {
    hide DigitsValue;
    if DigitsValue(s, radix) == Some(n) {
      DigitsAreSpelled(s, radix);
    }
    if Spells(s, n, radix) {
      var k: nat :| Lower(s) == Zeros(k) + FormatUint(n, radix);
      CaseDoesNotMatter(s, radix);
      LeadingZeros(k, FormatUint(n, radix), radix);
      FormattedDigitsValue(n, radix);
    }
  }

  lemma {:induction false} SignIsNoDigit(s: string, radix: nat)
    requires Radix(radix) && s != "" && s[0] == '+'
    ensures DigitsValue(s, radix) == None
    decreases |s|
  {
    if |s| > 1 {
      SignIsNoDigit(s[..|s| - 1], radix);
    }
  }
}
