/** Bytes, big-endian integers, and searching for a byte pattern. */
module Bytes {
  import opened Wrappers

  type byte = b: int | 0 <= b < 256

  // ---- big-endian integers -------------------------------------------------

  function Pow256(width: nat): (p: nat)
    ensures p >= 1
  {
    if width == 0 then 1 else 256 * Pow256(width - 1)
  }

  /** The low `width` bytes of `n`, most significant first (`to_be_bytes`). */
  function ToBigEndian(n: nat, width: nat): (r: seq<byte>)
    ensures |r| == width
  {
    if width == 0 then [] else ToBigEndian(n / 256, width - 1) + [n % 256]
  }

  /** The unsigned integer that bytes spell, most significant first (`from_be_bytes`). */
  function FromBigEndian(s: seq<byte>): (n: nat)
    ensures n < Pow256(|s|)
  {
    if s == [] then 0 else 256 * FromBigEndian(s[..|s| - 1]) + s[|s| - 1]
  }

  lemma {:induction false} BigEndianRoundTrip(n: nat, width: nat)
    requires n < Pow256(width)
    ensures FromBigEndian(ToBigEndian(n, width)) == n
  {
    if width > 0 {
      BigEndianRoundTrip(n / 256, width - 1);
      assert ToBigEndian(n, width)[..width - 1] == ToBigEndian(n / 256, width - 1);
    }
  }

  lemma {:induction false} BigEndianUnique(s: seq<byte>)
    ensures ToBigEndian(FromBigEndian(s), |s|) == s
  {
    if s != [] {
      var high, low := s[..|s| - 1], s[|s| - 1];
      BigEndianUnique(high);
      assert s == high + [low];
      var n := FromBigEndian(high);
      assert (256 * n + low) / 256 == n && (256 * n + low) % 256 == low;
      hide FromBigEndian;
    }
  }

  /** The first byte counts most. */
  lemma {:induction false} MostSignificantFirst(first: byte, rest: seq<byte>)
    ensures FromBigEndian([first] + rest) == first * Pow256(|rest|) + FromBigEndian(rest)
  {
    var s := [first] + rest;
    if rest == [] {
      assert s[..0] == [];
    } else {
      var init := rest[..|rest| - 1];
      MostSignificantFirst(first, init);
      assert s[..|s| - 1] == [first] + init;
      assert 256 * (first * Pow256(|init|)) == first * Pow256(|rest|);
    }
  }

  lemma Pow256Values()
    ensures Pow256(1) == 0x100
    ensures Pow256(2) == 0x1_0000
    ensures Pow256(4) == 0x1_0000_0000
    ensures Pow256(8) == 0x1_0000_0000_0000_0000
  {
    assert Pow256(3) == 0x100_0000;
    assert Pow256(4) == 0x1_0000_0000;
    assert Pow256(5) == 0x100_0000_0000;
    assert Pow256(6) == 0x1_0000_0000_0000;
    assert Pow256(7) == 0x100_0000_0000_0000;
  }

  // ---- searching -----------------------------------------------------------

  /** Whether `pattern` stands in `s` at `at`. */
  predicate OccursAt(s: seq<byte>, pattern: seq<byte>, at: nat) {
    at + |pattern| <= |s| && s[at..at + |pattern|] == pattern
  }

  /** Position of the first occurrence at or after `from` (`windows(n).position(..)`). */
  function Find(s: seq<byte>, pattern: seq<byte>, from: nat): (r: Option<nat>)
    ensures r.Some? ==> from <= r.value && OccursAt(s, pattern, r.value)
    ensures r.Some? ==> forall i | from <= i < r.value :: !OccursAt(s, pattern, i)
    ensures r.None? ==> forall i | from <= i :: !OccursAt(s, pattern, i)
    decreases |s| - from
  {
    if from + |pattern| > |s| then None
    else if OccursAt(s, pattern, from) then Some(from)
    else Find(s, pattern, from + 1)
  }

  /** A prefix sees an occurrence exactly when it holds all of it. */
  lemma FindInPrefix(s: seq<byte>, pattern: seq<byte>, from: nat, m: nat)
    requires m <= |s|
    ensures Find(s[..m], pattern, from) ==
            match Find(s, pattern, from) {
              case Some(i) => if i + |pattern| <= m then Some(i) else None
              case None => None
            }
  {
    forall i: nat ensures OccursAt(s[..m], pattern, i) <==> OccursAt(s, pattern, i) && i + |pattern| <= m {
      if i + |pattern| <= m {
        assert s[..m][i..i + |pattern|] == s[i..i + |pattern|];
      }
    }
  }

  /** The first occurrence is determined by where it stands and where nothing stands. */
  lemma FindIs(s: seq<byte>, pattern: seq<byte>, from: nat, at: nat)
    requires from <= at && OccursAt(s, pattern, at)
    requires forall i | from <= i < at :: !OccursAt(s, pattern, i)
    ensures Find(s, pattern, from) == Some(at)
  {
  }

  lemma OccursSplit(bytes: seq<byte>, a: seq<byte>, b: seq<byte>, at: nat)
    ensures OccursAt(bytes, a + b, at) <==> OccursAt(bytes, a, at) && OccursAt(bytes, b, at + |a|)
  {
    if at + |a + b| <= |bytes| {
      var both := bytes[at..at + |a + b|];
      assert both[..|a|] == bytes[at..at + |a|];
      assert both[|a|..] == bytes[at + |a|..at + |a| + |b|];
      assert both == both[..|a|] + both[|a|..];
      assert (a + b)[..|a|] == a && (a + b)[|a|..] == b;
    }
  }

  // ---- concatenation -------------------------------------------------------

  function Concat(parts: seq<seq<byte>>): seq<byte> {
    if parts == [] then [] else parts[0] + Concat(parts[1..])
  }
}
