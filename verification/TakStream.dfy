/**
 * The TAK stream framing: a magic byte, the payload length as a base-128 varint
 * (section "Base 128 Varints" of the Protocol Buffers encoding specification),
 * and the payload (`encode_u64_varint`, `cot_xml_to_tak_proto_frame`).
 */
module TakStream {
  import opened Wrappers
  import opened Bytes

  const MAGIC: byte := 0xbf

  // ---- what a varint is ---------------------------------------------------------------

  /** Continuation bit on every byte but the last. */
  predicate IsVarint(s: seq<byte>) {
    s != [] && s[|s| - 1] < 0x80 && forall i | 0 <= i < |s| - 1 :: s[i] >= 0x80
  }

  /** Seven bits a byte, least significant group first. */
  function VarintValue(s: seq<byte>): nat {
    if s == [] then 0 else s[0] % 0x80 + 0x80 * VarintValue(s[1..])
  }

  /** No superfluous zero group at the end. */
  predicate IsMinimal(s: seq<byte>) { IsVarint(s) && (|s| > 1 ==> s[|s| - 1] != 0) }

  // ---- the encoder ----------------------------------------------------------------------

  function Varint(value: nat): (s: seq<byte>)
    ensures s != []
  {
    if value < 0x80 then [value] else [0x80 + value % 0x80] + Varint(value / 0x80)
  }

  method EncodeVarint(value: nat, output: seq<byte>) returns (extended: seq<byte>)
    requires value <= U64_MAX
    ensures extended == output + Varint(value)
  {
    extended := output;
    var rest := value;
    while true
      invariant extended + Varint(rest) == output + Varint(value)
      decreases rest
    {
      var low := rest % 0x80;
      ghost var before := rest;
      rest := rest / 0x80;
      if rest != 0 {
        low := low + 0x80;
        Assoc(extended, [low], Varint(rest));
      }
      extended := extended + [low];
      if rest == 0 {
        break;
      }
    }
  }

  /** The encoder's bytes are a minimal varint of the value. */
  lemma {:induction false} VarintIsMinimal(value: nat)
    ensures IsMinimal(Varint(value)) && VarintValue(Varint(value)) == value
    ensures value > 0 ==> Varint(value)[|Varint(value)| - 1] > 0
  {
    if value >= 0x80 {
      VarintIsMinimal(value / 0x80);
      assert Varint(value)[1..] == Varint(value / 0x80);
    }
  }

  /** It is the only one. */
  lemma MinimalTail(s: seq<byte>)
    requires IsMinimal(s) && |s| > 1
    ensures IsMinimal(s[1..]) && VarintValue(s[1..]) > 0
    ensures s[0] >= 0x80 && VarintValue(s) == s[0] - 0x80 + 0x80 * VarintValue(s[1..])
  {
    LastGroupCounts(s[1..]);
  }

  lemma MinimalByte(s: seq<byte>)
    requires IsMinimal(s) && |s| == 1
    ensures s == Varint(VarintValue(s))
  {
    assert s == [s[0]] && s[1..] == [];
    assert VarintValue(s) == s[0] % 0x80 == s[0];
    hide VarintValue, IsMinimal;
  }

  lemma VarintOfGroup(group: nat, rest: nat)
    requires group < 0x80 && rest > 0
    ensures Varint(group + 0x80 * rest) == [group + 0x80] + Varint(rest)
  {
    assert (group + 0x80 * rest) / 0x80 == rest && (group + 0x80 * rest) % 0x80 == group;
  }

  lemma {:induction false} MinimalIsUnique(s: seq<byte>)
    requires IsMinimal(s)
    ensures s == Varint(VarintValue(s))
  {
    if |s| > 1 {
      hide Varint, VarintValue, IsMinimal, IsVarint;
      MinimalTail(s);
      MinimalIsUnique(s[1..]);
      VarintOfGroup(s[0] - 0x80, VarintValue(s[1..]));
      assert s == [s[0]] + s[1..];
    } else {
      hide Varint;
      MinimalByte(s);
    }
  }

  lemma {:induction false} LastGroupCounts(s: seq<byte>)
    requires s != [] && 0 < s[|s| - 1] < 0x80
    ensures VarintValue(s) > 0
  {
    if |s| > 1 {
      LastGroupCounts(s[1..]);
    }
  }

  function Pow128(n: nat): nat { if n == 0 then 1 else 0x80 * Pow128(n - 1) }

  lemma {:induction false} VarintLength(value: nat, groups: nat)
    requires value < Pow128(groups) && groups > 0
    ensures |Varint(value)| <= groups
  {
    if value >= 0x80 {
      VarintLength(value / 0x80, groups - 1);
    }
  }

  /** Every 64-bit length takes at most ten bytes. */
  lemma AtMostTenBytes(value: nat)
    requires value <= U64_MAX
    ensures |Varint(value)| <= 10
  {
    assert Pow128(5) == 0x8_0000_0000;
    assert Pow128(8) == 0x80 * (0x80 * (0x80 * Pow128(5)));
    assert Pow128(10) == 0x80 * (0x80 * Pow128(8));
    VarintLength(value, 10);
  }

  // ---- reading a stream ---------------------------------------------------------------------

  /** The varint at `offset` and the offset after it. */
  function ReadVarint(s: seq<byte>, offset: nat): (r: Option<(nat, nat)>)
    ensures r.Some? ==> offset < r.value.1 <= |s|
    decreases |s| - offset
  {
    if offset >= |s| then None
    else if s[offset] < 0x80 then Some((s[offset], offset + 1))
    else match ReadVarint(s, offset + 1) {
      case None => None
      case Some((high, end)) => Some((s[offset] % 0x80 + 0x80 * high, end))
    }
  }

  lemma {:induction false} VarintReadsBack(s: seq<byte>, offset: nat, value: nat)
    requires OccursAt(s, Varint(value), offset)
    ensures ReadVarint(s, offset) == Some((value, offset + |Varint(value)|))
    decreases value
  {
    var v := Varint(value);
    assert s[offset..offset + |v|][0] == v[0];
    if value >= 0x80 {
      assert s[offset + 1..offset + |v|] == s[offset..offset + |v|][1..] == Varint(value / 0x80);
      VarintReadsBack(s, offset + 1, value / 0x80);
    }
  }

  /** No varint is the beginning of another. */
  lemma VarintsArePrefixFree(a: nat, b: nat, rest: seq<byte>)
    requires Varint(a) + rest == Varint(b)
    ensures a == b && rest == []
  {
    var s := Varint(b);
    assert s[0..|Varint(a)|] == Varint(a);
    VarintReadsBack(s, 0, a);
    assert s[0..|s|] == s;
    VarintReadsBack(s, 0, b);
  }

  function Frame(payload: seq<byte>): (f: seq<byte>)
    ensures f != []
  {
    [MAGIC] + (Varint(|payload|) + payload)
  }

  method BuildFrame(payload: seq<byte>) returns (frame: seq<byte>)
    requires |payload| <= U64_MAX
    ensures frame == Frame(payload)
  {
    frame := [MAGIC];
    frame := EncodeVarint(|payload|, frame);
    frame := frame + payload;
  }

  function FrameAll(payloads: seq<seq<byte>>): seq<byte> {
    if payloads == [] then [] else Frame(payloads[0]) + FrameAll(payloads[1..])
  }

  /** The payloads of a stream of frames. */
  function SplitFrames(s: seq<byte>, offset: nat): Option<seq<seq<byte>>>
    requires offset <= |s|
    decreases |s| - offset
  {
    if offset == |s| then Some([])
    else if s[offset] != MAGIC then None
    else match ReadVarint(s, offset + 1) {
      case None => None
      case Some((len, start)) =>
        if start + len > |s| then None
        else match SplitFrames(s, start + len) {
          case None => None
          case Some(rest) => Some([s[start..start + len]] + rest)
        }
    }
  }

  /** Splitting undoes framing for any list of payloads. */
  lemma {:induction false} FramesSplitBack(s: seq<byte>, offset: nat, payloads: seq<seq<byte>>)
    requires OccursAt(s, FrameAll(payloads), offset) && offset + |FrameAll(payloads)| == |s|
    ensures SplitFrames(s, offset) == Some(payloads)
    decreases payloads
  {
    hide OccursAt, Frame, ReadVarint, Varint;
    if payloads != [] {
      var p, rest := payloads[0], FrameAll(payloads[1..]);
      OccursSplit(s, Frame(p), rest, offset);
      FrameReadsBack(s, offset, p);
      FramesSplitBack(s, offset + |Frame(p)|, payloads[1..]);
      assert payloads == [p] + payloads[1..];
    }
  }

  lemma FrameReadsBack(s: seq<byte>, offset: nat, p: seq<byte>)
    requires OccursAt(s, Frame(p), offset)
    ensures offset < |s| && s[offset] == 0xbf
    ensures var start := offset + 1 + |Varint(|p|)|;
            && ReadVarint(s, offset + 1) == Some((|p|, start))
            && start + |p| == offset + |Frame(p)| <= |s|
            && s[start..start + |p|] == p
  {
    hide Varint, ReadVarint;
    OccursSplit(s, [MAGIC], Varint(|p|) + p, offset);
    OccursSplit(s, Varint(|p|), p, offset + 1);
    assert s[offset..offset + 1][0] == s[offset];
    VarintReadsBack(s, offset + 1, |p|);
  }

  /** Different payload lists make different streams. */
  lemma StreamsAreUniquelyDecodable(ps: seq<seq<byte>>, qs: seq<seq<byte>>)
    requires FrameAll(ps) == FrameAll(qs)
    ensures ps == qs
  {
    var s := FrameAll(ps);
    assert s[0..|s|] == s;
    FramesSplitBack(s, 0, ps);
    FramesSplitBack(s, 0, qs);
  }
}
