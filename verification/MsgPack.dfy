/**
 * The hand-written MessagePack decoder for LXMF telemetry
 * (`parse_lxmf_msgpack_value` and its helpers), against the section "Formats"
 * of the MessagePack specification.
 *
 * `Wire` is the reference: one constructor for every way of writing a value
 * down, with the bytes it stands for and the value it means. The decoder is
 * proved to accept exactly the bytes of legal wires.
 */
module MsgPack {
  import opened Wrappers
  import opened Bytes
  import Utf8

  // ---- values ------------------------------------------------------------------

  /** Floats stay bit patterns: which width was read, and its bits. */
  datatype Float = Single(bits: nat) | Double(bits: nat)

  datatype Value =
    | Nil
    | Bool(b: bool)
    | I64(i: int)
    | U64(u: nat)
    | F64(f: Float)
    | String(utf8: seq<byte>)
    | Bytes(bytes: seq<byte>)
    | Array(items: seq<Value>)
    | Map(entries: seq<Entry>)

  datatype Entry = Entry(key: Value, value: Value)

  // ---- the reference grammar ---------------------------------------------------------

  datatype Width = W1 | W2 | W4 | W8

  /** Where a length is written: inside the marker, or in the bytes after it. */
  datatype LenForm = InMarker | After(w: Width)

  datatype Wire =
    | WNil
    | WBool(b: bool)
    | PositiveFix(u: nat)
    | NegativeFix(i: int)
    | Unsigned(w: Width, u: nat)
    | Signed(w: Width, i: int)
    | Float32(bits: nat)
    | Float64(bits: nat)
    | Str(form: LenForm, utf8: seq<byte>)
    | Bin(w: Width, payload: seq<byte>)
    | Arr(form: LenForm, elements: seq<Wire>)
    | Dict(form: LenForm, flat: seq<Wire>) // key, value, key, value, ...

  function Size(w: Width): (n: nat) {
    match w case W1 => 1 case W2 => 2 case W4 => 4 case W8 => 8
  }

  function Index(w: Width): (n: nat)
    ensures n < 4
  {
    match w case W1 => 0 case W2 => 1 case W4 => 2 case W8 => 3
  }

  /** How many values a width can hold. */
  function Range(w: Width): (n: nat)
    ensures n == Pow256(Size(w))
  {
    Pow256Values();
    match w case W1 => 0x100 case W2 => 0x1_0000 case W4 => 0x1_0000_0000 case W8 => 0x1_0000_0000_0000_0000
  }

  predicate Legal(t: Wire)
    decreases t
  {
    match t
    case WNil => true
    case WBool(_) => true
    case PositiveFix(u) => u < 128
    case NegativeFix(i) => -32 <= i < 0
    case Unsigned(w, u) => u < Range(w)
    case Signed(w, i) => -(Range(w) / 2) <= i < Range(w) / 2
    case Float32(bits) => bits < Range(W4)
    case Float64(bits) => bits < Range(W8)
    case Str(form, utf8) =>
      && (match form case InMarker => |utf8| < 32 case After(w) => w != W8 && |utf8| < Range(w))
      && Utf8.Valid(utf8)
    case Bin(w, payload) => w != W8 && |payload| < Range(w)
    case Arr(form, elements) => LegalCount(form, |elements|) && AllLegal(elements)
    case Dict(form, flat) => |flat| % 2 == 0 && LegalCount(form, |flat| / 2) && AllLegal(flat)
  }

  predicate LegalCount(form: LenForm, count: nat) {
    match form
    case InMarker => count < 16
    case After(w) => (w == W2 || w == W4) && count < Range(w)
  }

  predicate AllLegal(ts: seq<Wire>)
    decreases ts
  {
    ts == [] || (Legal(ts[0]) && AllLegal(ts[1..]))
  }

  /** The bytes of a container's header: `fix` plus the count, or `marker` and the count after it. */
  function CountHeader(fix: nat, wide: nat, form: LenForm, count: nat): seq<byte>
    requires LegalCount(form, count) && fix + 16 <= 256 && wide + 2 <= 256
  {
    match form
    case InMarker => [fix + count]
    case After(w) => [wide + Index(w) - 1] + ToBigEndian(count, Size(w))
  }

  /** What a wire puts on the line. */
  function Spell(t: Wire): (s: seq<byte>)
    requires Legal(t)
    ensures s != []
    decreases t
  {
    match t
    case WNil => [0xc0]
    case WBool(b) => [if b then 0xc3 else 0xc2]
    case PositiveFix(u) => [u]
    case NegativeFix(i) => [256 + i]
    case Unsigned(w, u) => [0xcc + Index(w)] + ToBigEndian(u, Size(w))
    case Signed(w, i) => [0xd0 + Index(w)] + ToBigEndian(if i < 0 then i + Range(w) else i, Size(w))
    case Float32(bits) => [0xca] + ToBigEndian(bits, 4)
    case Float64(bits) => [0xcb] + ToBigEndian(bits, 8)
    case Str(form, utf8) => StrHeader(form, |utf8|) + utf8
    case Bin(w, payload) => [0xc4 + Index(w)] + ToBigEndian(|payload|, Size(w)) + payload
    case Arr(form, elements) => CountHeader(0x90, 0xdc, form, |elements|) + SpellAll(elements)
    case Dict(form, flat) => CountHeader(0x80, 0xde, form, |flat| / 2) + SpellAll(flat)
  }

  function StrHeader(form: LenForm, len: nat): seq<byte>
    requires match form case InMarker => len < 32 case After(w) => w != W8
  {
    match form
    case InMarker => [0xa0 + len]
    case After(w) => [0xd9 + Index(w)] + ToBigEndian(len, Size(w))
  }

  function SpellAll(ts: seq<Wire>): (s: seq<byte>)
    requires AllLegal(ts)
    ensures |s| >= |ts|
    decreases ts
  {
    if ts == [] then [] else Spell(ts[0]) + SpellAll(ts[1..])
  }

  /** What a wire means. */
  function Meaning(t: Wire): Value
    decreases t
  {
    match t
    case WNil => Nil
    case WBool(b) => Bool(b)
    case PositiveFix(u) => U64(u)
    case NegativeFix(i) => I64(i)
    case Unsigned(_, u) => U64(u)
    case Signed(_, i) => I64(i)
    case Float32(bits) => F64(Single(bits))
    case Float64(bits) => F64(Double(bits))
    case Str(_, utf8) => String(utf8)
    case Bin(_, payload) => Bytes(payload)
    case Arr(_, elements) => Array(MeaningAll(elements))
    case Dict(_, flat) => Map(Pairs(MeaningAll(flat)))
  }

  function MeaningAll(ts: seq<Wire>): (vs: seq<Value>)
    ensures |vs| == |ts|
    decreases ts
  {
    if ts == [] then [] else [Meaning(ts[0])] + MeaningAll(ts[1..])
  }

  function Pairs(vs: seq<Value>): seq<Entry> {
    if |vs| < 2 then [] else [Entry(vs[0], vs[1])] + Pairs(vs[2..])
  }

  // ---- the decoder -------------------------------------------------------------------

  /** `read_be_u16_at` and its siblings, and the one-byte `bytes.get`. */
  function ReadUint(bytes: seq<byte>, offset: nat, w: Width): (r: Option<nat>)
    ensures r.Some? ==> offset + Size(w) <= |bytes| && r.value < Range(w)
  {
    if offset + Size(w) <= |bytes| then Some(FromBigEndian(bytes[offset..offset + Size(w)])) else None
  }

  datatype Number = UnsignedInt | SignedInt | FloatBits

  /** The value of a number read as `n` (`from_be_bytes` of the signed types, `from_bits`). */
  function NumberValue(kind: Number, w: Width, n: nat): Value {
    match kind
    case UnsignedInt => U64(n)
    case SignedInt => I64(if n < Range(w) / 2 then n else n - Range(w))
    case FloatBits => F64(if w == W4 then Single(n) else Double(n))
  }

  datatype Count = Known(n: nat) | Following(w: Width)

  /** What a marker byte announces. */
  datatype Head =
    | Immediate(value: Value)
    | Wide(kind: Number, w: Width)
    | Text(count: Count)
    | Blob(count: Count)
    | Container(isMap: bool, count: Count)
    | Reserved

  function WidthOf(index: nat): Width
    requires index < 4
  {
    if index == 0 then W1 else if index == 1 then W2 else if index == 2 then W4 else W8
  }

  /** The decoder's marker table, in its order. */
  function Dispatch(marker: byte): Head {
    if marker <= 0x7f then Immediate(U64(marker))
    else if marker <= 0x8f then Container(true, Known(marker % 16))
    else if marker <= 0x9f then Container(false, Known(marker % 16))
    else if marker <= 0xbf then Text(Known(marker % 32))
    else if marker == 0xc0 then Immediate(Nil)
    else if marker == 0xc2 then Immediate(Bool(false))
    else if marker == 0xc3 then Immediate(Bool(true))
    else if 0xc4 <= marker <= 0xc6 then Blob(Following(WidthOf(marker - 0xc4)))
    else if marker == 0xca then Wide(FloatBits, W4)
    else if marker == 0xcb then Wide(FloatBits, W8)
    else if 0xcc <= marker <= 0xcf then Wide(UnsignedInt, WidthOf(marker - 0xcc))
    else if 0xd0 <= marker <= 0xd3 then Wide(SignedInt, WidthOf(marker - 0xd0))
    else if 0xd9 <= marker <= 0xdb then Text(Following(WidthOf(marker - 0xd9)))
    else if 0xdc <= marker <= 0xdd then Container(false, Following(WidthOf(marker - 0xdc + 1)))
    else if 0xde <= marker <= 0xdf then Container(true, Following(WidthOf(marker - 0xde + 1)))
    else if 0xe0 <= marker then Immediate(I64(marker as int - 256))
    else Reserved
  }

  /** The count a head announces and the offset after it. */
  function ReadCount(count: Count, bytes: seq<byte>, next: nat): (r: Option<(nat, nat)>)
    requires next <= |bytes|
    ensures r.Some? ==> next <= r.value.1 <= |bytes|
  {
    match count
    case Known(n) => Some((n, next))
    case Following(w) =>
      match ReadUint(bytes, next, w)
      case None => None
      case Some(n) => Some((n, next + Size(w)))
  }

  function ParseBytes(bytes: seq<byte>, offset: nat, len: nat): Option<(Value, nat)> {
    if offset + len <= |bytes| then Some((Bytes(bytes[offset..offset + len]), offset + len)) else None
  }

  function ParseString(bytes: seq<byte>, offset: nat, len: nat): Option<(Value, nat)> {
    if offset + len <= |bytes| && Utf8.Valid(bytes[offset..offset + len])
    then Some((String(bytes[offset..offset + len]), offset + len)) else None
  }

  /** `parse_lxmf_msgpack_value`: every success moves forward and stays inside the input. */
  function ParseValue(bytes: seq<byte>, offset: nat): (r: Option<(Value, nat)>)
    ensures r.Some? ==> offset < r.value.1 <= |bytes|
    decreases |bytes| - offset, 0, 0
  {
    if offset >= |bytes| then None
    else
      match Dispatch(bytes[offset])
      case Immediate(value) => Some((value, offset + 1))
      case Wide(kind, w) =>
        (match ReadUint(bytes, offset + 1, w)
         case None => None
         case Some(n) => Some((NumberValue(kind, w, n), offset + 1 + Size(w))))
      case Text(count) =>
        (match ReadCount(count, bytes, offset + 1)
         case None => None
         case Some((len, start)) => ParseString(bytes, start, len))
      case Blob(count) =>
        (match ReadCount(count, bytes, offset + 1)
         case None => None
         case Some((len, start)) => ParseBytes(bytes, start, len))
      case Container(isMap, count) =>
        (match ReadCount(count, bytes, offset + 1)
         case None => None
         case Some((len, start)) =>
           match ParseItems(bytes, start, if isMap then 2 * len else len)
           case None => None
           case Some((items, end)) => Some((Contain(isMap, items), end)))
      case Reserved => None
  }

  function Contain(isMap: bool, items: seq<Value>): Value {
    if isMap then Map(Pairs(items)) else Array(items)
  }

  /** `count` values one after another. */
  function ParseItems(bytes: seq<byte>, offset: nat, count: nat): (r: Option<(seq<Value>, nat)>)
    requires offset <= |bytes|
    ensures r.Some? ==> offset <= r.value.1 <= |bytes| && |r.value.0| == count
    decreases |bytes| - offset, 1, count
  {
    if count == 0 then Some(([], offset))
    else match ParseValue(bytes, offset) {
      case None => None
      case Some((first, next)) =>
        match ParseItems(bytes, next, count - 1) {
          case None => None
          case Some((rest, end)) => Some(([first] + rest, end))
        }
    }
  }

  // ---- every legal wire is accepted, with its meaning ------------------------------------

  lemma OneByte(bytes: seq<byte>, b: byte, at: nat)
    ensures OccursAt(bytes, [b], at) <==> at < |bytes| && bytes[at] == b
  {
    if at < |bytes| {
      assert bytes[at..at + 1] == [bytes[at]];
    }
  }

  /** A marker byte followed by a big-endian number. */
  lemma MarkerThenNumber(bytes: seq<byte>, offset: nat, marker: byte, w: Width, n: nat)
    requires n < Range(w)
    requires OccursAt(bytes, [marker] + ToBigEndian(n, Size(w)), offset)
    ensures offset < |bytes| && bytes[offset] == marker
    ensures ReadUint(bytes, offset + 1, w) == Some(n)
  {
    OccursSplit(bytes, [marker], ToBigEndian(n, Size(w)), offset);
    OneByte(bytes, marker, offset);
    BigEndianRoundTrip(n, Size(w));
  }

  /** Strings, byte strings and containers: a counting header, then what it counts. */
  predicate IsCounted(t: Wire) { t.Str? || t.Bin? || t.Arr? || t.Dict? }

  function Payload(t: Wire): seq<byte>
    requires Legal(t) && IsCounted(t)
  {
    match t
    case Str(_, utf8) => utf8
    case Bin(_, payload) => payload
    case Arr(_, elements) => SpellAll(elements)
    case Dict(_, flat) => SpellAll(flat)
  }

  function Counted(t: Wire): nat
    requires IsCounted(t)
  {
    match t
    case Str(_, utf8) => |utf8|
    case Bin(_, payload) => |payload|
    case Arr(_, elements) => |elements|
    case Dict(_, flat) => |flat| / 2
  }

  function HeaderForm(t: Wire): LenForm
    requires IsCounted(t)
  {
    if t.Bin? then After(t.w) else t.form
  }

  /** The marker the grammar gives to `t`. */
  function HeaderMarker(t: Wire): byte
    requires Legal(t) && IsCounted(t)
  {
    match HeaderForm(t)
    case InMarker => (if t.Str? then 0xa0 else if t.Arr? then 0x90 else 0x80) + Counted(t)
    case After(w) =>
      Index(w) + (if t.Str? then 0xd9 else if t.Bin? then 0xc4 else if t.Arr? then 0xdb else 0xdd)
  }

  function Header(t: Wire): seq<byte>
    requires Legal(t) && IsCounted(t)
  {
    match HeaderForm(t)
    case InMarker => [HeaderMarker(t)]
    case After(w) => [HeaderMarker(t)] + ToBigEndian(Counted(t), Size(w))
  }

  lemma SpelledAsHeaderAndPayload(t: Wire)
    requires Legal(t) && IsCounted(t)
    ensures Spell(t) == Header(t) + Payload(t)
  {
  }

  function CountOf(t: Wire): Count
    requires IsCounted(t)
  {
    match HeaderForm(t) case InMarker => Known(Counted(t)) case After(w) => Following(w)
  }

  function HeadOf(t: Wire): Head
    requires IsCounted(t)
  {
    if t.Str? then Text(CountOf(t)) else if t.Bin? then Blob(CountOf(t)) else Container(t.Dict?, CountOf(t))
  }

  lemma DispatchesToHead(t: Wire)
    requires Legal(t) && IsCounted(t)
    ensures Dispatch(HeaderMarker(t)) == HeadOf(t)
  {
  }

  /** The decoder reads a header as what the grammar wrote. */
  lemma CompleteHeader(t: Wire, bytes: seq<byte>, offset: nat) returns (start: nat)
    requires Legal(t) && IsCounted(t) && OccursAt(bytes, Spell(t), offset)
    ensures offset < start == offset + |Header(t)| && OccursAt(bytes, Payload(t), start)
    ensures offset < |bytes| && Dispatch(bytes[offset]) == HeadOf(t)
    ensures ReadCount(CountOf(t), bytes, offset + 1) == Some((Counted(t), start))
  {
    hide Spell, Dispatch, HeaderMarker, Payload, OccursAt, ReadUint;
    SpelledAsHeaderAndPayload(t);
    DispatchesToHead(t);
    OccursSplit(bytes, Header(t), Payload(t), offset);
    start := offset + |Header(t)|;
    match HeaderForm(t)
    case InMarker => OneByte(bytes, HeaderMarker(t), offset);
    case After(w) =>
      CountInRange(t);
      MarkerThenNumber(bytes, offset, HeaderMarker(t), w, Counted(t));
  }

  lemma CountInRange(t: Wire)
    requires Legal(t) && IsCounted(t) && HeaderForm(t).After?
    ensures Counted(t) < Range(HeaderForm(t).w)
  {
  }

  lemma CompleteText(t: Wire, bytes: seq<byte>, offset: nat)
    requires Legal(t) && (t.Str? || t.Bin?) && OccursAt(bytes, Spell(t), offset)
    ensures ParseValue(bytes, offset) == Some((Meaning(t), offset + |Spell(t)|))
  {
    hide Spell, Dispatch, Header, ReadCount, ParseItems, AllLegal, Meaning;
    var start := CompleteHeader(t, bytes, offset);
    SpelledAsHeaderAndPayload(t);
    MeaningOfCounted(t);
  }

  lemma CompleteContainer(t: Wire, bytes: seq<byte>, offset: nat, start: nat, ts: seq<Wire>)
    requires Legal(t) && ((t.Arr? && ts == t.elements) || (t.Dict? && ts == t.flat))
    requires offset < |bytes| && start == offset + |Header(t)| && OccursAt(bytes, Payload(t), start)
    requires Dispatch(bytes[offset]) == HeadOf(t)
    requires ReadCount(CountOf(t), bytes, offset + 1) == Some((Counted(t), start))
    requires ParseItems(bytes, start, |ts|) == Some((MeaningAll(ts), start + |Payload(t)|))
    ensures ParseValue(bytes, offset) == Some((Meaning(t), offset + |Spell(t)|))
  {
    hide Spell, Dispatch, Header, ReadCount, ParseItems, AllLegal, Meaning, MeaningAll, Payload;
    SpelledAsHeaderAndPayload(t);
    MeaningOfCounted(t);
  }

  lemma MeaningOfCounted(t: Wire)
    requires IsCounted(t)
    ensures t.Str? ==> Meaning(t) == String(t.utf8)
    ensures t.Bin? ==> Meaning(t) == Bytes(t.payload)
    ensures t.Arr? ==> Meaning(t) == Contain(false, MeaningAll(t.elements))
    ensures t.Dict? ==> Meaning(t) == Contain(true, MeaningAll(t.flat))
  {
  }

  lemma CompleteInteger(t: Wire, bytes: seq<byte>, offset: nat)
    requires t.Unsigned? || t.Signed?
    requires Legal(t) && OccursAt(bytes, Spell(t), offset)
    ensures ParseValue(bytes, offset) == Some((Meaning(t), offset + |Spell(t)|))
  {
    hide ReadUint, OccursAt, ParseItems, ReadCount;
    if t.Unsigned? {
      MarkerThenNumber(bytes, offset, 0xcc + Index(t.w), t.w, t.u);
    } else {
      MarkerThenNumber(bytes, offset, 0xd0 + Index(t.w), t.w, if t.i < 0 then t.i + Range(t.w) else t.i);
    }
  }

  lemma CompleteScalar(t: Wire, bytes: seq<byte>, offset: nat)
    requires !IsCounted(t)
    requires Legal(t) && OccursAt(bytes, Spell(t), offset)
    ensures ParseValue(bytes, offset) == Some((Meaning(t), offset + |Spell(t)|))
  {
    hide ReadUint, OccursAt, ParseItems, ReadCount;
    if t.Unsigned? || t.Signed? {
      CompleteInteger(t, bytes, offset);
    } else if t.Float32? {
      MarkerThenNumber(bytes, offset, 0xca, W4, t.bits);
    } else if t.Float64? {
      MarkerThenNumber(bytes, offset, 0xcb, W8, t.bits);
    } else {
      OneByte(bytes, Spell(t)[0], offset);
    }
  }

  lemma {:induction false} Complete(t: Wire, bytes: seq<byte>, offset: nat)
    requires Legal(t) && OccursAt(bytes, Spell(t), offset)
    ensures ParseValue(bytes, offset) == Some((Meaning(t), offset + |Spell(t)|))
    decreases t, 0
  {
    hide ParseValue, Spell, Meaning, Dispatch, ReadCount, Header, HeadOf, CountOf, OccursAt, ParseItems;
    if IsCounted(t) {
      if t.Str? || t.Bin? {
        CompleteText(t, bytes, offset);
      } else {
        var start := CompleteHeader(t, bytes, offset);
        var ts := if t.Arr? then t.elements else t.flat;
        CompleteAll(ts, bytes, start);
        CompleteContainer(t, bytes, offset, start, ts);
      }
    } else {
      CompleteScalar(t, bytes, offset);
    }
  }

  lemma {:induction false} CompleteAll(ts: seq<Wire>, bytes: seq<byte>, offset: nat)
    requires AllLegal(ts) && OccursAt(bytes, SpellAll(ts), offset)
    ensures ParseItems(bytes, offset, |ts|) == Some((MeaningAll(ts), offset + |SpellAll(ts)|))
    decreases ts, 0
  {
    hide ParseValue, Spell, Meaning, Legal;
    if ts != [] {
      OccursSplit(bytes, Spell(ts[0]), SpellAll(ts[1..]), offset);
      Complete(ts[0], bytes, offset);
      CompleteAll(ts[1..], bytes, offset + |Spell(ts[0])|);
    }
  }

  // ---- everything accepted is a legal wire ---------------------------------------------------

  lemma NumberOccurs(bytes: seq<byte>, offset: nat, w: Width)
    requires offset < |bytes| && ReadUint(bytes, offset + 1, w).Some?
    ensures OccursAt(bytes, [bytes[offset]] + ToBigEndian(ReadUint(bytes, offset + 1, w).value, Size(w)), offset)
  {
    var read := bytes[offset + 1..offset + 1 + Size(w)];
    BigEndianUnique(read);
    OneByte(bytes, bytes[offset], offset);
    OccursSplit(bytes, [bytes[offset]], read, offset);
  }

  /** The wire of a marker that says everything by itself. */
  lemma SoundImmediate(bytes: seq<byte>, offset: nat) returns (t: Wire)
    requires offset < |bytes| && Dispatch(bytes[offset]).Immediate?
    ensures Legal(t) && OccursAt(bytes, Spell(t), offset) && |Spell(t)| == 1
    ensures Meaning(t) == Dispatch(bytes[offset]).value
  {
    var m: int := bytes[offset];
    t := if m <= 0x7f then PositiveFix(m)
         else if m == 0xc0 then WNil
         else if m <= 0xc3 then WBool(m == 0xc3)
         else NegativeFix(m - 256);
    OneByte(bytes, bytes[offset], offset);
    assert Spell(t) == [bytes[offset]];
  }

  lemma SoundWide(bytes: seq<byte>, offset: nat) returns (t: Wire)
    requires offset < |bytes| && Dispatch(bytes[offset]).Wide?
    requires ReadUint(bytes, offset + 1, Dispatch(bytes[offset]).w).Some?
    ensures var head := Dispatch(bytes[offset]);
            && Legal(t) && OccursAt(bytes, Spell(t), offset) && |Spell(t)| == 1 + Size(head.w)
            && Meaning(t) == NumberValue(head.kind, head.w, ReadUint(bytes, offset + 1, head.w).value)
  {
    hide OccursAt, ReadUint;
    var Wide(kind, w) := Dispatch(bytes[offset]);
    var n := ReadUint(bytes, offset + 1, w).value;
    NumberOccurs(bytes, offset, w);
    t := match kind
         case UnsignedInt => Unsigned(w, n)
         case SignedInt => Signed(w, if n < Range(w) / 2 then n else n - Range(w))
         case FloatBits => if w == W4 then Float32(n) else Float64(n);
    assert Spell(t) == [bytes[offset]] + ToBigEndian(n, Size(w));
  }

  function FormOf(count: Count): LenForm {
    match count case Known(_) => InMarker case Following(w) => After(w)
  }

  /** Heads only announce what the grammar can write. */
  lemma MarkerOfHead(marker: byte, t: Wire, n: nat)
    requires Legal(t) && IsCounted(t) && Dispatch(marker) == HeadOf(t)
    ensures HeaderMarker(t) == marker
  {
  }

  lemma SoundHeader(t: Wire, bytes: seq<byte>, offset: nat, start: nat)
    requires Legal(t) && IsCounted(t)
    requires offset < |bytes| && Dispatch(bytes[offset]) == HeadOf(t)
    requires ReadCount(CountOf(t), bytes, offset + 1) == Some((Counted(t), start))
    requires OccursAt(bytes, Payload(t), start)
    ensures OccursAt(bytes, Spell(t), offset) && offset + |Spell(t)| == start + |Payload(t)|
  {
    hide Spell, Dispatch, HeaderMarker, Payload, OccursAt, ReadUint;
    SpelledAsHeaderAndPayload(t);
    MarkerOfHead(bytes[offset], t, Counted(t));
    match HeaderForm(t) {
      case InMarker => OneByte(bytes, HeaderMarker(t), offset);
      case After(w) => NumberOccurs(bytes, offset, w);
    }
    OccursSplit(bytes, Header(t), Payload(t), offset);
  }

  /** Counts read from a marker are small enough for the form they came in. */
  lemma CountsAreLegal(marker: byte, bytes: seq<byte>, next: nat)
    requires next <= |bytes|
    ensures var head := Dispatch(marker);
            && (head.Text? && ReadCount(head.count, bytes, next).Some? ==>
                  var n := ReadCount(head.count, bytes, next).value.0;
                  match FormOf(head.count) case InMarker => n < 32 case After(w) => w != W8 && n < Range(w))
            && (head.Blob? && ReadCount(head.count, bytes, next).Some? ==>
                  head.count.Following? && head.count.w != W8
                  && ReadCount(head.count, bytes, next).value.0 < Range(head.count.w))
            && (head.Container? && ReadCount(head.count, bytes, next).Some? ==>
                  LegalCount(FormOf(head.count), ReadCount(head.count, bytes, next).value.0))
  {
  }

  lemma {:induction false} Sound(bytes: seq<byte>, offset: nat) returns (t: Wire)
    requires ParseValue(bytes, offset).Some?
    ensures Legal(t) && OccursAt(bytes, Spell(t), offset)
    ensures ParseValue(bytes, offset) == Some((Meaning(t), offset + |Spell(t)|))
    decreases |bytes| - offset, 0, 0
  {
    hide Spell, Dispatch, ReadCount, ReadUint, OccursAt, Utf8.Valid, Header, HeaderMarker, LegalCount, Contain;
    var head := Dispatch(bytes[offset]);
    if head.Immediate? {
      t := SoundImmediate(bytes, offset);
    } else if head.Wide? {
      t := SoundWide(bytes, offset);
    } else if head.Container? {
      var (n, start) := ReadCount(head.count, bytes, offset + 1).value;
      var ts := SoundAll(bytes, start, if head.isMap then 2 * n else n);
      t := SoundContainer(bytes, offset, start, n, ts);
    } else {
      t := SoundText(bytes, offset);
    }
  }

  lemma SoundContainer(bytes: seq<byte>, offset: nat, start: nat, n: nat, ts: seq<Wire>) returns (t: Wire)
    requires offset < |bytes| && Dispatch(bytes[offset]).Container?
    requires var head := Dispatch(bytes[offset]);
             ReadCount(head.count, bytes, offset + 1) == Some((n, start)) && |ts| == if head.isMap then 2 * n else n
    requires AllLegal(ts) && OccursAt(bytes, SpellAll(ts), start)
    ensures Legal(t) && OccursAt(bytes, Spell(t), offset)
    ensures Meaning(t) == Contain(Dispatch(bytes[offset]).isMap, MeaningAll(ts))
    ensures offset + |Spell(t)| == start + |SpellAll(ts)|
  {
    hide Spell, Dispatch, ReadUint, OccursAt, Header, HeaderMarker, LegalCount;
    var head := Dispatch(bytes[offset]);
    CountsAreLegal(bytes[offset], bytes, offset + 1);
    t := if head.isMap then Dict(FormOf(head.count), ts) else Arr(FormOf(head.count), ts);
    SoundHeader(t, bytes, offset, start);
  }

  lemma SoundText(bytes: seq<byte>, offset: nat) returns (t: Wire)
    requires ParseValue(bytes, offset).Some?
    requires var head := Dispatch(bytes[offset]); head.Text? || head.Blob?
    ensures Legal(t) && OccursAt(bytes, Spell(t), offset)
    ensures ParseValue(bytes, offset) == Some((Meaning(t), offset + |Spell(t)|))
  {
    hide Spell, Dispatch, ReadUint, OccursAt, Utf8.Valid, Header, HeaderMarker, ParseItems;
    var head := Dispatch(bytes[offset]);
    CountsAreLegal(bytes[offset], bytes, offset + 1);
    var (n, start) := ReadCount(head.count, bytes, offset + 1).value;
    var payload := SoundPayload(bytes, start, n);
    t := if head.Text? then Str(FormOf(head.count), payload) else Bin(head.count.w, payload);
    SoundHeader(t, bytes, offset, start);
  }

  lemma SoundPayload(bytes: seq<byte>, start: nat, len: nat) returns (payload: seq<byte>)
    requires start + len <= |bytes|
    ensures payload == bytes[start..start + len] && |payload| == len && OccursAt(bytes, payload, start)
  {
    payload := bytes[start..start + len];
  }

  lemma {:induction false} SoundAll(bytes: seq<byte>, offset: nat, count: nat) returns (ts: seq<Wire>)
    requires offset <= |bytes| && ParseItems(bytes, offset, count).Some?
    ensures AllLegal(ts) && |ts| == count && OccursAt(bytes, SpellAll(ts), offset)
    ensures ParseItems(bytes, offset, count) == Some((MeaningAll(ts), offset + |SpellAll(ts)|))
    decreases |bytes| - offset, 1, count
  {
    hide ParseValue, Spell, Meaning, Legal;
    if count == 0 {
      ts := [];
    } else {
      var first := Sound(bytes, offset);
      var rest := SoundAll(bytes, offset + |Spell(first)|, count - 1);
      ts := [first] + rest;
      assert ts[1..] == rest;
      OccursSplit(bytes, Spell(first), SpellAll(rest), offset);
    }
  }

  // ---- the decoder is the grammar ---------------------------------------------------------------

  /** Some legal spelling of `v` stands in `bytes` from `offset` to `end`. */
  ghost predicate SpelledAt(bytes: seq<byte>, offset: nat, v: Value, end: nat) {
    exists t :: Legal(t) && Meaning(t) == v && OccursAt(bytes, Spell(t), offset) && end == offset + |Spell(t)|
  }

  /** The decoder succeeds exactly on legal encodings, with their meaning and their end. */
  lemma DecoderIsGrammar(bytes: seq<byte>, offset: nat, v: Value, end: nat)
    ensures ParseValue(bytes, offset) == Some((v, end)) <==> SpelledAt(bytes, offset, v, end)
  {
    hide ParseValue, Spell, Meaning, Legal;
    if ParseValue(bytes, offset) == Some((v, end)) {
      var t := Sound(bytes, offset);
    }
    if SpelledAt(bytes, offset, v, end) {
      var t :| Legal(t) && Meaning(t) == v && OccursAt(bytes, Spell(t), offset) && end == offset + |Spell(t)|;
      Complete(t, bytes, offset);
    }
  }

  /** Any encoder followed by the decoder is the identity, whatever stands around the encoding. */
  lemma DecodeAfterEncode(before: seq<byte>, t: Wire, after: seq<byte>)
    requires Legal(t)
    ensures ParseValue(before + Spell(t) + after, |before|) == Some((Meaning(t), |before| + |Spell(t)|))
  {
    hide ParseValue, Spell, Meaning, Legal;
    var bytes := before + Spell(t) + after;
    assert bytes[|before|..|before| + |Spell(t)|] == Spell(t);
    Complete(t, bytes, |before|);
  }

  /** No encoding is ambiguous, and none is a proper beginning of another. */
  lemma Unambiguous(t: Wire, u: Wire, rest: seq<byte>)
    requires Legal(t) && Legal(u) && Spell(t) + rest == Spell(u)
    ensures Meaning(t) == Meaning(u) && rest == []
  {
    hide ParseValue, Spell, Meaning, Legal;
    DecodeAfterEncode([], t, rest);
    DecodeAfterEncode([], u, []);
    assert [] + Spell(t) + rest == [] + Spell(u) + [];
  }

  /** A success depends only on the bytes it consumed. */
  lemma DecoderIsLocal(bytes: seq<byte>, other: seq<byte>, offset: nat)
    requires ParseValue(bytes, offset).Some?
    requires var end := ParseValue(bytes, offset).value.1;
             end <= |other| && other[offset..end] == bytes[offset..end]
    ensures ParseValue(other, offset) == ParseValue(bytes, offset)
  {
    hide ParseValue, Spell, Meaning, Legal;
    var t := Sound(bytes, offset);
    Complete(t, other, offset);
  }

  /** A container that announces more values than bytes remain is refused. */
  lemma OverlongContainerFails(bytes: seq<byte>, offset: nat)
    requires offset < |bytes| && Dispatch(bytes[offset]).Container?
    requires var Container(isMap, count) := Dispatch(bytes[offset]);
             ReadCount(count, bytes, offset + 1).Some?
             && var (n, start) := ReadCount(count, bytes, offset + 1).value;
                (if isMap then 2 * n else n) > |bytes| - start
    ensures ParseValue(bytes, offset) == None
  {
    hide Dispatch, ReadCount;
    var Container(isMap, count) := Dispatch(bytes[offset]);
    var (n, start) := ReadCount(count, bytes, offset + 1).value;
    ItemsTakeBytes(bytes, start, if isMap then 2 * n else n);
  }

  lemma ItemsTakeBytes(bytes: seq<byte>, offset: nat, count: nat)
    requires offset <= |bytes|
    ensures ParseItems(bytes, offset, count).Some? ==> count <= |bytes| - offset
  {
    hide ParseValue;
    if ParseItems(bytes, offset, count).Some? {
      var ts := SoundAll(bytes, offset, count);
    }
  }

  /** `parse_lxmf_msgpack_json` before its conversion to JSON: one value and nothing after it. */
  function ParseWhole(bytes: seq<byte>): Option<Value> {
    match ParseValue(bytes, 0)
    case None => None
    case Some((v, end)) => if end == |bytes| then Some(v) else None
  }

  lemma WholeInputDecodes(bytes: seq<byte>, v: Value)
    ensures ParseWhole(bytes) == Some(v) <==> exists t :: Legal(t) && Spell(t) == bytes && Meaning(t) == v
  {
    hide ParseValue, Spell, Meaning, Legal;
    if ParseWhole(bytes) == Some(v) {
      var t := Sound(bytes, 0);
      assert Spell(t) == bytes[0..|bytes|] == bytes;
    }
    if exists t :: Legal(t) && Spell(t) == bytes && Meaning(t) == v {
      var t :| Legal(t) && Spell(t) == bytes && Meaning(t) == v;
      assert bytes[0..|bytes|] == bytes;
      Complete(t, bytes, 0);
    }
  }

  // ---- which values can be written down at all --------------------------------------------------

  predicate Representable(v: Value)
    decreases v
  {
    match v
    case Nil => true
    case Bool(_) => true
    case I64(i) => -0x8000_0000_0000_0000 <= i < 0x8000_0000_0000_0000
    case U64(u) => u < Range(W8)
    case F64(f) => f.bits < Range(if f.Single? then W4 else W8)
    case String(utf8) => |utf8| < Range(W4) && Utf8.Valid(utf8)
    case Bytes(bytes) => |bytes| < Range(W4)
    case Array(items) => |items| < Range(W4) && forall i | 0 <= i < |items| :: Representable(items[i])
    case Map(entries) =>
      |entries| < Range(W4)
      && forall i | 0 <= i < |entries| :: Representable(entries[i].key) && Representable(entries[i].value)
  }

  /** An encoder that always uses the widest form. */
  function Encode(v: Value): (t: Wire)
    requires Representable(v)
    ensures Legal(t) && Meaning(t) == v
    decreases v
  {
    match v
    case Nil => WNil
    case Bool(b) => WBool(b)
    case I64(i) => Signed(W8, i)
    case U64(u) => Unsigned(W8, u)
    case F64(f) => if f.Single? then Float32(f.bits) else Float64(f.bits)
    case String(utf8) => Str(After(W4), utf8)
    case Bytes(bytes) => Bin(W4, bytes)
    case Array(items) => Arr(After(W4), EncodeAll(items))
    case Map(entries) => Dict(After(W4), EncodeEntries(entries))
  }

  function EncodeAll(vs: seq<Value>): (ts: seq<Wire>)
    requires forall i | 0 <= i < |vs| :: Representable(vs[i])
    ensures AllLegal(ts) && MeaningAll(ts) == vs
    decreases vs
  {
    if vs == [] then [] else [Encode(vs[0])] + EncodeAll(vs[1..])
  }

  function EncodeEntry(e: Entry): (ts: (Wire, Wire))
    requires Representable(e.key) && Representable(e.value)
    ensures Legal(ts.0) && Legal(ts.1) && Meaning(ts.0) == e.key && Meaning(ts.1) == e.value
    decreases e
  {
    (Encode(e.key), Encode(e.value))
  }

  function EncodeEntries(entries: seq<Entry>): (ts: seq<Wire>)
    requires forall i | 0 <= i < |entries| :: Representable(entries[i].key) && Representable(entries[i].value)
    ensures |ts| == 2 * |entries|
    ensures AllLegal(ts) && Pairs(MeaningAll(ts)) == entries
    decreases entries
  {
    if entries == [] then []
    else
      var (key, value), rest := EncodeEntry(entries[0]), EncodeEntries(entries[1..]);
      TwoMoreWires(key, value, rest);
      [key] + ([value] + rest)
  }

  lemma TwoMoreWires(key: Wire, value: Wire, rest: seq<Wire>)
    requires Legal(key) && Legal(value) && AllLegal(rest)
    ensures AllLegal([key] + ([value] + rest))
    ensures Pairs(MeaningAll([key] + ([value] + rest)))
            == [Entry(Meaning(key), Meaning(value))] + Pairs(MeaningAll(rest))
  {
    hide Legal, Meaning;
    var ts := [key] + ([value] + rest);
    assert ts[1..] == [value] + rest && ts[1..][1..] == rest;
    assert MeaningAll(ts)[2..] == MeaningAll(rest);
  }

  /** Exactly the representable values have a legal spelling. */
  lemma SpellableExactlyWhenRepresentable(v: Value)
    ensures Representable(v) <==> exists t :: Legal(t) && Meaning(t) == v
  {
    hide Legal, Meaning;
    if Representable(v) {
      assert Legal(Encode(v)) && Meaning(Encode(v)) == v;
    }
    if t :| Legal(t) && Meaning(t) == v {
      MeaningIsRepresentable(t);
    }
  }

  lemma {:induction false} MeaningIsRepresentable(t: Wire)
    requires Legal(t)
    ensures Representable(Meaning(t))
    decreases t, 0
  {
    if t.Arr? {
      AllRepresentable(t.elements);
    } else if t.Dict? {
      AllRepresentable(t.flat);
      PairsKeepValues(MeaningAll(t.flat));
    }
  }

  lemma {:induction false} AllRepresentable(ts: seq<Wire>)
    requires AllLegal(ts)
    ensures forall i | 0 <= i < |ts| :: Representable(MeaningAll(ts)[i])
    decreases ts, 0
  {
    if ts != [] {
      MeaningIsRepresentable(ts[0]);
      AllRepresentable(ts[1..]);
    }
  }

  lemma {:induction false} PairsKeepValues(vs: seq<Value>)
    requires forall i | 0 <= i < |vs| :: Representable(vs[i])
    ensures |Pairs(vs)| == |vs| / 2
    ensures forall i | 0 <= i < |Pairs(vs)| :: Representable(Pairs(vs)[i].key) && Representable(Pairs(vs)[i].value)
    decreases |vs|
  {
    if |vs| >= 2 {
      PairsKeepValues(vs[2..]);
    }
  }

  // ---- the two loops ----------------------------------------------------------------------------------

  /** A parse of items continued after the ones already read. */
  function Resumed(items: seq<Value>, rest: Option<(seq<Value>, nat)>): Option<(seq<Value>, nat)> {
    match rest case None => None case Some((more, end)) => Some((items + more, end))
  }

  lemma ResumeAfterOne(bytes: seq<byte>, offset: nat, count: nat, items: seq<Value>)
    requires count > 0 && offset <= |bytes|
    ensures ParseValue(bytes, offset).None? ==> ParseItems(bytes, offset, count).None?
    ensures ParseValue(bytes, offset).Some? ==>
              var (v, next) := ParseValue(bytes, offset).value;
              Resumed(items, ParseItems(bytes, offset, count))
              == Resumed(items + [v], ParseItems(bytes, next, count - 1))
  {
    hide ParseValue;
    if ParseValue(bytes, offset).Some? {
      var (v, next) := ParseValue(bytes, offset).value;
      var rest := ParseItems(bytes, next, count - 1);
      if rest.Some? { Assoc(items, [v], rest.value.0); }
    }
  }

  method ParseArray(bytes: seq<byte>, start: nat, len: nat) returns (r: Option<(Value, nat)>)
    requires start <= |bytes|
    ensures r == match ParseItems(bytes, start, len) {
                   case None => None
                   case Some((items, end)) => Some((Array(items), end))
                 }
  {
    hide ParseValue;
    var items: seq<Value>, offset: nat := [], start;
    var parsed := ParseItems(bytes, start, len);
    assert Resumed([], parsed) == parsed by { if parsed.Some? { assert [] + parsed.value.0 == parsed.value.0; } }
    for i := 0 to len
      invariant offset <= |bytes|
      invariant Resumed(items, ParseItems(bytes, offset, len - i)) == parsed
    {
      ResumeAfterOne(bytes, offset, len - i, items);
      var one := ParseValue(bytes, offset);
      if one.None? {
        return None;
      }
      items := items + [one.value.0];
      offset := one.value.1;
    }
    assert items + [] == items;
    r := Some((Array(items), offset));
  }

  lemma {:induction false} PairsOfEven(items: seq<Value>, k: Value, v: Value)
    requires |items| % 2 == 0
    ensures Pairs(items + [k] + [v]) == Pairs(items) + [Entry(k, v)]
    decreases |items|
  {
    var all := items + [k] + [v];
    if items == [] {
      assert all == [k, v] && all[2..] == [];
    } else {
      assert all[2..] == items[2..] + [k] + [v];
      PairsOfEven(items[2..], k, v);
    }
  }

  method ParseMap(bytes: seq<byte>, start: nat, len: nat) returns (r: Option<(Value, nat)>)
    requires start <= |bytes|
    ensures r == match ParseItems(bytes, start, 2 * len) {
                   case None => None
                   case Some((items, end)) => Some((Map(Pairs(items)), end))
                 }
  {
    hide ParseValue, ParseItems, Pairs;
    var entries: seq<Entry>, offset: nat := [], start;
    ghost var items: seq<Value> := [];
    var parsed := ParseItems(bytes, start, 2 * len);
    assert Resumed([], parsed) == parsed by { if parsed.Some? { assert [] + parsed.value.0 == parsed.value.0; } }
    NoPairs();
    for i := 0 to len
      invariant offset <= |bytes|
      invariant |items| % 2 == 0 && entries == Pairs(items)
      invariant Resumed(items, ParseItems(bytes, offset, 2 * (len - i))) == parsed
    {
      ResumeAfterOne(bytes, offset, 2 * (len - i), items);
      var key := ParseValue(bytes, offset);
      if key.None? {
        return None;
      }
      ResumeAfterOne(bytes, key.value.1, 2 * (len - i) - 1, items + [key.value.0]);
      var value := ParseValue(bytes, key.value.1);
      if value.None? {
        return None;
      }
      PairsOfEven(items, key.value.0, value.value.0);
      items := items + [key.value.0] + [value.value.0];
      entries := entries + [Entry(key.value.0, value.value.0)];
      offset := value.value.1;
    }
    NoItems(bytes, offset);
    assert items + [] == items;
    r := Some((Map(entries), offset));
  }

  lemma NoItems(bytes: seq<byte>, offset: nat)
    requires offset <= |bytes|
    ensures ParseItems(bytes, offset, 0) == Some(([], offset))
  {
  }

  lemma NoPairs()
    ensures Pairs([]) == []
  {
  }
}
