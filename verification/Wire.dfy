/** The Protocol Buffers wire format, as the runtime reads and writes it: base-128 varints,
    tags, length-delimited data, and the skipping and keeping of unknown fields. */
module Wire {
  import opened Basics

  const TWO_31: nat := 0x8000_0000
  const TWO_32: nat := 0x1_0000_0000
  const TWO_64: nat := 0x1_0000_0000_0000_0000
  const MAX_VARINT_BYTES: nat := 10
  const RECURSION_LIMIT: nat := 100

  type uint32 = v: int | 0 <= v < TWO_32

  // ---- Varints ----

  /** Seven bits a byte, least significant first, in at most count bytes. */
  function ReadRaw(bs: seq<byte>, count: nat): (r: Option<(nat, seq<byte>)>)
    ensures r.Some? ==> |r.value.1| < |bs|
  {
    if count == 0 || bs == [] then None
    else if bs[0] < 128 then Some((bs[0], bs[1..]))
    else match ReadRaw(bs[1..], count - 1)
      case None => None
      case Some((high, rest)) => Some((bs[0] - 128 + 128 * high, rest))
  }

  /** Higher bits of an over-long varint are dropped. */
  function ReadVarint32(bs: seq<byte>): (r: Option<(uint32, seq<byte>)>)
    ensures r.Some? ==> |r.value.1| < |bs|
  {
    match ReadRaw(bs, MAX_VARINT_BYTES)
    case None => None
    case Some((v, rest)) => Some((v % TWO_32, rest))
  }

  function ReadVarint64(bs: seq<byte>): (r: Option<(nat, seq<byte>)>)
    ensures r.Some? ==> |r.value.1| < |bs| && r.value.0 < TWO_64
  {
    match ReadRaw(bs, MAX_VARINT_BYTES)
    case None => None
    case Some((v, rest)) => Some((v % TWO_64, rest))
  }

  function Varint(v: nat): (r: seq<byte>)
    ensures |r| >= 1
  {
    if v < 128 then [v] else [v % 128 + 128] + Varint(v / 128)
  }

  function Pow128(n: nat): nat {
    if n == 0 then 1 else 128 * Pow128(n - 1)
  }

  lemma Pow128Values()
    ensures Pow128(1) == 128 && Pow128(2) == 0x4000 && Pow128(3) == 0x20_0000 && Pow128(4) == 0x1000_0000
    ensures Pow128(5) == 0x8_0000_0000 && Pow128(6) == 0x400_0000_0000 && Pow128(7) == 0x2_0000_0000_0000
    ensures Pow128(8) == 0x100_0000_0000_0000 && Pow128(9) == 0x8000_0000_0000_0000 && Pow128(10) >= TWO_64
  {
    assert Pow128(5) == 0x8_0000_0000;
    assert Pow128(6) == 128 * Pow128(5);
    assert Pow128(7) == 128 * Pow128(6);
    assert Pow128(8) == 128 * Pow128(7);
    assert Pow128(9) == 128 * Pow128(8);
  }

  /** Reading a varint back, whatever follows it. */
  lemma {:induction false} ReadRawOfVarint(v: nat, count: nat, rest: seq<byte>)
    requires count > 0 && v < Pow128(count)
    ensures ReadRaw(Varint(v) + rest, count) == Some((v, rest))
    decreases count
  {
    if v >= 128 {
      ReadRawOfVarint(v / 128, count - 1, rest);
      assert (Varint(v) + rest)[1..] == Varint(v / 128) + rest;
    } else {
      assert (Varint(v) + rest)[1..] == rest;
    }
  }

  lemma Varint32RoundTrip(v: nat, rest: seq<byte>)
    requires v < TWO_64
    ensures ReadVarint32(Varint(v) + rest) == Some((v % TWO_32, rest))
    ensures ReadVarint64(Varint(v) + rest) == Some((v, rest))
  {
    Pow128Values();
    hide Varint, ReadRaw, ReadVarint32, ReadVarint64, Pow128;
    ReadRawOfVarint(v, MAX_VARINT_BYTES, rest);
    Truncated(Varint(v) + rest, v, rest);
  }

  lemma Uint32RoundTrip(v: uint32, rest: seq<byte>)
    ensures ReadVarint32(Varint(v) + rest) == Some((v, rest))
  {
    Pow128Values();
    hide Varint, ReadRaw, ReadVarint32, ReadVarint64, Pow128;
    ReadRawOfVarint(v, MAX_VARINT_BYTES, rest);
    Truncated(Varint(v) + rest, v, rest);
  }

  lemma Truncated(bs: seq<byte>, v: nat, rest: seq<byte>)
    requires ReadRaw(bs, MAX_VARINT_BYTES) == Some((v, rest))
    ensures ReadVarint32(bs) == Some((v % TWO_32, rest)) && ReadVarint64(bs) == Some((v % TWO_64, rest))
    ensures v < TWO_32 ==> ReadVarint32(bs) == Some((v, rest))
    ensures v < TWO_64 ==> ReadVarint64(bs) == Some((v, rest))
  {
  }

  /** The sizer's thresholds. */
  function VarintSize32(v: uint32): nat {
    if v < 0x80 then 1 else if v < 0x4000 then 2 else if v < 0x20_0000 then 3 else if v < 0x1000_0000 then 4 else 5
  }

  /** The same for 64 bits. */
  function VarintSize64(v: nat): nat {
    if v < 0x8_0000_0000 then
      if v < 0x80 then 1 else if v < 0x4000 then 2 else if v < 0x20_0000 then 3 else if v < 0x1000_0000 then 4 else 5
    else
      if v < 0x400_0000_0000 then 6 else if v < 0x2_0000_0000_0000 then 7 else if v < 0x100_0000_0000_0000 then 8
      else if v < 0x8000_0000_0000_0000 then 9 else 10
  }

  lemma {:induction false} VarintLength(v: nat, n: nat)
    requires 1 <= n && v < Pow128(n) && (n == 1 || Pow128(n - 1) <= v)
    ensures |Varint(v)| == n
    decreases n
  {
    if n > 1 {
      assert Pow128(n - 1) >= 128 by { PowGrows(n - 1); }
      VarintLength(v / 128, n - 1);
    } else {
      assert Pow128(1) == 128;
    }
  }

  lemma PowGrows(n: nat)
    requires n >= 1
    ensures Pow128(n) >= 128
  {
  }

  /** The sizers' thresholds give the length of what is written. */
  lemma VarintSizeIsLength(v: nat)
    requires v < TWO_64
    ensures VarintSize64(v) == |Varint(v)|
    ensures v < TWO_32 ==> VarintSize32(v) == |Varint(v)|
  {
    Pow128Values();
    VarintLength(v, VarintSize64(v));
  }

  // ---- Tags and length-delimited data ----

  /** A tag of 0 means none could be read; atEnd tells the end of input from bad bytes. */
  datatype TagRead = TagRead(tag: uint32, rest: seq<byte>, atEnd: bool)

  function ReadTag(bs: seq<byte>): (t: TagRead)
    ensures t.tag != 0 ==> |t.rest| < |bs|
    ensures |t.rest| <= |bs|
  {
    if bs == [] then TagRead(0, [], true)
    else match ReadVarint32(bs)
      case None => TagRead(0, bs, false)
      case Some((tag, rest)) => TagRead(tag, rest, false)
  }

  lemma ReadTagOf(tag: uint32, rest: seq<byte>)
    ensures ReadTag(Varint(tag) + rest) == TagRead(tag, rest, false)
  {
    Uint32RoundTrip(tag, rest);
  }

  lemma ReadShortTag(tag: byte, rest: seq<byte>)
    requires tag < 128
    ensures ReadTag([tag] + rest) == TagRead(tag, rest, false)
  {
    assert Varint(tag) == [tag];
    ReadTagOf(tag, rest);
  }

  lemma OneByteVarint(v: nat)
    requires v < 128
    ensures Varint(v) == [v]
  {
  }

  lemma TwoByteTag(tag: uint32)
    requires 128 <= tag < 0x4000
    ensures Varint(tag) == [tag % 128 + 128, tag / 128]
  {
    assert Varint(tag / 128) == [tag / 128];
  }

  /** ExpectTag may always say no; when it says yes it has consumed exactly the tag. */
  method ExpectTag(tag: uint32, bs: seq<byte>) returns (yes: bool, rest: seq<byte>)
    requires 0 < tag < 0x4000
    ensures yes ==> ReadTag(bs) == TagRead(tag, rest, false) && |rest| < |bs|
    ensures !yes ==> rest == bs
  {
    var looks: bool := *;
    if looks && tag < 128 && |bs| > 0 && bs[0] == tag {
      yes, rest := true, bs[1..];
      assert bs == [bs[0]] + rest;
      ReadShortTag(tag, rest);
    } else if looks && tag >= 128 && |bs| > 1 && bs[0] == tag % 128 + 128 && bs[1] == tag / 128 {
      yes, rest := true, bs[2..];
      assert bs == [bs[0], bs[1]] + rest;
      TwoByteTag(tag);
      ReadTagOf(tag, rest);
    } else {
      yes, rest := false, bs;
    }
  }

  /** A length that is negative as an int, or runs past the input, fails. */
  function ReadBytes(bs: seq<byte>): (r: Option<(seq<byte>, seq<byte>)>)
    ensures r.Some? ==> |r.value.1| < |bs| && |r.value.0| < TWO_31
  {
    match ReadVarint32(bs)
    case None => None
    case Some((n, rest)) => if n >= TWO_31 || n > |rest| then None else Some((rest[..n], rest[n..]))
  }

  lemma ReadBytesOf(data: seq<byte>, rest: seq<byte>)
    requires |data| < TWO_31
    ensures ReadBytes(Varint(|data|) + data + rest) == Some((data, rest))
  {
    var n, tail := |data|, data + rest;
    var bs := Varint(n) + tail;
    Uint32RoundTrip(n, tail);
    ReadBytesFrom(bs, n, tail);
    SplitAgain(data, rest);
    Assoc(Varint(n), data, rest);
  }

  lemma ReadBytesFrom(bs: seq<byte>, n: uint32, rest: seq<byte>)
    requires ReadVarint32(bs) == Some((n, rest)) && n < TWO_31 && n <= |rest|
    ensures ReadBytes(bs) == Some((rest[..n], rest[n..]))
  {
  }

  /** The bytes that a pushed limit of n leaves readable: limits are clipped to the
      enclosing one, and a length that is negative as an int sets no limit of its own. */
  function Limited(n: uint32, bs: seq<byte>): (k: nat)
    ensures k <= |bs|
  {
    if n >= TWO_31 || n > |bs| then |bs| else n
  }

  // ---- Unknown fields ----

  datatype UnknownField =
    | UVarint(number: nat, value: nat)
    | UFixed64(number: nat, data: seq<byte>)
    | UBytes(number: nat, data: seq<byte>)
    | UGroup(number: nat, fields: seq<UnknownField>)
    | UFixed32(number: nat, data: seq<byte>)

  const VARINT := 0
  const FIXED64 := 1
  const LENGTH_DELIMITED := 2
  const START_GROUP := 3
  const END_GROUP := 4
  const FIXED32 := 5

  function SkipField(tag: uint32, bs: seq<byte>, depth: nat): (r: Option<(UnknownField, seq<byte>)>)
    ensures r.Some? ==> |r.value.1| <= |bs|
    decreases |bs|, 1
  {
    var number, wire := tag / 8, tag % 8;
    if wire == VARINT then
      match ReadVarint64(bs)
      case None => None
      case Some((v, rest)) => Some((UVarint(number, v), rest))
    else if wire == FIXED64 then
      if |bs| < 8 then None else Some((UFixed64(number, bs[..8]), bs[8..]))
    else if wire == LENGTH_DELIMITED then
      match ReadBytes(bs)
      case None => None
      case Some((data, rest)) => Some((UBytes(number, data), rest))
    else if wire == START_GROUP then
      if depth >= RECURSION_LIMIT then None
      else match SkipGroup(number, bs, depth + 1)
        case None => None
        case Some((fields, rest)) => Some((UGroup(number, fields), rest))
    else if wire == FIXED32 then
      if |bs| < 4 then None else Some((UFixed32(number, bs[..4]), bs[4..]))
    else None
  }

  /** Fields up to the end tag of group `number`; any other end fails. */
  function SkipGroup(number: nat, bs: seq<byte>, depth: nat): (r: Option<(seq<UnknownField>, seq<byte>)>)
    ensures r.Some? ==> |r.value.1| <= |bs|
    decreases |bs|, 0
  {
    var t := ReadTag(bs);
    if t.tag == 0 then None
    else if t.tag % 8 == END_GROUP then
      if t.tag == number * 8 + END_GROUP then Some(([], t.rest)) else None
    else match SkipField(t.tag, t.rest, depth)
      case None => None
      case Some((f, rest)) =>
        match SkipGroup(number, rest, depth)
        case None => None
        case Some((fs, rest')) => Some(([f] + fs, rest'))
  }

  function TagOf(f: UnknownField): nat {
    f.number * 8 + match f
      case UVarint(_, _) => VARINT
      case UFixed64(_, _) => FIXED64
      case UBytes(_, _) => LENGTH_DELIMITED
      case UGroup(_, _) => START_GROUP
      case UFixed32(_, _) => FIXED32
  }

  function Body(f: UnknownField): seq<byte>
    decreases f, 0
  {
    match f
    case UVarint(_, v) => Varint(v)
    case UFixed64(_, data) => data
    case UBytes(_, data) => Varint(|data|) + data
    case UGroup(n, fields) => EncodeUnknown(fields) + Varint(n * 8 + END_GROUP)
    case UFixed32(_, data) => data
  }

  function EncodeUnknown(fs: seq<UnknownField>): seq<byte>
    decreases fs
  {
    if fs == [] then [] else Varint(TagOf(fs[0])) + Body(fs[0]) + EncodeUnknown(fs[1..])
  }

  /** What a field skipped at this depth can look like. */
  ghost predicate Storable(f: UnknownField, depth: nat)
    decreases f
  {
    && 0 < TagOf(f) && f.number * 8 + 7 < TWO_32
    && match f
       case UVarint(_, v) => v < TWO_64
       case UFixed64(_, data) => |data| == 8
       case UBytes(_, data) => |data| < TWO_31
       case UGroup(_, fields) => depth < RECURSION_LIMIT && forall g :: g in fields ==> Storable(g, depth + 1)
       case UFixed32(_, data) => |data| == 4
  }

  lemma TagParts(f: UnknownField)
    ensures TagOf(f) / 8 == f.number
    ensures TagOf(f) % 8 == match f
      case UVarint(_, _) => VARINT
      case UFixed64(_, _) => FIXED64
      case UBytes(_, _) => LENGTH_DELIMITED
      case UGroup(_, _) => START_GROUP
      case UFixed32(_, _) => FIXED32
  {
  }

  lemma SkipOfLeaf(f: UnknownField, depth: nat, rest: seq<byte>)
    requires Storable(f, depth) && !f.UGroup?
    ensures SkipField(TagOf(f), Body(f) + rest, depth) == Some((f, rest))
  {
    TagParts(f);
    match f
    case UVarint(_, v) => Varint32RoundTrip(v, rest);
    case UBytes(_, data) => ReadBytesOf(data, rest);
    case UFixed64(_, data) => SplitAgain(data, rest);
    case UFixed32(_, data) => SplitAgain(data, rest);
  }

  /** Skipping an encoded field gives the field back. */
  lemma {:induction false} SkipOfBody(f: UnknownField, depth: nat, rest: seq<byte>)
    requires Storable(f, depth)
    ensures SkipField(TagOf(f), Body(f) + rest, depth) == Some((f, rest))
    decreases f, 0
  {
    hide SkipField, SkipGroup, Varint, EncodeUnknown;
    if f.UGroup? {
      SkipOfGroup(f.fields, f.number, depth + 1, rest);
      Assoc(EncodeUnknown(f.fields), Varint(f.number * 8 + END_GROUP), rest);
      GroupIsField(f, Body(f) + rest, depth, rest);
    } else {
      SkipOfLeaf(f, depth, rest);
    }
  }

  lemma GroupIsField(f: UnknownField, bs: seq<byte>, depth: nat, rest: seq<byte>)
    requires f.UGroup? && Storable(f, depth) && SkipGroup(f.number, bs, depth + 1) == Some((f.fields, rest))
    ensures SkipField(TagOf(f), bs, depth) == Some((f, rest))
  {
    TagParts(f);
  }

  /** The first unknown field, in front of all else. */
  lemma EncodeUnknownSplit(fs: seq<UnknownField>, rest: seq<byte>)
    requires fs != []
    ensures EncodeUnknown(fs) + rest == Varint(TagOf(fs[0])) + (Body(fs[0]) + (EncodeUnknown(fs[1..]) + rest))
  {
    var tag, body, more := Varint(TagOf(fs[0])), Body(fs[0]), EncodeUnknown(fs[1..]);
    Assoc(tag + body, more, rest);
    Assoc(tag, body, more + rest);
  }

  lemma GroupStep(number: nat, bs: seq<byte>, depth: nat, t: TagRead, f: UnknownField, after: seq<byte>,
                  fs: seq<UnknownField>, rest: seq<byte>)
    requires ReadTag(bs) == t && t.tag != 0 && t.tag % 8 != END_GROUP
    requires SkipField(t.tag, t.rest, depth) == Some((f, after))
    requires SkipGroup(number, after, depth) == Some((fs, rest))
    ensures SkipGroup(number, bs, depth) == Some(([f] + fs, rest))
  {
  }

  lemma GroupEnd(number: nat, bs: seq<byte>, depth: nat, rest: seq<byte>)
    requires number * 8 + 7 < TWO_32 && ReadTag(bs) == TagRead(number * 8 + END_GROUP, rest, false)
    ensures SkipGroup(number, bs, depth) == Some(([], rest))
  {
  }

  lemma {:induction false} SkipOfGroup(fs: seq<UnknownField>, number: nat, depth: nat, rest: seq<byte>)
    requires forall g :: g in fs ==> Storable(g, depth)
    requires number * 8 + 7 < TWO_32
    ensures SkipGroup(number, EncodeUnknown(fs) + (Varint(number * 8 + END_GROUP) + rest), depth) == Some((fs, rest))
    decreases fs
  {
    hide SkipField, SkipGroup, ReadTag, Body;
    var tail := Varint(number * 8 + END_GROUP) + rest;
    var bs := EncodeUnknown(fs) + tail;
    if fs == [] {
      ReadTagOf(number * 8 + END_GROUP, rest);
      assert bs == tail;
      GroupEnd(number, bs, depth, rest);
    } else {
      var f := fs[0];
      var after := EncodeUnknown(fs[1..]) + tail;
      EncodeUnknownSplit(fs, tail);
      assert f in fs && Storable(f, depth);
      ReadTagOf(TagOf(f), Body(f) + after);
      TagParts(f);
      SkipOfBody(f, depth, after);
      SkipOfGroup(fs[1..], number, depth, rest);
      GroupStep(number, bs, depth, TagRead(TagOf(f), Body(f) + after, false), f, after, fs[1..], rest);
      assert [f] + fs[1..] == fs;
    }
  }

  /** Whatever is skipped can be stored, under the tag it was read with. */
  lemma {:induction false} SkippedIsStorable(tag: uint32, bs: seq<byte>, depth: nat)
    requires tag != 0 && SkipField(tag, bs, depth).Some?
    ensures Storable(SkipField(tag, bs, depth).value.0, depth)
    ensures TagOf(SkipField(tag, bs, depth).value.0) == tag
    decreases |bs|, 1
  {
    if tag % 8 == START_GROUP {
      SkippedGroupIsStorable(tag / 8, bs, depth + 1);
    }
  }

  lemma {:induction false} SkippedGroupIsStorable(number: nat, bs: seq<byte>, depth: nat)
    requires SkipGroup(number, bs, depth).Some?
    ensures forall g :: g in SkipGroup(number, bs, depth).value.0 ==> Storable(g, depth)
    decreases |bs|, 0
  {
    var t := ReadTag(bs);
    if t.tag % 8 != END_GROUP {
      SkippedIsStorable(t.tag, t.rest, depth);
      SkippedGroupIsStorable(number, SkipField(t.tag, t.rest, depth).value.1, depth);
    }
  }

  // ---- The size of unknown fields ----

  /** What the types of an unknown field's parts allow. */
  ghost predicate Typed(f: UnknownField)
    decreases f
  {
    && f.number * 8 + 7 < TWO_32
    && match f
       case UVarint(_, v) => v < TWO_64
       case UFixed64(_, data) => |data| == 8
       case UBytes(_, data) => |data| < TWO_32
       case UGroup(_, fields) => AllTyped(fields)
       case UFixed32(_, data) => |data| == 4
  }

  ghost predicate AllTyped(fs: seq<UnknownField>)
    decreases fs
  {
    forall i :: 0 <= i < |fs| ==> Typed(fs[i])
  }

  lemma {:induction false} StorableIsTyped(f: UnknownField, depth: nat)
    requires Storable(f, depth)
    ensures Typed(f)
    decreases f
  {
    if f.UGroup? {
      forall i | 0 <= i < |f.fields| ensures Typed(f.fields[i]) {
        assert f.fields[i] in f.fields;
        StorableIsTyped(f.fields[i], depth + 1);
      }
    }
  }

  lemma EncodeUnknownStep(fs: seq<UnknownField>, i: nat)
    requires i < |fs|
    ensures |EncodeUnknown(fs[i..])| == |Varint(TagOf(fs[i]))| + |Body(fs[i])| + |EncodeUnknown(fs[i + 1..])|
  {
    SliceStep(fs, i);
  }

  /** ComputeUnknownFieldsSize adds up sizes kind by kind, groups recursively, and agrees
      with what is printed. */
  method ComputeUnknownFieldsSize(fs: seq<UnknownField>) returns (size: nat)
    requires AllTyped(fs)
    ensures size == |EncodeUnknown(fs)|
    decreases fs
  {
    size := 0;
    assert fs[0..] == fs;
    for i := 0 to |fs|
      invariant size + |EncodeUnknown(fs[i..])| == |EncodeUnknown(fs)|
    {
      EncodeUnknownStep(fs, i);
      var body := BodySize(fs[i]);
      VarintSizeIsLength(TagOf(fs[i]));
      size := size + VarintSize32(TagOf(fs[i])) + body;
    }
  }

  method BodySize(f: UnknownField) returns (size: nat)
    requires Typed(f)
    ensures size == |Body(f)|
    decreases f, 0
  {
    match f
    case UVarint(_, v) =>
      VarintSizeIsLength(v);
      size := VarintSize64(v);
    case UFixed32(_, _) => size := 4;
    case UFixed64(_, _) => size := 8;
    case UBytes(_, data) =>
      VarintSizeIsLength(|data|);
      size := VarintSize32(|data|) + |data|;
    case UGroup(n, fields) =>
      var inner := ComputeUnknownFieldsSize(fields);
      VarintSizeIsLength(n * 8 + END_GROUP);
      size := inner + VarintSize32(n * 8 + END_GROUP);
  }

  // ---- Parts of messages ----

  /** The value AddVarint stores for an int: sign-extended to 64 bits. */
  function SignExtended(v: uint32): nat {
    if v < TWO_31 then v else v + (TWO_64 - TWO_32)
  }

  lemma SignExtendedKeepsLow(v: uint32)
    ensures SignExtended(v) % TWO_32 == v && SignExtended(v) < TWO_64
  {
  }

  function VarintPart(tag: byte, v: Option<uint32>): seq<byte> {
    if v.None? then [] else [tag] + Varint(v.value)
  }

  function StringPart(tag: byte, data: Option<seq<byte>>): seq<byte> {
    if data.None? then [] else [tag] + (Varint(|data.value|) + data.value)
  }

  function VarintPartSize(v: Option<uint32>): nat {
    if v.None? then 0 else 1 + VarintSize32(v.value)
  }

  function StringPartSize(data: Option<seq<byte>>): nat
    requires data.Some? ==> |data.value| < TWO_31
  {
    if data.None? then 0 else 1 + VarintSize32(|data.value|) + |data.value|
  }

  lemma PartSizes(v: Option<uint32>, data: Option<seq<byte>>, tag: byte)
    requires data.Some? ==> |data.value| < TWO_31
    ensures VarintPartSize(v) == |VarintPart(tag, v)| && StringPartSize(data) == |StringPart(tag, data)|
  {
    if v.Some? { VarintSizeIsLength(v.value); }
    if data.Some? { VarintSizeIsLength(|data.value|); }
  }

  /** Writes one part; `left` is what is still to be written. */
  method Append(out: seq<byte>, part: seq<byte>, ghost left: seq<byte>) returns (more: seq<byte>)
    ensures more == out + part && more + left == out + (part + left)
  {
    more := out + part;
  }
}
