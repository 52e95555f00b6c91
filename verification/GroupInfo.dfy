/** The GroupInfo message: its generated parser, printer, sizer and merge. */
module GroupInfos {
  import opened Basics
  import opened Wire

  /** A has-bit with its value is an Option. */
  datatype GroupInfo = GroupInfo(
    groupId: Option<uint32>,
    version: Option<uint32>,
    groupName: Option<seq<byte>>,
    groupAvatar: Option<seq<byte>>,
    groupCreatorId: Option<uint32>,
    groupType: Option<uint32>,
    shieldStatus: Option<uint32>,
    members: seq<uint32>,
    unknown: seq<UnknownField>)

  const EMPTY := GroupInfo(None, None, None, None, None, None, None, [], [])

  predicate GroupTypeIsValid(value: uint32) {
    value == 1 || value == 2
  }

  predicate IsInitialized(m: GroupInfo) {
    && m.groupId.Some? && m.version.Some? && m.groupName.Some? && m.groupAvatar.Some?
    && m.groupCreatorId.Some? && m.groupType.Some? && m.shieldStatus.Some?
  }

  function Second<T>(a: Option<T>, b: Option<T>): Option<T> {
    if b.Some? then b else a
  }

  /** Present scalars of b win, lists are joined. */
  function MergeFrom(a: GroupInfo, b: GroupInfo): GroupInfo {
    GroupInfo(Second(a.groupId, b.groupId), Second(a.version, b.version), Second(a.groupName, b.groupName),
              Second(a.groupAvatar, b.groupAvatar), Second(a.groupCreatorId, b.groupCreatorId),
              Second(a.groupType, b.groupType), Second(a.shieldStatus, b.shieldStatus),
              a.members + b.members, a.unknown + b.unknown)
  }

  // ---- The plain reader: read a tag, switch on it ----

  datatype Outcome = Failed | Parsed(msg: GroupInfo, atEnd: bool)

  function ReadPacked(bs: seq<byte>): Option<seq<uint32>>
    decreases |bs|
  {
    if bs == [] then Some([])
    else match ReadVarint32(bs)
      case None => None
      case Some((v, rest)) =>
        match ReadPacked(rest)
        case None => None
        case Some(vs) => Some([v] + vs)
  }

  predicate IsVarintTag(tag: uint32) {
    tag == 8 || tag == 16 || tag == 40 || tag == 48 || tag == 56 || tag == 64
  }

  predicate IsStringTag(tag: uint32) {
    tag == 26 || tag == 34
  }

  predicate IsKnownTag(tag: uint32) {
    IsVarintTag(tag) || IsStringTag(tag) || tag == 66
  }

  function SetVarint(m: GroupInfo, tag: uint32, v: uint32): GroupInfo
    requires IsVarintTag(tag)
  {
    if tag == 8 then m.(groupId := Some(v))
    else if tag == 16 then m.(version := Some(v))
    else if tag == 40 then m.(groupCreatorId := Some(v))
    else if tag == 48 then
      if GroupTypeIsValid(v) then m.(groupType := Some(v))
      else m.(unknown := m.unknown + [UVarint(6, SignExtended(v))])
    else if tag == 56 then m.(shieldStatus := Some(v))
    else m.(members := m.members + [v])
  }

  function SetString(m: GroupInfo, tag: uint32, data: seq<byte>): GroupInfo
    requires IsStringTag(tag)
  {
    if tag == 26 then m.(groupName := Some(data)) else m.(groupAvatar := Some(data))
  }

  /** Reads the field whose tag was just read. */
  function ReadField(tag: uint32, bs: seq<byte>, m: GroupInfo): (r: Option<(GroupInfo, seq<byte>)>)
    ensures r.Some? ==> |r.value.1| <= |bs|
  {
    if IsVarintTag(tag) then
      match ReadVarint32(bs)
      case None => None
      case Some((v, rest)) => Some((SetVarint(m, tag, v), rest))
    else if IsStringTag(tag) then
      match ReadBytes(bs)
      case None => None
      case Some((data, rest)) => Some((SetString(m, tag, data), rest))
    else if tag == 66 then
      match ReadVarint32(bs)
      case None => None
      case Some((n, rest)) =>
        var k := Limited(n, rest);
        match ReadPacked(rest[..k])
        case None => None
        case Some(vs) => Some((m.(members := m.members + vs), rest[k..]))
    else
      match SkipField(tag, bs, 0)
      case None => None
      case Some((f, rest)) => Some((m.(unknown := m.unknown + [f]), rest))
  }

  function Plain(bs: seq<byte>, m: GroupInfo): Outcome
    decreases |bs|, 0
  {
    var t := ReadTag(bs);
    if t.tag == 0 || t.tag % 8 == END_GROUP then Parsed(m, t.atEnd)
    else AfterTag(t.tag, t.rest, m)
  }

  function AfterTag(tag: uint32, bs: seq<byte>, m: GroupInfo): Outcome
    decreases |bs|, 1
  {
    match ReadField(tag, bs, m)
    case None => Failed
    case Some((next, rest)) => Plain(rest, next)
  }

  // ---- The generated parser ----

  /** The jump targets of the generated code. */
  datatype Label = Top | ParseVersion | ParseName | ParseAvatar | ParseCreator | ParseType | ParseShield | ParseMembers

  function LabelTag(l: Label): uint32
    requires !l.Top?
  {
    match l
    case ParseVersion => 16
    case ParseName => 26
    case ParseAvatar => 34
    case ParseCreator => 40
    case ParseType => 48
    case ParseShield => 56
    case ParseMembers => 64
  }

  /** What the plain reader makes of the input left at a label. */
  function From(l: Label, bs: seq<byte>, m: GroupInfo): Outcome {
    if l.Top? then Plain(bs, m) else AfterTag(LabelTag(l), bs, m)
  }

  lemma JumpIsPlain(l: Label, bs: seq<byte>, rest: seq<byte>, m: GroupInfo)
    requires !l.Top? && ReadTag(bs) == TagRead(LabelTag(l), rest, false)
    ensures From(l, rest, m) == Plain(bs, m)
  {
  }

  /** A jump taken or not, the plain reader's result stays the same. */
  method ExpectLabel(l: Label, bs: seq<byte>, m: GroupInfo) returns (next: Label, rest: seq<byte>)
    requires !l.Top?
    ensures From(next, rest, m) == Plain(bs, m)
    ensures (next == l && |rest| < |bs|) || (next == Top && rest == bs)
  {
    var yes;
    yes, rest := ExpectTag(LabelTag(l), bs);
    if yes { JumpIsPlain(l, bs, rest, m); }
    next := if yes then l else Top;
  }

  /** ReadRepeatedPrimitive: one value, then as many more as there is reserved room and
      the same tag follows directly. */
  method ReadRepeated(bs: seq<byte>, m: GroupInfo) returns (ok: bool, next: GroupInfo, rest: seq<byte>)
    ensures ok ==> Plain(rest, next) == AfterTag(64, bs, m) && |rest| < |bs|
    ensures !ok ==> AfterTag(64, bs, m) == Failed
  {
    next, rest := m, bs;
    var first := ReadVarint32(rest);
    if first.None? {
      return false, next, rest;
    }
    next, rest := next.(members := next.members + [first.value.0]), first.value.1;
    var reserved: nat := *;
    while reserved > 0
      invariant Plain(rest, next) == AfterTag(64, bs, m) && |rest| < |bs|
      decreases reserved
    {
      var label_, behind := ExpectLabel(ParseMembers, rest, next);
      if label_.Top? {
        break;
      }
      var more := ReadVarint32(behind);
      if more.None? {
        return false, next, rest;
      }
      next, rest := next.(members := next.members + [more.value.0]), more.value.1;
      reserved := reserved - 1;
    }
    ok := true;
  }

  /** The generated MergePartialFromCodedStream, with its jumps from one field straight to
      the next expected one, gives for every input what the plain reader gives. */
  method MergePartialFromCodedStream(input: seq<byte>, into: GroupInfo) returns (r: Outcome)
    ensures r == Plain(input, into)
  {
    var label_, bs, m := Top, input, into;
    while true
      invariant From(label_, bs, m) == Plain(input, into)
      decreases |bs|
    {
      var tag := 0;
      var at := bs;
      if label_.Top? {
        var t := ReadTag(bs);
        tag, at := t.tag, t.rest;
        if tag == 0 || tag % 8 == END_GROUP {
          return Parsed(m, t.atEnd);
        }
        if tag > 127 || !IsKnownTag(tag) {
          assert Plain(bs, m) == AfterTag(tag, at, m);
          var skipped := SkipField(tag, at, 0);
          if skipped.None? {
            return Failed;
          }
          m, bs := m.(unknown := m.unknown + [skipped.value.0]), skipped.value.1;
          continue;
        }
      } else {
        tag := LabelTag(label_);
      }
      assert From(label_, bs, m) == AfterTag(tag, at, m);
      if IsStringTag(tag) {
        var data := ReadBytes(at);
        if data.None? {
          return Failed;
        }
        m := SetString(m, tag, data.value.0);
        label_, bs := ExpectLabel(if tag == 26 then ParseAvatar else ParseCreator, data.value.1, m);
      } else if tag == 64 || tag == 66 {
        var ok, rest := true, at;
        if tag == 64 {
          ok, m, rest := ReadRepeated(at, m);
        } else {
          ok, m, rest := ReadPackedPrimitive(at, m);
        }
        if !ok {
          return Failed;
        }
        label_, bs := ExpectLabel(ParseMembers, rest, m);
        var looks: bool := *;
        if label_.Top? && looks && bs == [] {
          return Parsed(m, true);
        }
      } else {
        var v := ReadVarint32(at);
        if v.None? {
          return Failed;
        }
        m := SetVarint(m, tag, v.value.0);
        label_, bs := ExpectLabel(if tag == 8 then ParseVersion else if tag == 16 then ParseName
                                else if tag == 40 then ParseType else if tag == 48 then ParseShield else ParseMembers,
                                v.value.1, m);
      }
    }
  }

  method ReadPackedPrimitive(bs: seq<byte>, m: GroupInfo) returns (ok: bool, next: GroupInfo, rest: seq<byte>)
    ensures ok <==> ReadField(66, bs, m).Some?
    ensures ok ==> ReadField(66, bs, m) == Some((next, rest)) && |rest| < |bs|
  {
    next, rest := m, bs;
    var length := ReadVarint32(bs);
    if length.None? {
      return false, next, rest;
    }
    var k := Limited(length.value.0, length.value.1);
    rest := length.value.1[k..];
    var values;
    ok, values := ReadPackedValues(length.value.1[..k]);
    next := m.(members := m.members + values);
  }

  /** Reads values until the pushed limit. */
  method ReadPackedValues(bs: seq<byte>) returns (ok: bool, values: seq<uint32>)
    ensures ok <==> ReadPacked(bs).Some?
    ensures ok ==> ReadPacked(bs) == Some(values)
  {
    var inside := bs;
    values := [];
    while inside != []
      invariant ReadPacked(inside).Some? <==> ReadPacked(bs).Some?
      invariant ReadPacked(bs).Some? ==> ReadPacked(bs).value == values + ReadPacked(inside).value
      decreases |inside|
    {
      var v := ReadVarint32(inside);
      if v.None? {
        return false, values;
      }
      values := values + [v.value.0];
      inside := v.value.1;
    }
    assert values + [] == values;
    ok := true;
  }

  // ---- Packed lists ----

  /** What a packed list holds behind its length. */
  function PackedBytes(vs: seq<uint32>): seq<byte> {
    if vs == [] then [] else Varint(vs[0]) + PackedBytes(vs[1..])
  }

  /** A packed list is read back value by value, in order. */
  lemma {:induction false} PackedIsRead(vs: seq<uint32>)
    ensures ReadPacked(PackedBytes(vs)) == Some(vs)
    decreases |vs|
  {
    hide Varint;
    if vs != [] {
      PackedIsRead(vs[1..]);
      Uint32RoundTrip(vs[0], PackedBytes(vs[1..]));
      assert [vs[0]] + vs[1..] == vs;
    }
  }

  function PackedPart(vs: seq<uint32>): seq<byte> {
    [66] + (Varint(|PackedBytes(vs)|) + PackedBytes(vs))
  }

  lemma PackedFieldRead(vs: seq<uint32>, rest: seq<byte>, m: GroupInfo)
    requires |PackedBytes(vs)| < TWO_31
    ensures ReadField(66, Varint(|PackedBytes(vs)|) + PackedBytes(vs) + rest, m) ==
      Some((m.(members := m.members + vs), rest))
  {
    hide PackedBytes, Varint, ReadPacked;
    var n, tail := |PackedBytes(vs)|, PackedBytes(vs) + rest;
    Uint32RoundTrip(n, tail);
    Assoc(Varint(n), PackedBytes(vs), rest);
    SplitAgain(PackedBytes(vs), rest);
    PackedIsRead(vs);
  }

  /** The packed and the unpacked form of a member list are read alike, whatever follows. */
  lemma PackedIsUnpacked(vs: seq<uint32>, rest: seq<byte>, m: GroupInfo)
    requires |PackedBytes(vs)| < TWO_31
    ensures Plain(PackedPart(vs) + rest, m) == Plain(rest, m.(members := m.members + vs))
    ensures Plain(MembersPart(vs) + rest, m) == Plain(PackedPart(vs) + rest, m)
  {
    hide PackedBytes, Varint, Plain, MembersPart, ReadField;
    var body := Varint(|PackedBytes(vs)|) + PackedBytes(vs);
    Assoc([66], body, rest);
    ReadShortTag(66, body + rest);
    PlainStep(PackedPart(vs) + rest, 66, body + rest, m);
    PackedFieldRead(vs, rest, m);
    MembersPartRead(vs, 0, rest, m);
    assert vs[0..] == vs && m.members + vs[..0] == m.members;
  }

  /** A length that runs past the end of the input takes what is there. */
  lemma OverlongPackedIsRead(vs: seq<uint32>, n: uint32, m: GroupInfo)
    requires n >= |PackedBytes(vs)|
    ensures ReadField(66, Varint(n) + PackedBytes(vs), m) == Some((m.(members := m.members + vs), []))
  {
    hide PackedBytes, Varint, ReadPacked;
    var bs := PackedBytes(vs);
    Uint32RoundTrip(n, bs);
    assert bs[..|bs|] == bs && bs[|bs|..] == [];
    PackedIsRead(vs);
  }

  // ---- The printer and the sizer ----

  function MembersPart(vs: seq<uint32>): seq<byte> {
    if vs == [] then [] else [64] + Varint(vs[0]) + MembersPart(vs[1..])
  }

  /** Fields in number order, then the unknown fields. */
  function Encode(m: GroupInfo): seq<byte> {
    VarintPart(8, m.groupId) + (VarintPart(16, m.version) + (StringPart(26, m.groupName) +
    (StringPart(34, m.groupAvatar) + (VarintPart(40, m.groupCreatorId) + (VarintPart(48, m.groupType) +
    (VarintPart(56, m.shieldStatus) + (MembersPart(m.members) + EncodeUnknown(m.unknown))))))))
  }

  /** An unknown field that no reader would have understood: a foreign tag, or a group_type
      with an undeclared enum value. */
  ghost predicate Foreign(f: UnknownField) {
    Storable(f, 0) && (IsKnownTag(TagOf(f)) ==>
      f.UVarint? && f.number == 6 && !GroupTypeIsValid(f.value % TWO_32) && f.value == SignExtended(f.value % TWO_32))
  }

  /** What a GroupInfo object can hold: a declared group_type, strings with an int length. */
  ghost predicate Holdable(m: GroupInfo) {
    && (m.groupType.Some? ==> GroupTypeIsValid(m.groupType.value))
    && (m.groupName.Some? ==> |m.groupName.value| < TWO_31)
    && (m.groupAvatar.Some? ==> |m.groupAvatar.value| < TWO_31)
    && forall j :: 0 <= j < |m.unknown| ==> Foreign(m.unknown[j])
  }

  method SerializeWithCachedSizes(m: GroupInfo) returns (out: seq<byte>)
    ensures out == Encode(m)
  {
    ghost var r8 := MembersPart(m.members) + EncodeUnknown(m.unknown);
    ghost var r7 := VarintPart(56, m.shieldStatus) + r8;
    ghost var r6 := VarintPart(48, m.groupType) + r7;
    ghost var r5 := VarintPart(40, m.groupCreatorId) + r6;
    ghost var r4 := StringPart(34, m.groupAvatar) + r5;
    ghost var r3 := StringPart(26, m.groupName) + r4;
    out := VarintPart(8, m.groupId);
    out := Append(out, VarintPart(16, m.version), r3);
    out := Append(out, StringPart(26, m.groupName), r4);
    out := Append(out, StringPart(34, m.groupAvatar), r5);
    out := Append(out, VarintPart(40, m.groupCreatorId), r6);
    out := Append(out, VarintPart(48, m.groupType), r7);
    out := Append(out, VarintPart(56, m.shieldStatus), r8);
    assert out + r8 == Encode(m);
    ghost var scalars := out;
    for i := 0 to |m.members|
      invariant out + MembersPart(m.members[i..]) == scalars + MembersPart(m.members)
    {
      assert m.members[i..][1..] == m.members[i + 1..];
      out := out + ([64] + Varint(m.members[i]));
    }
    assert out == scalars + MembersPart(m.members);
    out := Append(out, EncodeUnknown(m.unknown), []);
    Assoc(scalars, MembersPart(m.members), EncodeUnknown(m.unknown));
  }

  /** The sizer adds up sizes without printing anything, and agrees with the printer. */
  method ByteSize(m: GroupInfo) returns (total: nat)
    requires Holdable(m)
    ensures total == |Encode(m)|
  {
    total := VarintPartSize(m.groupId) + VarintPartSize(m.version) + StringPartSize(m.groupName)
      + StringPartSize(m.groupAvatar) + VarintPartSize(m.groupCreatorId) + VarintPartSize(m.groupType)
      + VarintPartSize(m.shieldStatus);
    PartSizes(m.groupId, m.groupName, 8);
    PartSizes(m.version, m.groupName, 16);
    PartSizes(m.groupCreatorId, m.groupName, 26);
    PartSizes(m.groupCreatorId, m.groupAvatar, 34);
    PartSizes(m.groupCreatorId, m.groupAvatar, 40);
    PartSizes(m.groupType, m.groupAvatar, 48);
    PartSizes(m.shieldStatus, m.groupAvatar, 56);
    var dataSize := 0;
    for i := 0 to |m.members|
      invariant i + dataSize + |MembersPart(m.members[i..])| == |MembersPart(m.members)|
    {
      VarintSizeIsLength(m.members[i]);
      assert m.members[i..][1..] == m.members[i + 1..];
      dataSize := dataSize + VarintSize32(m.members[i]);
    }
    total := total + |m.members| + dataSize;
    forall j | 0 <= j < |m.unknown| ensures Typed(m.unknown[j]) {
      StorableIsTyped(m.unknown[j], 0);
    }
    var unknown := ComputeUnknownFieldsSize(m.unknown);
    total := total + unknown;
  }

  // ---- Reading back what was printed ----

  lemma PlainStep(bs: seq<byte>, tag: uint32, rest: seq<byte>, m: GroupInfo)
    requires ReadTag(bs) == TagRead(tag, rest, false) && tag != 0 && tag % 8 != END_GROUP
    ensures Plain(bs, m) == AfterTag(tag, rest, m)
  {
  }

  lemma VarintPartRead(tag: byte, v: Option<uint32>, rest: seq<byte>, m: GroupInfo)
    requires IsVarintTag(tag)
    ensures Plain(VarintPart(tag, v) + rest, m) == Plain(rest, if v.Some? then SetVarint(m, tag, v.value) else m)
  {
    var bs := VarintPart(tag, v) + rest;
    if v.Some? {
      var body := Varint(v.value) + rest;
      assert bs == [tag] + body;
      ReadShortTag(tag, body);
      PlainStep(bs, tag, body, m);
      Uint32RoundTrip(v.value, rest);
    } else {
      assert bs == rest;
    }
  }

  lemma StringPartRead(tag: byte, data: Option<seq<byte>>, rest: seq<byte>, m: GroupInfo)
    requires IsStringTag(tag) && (data.Some? ==> |data.value| < TWO_31)
    ensures Plain(StringPart(tag, data) + rest, m) == Plain(rest, if data.Some? then SetString(m, tag, data.value) else m)
  {
    var bs := StringPart(tag, data) + rest;
    if data.Some? {
      var body := Varint(|data.value|) + data.value + rest;
      assert bs == [tag] + body;
      ReadShortTag(tag, body);
      PlainStep(bs, tag, body, m);
      ReadBytesOf(data.value, rest);
    } else {
      assert bs == rest;
    }
  }

  lemma FirstMemberRead(vs: seq<uint32>, rest: seq<byte>, m: GroupInfo)
    requires vs != []
    ensures Plain(MembersPart(vs) + rest, m) == Plain(MembersPart(vs[1..]) + rest, m.(members := m.members + [vs[0]]))
  {
    var part, more := VarintPart(64, Some(vs[0])), MembersPart(vs[1..]);
    Assoc(part, more, rest);
    VarintPartRead(64, Some(vs[0]), more + rest, m);
  }

  lemma {:induction false} MembersPartRead(vs: seq<uint32>, i: nat, rest: seq<byte>, m: GroupInfo)
    requires i <= |vs|
    ensures Plain(MembersPart(vs[i..]) + rest, m.(members := m.members + vs[..i])) ==
      Plain(rest, m.(members := m.members + vs))
    decreases |vs| - i
  {
    if i == |vs| {
      assert MembersPart(vs[i..]) + rest == rest && vs[..i] == vs;
    } else {
      SliceStep(vs, i);
      PrefixStep(m.members, vs, i);
      FirstMemberRead(vs[i..], rest, m.(members := m.members + vs[..i]));
      MembersPartRead(vs, i + 1, rest, m);
    }
  }

  lemma ForeignRead(f: UnknownField, rest: seq<byte>, m: GroupInfo)
    requires Foreign(f)
    ensures Plain(Varint(TagOf(f)) + (Body(f) + rest), m) == Plain(rest, m.(unknown := m.unknown + [f]))
  {
    var bs := Varint(TagOf(f)) + (Body(f) + rest);
    TagParts(f);
    ReadTagOf(TagOf(f), Body(f) + rest);
    PlainStep(bs, TagOf(f), Body(f) + rest, m);
    if IsKnownTag(TagOf(f)) {
      Varint32RoundTrip(f.value, rest);
    } else {
      SkipOfBody(f, 0, rest);
    }
  }

  lemma FirstUnknownRead(fs: seq<UnknownField>, rest: seq<byte>, m: GroupInfo)
    requires fs != [] && Foreign(fs[0])
    ensures Plain(EncodeUnknown(fs) + rest, m) ==
      Plain(EncodeUnknown(fs[1..]) + rest, m.(unknown := m.unknown + [fs[0]]))
  {
    EncodeUnknownSplit(fs, rest);
    ForeignRead(fs[0], EncodeUnknown(fs[1..]) + rest, m);
  }

  lemma {:induction false} UnknownRead(fs: seq<UnknownField>, i: nat, rest: seq<byte>, m: GroupInfo)
    requires i <= |fs| && forall j :: 0 <= j < |fs| ==> Foreign(fs[j])
    ensures Plain(EncodeUnknown(fs[i..]) + rest, m.(unknown := m.unknown + fs[..i])) ==
      Plain(rest, m.(unknown := m.unknown + fs))
    decreases |fs| - i
  {
    if i == |fs| {
      assert EncodeUnknown(fs[i..]) + rest == rest && fs[..i] == fs;
    } else {
      SliceStep(fs, i);
      PrefixStep(m.unknown, fs, i);
      FirstUnknownRead(fs[i..], rest, m.(unknown := m.unknown + fs[..i]));
      UnknownRead(fs, i + 1, rest, m);
    }
  }

  lemma RepeatedRead(vs: seq<uint32>, fs: seq<UnknownField>, rest: seq<byte>, m: GroupInfo)
    requires forall j :: 0 <= j < |fs| ==> Foreign(fs[j])
    ensures Plain(MembersPart(vs) + (EncodeUnknown(fs) + rest), m) ==
      Plain(rest, m.(members := m.members + vs, unknown := m.unknown + fs))
  {
    hide Plain;
    var next := m.(members := m.members + vs);
    MembersPartRead(vs, 0, EncodeUnknown(fs) + rest, m);
    UnknownRead(fs, 0, rest, next);
    assert vs[0..] == vs && fs[0..] == fs;
    assert m.members + vs[..0] == m.members && m.unknown + fs[..0] == m.unknown;
  }

  /** The encoding followed by rest, with the parts split off one by one. */
  lemma EncodeRegrouped(m: GroupInfo, rest: seq<byte>)
    ensures Encode(m) + rest == VarintPart(8, m.groupId) + (VarintPart(16, m.version) +
      (StringPart(26, m.groupName) + (StringPart(34, m.groupAvatar) + (VarintPart(40, m.groupCreatorId) +
      (VarintPart(48, m.groupType) + (VarintPart(56, m.shieldStatus) + (MembersPart(m.members) +
      (EncodeUnknown(m.unknown) + rest))))))))
  {
    var p9 := EncodeUnknown(m.unknown);
    var p8 := MembersPart(m.members) + p9;
    var p7 := VarintPart(56, m.shieldStatus) + p8;
    var p6 := VarintPart(48, m.groupType) + p7;
    var p5 := VarintPart(40, m.groupCreatorId) + p6;
    var p4 := StringPart(34, m.groupAvatar) + p5;
    var p3 := StringPart(26, m.groupName) + p4;
    var p2 := VarintPart(16, m.version) + p3;
    Assoc(VarintPart(8, m.groupId), p2, rest);
    Assoc(VarintPart(16, m.version), p3, rest);
    Assoc(StringPart(26, m.groupName), p4, rest);
    Assoc(StringPart(34, m.groupAvatar), p5, rest);
    Assoc(VarintPart(40, m.groupCreatorId), p6, rest);
    Assoc(VarintPart(48, m.groupType), p7, rest);
    Assoc(VarintPart(56, m.shieldStatus), p8, rest);
    Assoc(MembersPart(m.members), p9, rest);
  }

  /** Reading an encoded message into another one merges them, whatever follows. */
  lemma EncodedIsMerged(m: GroupInfo, rest: seq<byte>, into: GroupInfo)
    requires Holdable(m)
    ensures Plain(Encode(m) + rest, into) == Plain(rest, MergeFrom(into, m))
  {
    var r8 := MembersPart(m.members) + (EncodeUnknown(m.unknown) + rest);
    var r7 := VarintPart(56, m.shieldStatus) + r8;
    var r6 := VarintPart(48, m.groupType) + r7;
    var r5 := VarintPart(40, m.groupCreatorId) + r6;
    var r4 := StringPart(34, m.groupAvatar) + r5;
    var r3 := StringPart(26, m.groupName) + r4;
    var r2 := VarintPart(16, m.version) + r3;
    EncodeRegrouped(m, rest);
    VarintPartRead(8, m.groupId, r2, into);
    var m1 := into.(groupId := Second(into.groupId, m.groupId));
    VarintPartRead(16, m.version, r3, m1);
    var m2 := m1.(version := Second(into.version, m.version));
    StringPartRead(26, m.groupName, r4, m2);
    var m3 := m2.(groupName := Second(into.groupName, m.groupName));
    StringPartRead(34, m.groupAvatar, r5, m3);
    var m4 := m3.(groupAvatar := Second(into.groupAvatar, m.groupAvatar));
    VarintPartRead(40, m.groupCreatorId, r6, m4);
    var m5 := m4.(groupCreatorId := Second(into.groupCreatorId, m.groupCreatorId));
    VarintPartRead(48, m.groupType, r7, m5);
    var m6 := m5.(groupType := Second(into.groupType, m.groupType));
    VarintPartRead(56, m.shieldStatus, r8, m6);
    var m7 := m6.(shieldStatus := Second(into.shieldStatus, m.shieldStatus));
    RepeatedRead(m.members, m.unknown, rest, m7);
  }

  /** Parsing the concatenation of two encodings is merging the two messages. */
  lemma ConcatenationIsMerge(a: GroupInfo, b: GroupInfo)
    requires Holdable(a) && Holdable(b)
    ensures Plain(Encode(a) + Encode(b), EMPTY) == Parsed(MergeFrom(a, b), true)
  {
    hide Plain, Encode, Holdable;
    EncodedIsMerged(a, Encode(b), EMPTY);
    assert MergeFrom(EMPTY, a) == a;
    EncodedAlone(b, a);
  }

  lemma EncodedAlone(m: GroupInfo, into: GroupInfo)
    requires Holdable(m)
    ensures Plain(Encode(m), into) == Parsed(MergeFrom(into, m), true)
  {
    hide Encode, Holdable;
    EncodedIsMerged(m, [], into);
    assert Encode(m) + [] == Encode(m);
  }

  /** ParseFromString: the whole input must be read and every required field present. */
  function ParseFromString(bs: seq<byte>): Option<GroupInfo> {
    match Plain(bs, EMPTY)
    case Failed => None
    case Parsed(m, atEnd) => if atEnd && IsInitialized(m) then Some(m) else None
  }

  /** parse(serialize(m)) == m, unknown fields included. */
  lemma RoundTrip(m: GroupInfo)
    requires Holdable(m)
    ensures Plain(Encode(m), EMPTY) == Parsed(m, true)
    ensures IsInitialized(m) ==> ParseFromString(Encode(m)) == Some(m)
  {
    hide Plain, Encode, Holdable;
    EncodedAlone(m, EMPTY);
    assert MergeFrom(EMPTY, m) == m;
  }

  /** ParseFromString takes a printed message exactly when every required field is set. */
  lemma RequiredFieldsDecide(m: GroupInfo)
    requires Holdable(m)
    ensures ParseFromString(Encode(m)) ==
      if m.groupId == None || m.version == None || m.groupName == None || m.groupAvatar == None
        || m.groupCreatorId == None || m.groupType == None || m.shieldStatus == None
      then None else Some(m)
  {
    hide Plain, Encode, Holdable;
    RoundTrip(m);
  }

  /** It refuses whatever does not end where a message ends: a zero tag or an end tag stops
      the parser, and what is behind it is left over. */
  lemma StopsBeforeTheEnd(m: GroupInfo, stop: byte, rest: seq<byte>)
    requires Holdable(m) && (stop == 0 || (stop < 128 && stop % 8 == END_GROUP))
    ensures Plain(Encode(m) + ([stop] + rest), EMPTY) == Parsed(m, false)
    ensures ParseFromString(Encode(m) + ([stop] + rest)) == None
  {
    EncodedIsMerged(m, [stop] + rest, EMPTY);
    assert MergeFrom(EMPTY, m) == m;
    ReadShortTag(stop, rest);
    hide Encode, Holdable;
  }

  lemma {:induction false} ParsedIsHoldable(bs: seq<byte>, m: GroupInfo)
    requires Holdable(m)
    ensures Plain(bs, m).Parsed? ==> Holdable(Plain(bs, m).msg)
    decreases |bs|
  {
    var t := ReadTag(bs);
    if t.tag != 0 && t.tag % 8 != END_GROUP && ReadField(t.tag, t.rest, m).Some? {
      FieldKeepsHoldable(t.tag, t.rest, m);
      ParsedIsHoldable(ReadField(t.tag, t.rest, m).value.1, ReadField(t.tag, t.rest, m).value.0);
    }
  }

  lemma FieldKeepsHoldable(tag: uint32, bs: seq<byte>, m: GroupInfo)
    requires Holdable(m) && tag != 0 && ReadField(tag, bs, m).Some?
    ensures Holdable(ReadField(tag, bs, m).value.0)
  {
    if IsVarintTag(tag) {
      VarintKeepsHoldable(tag, ReadVarint32(bs).value.0, m);
    } else if !IsKnownTag(tag) {
      SkippedIsStorable(tag, bs, 0);
      UnknownKeepsHoldable(SkipField(tag, bs, 0).value.0, m);
    }
  }

  lemma InvalidTypeIsForeign(v: uint32)
    requires !GroupTypeIsValid(v)
    ensures Foreign(UVarint(6, SignExtended(v)))
  {
    SignExtendedKeepsLow(v);
  }

  lemma UnknownKeepsHoldable(f: UnknownField, m: GroupInfo)
    requires Holdable(m) && Foreign(f)
    ensures Holdable(m.(unknown := m.unknown + [f]))
  {
  }

  lemma VarintKeepsHoldable(tag: uint32, v: uint32, m: GroupInfo)
    requires Holdable(m) && IsVarintTag(tag)
    ensures Holdable(SetVarint(m, tag, v))
  {
    if tag == 48 && !GroupTypeIsValid(v) {
      InvalidTypeIsForeign(v);
      UnknownKeepsHoldable(UVarint(6, SignExtended(v)), m);
    }
  }

  /** For every input the parser accepts, printing the result and parsing again gives the
      same message: nothing read is lost, known or unknown. */
  lemma ReprintingLosesNothing(bs: seq<byte>)
    requires Plain(bs, EMPTY).Parsed?
    ensures Plain(Encode(Plain(bs, EMPTY).msg), EMPTY) == Parsed(Plain(bs, EMPTY).msg, true)
  {
    ParsedIsHoldable(bs, EMPTY);
    RoundTrip(Plain(bs, EMPTY).msg);
  }
}
