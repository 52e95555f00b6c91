/** GroupInfo on the wire, byte by byte: the layout itself, the enum field for every value, and
    input that does not end where a message ends. */
module GroupInputs {
  import opened Basics
  import opened Wire
  import opened WireInputs
  import opened GroupInfos

  // ---- The layout ----

  lemma PartsOnTheWire()
    ensures VarintPart(8, Some(1)) == [8, 1] && VarintPart(16, Some(2)) == [16, 2]
    ensures StringPart(26, Some([97])) == [26, 1, 97] && StringPart(34, Some([98, 99])) == [34, 2, 98, 99]
    ensures VarintPart(40, Some(300)) == [40, 172, 2] && VarintPart(48, Some(2)) == [48, 2]
    ensures VarintPart(56, Some(0)) == [56, 0]
  {
    OneByteVarint(0);
    OneByteVarint(1);
    OneByteVarint(2);
    TwoByteTag(300);
    hide Varint;
  }

  lemma MembersOnTheWire()
    ensures MembersPart([5, 4]) == [64, 5, 64, 4]
  {
    OneByteVarint(4);
    OneByteVarint(5);
    hide Varint;
    assert [5, 4][1..] == [4] && [4][1..] == [];
    assert MembersPart([4]) == [64, 4];
  }

  /** A message with every field set, and its bytes: fields in number order, each behind its
      tag, strings behind their length, members one by one. */
  lemma GroupInfoOnTheWire()
    ensures Encode(GroupInfo(Some(1), Some(2), Some([97]), Some([98, 99]), Some(300), Some(2), Some(0), [5, 4], [])) ==
      [8, 1, 16, 2, 26, 1, 97, 34, 2, 98, 99, 40, 172, 2, 48, 2, 56, 0, 64, 5, 64, 4]
  {
    PartsOnTheWire();
    MembersOnTheWire();
    assert EncodeUnknown([]) == [];
    hide VarintPart, StringPart, MembersPart, EncodeUnknown;
  }

  // ---- The enum field ----

  /** group_type takes exactly the values 1 and 2; any other is kept, sign-extended to 64 bits,
      as an unknown field. */
  lemma EnumFieldExactly(v: uint32)
    ensures Plain([48] + Varint(v), EMPTY) ==
      Parsed(if v == 1 || v == 2 then EMPTY.(groupType := Some(v))
             else EMPTY.(unknown := [UVarint(6, if v < 0x8000_0000 then v else v + 0xFFFF_FFFF_0000_0000)]), true)
  {
    hide Varint;
    assert Varint(v) + [] == Varint(v);
    Uint32RoundTrip(v, []);
    ReadShortTag(48, Varint(v));
    PlainStep([48] + Varint(v), 48, Varint(v), EMPTY);
    assert Plain([], SetVarint(EMPTY, 48, v)) == Parsed(SetVarint(EMPTY, 48, v), true);
    assert [] + [UVarint(6, SignExtended(v))] == [UVarint(6, SignExtended(v))];
  }

  // ---- Input that goes on ----

  lemma BrokenTag(tail: seq<byte>)
    requires tail != [] && forall i :: 0 <= i < |tail| ==> tail[i] >= 128
    ensures ReadTag(tail) == TagRead(0, tail, false)
  {
    AllContinued(tail);
    ReadRawExactlyWhen(tail, MAX_VARINT_BYTES);
  }

  lemma NoTagStops(tail: seq<byte>, m: GroupInfo)
    requires ReadTag(tail) == TagRead(0, tail, false)
    ensures Plain(tail, m) == Parsed(m, false)
  {
  }

  /** A tag that never ends is left over, and the whole input refused. */
  lemma BrokenTagIsLeftOver(m: GroupInfo, tail: seq<byte>)
    requires Holdable(m) && tail != [] && forall i :: 0 <= i < |tail| ==> tail[i] >= 128
    ensures Plain(Encode(m) + tail, EMPTY) == Parsed(m, false)
    ensures ParseFromString(Encode(m) + tail) == None
  {
    hide Encode, Holdable, ReadTag, Plain;
    BrokenTag(tail);
    NoTagStops(tail, m);
    EncodedIsMerged(m, tail, EMPTY);
    assert MergeFrom(EMPTY, m) == m;
  }

  lemma {:induction false} AllContinued(bs: seq<byte>)
    requires forall i :: 0 <= i < |bs| ==> bs[i] >= 128
    ensures Continued(bs) == |bs|
    decreases |bs|
  {
    if bs != [] { AllContinued(bs[1..]); }
  }

  /** A field whose data is cut short makes the parse fail, whatever was read before. */
  lemma TruncatedFieldFails(m: GroupInfo, name: seq<byte>, k: nat)
    requires Holdable(m) && |name| < TWO_31 && k < |Varint(|name|) + name|
    ensures Plain(Encode(m) + ([26] + (Varint(|name|) + name)[..k]), EMPTY) == Failed
  {
    var cut := (Varint(|name|) + name)[..k];
    TruncatedDataFails(name, k);
    EncodedIsMerged(m, [26] + cut, EMPTY);
    assert MergeFrom(EMPTY, m) == m;
    ReadShortTag(26, cut);
    PlainStep([26] + cut, 26, cut, m);
    hide Encode, Holdable, Plain, Varint;
  }
}
