/** A response holding nested contact sessions: sizes are computed and cached bottom-up,
    then the printer writes each child behind its cached size. */
module ContactSessions {
  import opened Basics
  import opened Wire

  datatype Contact = Contact(
    sessionId: Option<uint32>,
    sessionType: Option<uint32>,
    sessionStatus: Option<uint32>,
    updatedTime: Option<uint32>,
    latestMsgId: Option<uint32>,
    latestMsgData: Option<seq<byte>>,
    latestMsgType: Option<uint32>,
    latestMsgFromUserId: Option<uint32>,
    unknown: seq<UnknownField>)

  datatype Response = Response(
    userId: Option<uint32>,
    contacts: seq<Contact>,
    attachData: Option<seq<byte>>,
    unknown: seq<UnknownField>)

  const NO_CONTACT := Contact(None, None, None, None, None, None, None, None, [])
  const NO_RESPONSE := Response(None, [], None, [])

  // ---- The encodings ----

  function Join(parts: seq<seq<byte>>): seq<byte> {
    if parts == [] then [] else parts[0] + Join(parts[1..])
  }

  /** Fields in number order, then the unknown fields. */
  function Parts(c: Contact): seq<seq<byte>> {
    [VarintPart(8, c.sessionId), VarintPart(16, c.sessionType), VarintPart(24, c.sessionStatus),
     VarintPart(32, c.updatedTime), VarintPart(40, c.latestMsgId), StringPart(50, c.latestMsgData),
     VarintPart(56, c.latestMsgType), VarintPart(64, c.latestMsgFromUserId), EncodeUnknown(c.unknown)]
  }

  function EncodeContact(c: Contact): seq<byte> {
    Join(Parts(c))
  }

  ghost function TotalLength(parts: seq<seq<byte>>): nat {
    if parts == [] then 0 else |parts[0]| + TotalLength(parts[1..])
  }

  lemma {:induction false} JoinLength(parts: seq<seq<byte>>)
    ensures |Join(parts)| == TotalLength(parts)
    decreases |parts|
  {
    if parts != [] { JoinLength(parts[1..]); }
  }

  /** The nine parts' sizes add up. */
  lemma NineParts(p: seq<seq<byte>>)
    requires |p| == 9
    ensures |Join(p)| == |p[0]| + |p[1]| + |p[2]| + |p[3]| + |p[4]| + |p[5]| + |p[6]| + |p[7]| + |p[8]|
  {
    JoinLength(p);
    assert TotalLength(p[8..]) == |p[8]|;
    forall i | 0 <= i < 9 ensures TotalLength(p[i..]) == |p[i]| + TotalLength(p[i + 1..]) {
      assert p[i..][1..] == p[i + 1..];
    }
    assert p[0..] == p && p[9..] == [];
  }

  function EncodeContacts(cs: seq<Contact>): seq<byte> {
    if cs == [] then [] else ContactPart(cs[0]) + EncodeContacts(cs[1..])
  }

  /** A child behind its true length. */
  function ContactPart(c: Contact): seq<byte> {
    [18] + (Varint(|EncodeContact(c)|) + EncodeContact(c))
  }

  /** attach_data is field 20, whose tag takes two bytes. */
  function AttachPart(data: Option<seq<byte>>): seq<byte> {
    if data.None? then [] else [162, 1] + (Varint(|data.value|) + data.value)
  }

  function AttachSize(data: Option<seq<byte>>): nat
    requires data.Some? ==> |data.value| < TWO_31
  {
    if data.None? then 0 else 2 + VarintSize32(|data.value|) + |data.value|
  }

  lemma AttachSizeIsLength(data: Option<seq<byte>>)
    requires data.Some? ==> |data.value| < TWO_31
    ensures AttachSize(data) == |AttachPart(data)|
  {
    if data.Some? { VarintSizeIsLength(|data.value|); }
  }

  function EncodeResponse(r: Response): seq<byte> {
    VarintPart(8, r.userId) + (EncodeContacts(r.contacts) + (AttachPart(r.attachData) + EncodeUnknown(r.unknown)))
  }

  /** The sizes of a contact fit an int. */
  ghost predicate Sized(c: Contact) {
    |EncodeContact(c)| < TWO_31 && Fielded(c)
  }

  /** What the types of a contact's fields allow. */
  ghost predicate Fielded(c: Contact) {
    (c.latestMsgData.Some? ==> |c.latestMsgData.value| < TWO_31) && AllTyped(c.unknown)
  }

  ghost predicate SizedAs(c: Contact, size: uint32) {
    Sized(c) && size == |EncodeContact(c)|
  }

  /** The sizes of the first i children, each behind its length prefix. */
  ghost function SumSizes(sizes: seq<uint32>, i: nat): nat
    requires i <= |sizes|
  {
    if i == 0 then 0 else SumSizes(sizes, i - 1) + VarintSize32(sizes[i - 1]) + sizes[i - 1]
  }

  lemma {:induction false} SumIsLength(cs: seq<Contact>, sizes: seq<uint32>, i: nat)
    requires i <= |cs| == |sizes| && forall j :: 0 <= j < |cs| ==> SizedAs(cs[j], sizes[j])
    ensures |cs| - i + SumSizes(sizes, |cs|) == SumSizes(sizes, i) + |EncodeContacts(cs[i..])|
    decreases |cs| - i
  {
    if i < |cs| {
      SumIsLength(cs, sizes, i + 1);
      SliceStep(cs, i);
      VarintSizeIsLength(sizes[i]);
      assert SizedAs(cs[i], sizes[i]);
    }
  }

  ghost function SizesOf(cs: seq<Contact>): (sizes: seq<uint32>)
    requires forall j :: 0 <= j < |cs| ==> Sized(cs[j])
    ensures |sizes| == |cs| && forall j :: 0 <= j < |cs| ==> SizedAs(cs[j], sizes[j])
  {
    seq(|cs|, i requires 0 <= i < |cs| => SizeOf(cs[i]))
  }

  ghost function SizeOf(c: Contact): uint32
    requires Sized(c)
  {
    |EncodeContact(c)|
  }

  lemma ResponseSize(r: Response, sizes: seq<uint32>)
    requires r.attachData.Some? ==> |r.attachData.value| < TWO_31
    requires |sizes| == |r.contacts| && forall j :: 0 <= j < |sizes| ==> SizedAs(r.contacts[j], sizes[j])
    ensures |EncodeResponse(r)| == VarintPartSize(r.userId) + AttachSize(r.attachData)
      + (|sizes| + SumSizes(sizes, |sizes|)) + |EncodeUnknown(r.unknown)|
  {
    PartSizes(r.userId, r.attachData, 8);
    AttachSizeIsLength(r.attachData);
    SumIsLength(r.contacts, sizes, 0);
    assert r.contacts[0..] == r.contacts;
  }

  // ---- The message objects ----

  class ContactSessionInfo {
    var fields: Contact
    var cachedSize: nat

    constructor (fields: Contact)
      ensures this.fields == fields && cachedSize == 0
    {
      this.fields, cachedSize := fields, 0;
    }

    /** Sizes one child and remembers the size. */
    method ByteSize() returns (total: nat)
      requires Fielded(fields)
      modifies `cachedSize
      ensures total == cachedSize == |EncodeContact(fields)|
    {
      var unknown := ComputeUnknownFieldsSize(fields.unknown);
      total := VarintPartSize(fields.sessionId) + VarintPartSize(fields.sessionType)
        + VarintPartSize(fields.sessionStatus) + VarintPartSize(fields.updatedTime)
        + VarintPartSize(fields.latestMsgId) + StringPartSize(fields.latestMsgData)
        + VarintPartSize(fields.latestMsgType) + VarintPartSize(fields.latestMsgFromUserId)
        + unknown;
      cachedSize := total;
      NineParts(Parts(fields));
      PartSizes(fields.sessionId, fields.latestMsgData, 8);
      PartSizes(fields.sessionType, fields.latestMsgData, 16);
      PartSizes(fields.sessionStatus, fields.latestMsgData, 24);
      PartSizes(fields.updatedTime, fields.latestMsgData, 32);
      PartSizes(fields.latestMsgId, fields.latestMsgData, 40);
      PartSizes(fields.latestMsgId, fields.latestMsgData, 50);
      PartSizes(fields.latestMsgType, fields.latestMsgData, 56);
      PartSizes(fields.latestMsgFromUserId, fields.latestMsgData, 64);
    }
  }

  class IMRecentContactSessionRsp {
    var userId: Option<uint32>
    // The repeated field owns its children: no object occurs twice.
    var contacts: seq<ContactSessionInfo>
    var attachData: Option<seq<byte>>
    var unknown: seq<UnknownField>
    var cachedSize: nat

    constructor (userId: Option<uint32>, contacts: seq<ContactSessionInfo>, attachData: Option<seq<byte>>,
                 unknown: seq<UnknownField>)
      ensures this.userId == userId && this.contacts == contacts
      ensures this.attachData == attachData && this.unknown == unknown
    {
      this.userId, this.contacts, this.attachData, this.unknown := userId, contacts, attachData, unknown;
      cachedSize := 0;
    }

    ghost function View(): Response
      reads this, contacts
    {
      Response(userId, seq(|contacts|, i requires 0 <= i < |contacts| reads this, contacts => contacts[i].fields),
               attachData, unknown)
    }

    /** Sizes fit the int that holds them. */
    ghost predicate Sizable()
      reads this, contacts
    {
      && (attachData.Some? ==> |attachData.value| < TWO_31) && AllTyped(unknown)
      && (forall i :: 0 <= i < |contacts| ==> Sized(contacts[i].fields))
    }

    /** Every child's cached size is the length of its encoding. */
    ghost predicate Cached()
      reads this, contacts
    {
      forall i :: 0 <= i < |contacts| ==> contacts[i].cachedSize == |EncodeContact(contacts[i].fields)|
    }

    /** Sizes and caches child i; counts its length prefix too. */
    method SizeContact(i: nat, ghost size: uint32) returns (total: nat)
      requires i < |contacts| && SizedAs(contacts[i].fields, size) && Distinct(contacts)
      modifies {contacts[i]}`cachedSize
      ensures contacts[i].cachedSize == size && total == VarintSize32(size) + size
      ensures forall j :: 0 <= j < |contacts| && j != i ==> contacts[j].cachedSize == old(contacts[j].cachedSize)
    {
      var s := contacts[i].ByteSize();
      total := VarintSize32(s) + s;
    }

    /** Sizes all children, prefixes and tags included. */
    method SizeContacts(ghost sizes: seq<uint32>) returns (total: nat)
      requires |sizes| == |contacts| && Distinct(contacts)
      requires forall j :: 0 <= j < |contacts| ==> SizedAs(contacts[j].fields, sizes[j])
      modifies contacts`cachedSize
      ensures forall j :: 0 <= j < |contacts| ==> contacts[j].cachedSize == sizes[j]
      ensures total == |contacts| + SumSizes(sizes, |contacts|)
    {
      hide SizedAs;
      total := |contacts|;
      for i := 0 to |contacts|
        invariant forall j :: 0 <= j < i ==> contacts[j].cachedSize == sizes[j]
        invariant total == |contacts| + SumSizes(sizes, i)
      {
        assert SizedAs(contacts[i].fields, sizes[i]);
        var more := SizeContact(i, sizes[i]);
        total := total + more;
        assert SumSizes(sizes, i + 1) == SumSizes(sizes, i) + more;
      }
    }

    /** Sizes the children without touching what they hold. */
    method SizeChildren(ghost v: Response, ghost sizes: seq<uint32>) returns (children: nat)
      requires Distinct(contacts) && v == View() && |sizes| == |v.contacts|
      requires forall j :: 0 <= j < |sizes| ==> SizedAs(v.contacts[j], sizes[j])
      modifies contacts`cachedSize
      ensures Cached() && View() == v
      ensures children == |sizes| + SumSizes(sizes, |sizes|)
    {
      children := SizeContacts(sizes);
      assert View().contacts == v.contacts;
      assert forall j :: 0 <= j < |contacts| ==> SizedAs(contacts[j].fields, sizes[j]);
    }

    /** Adds the children's sizes to the other fields'. */
    method AddUp(children: nat, ghost v: Response, ghost sizes: seq<uint32>) returns (total: nat)
      requires userId == v.userId && attachData == v.attachData && unknown == v.unknown
      requires (attachData.Some? ==> |attachData.value| < TWO_31) && AllTyped(unknown)
      requires |sizes| == |v.contacts| && forall j :: 0 <= j < |sizes| ==> SizedAs(v.contacts[j], sizes[j])
      requires children == |sizes| + SumSizes(sizes, |sizes|)
      ensures total == |EncodeResponse(v)|
    {
      var others := ComputeUnknownFieldsSize(unknown);
      total := VarintPartSize(userId) + AttachSize(attachData) + children + others;
      ResponseSize(v, sizes);
    }

    method SetCachedSize(size: nat)
      modifies `cachedSize
      ensures cachedSize == size && View() == old(View()) && Cached() == old(Cached())
    {
      ghost var v := View();
      cachedSize := size;
      assert View().contacts == v.contacts;
    }

    method ByteSize() returns (total: nat)
      requires Sizable() && Distinct(contacts)
      modifies `cachedSize, contacts`cachedSize
      ensures Cached() && View() == old(View())
      ensures total == cachedSize == |EncodeResponse(View())|
    {
      ghost var v := View();
      ghost var sizes := SizesOf(v.contacts);
      var children := SizeChildren(v, sizes);
      total := AddUp(children, v, sizes);
      SetCachedSize(total);
    }

    /** Writes every child behind its cached size; right after ByteSize that is the true
        encoding. */
    method SerializeWithCachedSizes() returns (out: seq<byte>)
      requires Cached()
      ensures out == EncodeResponse(View())
    {
      hide EncodeContact, AttachPart;
      ghost var v := View();
      ghost var r4 := EncodeUnknown(unknown);
      ghost var r3 := AttachPart(attachData) + r4;
      out := VarintPart(8, userId);
      ghost var head := out;
      for i := 0 to |contacts|
        invariant out + EncodeContacts(v.contacts[i..]) == head + EncodeContacts(v.contacts)
      {
        assert v.contacts[i..][1..] == v.contacts[i + 1..] && v.contacts[i] == contacts[i].fields;
        var part := [18] + (Varint(contacts[i].cachedSize) + EncodeContact(contacts[i].fields));
        ghost var left := EncodeContacts(v.contacts[i + 1..]);
        out := Append(out, part, left);
      }
      assert out == head + EncodeContacts(v.contacts);
      Assoc(head, EncodeContacts(v.contacts), r3);
      out := Append(out, AttachPart(attachData), r4);
      out := Append(out, EncodeUnknown(unknown), []);
    }
  }

  // ---- Reading ----

  datatype ContactOutcome = ContactFailed | ContactRead(contact: Contact, atEnd: bool)

  predicate IsContactVarint(tag: uint32) {
    tag == 8 || tag == 16 || tag == 24 || tag == 32 || tag == 40 || tag == 56 || tag == 64
  }

  predicate SessionTypeIsValid(v: uint32) { v == 1 || v == 2 }

  predicate SessionStatusTypeIsValid(v: uint32) { v == 0 || v == 1 }

  predicate MsgTypeIsValid(v: uint32) { v == 1 || v == 2 || v == 17 || v == 18 }

  /** Enum fields take declared values only; the other fields take any. */
  predicate Takes(tag: uint32, v: uint32) {
    if tag == 16 then SessionTypeIsValid(v)
    else if tag == 24 then SessionStatusTypeIsValid(v)
    else if tag == 56 then MsgTypeIsValid(v)
    else true
  }

  function SetVarint(c: Contact, tag: uint32, v: uint32): Contact
    requires IsContactVarint(tag)
  {
    if !Takes(tag, v) then c.(unknown := c.unknown + [UVarint(tag / 8, SignExtended(v))])
    else if tag == 8 then c.(sessionId := Some(v))
    else if tag == 16 then c.(sessionType := Some(v))
    else if tag == 24 then c.(sessionStatus := Some(v))
    else if tag == 32 then c.(updatedTime := Some(v))
    else if tag == 40 then c.(latestMsgId := Some(v))
    else if tag == 56 then c.(latestMsgType := Some(v))
    else c.(latestMsgFromUserId := Some(v))
  }

  function ReadContactField(tag: uint32, bs: seq<byte>, c: Contact): (r: Option<(Contact, seq<byte>)>)
    ensures r.Some? ==> |r.value.1| <= |bs|
  {
    if IsContactVarint(tag) then
      match ReadVarint32(bs)
      case None => None
      case Some((v, rest)) => Some((SetVarint(c, tag, v), rest))
    else if tag == 50 then
      match ReadBytes(bs)
      case None => None
      case Some((data, rest)) => Some((c.(latestMsgData := Some(data)), rest))
    else
      match SkipField(tag, bs, 1)
      case None => None
      case Some((f, rest)) => Some((c.(unknown := c.unknown + [f]), rest))
  }

  function ReadContact(bs: seq<byte>, c: Contact): ContactOutcome
    decreases |bs|
  {
    var t := ReadTag(bs);
    if t.tag == 0 || t.tag % 8 == END_GROUP then ContactRead(c, t.atEnd)
    else match ReadContactField(t.tag, t.rest, c)
      case None => ContactFailed
      case Some((next, rest)) => ReadContact(rest, next)
  }

  datatype Outcome = Failed | Parsed(msg: Response, atEnd: bool)

  /** A nested message: its length limits the reader, which must stop at the limit. */
  function ReadNested(bs: seq<byte>): (r: Option<(Contact, seq<byte>)>)
    ensures r.Some? ==> |r.value.1| <= |bs|
  {
    match ReadVarint32(bs)
    case None => None
    case Some((n, rest)) =>
      var k := Limited(n, rest);
      var inner := ReadContact(rest[..k], NO_CONTACT);
      if inner.ContactRead? && inner.atEnd then Some((inner.contact, rest[k..])) else None
  }

  function ReadResponseField(tag: uint32, bs: seq<byte>, r: Response): (res: Option<(Response, seq<byte>)>)
    ensures res.Some? ==> |res.value.1| <= |bs|
  {
    if tag == 8 then
      match ReadVarint32(bs)
      case None => None
      case Some((v, rest)) => Some((r.(userId := Some(v)), rest))
    else if tag == 18 then
      match ReadNested(bs)
      case None => None
      case Some((c, rest)) => Some((r.(contacts := r.contacts + [c]), rest))
    else if tag == 162 then
      match ReadBytes(bs)
      case None => None
      case Some((data, rest)) => Some((r.(attachData := Some(data)), rest))
    else
      match SkipField(tag, bs, 0)
      case None => None
      case Some((f, rest)) => Some((r.(unknown := r.unknown + [f]), rest))
  }

  function ReadResponse(bs: seq<byte>, r: Response): Outcome
    decreases |bs|
  {
    var t := ReadTag(bs);
    if t.tag == 0 || t.tag % 8 == END_GROUP then Parsed(r, t.atEnd)
    else match ReadResponseField(t.tag, t.rest, r)
      case None => Failed
      case Some((next, rest)) => ReadResponse(rest, next)
  }

  // ---- Reading back what was printed ----

  ghost predicate ForeignToContact(f: UnknownField) {
    Storable(f, 1) && TagOf(f) != 50 && (IsContactVarint(TagOf(f)) ==>
      f.UVarint? && !Takes(TagOf(f), f.value % TWO_32) && f.value == SignExtended(f.value % TWO_32))
  }

  ghost predicate HoldableContact(c: Contact) {
    && Sized(c)
    && (c.sessionType.Some? ==> SessionTypeIsValid(c.sessionType.value))
    && (c.sessionStatus.Some? ==> SessionStatusTypeIsValid(c.sessionStatus.value))
    && (c.latestMsgType.Some? ==> MsgTypeIsValid(c.latestMsgType.value))
    && forall j :: 0 <= j < |c.unknown| ==> ForeignToContact(c.unknown[j])
  }

  ghost predicate Holdable(r: Response) {
    && (r.attachData.Some? ==> |r.attachData.value| < TWO_31)
    && (forall j :: 0 <= j < |r.contacts| ==> HoldableContact(r.contacts[j]))
    && forall j :: 0 <= j < |r.unknown| ==> ForeignToResponse(r.unknown[j])
  }

  lemma ContactStep(bs: seq<byte>, tag: uint32, rest: seq<byte>, c: Contact, next: Contact, after: seq<byte>)
    requires ReadTag(bs) == TagRead(tag, rest, false) && tag != 0 && tag % 8 != END_GROUP
    requires ReadContactField(tag, rest, c) == Some((next, after))
    ensures ReadContact(bs, c) == ReadContact(after, next)
  {
  }

  lemma ContactVarintRead(tag: byte, v: Option<uint32>, rest: seq<byte>, c: Contact)
    requires IsContactVarint(tag) && (v.Some? ==> Takes(tag, v.value))
    ensures ReadContact(VarintPart(tag, v) + rest, c) == ReadContact(rest, if v.Some? then SetVarint(c, tag, v.value) else c)
  {
    var bs := VarintPart(tag, v) + rest;
    if v.Some? {
      var body := Varint(v.value) + rest;
      assert bs == [tag] + body;
      ReadShortTag(tag, body);
      Uint32RoundTrip(v.value, rest);
      ContactStep(bs, tag, body, c, SetVarint(c, tag, v.value), rest);
    } else {
      assert bs == rest;
    }
  }

  lemma ContactDataRead(data: Option<seq<byte>>, rest: seq<byte>, c: Contact)
    requires data.Some? ==> |data.value| < TWO_31
    ensures ReadContact(StringPart(50, data) + rest, c) ==
      ReadContact(rest, if data.Some? then c.(latestMsgData := data) else c)
  {
    var bs := StringPart(50, data) + rest;
    if data.Some? {
      var body := Varint(|data.value|) + data.value + rest;
      Assoc([50], Varint(|data.value|) + data.value, rest);
      ReadShortTag(50, body);
      ReadBytesOf(data.value, rest);
      ContactStep(bs, 50, body, c, c.(latestMsgData := data), rest);
    } else {
      assert bs == rest;
    }
  }

  lemma ForeignToContactRead(f: UnknownField, after: seq<byte>, c: Contact)
    requires ForeignToContact(f)
    ensures ReadContact(Varint(TagOf(f)) + (Body(f) + after), c) == ReadContact(after, c.(unknown := c.unknown + [f]))
  {
    var body := Body(f) + after;
    TagParts(f);
    ReadTagOf(TagOf(f), body);
    if IsContactVarint(TagOf(f)) {
      Varint32RoundTrip(f.value, after);
    } else {
      SkipOfBody(f, 1, after);
    }
    ContactStep(Varint(TagOf(f)) + body, TagOf(f), body, c, c.(unknown := c.unknown + [f]), after);
  }

  lemma {:induction false} ContactUnknownRead(fs: seq<UnknownField>, i: nat, c: Contact)
    requires i <= |fs| && forall j :: 0 <= j < |fs| ==> ForeignToContact(fs[j])
    ensures ReadContact(EncodeUnknown(fs[i..]), c.(unknown := fs[..i])) == ContactRead(c.(unknown := fs), true)
    decreases |fs| - i
  {
    if i == |fs| {
      assert EncodeUnknown(fs[i..]) == [] && fs[..i] == fs;
    } else {
      SliceStep(fs, i);
      FirstContactUnknownRead(fs[i..], c.(unknown := fs[..i]));
      ContactUnknownRead(fs, i + 1, c);
    }
  }

  lemma FirstContactUnknownRead(fs: seq<UnknownField>, c: Contact)
    requires fs != [] && ForeignToContact(fs[0])
    ensures ReadContact(EncodeUnknown(fs), c) == ReadContact(EncodeUnknown(fs[1..]), c.(unknown := c.unknown + [fs[0]]))
  {
    var after := EncodeUnknown(fs[1..]);
    Assoc(Varint(TagOf(fs[0])), Body(fs[0]), after);
    ForeignToContactRead(fs[0], after, c);
  }

  lemma JoinFrom(parts: seq<seq<byte>>, i: nat)
    requires i < |parts|
    ensures Join(parts[i..]) == parts[i] + Join(parts[i + 1..])
  {
    assert parts[i..][1..] == parts[i + 1..];
  }

  /** A contact reads back from its own encoding. */
  lemma ContactRoundTrip(c: Contact)
    requires HoldableContact(c)
    ensures ReadContact(EncodeContact(c), NO_CONTACT) == ContactRead(c, true)
  {
    var p := Parts(c);
    assert p[0..] == p;
    JoinFrom(p, 0);
    ContactVarintRead(8, c.sessionId, Join(p[1..]), NO_CONTACT);
    var c1 := NO_CONTACT.(sessionId := c.sessionId);
    JoinFrom(p, 1);
    ContactVarintRead(16, c.sessionType, Join(p[2..]), c1);
    var c2 := c1.(sessionType := c.sessionType);
    JoinFrom(p, 2);
    ContactVarintRead(24, c.sessionStatus, Join(p[3..]), c2);
    var c3 := c2.(sessionStatus := c.sessionStatus);
    JoinFrom(p, 3);
    ContactVarintRead(32, c.updatedTime, Join(p[4..]), c3);
    ContactTailRoundTrip(c, c3.(updatedTime := c.updatedTime));
  }

  lemma ContactTailRoundTrip(c: Contact, c4: Contact)
    requires HoldableContact(c)
    requires c4 == NO_CONTACT.(sessionId := c.sessionId, sessionType := c.sessionType,
                               sessionStatus := c.sessionStatus, updatedTime := c.updatedTime)
    ensures ReadContact(Join(Parts(c)[4..]), c4) == ContactRead(c, true)
  {
    var p := Parts(c);
    JoinFrom(p, 4);
    ContactVarintRead(40, c.latestMsgId, Join(p[5..]), c4);
    var c5 := c4.(latestMsgId := c.latestMsgId);
    JoinFrom(p, 5);
    ContactDataRead(c.latestMsgData, Join(p[6..]), c5);
    ContactEndRoundTrip(c, c5.(latestMsgData := c.latestMsgData));
  }

  lemma ContactEndRoundTrip(c: Contact, c6: Contact)
    requires HoldableContact(c)
    requires c6 == c.(latestMsgType := None, latestMsgFromUserId := None, unknown := [])
    ensures ReadContact(Join(Parts(c)[6..]), c6) == ContactRead(c, true)
  {
    var p := Parts(c);
    JoinFrom(p, 6);
    ContactVarintRead(56, c.latestMsgType, Join(p[7..]), c6);
    var c7 := c6.(latestMsgType := c.latestMsgType);
    JoinFrom(p, 7);
    ContactVarintRead(64, c.latestMsgFromUserId, Join(p[8..]), c7);
    ContactLastRoundTrip(c, c7.(latestMsgFromUserId := c.latestMsgFromUserId));
  }

  lemma ContactLastRoundTrip(c: Contact, c8: Contact)
    requires HoldableContact(c) && c8 == c.(unknown := [])
    ensures ReadContact(Join(Parts(c)[8..]), c8) == ContactRead(c, true)
  {
    JoinFrom(Parts(c), 8);
    assert Join(Parts(c)[9..]) == [] && Join(Parts(c)[8..]) == EncodeUnknown(c.unknown);
    ContactUnknownRead(c.unknown, 0, c8);
    assert c.unknown[0..] == c.unknown && c.unknown[..0] == [];
  }

  lemma ResponseStep(bs: seq<byte>, tag: uint32, rest: seq<byte>, r: Response, next: Response, after: seq<byte>)
    requires ReadTag(bs) == TagRead(tag, rest, false) && tag != 0 && tag % 8 != END_GROUP
    requires ReadResponseField(tag, rest, r) == Some((next, after))
    ensures ReadResponse(bs, r) == ReadResponse(after, next)
  {
  }

  /** A child behind its length prefix is read back whole, whatever follows it. */
  lemma NestedRead(c: Contact, rest: seq<byte>)
    requires HoldableContact(c)
    ensures ReadNested(Varint(|EncodeContact(c)|) + EncodeContact(c) + rest) == Some((c, rest))
  {
    var n, tail := |EncodeContact(c)|, EncodeContact(c) + rest;
    Uint32RoundTrip(n, tail);
    assert Varint(n) + EncodeContact(c) + rest == Varint(n) + tail;
    assert tail[..n] == EncodeContact(c) && tail[n..] == rest;
    ContactRoundTrip(c);
  }

  lemma ChildRead(c: Contact, after: seq<byte>, r: Response)
    requires HoldableContact(c)
    ensures ReadResponse(ContactPart(c) + after, r) == ReadResponse(after, r.(contacts := r.contacts + [c]))
  {
    var body := Varint(|EncodeContact(c)|) + EncodeContact(c) + after;
    assert ContactPart(c) + after == [18] + body;
    ReadShortTag(18, body);
    NestedRead(c, after);
    ResponseStep([18] + body, 18, body, r, r.(contacts := r.contacts + [c]), after);
  }

  lemma FirstChildRead(cs: seq<Contact>, rest: seq<byte>, r: Response)
    requires cs != [] && HoldableContact(cs[0])
    ensures ReadResponse(EncodeContacts(cs) + rest, r) ==
      ReadResponse(EncodeContacts(cs[1..]) + rest, r.(contacts := r.contacts + [cs[0]]))
  {
    var part, more := ContactPart(cs[0]), EncodeContacts(cs[1..]);
    Assoc(part, more, rest);
    ChildRead(cs[0], more + rest, r);
  }

  lemma {:induction false} ContactsRead(cs: seq<Contact>, i: nat, rest: seq<byte>, r: Response)
    requires i <= |cs| && forall j :: 0 <= j < |cs| ==> HoldableContact(cs[j])
    ensures ReadResponse(EncodeContacts(cs[i..]) + rest, r.(contacts := r.contacts + cs[..i])) ==
      ReadResponse(rest, r.(contacts := r.contacts + cs))
    decreases |cs| - i
  {
    hide HoldableContact, ReadResponse;
    if i == |cs| {
      assert EncodeContacts(cs[i..]) + rest == rest && cs[..i] == cs;
    } else {
      SliceStep(cs, i);
      PrefixStep(r.contacts, cs, i);
      FirstChildRead(cs[i..], rest, r.(contacts := r.contacts + cs[..i]));
      ContactsRead(cs, i + 1, rest, r);
    }
  }

  ghost predicate ForeignToResponse(f: UnknownField) {
    Storable(f, 0) && TagOf(f) != 8 && TagOf(f) != 18 && TagOf(f) != 162
  }

  lemma ForeignToResponseRead(f: UnknownField, after: seq<byte>, r: Response)
    requires ForeignToResponse(f)
    ensures ReadResponse(Varint(TagOf(f)) + (Body(f) + after), r) == ReadResponse(after, r.(unknown := r.unknown + [f]))
  {
    var body := Body(f) + after;
    TagParts(f);
    ReadTagOf(TagOf(f), body);
    SkipOfBody(f, 0, after);
    ResponseStep(Varint(TagOf(f)) + body, TagOf(f), body, r, r.(unknown := r.unknown + [f]), after);
  }

  lemma FirstUnknownRead(fs: seq<UnknownField>, rest: seq<byte>, r: Response)
    requires fs != [] && ForeignToResponse(fs[0])
    ensures ReadResponse(EncodeUnknown(fs) + rest, r) ==
      ReadResponse(EncodeUnknown(fs[1..]) + rest, r.(unknown := r.unknown + [fs[0]]))
  {
    EncodeUnknownSplit(fs, rest);
    ForeignToResponseRead(fs[0], EncodeUnknown(fs[1..]) + rest, r);
  }

  lemma {:induction false} ResponseUnknownRead(fs: seq<UnknownField>, i: nat, rest: seq<byte>, r: Response)
    requires i <= |fs| && forall j :: 0 <= j < |fs| ==> ForeignToResponse(fs[j])
    ensures ReadResponse(EncodeUnknown(fs[i..]) + rest, r.(unknown := r.unknown + fs[..i])) ==
      ReadResponse(rest, r.(unknown := r.unknown + fs))
    decreases |fs| - i
  {
    hide ForeignToResponse, ReadResponse;
    if i == |fs| {
      assert EncodeUnknown(fs[i..]) + rest == rest && fs[..i] == fs;
    } else {
      SliceStep(fs, i);
      PrefixStep(r.unknown, fs, i);
      FirstUnknownRead(fs[i..], rest, r.(unknown := r.unknown + fs[..i]));
      ResponseUnknownRead(fs, i + 1, rest, r);
    }
  }

  lemma UserIdRead(v: Option<uint32>, rest: seq<byte>, r: Response)
    ensures ReadResponse(VarintPart(8, v) + rest, r) == ReadResponse(rest, if v.Some? then r.(userId := v) else r)
  {
    var bs := VarintPart(8, v) + rest;
    if v.Some? {
      var body := Varint(v.value) + rest;
      assert bs == [8] + body;
      ReadShortTag(8, body);
      Uint32RoundTrip(v.value, rest);
      ResponseStep(bs, 8, body, r, r.(userId := v), rest);
    } else {
      assert bs == rest;
    }
  }

  lemma AttachRead(data: Option<seq<byte>>, rest: seq<byte>, r: Response)
    requires data.Some? ==> |data.value| < TWO_31
    ensures ReadResponse(AttachPart(data) + rest, r) ==
      ReadResponse(rest, if data.Some? then r.(attachData := data) else r)
  {
    var bs := AttachPart(data) + rest;
    if data.Some? {
      var body := Varint(|data.value|) + data.value + rest;
      TwoByteTag(162);
      Assoc([162, 1], Varint(|data.value|) + data.value, rest);
      ReadTagOf(162, body);
      ReadBytesOf(data.value, rest);
      ResponseStep(bs, 162, body, r, r.(attachData := data), rest);
    } else {
      assert bs == rest;
    }
  }

  /** The generated MergeFrom: present scalars of b win, children are appended. */
  function MergeFrom(a: Response, b: Response): Response {
    Response(if b.userId.Some? then b.userId else a.userId, a.contacts + b.contacts,
             if b.attachData.Some? then b.attachData else a.attachData, a.unknown + b.unknown)
  }

  lemma ResponseRegrouped(r: Response, rest: seq<byte>)
    ensures EncodeResponse(r) + rest ==
      VarintPart(8, r.userId) + (EncodeContacts(r.contacts) + (AttachPart(r.attachData) + (EncodeUnknown(r.unknown) + rest)))
  {
    var p4 := EncodeUnknown(r.unknown);
    var p3 := AttachPart(r.attachData) + p4;
    var p2 := EncodeContacts(r.contacts) + p3;
    Assoc(VarintPart(8, r.userId), p2, rest);
    Assoc(EncodeContacts(r.contacts), p3, rest);
    Assoc(AttachPart(r.attachData), p4, rest);
  }

  /** Parsing the encoding of a response, with any number of children, into another one merges
      it, whatever follows. */
  lemma EncodedResponseIsMerged(r: Response, rest: seq<byte>, into: Response)
    requires Holdable(r)
    ensures ReadResponse(EncodeResponse(r) + rest, into) == ReadResponse(rest, MergeFrom(into, r))
  {
    hide ReadResponse, EncodeResponse, EncodeContacts, EncodeUnknown, AttachPart, VarintPart;
    var r4 := EncodeUnknown(r.unknown) + rest;
    var r3 := AttachPart(r.attachData) + r4;
    var r2 := EncodeContacts(r.contacts) + r3;
    ResponseRegrouped(r, rest);
    UserIdRead(r.userId, r2, into);
    var m1 := if r.userId.Some? then into.(userId := r.userId) else into;
    ContactsRead(r.contacts, 0, r3, m1);
    assert r.contacts[0..] == r.contacts && m1.contacts + r.contacts[..0] == m1.contacts;
    var m2 := m1.(contacts := m1.contacts + r.contacts);
    AttachRead(r.attachData, r4, m2);
    var m3 := if r.attachData.Some? then m2.(attachData := r.attachData) else m2;
    ResponseUnknownRead(r.unknown, 0, rest, m3);
    assert r.unknown[0..] == r.unknown && m3.unknown + r.unknown[..0] == m3.unknown;
  }

  lemma NothingLeftToRead(r: Response)
    ensures ReadResponse([], r) == Parsed(r, true)
  {
  }

  lemma EncodedResponseAlone(r: Response, into: Response)
    requires Holdable(r)
    ensures ReadResponse(EncodeResponse(r), into) == Parsed(MergeFrom(into, r), true)
  {
    hide ReadResponse, EncodeResponse, Holdable;
    EncodedResponseIsMerged(r, [], into);
    assert EncodeResponse(r) + [] == EncodeResponse(r);
    NothingLeftToRead(MergeFrom(into, r));
  }

  /** So parsing two encodings back to back gives their merge, the last scalars winning. */
  lemma ResponsesAreMerged(a: Response, b: Response)
    requires Holdable(a) && Holdable(b)
    ensures ReadResponse(EncodeResponse(a) + EncodeResponse(b), NO_RESPONSE) == Parsed(MergeFrom(a, b), true)
  {
    hide ReadResponse, EncodeResponse, Holdable;
    EncodedResponseIsMerged(a, EncodeResponse(b), NO_RESPONSE);
    assert MergeFrom(NO_RESPONSE, a) == a;
    EncodedResponseAlone(b, a);
  }

  /** And one encoding reads back whole. */
  lemma ResponseRoundTrip(r: Response)
    requires Holdable(r)
    ensures ReadResponse(EncodeResponse(r), NO_RESPONSE) == Parsed(r, true)
  {
    hide ReadResponse, EncodeResponse, Holdable;
    EncodedResponseAlone(r, NO_RESPONSE);
    assert MergeFrom(NO_RESPONSE, r) == r;
  }
}
