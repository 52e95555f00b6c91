/** What the parsers of the nested messages can produce, and that printing it again loses
    nothing. */
module ContactReprints {
  import opened Basics
  import opened Wire
  import opened ContactSessions

  /** Declared enum values, unknown fields no reader would have understood, data with an int
      length. */
  ghost predicate WellFormedContact(c: Contact) {
    && (c.latestMsgData.Some? ==> |c.latestMsgData.value| < TWO_31)
    && (c.sessionType.Some? ==> SessionTypeIsValid(c.sessionType.value))
    && (c.sessionStatus.Some? ==> SessionStatusTypeIsValid(c.sessionStatus.value))
    && (c.latestMsgType.Some? ==> MsgTypeIsValid(c.latestMsgType.value))
    && forall j :: 0 <= j < |c.unknown| ==> ForeignToContact(c.unknown[j])
  }

  ghost predicate WellFormed(r: Response) {
    && (r.attachData.Some? ==> |r.attachData.value| < TWO_31)
    && (forall j :: 0 <= j < |r.contacts| ==> WellFormedContact(r.contacts[j]))
    && forall j :: 0 <= j < |r.unknown| ==> ForeignToResponse(r.unknown[j])
  }

  // ---- Contacts ----

  lemma InvalidEnumIsForeign(tag: uint32, v: uint32)
    requires IsContactVarint(tag) && !Takes(tag, v)
    ensures ForeignToContact(UVarint(tag / 8, SignExtended(v)))
  {
    SignExtendedKeepsLow(v);
  }

  lemma UnknownKeepsContact(f: UnknownField, c: Contact)
    requires WellFormedContact(c) && ForeignToContact(f)
    ensures WellFormedContact(c.(unknown := c.unknown + [f]))
  {
  }

  lemma VarintKeepsContact(tag: uint32, v: uint32, c: Contact)
    requires WellFormedContact(c) && IsContactVarint(tag)
    ensures WellFormedContact(SetVarint(c, tag, v))
  {
    if !Takes(tag, v) {
      InvalidEnumIsForeign(tag, v);
      UnknownKeepsContact(UVarint(tag / 8, SignExtended(v)), c);
    }
  }

  lemma FieldKeepsContact(tag: uint32, bs: seq<byte>, c: Contact)
    requires WellFormedContact(c) && tag != 0 && ReadContactField(tag, bs, c).Some?
    ensures WellFormedContact(ReadContactField(tag, bs, c).value.0)
  {
    if IsContactVarint(tag) {
      VarintKeepsContact(tag, ReadVarint32(bs).value.0, c);
    } else if tag != 50 {
      SkippedIsStorable(tag, bs, 1);
      UnknownKeepsContact(SkipField(tag, bs, 1).value.0, c);
    }
  }

  /** Every parsed contact has declared enum values only; the others, and all that was not
      understood, are in its unknown fields. */
  lemma {:induction false} ParsedContactIsWellFormed(bs: seq<byte>, c: Contact)
    requires WellFormedContact(c)
    ensures ReadContact(bs, c).ContactRead? ==> WellFormedContact(ReadContact(bs, c).contact)
    decreases |bs|
  {
    hide WellFormedContact, ReadContactField;
    var t := ReadTag(bs);
    if t.tag != 0 && t.tag % 8 != END_GROUP && ReadContactField(t.tag, t.rest, c).Some? {
      var next := ReadContactField(t.tag, t.rest, c).value;
      FieldKeepsContact(t.tag, t.rest, c);
      ParsedContactIsWellFormed(next.1, next.0);
    }
  }

  lemma WellFormedIsHoldable(c: Contact)
    requires WellFormedContact(c) && |EncodeContact(c)| < TWO_31
    ensures HoldableContact(c)
  {
    hide EncodeContact;
    forall j | 0 <= j < |c.unknown| ensures Typed(c.unknown[j]) {
      StorableIsTyped(c.unknown[j], 1);
    }
  }

  /** For every input the contact parser accepts, printing the result and parsing it again
      gives the same contact, if its size fits an int. */
  lemma ReprintingContactLosesNothing(bs: seq<byte>)
    requires ReadContact(bs, NO_CONTACT).ContactRead?
    requires |EncodeContact(ReadContact(bs, NO_CONTACT).contact)| < TWO_31
    ensures var c := ReadContact(bs, NO_CONTACT).contact;
      ReadContact(EncodeContact(c), NO_CONTACT) == ContactRead(c, true)
  {
    assert WellFormedContact(NO_CONTACT);
    hide ReadContact, EncodeContact, WellFormedContact;
    ParsedContactIsWellFormed(bs, NO_CONTACT);
    WellFormedIsHoldable(ReadContact(bs, NO_CONTACT).contact);
    ContactRoundTrip(ReadContact(bs, NO_CONTACT).contact);
  }

  // ---- Responses ----

  lemma NestedIsWellFormed(bs: seq<byte>)
    requires ReadNested(bs).Some?
    ensures WellFormedContact(ReadNested(bs).value.0)
  {
    var (n, rest) := ReadVarint32(bs).value;
    assert WellFormedContact(NO_CONTACT);
    hide ReadContact, WellFormedContact;
    ParsedContactIsWellFormed(rest[..Limited(n, rest)], NO_CONTACT);
  }

  lemma FieldKeepsResponse(tag: uint32, bs: seq<byte>, r: Response)
    requires WellFormed(r) && tag != 0 && ReadResponseField(tag, bs, r).Some?
    ensures WellFormed(ReadResponseField(tag, bs, r).value.0)
  {
    hide ReadNested, SkipField, WellFormedContact, Storable;
    if tag == 18 {
      NestedIsWellFormed(bs);
    } else if tag != 8 && tag != 162 {
      SkippedIsStorable(tag, bs, 0);
    }
  }

  /** The same for responses, children included. */
  lemma {:induction false} ParsedResponseIsWellFormed(bs: seq<byte>, r: Response)
    requires WellFormed(r)
    ensures ReadResponse(bs, r).Parsed? ==> WellFormed(ReadResponse(bs, r).msg)
    decreases |bs|
  {
    hide WellFormed, ReadResponseField;
    var t := ReadTag(bs);
    if t.tag != 0 && t.tag % 8 != END_GROUP && ReadResponseField(t.tag, t.rest, r).Some? {
      var next := ReadResponseField(t.tag, t.rest, r).value;
      FieldKeepsResponse(t.tag, t.rest, r);
      ParsedResponseIsWellFormed(next.1, next.0);
    }
  }

  ghost predicate ChildrenFit(r: Response) {
    forall j :: 0 <= j < |r.contacts| ==> |EncodeContact(r.contacts[j])| < TWO_31
  }

  /** For every input the response parser accepts, printing the result and parsing it again
      gives the same response, if the sizes of its children fit an int. */
  lemma ReprintingResponseLosesNothing(bs: seq<byte>)
    requires ReadResponse(bs, NO_RESPONSE).Parsed? && ChildrenFit(ReadResponse(bs, NO_RESPONSE).msg)
    ensures var r := ReadResponse(bs, NO_RESPONSE).msg;
      ReadResponse(EncodeResponse(r), NO_RESPONSE) == Parsed(r, true)
  {
    assert WellFormed(NO_RESPONSE);
    hide ReadResponse, EncodeResponse, EncodeContact, WellFormedContact, HoldableContact;
    ParsedResponseIsWellFormed(bs, NO_RESPONSE);
    var r := ReadResponse(bs, NO_RESPONSE).msg;
    forall j | 0 <= j < |r.contacts| ensures HoldableContact(r.contacts[j]) {
      WellFormedIsHoldable(r.contacts[j]);
    }
    ResponseRoundTrip(r);
  }

  // ---- Nested input ----

  /** Whatever bytes stand behind the length, they are read as a child exactly when they parse
      as a contact on their own, to their very end, and then into the same contact. */
  lemma NestedIsStandalone(bs: seq<byte>, rest: seq<byte>)
    requires |bs| < TWO_31
    ensures ReadNested(Varint(|bs|) + bs + rest) ==
      match ReadContact(bs, NO_CONTACT)
      case ContactFailed => None
      case ContactRead(c, atEnd) => if atEnd then Some((c, rest)) else None
  {
    hide ReadContact, Varint;
    Uint32RoundTrip(|bs|, bs + rest);
    Assoc(Varint(|bs|), bs, rest);
    SplitAgain(bs, rest);
  }
}
