/** The nested messages on the wire, byte by byte: the layout itself, and each enum field for
    every value. */
module ContactInputs {
  import opened Basics
  import opened Wire
  import opened ContactSessions

  // ---- The layout ----

  ghost function Sample(): Contact {
    Contact(Some(7), Some(1), Some(0), Some(9), Some(300), Some([97, 98]), Some(17), Some(3), [])
  }

  lemma VarintPartIs(tag: byte, v: uint32)
    requires v < 128
    ensures VarintPart(tag, Some(v)) == [tag, v]
  {
    OneByteVarint(v);
  }

  lemma SampleParts()
    ensures Parts(Sample()) ==
      [[8, 7], [16, 1], [24, 0], [32, 9], [40, 172, 2], [50, 2, 97, 98], [56, 17], [64, 3], []]
  {
    VarintPartIs(8, 7);
    VarintPartIs(16, 1);
    VarintPartIs(24, 0);
    VarintPartIs(32, 9);
    VarintPartIs(56, 17);
    VarintPartIs(64, 3);
    TwoByteTag(300);
    OneByteVarint(2);
    assert VarintPart(40, Some(300)) == [40, 172, 2] && StringPart(50, Some([97, 98])) == [50, 2, 97, 98];
    hide VarintPart, StringPart, Varint;
  }

  lemma SampleOnTheWire()
    ensures EncodeContact(Sample()) ==
      [8, 7, 16, 1, 24, 0, 32, 9, 40, 172, 2, 50, 2, 97, 98, 56, 17, 64, 3]
  {
    SampleParts();
    hide Parts, Sample;
    JoinOfNine(Parts(Sample()));
  }

  lemma JoinOfNine(p: seq<seq<byte>>)
    requires |p| == 9
    ensures Join(p) == p[0] + (p[1] + (p[2] + (p[3] + (p[4] + (p[5] + (p[6] + (p[7] + p[8])))))))
  {
    forall i | 0 <= i < 9 ensures Join(p[i..]) == p[i] + Join(p[i + 1..]) {
      JoinFrom(p, i);
    }
    assert p[0..] == p && Join(p[9..]) == [] && p[8] + [] == p[8];
    hide Join;
  }

  lemma ContactPartIs(c: Contact, n: byte)
    requires |EncodeContact(c)| == n < 128
    ensures ContactPart(c) == [18, n] + EncodeContact(c)
  {
    hide EncodeContact;
    OneByteVarint(n);
  }

  lemma TwoContacts(a: Contact, b: Contact)
    ensures EncodeContacts([a, b]) == ContactPart(a) + ContactPart(b)
  {
    hide ContactPart;
    assert [a, b][1..] == [b] && [b][1..] == [];
    assert EncodeContacts([b]) == ContactPart(b) + [];
  }

  lemma Regrouped(e: seq<byte>)
    ensures [8, 6] + ((([18, 19] + e) + ([18, 0] + [])) + ([162, 1, 1, 1] + [])) ==
      [8, 6, 18, 19] + e + [18, 0, 162, 1, 1, 1]
  {
  }

  lemma TwoChildren()
    ensures EncodeContact(NO_CONTACT) == [] && |EncodeContact(Sample())| == 19
    ensures EncodeContacts([Sample(), NO_CONTACT]) == ([18, 19] + EncodeContact(Sample())) + ([18, 0] + [])
  {
    SampleOnTheWire();
    JoinOfNine(Parts(NO_CONTACT));
    assert EncodeContact(NO_CONTACT) == [];
    hide EncodeContact, Sample, ContactPart, EncodeContacts;
    ContactPartIs(Sample(), 19);
    ContactPartIs(NO_CONTACT, 0);
    TwoContacts(Sample(), NO_CONTACT);
  }

  lemma SmallParts()
    ensures VarintPart(8, Some(6)) == [8, 6] && AttachPart(Some([1])) == [162, 1, 1, 1]
  {
    VarintPartIs(8, 6);
    OneByteVarint(1);
  }

  /** Every child stands behind its own length; attach_data is field 20. */
  lemma ResponseOnTheWire()
    ensures EncodeResponse(Response(Some(6), [Sample(), NO_CONTACT], Some([1]), [])) ==
      [8, 6, 18, 19] + EncodeContact(Sample()) + [18, 0, 162, 1, 1, 1]
  {
    hide EncodeContact, Sample, EncodeContacts, VarintPart, AttachPart;
    TwoChildren();
    SmallParts();
    Regrouped(EncodeContact(Sample()));
    assert EncodeUnknown([]) == [];
  }

  // ---- The enum fields ----

  /** The values that each enum field takes; the other fields take all. */
  ghost predicate Declared(tag: uint32, v: uint32) {
    if tag == 16 then v in {1, 2}
    else if tag == 24 then v in {0, 1}
    else if tag == 56 then v in {1, 2, 17, 18}
    else true
  }

  /** A declared value sets the field, any other is kept sign-extended as an unknown field. */
  lemma VarintFieldExactly(tag: byte, v: uint32, c: Contact)
    requires tag in {8, 16, 24, 32, 40, 56, 64}
    ensures ReadContact([tag] + Varint(v), c) ==
      ContactRead(if !Declared(tag, v) then c.(unknown := c.unknown +
                    [UVarint(tag / 8, if v < 0x8000_0000 then v else v + 0xFFFF_FFFF_0000_0000)])
                  else if tag == 8 then c.(sessionId := Some(v))
                  else if tag == 16 then c.(sessionType := Some(v))
                  else if tag == 24 then c.(sessionStatus := Some(v))
                  else if tag == 32 then c.(updatedTime := Some(v))
                  else if tag == 40 then c.(latestMsgId := Some(v))
                  else if tag == 56 then c.(latestMsgType := Some(v))
                  else c.(latestMsgFromUserId := Some(v)), true)
  {
    hide Varint;
    assert Varint(v) + [] == Varint(v);
    Uint32RoundTrip(v, []);
    ReadShortTag(tag, Varint(v));
    ContactStep([tag] + Varint(v), tag, Varint(v), c, SetVarint(c, tag, v), []);
  }
}
