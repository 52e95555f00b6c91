/** The generated parsers of the nested messages, with their jumps from one field straight
    to the next expected one: they give what the plain readers give. */
module ContactParsers {
  import opened Basics
  import opened Wire
  import opened ContactSessions

  /** What the plain reader makes of the input behind a tag; tag 0 is still to be read. */
  function ContactFrom(tag: uint32, bs: seq<byte>, c: Contact): ContactOutcome {
    if tag == 0 then ReadContact(bs, c)
    else match ReadContactField(tag, bs, c)
      case None => ContactFailed
      case Some((next, rest)) => ReadContact(rest, next)
  }

  /** The tag the generated code looks for next; 0 after the last field. */
  function NextContactTag(tag: uint32): uint32
    requires IsContactVarint(tag) || tag == 50
  {
    if tag == 40 then 50 else if tag == 50 then 56 else if tag == 64 then 0 else tag + 8
  }

  lemma ContactJump(tag: uint32, bs: seq<byte>, rest: seq<byte>, c: Contact)
    requires ReadTag(bs) == TagRead(tag, rest, false) && tag != 0 && tag % 8 != END_GROUP
    ensures ContactFrom(tag, rest, c) == ReadContact(bs, c)
  {
  }

  /** Jumps behind the expected tag, or not. */
  method ExpectContactTag(tag: uint32, bs: seq<byte>, c: Contact) returns (jump: uint32, rest: seq<byte>)
    requires tag == 0 || IsContactVarint(tag) || tag == 50
    ensures ContactFrom(jump, rest, c) == ReadContact(bs, c)
    ensures (jump == tag && |rest| <= |bs|) || (jump == 0 && rest == bs)
  {
    jump, rest := 0, bs;
    if tag != 0 {
      var yes, behind := ExpectTag(tag, bs);
      if yes {
        ContactJump(tag, bs, behind, c);
        jump, rest := tag, behind;
      }
    }
  }

  /** ContactSessionInfo::MergePartialFromCodedStream */
  method MergeContact(input: seq<byte>, into: Contact) returns (r: ContactOutcome)
    ensures r == ReadContact(input, into)
  {
    var jump, bs, c := 0, input, into;
    while true
      invariant jump == 0 || IsContactVarint(jump) || jump == 50
      invariant ContactFrom(jump, bs, c) == ReadContact(input, into)
      decreases |bs|
    {
      var tag, at := jump, bs;
      if jump == 0 {
        var t := ReadTag(bs);
        tag, at := t.tag, t.rest;
        if tag == 0 || tag % 8 == END_GROUP {
          return ContactRead(c, t.atEnd);
        }
        if tag > 127 || !(IsContactVarint(tag) || tag == 50) {
          var skipped := SkipField(tag, at, 1);
          if skipped.None? {
            return ContactFailed;
          }
          c, bs := c.(unknown := c.unknown + [skipped.value.0]), skipped.value.1;
          continue;
        }
      }
      var ok, rest;
      ok, c, rest := ContactField(tag, at, c);
      if !ok {
        return ContactFailed;
      }
      jump, bs := ExpectContactTag(NextContactTag(tag), rest, c);
      var looks: bool := *;
      if tag == 64 && looks && bs == [] {
        return ContactRead(c, true);
      }
    }
  }

  /** One known field, read into the message. */
  method ContactField(tag: uint32, bs: seq<byte>, c: Contact) returns (ok: bool, next: Contact, rest: seq<byte>)
    requires IsContactVarint(tag) || tag == 50
    ensures ok <==> ReadContactField(tag, bs, c).Some?
    ensures ok ==> ReadContactField(tag, bs, c) == Some((next, rest)) && |rest| < |bs|
  {
    ok, next, rest := false, c, bs;
    if tag == 50 {
      var data := ReadBytes(bs);
      if data.Some? {
        ok, next, rest := true, c.(latestMsgData := Some(data.value.0)), data.value.1;
      }
    } else {
      var v := ReadVarint32(bs);
      if v.Some? {
        ok, next, rest := true, SetVarint(c, tag, v.value.0), v.value.1;
      }
    }
  }

  /** ReadMessageNoVirtual: the child's own parser behind a pushed limit. */
  method MergeNested(bs: seq<byte>) returns (r: Option<(Contact, seq<byte>)>)
    ensures r == ReadNested(bs)
    ensures r.Some? ==> |r.value.1| < |bs|
  {
    var length := ReadVarint32(bs);
    if length.None? {
      return None;
    }
    var k := Limited(length.value.0, length.value.1);
    var inner := MergeContact(length.value.1[..k], NO_CONTACT);
    if inner.ContactRead? && inner.atEnd {
      r := Some((inner.contact, length.value.1[k..]));
    } else {
      r := None;
    }
  }

  function ResponseFrom(tag: uint32, bs: seq<byte>, r: Response): Outcome {
    if tag == 0 then ReadResponse(bs, r)
    else match ReadResponseField(tag, bs, r)
      case None => Failed
      case Some((next, rest)) => ReadResponse(rest, next)
  }

  lemma ResponseJump(tag: uint32, bs: seq<byte>, rest: seq<byte>, r: Response)
    requires ReadTag(bs) == TagRead(tag, rest, false) && tag != 0 && tag % 8 != END_GROUP
    ensures ResponseFrom(tag, rest, r) == ReadResponse(bs, r)
  {
  }

  method ExpectResponseTag(tag: uint32, bs: seq<byte>, m: Response) returns (jump: uint32, rest: seq<byte>)
    requires tag == 18 || tag == 162
    ensures ResponseFrom(jump, rest, m) == ReadResponse(bs, m)
    ensures (jump == tag && |rest| <= |bs|) || (jump == 0 && rest == bs)
  {
    var yes, behind := ExpectTag(tag, bs);
    jump, rest := 0, bs;
    if yes {
      ResponseJump(tag, bs, behind, m);
      jump, rest := tag, behind;
    }
  }

  predicate IsResponseTag(tag: uint32) { tag == 8 || tag == 18 || tag == 162 }

  /** IMRecentContactSessionRsp::MergePartialFromCodedStream */
  method MergeResponse(input: seq<byte>, into: Response) returns (r: Outcome)
    ensures r == ReadResponse(input, into)
  {
    var jump, bs, m := 0, input, into;
    while true
      invariant jump == 0 || IsResponseTag(jump)
      invariant ResponseFrom(jump, bs, m) == ReadResponse(input, into)
      decreases |bs|
    {
      var tag, at := jump, bs;
      if jump == 0 {
        var t := ReadTag(bs);
        tag, at := t.tag, t.rest;
        if tag == 0 || tag % 8 == END_GROUP {
          return Parsed(m, t.atEnd);
        }
        if tag > 16383 || !IsResponseTag(tag) {
          var skipped := SkipField(tag, at, 0);
          if skipped.None? {
            return Failed;
          }
          m, bs := m.(unknown := m.unknown + [skipped.value.0]), skipped.value.1;
          continue;
        }
      }
      var ok, rest;
      ok, m, rest := ResponseField(tag, at, m);
      if !ok {
        return Failed;
      }
      jump, bs := 0, rest;
      if tag != 162 {
        jump, bs := ExpectResponseTag(18, rest, m);
        if jump == 0 && tag == 18 {
          jump, bs := ExpectResponseTag(162, rest, m);
        }
      }
      var looks: bool := *;
      if tag == 162 && looks && bs == [] {
        assert ResponseFrom(0, bs, m) == ReadResponse(input, into);
        return Parsed(m, true);
      }
    }
  }

  method ResponseField(tag: uint32, bs: seq<byte>, m: Response) returns (ok: bool, next: Response, rest: seq<byte>)
    requires IsResponseTag(tag)
    ensures ok <==> ReadResponseField(tag, bs, m).Some?
    ensures ok ==> ReadResponseField(tag, bs, m) == Some((next, rest)) && |rest| < |bs|
  {
    ok, next, rest := false, m, bs;
    if tag == 8 {
      var v := ReadVarint32(bs);
      if v.Some? {
        ok, next, rest := true, m.(userId := Some(v.value.0)), v.value.1;
      }
    } else if tag == 18 {
      var child := MergeNested(bs);
      if child.Some? {
        ok, next, rest := true, m.(contacts := m.contacts + [child.value.0]), child.value.1;
      }
    } else {
      var data := ReadBytes(bs);
      if data.Some? {
        ok, next, rest := true, m.(attachData := Some(data.value.0)), data.value.1;
      }
    }
  }

  /** Size, then print, then parse: the parser gets the response back, and the printed
      length is the size that was announced. */
  method SizePrintParse(rsp: IMRecentContactSessionRsp) returns (out: seq<byte>, parsed: Outcome)
    requires rsp.Sizable() && Distinct(rsp.contacts) && Holdable(rsp.View())
    modifies rsp`cachedSize, rsp.contacts`cachedSize
    ensures |out| == rsp.cachedSize && parsed == Parsed(rsp.View(), true) && rsp.View() == old(rsp.View())
  {
    var total := rsp.ByteSize();
    out := rsp.SerializeWithCachedSizes();
    ResponseRoundTrip(rsp.View());
    parsed := MergeResponse(out, NO_RESPONSE);
  }
}
