/** The growable network buffer: a byte array with a reader and a writer index,
    kept as a FIFO of bytes behind an 8-byte prepend area. */
module ByteBuffer {
  import opened Basics

  const CHEAP_PREPEND: nat := 8
  const INITIAL_SIZE: nat := 1024
  const EXTRA_SIZE: nat := 65536

  /** What one readv or write call reports. */
  datatype ReadResult = ReadError(errno: int) | ReadBytes(chunk: seq<byte>)

  class Buffer {
    var data: array<byte>
    var readerIndex: nat
    var writerIndex: nat

    ghost predicate Valid()
      reads this
    {
      CHEAP_PREPEND <= readerIndex <= writerIndex <= data.Length
    }

    /** The bytes waiting to be read, oldest first. */
    ghost function Contents(): seq<byte>
      requires Valid()
      reads this, data
    {
      data[readerIndex..writerIndex]
    }

    constructor (initialSize: nat)
      ensures Valid() && fresh(data)
      ensures Contents() == [] && data.Length == CHEAP_PREPEND + initialSize
    {
      data := new byte[CHEAP_PREPEND + initialSize](_ => 0);
      readerIndex, writerIndex := CHEAP_PREPEND, CHEAP_PREPEND;
    }

    function ReadableBytes(): (n: nat)
      requires Valid()
      reads this, data
      ensures n == |Contents()|
    {
      writerIndex - readerIndex
    }

    function WritableBytes(): nat
      requires Valid()
      reads this
    {
      data.Length - writerIndex
    }

    method RetrieveAll()
      requires Valid()
      modifies this
      ensures Valid() && data == old(data) && Contents() == []
      ensures readerIndex == writerIndex == CHEAP_PREPEND
    {
      readerIndex, writerIndex := CHEAP_PREPEND, CHEAP_PREPEND;
    }

    /** Drops the oldest len bytes; asking for more than there is drops everything. */
    method Retrieve(len: nat)
      requires Valid()
      modifies this
      ensures Valid() && data == old(data)
      ensures Contents() == old(Contents())[Min(len, |old(Contents())|)..]
      ensures Contents() == [] ==> readerIndex == writerIndex == CHEAP_PREPEND
    {
      if len < ReadableBytes() {
        readerIndex := readerIndex + len;
      } else {
        RetrieveAll();
      }
    }

    method RetrieveAsString(len: nat) returns (result: seq<byte>)
      requires Valid() && len <= ReadableBytes()
      modifies this
      ensures Valid() && data == old(data)
      ensures |result| == len && result + Contents() == old(Contents())
    {
      ghost var was := Contents();
      result := data[readerIndex..readerIndex + len];
      assert result == was[..len];
      Retrieve(len);
      assert Contents() == was[len..];
    }

    /** Makes room for len more bytes: by growing when even the reclaimed front
        would not do, otherwise by sliding the readable bytes down in place. */
    method MakeSpace(len: nat)
      requires Valid() && WritableBytes() < len
      modifies this, data
      ensures Valid() && (data == old(data) || fresh(data))
      ensures Contents() == old(Contents())
      ensures WritableBytes() >= len
      ensures readerIndex != old(readerIndex) ==> old(readerIndex) > CHEAP_PREPEND == readerIndex
      ensures data != old(data) <==> old(data.Length - writerIndex + readerIndex) < len + CHEAP_PREPEND
    {
      if WritableBytes() + readerIndex < len + CHEAP_PREPEND {
        var grown := new byte[writerIndex + len](_ => 0);
        CopyPrefix(data, grown);
        assert grown[readerIndex..writerIndex] == data[readerIndex..writerIndex];
        data := grown;
      } else {
        var readable := ReadableBytes();
        SlideDown();
        readerIndex := CHEAP_PREPEND;
        writerIndex := readerIndex + readable;
      }
    }

    /** std::copy onto an overlapping, lower destination. */
    method SlideDown()
      requires Valid()
      modifies data
      ensures data[CHEAP_PREPEND..CHEAP_PREPEND + ReadableBytes()] == old(Contents())
    {
      ghost var was := Contents();
      var i := 0;
      while i < writerIndex - readerIndex
        invariant 0 <= i <= |was| == writerIndex - readerIndex
        invariant forall k :: 0 <= k < i ==> data[CHEAP_PREPEND + k] == was[k]
        invariant forall k :: i <= k < |was| ==> data[readerIndex + k] == was[k]
      {
        data[CHEAP_PREPEND + i] := data[readerIndex + i];
        i := i + 1;
      }
    }

    method EnsureWritableBytes(len: nat)
      requires Valid()
      modifies this, data
      ensures Valid() && (data == old(data) || fresh(data))
      ensures Contents() == old(Contents())
      ensures WritableBytes() >= len
      ensures readerIndex != old(readerIndex) ==> old(readerIndex) > CHEAP_PREPEND == readerIndex
    {
      if WritableBytes() < len {
        MakeSpace(len);
      }
    }

    method Append(bytes: seq<byte>)
      requires Valid()
      modifies this, data
      ensures Valid() && (data == old(data) || fresh(data))
      ensures Contents() == old(Contents()) + bytes
    {
      EnsureWritableBytes(|bytes|);
      ghost var was := Contents();
      Fill(data, writerIndex, bytes);
      writerIndex := writerIndex + |bytes|;
      assert Contents() == was + bytes;
    }

    /** How many bytes one readFd may receive. */
    function ReadCapacity(): nat
      requires Valid()
      reads this
    {
      WritableBytes() + if WritableBytes() < EXTRA_SIZE then EXTRA_SIZE else 0
    }

    /** Scatter read: the kernel fills the writable tail first and spills the rest
        into a stack buffer, which is then appended. */
    method ReadFd(r: ReadResult) returns (n: int)
      requires Valid()
      requires r.ReadBytes? ==> |r.chunk| <= ReadCapacity()
      modifies this, data
      ensures Valid() && (data == old(data) || fresh(data))
      ensures r.ReadError? ==> n == -1 && Contents() == old(Contents())
      ensures r.ReadBytes? ==> n == |r.chunk| && Contents() == old(Contents()) + r.chunk
    {
      if r.ReadError? {
        return -1;
      }
      var writable := WritableBytes();
      var extra := new byte[EXTRA_SIZE](_ => 0);
      ReadV(r.chunk, extra);
      n := |r.chunk|;
      if n <= writable {
        assert r.chunk[..n] == r.chunk;
        writerIndex := writerIndex + n;
      } else {
        ghost var front := old(Contents()) + r.chunk[..writable];
        assert old(Contents()) + r.chunk == front + r.chunk[writable..];
        AppendBehindTail(extra[..n - writable], front);
      }
    }

    /** The whole tail has become readable; the spilled bytes come behind it. */
    method AppendBehindTail(spill: seq<byte>, ghost front: seq<byte>)
      requires Valid() && data[readerIndex..data.Length] == front
      modifies this, data
      ensures Valid() && (data == old(data) || fresh(data))
      ensures Contents() == front + spill
    {
      writerIndex := data.Length;
      Append(spill);
    }

    /** readv: fills the writable tail first, then the spill buffer. */
    method ReadV(chunk: seq<byte>, extra: array<byte>)
      requires Valid() && extra != data && |chunk| <= WritableBytes() + extra.Length
      modifies data, extra
      ensures data[readerIndex..writerIndex + Min(|chunk|, WritableBytes())] ==
        old(Contents()) + chunk[..Min(|chunk|, WritableBytes())]
      ensures |chunk| > WritableBytes() ==> extra[..|chunk| - WritableBytes()] == chunk[WritableBytes()..]
    {
      var direct := Min(|chunk|, WritableBytes());
      Fill(data, writerIndex, chunk[..direct]);
      Fill(extra, 0, chunk[direct..]);
    }
  }

  /** Copies bytes into a at offset and leaves the rest of a alone. */
  method Fill(a: array<byte>, offset: nat, bytes: seq<byte>)
    requires offset + |bytes| <= a.Length
    modifies a
    ensures a[..] == old(a[..offset]) + bytes + old(a[offset + |bytes|..])
  {
    ghost var was := a[..];
    for i := 0 to |bytes|
      invariant a[..] == was[..offset] + bytes[..i] + was[offset + i..]
    {
      a[offset + i] := bytes[i];
    }
  }

  method CopyPrefix(from: array<byte>, to: array<byte>)
    requires from.Length <= to.Length && from != to
    modifies to
    ensures forall j :: 0 <= j < from.Length ==> to[j] == from[j]
  {
    for i := 0 to from.Length
      invariant forall j :: 0 <= j < i ==> to[j] == from[j]
    {
      to[i] := from[i];
    }
  }
}
