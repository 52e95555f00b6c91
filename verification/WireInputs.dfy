/** What the wire primitives make of arbitrary bytes, not only of what the printer writes. */
module WireInputs {
  import opened Basics
  import opened Wire

  // ---- Varints ----

  /** How many bytes with the high bit set come first. */
  function Continued(bs: seq<byte>): (n: nat)
    ensures n <= |bs| && (n < |bs| ==> bs[n] < 128)
    ensures forall i :: 0 <= i < n ==> bs[i] >= 128
  {
    if bs == [] || bs[0] < 128 then 0 else 1 + Continued(bs[1..])
  }

  /** The number that the low seven bits spell, least significant first. */
  function Spelled(bs: seq<byte>): nat {
    if bs == [] then 0 else Spelled(bs[..|bs| - 1]) + bs[|bs| - 1] % 128 * Pow128(|bs| - 1)
  }

  lemma {:induction false} SpelledBehind(b: byte, bs: seq<byte>)
    ensures Spelled([b] + bs) == b % 128 + 128 * Spelled(bs)
    decreases |bs|
  {
    if bs == [] {
      assert [b] + bs == [b] && [b][..0] == [];
      assert Spelled([b]) == Spelled([]) + b % 128 * Pow128(0);
    } else {
      var n, last := |bs|, bs[|bs| - 1] % 128;
      assert ([b] + bs)[..n] == [b] + bs[..n - 1];
      SpelledBehind(b, bs[..n - 1]);
      assert last * Pow128(n) == 128 * (last * Pow128(n - 1)) by {
        assert Pow128(n) == 128 * Pow128(n - 1);
      }
    }
  }

  /** A varint is read exactly when it ends within the bytes allowed and at hand; it is then
      the number its bytes spell, canonical or not, and ends where it says. */
  lemma {:induction false} ReadRawExactlyWhen(bs: seq<byte>, count: nat)
    ensures ReadRaw(bs, count).Some? <==> Continued(bs) < |bs| && Continued(bs) < count
    ensures ReadRaw(bs, count).Some? ==>
      ReadRaw(bs, count).value == (Spelled(bs[..Continued(bs) + 1]), bs[Continued(bs) + 1..])
    decreases |bs|
  {
    hide Spelled;
    if count > 0 && bs != [] {
      var n := Continued(bs);
      SpelledSplit(bs, n);
      if bs[0] >= 128 { ReadRawExactlyWhen(bs[1..], count - 1); }
    }
  }

  lemma SpelledSplit(bs: seq<byte>, n: nat)
    requires bs != []
    ensures bs[0] < 128 ==> Spelled(bs[..1]) == bs[0]
    ensures 0 < n < |bs| ==> Spelled(bs[..n + 1]) == bs[0] % 128 + 128 * Spelled(bs[1..][..n]) && bs[n + 1..] == bs[1..][n..]
  {
    assert bs[..1] == [bs[0]] + [];
    SpelledBehind(bs[0], []);
    if 0 < n < |bs| {
      assert bs[..n + 1] == [bs[0]] + bs[1..][..n];
      SpelledBehind(bs[0], bs[1..][..n]);
    }
  }

  // ---- Truncated input ----

  lemma {:induction false} VarintContinues(v: nat)
    ensures Continued(Varint(v)) == |Varint(v)| - 1
  {
    if v >= 128 {
      VarintContinues(v / 128);
      assert Varint(v)[1..] == Varint(v / 128);
    }
  }

  lemma {:induction false} ContinuedOfPrefix(bs: seq<byte>, k: nat)
    requires k <= Continued(bs)
    ensures Continued(bs[..k]) == k
    decreases k
  {
    if k > 0 {
      ContinuedOfPrefix(bs[1..], k - 1);
      assert bs[..k][1..] == bs[1..][..k - 1];
    }
  }

  /** No proper beginning of a varint is one. */
  lemma TruncatedVarintFails(v: nat, k: nat)
    requires k < |Varint(v)|
    ensures ReadVarint32(Varint(v)[..k]) == None && ReadVarint64(Varint(v)[..k]) == None
  {
    VarintContinues(v);
    ContinuedOfPrefix(Varint(v), k);
    ReadRawExactlyWhen(Varint(v)[..k], MAX_VARINT_BYTES);
  }

  /** No proper beginning of length-delimited data is read, rather than cut short. */
  lemma TruncatedDataFails(data: seq<byte>, k: nat)
    requires |data| < TWO_31 && k < |Varint(|data|) + data|
    ensures ReadBytes((Varint(|data|) + data)[..k]) == None
  {
    var head := Varint(|data|);
    if k < |head| {
      TruncatedVarintFails(|data|, k);
      assert (head + data)[..k] == head[..k];
    } else {
      assert (head + data)[..k] == head + data[..k - |head|];
      Uint32RoundTrip(|data|, data[..k - |head|]);
    }
  }

  // ---- Groups ----

  /** n groups of field 1 inside each other, after the outermost start tag. */
  function Nested(n: nat): seq<byte> {
    if n <= 1 then [12] else [11] + Nested(n - 1) + [12]
  }

  function NestedField(n: nat): UnknownField {
    if n <= 1 then UGroup(1, []) else UGroup(1, [NestedField(n - 1)])
  }

  lemma EmptyGroup(rest: seq<byte>, depth: nat)
    ensures SkipGroup(1, [12] + rest, depth) == Some(([], rest))
  {
    ReadShortTag(12, rest);
  }

  lemma SkipInner(n: nat, rest: seq<byte>, depth: nat)
    requires n >= 1
    ensures SkipField(11, Nested(n) + rest, depth) ==
      if depth >= RECURSION_LIMIT then None
      else match SkipGroup(1, Nested(n) + rest, depth + 1)
        case None => None
        case Some((fields, after)) => Some((UGroup(1, fields), after))
  {
    hide SkipGroup, ReadVarint64, ReadBytes, Nested;
  }

  /** Groups are followed exactly as deep as the recursion limit allows. */
  lemma {:induction false} GroupDepthExactly(n: nat, rest: seq<byte>, depth: nat)
    requires n >= 1
    ensures SkipField(11, Nested(n) + rest, depth) ==
      if depth + n <= 100 then Some((NestedField(n), rest)) else None
    decreases n
  {
    hide SkipField, SkipGroup, ReadTag;
    SkipInner(n, rest, depth);
    if n == 1 {
      EmptyGroup(rest, depth + 1);
    } else {
      var inner := Nested(n - 1) + ([12] + rest);
      assert Nested(n) + rest == [11] + inner;
      ReadShortTag(11, inner);
      GroupDepthExactly(n - 1, [12] + rest, depth + 1);
      EmptyGroup(rest, depth + 1);
      GroupOfOne([11] + inner, inner, NestedField(n - 1), rest, depth + 1);
    }
  }

  lemma GroupOfOne(bs: seq<byte>, inner: seq<byte>, f: UnknownField, rest: seq<byte>, depth: nat)
    requires ReadTag(bs) == TagRead(11, inner, false)
    requires SkipGroup(1, [12] + rest, depth) == Some(([], rest))
    ensures SkipField(11, inner, depth) == None ==> SkipGroup(1, bs, depth) == None
    ensures SkipField(11, inner, depth) == Some((f, [12] + rest)) ==> SkipGroup(1, bs, depth) == Some(([f], rest))
  {
    assert [f] + [] == [f];
  }

  /** A group that ends with another group's end tag fails. */
  lemma WrongEndFails(number: nat, other: nat, rest: seq<byte>, depth: nat)
    requires other != number && other * 8 + END_GROUP < TWO_32
    ensures SkipGroup(number, Varint(other * 8 + END_GROUP) + rest, depth) == None
  {
    ReadTagOf(other * 8 + END_GROUP, rest);
    hide Varint;
  }
}
