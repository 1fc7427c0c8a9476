/** An encoder for whole zlib streams, and the proof that decoding undoes it. */
module ZlibFile {
  import opened Bits
  import opened Canonical
  import opened InflateBlock
  import opened Inflate
  import opened DynamicHeader
  import opened ZlibStream
  import opened DeflateEncode
  import opened ZlibEncode

  // ----- bytes and bits -----

  /** Equal bits mean equal bytes. */
  lemma {:induction false} SameBitsSameBytes(a: seq<byte>, b: seq<byte>)
    requires |a| == |b| && BytesToBits(a) == BytesToBits(b)
    ensures a == b
  {
    hide ToBits;
    if a != [] {
      assert ToBits(a[0], 8) == BytesToBits(a)[..8] == BytesToBits(b)[..8] == ToBits(b[0], 8);
      Pow2Values();
      ToBitsInjective(a[0], b[0], 8);
      assert BytesToBits(a[1..]) == BytesToBits(a)[8..] == BytesToBits(b)[8..] == BytesToBits(b[1..]);
      SameBitsSameBytes(a[1..], b[1..]);
    }
  }

  lemma BytesInside(input: seq<byte>, q: nat, n: nat)
    requires q + n <= |input|
    ensures BytesToBits(input)[8 * q..8 * (q + n)] == BytesToBits(input[q..q + n])
  {
    hide BytesToBits;
    var head, mid, tail := input[..q], input[q..q + n], input[q + n..];
    Cut(input, q, n);
    BytesToBitsAppend(head, mid + tail);
    BytesToBitsAppend(mid, tail);
    Middle(BytesToBits(head), BytesToBits(mid), BytesToBits(tail));
  }

  lemma Cut<T>(s: seq<T>, q: nat, n: nat)
    requires q + n <= |s|
    ensures s == s[..q] + (s[q..q + n] + s[q + n..])
  {
  }

  // ----- the encoder -----

  /** What a compressor puts into one block. */
  datatype Part =
    | StoredPart(data: seq<byte>)
    | FixedPart(items: seq<Item>)
    | DynamicPart(plan: Plan, items: seq<Item>)

  predicate PlanUsable(plan: Plan)
  {
    PlanFits(plan) && Accepted(PlanLL(plan)) && Accepted(PlanDD(plan)) && HasCode(PlanLL(plan), 256)
  }

  predicate PartFits(part: Part, out: seq<byte>)
  {
    match part
    case StoredPart(data) => |data| <= 0xFFFF
    case FixedPart(items) => AllCodable(FixedLL(), FixedDD(), items, out)
    case DynamicPart(plan, items) => PlanUsable(plan) && AllCodable(PlanLL(plan), PlanDD(plan), items, out)
  }

  function PartOutput(part: Part, out: seq<byte>): seq<byte>
    requires PartFits(part, out)
  {
    match part
    case StoredPart(data) => out + data
    case FixedPart(items) => Expansion(FixedLL(), FixedDD(), items, out)
    case DynamicPart(plan, items) => Expansion(PlanLL(plan), PlanDD(plan), items, out)
  }

  function PartKind(part: Part): nat
  {
    match part
    case StoredPart(_) => 0
    case FixedPart(_) => 1
    case DynamicPart(_, _) => 2
  }

  /** A 16-bit number, low byte first. */
  function TwoByteSeq(v: nat): (bs: seq<byte>)
    requires v <= 0xFFFF
    ensures |bs| == 2 && TwoBytes(bs[0], bs[1]) == v
  {
    [v % 256, v / 256]
  }

  /** Length, its complement, then the data. */
  function StoredBytes(data: seq<byte>): (bs: seq<byte>)
    requires |data| <= 0xFFFF
    ensures |bs| == 4 + |data|
  {
    TwoByteSeq(|data|) + TwoByteSeq(0xFFFF - |data|) + data
  }

  /** The body of a block whose header bits end at bit c of the stream. */
  function PartBody(part: Part, out: seq<byte>, c: nat): seq<bit>
    requires PartFits(part, out)
  {
    match part
    case StoredPart(data) => Zeros(8 * ByteAlign(c) - c) + BytesToBits(StoredBytes(data))
    case FixedPart(items) => FixedBits(items, out)
    case DynamicPart(plan, items) => PlanBits(plan) + BlockBits(PlanLL(plan), PlanDD(plan), items, out)
  }

  function FixedBits(items: seq<Item>, out: seq<byte>): seq<bit>
    requires AllCodable(FixedLL(), FixedDD(), items, out)
  {
    assert FixedLL()[256] == FixedLength(256);
    BlockBits(FixedLL(), FixedDD(), items, out)
  }

  function PartHeader(part: Part, last: bool): (b: seq<bit>)
    ensures |b| == 3
  {
    [if last then 1 else 0, PartKind(part) % 2, PartKind(part) / 2]
  }

  ghost predicate PartsFit(parts: seq<Part>, out: seq<byte>)
    decreases |parts|
  {
    parts == [] || (PartFits(parts[0], out) && PartsFit(parts[1..], PartOutput(parts[0], out)))
  }

  ghost function PartsOutput(parts: seq<Part>, out: seq<byte>): seq<byte>
    requires PartsFit(parts, out)
    decreases |parts|
  {
    if parts == [] then out else PartsOutput(parts[1..], PartOutput(parts[0], out))
  }

  /** All blocks from bit c of the stream on; only the last one is flagged as such. */
  ghost function PartsBits(parts: seq<Part>, out: seq<byte>, c: nat): seq<bit>
    requires PartsFit(parts, out)
    decreases |parts|
  {
    if parts == [] then []
    else
      var b := PartHeader(parts[0], |parts| == 1) + PartBody(parts[0], out, c + 3);
      b + PartsBits(parts[1..], PartOutput(parts[0], out), c + |b|)
  }

  // ----- decoding undoes it -----

  /** Bits b of the input start at bit c. */
  ghost predicate Holds(input: seq<byte>, c: nat, b: seq<bit>)
  {
    c + |b| <= BitLength(input) && BytesToBits(input)[c..c + |b|] == b
  }

  lemma HoldsSplit(input: seq<byte>, c: nat, a: seq<bit>, b: seq<bit>)
    requires Holds(input, c, a + b)
    ensures Holds(input, c, a) && Holds(input, c + |a|, b)
  {
    hide BytesToBits;
    var s := BytesToBits(input);
    assert a == s[c..c + |a + b|][..|a|];
    assert b == s[c..c + |a + b|][|a|..];
  }

  lemma HoldsRest(input: seq<byte>, c: nat, b: seq<bit>)
    requires Holds(input, c, b)
    ensures BytesToBits(input)[c..] == b + BytesToBits(input)[c + |b|..]
  {
    hide BytesToBits;
  }

  lemma StoredUndone(input: seq<byte>, p: nat, data: seq<byte>, out: seq<byte>)
    requires |data| <= 0xFFFF && Holds(input, 8 * p, BytesToBits(StoredBytes(data)))
    ensures Stored(input, p, out) == StoredDone(p + 4 + |data|, out + data)
  {
    hide BytesToBits, TwoBytes, TwoByteSeq;
    var bs := StoredBytes(data);
    var n := |bs|;
    BytesInside(input, p, n);
    SameBitsSameBytes(input[p..p + n], bs);
    forall i | 0 <= i < n ensures ByteAt(input, p + i) == bs[i] {
      assert input[p..p + n][i] == input[p + i];
    }
    assert Word(input, p) == TwoBytes(bs[0], bs[1]);
    assert Word(input, p + 2) == TwoBytes(bs[2], bs[3]);
    assert input[p + 4..p + n] == bs[4..] == data;
  }

  lemma StoredPartUndone(input: seq<byte>, part: Part, out: seq<byte>, c: nat)
    requires part.StoredPart? && PartFits(part, out) && Holds(input, c, PartBody(part, out, c))
    ensures BlockBody(input, 0, c, out) == Finished(c + |PartBody(part, out, c)|, PartOutput(part, out))
  {
    hide BytesToBits, StoredBytes, Stored;
    var pad := Zeros(8 * ByteAlign(c) - c);
    HoldsSplit(input, c, pad, BytesToBits(StoredBytes(part.data)));
    StoredUndone(input, ByteAlign(c), part.data, out);
  }

  lemma CompressedUndone(ll: seq<nat>, dd: seq<nat>, n: nat, items: seq<Item>, out: seq<byte>, rest: seq<bit>)
    requires ValidLens(ll) && Accepted(ll) && ValidLens(dd) && Accepted(dd)
    requires HasCode(ll, 256) && AllCodable(ll, dd, items, out) && |BlockBits(ll, dd, items, out)| + |rest| <= n
    ensures Compressed(ll, dd, n, BlockBits(ll, dd, items, out) + rest, out)
         == Finished(n - |rest|, Expansion(ll, dd, items, out))
  {
    hide Block, BlockBits, ValidLens, Accepted, Expansion;
    BlockUndone(ll, dd, items, out, rest);
  }

  lemma FixedPartUndone(input: seq<byte>, part: Part, out: seq<byte>, c: nat)
    requires part.FixedPart? && PartFits(part, out) && Holds(input, c, PartBody(part, out, c))
    ensures BlockBody(input, 1, c, out) == Finished(c + |PartBody(part, out, c)|, PartOutput(part, out))
  {
    hide BytesToBits, BlockBits, Accepted, Compressed, Expansion, AllCodable;
    var b := PartBody(part, out, c);
    FixedLLAccepted();
    FixedDDAccepted();
    assert FixedLL()[256] == FixedLength(256);
    HoldsRest(input, c, b);
    CompressedUndone(FixedLL(), FixedDD(), BitLength(input), part.items, out, BytesToBits(input)[c + |b|..]);
  }

  lemma DynamicPartUndone(input: seq<byte>, part: Part, out: seq<byte>, c: nat)
    requires part.DynamicPart? && PartFits(part, out) && Holds(input, c, PartBody(part, out, c))
    ensures BlockBody(input, 2, c, out) == Finished(c + |PartBody(part, out, c)|, PartOutput(part, out))
  {
    hide BytesToBits, BlockBits, Accepted, Compressed, Expansion, AllCodable, PlanBits, PlanLL, PlanDD, Header, PlanFits, HasCode;
    var b := PartBody(part, out, c);
    var ll, dd := PlanLL(part.plan), PlanDD(part.plan);
    var tail := BytesToBits(input)[c + |b|..];
    var block := BlockBits(ll, dd, part.items, out);
    HoldsRest(input, c, b);
    assert b + tail == PlanBits(part.plan) + (block + tail);
    HeaderUndone(part.plan, block + tail);
    CompressedUndone(ll, dd, BitLength(input), part.items, out, tail);
  }

  lemma PartUndone(input: seq<byte>, part: Part, last: bool, out: seq<byte>, c: nat)
    requires PartFits(part, out) && Holds(input, c, PartHeader(part, last) + PartBody(part, out, c + 3))
    ensures OneBlock(input, c, out) == Finished(c + 3 + |PartBody(part, out, c + 3)|, PartOutput(part, out))
    ensures c < BitLength(input) && BytesToBits(input)[c] == (if last then 1 else 0)
  {
    hide BytesToBits, PartBody, PartOutput, BlockBody, PartFits;
    HoldsSplit(input, c, PartHeader(part, last), PartBody(part, out, c + 3));
    var s, h := BytesToBits(input), PartHeader(part, last);
    assert s[c] == s[c..c + 3][0] == h[0];
    assert s[c + 1] == s[c..c + 3][1] == h[1];
    assert s[c + 2] == s[c..c + 3][2] == h[2];
    match part
    case StoredPart(_) => StoredPartUndone(input, part, out, c + 3);
    case FixedPart(_) => FixedPartUndone(input, part, out, c + 3);
    case DynamicPart(_, _) => DynamicPartUndone(input, part, out, c + 3);
  }

  /** Decoding a run of blocks undoes coding it. */
  lemma {:induction false} PartsUndone(input: seq<byte>, parts: seq<Part>, out: seq<byte>, c: nat)
    requires parts != [] && PartsFit(parts, out) && Holds(input, c, PartsBits(parts, out, c))
    ensures Blocks(input, c, out) == Finished(c + |PartsBits(parts, out, c)|, PartsOutput(parts, out))
    decreases |parts|
  {
    hide BytesToBits, PartBody, PartOutput, OneBlock, PartFits, PartHeader, Holds;
    var b := PartHeader(parts[0], |parts| == 1) + PartBody(parts[0], out, c + 3);
    var next := PartOutput(parts[0], out);
    HoldsSplit(input, c, b, PartsBits(parts[1..], next, c + |b|));
    PartUndone(input, parts[0], |parts| == 1, out, c);
    if |parts| > 1 {
      PartsUndone(input, parts[1..], next, c + |b|);
    }
  }

  /** A zlib file: two header bytes, the blocks, and a trailer (an Adler-32 checksum in RFC 1950, not looked at). */
  ghost function ZlibFileBytes(parts: seq<Part>, trailer: seq<byte>): seq<byte>
    requires PartsFit(parts, [])
  {
    [0x78, 0x01] + (Pack(PartsBits(parts, [], 16)) + trailer)
  }

  lemma PackedHolds(head: seq<byte>, bits: seq<bit>, trailer: seq<byte>)
    ensures Holds(head + (Pack(bits) + trailer), 8 * |head|, bits)
  {
    hide BytesToBits, Pack;
    PackKeeps(bits);
    BytesToBitsAppend(head, Pack(bits) + trailer);
    BytesToBitsAppend(Pack(bits), trailer);
  }

  /** Decoding a zlib file gives the output of its blocks. */
  lemma ZlibUndone(parts: seq<Part>, trailer: seq<byte>)
    requires parts != [] && PartsFit(parts, [])
    ensures Meaning(ZlibFileBytes(parts, trailer), true)
         == Finished(16 + |PartsBits(parts, [], 16)|, PartsOutput(parts, []))
  {
    hide BytesToBits, Pack, PartsBits, PartsOutput, Blocks, PartsFit, Holds;
    var bits := PartsBits(parts, [], 16);
    var input := ZlibFileBytes(parts, trailer);
    PartsNotEmpty(parts);
    PackedHolds([0x78, 0x01], bits, trailer);
    PartsUndone(input, parts, [], 16);
    assert input[0] == 0x78 && input[1] == 0x01;
    assert Checksum(0x78, 0x01) == 31 * 991;
    assert Bit(1, 5) == 0;
  }

  lemma PartsNotEmpty(parts: seq<Part>)
    requires parts != [] && PartsFit(parts, [])
    ensures |PartsBits(parts, [], 16)| >= 3
  {
    hide PartBody, PartOutput, PartFits;
  }

  /** Any data cut into stored blocks. */
  function StoreAll(data: seq<byte>): (parts: seq<Part>)
    ensures parts != []
  {
    if |data| <= 0xFFFF then [StoredPart(data)]
    else [StoredPart(data[..0xFFFF])] + StoreAll(data[0xFFFF..])
  }

  lemma {:induction false} StoreAllOutput(data: seq<byte>, out: seq<byte>)
    ensures PartsFit(StoreAll(data), out) && PartsOutput(StoreAll(data), out) == out + data
  {
    if |data| <= 0xFFFF {
      assert StoreAll(data)[1..] == [];
    } else {
      StoreAllOutput(data[0xFFFF..], out + data[..0xFFFF]);
      assert out + data[..0xFFFF] + data[0xFFFF..] == out + data;
      assert StoreAll(data)[1..] == StoreAll(data[0xFFFF..]);
    }
  }

  /** Every byte string has a zlib file that decodes to it. */
  lemma EverythingEncodable(data: seq<byte>, trailer: seq<byte>)
    ensures PartsFit(StoreAll(data), [])
    ensures var r := Meaning(ZlibFileBytes(StoreAll(data), trailer), true); r.Finished? && r.out == data
  {
    hide PartsOutput, PartsFit, Meaning;
    StoreAllOutput(data, []);
    ZlibUndone(StoreAll(data), trailer);
  }
}
