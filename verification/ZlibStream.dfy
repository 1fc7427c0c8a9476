/** The whole zlib stream: what its bits mean, and the decoder proved against that meaning. */
module ZlibStream {
  import opened Bits
  import opened Canonical
  import opened ZHuffman
  import opened ZBuf
  import opened InflateBlock
  import opened Inflate
  import opened DynamicHeader

  // ----- the fixed codes (section 3.2.6 of RFC 1951) -----

  function FixedLength(i: nat): nat
  {
    if i <= 143 then 8 else if i <= 255 then 9 else if i <= 279 then 7 else 8
  }

  function FixedLL(): (lens: seq<nat>)
    ensures |lens| == 288 && ValidLens(lens)
  {
    seq(288, (i: nat) => FixedLength(i))
  }

  function FixedDD(): (lens: seq<nat>)
    ensures |lens| == 32 && ValidLens(lens)
  {
    seq(32, (i: nat) => 5)
  }

  lemma {:induction false} KraftRun(lens: seq<nat>, m: nat, n: nat, l: nat)
    requires ValidLens(lens) && m <= n <= |lens| && 1 <= l <= MAX_LENGTH
    requires forall i :: m <= i < n ==> lens[i] == l
    ensures KraftTo(lens, n) == KraftTo(lens, m) + (n - m) * Pow2(MAX_LENGTH - l)
  {
    hide Pow2, KraftTo;
    var k := n - m;
    MulNothing(Pow2(MAX_LENGTH - l));
    if k > 0 {
      KraftRun(lens, m, n - 1, l);
      MulStep(k - 1, Pow2(MAX_LENGTH - l));
      KraftNext(lens, n);
    }
  }

  lemma MulNothing(p: nat)
    ensures 0 * p == 0
  {
  }

  lemma KraftNext(lens: seq<nat>, n: nat)
    requires ValidLens(lens) && 0 < n <= |lens| && lens[n - 1] > 0
    ensures KraftTo(lens, n) == KraftTo(lens, n - 1) + Pow2(MAX_LENGTH - lens[n - 1])
  {
  }

  lemma KraftStart(lens: seq<nat>)
    requires ValidLens(lens)
    ensures KraftTo(lens, 0) == 0
  {
  }

  /** The fixed literal/length code is complete. */
  lemma FixedLLAccepted()
    ensures Accepted(FixedLL())
  {
    hide KraftTo, Pow2;
    var ll := FixedLL();
    Pow2Values();
    KraftStart(ll);
    KraftRun(ll, 0, 144, 8);
    KraftRun(ll, 144, 256, 9);
    KraftRun(ll, 256, 280, 7);
    KraftRun(ll, 280, 288, 8);
  }

  /** The fixed distance code is complete. */
  lemma FixedDDAccepted()
    ensures Accepted(FixedDD())
  {
    hide KraftTo, Pow2;
    Pow2Values();
    KraftStart(FixedDD());
    KraftRun(FixedDD(), 0, 32, 5);
  }

  // ----- meaning -----

  /** Finished: the last block ended at bit `next`. Invalid and CutOff as for single blocks. */
  datatype StreamResult = Finished(next: nat, out: seq<byte>) | Invalid | CutOff

  function BitLength(input: seq<byte>): nat
  {
    8 * |input|
  }

  /** A two-bit number, least significant bit first. */
  function TwoBits(low: nat, high: nat): nat
  {
    low + 2 * high
  }

  /** A block of the given kind whose header bits end at bit c. */
  function BlockBody(input: seq<byte>, kind: nat, c: nat, out: seq<byte>): (r: StreamResult)
    requires c <= BitLength(input)
    ensures r.Finished? ==> c <= r.next <= BitLength(input) && |out| <= |r.out|
  {
    var s := BytesToBits(input);
    if kind == 0 then
      match Stored(input, ByteAlign(c), out)
      case StoredBad => Invalid
      case StoredDone(next, o) => Finished(8 * next, o)
    else if kind == 3 then Invalid
    else if kind == 1 then Compressed(FixedLL(), FixedDD(), |s|, s[c..], out)
    else DynamicBlock(|s|, s[c..], out)
  }

  /** The block that starts at bit c: one bit says whether it is the last, two bits give its kind. */
  function OneBlock(input: seq<byte>, c: nat, out: seq<byte>): (r: StreamResult)
    requires c + 3 <= BitLength(input)
    ensures r.Finished? ==> c + 3 <= r.next <= BitLength(input) && |out| <= |r.out|
  {
    var s := BytesToBits(input);
    BlockBody(input, TwoBits(s[c + 1], s[c + 2]), c + 3, out)
  }

  /** A compressed block's result, positions counted from the start of a stream of n bits. */
  function Compressed(ll: seq<nat>, dd: seq<nat>, n: nat, body: seq<bit>, out: seq<byte>): (r: StreamResult)
    requires |body| <= n
    ensures r.Finished? ==> n - |body| <= r.next <= n && |out| <= |r.out|
  {
    match Block(ll, dd, body, out)
    case Bad => Invalid
    case Short => CutOff
    case Done(rest, o) =>
      BlockGrows(ll, dd, body, out);
      Finished(n - |rest|, o)
  }

  function AfterHeader(ll: seq<nat>, dd: seq<nat>, n: nat, body: seq<bit>, rest: seq<bit>, out: seq<byte>): (r: StreamResult)
    requires |body| <= n && Header(body) == Tables(ll, dd, rest)
    ensures r.Finished? ==> n - |body| <= r.next <= n && |out| <= |r.out|
  {
    HeaderShrinks(body);
    Compressed(ll, dd, n, rest, out)
  }

  /** The meaning of a dynamic block whose header starts the body. */
  function DynamicBlock(n: nat, body: seq<bit>, out: seq<byte>): (r: StreamResult)
    requires |body| <= n
    ensures r.Finished? ==> n - |body| <= r.next <= n && |out| <= |r.out|
  {
    match Header(body)
    case BadHeader => Invalid
    case ShortHeader => CutOff
    case Tables(ll, dd, rest) => AfterHeader(ll, dd, n, body, rest, out)
  }

  lemma {:induction false} ReadLengthsShrinks(cl: seq<nat>, ntot: nat, acc: seq<nat>, bits: seq<bit>)
    requires |cl| == 19 && |acc| <= ntot && AllLengths(acc)
    requires ReadLengths(cl, ntot, acc, bits).Lengths?
    ensures |ReadLengths(cl, ntot, acc, bits).rest| <= |bits|
    decreases |bits|
  {
    if |acc| < ntot {
      var c := DecodeSymbol(cl, bits).value;
      var rest := bits[cl[c]..];
      if c < 16 {
        ReadLengthsShrinks(cl, ntot, acc + [c], rest);
      } else {
        var n := RepeatExtra(c);
        var count := Extra(RepeatBase(c), n, rest);
        ReadLengthsShrinks(cl, ntot, acc + Repeated(Fill(c, acc), count), rest[n..]);
      }
    }
  }

  lemma LengthsShrink(s: seq<bit>, c: nat, hclen: nat, ntot: nat)
    requires hclen <= 19 && c + 3 * hclen <= |s| && LengthsFrom(s, c, hclen, ntot).Lengths?
    ensures |LengthsFrom(s, c, hclen, ntot).rest| <= |s|
  {
    hide ReadLengths, Accepted;
    ReadLengthsShrinks(Arrange(Sizes(s, c, hclen)), ntot, [], s[c + 3 * hclen..]);
  }

  lemma HeaderShrinks(bits: seq<bit>)
    requires Header(bits).Tables?
    ensures |Header(bits).rest| <= |bits|
  {
    hide LengthsFrom, Accepted, FromBits;
    Pow2Values();
    var hlit := FromBits(bits[..5]) + 257;
    var hdist := FromBits(bits[5..10]) + 1;
    var hclen := FromBits(bits[10..14]) + 4;
    LengthsShrink(bits, 14, hclen, hlit + hdist);
  }

  /** Blocks from bit c on, up to and including the first one flagged as last. */
  function Blocks(input: seq<byte>, c: nat, out: seq<byte>): StreamResult
    decreases BitLength(input) - c
  {
    if c + 3 > BitLength(input) then CutOff
    else
      var r := OneBlock(input, c, out);
      if !r.Finished? || BytesToBits(input)[c] == 1 then r
      else Blocks(input, r.next, r.out)
  }

  function Checksum(cmf: nat, flg: nat): nat
  {
    cmf * 256 + flg
  }

  /** The two-byte zlib header (section 2.2 of RFC 1950), with a byte behind it. */
  predicate GoodZlibHeader(input: seq<byte>)
  {
    |input| > 2 && Checksum(input[0], input[1]) % 31 == 0 && Bit(input[1], 5) == 0 && input[0] % 16 == 8
  }

  /** What a whole input stands for. */
  function Meaning(input: seq<byte>, parseHeader: bool): StreamResult
  {
    if !parseHeader then Blocks(input, 0, [])
    else if GoodZlibHeader(input) then Blocks(input, 16, [])
    else Invalid
  }

  // ----- the decoder -----

  /** A block body from bit c on; nothing yet if the bits end before. */
  function BodyAt(input: seq<byte>, kind: nat, c: nat, out: seq<byte>): (r: StreamResult)
  {
    if c <= BitLength(input) then BlockBody(input, kind, c, out) else CutOff
  }

  /** A part of a stream that ended in front of bit c. */
  function FinishedAt(input: seq<byte>, c: nat, out: seq<byte>): StreamResult
  {
    if c <= BitLength(input) then Finished(c, out) else CutOff
  }

  /** Whatever zeros follow: the body from bit c0 on ends in front of bit c. */
  ghost predicate BodyEnds(input: seq<byte>, kind: nat, c0: nat, out0: seq<byte>, c: nat, out: seq<byte>)
  {
    forall n: nat :: BodyAt(Continued(input, n), kind, c0, out0) == FinishedAt(Continued(input, n), c, out)
  }

  /** The input itself is complete at most with an output above the limit. */
  ghost predicate Fails(spec: StreamResult, limit: nat)
  {
    spec.Finished? ==> |spec.out| > limit
  }

  /** Whatever zeros follow: from bit c on, with out written, the stream still means what it meant at its start. */
  ghost predicate TracksStream(input: seq<byte>, c0: nat, c: nat, out: seq<byte>)
  {
    forall n: nat :: Blocks(Continued(input, n), c0, []) == Blocks(Continued(input, n), c, out)
  }

  /** Whatever zeros follow: the stream ends in front of bit c. */
  ghost predicate StreamEnds(input: seq<byte>, c0: nat, c: nat, out: seq<byte>)
  {
    forall n: nat :: Blocks(Continued(input, n), c0, []) == FinishedAt(Continued(input, n), c, out)
  }

  /** The output is what the input stands for once enough zeros follow it; until then, it stands for nothing yet. */
  ghost predicate StandsFor(input: seq<byte>, parseHeader: bool, out: seq<byte>)
  {
    && (exists n: nat :: Meaning(Continued(input, n), parseHeader).Finished?)
    && (forall n: nat :: var r := Meaning(Continued(input, n), parseHeader); r.CutOff? || (r.Finished? && r.out == out))
  }

  /** The header test bit by bit. */
  lemma HeaderTests(cmf: byte, flg: byte)
    ensures And(flg, 32) != 0 <==> Bit(flg, 5) == 1
    ensures And(cmf, 15) == cmf % 16
  {
    Pow2Values();
    AndMask(cmf, 4);
    AndBit(flg, 5);
    ShlOne(5);
  }

  /** Masking with a single one tests that bit. */
  lemma {:induction false} AndBit(v: nat, n: nat)
    ensures And(v, Shl(1, n)) != 0 <==> Bit(v, n) == 1
  {
    if v == 0 {
      BitOfZero(n);
    } else if n == 0 {
      AndZero(v / 2);
    } else {
      AndBit(v / 2, n - 1);
    }
  }

  /** Checks the two header bytes. */
  method ParseZlibHeader(a: Buf) returns (ok: bool)
    requires a.ReaderValid() && a.num_bits == 0 && a.consumed == 0 && a.pos == 0
    modifies a`pos, a`code_buffer, a`consumed
    ensures a.ReaderValid()
    ensures ok <==> GoodZlibHeader(a.input)
    ensures ok ==> a.consumed == 16
  {
    var cmf := TakeByte(a);
    var flg := TakeByte(a);
    HeaderTests(cmf, flg);
    var cm := And(cmf, 15);
    if a.pos >= |a.input| {
      return false;
    }
    if Checksum(cmf, flg) % 31 != 0 {
      return false;
    }
    if And(flg, 32) != 0 {
      return false;
    }
    if cm != 8 {
      return false;
    }
    return true;
  }

  lemma {:induction false} NothingLeft(s: seq<bit>, c: nat, n: nat)
    requires c >= |s|
    ensures FromBits(Window(s, c, n)) == 0
  {
    WindowPast(s, c, n);
    FromToBits(0, n);
  }

  lemma StoredPastEnd(input: seq<byte>, c: nat, out: seq<byte>)
    requires c > BitLength(input)
    ensures Stored(input, ByteAlign(c), out).StoredBad?
  {
  }

  /** The three header bits of a block, as numbers. */
  lemma HeaderBits(s: seq<bit>, c: nat)
    requires c + 3 <= |s|
    ensures FromBits(Window(s, c, 1)) == s[c]
    ensures FromBits(Window(s, c + 1, 2)) == TwoBits(s[c + 1], s[c + 2])
  {
    var w := Window(s, c + 1, 2);
    assert w[1..] == [s[c + 2]];
    assert w[1..][1..] == [];
    assert Window(s, c, 1)[1..] == [];
  }

  lemma CompressedEnds(input: seq<byte>, b: BlockStart, c: nat, out: seq<byte>, n: nat)
    requires Ends(input, b, c, out)
    ensures CompressedAt(b.ll, b.dd, Padded(input, n), b.c, b.out) == FinishedAt(Continued(input, n), c, out)
  {
    hide Block, BytesToBits, Meant;
    assert Meant(input, b, n) == EndAt(Padded(input, n), c, out);
    MeantIs(input, b, n);
  }

  lemma MeantIs(input: seq<byte>, b: BlockStart, n: nat)
    ensures Meant(input, b, n) == BlockAt(b.ll, b.dd, Padded(input, n), b.c, b.out)
  {
  }

  function CompressedAt(ll: seq<nat>, dd: seq<nat>, s: seq<bit>, c: nat, out: seq<byte>): StreamResult
  {
    if c <= |s| then Compressed(ll, dd, |s|, s[c..], out) else CutOff
  }

  lemma CompressedFails(input: seq<byte>, b: BlockStart, limit: nat)
    requires TooBig(input, b, limit)
    ensures Fails(CompressedAt(b.ll, b.dd, BytesToBits(input), b.c, b.out), limit)
  {
    hide Block, BytesToBits;
    PaddedNothing(input);
  }

  lemma FixedEnds(input: seq<byte>, c0: nat, out0: seq<byte>, c: nat, out: seq<byte>)
    requires Ends(input, BlockStart(FixedLL(), FixedDD(), c0, out0), c, out)
    ensures BodyEnds(input, 1, c0, out0, c, out)
  {
    hide FixedLL, FixedDD, Compressed, BytesToBits, Ends, FinishedAt;
    forall n: nat ensures BodyAt(Continued(input, n), 1, c0, out0) == FinishedAt(Continued(input, n), c, out) {
      CompressedEnds(input, BlockStart(FixedLL(), FixedDD(), c0, out0), c, out, n);
    }
  }

  /** A block with the fixed codes. */
  method ParseFixed(a: Buf) returns (ok: bool)
    requires a.Valid()
    modifies a, a.obuf, a.z_length.Repr, a.z_distance.Repr
    ensures a.Valid() && (a.obuf == old(a.obuf) || fresh(a.obuf)) && a.Limit() == old(a.Limit())
    ensures a.consumed >= old(a.consumed)
    ensures if ok then BodyEnds(a.input, 1, old(a.consumed), old(a.Contents()), a.consumed, a.Contents())
            else Fails(BodyAt(a.input, 1, old(a.consumed), old(a.Contents())), a.Limit())
  {
    hide Buf.ReaderValid, Huffman.Built, Huffman.Valid, BytesToBits, MaxCapacity, FixedLL, FixedDD, Compressed, Accepted, Ends, TooBig,
      BodyEnds, Fails;
    ghost var c0, out0 := a.consumed, a.Contents();
    FixedLLAccepted();
    FixedDDAccepted();
    ok := a.z_length.Build(FixedLL());
    ok := a.z_distance.Build(FixedDD());
    ok := ParseHuffmanBlock(a, FixedLL(), FixedDD());
    if ok {
      FixedEnds(a.input, c0, out0, a.consumed, a.Contents());
    } else {
      CompressedFails(a.input, BlockStart(FixedLL(), FixedDD(), c0, out0), a.Limit());
    }
  }

  lemma DynamicEnds(input: seq<byte>, c0: nat, out0: seq<byte>, ll: seq<nat>, dd: seq<nat>, c1: nat, c: nat, out: seq<byte>)
    requires HeaderEndAt(input, c0, ll, dd, c1) && Ends(input, BlockStart(ll, dd, c1, out0), c, out) && c0 <= c1 <= c
    ensures BodyEnds(input, 2, c0, out0, c, out)
  {
    hide Compressed, BytesToBits, Ends, Header;
    forall n: nat ensures BodyAt(Continued(input, n), 2, c0, out0) == FinishedAt(Continued(input, n), c, out) {
      assert HeaderAt(Padded(input, n), c0) == HeaderEnd(ll, dd, Padded(input, n), c1);
      CompressedEnds(input, BlockStart(ll, dd, c1, out0), c, out, n);
    }
  }

  /** The header is there, but the block behind it is not, or it is too big. */
  lemma DynamicFails(input: seq<byte>, c0: nat, out0: seq<byte>, ll: seq<nat>, dd: seq<nat>, c1: nat, limit: nat)
    requires HeaderEndAt(input, c0, ll, dd, c1) && TooBig(input, BlockStart(ll, dd, c1, out0), limit)
    ensures Fails(BodyAt(input, 2, c0, out0), limit)
  {
    hide Compressed, BytesToBits, TooBig, Header;
    CompressedFails(input, BlockStart(ll, dd, c1, out0), limit);
    PaddedNothing(input);
    assert HeaderAt(Padded(input, 0), c0) == HeaderEnd(ll, dd, Padded(input, 0), c1);
  }

  lemma HeaderFails(input: seq<byte>, c0: nat, out0: seq<byte>, limit: nat)
    requires !HeaderAt(BytesToBits(input), c0).Tables?
    ensures Fails(BodyAt(input, 2, c0, out0), limit)
  {
    hide Header, BytesToBits;
  }

  /** A block with its own codes. */
  method ParseDynamic(a: Buf) returns (ok: bool)
    requires a.Valid()
    modifies a, a.obuf, a.z_length.Repr, a.z_distance.Repr
    ensures a.Valid() && (a.obuf == old(a.obuf) || fresh(a.obuf)) && a.Limit() == old(a.Limit())
    ensures a.consumed >= old(a.consumed)
    ensures if ok then BodyEnds(a.input, 2, old(a.consumed), old(a.Contents()), a.consumed, a.Contents())
            else Fails(BodyAt(a.input, 2, old(a.consumed), old(a.Contents())), a.Limit())
  {
    hide Buf.ReaderValid, Huffman.Built, Huffman.Valid, BytesToBits, MaxCapacity, HeaderAt, HeaderEndAt, Accepted, Ends, TooBig,
      BodyEnds, Fails, BodyAt;
    ghost var ll, dd;
    ghost var c0, out0 := a.consumed, a.Contents();
    ok, ll, dd := ComputeHuffmanCodes(a);
    assert a.Contents() == out0;
    if ok {
      ghost var c1 := a.consumed;
      ok := ParseHuffmanBlock(a, ll, dd);
      if ok {
        DynamicEnds(a.input, c0, out0, ll, dd, c1, a.consumed, a.Contents());
      } else {
        DynamicFails(a.input, c0, out0, ll, dd, c1, a.Limit());
      }
    } else {
      HeaderFails(a.input, c0, out0, a.Limit());
    }
  }

  lemma StoredEnds(input: seq<byte>, c0: nat, out0: seq<byte>)
    requires Stored(input, ByteAlign(c0), out0).StoredDone?
    ensures var r := Stored(input, ByteAlign(c0), out0); BodyEnds(input, 0, c0, out0, 8 * r.next, r.out)
  {
    hide BytesToBits;
    var r := Stored(input, ByteAlign(c0), out0);
    forall n: nat ensures BodyAt(Continued(input, n), 0, c0, out0) == FinishedAt(Continued(input, n), 8 * r.next, r.out) {
      StoredContinued(input, n, ByteAlign(c0), out0);
    }
  }

  /** The body of a block of the given kind. */
  method ParseBody(a: Buf, kind: nat) returns (ok: bool)
    requires a.Valid() && kind < 4
    modifies a, a.obuf, a.z_length.Repr, a.z_distance.Repr
    ensures a.Valid() && (a.obuf == old(a.obuf) || fresh(a.obuf)) && a.Limit() == old(a.Limit())
    ensures a.consumed >= old(a.consumed)
    ensures kind == 0 && old(a.consumed) > |a.Stream()| ==> !ok
    ensures if ok then BodyEnds(a.input, kind, old(a.consumed), old(a.Contents()), a.consumed, a.Contents())
            else Fails(BodyAt(a.input, kind, old(a.consumed), old(a.Contents())), a.Limit())
  {
    hide Buf.ReaderValid, Huffman.Valid, BytesToBits, MaxCapacity, Compressed, DynamicBlock, Stored, BodyEnds;
    ghost var c0, out0 := a.consumed, a.Contents();
    if kind == 0 {
      if a.consumed > |a.Stream()| {
        StoredPastEnd(a.input, a.consumed, a.Contents());
      }
      ok := ParseUncompressedBlock(a);
      if ok {
        StoredEnds(a.input, c0, out0);
      }
    } else if kind == 3 {
      ok := false;
    } else if kind == 1 {
      ok := ParseFixed(a);
    } else {
      ok := ParseDynamic(a);
    }
  }

  /** The kind of the block whose header bits start at bit c. */
  ghost function KindAt(input: seq<byte>, c: nat): nat
  {
    FromBits(Window(BytesToBits(input), c + 1, 2))
  }

  ghost function FinalAt(input: seq<byte>, c: nat): nat
  {
    FromBits(Window(BytesToBits(input), c, 1))
  }

  /** One block with its three header bits. Success means that the block ends where the cursor is and stands for the
      output, if need be with zeros behind the input. Behind the end of the input only failure remains. */
  method ParseBlock(a: Buf) returns (final: nat, ok: bool)
    requires a.Valid()
    modifies a, a.obuf, a.z_length.Repr, a.z_distance.Repr
    ensures a.Valid() && (a.obuf == old(a.obuf) || fresh(a.obuf)) && a.Limit() == old(a.Limit())
    ensures a.consumed >= old(a.consumed) + 3
    ensures old(a.consumed) > |a.Stream()| ==> !ok
    ensures final == FinalAt(a.input, old(a.consumed))
    ensures var c0, out0, kind := old(a.consumed), old(a.Contents()), KindAt(a.input, old(a.consumed));
      if ok then BodyEnds(a.input, kind, c0 + 3, out0, a.consumed, a.Contents())
      else Fails(BodyAt(a.input, kind, c0 + 3, out0), a.Limit())
  {
    hide Buf.ReaderValid, Huffman.Valid, BytesToBits, MaxCapacity, BodyAt, BodyEnds, Fails, FromBits, Window, ToBits;
    ghost var s, c := a.Stream(), a.consumed;
    final := a.Receive(1);
    KindBound(s, c + 1);
    var kind := a.Receive(2);
    if c > |s| {
      NothingLeft(s, c + 1, 2);
    }
    ok := ParseBody(a, kind);
  }

  lemma KindBound(s: seq<bit>, c: nat)
    ensures FromBits(Window(s, c, 2)) < 4
  {
    Pow2Values();
  }

  /** Blocks only add output. */
  lemma {:induction false} BlocksGrow(input: seq<byte>, c: nat, out: seq<byte>)
    requires Blocks(input, c, out).Finished?
    ensures |out| <= |Blocks(input, c, out).out|
    decreases BitLength(input) - c
  {
    hide BlockBody;
    var r := OneBlock(input, c, out);
    if BytesToBits(input)[c] != 1 {
      BlocksGrow(input, r.next, r.out);
    }
  }

  /** One block of an input, and how it moves the rest of the stream on. */
  lemma BlockGoesOn(input: seq<byte>, c: nat, out: seq<byte>)
    ensures var r := BodyAt(input, KindAt(input, c), c + 3, out); var spec := Blocks(input, c, out);
      if r.Finished? && FinalAt(input, c) != 1
      then spec == Blocks(input, r.next, r.out) && (spec.Finished? ==> |r.out| <= |spec.out|)
      else spec == r
  {
    hide BlockBody, FromBits, Window, BytesToBits;
    if c + 3 <= BitLength(input) {
      HeaderBits(BytesToBits(input), c);
      var r := OneBlock(input, c, out);
      if r.Finished? && Blocks(input, r.next, r.out).Finished? {
        BlocksGrow(input, r.next, r.out);
      }
    }
  }

  /** The header bits do not tell whether zeros follow the input. */
  lemma HeaderContinued(input: seq<byte>, n: nat, c: nat)
    ensures KindAt(Continued(input, n), c) == KindAt(input, c) && FinalAt(Continued(input, n), c) == FinalAt(input, c)
  {
    hide FromBits, Window, BytesToBits;
    PaddedWindow(input, n, c, 1);
    PaddedWindow(input, n, c + 1, 2);
  }

  lemma PastEnd(input: seq<byte>, c: nat, out: seq<byte>)
    requires c > BitLength(input)
    ensures Blocks(input, c, out) == CutOff
  {
  }

  /** A decoded block that is not the last one. */
  lemma StreamGoesOn(input: seq<byte>, c0: nat, c: nat, out: seq<byte>, c': nat, out': seq<byte>)
    requires TracksStream(input, c0, c, out) && FinalAt(input, c) != 1
    requires BodyEnds(input, KindAt(input, c), c + 3, out, c', out')
    ensures TracksStream(input, c0, c', out')
  {
    hide BodyAt, Blocks, KindAt, FinalAt, Continued;
    forall n: nat ensures Blocks(Continued(input, n), c0, []) == Blocks(Continued(input, n), c', out') {
      HeaderContinued(input, n, c);
      BlockGoesOn(Continued(input, n), c, out);
      if c' > BitLength(Continued(input, n)) {
        PastEnd(Continued(input, n), c', out');
      }
    }
  }

  /** The last block. */
  lemma StreamIsDone(input: seq<byte>, c0: nat, c: nat, out: seq<byte>, c': nat, out': seq<byte>)
    requires TracksStream(input, c0, c, out) && FinalAt(input, c) == 1
    requires BodyEnds(input, KindAt(input, c), c + 3, out, c', out')
    ensures StreamEnds(input, c0, c', out')
  {
    hide BodyAt, Blocks, KindAt, FinalAt, Continued;
    forall n: nat ensures Blocks(Continued(input, n), c0, []) == FinishedAt(Continued(input, n), c', out') {
      HeaderContinued(input, n, c);
      BlockGoesOn(Continued(input, n), c, out);
    }
  }

  lemma StreamFails(input: seq<byte>, c0: nat, c: nat, out: seq<byte>, limit: nat)
    requires TracksStream(input, c0, c, out) && Fails(BodyAt(input, KindAt(input, c), c + 3, out), limit)
    ensures Fails(Blocks(input, c0, []), limit)
  {
    hide BodyAt, Blocks, KindAt, FinalAt;
    PaddedNothing(input);
    assert Blocks(Continued(input, 0), c0, []) == Blocks(Continued(input, 0), c, out);
    BlockGoesOn(input, c, out);
  }

  lemma FinalBound(input: seq<byte>, c: nat)
    ensures FinalAt(input, c) < 2
  {
    Pow2Values();
  }

  /** Decodes a zlib stream, block by block, until the last one. */
  method ParseZlib(a: Buf, parseHeader: bool) returns (ok: bool)
    requires a.Valid() && a.num_bits == 0 && a.consumed == 0 && a.pos == 0 && a.zout == 0
    modifies a, a.obuf, a.z_length.Repr, a.z_distance.Repr
    ensures a.Valid() && (a.obuf == old(a.obuf) || fresh(a.obuf)) && a.Limit() == old(a.Limit())
    ensures if ok then StandsFor(a.input, parseHeader, a.Contents()) else Fails(Meaning(a.input, parseHeader), a.Limit())
  {
    hide Buf.ReaderValid, Huffman.Valid, BytesToBits, MaxCapacity, GoodZlibHeader, Blocks, TracksStream, StreamEnds, Fails, BodyAt,
      BodyEnds, KindAt, FinalAt;
    if parseHeader {
      ok := ParseZlibHeader(a);
      if !ok {
        InvalidFails(a.Limit());
        return;
      }
    }
    assert a.Contents() == [];
    ghost var c0 := a.consumed;
    StreamStart(a.input, c0);
    var more := true;
    ok := true;
    while more
      invariant a.Valid() && (a.obuf == old(a.obuf) || fresh(a.obuf)) && a.Limit() == old(a.Limit())
      invariant more ==> TracksStream(a.input, c0, a.consumed, a.Contents())
      invariant !more ==> if ok then StreamEnds(a.input, c0, a.consumed, a.Contents()) else Fails(Blocks(a.input, c0, []), a.Limit())
      decreases more, if a.consumed <= BitLength(a.input) then BitLength(a.input) + 1 - a.consumed else 0
    {
      ghost var c, out := a.consumed, a.Contents();
      FinalBound(a.input, c);
      var final;
      final, ok := ParseBlock(a);
      more := ok && final == 0;
      if !ok {
        StreamFails(a.input, c0, c, out, a.Limit());
      } else if more {
        StreamGoesOn(a.input, c0, c, out, a.consumed, a.Contents());
      } else {
        StreamIsDone(a.input, c0, c, out, a.consumed, a.Contents());
      }
    }
    if ok {
      EndStands(a.input, parseHeader, c0, a.consumed, a.Contents());
    }
  }

  lemma InvalidFails(limit: nat)
    ensures Fails(Invalid, limit)
  {
  }

  lemma StreamStart(input: seq<byte>, c0: nat)
    ensures TracksStream(input, c0, c0, [])
  {
  }

  lemma EndStands(input: seq<byte>, parseHeader: bool, c0: nat, c: nat, out: seq<byte>)
    requires StreamEnds(input, c0, c, out)
    requires if parseHeader then c0 == 16 && GoodZlibHeader(input) else c0 == 0
    ensures StandsFor(input, parseHeader, out)
  {
    hide Blocks;
    forall n: nat ensures Meaning(Continued(input, n), parseHeader) == FinishedAt(Continued(input, n), c, out) {
      assert Blocks(Continued(input, n), c0, []) == FinishedAt(Continued(input, n), c, out);
    }
    assert Meaning(Continued(input, c), parseHeader).Finished?;
  }

  /** The output buffer doubles at most up to this size. A call succeeds only with the output that its input stands for,
      if need be with zeros behind it; a complete input fails only if it is invalid or its output is too big. */
  method DoZlib(input: seq<byte>, initialSize: nat, expandable: bool, parseHeader: bool)
    returns (ok: bool, output: seq<byte>)
    requires 0 < initialSize <= UINT_MAX
    ensures ok ==> StandsFor(input, parseHeader, output)
    ensures match Meaning(input, parseHeader)
      case Invalid => !ok
      case CutOff => true
      case Finished(_, out) =>
        (ok <==> |out| <= (if expandable then MaxCapacity(initialSize) else initialSize)) && (ok ==> output == out)
  {
    var a := new Buf(input, initialSize, expandable);
    ok := ParseZlib(a, parseHeader);
    output := a.obuf[..a.zout];
    if ok {
      StandsNow(input, parseHeader, output);
    }
  }

  lemma StandsNow(input: seq<byte>, parseHeader: bool, out: seq<byte>)
    requires StandsFor(input, parseHeader, out)
    ensures var r := Meaning(input, parseHeader); r.CutOff? || (r.Finished? && r.out == out)
  {
    hide Meaning;
    PaddedNothing(input);
  }
}
