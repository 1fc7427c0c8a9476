/** The parts of a GIF in numbers: code widths and table size, the order of interlaced lines, the colour of a pixel, and
    a raster in full. */
module GifLaws {
  import opened Bits
  import opened Grid
  import opened GifLzw
  import opened GifFrame
  import opened GifRaster

  // ----- codes -----

  /** A code gets one bit more when the next one does not fit, from three bits on and up to twelve. */
  lemma WidthGrows(width: nat, avail: nat)
    requires 3 <= width <= 12 && 0 < avail <= Pow2(width)
    ensures Grow(width, avail) == if avail == Pow2(width) && width < 12 then width + 1 else width
  {
    Pow2Values();
    Pow2Mono(width, 12);
    if width < 12 {
      Pow2Mono(width, 11);
    }
    if avail < Pow2(width) {
      SmallMod(avail, Pow2(width));
    } else {
      OneMultiple(avail);
    }
  }

  lemma OneMultiple(v: nat)
    requires v > 0
    ensures v % v == 0
  {
  }

  /** A raster whose first byte is above 12 is rejected. */
  lemma CodeSizeLimit(cs: byte, p: nat, input: seq<byte>)
    requires p < |input| && input[p] == cs
    ensures cs > 12 ==> RasterMeaning(input, p) == Corrupt
    ensures cs <= 12 && p + 1 < |input| && input[p + 1] == 0 ==> RasterMeaning(input, p) == Image([])
  {
  }

  /** Behind a clear code, a code beyond the next entry is rejected, and so is the next entry's before any string. */
  lemma UnknownRejected(cs: nat, st: LzwState, bits: seq<bit>, out: seq<byte>)
    requires 1 <= st.width <= |bits|
    ensures var code, next := FromBits(bits[..st.width]), Pow2(cs) + 2 + |st.dict|;
      code > next || (code == next && st.last == []) ==> LzwDecode(cs, st, bits, out) == Corrupt
  {
    hide FromBits;
  }

  /** One code of a stream. */
  lemma CodeStep(cs: nat, st: LzwState, code: nat, rest: seq<bit>, out: seq<byte>)
    requires st.width >= 1 && code < Pow2(st.width)
    ensures LzwDecode(cs, st, ToBits(code, st.width) + rest, out)
         == if code == ClearCode(cs) then LzwDecode(cs, Fresh(cs), rest, out)
            else if code == ClearCode(cs) + 1 then Image(out)
            else
              var str := Resolve(ClearCode(cs), st.dict, st.last, code);
              if str == [] || !st.started || !HasRoom(ClearCode(cs), st) then Corrupt
              else LzwDecode(cs, Learn(ClearCode(cs), st, str), rest, out + str)
  {
    var bits := ToBits(code, st.width) + rest;
    assert bits[..st.width] == ToBits(code, st.width) && bits[st.width..] == rest;
    FromToBits(code, st.width);
    SmallMod(code, Pow2(st.width));
    hide ToBits, FromBits, Learn, Resolve, HasRoom, ClearCode;
  }

  // ----- a raster in full -----

  /** Code size 2, one sub-block of two bytes: the codes 4 (clear), 1, 6, 7 of three bits each and 5 (end) of four. */
  const SIX_ONES: seq<byte> := [2, 2, 0x8C, 0x5F, 0]

  lemma SixOnesBits()
    ensures BytesToBits([0x8C, 0x5F]) == [0, 0, 1] + ([1, 0, 0] + ([0, 1, 1] + ([1, 1, 1] + [1, 0, 1, 0])))
  {
    hide ToBits, BytesToBits;
    ByteOf(0, 0, 1, 1, 0, 0, 0, 1);
    ByteOf(1, 1, 1, 1, 1, 0, 1, 0);
    ByteFirst(0x8C, [0x5F]);
    ByteFirst(0x5F, []);
    NoBytes();
    assert [0x8C] + [0x5F] == [0x8C, 0x5F] && [0x5F] + [] == [0x5F];
  }

  lemma ThreeBits(a: bit, b: bit, c: bit)
    ensures ToBits(a + 2 * b + 4 * c, 3) == [a, b, c]
  {
    hide ToBits;
    BitFirst(a, [b, c]);
    BitFirst(b, [c]);
    BitFirst(c, []);
    assert [a] + [b, c] == [a, b, c] && [b] + [c] == [b, c] && [c] + [] == [c];
    ToFromBits([a, b, c]);
  }

  lemma FourBits(a: bit, b: bit, c: bit, d: bit)
    ensures ToBits(a + 2 * b + 4 * c + 8 * d, 4) == [a, b, c, d]
  {
    hide ToBits;
    FourOf(a, b, c, d, []);
    assert [a, b, c, d] + [] == [a, b, c, d];
    ToFromBits([a, b, c, d]);
  }

  /** The table behind the codes 1, 6 and 7: each names the string before and its own first index again. */
  lemma SixOnesLearned()
    ensures Resolve(4, [], [], 1) == [1] && Learn(4, Fresh(2), [1]) == LzwState(true, 3, [], [1])
    ensures Resolve(4, [], [1], 6) == [1, 1]
    ensures Learn(4, LzwState(true, 3, [], [1]), [1, 1]) == LzwState(true, 3, [[1, 1]], [1, 1])
    ensures Resolve(4, [[1, 1]], [1, 1], 7) == [1, 1, 1]
    ensures Learn(4, LzwState(true, 3, [[1, 1]], [1, 1]), [1, 1, 1]) == LzwState(true, 4, [[1, 1], [1, 1, 1]], [1, 1, 1])
  {
    Pow2Values();
    assert [1] + [1] == [1, 1] && [1, 1] + [1] == [1, 1, 1] && [] + [[1, 1]] == [[1, 1]];
  }

  /** The raster stands for six times the index 1. */
  lemma SixOnes()
    ensures RasterMeaning(SIX_ONES, 0) == Image([1, 1, 1, 1, 1, 1])
  {
    hide LzwDecode, Learn, Resolve, ToBits, BytesToBits, Payload;
    Pow2Values();
    SixOnesPayload();
    SixOnesBits();
    SixOnesLearned();
    ThreeBits(0, 0, 1);
    ThreeBits(1, 0, 0);
    ThreeBits(0, 1, 1);
    ThreeBits(1, 1, 1);
    FourBits(1, 0, 1, 0);
    var e := [1, 0, 1, 0];
    assert e == e + [];
    CodeStep(2, Unstarted(2), 4, [1, 0, 0] + ([0, 1, 1] + ([1, 1, 1] + e)), []);
    CodeStep(2, Fresh(2), 1, [0, 1, 1] + ([1, 1, 1] + e), []);
    CodeStep(2, LzwState(true, 3, [], [1]), 6, [1, 1, 1] + e, [] + [1]);
    CodeStep(2, LzwState(true, 3, [[1, 1]], [1, 1]), 7, e, [] + [1] + [1, 1]);
    CodeStep(2, LzwState(true, 4, [[1, 1], [1, 1, 1]], [1, 1, 1]), 5, [], [] + [1] + [1, 1] + [1, 1, 1]);
    assert [] + [1] + [1, 1] + [1, 1, 1] == [1, 1, 1, 1, 1, 1];
  }

  lemma SixOnesPayload()
    ensures Payload(SIX_ONES, 1) == [0x8C, 0x5F]
  {
    assert Payload(SIX_ONES, 4) == [];
    assert Chunk(SIX_ONES, 2, 2) == [0x8C, 0x5F];
    assert [0x8C, 0x5F] + [] == [0x8C, 0x5F];
  }

  // ----- interlacing -----

  /** The group of a line: every eighth from the first, every eighth from the fifth, every fourth from the third, and
      the odd ones. */
  function Group(y: nat): nat
  {
    if y % 8 == 0 then 1 else if y % 8 == 4 then 2 else if y % 4 == 2 then 3 else 4
  }

  /** Lines are sent group by group, and from the top within a group. */
  lemma InterlaceOrder(f: Frame, y: nat, y': nat)
    requires f.interlaced && y < f.h && y' < f.h
    ensures Rank(f, y) < Rank(f, y') <==> Group(y) < Group(y') || (Group(y) == Group(y') && y < y')
  {
    hide PassEnd, Lines, Rank, PassLine, Place;
    RankInGroup(f, y);
    RankInGroup(f, y');
    PassEnds(f.h);
    if Phase(y) == Phase(y') {
      SameGroup(y, y');
    }
  }

  lemma PassEnds(h: nat)
    ensures PassEnd(h, 3) <= PassEnd(h, 2) <= PassEnd(h, 1) <= PassEnd(h, 0)
  {
  }

  lemma RankInGroup(f: Frame, y: nat)
    requires f.interlaced && y < f.h
    ensures Phase(y) == 4 - Group(y)
    ensures Rank(f, y) == (if Phase(y) == 3 then 0 else PassEnd(f.h, Phase(y) + 1)) + Place(y) && Place(y) < Lines(f.h, Phase(y))
    ensures Rank(f, y) < PassEnd(f.h, Phase(y))
  {
    ModChain(y);
  }

  lemma SameGroup(y: nat, y': nat)
    requires Phase(y) == Phase(y')
    ensures Place(y) < Place(y') <==> y < y'
  {
    ModChain(y);
    ModChain(y');
  }

  /** Without interlacing, and for places in the output, the number counts line by line from the top. */
  lemma CountsByLine(f: Frame, p: nat)
    requires InFrame(f, p) && !f.interlaced
    ensures NumberOf(f, p) == (p / f.width - f.y) * f.w + (p % f.width - f.x)
  {
    AtIs(f.w, p / f.width - f.y, p % f.width - f.x);
    hide At;
  }

  // ----- colours -----

  /** A drawn pixel whose colour has an alpha above 128 shows it, red, green, blue and alpha from a table that has blue
      first; any other pixel of the image stays as it was. */
  lemma PixelShown(f: Frame, colors: ColorMap, before: Scene, s: seq<byte>, after: Scene, p: nat)
    requires Painted(f, colors, before, s, after) && p < |after.history| && |after.out| == 4 * |after.history|
    ensures |before.out| == |after.out|
    ensures var shown := InFrame(f, p) && NumberOf(f, p) < |s| && colors[ColorAt(s[NumberOf(f, p)]) + 3] > 128;
      after.out[4 * p..4 * p + 4]
      == if shown then var c := ColorAt(s[NumberOf(f, p)]); [colors[c + 2], colors[c + 1], colors[c], colors[c + 3]]
         else before.out[4 * p..4 * p + 4]
  {
    hide NumberOf, InFrame, Painted;
    ByteShown(f, colors, before, s, after, p, 0);
    ByteShown(f, colors, before, s, after, p, 1);
    ByteShown(f, colors, before, s, after, p, 2);
    ByteShown(f, colors, before, s, after, p, 3);
  }

  /** Where a colour starts in the table. */
  function ColorAt(v: byte): (c: nat)
    ensures c <= 1020
  {
    4 * (v as int)
  }

  lemma ByteShown(f: Frame, colors: ColorMap, before: Scene, s: seq<byte>, after: Scene, p: nat, k: nat)
    requires Painted(f, colors, before, s, after) && 4 * p + k < |after.out| && k < 4
    ensures |before.out| == |after.out|
    ensures after.out[4 * p + k]
         == if Reached(f, p, |s|) && Opaque(colors, s[NumberOf(f, p)]) then Channel(colors, s[NumberOf(f, p)], k)
            else before.out[4 * p + k]
  {
    hide NumberOf, InFrame;
    assert (4 * p + k) / 4 == p && (4 * p + k) % 4 == k;
    assert after.out[4 * p + k] == PaintedByte(f, colors, before.out[4 * p + k], s, 4 * p + k);
  }
}
