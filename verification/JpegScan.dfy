/** Decoding AC coefficients from the entropy-coded bytes of a JPEG scan: the refill of the bit buffer, symbols and
    magnitudes one after the other, and the combined table in front of them. */
module JpegScan {
  import opened Bits
  import opened JpegAc

  const FILL: byte := 0xff

  /** Where the decoder stands: its bit buffer, the next byte to take, and the marker that ended the data. */
  datatype Source = Source(code: nat, bits: int, pos: nat, nomore: bool, marker: nat)

  function Buf(s: Source): Buffer
  {
    Buffer(s.code, s.bits)
  }

  /** The first place from p on that holds no fill byte. */
  function SkipFill(input: seq<byte>, p: nat): (q: nat)
    ensures q >= p && ByteAt(input, q) != FILL
    decreases |input| - p
  {
    if ByteAt(input, p) == FILL then SkipFill(input, p + 1) else p
  }

  // ----- what is still to come -----

  /** The data bytes from p on (section F.1.2.3 of ITU-T T.81): a byte 0xff counts when fill bytes and a zero follow;
      with anything else behind it, it starts a marker, which ends the data. */
  function Data(input: seq<byte>, p: nat): seq<byte>
    decreases |input| - p
  {
    if p >= |input| then []
    else if input[p] != FILL then [input[p]] + Data(input, p + 1)
    else
      var q := SkipFill(input, p + 1);
      if ByteAt(input, q) != 0 then [] else [FILL] + Data(input, After(input, q))
  }

  function Coming(input: seq<byte>, s: Source): seq<byte>
  {
    if s.nomore then [] else Data(input, s.pos)
  }

  function DataBit(d: seq<byte>, k: nat): bit
  {
    if k / 8 < |d| then Bit(d[k / 8], 7 - k % 8) else 0
  }

  /** Bit i of what is to come: the buffered bits, highest first, then those of the data, then zeros for ever. */
  function Upcoming(input: seq<byte>, s: Source, i: nat): bit
    requires 0 <= s.bits <= 32
  {
    if i < s.bits then Bit(s.code, 31 - i) else DataBit(Coming(input, s), i - s.bits)
  }

  /** All bits below the buffered ones are zero. */
  ghost predicate LowZero(code: nat, n: int)
  {
    forall i: nat :: i < n ==> Bit(code, i) == 0
  }

  ghost predicate Clean(s: Source)
  {
    s.code < TWO_32 && 0 <= s.bits <= 32 && LowZero(s.code, 32 - s.bits)
  }

  /** The same bits are to come, `skip` bits of s left out. */
  ghost predicate Follows(input: seq<byte>, s: Source, skip: nat, t: Source)
  {
    Clean(s) && Clean(t) && forall i: nat :: Upcoming(input, t, i) == Upcoming(input, s, i + skip)
  }

  /** The next n bits as a number, the first one highest. */
  ghost function NextBits(input: seq<byte>, s: Source, n: nat): nat
    requires Clean(s)
  {
    if n == 0 then 0 else 2 * NextBits(input, s, n - 1) + Upcoming(input, s, n - 1)
  }

  // ----- refilling the buffer -----

  function Append(s: Source, b: byte): Source
    requires s.bits <= 24
  {
    s.(code := Or(s.code, Shl(b, 24 - s.bits)), bits := s.bits + 8)
  }

  /** One round of the refill: a byte more, or the marker found. */
  function GrowStep(input: seq<byte>, s: Source): (t: Source)
    requires s.bits <= 24
    ensures t.bits == s.bits + 8 || (t.bits == s.bits && t.nomore)
  {
    if s.nomore then Append(s, 0)
    else if ByteAt(input, s.pos) != FILL then Append(s.(pos := After(input, s.pos)), ByteAt(input, s.pos))
    else
      var q := SkipFill(input, s.pos + 1);
      var c := ByteAt(input, q);
      if c != 0 then s.(pos := After(input, q), marker := c, nomore := true)
      else Append(s.(pos := After(input, q)), FILL)
  }

  function Grow(input: seq<byte>, s: Source): (t: Source)
    requires s.bits <= 24
    ensures t.bits > 24 || t.nomore
    ensures t.bits >= s.bits
    decreases 24 - s.bits
  {
    var t := GrowStep(input, s);
    if t.bits == s.bits || t.bits > 24 then t else Grow(input, t)
  }

  lemma AppendBits(s: Source, b: byte, i: nat)
    requires Clean(s) && s.bits <= 24
    ensures Bit(Append(s, b).code, i) == if i >= 32 - s.bits then Bit(s.code, i) else if i < 24 - s.bits then 0 else Bit(b, i - (24 - s.bits))
  {
    hide Or, Shl, Bit;
    var n := 24 - s.bits;
    BitOfOr(s.code, Shl(b, n), i);
    BitOfShl(b, n, i);
    Pow2Values();
    if i >= n + 8 {
      BitBeyond(b, 8, i - n);
    }
  }

  lemma AppendClean(s: Source, b: byte)
    requires Clean(s) && s.bits <= 24
    ensures Clean(Append(s, b))
  {
    hide Or, Shl, Bit;
    Pow2Values();
    var t := Append(s, b);
    forall i: nat ensures i >= 32 || i < 32 - t.bits ==> Bit(t.code, i) == 0 {
      AppendBits(s, b, i);
      if i >= 32 {
        BitBeyond(s.code, 32, i);
      }
    }
    HighBitsClear(t.code, 32);
  }

  lemma DataBitShift(b: byte, d: seq<byte>, k: nat)
    ensures DataBit([b] + d, k) == if k < 8 then Bit(b, 7 - k) else DataBit(d, k - 8)
  {
    if k >= 8 {
      assert ([b] + d)[1..] == d;
      assert (k - 8) / 8 == k / 8 - 1 && (k - 8) % 8 == k % 8;
    }
  }

  /** A byte moved from the data into the buffer. */
  lemma AppendFollows(input: seq<byte>, s: Source, s': Source, b: byte)
    requires Clean(s) && s.bits <= 24 && s' == s.(pos := s'.pos)
    requires Coming(input, s) == [b] + Coming(input, s') || (b == 0 && Coming(input, s) == [] == Coming(input, s'))
    ensures Follows(input, s, 0, Append(s', b))
  {
    hide Or, Shl, Bit, DataBit, Data;
    var t := Append(s', b);
    AppendClean(s', b);
    forall i: nat ensures Upcoming(input, t, i) == Upcoming(input, s, i) {
      if i < 32 {
        AppendBits(s', b, 31 - i);
      }
      if i >= s.bits {
        DataBitShift(b, Coming(input, s'), i - s.bits);
        NoDataBit(i - s.bits);
        BitOfZero(7 - (if i - s.bits < 8 then i - s.bits else 0));
        if i >= t.bits {
          NoDataBit(i - t.bits);
        }
      }
    }
  }

  lemma NoDataBit(k: nat)
    ensures DataBit([], k) == 0
  {
  }

  lemma GrowStepFollows(input: seq<byte>, s: Source)
    requires Clean(s) && s.bits <= 24
    ensures Follows(input, s, 0, GrowStep(input, s))
  {
    hide Append, Upcoming, LowZero;
    var t := GrowStep(input, s);
    if s.nomore {
      AppendFollows(input, s, s, 0);
    } else if ByteAt(input, s.pos) != FILL {
      AppendFollows(input, s, s.(pos := After(input, s.pos)), ByteAt(input, s.pos));
    } else {
      var q := SkipFill(input, s.pos + 1);
      if ByteAt(input, q) != 0 {
        SameComing(input, s, t);
      } else {
        AppendFollows(input, s, s.(pos := After(input, q)), FILL);
      }
    }
  }

  lemma SameComing(input: seq<byte>, s: Source, t: Source)
    requires Clean(s) && t.code == s.code && t.bits == s.bits && Coming(input, t) == Coming(input, s)
    ensures Follows(input, s, 0, t)
  {
  }

  lemma FollowsTwice(input: seq<byte>, s: Source, m: nat, t: Source, n: nat, u: Source)
    requires Follows(input, s, m, t) && Follows(input, t, n, u)
    ensures Follows(input, s, m + n, u)
  {
    hide Upcoming, LowZero;
    forall i: nat ensures Upcoming(input, u, i) == Upcoming(input, s, i + (m + n)) {
      assert Upcoming(input, u, i) == Upcoming(input, t, i + n);
      assert i + n + m == i + (m + n);
    }
  }

  /** Refilling changes nothing of what is to come. */
  lemma {:induction false} GrowFollows(input: seq<byte>, s: Source)
    requires Clean(s) && s.bits <= 24
    ensures Follows(input, s, 0, Grow(input, s))
    decreases 24 - s.bits
  {
    hide Upcoming, LowZero, GrowStep;
    var t := GrowStep(input, s);
    GrowStepFollows(input, s);
    if t.bits != s.bits && t.bits <= 24 {
      GrowFollows(input, t);
      FollowsTwice(input, s, 0, t, 0, Grow(input, t));
    }
  }

  /** Behind the marker, only zeros are appended. */
  lemma {:induction false} GrowPads(input: seq<byte>, s: Source)
    requires s.bits <= 24 && s.nomore
    ensures Grow(input, s) == s.(bits := Grow(input, s).bits) && Grow(input, s).bits > 24
    decreases 24 - s.bits
  {
    OrShlZero(s.code, 24 - s.bits);
    var t := GrowStep(input, s);
    if t.bits <= 24 {
      GrowPads(input, t);
    }
  }

  lemma {:induction false} OrShlZero(v: nat, n: nat)
    ensures Or(v, Shl(0, n)) == v
  {
    ShlIsMul(0, n);
  }

  // ----- symbols and magnitudes one after the other -----

  ghost function Refilled(input: seq<byte>, s: Source): (t: Source)
    requires Clean(s)
    ensures Follows(input, s, 0, t) && (t.bits >= 16 || t.nomore)
  {
    if s.bits < 16 then
      GrowFollows(input, s);
      Grow(input, s)
    else
      SameComing(input, s, s);
      s
  }

  ghost function SlowSymbol(input: seq<byte>, h: Huffman, s: Source): (r: (int, Source))
    requires Clean(s) && ValidTable(h)
    ensures r.0 < 256
  {
    var g := Refilled(input, s);
    var (v, b) := HuffDecode(h, Buf(g));
    (v, g.(code := b.code, bits := b.bits))
  }

  ghost function SlowReceive(input: seq<byte>, s: Source, n: nat): (r: (int, Source))
    requires Clean(s) && 1 <= n <= 15
  {
    var g := Filled(input, s, n);
    var (v, b) := ExtendReceive(Buf(g), n);
    (v, g.(code := b.code, bits := b.bits))
  }

  ghost function Filled(input: seq<byte>, s: Source, n: nat): (t: Source)
    requires Clean(s) && n <= 15
    ensures Follows(input, s, 0, t) && (t.bits >= n || t.nomore)
  {
    if s.bits < n then
      GrowFollows(input, s);
      Grow(input, s)
    else
      SameComing(input, s, s);
      s
  }

  function Shifted(s: Source, n: nat): Source
  {
    s.(code := Shl32(s.code, n), bits := s.bits - n)
  }

  /** Shifting the buffer up leaves out the bits shifted out. */
  lemma ShiftFollows(input: seq<byte>, s: Source, n: nat)
    requires Clean(s) && n <= s.bits
    ensures Follows(input, s, n, Shifted(s, n))
  {
    hide Shl, Bit, DataBit;
    Pow2Values();
    var t := Shifted(s, n);
    forall i: nat ensures Bit(t.code, i) == if i < n || i >= 32 then 0 else Bit(s.code, i - n) {
      BitOfMod(Shl(s.code, n), 32, i);
      BitOfShl(s.code, n, i);
    }
    forall i: nat ensures Upcoming(input, t, i) == Upcoming(input, s, i + n) {
      if i < t.bits {
        assert Bit(t.code, 31 - i) == Bit(s.code, 31 - i - n);
      }
    }
  }

  /** A decoded symbol consumes the bits of its code and nothing else. */
  lemma SymbolFollows(input: seq<byte>, h: Huffman, s: Source)
    requires Clean(s) && ValidTable(h) && SlowSymbol(input, h, s).0 >= 0
    ensures var t := SlowSymbol(input, h, s).1; var g := Refilled(input, s);
      0 <= t.bits <= g.bits && Follows(input, s, g.bits - t.bits, t)
  {
    hide Upcoming, LowZero, TopNine, Shl32, LongLength;
    var g := Refilled(input, s);
    var t := SlowSymbol(input, h, s).1;
    assert t == Shifted(g, g.bits - t.bits);
    ShiftFollows(input, g, g.bits - t.bits);
    FollowsTwice(input, s, 0, g, g.bits - t.bits, t);
  }

  lemma {:induction false} ShrStep(v: nat, k: nat)
    ensures Shr(v, k) == 2 * Shr(v, k + 1) + Bit(v, k)
  {
    if k > 0 {
      ShrStep(v / 2, k - 1);
    }
  }

  /** The next bits are the top ones of the buffer, as far as it is filled. */
  lemma {:induction false} NextBitsAreTop(input: seq<byte>, s: Source, n: nat)
    requires Clean(s) && n <= s.bits
    ensures NextBits(input, s, n) == Shr(s.code, 32 - n)
  {
    if n == 0 {
      Pow2Values();
      ShrIsDiv(s.code, 32);
    } else {
      hide Shr, Bit, LowZero;
      NextBitsAreTop(input, s, n - 1);
      ShrStep(s.code, 32 - n);
    }
  }

  lemma {:induction false} NextBitsSame(input: seq<byte>, s: Source, t: Source, n: nat)
    requires Follows(input, s, 0, t)
    ensures NextBits(input, t, n) == NextBits(input, s, n)
  {
    hide Upcoming, LowZero;
    if n > 0 {
      NextBitsSame(input, s, t, n - 1);
      assert Upcoming(input, t, n - 1) == Upcoming(input, s, n - 1 + 0);
    }
  }

  /** A received magnitude is the next n bits with their sign extended, and leaves what follows them; when the data
      ended with fewer bits buffered, it is 0 and takes nothing. */
  lemma ReceiveMeaning(input: seq<byte>, s: Source, n: nat)
    requires Clean(s) && 1 <= n <= 15
    ensures var (v, t) := SlowReceive(input, s, n);
      if Filled(input, s, n).bits >= n then v == Extend(NextBits(input, s, n), n) && Follows(input, s, n, t)
      else v == 0 && Follows(input, s, 0, t)
  {
    hide Upcoming, LowZero, Shl32, Shr, RotateLeft, Extend, Bias, HighMask, And, NextBits;
    var g := Filled(input, s, n);
    if g.bits >= n {
      NextBitsAreTop(input, g, n);
      NextBitsSame(input, s, g, n);
      ReceiveIsExtend(Buf(g), n);
      ShiftFollows(input, g, n);
      FollowsTwice(input, s, 0, g, n, Shifted(g, n));
    }
  }

  /** What decoding one AC symbol, then its magnitude, gives: an error, a run without a coefficient, or both. */
  datatype Next = Failed | NoValue(run: nat, s: Source) | Value(run: nat, coefficient: int, s: Source)

  ghost function SlowNext(input: seq<byte>, h: Huffman, s: Source): Next
    requires Clean(s) && ValidTable(h)
  {
    var (rs, s1) := SlowSymbol(input, h, s);
    if rs < 0 then Failed
    else if rs % 16 == 0 then NoValue(rs / 16, s1)
    else
      SymbolFollows(input, h, s);
      var (v, t) := SlowReceive(input, s1, rs % 16);
      Value(rs / 16, v, t)
  }

  // ----- the combined table in front -----

  /** The entry names more bits than the data had; the code reports an error. */
  predicate Overrun(h: Huffman, s: Source)
    requires ValidTable(h) && ValidBuffer(Buf(s))
  {
    var e := FastAc(h, TopNine(Buf(s)));
    e != 0 && EntryLength(e) > s.bits
  }

  /** Where a round of the AC loop leaves the source when symbol and magnitude one after the other leave t: an entry of
      the table takes all its bits at once. */
  ghost function AfterNext(h: Huffman, g: Source, t: Source): Source
    requires ValidTable(h) && ValidBuffer(Buf(g))
  {
    var e := FastAc(h, TopNine(Buf(g)));
    if e != 0 then Shifted(g, EntryLength(e)) else t
  }

  /** t is s with zeros appended: same code, same place, at least as many bits buffered. */
  predicate Padded(s: Source, t: Source)
  {
    t == s.(bits := t.bits) && t.bits >= s.bits
  }

  /** With a refilled buffer, an entry that does not overrun gives what symbol and magnitude give: run and coefficient
      are the same, and so is all that is to come. Only behind a marker the slow way may have buffered more zeros. */
  lemma EntryIsNext(input: seq<byte>, h: Huffman, s: Source)
    requires Clean(s) && ValidTable(h) && (s.bits >= 16 || s.nomore)
    requires FastAc(h, TopNine(Buf(s))) != 0 && !Overrun(h, s)
    ensures var e := FastAc(h, TopNine(Buf(s))); var r := SlowNext(input, h, s); var t := Shifted(s, EntryLength(e));
      && r.Value? && r.run == EntryRun(e) && r.coefficient == EntryCoefficient(e)
      && Padded(t, r.s) && (s.bits >= 16 ==> r.s == t) && Follows(input, t, 0, r.s)
  {
    hide FastAc, TopNine, HuffDecode, ExtendReceive, EntryRun, EntryCoefficient, EntryLength, Shl32, Upcoming, LowZero;
    var e := FastAc(h, TopNine(Buf(s)));
    var g := Refilled(input, s);
    if s.bits < 16 {
      GrowPads(input, s);
    }
    SameTop(Buf(s), Buf(g));
    FastIsSlow(h, Buf(g));
    EntryAtMostNine(h, TopNine(Buf(s)));
    var rs, b1 := HuffDecode(h, Buf(g)).0, HuffDecode(h, Buf(g)).1;
    SymbolTakes(h, Buf(g));
    SymbolFollows(input, h, s);
    var t := Shifted(s, EntryLength(e));
    ShiftFollows(input, s, EntryLength(e));
    ShiftFollows(input, g, EntryLength(e));
    PaddedFollows(input, t, Shifted(g, EntryLength(e)));
  }

  /** An entry that overruns is the one case in which the table differs: the code gives up, where symbol and magnitude
      one after the other would have gone on with zeros behind the marker and found the same run and coefficient. */
  lemma OverrunPads(input: seq<byte>, h: Huffman, s: Source)
    requires Clean(s) && ValidTable(h) && (s.bits >= 16 || s.nomore) && Overrun(h, s)
    ensures var e := FastAc(h, TopNine(Buf(s))); var r := SlowNext(input, h, s);
      && s.nomore && s.bits < FAST_BITS
      && r.Value? && r.run == EntryRun(e) && r.coefficient == EntryCoefficient(e)
  {
    hide FastAc, TopNine, HuffDecode, ExtendReceive, EntryRun, EntryCoefficient, EntryLength, Shl32, Upcoming, LowZero;
    var g := Refilled(input, s);
    EntryAtMostNine(h, TopNine(Buf(s)));
    GrowPads(input, s);
    SameTop(Buf(s), Buf(g));
    FastIsSlow(h, Buf(g));
    SymbolTakes(h, Buf(g));
    SymbolFollows(input, h, s);
  }

  /** A code of two bits, 00, for a DC difference of one bit, and one of eight, 01000000, for none. */
  function DcTable(): (h: Huffman)
    ensures ValidTable(h)
  {
    Huffman(
      seq<byte>(512, (i: nat) => if i < 128 then 0 else if i < 130 then 1 else 255),
      seq<byte>(256, (k: nat) => if k == 0 then 1 else 0),
      seq<byte>(257, (k: nat) => if k == 0 then 2 else if k == 1 then 8 else 0),
      seq<nat>(18, (k: nat) => if k < 2 then 0 else if k < 8 then 0x4000 else if k < 17 then 0x4100 else TWO_32 - 1),
      seq<int>(17, (k: nat) => if k < 3 then 0 else if k < 9 then 1 - Pow2(k - 2) else 2 - 65 * Pow2(k - 8)))
  }

  /** Two codes of two bits: 00 for a coefficient of seven bits, 01 for one of six. */
  function SmallTable(): (h: Huffman)
    ensures ValidTable(h)
  {
    Huffman(
      seq<byte>(512, (i: nat) => if i < 128 then 0 else if i < 256 then 1 else 255),
      seq<byte>(256, (k: nat) => if k == 0 then 7 else if k == 1 then 6 else 0),
      seq<byte>(257, (k: nat) => if k < 2 then 2 else 0),
      seq<nat>(18, (k: nat) => if k < 2 then 0 else if k < 17 then 0x8000 else TWO_32 - 1),
      seq<int>(17, (k: nat) => if k < 3 then 0 else 2 - Pow2(k - 1)))
  }

  /** A DC symbol, a coefficient of six bits, one of seven, and the start of another one, cut short by a marker. */
  const CUT_SCAN: seq<byte> := [0x40, 0x40, 0, 0, FILL, 0xd9]

  /** The state behind an entry that does not overrun. */
  ghost function AfterEntry(input: seq<byte>, h: Huffman, s: Source): (t: Source)
    requires Clean(s) && ValidTable(h) && !Overrun(h, Refilled(input, s)) && FastAc(h, TopNine(Buf(Refilled(input, s)))) != 0
    ensures Clean(t)
  {
    var g := Refilled(input, s);
    ShiftFollows(input, g, EntryLength(FastAc(h, TopNine(Buf(g)))));
    Shifted(g, EntryLength(FastAc(h, TopNine(Buf(g)))))
  }

  lemma TopEntry(h: Huffman, s: Source, top: nat, e: int)
    requires h == SmallTable() && ValidBuffer(Buf(s)) && Shr(s.code, 23) == top < 512 && FastAc(h, top) == e
    ensures FastAc(h, TopNine(Buf(s))) == e
  {
    hide FastAc, Shr;
    Pow2Values();
    AndMask(top, FAST_BITS);
    SmallMod(top, 512);
  }

  /** An entry whose magnitude bits are all zero. */
  lemma ZeroEntry(h: Huffman, i: nat, f: byte, rs: nat, len: nat)
    requires ValidTable(h) && i < 512 && h.fast[i] == f < 255 && h.values[f] == rs && h.size[f] == len
    requires 1 <= rs <= 7 && len + rs <= FAST_BITS && Shl(i, len) % 512 == 0
    ensures FastAc(h, i) == (1 - Pow2(rs)) * 256 + len + rs
  {
    hide Shl, Shr, And, MinusMask, Pow2, ValidTable;
    Pow2Values();
    AndMask(Shl(i, len), FAST_BITS);
    ShrIsDiv(0, FAST_BITS - rs);
    MinusMaskIs(0, rs);
  }

  lemma SixBitEntry()
    ensures FastAc(SmallTable(), 128) == -63 * 256 + 8
  {
    hide FastAc;
    Pow2Values();
    ShlIsMul(128, 2);
    ZeroEntry(SmallTable(), 128, 1, 6, 2);
  }

  lemma SevenBitEntry()
    ensures FastAc(SmallTable(), 0) == -127 * 256 + 9
  {
    hide FastAc;
    Pow2Values();
    ShlIsMul(0, 2);
    ZeroEntry(SmallTable(), 0, 0, 7, 2);
  }

  function Start(): Source
  {
    Source(0, 0, 0, false, 0)
  }

  lemma StartClean()
    ensures Clean(Start())
  {
    forall i: nat ensures Bit(0, i) == 0 {
      BitOfZero(i);
    }
  }

  lemma FourValues()
    ensures Or(0, Shl(0x40, 24)) == 0x40000000 && Or(0x40000000, Shl(0x40, 16)) == 0x40400000
    ensures Or(0x40400000, Shl(0, 8)) == 0x40400000 && Or(0x40400000, Shl(0, 0)) == 0x40400000
  {
    hide Or, Shl;
    Pow2Add(16, 8);
    Pow2Values();
    ShlIsMul(0x40, 24);
    ShlIsMul(0x40, 16);
    OrOfZero(0x40 * 0x1000000);
    OrDisjoint(0x400000, 0x40, 24);
    OrCommutes(0x40000000, 0x400000);
    OrShlZero(0x40400000, 8);
    OrShlZero(0x40400000, 0);
  }

  /** The first refill fetches the four bytes and does not see the marker. */
  lemma FourBytes()
    ensures Grow(CUT_SCAN, Start()) == Source(0x40400000, 32, 4, false, 0)
  {
    hide Or, Shl;
    FourValues();
    var s1, s2 := Source(0x40000000, 8, 1, false, 0), Source(0x40400000, 16, 2, false, 0);
    var s3, s4 := Source(0x40400000, 24, 3, false, 0), Source(0x40400000, 32, 4, false, 0);
    assert GrowStep(CUT_SCAN, Start()) == s1 && GrowStep(CUT_SCAN, s1) == s2;
    assert GrowStep(CUT_SCAN, s2) == s3 && GrowStep(CUT_SCAN, s3) == s4;
    hide GrowStep;
    assert Grow(CUT_SCAN, s2) == Grow(CUT_SCAN, s3) == s4;
    assert Grow(CUT_SCAN, s1) == Grow(CUT_SCAN, s2);
  }

  lemma OrOfZero(v: nat)
    ensures Or(0, v) == v == Or(v, 0)
  {
  }

  /** The refill that finds the marker with seven bits left. */
  lemma MarkerFound()
    ensures Grow(CUT_SCAN, Source(0, 7, 4, false, 0)) == Source(0, 7, 6, true, 0xd9)
  {
    assert SkipFill(CUT_SCAN, 5) == 5;
  }

  lemma ShiftedByEight()
    ensures Shl32(0x40400000, 8) == 0x40000000 && Shl32(0x40000000, 8) == 0 && Shl32(0, 9) == 0
    ensures Shr(0x40400000, 23) == 128 && Shr(0x40000000, 23) == 128 && Shr(0, 23) == 0
  {
    Pow2Values();
    Pow2Add(16, 7);
    ShlIsMul(0x40400000, 8);
    ShlIsMul(0x40000000, 8);
    ShlIsMul(0, 9);
    ShrIsDiv(0x40400000, 23);
    ShrIsDiv(0x40000000, 23);
    ShrIsDiv(0, 23);
  }

  /** The DC symbol is the first byte. */
  lemma DcSymbolFirst()
    ensures Clean(Start()) && SlowSymbol(CUT_SCAN, DcTable(), Start()) == (0, Source(0x40000000, 24, 4, false, 0))
  {
    hide Shl32, Shr, Pow2, ValidTable;
    StartClean();
    FourBytes();
    ShiftedByEight();
    hide Grow, LowZero, Upcoming;
    Pow2Values();
    AndMask(128, FAST_BITS);
    SmallMod(128, 512);
  }

  /** Such an overrun happens in a scan of its own: behind its DC symbol and two whole entries, the refill finds the
      marker with seven bits left, and the entry on top names nine. */
  lemma OverrunHappens()
    ensures Clean(Start()) && SlowSymbol(CUT_SCAN, DcTable(), Start()).0 == 0
    ensures Clean(SlowSymbol(CUT_SCAN, DcTable(), Start()).1)
    ensures var h, s1 := SmallTable(), Refilled(CUT_SCAN, SlowSymbol(CUT_SCAN, DcTable(), Start()).1);
      FastAc(h, TopNine(Buf(s1))) != 0 && !Overrun(h, s1)
    ensures var h, s1 := SmallTable(), SlowSymbol(CUT_SCAN, DcTable(), Start()).1;
      var s2 := Refilled(CUT_SCAN, AfterEntry(CUT_SCAN, h, s1));
      FastAc(h, TopNine(Buf(s2))) != 0 && !Overrun(h, s2)
    ensures var h, s1 := SmallTable(), SlowSymbol(CUT_SCAN, DcTable(), Start()).1;
      var s3 := Refilled(CUT_SCAN, AfterEntry(CUT_SCAN, h, AfterEntry(CUT_SCAN, h, s1)));
      Clean(s3) && s3 == Source(0, 7, 6, true, 0xd9) && Overrun(h, s3)
  {
    DcSymbolFirst();
    MarkerFound();
    SixBitEntry();
    SevenBitEntry();
    ShiftedByEight();
    SecondClean();
    hide FastAc, TopNine, Grow, Shr, Shl32, LowZero, Upcoming, SmallTable, SlowSymbol;
    var h := SmallTable();
    TopEntry(h, Source(0x40000000, 24, 4, false, 0), 128, -63 * 256 + 8);
    TopEntry(h, Source(0, 16, 4, false, 0), 0, -127 * 256 + 9);
    TopEntry(h, Source(0, 7, 6, true, 0xd9), 0, -127 * 256 + 9);
  }

  lemma SecondClean()
    ensures Clean(Source(0x40000000, 24, 4, false, 0))
  {
    hide LowZero, Upcoming;
    DcSymbolFirst();
    SymbolFollows(CUT_SCAN, DcTable(), Start());
  }

  lemma SameTop(b: Buffer, c: Buffer)
    requires ValidBuffer(b) && c.code == b.code
    ensures TopNine(c) == TopNine(b)
  {
  }

  lemma EntryAtMostNine(h: Huffman, i: nat)
    requires ValidTable(h) && i < 512 && FastAc(h, i) != 0
    ensures EntryLength(FastAc(h, i)) <= FAST_BITS
  {
    hide FastAc, EntryRun, EntryCoefficient, Magnitude, Extend;
    EntryIs(h, i);
  }

  /** Behind the symbol of an entry, its magnitude bits are still in the buffer. */
  lemma SymbolTakes(h: Huffman, b: Buffer)
    requires ValidTable(h) && ValidBuffer(b) && FastAc(h, TopNine(b)) != 0 && EntryLength(FastAc(h, TopNine(b))) <= b.bits
    ensures var (rs, b1) := HuffDecode(h, b); rs >= 0 && b1.bits >= rs % 16
  {
    hide FastAc, TopNine, EntryRun, EntryCoefficient, EntryLength, Magnitude, Extend, Shl32, LongLength;
    EntryIs(h, TopNine(b));
  }

  lemma PaddedFollows(input: seq<byte>, s: Source, t: Source)
    requires Clean(s) && Clean(t) && Padded(s, t) && (s.bits == t.bits || s.nomore)
    ensures Follows(input, s, 0, t)
  {
    forall i: nat ensures Upcoming(input, t, i) == Upcoming(input, s, i) {
      if s.bits <= i < t.bits {
        assert Bit(t.code, 31 - i) == 0;
      }
    }
  }

  /** The decoder's bit buffer and input, changed in place. */
  class Jpeg {
    const input: seq<byte>
    var pos: nat
    var code_buffer: nat
    var code_bits: int
    var marker: nat
    var nomore: bool

    function State(): Source
      reads this
    {
      Source(code_buffer, code_bits, pos, nomore, marker)
    }

    ghost predicate Valid()
      reads this
    {
      Clean(State())
    }

    constructor (input: seq<byte>)
      ensures this.input == input && State() == Source(0, 0, 0, false, 0) && Valid()
    {
      this.input := input;
      pos, code_buffer, code_bits, marker, nomore := 0, 0, 0, 0, false;
      new;
      forall i: nat ensures Bit(0, i) == 0 {
        BitOfZero(i);
      }
    }

    method Get8() returns (v: byte)
      modifies this`pos
      ensures v == ByteAt(input, old(pos)) && pos == After(input, old(pos))
    {
      v := 0;
      if pos < |input| {
        v := input[pos];
        pos := pos + 1;
      }
    }

    /** The next byte that is no fill byte. */
    method SkipFillBytes() returns (c: byte)
      modifies this`pos
      ensures c == ByteAt(input, SkipFill(input, old(pos))) && pos == After(input, SkipFill(input, old(pos)))
    {
      ghost var p := pos;
      c := Get8();
      while c == FILL
        invariant c == ByteAt(input, p) && pos == After(input, p) && SkipFill(input, p) == SkipFill(input, old(pos))
        decreases |input| - p
      {
        p := pos;
        c := Get8();
      }
    }

    /** Fetches bytes until more than 24 bits are buffered or a marker ends the data. */
    method GrowBuffer()
      requires Valid() && code_bits <= 24
      modifies this
      ensures State() == Grow(input, old(State())) && Valid()
    {
      hide Or, Shl, LowZero, Upcoming;
      GrowFollows(input, State());
      ghost var start := State();
      var more := true;
      while more
        invariant more ==> code_bits <= 24 && Grow(input, State()) == Grow(input, start)
        invariant !more ==> State() == Grow(input, start)
        decreases if more then 25 - code_bits else 0
      {
        ghost var s := State();
        var b: byte := 0;
        if !nomore {
          b := Get8();
        }
        if b == FILL {
          var c := SkipFillBytes();
          if c != 0 {
            marker := c;
            nomore := true;
            assert State() == GrowStep(input, s);
            return;
          }
        }
        code_buffer := Or(code_buffer, Shl(b, 24 - code_bits));
        code_bits := code_bits + 8;
        assert State() == GrowStep(input, s);
        more := code_bits <= 24;
      }
    }

    /** Decodes a symbol: by the nine-bit table, or by comparing with the bounds of the longer codes. */
    method HuffDecodeSymbol(h: Huffman) returns (v: int)
      requires Valid() && ValidTable(h)
      modifies this
      ensures (v, State()) == SlowSymbol(input, h, old(State()))
      ensures v >= 0 ==> Valid()
    {
      hide TopNine, Shl, Shr, And, Pow2, Bit, LowZero, Upcoming, Grow;
      ghost var start := State();
      if SlowSymbol(input, h, start).0 >= 0 {
        SymbolFollows(input, h, start);
      }
      if code_bits < 16 {
        GrowBuffer();
      }
      ghost var b := Buf(State());
      assert State() == Refilled(input, start);
      v := LookUp(h);
    }

    /** The symbol on top of the buffer, which is not refilled. */
    method LookUp(h: Huffman) returns (v: int)
      requires ValidTable(h) && ValidBuffer(Buf(State()))
      modifies this`code_buffer, this`code_bits
      ensures (v, Buf(State())) == HuffDecode(h, old(Buf(State())))
    {
      hide TopNine, Shl, Shr, And, Pow2, Bit, Grow;
      ghost var b := Buf(State());
      var k: nat := h.fast[TopNine(Buf(State()))];
      if k < 255 {
        var s: nat := h.size[k];
        if s > code_bits {
          return -1;
        }
        code_buffer := Shl32(code_buffer, s);
        code_bits := code_bits - s;
        return h.values[k];
      }
      var temp := Shr(code_buffer, 16);
      TopSixteenSmall(b);
      k := FAST_BITS + 1;
      while temp >= h.maxcode[k]
        invariant 10 <= k <= 17 && LongLength(h, temp, k) == LongLength(h, temp, FAST_BITS + 1)
        decreases 17 - k
      {
        k := k + 1;
      }
      if k == 17 {
        code_bits := code_bits - 16;
        return -1;
      }
      if k > code_bits {
        return -1;
      }
      var c := And(Shr(code_buffer, 32 - k), Mask(k)) + h.delta[k];
      if c < 0 || c >= 256 {
        return -1;
      }
      code_bits := code_bits - k;
      code_buffer := Shl32(code_buffer, k);
      return h.values[c];
    }

    /** Receives n bits and extends their sign. */
    method ExtendReceiveBits(n: nat) returns (v: int)
      requires Valid() && 1 <= n <= 15
      modifies this
      ensures (v, State()) == SlowReceive(input, old(State()), n) && Valid()
    {
      hide Shl, Shr, And, Pow2, Bit, RotateLeft, Extend, HighMask, Mask, LowZero, Upcoming, Grow, NextBits;
      ghost var start := State();
      ReceiveMeaning(input, start, n);
      if code_bits < n {
        GrowBuffer();
      }
      assert State() == Filled(input, start, n);
      if code_bits < n {
        return 0;
      }
      var sgn := Shr(code_buffer, 31);
      var k := RotateLeft(code_buffer, n);
      code_buffer := And(k, HighMask(n));
      k := And(k, Mask(n));
      code_bits := code_bits - n;
      v := k + (if sgn == 0 then Bias(n) else 0);
    }

    /** One round of the AC loop: run and coefficient by the combined table where it has an entry, else symbol and
        magnitude one after the other. */
    method NextCoefficient(h: Huffman, fast_ac: array<int>) returns (ok: bool, found: bool, run: nat, coefficient: int)
      requires Valid() && ValidTable(h)
      requires fast_ac.Length == 512 && forall i :: 0 <= i < 512 ==> fast_ac[i] == FastAc(h, i)
      modifies this
      ensures var g := Refilled(input, old(State()));
        if Overrun(h, g) then !ok
        else match SlowNext(input, h, g)
          case Failed => !ok
          case NoValue(r, t) => ok && !found && run == r <= 15 && State() == t && Valid()
          case Value(r, v, t) =>
            && ok && found && run == r <= 15 && coefficient == v && State() == AfterNext(h, g, t)
            && Padded(State(), t) && Follows(input, State(), 0, t)
    {
      hide TopNine, Shl, Shr, And, Pow2, Bit, FastAc, EntryCoefficient, EntryRun, EntryLength, LowZero, Upcoming, Grow,
        HuffDecode, ExtendReceive;
      ghost var start := State();
      ok, found, run, coefficient := true, false, 0, 0;
      if code_bits < 16 {
        GrowBuffer();
      }
      ghost var g := State();
      assert g == Refilled(input, start);
      var r := fast_ac[TopNine(Buf(State()))];
      if r != 0 {
        if EntryLength(r) > code_bits {
          return false, false, 0, 0;
        }
        EntryIsNext(input, h, g);
        code_buffer := Shl32(code_buffer, EntryLength(r));
        code_bits := code_bits - EntryLength(r);
        return true, true, EntryRun(r), EntryCoefficient(r);
      }
      var rs := HuffDecodeSymbol(h);
      if rs < 0 {
        return false, false, 0, 0;
      }
      run := rs / 16;
      if rs % 16 != 0 {
        found := true;
        coefficient := ExtendReceiveBits(rs % 16);
        SameComing(input, State(), State());
      }
    }
  }
}
