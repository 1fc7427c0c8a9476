/** A whole JPEG block (sections F.2.2.1 and F.2.2.2 of ITU-T T.81): what its bits stand for, the decoder proved against
    that meaning, and an encoder that the decoder undoes. */
module JpegBlock {
  import opened Bits
  import opened JpegAc
  import opened JpegScan

  // ----- bits that are all there -----

  /** Bit i of a bit string that is continued with zeros. */
  function BitAt(bits: seq<bit>, i: nat): bit
  {
    if i < |bits| then bits[i] else 0
  }

  /** The first n bits as a number, the first one highest. */
  function Top(bits: seq<bit>, n: nat): (v: nat)
    ensures v < Pow2(n)
  {
    if n == 0 then 0 else 2 * Top(bits, n - 1) + BitAt(bits, n - 1)
  }

  /** How many bits the buffer and the data still hold. */
  function Available(input: seq<byte>, s: Source): int
  {
    s.bits + 8 * |Coming(input, s)|
  }

  /** These bits are to come, all of them are there, and only zeros follow them. */
  ghost predicate Serves(input: seq<byte>, s: Source, bits: seq<bit>)
  {
    Clean(s) && |bits| <= Available(input, s) && Agree(input, s, bits)
  }

  /** These bits are to come, and zeros behind them. */
  ghost predicate Agree(input: seq<byte>, s: Source, bits: seq<bit>)
    requires Clean(s)
  {
    forall i: nat :: Upcoming(input, s, i) == BitAt(bits, i)
  }

  /** All bits that are to come. */
  ghost function RealBits(input: seq<byte>, s: Source): (bits: seq<bit>)
    requires Clean(s)
    ensures Serves(input, s, bits)
  {
    hide LowZero, Data, Bit;
    seq(Available(input, s), (i: nat) => Upcoming(input, s, i))
  }

  lemma GrowStepKeeps(input: seq<byte>, s: Source)
    requires Clean(s) && s.bits <= 24
    ensures Available(input, GrowStep(input, s)) >= Available(input, s)
  {
    hide Or, Shl, LowZero;
  }

  lemma {:induction false} GrowKeeps(input: seq<byte>, s: Source)
    requires Clean(s) && s.bits <= 24
    ensures Available(input, Grow(input, s)) >= Available(input, s)
    decreases 24 - s.bits
  {
    hide LowZero, GrowStep, Available, Upcoming;
    var t := GrowStep(input, s);
    GrowStepKeeps(input, s);
    GrowStepFollows(input, s);
    if t.bits != s.bits && t.bits <= 24 {
      GrowKeeps(input, t);
    }
  }

  lemma ServesAfter(input: seq<byte>, s: Source, bits: seq<bit>, n: nat, t: Source)
    requires Serves(input, s, bits) && n <= |bits| && Follows(input, s, n, t)
    requires Available(input, t) >= Available(input, s) - n
    ensures Serves(input, t, bits[n..])
  {
    hide Upcoming, LowZero, Available;
    forall i: nat ensures Upcoming(input, t, i) == BitAt(bits[n..], i) {
      assert Upcoming(input, t, i) == Upcoming(input, s, i + n);
    }
  }

  lemma ServesRefilled(input: seq<byte>, s: Source, bits: seq<bit>)
    requires Serves(input, s, bits)
    ensures Serves(input, Refilled(input, s), bits)
  {
    hide Upcoming, LowZero, Available, Grow;
    if s.bits < 16 {
      GrowKeeps(input, s);
    }
    ServesAfter(input, s, bits, 0, Refilled(input, s));
    assert bits[0..] == bits;
  }

  lemma ServesFilled(input: seq<byte>, s: Source, bits: seq<bit>, n: nat)
    requires Serves(input, s, bits) && n <= 15
    ensures Serves(input, Filled(input, s, n), bits)
  {
    hide Upcoming, LowZero, Available, Grow;
    if s.bits < n {
      GrowKeeps(input, s);
    }
    ServesAfter(input, s, bits, 0, Filled(input, s, n));
    assert bits[0..] == bits;
  }

  /** Behind a marker, what is buffered is all there is. */
  lemma EnoughBits(input: seq<byte>, s: Source, bits: seq<bit>, n: nat)
    requires Serves(input, s, bits) && n <= |bits| && (s.bits >= n || s.nomore)
    ensures s.bits >= n
  {
    hide Upcoming, LowZero;
  }

  lemma ServesShifted(input: seq<byte>, s: Source, bits: seq<bit>, n: nat)
    requires Serves(input, s, bits) && n <= |bits| && n <= s.bits
    ensures Serves(input, Shifted(s, n), bits[n..])
  {
    hide Upcoming, LowZero, Shl32;
    ShiftFollows(input, s, n);
    ServesAfter(input, s, bits, n, Shifted(s, n));
  }

  // ----- one symbol -----

  /** A symbol and the length of its code; the table knows none; or its code is longer than the bits. */
  datatype SymbolResult = Symbol(rs: nat, len: nat) | BadSymbol | ShortSymbol

  /** A full buffer with these bits on top. */
  function FullBuffer(bits: seq<bit>): (b: Buffer)
    ensures ValidBuffer(b) && b.bits == 32
  {
    Pow2Values();
    Buffer(Top(bits, 32), 32)
  }

  function SymbolAt(h: Huffman, bits: seq<bit>): (r: SymbolResult)
    requires ValidTable(h)
    ensures r.Symbol? ==> r.rs < 256 && 1 <= r.len <= 16 && r.len <= |bits|
  {
    hide TopNine, Shl32, Top;
    var (v, b) := HuffDecode(h, FullBuffer(bits));
    if v < 0 then BadSymbol
    else if 32 - b.bits > |bits| then ShortSymbol
    else Symbol(v, 32 - b.bits)
  }

  lemma ShrShr(v: nat, m: nat, n: nat)
    ensures Shr(Shr(v, m), n) == Shr(v, m + n)
    decreases m
  {
    if m > 0 {
      ShrShr(v / 2, m - 1, n);
    }
  }

  /** Decoding looks at the sixteen highest bits only. */
  lemma HeadDecides(h: Huffman, b: Buffer, c: Buffer)
    requires ValidTable(h) && ValidBuffer(b) && ValidBuffer(c) && Shr(b.code, 16) == Shr(c.code, 16) && c.bits == 32
    ensures var (v, b') := HuffDecode(h, b); var (w, c') := HuffDecode(h, c);
      && (w < 0 ==> v < 0)
      && (w >= 0 && 32 - c'.bits <= b.bits ==> v == w && b' == Buffer(Shl32(b.code, 32 - c'.bits), b.bits - (32 - c'.bits)))
    ensures TopNine(b) == TopNine(c)
  {
    hide And, Shl32, Shr;
    ShrShr(b.code, 16, 7);
    ShrShr(c.code, 16, 7);
    assert TopNine(b) == TopNine(c);
    if h.fast[TopNine(b)] == 255 {
      TopSixteenSmall(b);
      var n := LongLength(h, Shr(b.code, 16), FAST_BITS + 1);
      if n <= 16 {
        ShrShr(b.code, 16, 16 - n);
        ShrShr(c.code, 16, 16 - n);
      }
    }
  }

  lemma {:induction false} BitOfTop(bits: seq<bit>, n: nat, i: nat)
    ensures Bit(Top(bits, n), i) == if i < n then BitAt(bits, n - 1 - i) else 0
  {
    hide BitAt;
    if n == 0 {
      BitOfZero(i);
    } else {
      BitOfTwice(Top(bits, n - 1), BitAt(bits, n - 1), i);
      if i > 0 {
        BitOfTop(bits, n - 1, i - 1);
      }
    }
  }

  lemma BitOfTwice(v: nat, d: bit, i: nat)
    ensures Bit(2 * v + d, i) == if i == 0 then d else Bit(v, i - 1)
  {
    assert (2 * v + d) / 2 == v;
  }

  /** A refilled buffer has the same sixteen highest bits as a full one. */
  lemma SameHead(input: seq<byte>, s: Source, bits: seq<bit>)
    requires Serves(input, s, bits) && (s.bits >= 16 || s.nomore)
    ensures Shr(s.code, 16) == Shr(FullBuffer(bits).code, 16)
  {
    hide Top, Shr, Bit, BitAt;
    Pow2Values();
    var a, b := Shr(s.code, 16), Shr(FullBuffer(bits).code, 16);
    TopSixteenSmall(Buf(s));
    TopSixteenSmall(FullBuffer(bits));
    forall i: nat | i < 16 ensures Bit(a, i) == Bit(b, i) {
      BitOfShr(s.code, 16, i);
      BitOfShr(FullBuffer(bits).code, 16, i);
      BitOfTop(bits, 32, 16 + i);
      assert Upcoming(input, s, 15 - i) == BitAt(bits, 15 - i);
    }
    BitsDetermine(a, b, 16);
  }

  /** The decoder reads the symbol in front, if its bits are all there. */
  lemma SymbolRead(input: seq<byte>, h: Huffman, s: Source, bits: seq<bit>)
    requires ValidTable(h) && Serves(input, s, bits)
    ensures var (v, t) := SlowSymbol(input, h, s);
      match SymbolAt(h, bits)
      case Symbol(rs, len) => v == rs && Serves(input, t, bits[len..])
      case BadSymbol => v < 0
      case ShortSymbol => true
  {
    hide HuffDecode, Agree, Available, Shl32, Upcoming, LowZero, Top, Refilled, ValidTable, FullBuffer, Follows, Shr,
      TopNine;
    var g := Refilled(input, s);
    ServesRefilled(input, s, bits);
    SameHead(input, g, bits);
    HeadDecides(h, Buf(g), FullBuffer(bits));
    var r := SymbolAt(h, bits);
    if r.Symbol? {
      EnoughBits(input, g, bits, r.len);
      ServesShifted(input, g, bits, r.len);
    }
  }

  // ----- one magnitude -----

  lemma {:induction false} NextBitsAreServed(input: seq<byte>, s: Source, bits: seq<bit>, n: nat)
    requires Serves(input, s, bits)
    ensures NextBits(input, s, n) == Top(bits, n)
  {
    hide Upcoming, BitAt, Available;
    if n > 0 {
      NextBitsAreServed(input, s, bits, n - 1);
    }
  }

  lemma MagnitudeRead(input: seq<byte>, s: Source, bits: seq<bit>, n: nat)
    requires Serves(input, s, bits) && 1 <= n <= 15 && n <= |bits|
    ensures var (v, t) := SlowReceive(input, s, n); v == Extend(Top(bits, n), n) && Serves(input, t, bits[n..])
  {
    hide Upcoming, LowZero, Extend, Shl32, Shr, NextBits, Agree, Available, Top, ExtendReceive;
    var g := Filled(input, s, n);
    ServesFilled(input, s, bits, n);
    EnoughBits(input, g, bits, n);
    ReceiveMeaning(input, s, n);
    NextBitsAreServed(input, s, bits, n);
    ReceiveIsExtend(Buf(g), n);
    ServesShifted(input, g, bits, n);
  }

  // ----- one run with its coefficient -----

  datatype Coded = Coefficient(run: nat, value: int, rest: seq<bit>) | NoCoefficient(run: nat, rest: seq<bit>) | BadCode | ShortCode

  /** The symbol in front, and the magnitude that it announces. */
  function NextAt(h: Huffman, bits: seq<bit>): (r: Coded)
    requires ValidTable(h)
    ensures r.Coefficient? ==> r.run <= 15 && |r.rest| < |bits|
    ensures r.NoCoefficient? ==> r.run <= 15 && |r.rest| < |bits|
  {
    match SymbolAt(h, bits)
    case BadSymbol => BadCode
    case ShortSymbol => ShortCode
    case Symbol(rs, len) =>
      var rest, n := bits[len..], rs % 16;
      if n == 0 then NoCoefficient(rs / 16, rest)
      else if |rest| < n then ShortCode
      else Coefficient(rs / 16, Extend(Top(rest, n), n), rest[n..])
  }

  /** Without the combined table. */
  lemma SlowRead(input: seq<byte>, h: Huffman, g: Source, bits: seq<bit>)
    requires ValidTable(h) && Serves(input, g, bits)
    ensures var r := SlowNext(input, h, g);
      match NextAt(h, bits)
      case Coefficient(run, v, rest) => r.Value? && r.run == run && r.coefficient == v && Serves(input, r.s, rest)
      case NoCoefficient(run, rest) => r.NoValue? && r.run == run && Serves(input, r.s, rest)
      case BadCode => r.Failed?
      case ShortCode => true
  {
    hide Agree, Available, SlowSymbol, SlowReceive, SymbolAt, Upcoming, LowZero, Extend, Top;
    SymbolRead(input, h, g, bits);
    var r := SymbolAt(h, bits);
    if r.Symbol? && r.rs % 16 > 0 && |bits[r.len..]| >= r.rs % 16 {
      SymbolFollows(input, h, g);
      MagnitudeRead(input, SlowSymbol(input, h, g).1, bits[r.len..], r.rs % 16);
    }
  }

  /** An entry of the combined table stands for the symbol in front and takes the bits of its code and magnitude. */
  lemma EntryRead(h: Huffman, bits: seq<bit>, i: nat)
    requires ValidTable(h) && i == TopNine(FullBuffer(bits)) && FastAc(h, i) != 0
    ensures !SymbolAt(h, bits).BadSymbol?
    ensures var r := SymbolAt(h, bits); r.Symbol? ==> r.rs % 16 >= 1 && EntryLength(FastAc(h, i)) == r.len + r.rs % 16 <= FAST_BITS
  {
    hide FastAc, TopNine, Magnitude, Extend, Shl32, EntryRun, EntryCoefficient, EntryLength, Top;
    EntryIs(h, i);
  }

  /** A round of the AC loop reads the run and the coefficient in front, if their bits are all there. */
  lemma NextRead(input: seq<byte>, h: Huffman, g: Source, bits: seq<bit>)
    requires ValidTable(h) && Serves(input, g, bits) && (g.bits >= 16 || g.nomore)
    ensures var r := SlowNext(input, h, g);
      match NextAt(h, bits)
      case Coefficient(run, v, rest) =>
        !Overrun(h, g) && r.Value? && r.run == run && r.coefficient == v && Serves(input, AfterNext(h, g, r.s), rest)
      case NoCoefficient(run, rest) => !Overrun(h, g) && r.NoValue? && r.run == run && Serves(input, r.s, rest)
      case BadCode => r.Failed?
      case ShortCode => true
  {
    hide Agree, Available, SlowNext, FastAc, TopNine, SymbolAt, Upcoming, LowZero, Extend, Top, EntryLength, Shl32;
    SlowRead(input, h, g, bits);
    SameHead(input, g, bits);
    HeadDecides(h, Buf(g), FullBuffer(bits));
    var e, r := FastAc(h, TopNine(Buf(g))), SymbolAt(h, bits);
    if e != 0 && r.Symbol? {
      EntryRead(h, bits, TopNine(Buf(g)));
      if EntryLength(e) <= |bits| {
        EnoughBits(input, g, bits, EntryLength(e));
        ServesShifted(input, g, bits, EntryLength(e));
        assert bits[EntryLength(e)..] == bits[r.len..][r.rs % 16..];
      }
    }
  }

  // ----- the zigzag order -----

  /** Which place of the block the k-th value sent belongs to, in rows of eight. */
  const DEZIGZAG: seq<seq<nat>> := [
    [0, 1, 8, 16, 9, 2, 3, 10],
    [17, 24, 32, 25, 18, 11, 4, 5],
    [12, 19, 26, 33, 40, 48, 41, 34],
    [27, 20, 13, 6, 7, 14, 21, 28],
    [35, 42, 49, 56, 57, 50, 43, 36],
    [29, 22, 15, 23, 30, 37, 44, 51],
    [58, 59, 52, 45, 38, 31, 39, 46],
    [53, 60, 61, 54, 47, 55, 62, 63]]

  /** The other way round: the number of the value that belongs to a place. */
  const ZIGZAG: seq<seq<nat>> := [
    [0, 1, 5, 6, 14, 15, 27, 28],
    [2, 4, 7, 13, 16, 26, 29, 42],
    [3, 8, 12, 17, 25, 30, 41, 43],
    [9, 11, 18, 24, 31, 40, 44, 53],
    [10, 19, 23, 32, 39, 45, 52, 54],
    [20, 22, 33, 38, 46, 51, 55, 60],
    [21, 34, 37, 47, 50, 56, 59, 61],
    [35, 36, 48, 49, 57, 58, 62, 63]]

  /** Number k of the table; the fifteen numbers behind the 64 all name the last place. */
  function Dezigzag(k: nat): (p: nat)
    requires k < 79
    ensures p < 64
  {
    if k < 64 then DEZIGZAG[k / 8][k % 8] else 63
  }

  function Zigzag(p: nat): (k: nat)
    requires p < 64
    ensures k < 64
  {
    ZIGZAG[p / 8][p % 8]
  }

  lemma Row0()
    ensures Dezigzag(0) == 0 && Dezigzag(1) == 1 && Dezigzag(2) == 8 && Dezigzag(3) == 16
      && Dezigzag(4) == 9 && Dezigzag(5) == 2 && Dezigzag(6) == 3 && Dezigzag(7) == 10
    ensures Zigzag(0) == 0 && Zigzag(1) == 1 && Zigzag(8) == 2 && Zigzag(16) == 3
      && Zigzag(9) == 4 && Zigzag(2) == 5 && Zigzag(3) == 6 && Zigzag(10) == 7
  {
  }

  lemma Row1()
    ensures Dezigzag(8) == 17 && Dezigzag(9) == 24 && Dezigzag(10) == 32 && Dezigzag(11) == 25
      && Dezigzag(12) == 18 && Dezigzag(13) == 11 && Dezigzag(14) == 4 && Dezigzag(15) == 5
    ensures Zigzag(17) == 8 && Zigzag(24) == 9 && Zigzag(32) == 10 && Zigzag(25) == 11
      && Zigzag(18) == 12 && Zigzag(11) == 13 && Zigzag(4) == 14 && Zigzag(5) == 15
  {
  }

  lemma Row2()
    ensures Dezigzag(16) == 12 && Dezigzag(17) == 19 && Dezigzag(18) == 26 && Dezigzag(19) == 33
      && Dezigzag(20) == 40 && Dezigzag(21) == 48 && Dezigzag(22) == 41 && Dezigzag(23) == 34
    ensures Zigzag(12) == 16 && Zigzag(19) == 17 && Zigzag(26) == 18 && Zigzag(33) == 19
      && Zigzag(40) == 20 && Zigzag(48) == 21 && Zigzag(41) == 22 && Zigzag(34) == 23
  {
  }

  lemma Row3()
    ensures Dezigzag(24) == 27 && Dezigzag(25) == 20 && Dezigzag(26) == 13 && Dezigzag(27) == 6
      && Dezigzag(28) == 7 && Dezigzag(29) == 14 && Dezigzag(30) == 21 && Dezigzag(31) == 28
    ensures Zigzag(27) == 24 && Zigzag(20) == 25 && Zigzag(13) == 26 && Zigzag(6) == 27
      && Zigzag(7) == 28 && Zigzag(14) == 29 && Zigzag(21) == 30 && Zigzag(28) == 31
  {
  }

  lemma Row4()
    ensures Dezigzag(32) == 35 && Dezigzag(33) == 42 && Dezigzag(34) == 49 && Dezigzag(35) == 56
      && Dezigzag(36) == 57 && Dezigzag(37) == 50 && Dezigzag(38) == 43 && Dezigzag(39) == 36
    ensures Zigzag(35) == 32 && Zigzag(42) == 33 && Zigzag(49) == 34 && Zigzag(56) == 35
      && Zigzag(57) == 36 && Zigzag(50) == 37 && Zigzag(43) == 38 && Zigzag(36) == 39
  {
  }

  lemma Row5()
    ensures Dezigzag(40) == 29 && Dezigzag(41) == 22 && Dezigzag(42) == 15 && Dezigzag(43) == 23
      && Dezigzag(44) == 30 && Dezigzag(45) == 37 && Dezigzag(46) == 44 && Dezigzag(47) == 51
    ensures Zigzag(29) == 40 && Zigzag(22) == 41 && Zigzag(15) == 42 && Zigzag(23) == 43
      && Zigzag(30) == 44 && Zigzag(37) == 45 && Zigzag(44) == 46 && Zigzag(51) == 47
  {
  }

  lemma Row6()
    ensures Dezigzag(48) == 58 && Dezigzag(49) == 59 && Dezigzag(50) == 52 && Dezigzag(51) == 45
      && Dezigzag(52) == 38 && Dezigzag(53) == 31 && Dezigzag(54) == 39 && Dezigzag(55) == 46
    ensures Zigzag(58) == 48 && Zigzag(59) == 49 && Zigzag(52) == 50 && Zigzag(45) == 51
      && Zigzag(38) == 52 && Zigzag(31) == 53 && Zigzag(39) == 54 && Zigzag(46) == 55
  {
  }

  lemma Row7()
    ensures Dezigzag(56) == 53 && Dezigzag(57) == 60 && Dezigzag(58) == 61 && Dezigzag(59) == 54
      && Dezigzag(60) == 47 && Dezigzag(61) == 55 && Dezigzag(62) == 62 && Dezigzag(63) == 63
    ensures Zigzag(53) == 56 && Zigzag(60) == 57 && Zigzag(61) == 58 && Zigzag(54) == 59
      && Zigzag(47) == 60 && Zigzag(55) == 61 && Zigzag(62) == 62 && Zigzag(63) == 63
  {
  }

  /** Every place is named once. */
  lemma ZigzagUndone(k: nat)
    requires k < 64
    ensures Zigzag(Dezigzag(k)) == k
  {
    hide Zigzag, Dezigzag;
    if k < 32 {
      Row0();
      Row1();
      Row2();
      Row3();
    } else {
      Row4();
      Row5();
      Row6();
      Row7();
    }
  }

  /** The number of the value that a place past the end of a run names: values past the end land on the last place. */
  function Slot(k: nat): (s: nat)
    ensures s < 64
  {
    if k < 64 then k else 63
  }

  // ----- what the AC part of a block stands for -----

  /** The values in the order they are sent, and the bits behind the block. */
  datatype AcResult = AcDone(values: seq<int>, rest: seq<bit>) | AcBad | AcShort

  /** The symbols from value number k on. */
  function Ac(h: Huffman, bits: seq<bit>, k: nat, values: seq<int>): (r: AcResult)
    requires ValidTable(h) && |values| == 64
    ensures r.AcDone? ==> |r.values| == 64
    decreases |bits|
  {
    if k >= 64 then AcDone(values, bits)
    else
      match NextAt(h, bits)
      case BadCode => AcBad
      case ShortCode => AcShort
      case NoCoefficient(run, rest) => if run == 15 then Ac(h, rest, k + 16, values) else AcDone(values, rest)
      case Coefficient(run, value, rest) => Ac(h, rest, k + run + 1, values[Slot(k + run) := value])
  }

  function Zeroes(): (values: seq<int>)
    ensures |values| == 64 && forall k :: 0 <= k < 64 ==> values[k] == 0
  {
    seq(64, (k: nat) => 0)
  }

  /** Conversion to a signed 16-bit type. */
  function ToShort(v: int): (r: int)
    ensures -0x8000 <= r < 0x8000
    ensures -0x8000 <= v < 0x8000 ==> r == v
  {
    (v + 0x8000) % 0x10000 - 0x8000
  }

  /** Value number k as it is stored: multiplied and cut down to sixteen bits. */
  function Scaled(values: seq<int>, dequant: seq<nat>, k: nat): int
    requires |values| == |dequant| == 64 && k < 64
  {
    ToShort(Product(values[k], dequant[Dezigzag(k)]))
  }

  function Product(a: int, b: int): int
  {
    a * b
  }

  /** The block holds these values, each at its place; place 0 belongs to the DC value. */
  ghost predicate Holds(data: seq<int>, values: seq<int>, dequant: seq<nat>)
    requires |data| == |values| == |dequant| == 64
  {
    forall k: nat {:trigger Dezigzag(k)} :: 1 <= k < 64 ==> data[Dezigzag(k)] == Scaled(values, dequant, k)
  }

  lemma HoldsNothing(data: seq<int>, dequant: seq<nat>)
    requires |data| == |dequant| == 64 && forall p :: 1 <= p < 64 ==> data[p] == 0
    ensures Holds(data, Zeroes(), dequant)
  {
    hide Dezigzag, ToShort;
    forall k: nat | 1 <= k < 64 ensures data[Dezigzag(k)] == Scaled(Zeroes(), dequant, k) {
      ZigzagUndone(k);
      ZigzagUndone(0);
      FirstPlace();
      ProductZero(dequant[Dezigzag(k)]);
      SmallShort(0);
    }
  }

  lemma FirstPlace()
    ensures Dezigzag(0) == 0
  {
  }

  lemma ProductZero(b: int)
    ensures Product(0, b) == 0
  {
  }

  lemma SmallShort(v: int)
    requires -0x8000 <= v < 0x8000
    ensures ToShort(v) == v
  {
  }

  /** Storing one value more. */
  lemma HoldsMore(data: seq<int>, values: seq<int>, dequant: seq<nat>, k: nat, v: int)
    requires |data| == |values| == |dequant| == 64 && 1 <= k < 79 && Holds(data, values, dequant)
    ensures Holds(data[Dezigzag(k) := ToShort(Product(v, dequant[Dezigzag(k)]))], values[Slot(k) := v], dequant)
    ensures data[Dezigzag(k) := ToShort(Product(v, dequant[Dezigzag(k)]))][0] == data[0]
  {
    hide Dezigzag, ToShort, Product;
    SlotPlace(k);
    FirstPlace();
    ZigzagUndone(0);
    ZigzagUndone(Slot(k));
    var data' := data[Dezigzag(k) := ToShort(Product(v, dequant[Dezigzag(k)]))];
    forall i: nat | 1 <= i < 64 ensures data'[Dezigzag(i)] == Scaled(values[Slot(k) := v], dequant, i) {
      ZigzagUndone(i);
    }
  }

  lemma SlotPlace(k: nat)
    requires 1 <= k < 79
    ensures Dezigzag(Slot(k)) == Dezigzag(k) && Slot(k) >= 1
  {
  }

  // ----- the decoder -----

  /** What one round of the AC loop does to the meaning of the rest of the block. */
  lemma AcStep(input: seq<byte>, h: Huffman, s: Source, bits: seq<bit>, k: nat, values: seq<int>)
    requires ValidTable(h) && Serves(input, s, bits) && k < 64 && |values| == 64
    ensures Serves(input, Refilled(input, s), bits)
    ensures var g := Refilled(input, s); var r := SlowNext(input, h, g); var spec := Ac(h, bits, k, values);
      match NextAt(h, bits)
      case ShortCode => spec.AcShort?
      case BadCode => spec.AcBad? && r.Failed?
      case NoCoefficient(run, rest) =>
        !Overrun(h, g) && r.NoValue? && r.run == run && Serves(input, r.s, rest)
        && spec == if run == 15 then Ac(h, rest, k + 16, values) else AcDone(values, rest)
      case Coefficient(run, v, rest) =>
        !Overrun(h, g) && r.Value? && r.run == run && r.coefficient == v && Serves(input, AfterNext(h, g, r.s), rest)
        && spec == Ac(h, rest, k + run + 1, values[Slot(k + run) := v])
  {
    hide Agree, Available, SlowNext, Overrun, NextAt, Upcoming, LowZero, AfterNext;
    ServesRefilled(input, s, bits);
    NextRead(input, h, Refilled(input, s), bits);
  }

  method StoreAt(data: array<int>, p: nat, v: int)
    requires p < data.Length
    modifies data
    ensures data[..] == old(data[..])[p := v]
  {
    data[p] := v;
  }

  /** The AC loop: runs of zeros and coefficients until the block is full or its end is coded. */
  method DecodeAc(j: Jpeg, data: array<int>, h: Huffman, fast_ac: array<int>, dequant: seq<nat>, ghost bits: seq<bit>)
    returns (ok: bool)
    requires ValidTable(h) && data.Length == 64 == |dequant| && data != fast_ac
    requires fast_ac.Length == 512 && forall i :: 0 <= i < 512 ==> fast_ac[i] == FastAc(h, i)
    requires j.Valid() && Holds(data[..], Zeroes(), dequant) && Serves(j.input, j.State(), bits)
    modifies j, data
    ensures data[0] == old(data[0])
    ensures match Ac(h, bits, 1, Zeroes())
      case AcDone(values, rest) =>
        ok && Holds(data[..], values, dequant) && j.Valid() && Serves(j.input, j.State(), rest)
      case AcBad => !ok
      case AcShort => true
  {
    hide Ac, NextAt, Agree, Available, Holds, FastAc, Zeroes, SlowNext, Overrun, Refilled, Upcoming, Dezigzag, ToShort, Product, LowZero;
    ghost var spec := Ac(h, bits, 1, Zeroes());
    ghost var left, values := bits, Zeroes();
    var k := 1;
    var more := true;
    ok := true;
    while more
      invariant j.Valid() && |values| == 64 && Holds(data[..], values, dequant) && data[0] == old(data[0])
      invariant forall i :: 0 <= i < 512 ==> fast_ac[i] == FastAc(h, i)
      invariant ok && k >= 1 && (more ==> k < 64)
      invariant spec.AcShort? || Serves(j.input, j.State(), left)
      invariant spec.AcShort? || spec == if more then Ac(h, left, k, values) else AcDone(values, left)
      decreases if more then 64 - k else 0
    {
      ghost var next := NextAt(h, left);
      if !spec.AcShort? {
        AcStep(j.input, h, j.State(), left, k, values);
      }
      var found, run, c;
      ok, found, run, c := j.NextCoefficient(h, fast_ac);
      if !ok {
        return;
      }
      if !spec.AcShort? {
        left := next.rest;
      }
      if found {
        HoldsMore(data[..], values, dequant, k + run, c);
        StoreAt(data, Dezigzag(k + run), ToShort(Product(c, dequant[Dezigzag(k + run)])));
        values := values[Slot(k + run) := c];
        k := k + run + 1;
      } else if run != 15 {
        return;
      } else {
        k := k + 16;
      }
      if k >= 64 {
        AcFull(h, left, k, values);
        more := false;
      }
    }
  }

  lemma AcFull(h: Huffman, bits: seq<bit>, k: nat, values: seq<int>)
    requires ValidTable(h) && |values| == 64 && k >= 64
    ensures Ac(h, bits, k, values) == AcDone(values, bits)
  {
  }

  // ----- a whole block -----

  const INT_MIN: int := -0x8000_0000
  const INT_MAX: int := 0x7fff_ffff

  /** Whether a sum of two 32-bit numbers fits in 32 bits, tested without computing it. */
  predicate AddIntsValid(a: int, b: int)
  {
    if (a >= 0) != (b >= 0) then true
    else if a < 0 && b < 0 then a >= INT_MIN - b
    else a <= INT_MAX - b
  }

  lemma SumFits(a: int, b: int)
    requires INT_MIN <= a <= INT_MAX && INT_MIN <= b <= INT_MAX
    ensures AddIntsValid(a, b) <==> INT_MIN <= a + b <= INT_MAX
  {
  }

  /** Whether the product with an unsigned number fits in 16 bits, tested by a division that truncates. */
  predicate Mul2ShortsValid(a: int, b: nat)
  {
    if b == 0 then true
    else if a >= 0 then a <= 0x7fff / b
    else a >= -(0x8000 / b)
  }

  lemma ProductFits(a: int, b: nat)
    ensures Mul2ShortsValid(a, b) <==> -0x8000 <= Product(a, b) <= 0x7fff
  {
    if b > 0 {
      if a >= 0 {
        QuotientBound(a, 0x7fff, b);
      } else {
        QuotientBound(-a, 0x8000, b);
        assert Product(a, b) == -Product(-a, b);
        ProductSign(-a, b);
      }
      if a >= 0 {
        ProductSign(a, b);
      }
    }
  }

  lemma ProductSign(a: nat, b: nat)
    ensures Product(a, b) >= 0
  {
  }

  lemma QuotientBound(a: nat, m: nat, b: nat)
    requires b > 0
    ensures a <= m / b <==> Product(a, b) <= m
  {
    if Product(a, b) <= m {
      DivAtLeast(m, b, a);
    } else {
      DivBelow(m, b, a);
    }
  }

  datatype DcResult = Dc(diff: int, rest: seq<bit>) | BadDc | ShortDc

  /** The difference to the DC value of the block before. */
  function DcAt(h: Huffman, bits: seq<bit>): (r: DcResult)
    requires ValidTable(h)
  {
    match SymbolAt(h, bits)
    case BadSymbol => BadDc
    case ShortSymbol => ShortDc
    case Symbol(t, len) =>
      var rest := bits[len..];
      if t > 15 then BadDc
      else if t == 0 then Dc(0, rest)
      else if |rest| < t then ShortDc
      else Dc(Extend(Top(rest, t), t), rest[t..])
  }

  datatype BlockResult = Block(dc: int, values: seq<int>, rest: seq<bit>) | BadBlock | ShortBlock

  /** What the bits of a block stand for, behind a block with DC value pred. */
  function BlockAt(hdc: Huffman, hac: Huffman, bits: seq<bit>, pred: int, q: nat): (r: BlockResult)
    requires ValidTable(hdc) && ValidTable(hac)
    ensures r.Block? ==> |r.values| == 64
  {
    match DcAt(hdc, bits)
    case BadDc => BadBlock
    case ShortDc => ShortBlock
    case Dc(diff, rest) =>
      if !AddIntsValid(pred, diff) || !Mul2ShortsValid(pred + diff, q) then BadBlock
      else
        match Ac(hac, rest, 1, Zeroes())
        case AcBad => BadBlock
        case AcShort => ShortBlock
        case AcDone(values, r) => Block(pred + diff, values, r)
  }

  /** The DC symbol and, if it is not zero, the difference behind it. */
  method DecodeDc(j: Jpeg, hdc: Huffman, ghost bits: seq<bit>) returns (ok: bool, diff: int)
    requires ValidTable(hdc) && j.Valid() && Serves(j.input, j.State(), bits)
    modifies j
    ensures ok ==> j.Valid()
    ensures match DcAt(hdc, bits)
      case Dc(d, rest) => ok && diff == d && Serves(j.input, j.State(), rest)
      case BadDc => !ok
      case ShortDc => true
  {
    hide Agree, Available, SymbolAt, SlowSymbol, SlowReceive, LowZero, Upcoming, Grow, Extend, Top;
    ServesRefilled(j.input, j.State(), bits);
    if j.code_bits < 16 {
      j.GrowBuffer();
    }
    SymbolRead(j.input, hdc, j.State(), bits);
    var t := j.HuffDecodeSymbol(hdc);
    ok, diff := t >= 0 && t <= 15, 0;
    if ok && t != 0 {
      ghost var r := SymbolAt(hdc, bits);
      if r.Symbol? && |bits[r.len..]| >= t {
        MagnitudeRead(j.input, j.State(), bits[r.len..], t);
      }
      diff := j.ExtendReceiveBits(t);
    }
  }

  /** Decodes a block: its DC value as a difference, then its AC values. */
  method DecodeBlock(j: Jpeg, data: array<int>, hdc: Huffman, hac: Huffman, fast_ac: array<int>, pred: int, dequant: seq<nat>)
    returns (ok: bool, dc: int)
    requires ValidTable(hdc) && ValidTable(hac) && data.Length == 64 == |dequant| && data != fast_ac
    requires fast_ac.Length == 512 && forall i :: 0 <= i < 512 ==> fast_ac[i] == FastAc(hac, i)
    requires j.Valid()
    modifies j, data
    ensures match BlockAt(hdc, hac, old(RealBits(j.input, j.State())), pred, dequant[0])
      case Block(v, values, rest) =>
        && ok && dc == v && data[0] == Product(v, dequant[0]) && Holds(data[..], values, dequant)
        && j.Valid() && Serves(j.input, j.State(), rest)
      case BadBlock => !ok
      case ShortBlock => true
  {
    hide Agree, Available, DcAt, Ac, Holds, FastAc, Zeroes, AddIntsValid, Mul2ShortsValid, LowZero, Upcoming, Dezigzag, ToShort;
    ghost var bits := RealBits(j.input, j.State());
    var diff;
    ok, diff := DecodeDc(j, hdc, bits);
    dc := pred;
    if !ok {
      return;
    }
    ZeroBlock(data);
    if !AddIntsValid(pred, diff) {
      return false, pred;
    }
    dc := pred + diff;
    if !Mul2ShortsValid(dc, dequant[0]) {
      return false, dc;
    }
    ProductFits(dc, dequant[0]);
    SmallShort(Product(dc, dequant[0]));
    HoldsNothing(data[..], dequant);
    StoreAt(data, 0, ToShort(Product(dc, dequant[0])));
    HoldsNothing(data[..], dequant);
    ghost var r := DcAt(hdc, bits);
    ghost var rest := if r.Dc? then r.rest else RealBits(j.input, j.State());
    ok := DecodeAc(j, data, hac, fast_ac, dequant, rest);
  }

  method ZeroBlock(data: array<int>)
    requires data.Length == 64
    modifies data
    ensures forall p :: 0 <= p < 64 ==> data[p] == 0
  {
    forall p | 0 <= p < 64 {
      data[p] := 0;
    }
  }

  // ----- the encoder -----

  /** How many bits a magnitude has. */
  function SizeOf(v: nat): nat
  {
    if v == 0 then 0 else 1 + SizeOf(v / 2)
  }

  lemma {:induction false} SizeBounds(v: nat)
    ensures v < Pow2(SizeOf(v))
    ensures v > 0 ==> SizeOf(v) >= 1 && Pow2(SizeOf(v) - 1) <= v
  {
    if v > 0 {
      SizeBounds(v / 2);
    }
  }

  function Abs(v: int): nat
  {
    if v < 0 then -v else v
  }

  /** The n bits of a number, highest first. */
  function HighFirst(v: nat, n: nat): (bits: seq<bit>)
    ensures |bits| == n
  {
    if n == 0 then [] else HighFirst(v / 2, n - 1) + [v % 2]
  }

  lemma {:induction false} TopUndone(v: nat, n: nat, rest: seq<bit>)
    requires v < Pow2(n)
    ensures Top(HighFirst(v, n) + rest, n) == v
  {
    if n > 0 {
      TopUndone(v / 2, n - 1, [v % 2] + rest);
      assert HighFirst(v, n) + rest == HighFirst(v / 2, n - 1) + ([v % 2] + rest);
    }
  }

  /** A value as it is sent in n bits: a negative one is counted from -(2^n - 1) up. */
  function Offset(v: int, n: nat): int
  {
    if v >= 0 then v else v + Pow2(n) - 1
  }

  lemma OffsetUndone(v: int)
    requires v != 0
    ensures var n := SizeOf(Abs(v)); n >= 1 && 0 <= Offset(v, n) < Pow2(n) && Extend(Offset(v, n), n) == v
  {
    SizeBounds(Abs(v));
  }

  /** The magnitude bits of a value. */
  function MagnitudeBits(v: int): (bits: seq<bit>)
    requires v != 0
    ensures |bits| == SizeOf(Abs(v)) >= 1
  {
    OffsetUndone(v);
    HighFirst(Offset(v, SizeOf(Abs(v))), SizeOf(Abs(v)))
  }

  lemma MagnitudeUndone(v: int, rest: seq<bit>)
    requires v != 0
    ensures Extend(Top(MagnitudeBits(v) + rest, SizeOf(Abs(v))), SizeOf(Abs(v))) == v
  {
    OffsetUndone(v);
    TopUndone(Offset(v, SizeOf(Abs(v))), SizeOf(Abs(v)), rest);
  }

  /** The code of every symbol that may be sent. */
  type Book = map<nat, seq<bit>>

  /** With this table, the codes in the book are read as their symbols, whatever follows them. */
  ghost predicate Means(h: Huffman, book: Book)
    requires ValidTable(h)
  {
    forall rs: nat, tail: seq<bit> :: rs in book ==> SymbolAt(h, book[rs] + tail) == Symbol(rs, |book[rs]|)
  }

  lemma SymbolUndone(h: Huffman, book: Book, rs: nat, tail: seq<bit>)
    requires ValidTable(h) && Means(h, book) && rs in book
    ensures SymbolAt(h, book[rs] + tail) == Symbol(rs, |book[rs]|) && rs < 256 && (book[rs] + tail)[|book[rs]|..] == tail
  {
    hide SymbolAt;
  }

  /** The first value from number k on that is not zero, or 64. */
  function NextValue(values: seq<int>, k: nat): (m: nat)
    requires |values| == 64 && k <= 64
    ensures k <= m <= 64 && (m < 64 ==> values[m] != 0)
    ensures forall i :: k <= i < m ==> values[i] == 0
    decreases 64 - k
  {
    if k == 64 || values[k] != 0 then k else NextValue(values, k + 1)
  }

  /** The book has all codes that the values from number k on need. */
  predicate CanSend(book: Book, values: seq<int>, k: nat)
    requires |values| == 64 && k <= 64
    decreases 64 - k
  {
    var m := NextValue(values, k);
    if k == 64 then true
    else if m == 64 then 0 in book
    else if m - k >= 16 then 0xF0 in book && CanSend(book, values, k + 16)
    else
      var n := SizeOf(Abs(values[m]));
      n <= 15 && 16 * (m - k) + n in book && CanSend(book, values, m + 1)
  }

  /** The AC part of a block from value number k on: a run of zeros and a value at a time, sixteen zeros by a symbol of
      their own, and an end-of-block symbol unless the last value is sent. */
  function AcBits(book: Book, values: seq<int>, k: nat): seq<bit>
    requires |values| == 64 && k <= 64 && CanSend(book, values, k)
    decreases 64 - k
  {
    var m := NextValue(values, k);
    if k == 64 then []
    else if m == 64 then book[0]
    else if m - k >= 16 then book[0xF0] + AcBits(book, values, k + 16)
    else book[16 * (m - k) + SizeOf(Abs(values[m]))] + MagnitudeBits(values[m]) + AcBits(book, values, m + 1)
  }

  /** The values up to number k, zeros from there on. */
  function Upto(values: seq<int>, k: nat): (r: seq<int>)
    requires |values| == 64
    ensures |r| == 64
  {
    seq(64, (i: nat) requires i < 64 => if i < k then values[i] else 0)
  }

  lemma RunSent(h: Huffman, book: Book, rs: nat, tail: seq<bit>)
    requires ValidTable(h) && Means(h, book) && rs in book && rs % 16 == 0
    ensures NextAt(h, book[rs] + tail) == NoCoefficient(rs / 16, tail)
  {
    hide SymbolAt;
    SymbolUndone(h, book, rs, tail);
  }

  lemma ValueSent(h: Huffman, book: Book, run: nat, v: int, tail: seq<bit>)
    requires ValidTable(h) && Means(h, book) && v != 0 && run < 16 && SizeOf(Abs(v)) <= 15
    requires 16 * run + SizeOf(Abs(v)) in book
    ensures NextAt(h, book[16 * run + SizeOf(Abs(v))] + (MagnitudeBits(v) + tail)) == Coefficient(run, v, tail)
  {
    hide SymbolAt, Top, Extend, SizeOf, MagnitudeBits, Means, Pow2, ValidTable;
    var n := SizeOf(Abs(v));
    var rest := MagnitudeBits(v) + tail;
    OffsetUndone(v);
    SymbolUndone(h, book, 16 * run + n, rest);
    MagnitudeUndone(v, tail);
    assert rest[n..] == tail;
  }

  lemma EndRead(h: Huffman, book: Book, k: nat, values: seq<int>, tail: seq<bit>)
    requires ValidTable(h) && Means(h, book) && 0 in book && k < 64 && |values| == 64
    ensures Ac(h, book[0] + tail, k, values) == AcDone(values, tail)
  {
    hide NextAt, Means;
    RunSent(h, book, 0, tail);
  }

  lemma RunRead(h: Huffman, book: Book, k: nat, values: seq<int>, tail: seq<bit>)
    requires ValidTable(h) && Means(h, book) && 0xF0 in book && k < 64 && |values| == 64
    ensures Ac(h, book[0xF0] + tail, k, values) == Ac(h, tail, k + 16, values)
  {
    hide NextAt, Means;
    RunSent(h, book, 0xF0, tail);
  }

  lemma ValueRead(h: Huffman, book: Book, k: nat, values: seq<int>, run: nat, v: int, tail: seq<bit>)
    requires ValidTable(h) && Means(h, book) && v != 0 && run < 16 && SizeOf(Abs(v)) <= 15
    requires 16 * run + SizeOf(Abs(v)) in book && k + run < 64 && |values| == 64
    ensures Ac(h, book[16 * run + SizeOf(Abs(v))] + (MagnitudeBits(v) + tail), k, values)
         == Ac(h, tail, k + run + 1, values[k + run := v])
  {
    hide NextAt, Means, SizeOf, MagnitudeBits;
    ValueSent(h, book, run, v, tail);
  }

  /** The first code of the AC part from value number k on. */
  lemma AcBitsStart(book: Book, values: seq<int>, k: nat)
    requires |values| == 64 && k < 64 && CanSend(book, values, k)
    ensures var m := NextValue(values, k);
      if m == 64 then 0 in book && AcBits(book, values, k) == book[0]
      else if m - k >= 16 then
        0xF0 in book && CanSend(book, values, k + 16) && AcBits(book, values, k) == book[0xF0] + AcBits(book, values, k + 16)
      else
        var n := SizeOf(Abs(values[m]));
        n <= 15 && 16 * (m - k) + n in book && CanSend(book, values, m + 1)
        && AcBits(book, values, k) == book[16 * (m - k) + n] + MagnitudeBits(values[m]) + AcBits(book, values, m + 1)
  {
    hide SizeOf, MagnitudeBits;
  }

  lemma UptoSame(values: seq<int>, k: nat, m: nat)
    requires |values| == 64 && k <= m <= 64 && forall i :: k <= i < m ==> values[i] == 0
    ensures Upto(values, m) == Upto(values, k)
    ensures m < 64 ==> Upto(values, k)[m := values[m]] == Upto(values, m + 1)
    ensures Upto(values, 64) == values
  {
  }

  lemma Regroup(a: seq<bit>, b: seq<bit>, c: seq<bit>, d: seq<bit>)
    ensures a + b + c + d == a + (b + (c + d))
    ensures a + b + c == a + (b + c)
  {
  }

  /** Decoding the AC part undoes encoding it, for every list of values. */
  lemma {:induction false} AcUndone(h: Huffman, book: Book, values: seq<int>, k: nat, rest: seq<bit>)
    requires ValidTable(h) && Means(h, book) && |values| == 64 && k <= 64 && CanSend(book, values, k)
    ensures Ac(h, AcBits(book, values, k) + rest, k, Upto(values, k)) == AcDone(values, rest)
    decreases 64 - k
  {
    hide Ac, AcBits, CanSend, NextValue, Upto, Means, SizeOf, MagnitudeBits;
    if k == 64 {
      AcNothing(book, values);
      UptoSame(values, 64, 64);
      AcFull(h, rest, 64, values);
      assert [] + rest == rest;
    } else {
      var m := NextValue(values, k);
      AcBitsStart(book, values, k);
      UptoSame(values, k, m);
      if m == 64 {
        EndRead(h, book, k, Upto(values, k), rest);
      } else if m - k >= 16 {
        UptoSame(values, k, k + 16);
        Regroup(book[0xF0], AcBits(book, values, k + 16), rest, []);
        RunRead(h, book, k, Upto(values, k), AcBits(book, values, k + 16) + rest);
        AcUndone(h, book, values, k + 16, rest);
      } else {
        var v := values[m];
        Regroup(book[16 * (m - k) + SizeOf(Abs(v))], MagnitudeBits(v), AcBits(book, values, m + 1), rest);
        ValueRead(h, book, k, Upto(values, k), m - k, v, AcBits(book, values, m + 1) + rest);
        AcUndone(h, book, values, m + 1, rest);
      }
    }
  }

  lemma AcNothing(book: Book, values: seq<int>)
    requires |values| == 64 && CanSend(book, values, 64)
    ensures AcBits(book, values, 64) == []
  {
  }

  /** The book has the code that a DC difference needs. */
  predicate CanSendDc(book: Book, diff: int)
  {
    SizeOf(Abs(diff)) <= 15 && SizeOf(Abs(diff)) in book
  }

  function DcBits(book: Book, diff: int): seq<bit>
    requires CanSendDc(book, diff)
  {
    book[SizeOf(Abs(diff))] + if diff == 0 then [] else MagnitudeBits(diff)
  }

  lemma DcUndone(h: Huffman, book: Book, diff: int, rest: seq<bit>)
    requires ValidTable(h) && Means(h, book) && CanSendDc(book, diff)
    ensures DcAt(h, DcBits(book, diff) + rest) == Dc(diff, rest)
  {
    hide SymbolAt, Top, Extend, MagnitudeBits;
    var n := SizeOf(Abs(diff));
    if diff == 0 {
      assert DcBits(book, diff) + rest == book[n] + rest;
      SymbolUndone(h, book, n, rest);
    } else {
      var tail := MagnitudeBits(diff) + rest;
      assert DcBits(book, diff) + rest == book[n] + tail;
      SymbolUndone(h, book, n, tail);
      MagnitudeUndone(diff, rest);
      assert tail[n..] == rest;
    }
  }

  /** Decoding a block undoes encoding it, for every difference and every list of AC values, and leaves what follows. */
  lemma BlockUndone(hdc: Huffman, hac: Huffman, dcBook: Book, acBook: Book, pred: int, diff: int, values: seq<int>, q: nat,
                    rest: seq<bit>)
    requires ValidTable(hdc) && ValidTable(hac) && Means(hdc, dcBook) && Means(hac, acBook)
    requires CanSendDc(dcBook, diff) && |values| == 64 && values[0] == 0 && CanSend(acBook, values, 1)
    requires INT_MIN <= pred <= INT_MAX && INT_MIN <= pred + diff <= INT_MAX && -0x8000 <= Product(pred + diff, q) <= 0x7fff
    ensures BlockAt(hdc, hac, DcBits(dcBook, diff) + AcBits(acBook, values, 1) + rest, pred, q)
         == Block(pred + diff, values, rest)
  {
    hide Means, DcAt, DcBits, Ac, AcBits, CanSend, CanSendDc, Mul2ShortsValid, AddIntsValid, Product, Upto, Zeroes;
    var tail := AcBits(acBook, values, 1) + rest;
    Regroup(DcBits(dcBook, diff), AcBits(acBook, values, 1), rest, []);
    DcUndone(hdc, dcBook, diff, tail);
    ProductFits(pred + diff, q);
    AcUndone(hac, acBook, values, 1, rest);
    UptoFirst(values);
    DiffFits(dcBook, diff);
    SumFits(pred, diff);
  }

  lemma UptoFirst(values: seq<int>)
    requires |values| == 64 && values[0] == 0
    ensures Upto(values, 1) == Zeroes()
  {
  }

  lemma DiffFits(book: Book, diff: int)
    requires CanSendDc(book, diff)
    ensures INT_MIN <= diff <= INT_MAX
  {
    SizeBounds(Abs(diff));
    Pow2Values();
    Pow2Mono(SizeOf(Abs(diff)), 15);
  }

  /** A code of at most nine bits is in the table when all prefixes that start with it name its symbol. */
  lemma ShortCodeMeans(h: Huffman, rs: nat, code: seq<bit>, f: byte, tail: seq<bit>)
    requires ValidTable(h) && f < 255 && h.values[f] == rs && h.size[f] == |code| <= FAST_BITS
    requires forall i :: 0 <= i < 512 && i / Pow2(FAST_BITS - |code|) == Top(code, |code|) ==> h.fast[i] == f
    ensures SymbolAt(h, code + tail) == Symbol(rs, |code|)
  {
    hide Top, TopNine, Shl32, BitAt;
    var bits, n := code + tail, |code|;
    TopNineIs(bits);
    TopPrefix(bits, n, FAST_BITS);
    TopSame(code, tail, n);
  }

  lemma TopNineIs(bits: seq<bit>)
    ensures TopNine(FullBuffer(bits)) == Top(bits, FAST_BITS)
  {
    hide Top, Shr, Bit, BitAt, And;
    Pow2Values();
    var a, b := TopNine(FullBuffer(bits)), Top(bits, FAST_BITS);
    AndMask(Shr(FullBuffer(bits).code, 23), FAST_BITS);
    forall i: nat | i < FAST_BITS ensures Bit(a, i) == Bit(b, i) {
      BitOfMod(Shr(FullBuffer(bits).code, 23), FAST_BITS, i);
      BitOfShr(FullBuffer(bits).code, 23, i);
      BitOfTop(bits, 32, 23 + i);
      BitOfTop(bits, FAST_BITS, i);
    }
    BitsDetermine(a, b, FAST_BITS);
  }

  lemma {:induction false} TopPrefix(bits: seq<bit>, n: nat, m: nat)
    requires n <= m
    ensures Top(bits, m) / Pow2(m - n) == Top(bits, n)
  {
    if n < m {
      TopPrefix(bits, n, m - 1);
      DivDiv(Top(bits, m), 2, Pow2(m - n - 1));
      assert Top(bits, m) / 2 == Top(bits, m - 1);
    }
  }

  lemma {:induction false} TopSame(code: seq<bit>, tail: seq<bit>, n: nat)
    requires n <= |code|
    ensures Top(code + tail, n) == Top(code, n)
  {
    if n > 0 {
      TopSame(code, tail, n - 1);
    }
  }

  /** The two codes of the small table of two-bit codes. */
  lemma SmallBook()
    ensures Means(SmallTable(), map[7 := [0, 0], 6 := [0, 1]])
  {
    hide SymbolAt;
    Pow2Values();
    assert Top([0, 0], 2) == 0 && Top([0, 1], 2) == 1;
    forall tail: seq<bit> ensures SymbolAt(SmallTable(), [0, 0] + tail) == Symbol(7, 2) {
      ShortCodeMeans(SmallTable(), 7, [0, 0], 0, tail);
    }
    forall tail: seq<bit> ensures SymbolAt(SmallTable(), [0, 1] + tail) == Symbol(6, 2) {
      ShortCodeMeans(SmallTable(), 6, [0, 1], 1, tail);
    }
  }
}
