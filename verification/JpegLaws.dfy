/** Facts of ITU-T T.81 that the JPEG decoder's definitions rest on: the signs of magnitudes, byte stuffing, the zigzag
    walk, and the symbols that end or skip. */
module JpegLaws {
  import opened Bits
  import opened JpegAc
  import opened JpegScan
  import opened JpegBlock

  // ----- magnitudes (tables F.1 and F.2) -----

  /** The values of n magnitude bits are those whose absolute value has n bits; they ascend with the bits, the negative
      ones first. */
  lemma ExtendOrder(v: nat, w: nat, n: nat)
    requires 1 <= n && v < Pow2(n) && w < Pow2(n)
    ensures var x := Extend(v, n);
      && (Pow2(n - 1) <= x < Pow2(n) || -(Pow2(n) as int) < x <= -(Pow2(n - 1) as int))
      && (x < 0 <==> v < Pow2(n - 1))
      && (v < w <==> x < Extend(w, n))
  {
  }

  /** Two magnitude bits: -3, -2, 2, 3. */
  lemma TwoMagnitudeBits()
    ensures Extend(0, 1) == -1 && Extend(1, 1) == 1
    ensures Extend(0, 2) == -3 && Extend(1, 2) == -2 && Extend(2, 2) == 2 && Extend(3, 2) == 3
  {
    Pow2Values();
  }

  /** The bits of a number come highest first. */
  lemma HighestFirst(bits: seq<bit>, n: nat, t: nat)
    requires t < n
    ensures Bit(Top(bits, n), n - 1 - t) == BitAt(bits, t)
  {
    TopBit(bits, n, n - 1 - t);
  }

  lemma {:induction false} TopBit(bits: seq<bit>, n: nat, i: nat)
    requires i < n
    ensures Bit(Top(bits, n), i) == BitAt(bits, n - 1 - i)
  {
    var q := Top(bits, n - 1);
    assert Top(bits, n) / 2 == q && Top(bits, n) % 2 == BitAt(bits, n - 1);
    if i > 0 {
      TopBit(bits, n - 1, i - 1);
    }
  }

  // ----- byte stuffing (section B.1.1.5) -----

  /** Entropy-coded bytes as they stand in a file: a zero behind every 0xFF. */
  function Stuffed(d: seq<byte>): seq<byte>
  {
    if d == [] then [] else (if d[0] == 0xFF then [0xFF, 0x00] else [d[0]]) + Stuffed(d[1..])
  }

  /** The data in front of a marker are what was stuffed. */
  lemma {:induction false} StuffingUndone(head: seq<byte>, d: seq<byte>, marker: byte, rest: seq<byte>)
    requires marker != 0x00 && marker != 0xFF
    ensures Data(head + Stuffed(d) + [0xFF, marker] + rest, |head|) == d
    decreases |d|
  {
    hide Stuffed;
    var input := head + Stuffed(d) + [0xFF, marker] + rest;
    if d == [] {
      StuffedNothing();
      assert input[|head|] == 0xFF && input[|head| + 1] == marker;
      MarkerEnds(input, |head|);
    } else {
      StuffedFirst(d);
      var h := head + (if d[0] == 0xFF then [0xFF, 0x00] else [d[0]]);
      assert input == h + Stuffed(d[1..]) + [0xFF, marker] + rest;
      StuffingUndone(h, d[1..], marker, rest);
      assert d == [d[0]] + d[1..];
      if d[0] == 0xFF {
        assert input[|head|] == 0xFF && input[|head| + 1] == 0x00;
        StuffedByte(input, |head|);
      } else {
        assert input[|head|] == d[0];
        PlainByte(input, |head|);
      }
    }
  }

  lemma StuffedNothing()
    ensures Stuffed([]) == []
  {
  }

  lemma StuffedFirst(d: seq<byte>)
    requires d != []
    ensures Stuffed(d) == (if d[0] == 0xFF then [0xFF, 0x00] else [d[0]]) + Stuffed(d[1..])
  {
  }

  lemma MarkerEnds(input: seq<byte>, p: nat)
    requires p + 1 < |input| && input[p] == 0xFF && input[p + 1] != 0x00 && input[p + 1] != 0xFF
    ensures Data(input, p) == []
  {
    assert SkipFill(input, p + 1) == p + 1;
  }

  lemma StuffedByte(input: seq<byte>, p: nat)
    requires p + 1 < |input| && input[p] == 0xFF && input[p + 1] == 0x00
    ensures Data(input, p) == [0xFF] + Data(input, p + 2)
  {
    assert SkipFill(input, p + 1) == p + 1;
  }

  lemma PlainByte(input: seq<byte>, p: nat)
    requires p < |input| && input[p] != 0xFF
    ensures Data(input, p) == [input[p]] + Data(input, p + 1)
  {
  }

  /** A refill that meets a marker keeps it and stops; a stuffed byte and any other byte come in behind the bits. */
  lemma RefillMeets(input: seq<byte>, s: Source, b: byte)
    requires !s.nomore && s.bits <= 24 && s.pos + 1 < |input| && input[s.pos] == 0xFF && input[s.pos + 1] == b && b != 0xFF
    ensures b != 0x00 ==> GrowStep(input, s) == Source(s.code, s.bits, s.pos + 2, true, b)
    ensures b == 0x00 ==> GrowStep(input, s).pos == s.pos + 2 && !GrowStep(input, s).nomore && GrowStep(input, s).bits == s.bits + 8
  {
    assert SkipFill(input, s.pos + 1) == s.pos + 1;
    hide Or, Shl;
  }

  // ----- codes of more than nine bits -----

  /** The first n bits, shifted down and masked out of the buffer. */
  lemma TopIs(bits: seq<bit>, n: nat)
    requires n <= 32
    ensures And(Shr(FullBuffer(bits).code, 32 - n), Mask(n)) == Top(bits, n)
  {
    hide Top, Shr, Bit, BitAt, And;
    Pow2Values();
    var v := Shr(FullBuffer(bits).code, 32 - n);
    var a, b := And(v, Mask(n)), Top(bits, n);
    AndMask(v, n);
    forall i: nat | i < n ensures Bit(a, i) == Bit(b, i) {
      BitOfMod(v, n, i);
      BitOfShr(FullBuffer(bits).code, 32 - n, i);
      BitOfTop(bits, 32, 32 - n + i);
      BitOfTop(bits, n, i);
    }
    BitsDetermine(a, b, n);
  }

  lemma TopSixteen(bits: seq<bit>)
    ensures Shr(FullBuffer(bits).code, 16) == Top(bits, 16)
  {
    hide Top, Shr;
    Pow2Values();
    TopPrefix(bits, 16, 32);
    ShrIsDiv(Top(bits, 32), 16);
  }

  lemma {:induction false} LengthFound(h: Huffman, temp: nat, k: nat, n: nat)
    requires ValidTable(h) && k <= n <= 16 && temp < h.maxcode[n] && forall j :: k <= j < n ==> temp >= h.maxcode[j]
    ensures LongLength(h, temp, k) == n
    decreases n - k
  {
    if k < n {
      LengthFound(h, temp, k + 1, n);
    }
  }

  /** The limits, which stand for sixteen bits, put a code at its length. */
  ghost predicate AtLength(h: Huffman, code: seq<bit>)
    requires ValidTable(h)
  {
    var n := |code|;
    && 10 <= n <= 16 && (Top(code, n) + 1) * Pow2(16 - n) <= h.maxcode[n]
    && forall k :: 10 <= k < n ==> h.maxcode[k] <= Top(code, n) * Pow2(16 - n)
  }

  lemma Sixteen(bits: seq<bit>, n: nat)
    requires n <= 16
    ensures Top(bits, n) * Pow2(16 - n) <= Top(bits, 16) < (Top(bits, n) + 1) * Pow2(16 - n)
  {
    hide Top, Pow2;
    TopPrefix(bits, n, 16);
    DivRange(Top(bits, 16), Pow2(16 - n));
  }

  lemma DivRange(v: nat, p: nat)
    requires p > 0
    ensures v / p * p <= v < (v / p + 1) * p
  {
    DivParts(v, p);
  }

  ghost predicate NoShortEntry(h: Huffman, code: seq<bit>)
    requires ValidTable(h)
  {
    Pow2Values();
    h.fast[Top(code, 9)] == 255
  }

  /** A code of ten to sixteen bits that no shorter entry claims and that the limits put at its length is read as the
      symbol in row code + delta, whatever follows it. */
  lemma LongCodeMeans(h: Huffman, code: seq<bit>, tail: seq<bit>)
    requires ValidTable(h) && AtLength(h, code) && NoShortEntry(h, code)
    requires 0 <= Top(code, |code|) + h.delta[|code|] < 256
    ensures SymbolAt(h, code + tail) == Symbol(h.values[Top(code, |code|) + h.delta[|code|]], |code|)
  {
    hide Top, TopNine, Shl32, BitAt, LongLength, And, Shr, Mask, Pow2;
    var bits, n := code + tail, |code|;
    TopNineIs(bits);
    TopSame(code, tail, 9);
    TopSame(code, tail, n);
    TopSixteen(bits);
    Sixteen(bits, n);
    LengthFound(h, Top(bits, 16), 10, n);
    TopIs(bits, n);
  }

  // ----- the zigzag walk (figure A.6) -----

  /** From a place of the block, numbered line by line, one step along the diagonals: up to the right where line and
      column have an even sum, down to the left where it is odd, along the edge where the diagonal ends. */
  function NextPlace(p: nat): nat
    requires p < 63
  {
    var line, column := p / 8, p % 8;
    if (line + column) % 2 == 0 then
      if column == 7 then p + 8 else if line == 0 then p + 1 else p - 7
    else if line == 7 then p + 1 else if column == 0 then p + 8 else p + 7
  }

  lemma ZigzagWalk(k: nat)
    requires k < 63
    ensures Dezigzag(0) == 0 && Dezigzag(k) < 63 && Dezigzag(k + 1) == NextPlace(Dezigzag(k))
  {
    hide Dezigzag, NextPlace;
    StartPlace();
    if k < 16 {
      FirstPlaces(k);
    } else if k < 32 {
      SecondPlaces(k);
    } else if k < 48 {
      ThirdPlaces(k);
    } else {
      FourthPlaces(k);
    }
  }

  lemma StartPlace()
    ensures Dezigzag(0) == 0
  {
  }

  lemma FirstPlaces(k: nat)
    requires 0 <= k < 16
    ensures Dezigzag(k) < 63 && Dezigzag(k + 1) == NextPlace(Dezigzag(k))
  {
  }

  lemma SecondPlaces(k: nat)
    requires 16 <= k < 32
    ensures Dezigzag(k) < 63 && Dezigzag(k + 1) == NextPlace(Dezigzag(k))
  {
  }

  lemma ThirdPlaces(k: nat)
    requires 32 <= k < 48
    ensures Dezigzag(k) < 63 && Dezigzag(k + 1) == NextPlace(Dezigzag(k))
  {
  }

  lemma FourthPlaces(k: nat)
    requires 48 <= k < 63
    ensures Dezigzag(k) < 63 && Dezigzag(k + 1) == NextPlace(Dezigzag(k))
  {
  }

  // ----- symbols (section F.1.2.2.1) -----

  lemma Nibbles(run: nat, size: nat)
    requires size < 16
    ensures (16 * run + size) / 16 == run && (16 * run + size) % 16 == size
  {
  }

  /** A symbol has a run of zeros in its high four bits and the number of magnitude bits in its low four. */
  lemma NextSymbol(h: Huffman, bits: seq<bit>, run: nat, size: nat, len: nat)
    requires ValidTable(h) && run < 16 && size < 16 && SymbolAt(h, bits) == Symbol(16 * run + size, len) && len <= |bits|
    ensures size == 0 ==> NextAt(h, bits) == NoCoefficient(run, bits[len..])
    ensures size > 0 && |bits| >= len + size ==>
      NextAt(h, bits) == Coefficient(run, Extend(Top(bits[len..], size), size), bits[len..][size..])
  {
    hide SymbolAt, Extend, Top;
    Nibbles(run, size);
  }

  /** The symbol 0xF0 skips sixteen zeros; the others without magnitude bits end the block. Any other value goes behind
      its zeros. */
  lemma AcSymbol(h: Huffman, bits: seq<bit>, k: nat, values: seq<int>, run: nat, size: nat, len: nat)
    requires ValidTable(h) && |values| == 64 && k < 64 && run < 16 && size < 16
    requires SymbolAt(h, bits) == Symbol(16 * run + size, len) && len <= |bits|
    ensures run == 15 && size == 0 ==> Ac(h, bits, k, values) == Ac(h, bits[len..], k + 16, values)
    ensures run != 15 && size == 0 ==> Ac(h, bits, k, values) == AcDone(values, bits[len..])
    ensures size > 0 && |bits| >= len + size && k + run < 64 ==>
      Ac(h, bits, k, values)
      == Ac(h, bits[len..][size..], k + run + 1, values[k + run := Extend(Top(bits[len..], size), size)])
  {
    hide SymbolAt, Extend, Top, NextAt;
    NextSymbol(h, bits, run, size, len);
  }

  /** A difference of DC values is preceded by the number of its magnitude bits. */
  lemma DcSymbol(h: Huffman, bits: seq<bit>, size: nat, len: nat)
    requires ValidTable(h) && SymbolAt(h, bits) == Symbol(size, len) && len <= |bits|
    ensures size == 0 ==> DcAt(h, bits) == Dc(0, bits[len..])
    ensures 1 <= size <= 15 && |bits| >= len + size ==>
      DcAt(h, bits) == Dc(Extend(Top(bits[len..], size), size), bits[len..][size..])
    ensures size > 15 ==> DcAt(h, bits).BadDc?
  {
    hide SymbolAt, Extend, Top;
  }

  /** Coefficients are multiplied by the entry of the quantization table at their place of the block, and kept in
      sixteen bits. */
  lemma Dequantized(data: seq<int>, values: seq<int>, dequant: seq<nat>, k: nat)
    requires |data| == |values| == |dequant| == 64 && 1 <= k < 64 && Holds(data, values, dequant)
    requires -32768 <= values[k] * dequant[Dezigzag(k)] < 32768
    ensures data[Dezigzag(k)] == values[k] * dequant[Dezigzag(k)]
  {
    hide Dezigzag;
  }
}
