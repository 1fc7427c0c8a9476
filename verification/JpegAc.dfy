/** The JPEG decoder's combined table for small AC coefficients (sections F.2.2.1 and F.2.2.2 of ITU-T T.81):
    one table entry must do what decoding a symbol and receiving its magnitude bits does. */
module JpegAc {
  import opened Bits

  const FAST_BITS: nat := 9

  const TWO_32: nat := 0x1_0000_0000

  /** A Huffman table: for every nine-bit prefix the number of its symbol (255: none), and for longer codes the
      first code behind each length, shifted up to sixteen bits, and the distance from codes to symbol numbers. */
  datatype Huffman = Huffman(fast: seq<byte>, values: seq<byte>, size: seq<byte>, maxcode: seq<nat>, delta: seq<int>)

  predicate ValidTable(h: Huffman)
  {
    && |h.fast| == 512 && |h.values| == 256 && |h.size| == 257 && |h.maxcode| == 18 && |h.delta| == 17
    && h.maxcode[17] == TWO_32 - 1
    && forall i :: 0 <= i < 512 && h.fast[i] < 255 ==> 1 <= h.size[h.fast[i]] <= FAST_BITS
  }

  /** The bit buffer: the next bit is the highest of 32, and code_bits of them are valid. */
  datatype Buffer = Buffer(code: nat, bits: int)

  predicate ValidBuffer(b: Buffer)
  {
    b.code < TWO_32
  }

  /** `v << n` on 32 bits. */
  function Shl32(v: nat, n: nat): (r: nat)
    ensures r < TWO_32
  {
    Shl(v, n) % TWO_32
  }

  function Mask(n: nat): nat
  {
    Pow2(n) - 1
  }

  /** ~((1 << n) - 1) on 32 bits */
  function HighMask(n: nat): nat
    requires n <= 32
  {
    Pow2Mono(n, 32);
    Pow2Values();
    TWO_32 - Pow2(n)
  }

  /** Conversion of an unsigned 32-bit number to a signed one. */
  function Signed(v: nat): int
  {
    if v < 0x8000_0000 then v else v - TWO_32
  }

  // ----- the slow way -----

  function TopNine(b: Buffer): (c: nat)
    requires ValidBuffer(b)
    ensures c < 512
  {
    Pow2Values();
    AndMask(Shr(b.code, 32 - FAST_BITS), FAST_BITS);
    And(Shr(b.code, 32 - FAST_BITS), Mask(FAST_BITS))
  }

  /** The shortest length from k on whose codes reach the next 16 bits; the last bound is above all of them. */
  function LongLength(h: Huffman, temp: nat, k: nat): (r: nat)
    requires ValidTable(h) && k <= 17
    ensures k <= r <= 17
    decreases 17 - k
  {
    if k == 17 || temp < h.maxcode[k] then k else LongLength(h, temp, k + 1)
  }

  lemma TopSixteenSmall(b: Buffer)
    requires ValidBuffer(b)
    ensures Shr(b.code, 16) < 0x10000
  {
    Pow2Values();
    ShrIsDiv(b.code, 16);
  }

  /** Decoding a symbol from what is in the buffer; -1 is an error. */
  function HuffDecode(h: Huffman, b: Buffer): (r: (int, Buffer))
    requires ValidTable(h) && ValidBuffer(b)
    ensures ValidBuffer(r.1) && r.0 < 256
  {
    var k := h.fast[TopNine(b)];
    if k < 255 then
      var s: nat := h.size[k];
      if s > b.bits then (-1, b) else (h.values[k] as int, Buffer(Shl32(b.code, s), b.bits - s))
    else
      TopSixteenSmall(b);
      var n := LongLength(h, Shr(b.code, 16), FAST_BITS + 1);
      if n == 17 then (-1, Buffer(b.code, b.bits - 16))
      else if n > b.bits then (-1, b)
      else
        var c := And(Shr(b.code, 32 - n), Mask(n)) + h.delta[n];
        if c < 0 || c >= 256 then (-1, b)
        else (h.values[c] as int, Buffer(Shl32(b.code, n), b.bits - n))
  }

  /** EXTEND of the standard: an n-bit magnitude with its sign in the highest bit. */
  function Extend(v: nat, n: nat): int
    requires n >= 1
  {
    if v < Pow2(n - 1) then v - Pow2(n) + 1 else v
  }

  /** `x << n | x >> (32 - n)` on 32 bits. */
  function RotateLeft(x: nat, n: nat): nat
    requires n <= 32
  {
    Or(Shl32(x, n), Shr(x, 32 - n))
  }

  /** (-1 << n) + 1 */
  function Bias(n: nat): int
  {
    1 - Pow2(n)
  }

  /** Receiving n bits from what is in the buffer and extending their sign; 0 if there are too few. */
  function ExtendReceive(b: Buffer, n: nat): (int, Buffer)
    requires ValidBuffer(b) && n <= 15
  {
    if b.bits < n then (0, b)
    else
      var sgn := Shr(b.code, 31);
      var k := RotateLeft(b.code, n);
      (And(k, Mask(n)) + (if sgn == 0 then Bias(n) else 0), Buffer(And(k, HighMask(n)), b.bits - n))
  }

  // ----- what the shifts and masks are -----

  /** The high part of a rotation is the shifted number; the low part is what was shifted out. */
  lemma RotateBits(x: nat, n: nat, i: nat)
    requires x < TWO_32 && n <= 16
    ensures Bit(RotateLeft(x, n), i) == if i < n then Bit(x, 32 - n + i) else if i < 32 then Bit(x, i - n) else 0
  {
    hide Or, Shl, Shr, Bit;
    Pow2Values();
    BitOfOr(Shl32(x, n), Shr(x, 32 - n), i);
    BitOfMod(Shl(x, n), 32, i);
    BitOfShl(x, n, i);
    BitOfShr(x, 32 - n, i);
    if i >= n {
      BitBeyond(x, 32, 32 - n + i);
    }
  }

  lemma RotateLow(x: nat, n: nat)
    requires x < TWO_32 && n <= 16
    ensures And(RotateLeft(x, n), Mask(n)) == Shr(x, 32 - n)
  {
    hide And, Shr, RotateLeft, Bit, Pow2;
    Pow2Values();
    var l, r := RotateLeft(x, n) % Pow2(n), Shr(x, 32 - n);
    AndMask(RotateLeft(x, n), n);
    ShrBound(x, 32 - n, 32);
    Pow2Mono(n, 32);
    forall i: nat | i < 32 ensures Bit(l, i) == Bit(r, i) {
      BitOfMod(RotateLeft(x, n), n, i);
      RotateBits(x, n, i);
      BitOfShr(x, 32 - n, i);
      if i >= n {
        BitBeyond(x, 32, 32 - n + i);
      }
    }
    BitsDetermine(l, r, 32);
  }

  /** A mask with the n lowest of 32 bits missing. */
  lemma {:induction false} BitOfHighMask(m: nat, n: nat, i: nat)
    requires n <= m
    ensures Pow2(n) <= Pow2(m)
    ensures Bit(Pow2(m) - Pow2(n), i) == if n <= i < m then 1 else 0
  {
    Pow2Mono(n, m);
    if m == n {
      BitOfZero(i);
    } else if n == 0 {
      BitOfOnes(m, i);
    } else {
      var half := Pow2(m - 1) - Pow2(n - 1);
      Pow2Mono(n - 1, m - 1);
      assert Pow2(m) - Pow2(n) == 2 * half;
      if i > 0 {
        BitOfHighMask(m - 1, n - 1, i - 1);
        assert 2 * half / 2 == half;
      }
    }
  }

  lemma {:induction false} BitOfOnes(m: nat, i: nat)
    ensures Bit(Pow2(m) - 1, i) == if i < m then 1 else 0
  {
    if m == 0 {
      BitOfZero(i);
    } else {
      var v := Pow2(m) - 1;
      assert v % 2 == 1 && v / 2 == Pow2(m - 1) - 1;
      if i > 0 {
        BitOfOnes(m - 1, i - 1);
      }
    }
  }

  lemma RotateHigh(x: nat, n: nat)
    requires x < TWO_32 && n <= 16
    ensures And(RotateLeft(x, n), HighMask(n)) == Shl32(x, n)
  {
    hide And, Shl, RotateLeft, Bit, Pow2;
    Pow2Values();
    Pow2Mono(n, 32);
    var l, r := And(RotateLeft(x, n), HighMask(n)), Shl32(x, n);
    forall i: nat ensures Bit(l, i) == Bit(r, i) {
      BitOfAnd(RotateLeft(x, n), HighMask(n), i);
      RotateBits(x, n, i);
      BitOfHighMask(32, n, i);
      BitOfMod(Shl(x, n), 32, i);
      BitOfShl(x, n, i);
    }
    BitsEqual(l, r);
  }

  lemma BitsEqual(l: nat, r: nat)
    requires forall i: nat :: Bit(l, i) == Bit(r, i)
    ensures l == r
  {
    hide Bit;
    var n := l + r;
    BelowPow2(n);
    BitsDetermine(l, r, n);
  }

  lemma {:induction false} BelowPow2(n: nat)
    ensures n < Pow2(n)
  {
    if n > 0 {
      BelowPow2(n - 1);
    }
  }

  lemma SignIsTopBit(x: nat, n: nat)
    requires x < TWO_32 && 1 <= n <= 16
    ensures Shr(x, 31) == 0 <==> Shr(x, 32 - n) < Pow2(n - 1)
  {
    hide Shr;
    Pow2Values();
    Pow2Add(n - 1, 32 - n);
    ShrIsDiv(x, 31);
    ShrIsDiv(x, 32 - n);
    var p, q := Pow2(n - 1), Pow2(32 - n);
    Pow2Add(31, 0);
    assert p * q == Pow2(31);
    if x < p * q {
      DivBelow(x, q, p);
      SmallMod(x, Pow2(31));
    } else {
      DivAtLeast(x, q, p);
      DivAtLeast(x, Pow2(31), 1);
    }
  }

  /** Receiving takes the n highest bits, extends their sign and shifts the buffer up. */
  lemma ReceiveIsExtend(b: Buffer, n: nat)
    requires ValidBuffer(b) && 1 <= n <= 15 && b.bits >= n
    ensures ExtendReceive(b, n) == (Extend(Shr(b.code, 32 - n), n), Buffer(Shl32(b.code, n), b.bits - n))
  {
    hide And, Shr, RotateLeft, Shl;
    RotateLow(b.code, n);
    RotateHigh(b.code, n);
    SignIsTopBit(b.code, n);
  }

  // ----- the combined table -----

  /** The magnitude bits behind a code of `len` bits in a nine-bit prefix. */
  function Magnitude(i: nat, len: nat, magbits: nat): nat
    requires magbits <= FAST_BITS
  {
    Shr(And(Shl(i, len), Mask(FAST_BITS)), FAST_BITS - magbits)
  }

  /** `k += (~0U << magbits) + 1`, back as a signed number. */
  function MinusMask(k: nat, magbits: nat): int
    requires magbits <= 32
  {
    Signed((k + HighMask(magbits) + 1) % TWO_32)
  }

  /** Entry i of the table; 0 means that the prefix is not accelerated. */
  function FastAc(h: Huffman, i: nat): int
    requires ValidTable(h) && i < 512
  {
    var f := h.fast[i];
    if f >= 255 then 0
    else
      var rs, len: nat := h.values[f], h.size[f];
      var run, magbits := rs / 16, rs % 16;
      if magbits == 0 || len + magbits > FAST_BITS then 0
      else
        var k := Magnitude(i, len, magbits);
        var coef: int := if k < Pow2(magbits - 1) then MinusMask(k, magbits) else k;
        if -128 <= coef <= 127 then coef * 256 + run * 16 + (len + magbits) else 0
  }

  /** What the fast path takes from an entry: run, coefficient, and the bits it consumes. */
  function EntryRun(e: int): nat
  {
    e / 16 % 16
  }

  function EntryCoefficient(e: int): int
  {
    e / 256
  }

  function EntryLength(e: int): nat
  {
    e % 16
  }

  lemma EntryParts(coef: int, run: nat, total: nat)
    requires run < 16 && 1 <= total <= 9
    ensures var e := coef * 256 + run * 16 + total;
      e != 0 && EntryRun(e) == run && EntryCoefficient(e) == coef && EntryLength(e) == total
  {
    var e := coef * 256 + run * 16 + total;
    Digit16(coef * 16 + run, total);
    Digit16(coef, run);
    assert e == (coef * 16 + run) * 16 + total;
    assert e / 256 == e / 16 / 16;
  }

  lemma Digit16(q: int, d: nat)
    requires d < 16
    ensures (q * 16 + d) / 16 == q && (q * 16 + d) % 16 == d
  {
  }

  lemma MinusMaskIs(k: nat, magbits: nat)
    requires 1 <= magbits <= 9 && k < Pow2(magbits - 1)
    ensures MinusMask(k, magbits) == k - Pow2(magbits) + 1
  {
    Pow2Values();
    Pow2Mono(magbits, 9);
    Pow2Mono(magbits - 1, magbits);
  }

  /** The magnitude bits in the prefix are the bits that will be on top once the code is shifted out. */
  lemma MagnitudeIsTop(b: Buffer, len: nat, magbits: nat)
    requires ValidBuffer(b) && 1 <= len && 1 <= magbits && len + magbits <= FAST_BITS
    ensures Magnitude(TopNine(b), len, magbits) == Shr(Shl32(b.code, len), 32 - magbits)
  {
    hide And, Shl, Shr, Bit, Pow2;
    Pow2Values();
    var c := TopNine(b);
    var l, r := Magnitude(c, len, magbits), Shr(Shl32(b.code, len), 32 - magbits);
    AndMask(Shl(c, len), FAST_BITS);
    AndMask(Shr(b.code, 32 - FAST_BITS), FAST_BITS);
    forall i: nat ensures Bit(l, i) == Bit(r, i) {
      BitOfShr(Shl(c, len) % Pow2(FAST_BITS), FAST_BITS - magbits, i);
      BitOfMod(Shl(c, len), FAST_BITS, FAST_BITS - magbits + i);
      BitOfShl(c, len, FAST_BITS - magbits + i);
      BitOfShr(Shl32(b.code, len), 32 - magbits, i);
      BitOfMod(Shl(b.code, len), 32, 32 - magbits + i);
      BitOfShl(b.code, len, 32 - magbits + i);
      if i < magbits {
        var t := FAST_BITS - magbits + i - len;
        BitOfMod(Shr(b.code, 32 - FAST_BITS), FAST_BITS, t);
        BitOfShr(b.code, 32 - FAST_BITS, t);
      }
    }
    BitsEqual(l, r);
  }

  /** Shifting twice is shifting once by the sum. */
  lemma ShiftTwice(v: nat, m: nat, n: nat)
    ensures Shl32(Shl32(v, m), n) == Shl32(v, m + n)
  {
    hide Shl, Bit;
    Pow2Values();
    var l, r := Shl32(Shl32(v, m), n), Shl32(v, m + n);
    forall i: nat ensures Bit(l, i) == Bit(r, i) {
      BitOfMod(Shl(Shl32(v, m), n), 32, i);
      BitOfShl(Shl32(v, m), n, i);
      BitOfMod(Shl(v, m + n), 32, i);
      BitOfShl(v, m + n, i);
      if i >= n {
        BitOfMod(Shl(v, m), 32, i - n);
        BitOfShl(v, m, i - n);
      }
    }
    BitsEqual(l, r);
  }

  /** The coefficient in an entry is the extended magnitude. */
  lemma EntryIs(h: Huffman, i: nat)
    requires ValidTable(h) && i < 512 && FastAc(h, i) != 0
    ensures h.fast[i] < 255
    ensures var f := h.fast[i]; var rs, len: nat := h.values[f], h.size[f]; var e := FastAc(h, i);
      && rs % 16 >= 1 && len + rs % 16 <= FAST_BITS
      && EntryRun(e) == rs / 16 && EntryLength(e) == len + rs % 16
      && EntryCoefficient(e) == Extend(Magnitude(i, len, rs % 16), rs % 16)
  {
    hide Magnitude, MinusMask, Pow2;
    var f := h.fast[i];
    var rs, len: nat := h.values[f], h.size[f];
    var magbits := rs % 16;
    var k := Magnitude(i, len, magbits);
    if k < Pow2(magbits - 1) {
      MinusMaskIs(k, magbits);
    }
    EntryParts(Extend(k, magbits), rs / 16, len + magbits);
  }

  /** For every table and every buffer that holds the bits it names, a non-zero entry gives the run, the coefficient,
      the bits consumed and the remaining buffer that decoding the symbol and receiving its magnitude gives. */
  lemma FastIsSlow(h: Huffman, b: Buffer)
    requires ValidTable(h) && ValidBuffer(b) && FastAc(h, TopNine(b)) != 0 && EntryLength(FastAc(h, TopNine(b))) <= b.bits
    ensures var e := FastAc(h, TopNine(b)); var (rs, b1) := HuffDecode(h, b);
      && rs >= 0 && rs / 16 == EntryRun(e) && 1 <= rs % 16 <= 15
      && ExtendReceive(b1, rs % 16)
         == (EntryCoefficient(e), Buffer(Shl32(b.code, EntryLength(e)), b.bits - EntryLength(e)))
  {
    hide TopNine, FastAc, Magnitude, Shl, Shr, EntryRun, EntryLength, EntryCoefficient, Extend, ExtendReceive, LongLength;
    var i := TopNine(b);
    EntryIs(h, i);
    var f := h.fast[i];
    var rs, len: nat := h.values[f], h.size[f];
    var b1 := Buffer(Shl32(b.code, len), b.bits - len);
    MagnitudeIsTop(b, len, rs % 16);
    ReceiveIsExtend(b1, rs % 16);
    ShiftTwice(b.code, len, rs % 16);
  }

  /** Fills the table, prefix by prefix. */
  method BuildFastAc(h: Huffman, fast_ac: array<int>)
    requires ValidTable(h) && fast_ac.Length == 512
    modifies fast_ac
    ensures forall i :: 0 <= i < 512 ==> fast_ac[i] == FastAc(h, i)
  {
    hide Shl, Shr, And, Pow2, Signed;
    var i := 0;
    while i < 512
      invariant i <= 512 && forall j :: 0 <= j < i ==> fast_ac[j] == FastAc(h, j)
    {
      var fast := h.fast[i];
      fast_ac[i] := 0;
      if fast < 255 {
        var rs: nat := h.values[fast];
        var run := rs / 16;
        var magbits := rs % 16;
        var len: nat := h.size[fast];
        if magbits != 0 && len + magbits <= FAST_BITS {
          var k: int := Shr(And(Shl(i, len), Mask(FAST_BITS)), FAST_BITS - magbits);
          var m := Pow2(magbits - 1);
          if k < m {
            k := MinusMask(k, magbits);
          }
          if -128 <= k <= 127 {
            fast_ac[i] := k * 256 + run * 16 + (len + magbits);
          }
        }
      }
      i := i + 1;
    }
  }
}
