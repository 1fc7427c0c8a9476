/** Rows of packed samples (sections 2.3 and 2.5 of RFC 2083): their meaning, packing, and the decoder's unpacking. */
module PngSamples {
  import opened Bits
  import opened Grid

  /** A picture: its size, samples per stored and per output pixel, bits per sample, and the PNG color type. */
  datatype Layout = Layout(x: nat, y: nat, imgN: nat, outN: nat, depth: nat, color: nat)

  /** One more output sample than stored ones means an added alpha sample. */
  predicate ValidLayout(l: Layout)
  {
    && l.x >= 1 && l.y >= 1 && 1 <= l.imgN <= 4
    && (l.outN == l.imgN || (l.outN == l.imgN + 1 && (l.imgN == 1 || l.imgN == 3)))
    && (l.depth == 1 || l.depth == 2 || l.depth == 4 || l.depth == 8 || l.depth == 16)
  }

  /** Number of samples in a row. */
  function Samples(l: Layout): nat
  {
    At(l.imgN, l.x, 0)
  }

  /** n times the depth. The cases keep the arithmetic linear. */
  function InBits(n: nat, depth: nat): nat
  {
    if depth == 16 then 16 * n else if depth == 8 then 8 * n else if depth == 4 then 4 * n
    else if depth == 2 then 2 * n else if depth == 1 then n else n * depth
  }

  /** Number of bytes in a row of n samples. */
  function PackedLength(n: nat, depth: nat): nat
  {
    (InBits(n, depth) + 7) / 8
  }

  /** The largest sample value. */
  function MaxSample(depth: nat): nat
  {
    Pow2(depth) - 1
  }

  // ----- meaning -----

  /** Samples in one byte. */
  function PerByte(depth: nat): (n: nat)
    requires depth == 1 || depth == 2 || depth == 4
    ensures n * depth == 8
  {
    8 / depth
  }

  /** Sample j of a byte; the first one is in the high bits. */
  function Field(b: byte, depth: nat, j: nat): nat
    requires depth * (j + 1) <= 8
  {
    Shr(b, 8 - depth * (j + 1)) % Pow2(depth)
  }

  predicate SampleInside(row: seq<byte>, depth: nat, i: nat)
  {
    if depth == 16 then 2 * i + 1 < |row|
    else if depth == 8 then i < |row|
    else (depth == 1 || depth == 2 || depth == 4) && Line(i, PerByte(depth)) < |row|
  }

  lemma ColFits(i: nat, depth: nat)
    requires depth == 1 || depth == 2 || depth == 4
    ensures depth * (Col(i, PerByte(depth)) + 1) <= 8
  {
  }

  /** Sample i of a row; two-byte samples have the high byte first. */
  function Sample(row: seq<byte>, depth: nat, i: nat): nat
    requires SampleInside(row, depth, i)
  {
    if depth == 16 then 256 * (row[2 * i] as int) + row[2 * i + 1]
    else if depth == 8 then row[i]
    else
      ColFits(i, depth);
      Field(row[Line(i, PerByte(depth))], depth, Col(i, PerByte(depth)))
  }

  /** Gray samples of fewer than eight bits are spread over 0..255. */
  function ScaleOf(depth: nat, color: nat): nat
  {
    if color != 0 then 1
    else if depth == 1 then 0xff
    else if depth == 2 then 0x55
    else if depth == 4 then 0x11
    else 1
  }

  function Opaque(depth: nat): nat
  {
    if depth == 16 then 0xffff else 255
  }

  predicate FullRow(row: seq<byte>, l: Layout)
  {
    |row| == PackedLength(Samples(l), l.depth)
  }

  /** Output pixel i of a row: its samples, scaled, and full alpha if that is added. */
  function PixelAt(row: seq<byte>, l: Layout, i: nat): (px: seq<nat>)
    requires ValidLayout(l) && FullRow(row, l) && i < l.x
    ensures |px| == l.outN
  {
    Inside(row, l, i);
    seq<nat>(l.imgN, (c: nat) requires c < l.imgN => ScaleOf(l.depth, l.color) * Sample(row, l.depth, At(l.imgN, i, c)))
    + (if l.outN == l.imgN then [] else [Opaque(l.depth)])
  }

  lemma Inside(row: seq<byte>, l: Layout, i: nat)
    requires ValidLayout(l) && FullRow(row, l) && i < l.x
    ensures forall c: nat {:trigger At(l.imgN, i, c)} :: c < l.imgN ==> SampleInside(row, l.depth, At(l.imgN, i, c))
  {
    forall c: nat | c < l.imgN ensures SampleInside(row, l.depth, At(l.imgN, i, c)) {
      AtInside(l.imgN, l.x, i, c);
      InsideRow(row, l.depth, At(l.imgN, i, c), Samples(l));
    }
  }

  lemma InsideRow(row: seq<byte>, depth: nat, i: nat, n: nat)
    requires depth == 1 || depth == 2 || depth == 4 || depth == 8 || depth == 16
    requires i < n && |row| == PackedLength(n, depth)
    ensures SampleInside(row, depth, i)
  {
  }

  // ----- packing -----

  predicate SmallSamples(s: seq<nat>, depth: nat)
  {
    forall i :: 0 <= i < |s| ==> s[i] <= MaxSample(depth)
  }

  /** Sample i, or zero behind the end of the row. */
  function SampleOrZero(s: seq<nat>, i: nat): nat
  {
    if i < |s| then s[i] else 0
  }

  /** The byte that holds samples k, k + 1, ... */
  function PackByteFrom(s: seq<nat>, depth: nat, k: nat): byte
    requires (depth == 1 || depth == 2 || depth == 4) && SmallSamples(s, depth)
  {
    SmallOrZero(s, depth);
    if depth == 4 then 16 * SampleOrZero(s, k) + SampleOrZero(s, k + 1)
    else if depth == 2 then
      64 * SampleOrZero(s, k) + 16 * SampleOrZero(s, k + 1) + 4 * SampleOrZero(s, k + 2) + SampleOrZero(s, k + 3)
    else
      128 * SampleOrZero(s, k) + 64 * SampleOrZero(s, k + 1) + 32 * SampleOrZero(s, k + 2) + 16 * SampleOrZero(s, k + 3)
      + 8 * SampleOrZero(s, k + 4) + 4 * SampleOrZero(s, k + 5) + 2 * SampleOrZero(s, k + 6) + SampleOrZero(s, k + 7)
  }

  lemma SmallOrZero(s: seq<nat>, depth: nat)
    requires SmallSamples(s, depth)
    ensures forall i: nat {:trigger SampleOrZero(s, i)} :: SampleOrZero(s, i) <= MaxSample(depth)
    ensures MaxSample(1) == 1 && MaxSample(2) == 3 && MaxSample(4) == 15 && MaxSample(8) == 255 && MaxSample(16) == 65535
  {
    Pow2Values();
  }

  function Digit(v: nat, unit: nat, base: nat): nat
    requires unit > 0 && base > 0
  {
    v / unit % base
  }

  lemma FieldIs(b: byte)
    ensures Field(b, 4, 0) == Digit(b, 16, 16) && Field(b, 4, 1) == Digit(b, 1, 16)
    ensures Field(b, 2, 0) == Digit(b, 64, 4) && Field(b, 2, 1) == Digit(b, 16, 4) && Field(b, 2, 2) == Digit(b, 4, 4) && Field(b, 2, 3) == Digit(b, 1, 4)
    ensures Field(b, 1, 0) == Digit(b, 128, 2) && Field(b, 1, 1) == Digit(b, 64, 2) && Field(b, 1, 2) == Digit(b, 32, 2)
    ensures Field(b, 1, 3) == Digit(b, 16, 2) && Field(b, 1, 4) == Digit(b, 8, 2) && Field(b, 1, 5) == Digit(b, 4, 2)
    ensures Field(b, 1, 6) == Digit(b, 2, 2) && Field(b, 1, 7) == Digit(b, 1, 2)
  {
    hide Shr;
    Pow2Values();
    ShrIsDiv(b, 0);
    ShrIsDiv(b, 1);
    ShrIsDiv(b, 2);
    ShrIsDiv(b, 3);
    ShrIsDiv(b, 4);
    ShrIsDiv(b, 5);
    ShrIsDiv(b, 6);
    ShrIsDiv(b, 7);
  }

  /** Field j of a packed byte is the sample that was put there. */
  lemma FieldPacked(s: seq<nat>, depth: nat, k: nat, j: nat)
    requires (depth == 1 || depth == 2 || depth == 4) && SmallSamples(s, depth) && depth * (j + 1) <= 8
    ensures Field(PackByteFrom(s, depth, k), depth, j) == SampleOrZero(s, k + j)
  {
    hide Field, SampleOrZero, SmallSamples, PackByteFrom;
    if depth == 4 {
      FieldPacked4(s, k, j);
    } else if depth == 2 {
      FieldPacked2(s, k, j);
    } else {
      FieldPacked1(s, k, j);
    }
  }

  /** The j-th of the samples in a packed byte, for each j. */
  lemma FieldPacked4(s: seq<nat>, k: nat, j: nat)
    requires SmallSamples(s, 4) && j < 2
    ensures Field(PackByteFrom(s, 4, k), 4, j) == SampleOrZero(s, k + j)
  {
    SmallOrZero(s, 4);
    var a, b := SampleOrZero(s, k), SampleOrZero(s, k + 1);
    assert PackByteFrom(s, 4, k) == 16 * a + b;
    Unpacked4(16 * a + b, a, b, j);
  }

  lemma Unpacked4(v: byte, a: nat, b: nat, j: nat)
    requires a <= 15 && b <= 15 && v == 16 * a + b && j < 2
    ensures Field(v, 4, j) == if j == 0 then a else b
  {
    hide Field, Digit;
    FieldIs(v);
    Fields4(a, b);
  }

  lemma FieldPacked2(s: seq<nat>, k: nat, j: nat)
    requires SmallSamples(s, 2) && j < 4
    ensures Field(PackByteFrom(s, 2, k), 2, j) == SampleOrZero(s, k + j)
  {
    hide Field;
    SmallOrZero(s, 2);
    var a, b, c, d := SampleOrZero(s, k), SampleOrZero(s, k + 1), SampleOrZero(s, k + 2), SampleOrZero(s, k + 3);
    assert PackByteFrom(s, 2, k) == 64 * a + 16 * b + 4 * c + d;
    Unpacked2(64 * a + 16 * b + 4 * c + d, a, b, c, d, j);
  }

  lemma Unpacked2(v: byte, a: nat, b: nat, c: nat, d: nat, j: nat)
    requires a <= 3 && b <= 3 && c <= 3 && d <= 3 && v == 64 * a + 16 * b + 4 * c + d && j < 4
    ensures Field(v, 2, j) == if j == 0 then a else if j == 1 then b else if j == 2 then c else d
  {
    hide Field, Digit;
    FieldIs(v);
    Fields2(a, b, c, d);
  }

  lemma FieldPacked1(s: seq<nat>, k: nat, j: nat)
    requires SmallSamples(s, 1) && j < 8
    ensures Field(PackByteFrom(s, 1, k), 1, j) == SampleOrZero(s, k + j)
  {
    hide Field, SampleOrZero, MaxSample;
    SmallOrZero(s, 1);
    var a, b, c, d := SampleOrZero(s, k), SampleOrZero(s, k + 1), SampleOrZero(s, k + 2), SampleOrZero(s, k + 3);
    var e, f, g, h := SampleOrZero(s, k + 4), SampleOrZero(s, k + 5), SampleOrZero(s, k + 6), SampleOrZero(s, k + 7);
    assert PackByteFrom(s, 1, k) == 128 * a + 64 * b + 32 * c + 16 * d + 8 * e + 4 * f + 2 * g + h;
    Unpacked1(128 * a + 64 * b + 32 * c + 16 * d + 8 * e + 4 * f + 2 * g + h, a, b, c, d, e, f, g, h, j);
  }

  lemma Unpacked1(v: byte, a: nat, b: nat, c: nat, d: nat, e: nat, f: nat, g: nat, h: nat, j: nat)
    requires a <= 1 && b <= 1 && c <= 1 && d <= 1 && e <= 1 && f <= 1 && g <= 1 && h <= 1 && j < 8
    requires v == 128 * a + 64 * b + 32 * c + 16 * d + 8 * e + 4 * f + 2 * g + h
    ensures Field(v, 1, j)
         == if j == 0 then a else if j == 1 then b else if j == 2 then c else if j == 3 then d
            else if j == 4 then e else if j == 5 then f else if j == 6 then g else h
  {
    hide Field, Digit;
    FieldIs(v);
    Fields1(a, b, c, d, e, f, g, h);
  }

  lemma Fields4(a: nat, b: nat)
    requires a <= 15 && b <= 15
    ensures var v := 16 * a + b; Digit(v, 16, 16) == a && Digit(v, 1, 16) == b
  {
  }

  lemma Fields2(a: nat, b: nat, c: nat, d: nat)
    requires a <= 3 && b <= 3 && c <= 3 && d <= 3
    ensures var v := 64 * a + 16 * b + 4 * c + d; Digit(v, 64, 4) == a && Digit(v, 16, 4) == b && Digit(v, 4, 4) == c && Digit(v, 1, 4) == d
  {
    var v := 64 * a + 16 * b + 4 * c + d;
    assert v / 16 == 4 * a + b;
    assert v / 4 == 4 * (4 * a + b) + c;
  }

  lemma Fields1(a: nat, b: nat, c: nat, d: nat, e: nat, f: nat, g: nat, h: nat)
    requires a <= 1 && b <= 1 && c <= 1 && d <= 1 && e <= 1 && f <= 1 && g <= 1 && h <= 1
    ensures var v := 128 * a + 64 * b + 32 * c + 16 * d + 8 * e + 4 * f + 2 * g + h;
      Digit(v, 128, 2) == a && Digit(v, 64, 2) == b && Digit(v, 32, 2) == c && Digit(v, 16, 2) == d
      && Digit(v, 8, 2) == e && Digit(v, 4, 2) == f && Digit(v, 2, 2) == g && Digit(v, 1, 2) == h
  {
    hide Digit;
    var v := 128 * a + 64 * b + 32 * c + 16 * d + 8 * e + 4 * f + 2 * g + h;
    var r2, r4, r8 := h, 2 * g + h, 4 * f + 2 * g + h;
    var r16 := 8 * e + r8;
    var r32 := 16 * d + r16;
    var r64 := 32 * c + r32;
    DigitIs(v, 128, 0, a, 64 * b + r64);
    DigitIs(v, 64, a, b, r64);
    DigitIs(v, 32, 2 * a + b, c, r32);
    DigitIs(v, 16, 4 * a + 2 * b + c, d, r16);
    DigitIs(v, 8, 8 * a + 4 * b + 2 * c + d, e, r8);
    DigitIs(v, 4, 16 * a + 8 * b + 4 * c + 2 * d + e, f, r4);
    DigitIs(v, 2, 32 * a + 16 * b + 8 * c + 4 * d + 2 * e + f, g, r2);
    DigitIs(v, 1, 64 * a + 32 * b + 16 * c + 8 * d + 4 * e + 2 * f + g, h, 0);
  }

  /** The binary digit of v that stands for p. */
  lemma DigitIs(v: nat, p: nat, q: nat, d: nat, r: nat)
    requires p > 0 && d <= 1 && r < p && v == (2 * q + d) * p + r
    ensures Digit(v, p, 2) == d
  {
    DivUnique(v, p, 2 * q + d, r);
  }

  /** Byte k of a packed row. */
  function PackedByte(s: seq<nat>, depth: nat, k: nat): byte
    requires depth == 1 || depth == 2 || depth == 4 || depth == 8 || depth == 16
    requires SmallSamples(s, depth)
  {
    SmallOrZero(s, depth);
    if depth == 16 then (if k % 2 == 0 then SampleOrZero(s, k / 2) / 256 else SampleOrZero(s, k / 2) % 256)
    else if depth == 8 then SampleOrZero(s, k)
    else PackByteFrom(s, depth, At(PerByte(depth), k, 0))
  }

  function PackRow(s: seq<nat>, depth: nat): (row: seq<byte>)
    requires depth == 1 || depth == 2 || depth == 4 || depth == 8 || depth == 16
    requires SmallSamples(s, depth)
    ensures |row| == PackedLength(|s|, depth)
  {
    seq<byte>(PackedLength(|s|, depth), (k: nat) => PackedByte(s, depth, k))
  }

  /** Unpacking undoes packing. */
  lemma SamplePacked(s: seq<nat>, depth: nat, i: nat)
    requires depth == 1 || depth == 2 || depth == 4 || depth == 8 || depth == 16
    requires SmallSamples(s, depth) && i < |s|
    ensures SampleInside(PackRow(s, depth), depth, i) && Sample(PackRow(s, depth), depth, i) == s[i]
  {
    hide SampleInside, SampleOrZero, PackByteFrom, PackedLength, At, Line, SmallSamples, Field;
    var row := PackRow(s, depth);
    InsideRow(row, depth, i, |s|);
    hide Field, SmallSamples, PackByteFrom, Line, Col, SampleOrZero;
    IsSample(s, i);
    if depth == 16 {
      WordPacked(s, i);
      assert row[2 * i] == PackedByte(s, 16, 2 * i) && row[2 * i + 1] == PackedByte(s, 16, 2 * i + 1);
    } else if depth == 8 {
      assert row[i] == PackedByte(s, 8, i);
    } else {
      var k, j := Line(i, PerByte(depth)), Col(i, PerByte(depth));
      assert row[k] == PackedByte(s, depth, k);
      PlaceAt(i, PerByte(depth));
      AtShift(PerByte(depth), k, j);
      ColFits(i, depth);
      FieldPacked(s, depth, At(PerByte(depth), k, 0), j);
    }
  }

  lemma IsSample(s: seq<nat>, i: nat)
    requires i < |s|
    ensures SampleOrZero(s, i) == s[i]
  {
  }

  lemma WordPacked(s: seq<nat>, i: nat)
    requires SmallSamples(s, 16) && i < |s|
    ensures 256 * (PackedByte(s, 16, 2 * i) as int) + PackedByte(s, 16, 2 * i + 1) == s[i]
  {
    assert 2 * i / 2 == i && (2 * i + 1) / 2 == i && 2 * i % 2 == 0 && (2 * i + 1) % 2 == 1;
  }

  // ----- the decoder -----

  /** The shift register behind j samples of a byte: they have been shifted out at the top. */
  function Register(b: byte, depth: nat, j: nat): nat
  {
    Shl(b, depth * j) % Pow2(8)
  }

  lemma BitOfRegister(b: byte, m: nat, i: nat)
    ensures Bit(Shl(b, m) % Pow2(8), i) == if m <= i < 8 then Bit(b, i - m) else 0
  {
    hide Bit, Shl;
    BitOfMod(Shl(b, m), 8, i);
    BitOfShl(b, m, i);
  }

  lemma BitOfField(b: byte, m: nat, d: nat, i: nat)
    ensures Bit(Shr(b, m) % Pow2(d), i) == if i < d then Bit(b, m + i) else 0
  {
    hide Bit, Shr;
    BitOfMod(Shr(b, m), d, i);
    BitOfShr(b, m, i);
  }

  /** The top d bits of a byte shifted up by m. */
  lemma TopBits(b: byte, m: nat, d: nat)
    requires m + d <= 8
    ensures Shr(Shl(b, m) % Pow2(8), 8 - d) == Shr(b, 8 - m - d) % Pow2(d)
  {
    hide Shl, Shr, Bit, Pow2;
    var l, r := Shr(Shl(b, m) % Pow2(8), 8 - d), Shr(b, 8 - m - d) % Pow2(d);
    forall i: nat | i < 8 ensures Bit(l, i) == Bit(r, i) {
      BitOfShr(Shl(b, m) % Pow2(8), 8 - d, i);
      BitOfRegister(b, m, 8 - d + i);
      BitOfField(b, 8 - m - d, d, i);
    }
    ShrSmaller(Shl(b, m) % Pow2(8), 8 - d);
    Pow2Mono(d, 8);
    BitsDetermine(l, r, 8);
  }

  lemma {:induction false} ShrSmaller(v: nat, n: nat)
    ensures Shr(v, n) <= v
  {
    if n > 0 {
      ShrSmaller(v / 2, n - 1);
    }
  }

  /** Shifting up in two steps. */
  lemma ShiftTwice(b: byte, m: nat, d: nat)
    ensures Shl(Shl(b, m) % Pow2(8), d) % Pow2(8) == Shl(b, m + d) % Pow2(8)
  {
    hide Shl, Bit, Pow2;
    var t := Shl(b, m) % Pow2(8);
    var l, r := Shl(t, d) % Pow2(8), Shl(b, m + d) % Pow2(8);
    forall i: nat | i < 8 ensures Bit(l, i) == Bit(r, i) {
      BitOfMod(Shl(t, d), 8, i);
      BitOfShl(t, d, i);
      if i >= d {
        BitOfRegister(b, m, i - d);
      }
      BitOfRegister(b, m + d, i);
    }
    BitsDetermine(l, r, 8);
  }

  /** The top bits of the register are the next sample; shifting them out gives the next register. */
  lemma RegisterStep(b: byte, depth: nat, j: nat)
    requires 1 <= depth && depth * (j + 1) <= 8
    ensures Shr(Register(b, depth, j), 8 - depth) == Field(b, depth, j)
    ensures U8(Shl(Register(b, depth, j), depth)) == Register(b, depth, j + 1)
  {
    hide Shl, Shr, Pow2;
    var m := depth * j;
    assert depth * (j + 1) == m + depth;
    Pow2Values();
    TopBits(b, m, depth);
    ShiftTwice(b, m, depth);
  }

  lemma FirstRegister(b: byte, depth: nat)
    ensures Register(b, depth, 0) == b
  {
    Pow2Values();
    SmallMod(b, 256);
  }

  lemma FirstHolds(row: seq<byte>, depth: nat)
    requires depth == 1 || depth == 2 || depth == 4
    ensures RegisterHolds(row, depth, 0, 0, 0)
  {
  }

  /** Unpacks n samples of fewer than eight bits: every byte goes through a shift register. */
  method ExpandBits(row: seq<byte>, depth: nat, scale: nat, n: nat) returns (samples: seq<nat>)
    requires depth == 1 || depth == 2 || depth == 4
    requires |row| == PackedLength(n, depth)
    ensures |samples| == n
    ensures forall i: nat :: i < n ==> SampleInside(row, depth, i) && samples[i] == scale * Sample(row, depth, i)
  {
    hide Shr, Shl, Register, Field, PerByte, Line, Col, U8, Pow2, RegisterHolds, Sample, SampleInside;
    samples := [];
    var p, inb, i: nat := 0, 0, 0;
    FirstHolds(row, depth);
    while i < n
      invariant i <= n && |samples| == i
      invariant forall t: nat :: t < i ==> SampleInside(row, depth, t) && samples[t] == scale * Sample(row, depth, t)
      invariant RegisterHolds(row, depth, i, p, inb)
    {
      InsideRow(row, depth, i, n);
      StartOfByte(row, depth, i, p, inb);
      if i % PerByte(depth) == 0 {
        inb := row[p];
        p := p + 1;
      }
      StepInByte(row, depth, i, p, inb);
      samples := samples + [scale * Shr(inb, 8 - depth)];
      inb := U8(Shl(inb, depth));
      i := i + 1;
    }
  }

  /** Between samples: p bytes were fetched, and the register holds what is left of the last one. */
  ghost predicate RegisterHolds(row: seq<byte>, depth: nat, i: nat, p: nat, inb: nat)
    requires depth == 1 || depth == 2 || depth == 4
  {
    var j := Col(i, PerByte(depth));
    if j == 0 then p == Line(i, PerByte(depth))
    else p == Line(i, PerByte(depth)) + 1 && p <= |row| && depth * j <= 8 && inb == Register(row[p - 1], depth, j)
  }

  lemma StartOfByte(row: seq<byte>, depth: nat, i: nat, p: nat, inb: nat)
    requires (depth == 1 || depth == 2 || depth == 4) && RegisterHolds(row, depth, i, p, inb)
    requires SampleInside(row, depth, i)
    ensures i % PerByte(depth) == 0 ==> p < |row| && FetchedHolds(row, depth, i, p + 1, row[p])
    ensures i % PerByte(depth) != 0 ==> FetchedHolds(row, depth, i, p, inb)
  {
    if i % PerByte(depth) == 0 {
      FirstRegister(row[p], depth);
    }
  }

  /** In front of a sample: the register holds it on top. */
  ghost predicate FetchedHolds(row: seq<byte>, depth: nat, i: nat, p: nat, inb: nat)
    requires depth == 1 || depth == 2 || depth == 4
  {
    var j := Col(i, PerByte(depth));
    p == Line(i, PerByte(depth)) + 1 && p <= |row| && depth * j <= 8 && inb == Register(row[p - 1], depth, j)
  }

  lemma StepInByte(row: seq<byte>, depth: nat, i: nat, p: nat, inb: nat)
    requires (depth == 1 || depth == 2 || depth == 4) && SampleInside(row, depth, i) && FetchedHolds(row, depth, i, p, inb)
    ensures Shr(inb, 8 - depth) == Sample(row, depth, i)
    ensures RegisterHolds(row, depth, i + 1, p, U8(Shl(inb, depth)))
  {
    hide Shr, Shl, Register, Field, U8, Pow2, Line, Col;
    ColFits(i, depth);
    var j := Col(i, PerByte(depth));
    RegisterStep(row[p - 1], depth, j);
    NextPlace(i, PerByte(depth));
  }
}
