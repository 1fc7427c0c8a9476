/** What the decoded bytes, samples and pixels of a PNG image are by RFC 2083, said without the decoder's own functions. */
module PngFormat {
  import opened Bits
  import opened Grid
  import opened PngFilter
  import opened PngSamples
  import opened PngImage
  import opened PngAlpha
  import opened Adam7

  // ----- filters (section 6) -----

  /** The Paeth predictor is the neighbour nearest to left + above - upper left; at equal distance, left goes before
      above and above before upper left. */
  lemma PaethIsNearest(a: int, b: int, c: int)
    ensures var p, r := a + b - c, Paeth(a, b, c);
      && (r == a || r == b || r == c)
      && Abs(p - r) <= Abs(p - a) && Abs(p - r) <= Abs(p - b) && Abs(p - r) <= Abs(p - c)
      && (r != a ==> Abs(p - r) < Abs(p - a))
      && (r != a && r != b ==> Abs(p - r) < Abs(p - b))
  {
  }

  /** What each filter type predicts: nothing, the left byte, the byte above, their average rounded down, or Paeth's
      choice. */
  lemma Prediction(filter: nat, a: byte, b: byte, c: byte)
    requires filter <= 4
    ensures var p: int := Predict(filter, a, b, c);
      && (filter == 0 ==> p == 0) && (filter == 1 ==> p == a) && (filter == 2 ==> p == b)
      && (filter == 3 ==> 2 * p <= a as int + b <= 2 * p + 1)
      && (filter == 4 ==> p == Paeth(a, b, c))
  {
    hide Paeth;
  }

  lemma {:induction false} ReconAt(filter: nat, raw: seq<byte>, prior: seq<byte>, bpp: nat, n: nat, k: nat)
    requires filter <= 4 && |raw| == |prior| && k < n <= |raw|
    ensures Recon(filter, raw, prior, bpp, n)[..k] == Recon(filter, raw, prior, bpp, k)
    ensures Recon(filter, raw, prior, bpp, n)[k] == ReconByte(filter, raw, prior, bpp, Recon(filter, raw, prior, bpp, k))
  {
    hide ReconByte;
    if k < n - 1 {
      ReconAt(filter, raw, prior, bpp, n - 1, k);
    }
  }

  /** A decoded byte x' is the byte x that was sent plus what its row's filter predicts from the decoded bytes to the
      left (a), above (b) and above to the left (c): modulo 256. */
  predicate Unfiltered(filter: nat, x: byte, a: byte, b: byte, c: byte, x': byte)
  {
    && (filter == 0 ==> x' == x)
    && (filter == 1 ==> x' == (x as int + a) % 256)
    && (filter == 2 ==> x' == (x as int + b) % 256)
    && (filter == 3 ==> x' == (x as int + (a as int + b) / 2) % 256)
    && (filter == 4 ==> x' == (x as int + Paeth(a, b, c)) % 256)
  }

  lemma UnfilteredByte(filter: nat, raw: seq<byte>, prior: seq<byte>, bpp: nat, r: seq<byte>)
    requires filter <= 4 && |raw| == |prior| && |r| < |raw|
    ensures Unfiltered(filter, raw[|r|], LeftOf(r, |r|, bpp), prior[|r|], LeftOf(prior, |r|, bpp), ReconByte(filter, raw, prior, bpp, r))
  {
  }

  /** The byte d places before place k of a row, zero in front of the row. */
  function Back(row: seq<byte>, k: nat, d: nat): byte
    requires k < |row|
  {
    if k >= d then row[k - d] else 0
  }

  /** Bytes of a pixel, rounded up. */
  function PixelBytes(l: Layout): nat
  {
    if l.depth < 8 then 1 else l.imgN * (l.depth / 8)
  }

  lemma PixelBytesAre(l: Layout)
    requires ValidLayout(l)
    ensures FilterBytes(l) == PixelBytes(l) >= 1
  {
  }

  /** Row j of an image starts behind j rows, each with a byte for its filter, and has just enough bytes for its samples. */
  lemma RowPlace(l: Layout, p: nat, j: nat)
    requires ValidLayout(l)
    ensures RowStart(l, p, j) == p + j * (RowBytes(l) + 1)
    ensures Samples(l) == l.x * l.imgN && 8 * RowBytes(l) >= Samples(l) * l.depth > 8 * RowBytes(l) - 8
  {
    AtIs(RowBytes(l) + 1, j, 0);
    AtIs(l.imgN, l.x, 0);
    hide At;
  }

  /** An image needs as many bytes as its rows with their filter bytes. */
  lemma ImageLength(l: Layout)
    ensures RawLength(l) == l.y * (RowBytes(l) + 1)
  {
    AtIs(RowBytes(l) + 1, l.y, 0);
    hide At;
  }

  /** The decoded row above, zeros above the first. */
  function AboveRow(data: seq<byte>, p: nat, l: Layout, j: nat): (row: seq<byte>)
    requires ValidLayout(l) && FiltersOk(data, p, l, j)
    ensures |row| == RowBytes(l)
  {
    if j == 0 then ZeroRow(RowBytes(l)) else DecodedRow(data, p, l, j - 1)
  }

  lemma ReconstructedByte(filter: nat, raw: seq<byte>, above: seq<byte>, bpp: nat, k: nat)
    requires filter <= 4 && |raw| == |above| && k < |raw| && bpp >= 1
    ensures var row := Recon(filter, raw, above, bpp, |raw|);
      Unfiltered(filter, raw[k], Back(row, k, bpp), above[k], Back(above, k, bpp), row[k])
  {
    hide Recon, ReconByte, Unfiltered;
    ReconAt(filter, raw, above, bpp, |raw|, k);
    var r := Recon(filter, raw, above, bpp, k);
    assert r == Recon(filter, raw, above, bpp, |raw|)[..k];
    UnfilteredByte(filter, raw, above, bpp, r);
  }

  /** Every decoded byte of every row, by the filter type sent in front of its row. */
  lemma DecodedByte(data: seq<byte>, p: nat, l: Layout, j: nat, k: nat)
    requires ValidLayout(l) && FiltersOk(data, p, l, j + 1) && FiltersOk(data, p, l, j) && k < RowBytes(l)
    ensures var at := RowStart(l, p, j); var row, above := DecodedRow(data, p, l, j), AboveRow(data, p, l, j);
      && at + 1 + k < |data|
      && Unfiltered(data[at], data[at + 1 + k], Back(row, k, PixelBytes(l)), above[k], Back(above, k, PixelBytes(l)), row[k])
  {
    hide RowBytes, RowStart, FilterBytes, PixelBytes, Recon, Unfiltered, DecodedRow, FiltersOk, Back, ZeroRow;
    PixelBytesAre(l);
    DecodedRowIs(data, p, l, j);
    var at := RowStart(l, p, j);
    ReconstructedByte(data[at], data[at + 1..at + 1 + RowBytes(l)], AboveRow(data, p, l, j), FilterBytes(l), k);
  }

  // ----- samples (sections 2.1 to 2.3) -----

  /** Samples of a byte come highest bits first; samples of two bytes have the high byte first. */
  lemma SampleBits(row: seq<byte>, depth: nat, i: nat)
    requires SampleInside(row, depth, i)
    ensures depth == 1 ==> i / 8 < |row| && Sample(row, depth, i) == Bit(row[i / 8], 7 - i % 8)
    ensures depth == 2 ==> i / 4 < |row| && Sample(row, depth, i) == row[i / 4] / Four(3 - i % 4) % 4
    ensures depth == 4 ==> i / 2 < |row| && Sample(row, depth, i) == (if i % 2 == 0 then row[i / 2] / 16 else row[i / 2] % 16)
    ensures depth == 8 ==> Sample(row, depth, i) == row[i]
    ensures depth == 16 ==> Sample(row, depth, i) == 256 * (row[2 * i] as int) + row[2 * i + 1]
  {
    if depth == 1 {
      OneBit(row[i / 8], 7 - i % 8);
    } else if depth == 2 {
      TwoBitField(row[i / 4], i % 4);
    } else if depth == 4 {
      FourBitField(row[i / 2], i % 2);
    }
  }

  function Four(n: nat): (r: nat)
    ensures r >= 1
  {
    if n == 0 then 1 else if n == 1 then 4 else if n == 2 then 16 else 64
  }

  lemma OneBit(b: byte, k: nat)
    ensures Shr(b, k) % 2 == Bit(b, k)
  {
    BitOfShr(b, k, 0);
  }

  lemma TwoBitField(b: byte, j: nat)
    requires j < 4
    ensures Field(b, 2, j) == b / Four(3 - j) % 4
  {
    Pow2Values();
    ShrIsDiv(b, 8 - 2 * (j + 1));
  }

  lemma FourBitField(b: byte, j: nat)
    requires j < 2
    ensures Field(b, 4, j) == if j == 0 then b / 16 else b % 16
  {
    Pow2Values();
    ShrIsDiv(b, 8 - 4 * (j + 1));
  }

  /** The samples of a pixel. Gray samples below eight bits are stretched to the range of a byte in equal steps: black
      stays 0 and the largest sample becomes 255. All others are left as they are. An alpha that is added is the largest
      value of a byte or of two. */
  lemma PixelValues(row: seq<byte>, l: Layout, i: nat, c: nat)
    requires ValidLayout(l) && FullRow(row, l) && i < l.x && c < l.outN
    ensures var px := PixelAt(row, l, i);
      && (c == l.imgN ==> px[c] == if l.depth == 16 then 65535 else 255)
      && (c < l.imgN ==>
            && SampleInside(row, l.depth, i * l.imgN + c)
            && var v := Sample(row, l.depth, i * l.imgN + c);
               (l.color == 0 && l.depth == 1 ==> px[c] == 255 * v)
               && (l.color == 0 && l.depth == 2 ==> 3 * px[c] == 255 * v)
               && (l.color == 0 && l.depth == 4 ==> 15 * px[c] == 255 * v)
               && (l.color != 0 || l.depth >= 8 ==> px[c] == v))
  {
    hide Sample, SampleInside, At, Samples;
    Inside(row, l, i);
    AtIs(l.imgN, i, c);
  }

  /** A pixel that gets an alpha byte keeps its own bytes and is opaque. */
  lemma ExpandedBytes(dest: seq<byte>, src: seq<byte>, n: nat, i: nat, c: nat)
    requires (n == 1 || n == 3) && PixelExpanded(dest, src, n, i) && c <= n
    ensures (n + 1) * i + c < |dest|
    ensures c < n ==> n * i + c < |src| && dest[(n + 1) * i + c] == src[n * i + c]
    ensures c == n ==> dest[(n + 1) * i + c] == 255
  {
    assert PixelOf(dest, n + 1, i)[c] == (PixelOf(src, n, i) + [OPAQUE])[c];
  }

  /** Sizes are refused from 2^31 on. */
  lemma SizeLimits(l: Layout)
    ensures SizesOk(l) <==>
      && At(OutBytes(l), Area(l), 0) < 0x8000_0000 && InBits(Samples(l), l.depth) + 7 < 0x8000_0000
      && At(RowBytes(l), l.y, RowBytes(l)) < 0x8000_0000 && 2 * RowBytes(l) < 0x8000_0000
  {
    hide At, Samples, Area, RowBytes, OutBytes, InBits;
  }

  // ----- interlacing (section 2.6) -----

  /** Which pass sends a pixel, for each place of a square of eight by eight. */
  const PATTERN: seq<seq<nat>> := [
    [1, 6, 4, 6, 2, 6, 4, 6],
    [7, 7, 7, 7, 7, 7, 7, 7],
    [5, 6, 5, 6, 5, 6, 5, 6],
    [7, 7, 7, 7, 7, 7, 7, 7],
    [3, 6, 4, 6, 3, 6, 4, 6],
    [7, 7, 7, 7, 7, 7, 7, 7],
    [5, 6, 5, 6, 5, 6, 5, 6],
    [7, 7, 7, 7, 7, 7, 7, 7]]

  /** The passes are those of the pattern, repeated over the image. */
  lemma PassPattern(x: nat, y: nat)
    ensures PassOf(x, y) + 1 == PATTERN[y % 8][x % 8]
  {
    ModChain(x);
    ModChain(y);
    PatternAt(x % 8, y % 8);
    SameInSquare(x, y);
  }

  lemma SameInSquare(x: nat, y: nat)
    ensures PassOf(x, y) == PassOf(x % 8, y % 8)
  {
    ModChain(x);
    ModChain(y);
  }

  lemma PatternAt(x: nat, y: nat)
    requires x < 8 && y < 8
    ensures PassOf(x, y) + 1 == PATTERN[y][x]
  {
  }

  /** Within a pass, pixels are sent line by line from the top, and in each line from the left. */
  lemma PassOrder(p: nat, i: nat, i': nat, j: nat, j': nat)
    requires p < 7
    ensures i < i' ==> OutX(p, i) < OutX(p, i')
    ensures j < j' ==> OutY(p, j) < OutY(p, j')
  {
  }
}
