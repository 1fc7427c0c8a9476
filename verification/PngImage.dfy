/** A PNG image from its inflated scanlines: filters undone row by row, samples unpacked, alpha added. */
module PngImage {
  import opened Bits
  import opened Grid
  import opened PngFilter
  import opened PngSamples

  type Pixel = seq<nat>

  const INT_MAX: nat := 0x7FFF_FFFF

  // ----- meaning -----

  function RowBytes(l: Layout): nat
  {
    PackedLength(Samples(l), l.depth)
  }

  /** The distance of the left neighbour: a whole pixel, at least one byte. */
  function FilterBytes(l: Layout): (n: nat)
    requires l.imgN >= 1
    ensures n >= 1
  {
    if l.depth < 8 then 1 else if l.depth == 16 then 2 * l.imgN else l.imgN
  }

  /** Bytes of all rows, each with its filter byte. */
  function RawLength(l: Layout): nat
  {
    At(RowBytes(l) + 1, l.y, 0)
  }

  function RowStart(l: Layout, p: nat, j: nat): nat
  {
    p + At(RowBytes(l) + 1, j, 0)
  }

  predicate RowInside(data: seq<byte>, p: nat, l: Layout, j: nat)
  {
    RowStart(l, p, j) + 1 + RowBytes(l) <= |data|
  }

  /** The first n rows are there and have a filter type of the format. */
  predicate FiltersOk(data: seq<byte>, p: nat, l: Layout, n: nat)
  {
    forall j: nat :: j < n ==> RowOk(data, p, l, j)
  }

  predicate RowOk(data: seq<byte>, p: nat, l: Layout, j: nat)
  {
    RowInside(data, p, l, j) && data[RowStart(l, p, j)] <= 4
  }

  /** Row j with its filter undone. */
  function DecodedRow(data: seq<byte>, p: nat, l: Layout, j: nat): (row: seq<byte>)
    requires ValidLayout(l) && FiltersOk(data, p, l, j + 1)
    ensures |row| == RowBytes(l)
  {
    var at := RowStart(l, p, j);
    assert RowOk(data, p, l, j);
    Recon(data[at], data[at + 1..at + 1 + RowBytes(l)],
          if j == 0 then ZeroRow(RowBytes(l)) else DecodedRow(data, p, l, j - 1), FilterBytes(l), RowBytes(l))
  }

  /** The sizes the decoder computes with fit an int. */
  predicate SizesOk(l: Layout)
  {
    && At(OutBytes(l), Area(l), 0) <= INT_MAX
    && InBits(Samples(l), l.depth) + 7 <= INT_MAX
    && At(RowBytes(l), l.y, RowBytes(l)) <= INT_MAX
    && 2 * RowBytes(l) <= INT_MAX
  }

  /** Bytes of an output pixel. */
  function OutBytes(l: Layout): nat
  {
    if l.depth == 16 then 2 * l.outN else l.outN
  }

  function Area(l: Layout): nat
  {
    At(l.x, l.y, 0)
  }

  predicate Decodable(data: seq<byte>, p: nat, l: Layout)
  {
    SizesOk(l) && p + RawLength(l) <= |data| && FiltersOk(data, p, l, l.y)
  }

  lemma FewerRows(data: seq<byte>, p: nat, l: Layout, m: nat, n: nat)
    requires FiltersOk(data, p, l, n) && m <= n
    ensures FiltersOk(data, p, l, m)
  {
  }

  /** Pixel i of row j. */
  function DecodedPixel(data: seq<byte>, p: nat, l: Layout, j: nat, i: nat): (px: Pixel)
    requires ValidLayout(l) && FiltersOk(data, p, l, j + 1) && i < l.x
    ensures |px| == l.outN
  {
    PixelAt(DecodedRow(data, p, l, j), l, i)
  }

  // ----- an encoder -----

  /** A picture to be encoded: one list of samples per row. */
  predicate ValidPicture(rows: seq<seq<nat>>, l: Layout)
  {
    ValidLayout(l) && |rows| == l.y && forall j :: 0 <= j < l.y ==> ValidSamples(rows[j], l)
  }

  predicate ValidSamples(s: seq<nat>, l: Layout)
  {
    |s| == Samples(l) && SmallSamples(s, l.depth)
  }

  /** The bytes of row j before filtering; a row of zeros above the first one. */
  function PackedRow(rows: seq<seq<nat>>, l: Layout, j: int): (row: seq<byte>)
    requires ValidPicture(rows, l) && -1 <= j < l.y
    ensures |row| == RowBytes(l)
  {
    if j < 0 then ZeroRow(RowBytes(l)) else PackRow(rows[j], l.depth)
  }

  predicate ValidFilters(filters: seq<nat>, l: Layout)
  {
    |filters| == l.y && forall j :: 0 <= j < l.y ==> filters[j] <= 4
  }

  /** Row j as it is sent: its filter type, then the filtered bytes. */
  function SentRow(rows: seq<seq<nat>>, filters: seq<nat>, l: Layout, j: nat): (b: seq<byte>)
    requires ValidPicture(rows, l) && ValidFilters(filters, l) && j < l.y
    ensures |b| == RowBytes(l) + 1
  {
    [filters[j]] + FilterRow(filters[j], PackedRow(rows, l, j), PackedRow(rows, l, j - 1), FilterBytes(l))
  }

  /** The first n rows as they are sent. */
  function SentRows(rows: seq<seq<nat>>, filters: seq<nat>, l: Layout, n: nat): (b: seq<byte>)
    requires ValidPicture(rows, l) && ValidFilters(filters, l) && n <= l.y
    ensures |b| == At(RowBytes(l) + 1, n, 0)
  {
    if n == 0 then []
    else
      NextAt(RowBytes(l) + 1, n - 1);
      SentRows(rows, filters, l, n - 1) + SentRow(rows, filters, l, n - 1)
  }

  lemma NextAt(w: nat, j: nat)
    ensures At(w, j + 1, 0) == At(w, j, 0) + w && At(w, 0, 0) == 0
  {
  }

  /** Where row j of a sent picture lies. */
  lemma {:induction false} SentRowAt(rows: seq<seq<nat>>, filters: seq<nat>, l: Layout, n: nat, j: nat)
    requires ValidPicture(rows, l) && ValidFilters(filters, l) && j < n <= l.y
    ensures var b := SentRows(rows, filters, l, n); var at := At(RowBytes(l) + 1, j, 0);
      at + RowBytes(l) + 1 <= |b| && b[at..at + RowBytes(l) + 1] == SentRow(rows, filters, l, j)
  {
    hide SentRow, ValidPicture, ValidFilters, RowBytes, At;
    var w := RowBytes(l) + 1;
    NextAt(w, n - 1);
    NextAt(w, j);
    if j < n - 1 {
      SentRowAt(rows, filters, l, n - 1, j);
      SliceOfPrefix(SentRows(rows, filters, l, n - 1), SentRow(rows, filters, l, n - 1), At(w, j, 0), At(w, j, 0) + w);
    } else {
      SliceOfSuffix(SentRows(rows, filters, l, n - 1), SentRow(rows, filters, l, n - 1));
    }
  }

  lemma SliceOfPrefix(a: seq<byte>, b: seq<byte>, lo: nat, hi: nat)
    requires lo <= hi <= |a|
    ensures (a + b)[lo..hi] == a[lo..hi]
  {
  }

  lemma SliceOfSuffix(a: seq<byte>, b: seq<byte>)
    ensures (a + b)[|a|..|a| + |b|] == b
  {
  }

  /** The sent rows of a picture lie at p. */
  ghost predicate Holds(data: seq<byte>, p: nat, rows: seq<seq<nat>>, filters: seq<nat>, l: Layout)
  {
    && ValidPicture(rows, l) && ValidFilters(filters, l) && p + RawLength(l) <= |data|
    && data[p..p + RawLength(l)] == SentRows(rows, filters, l, l.y)
  }

  lemma HeldRow(data: seq<byte>, p: nat, rows: seq<seq<nat>>, filters: seq<nat>, l: Layout, j: nat)
    requires Holds(data, p, rows, filters, l) && j < l.y
    ensures ValidPicture(rows, l) && ValidFilters(filters, l) && RowInside(data, p, l, j)
    ensures var at := RowStart(l, p, j);
      data[at] == filters[j]
      && data[at + 1..at + 1 + RowBytes(l)]
         == FilterRow(filters[j], PackedRow(rows, l, j), PackedRow(rows, l, j - 1), FilterBytes(l))
  {
    hide PackedRow, FilterRow, SentRows, ValidPicture, RowBytes, At, FilterBytes;
    SentRowAt(rows, filters, l, l.y, j);
    var at, n := At(RowBytes(l) + 1, j, 0), RowBytes(l);
    var all := SentRows(rows, filters, l, l.y);
    var row := SentRow(rows, filters, l, j);
    SliceInside(data, p, RawLength(l), at, n + 1);
    assert all[at..at + n + 1] == row;
    assert data[p + at] == row[0];
    assert data[p + at + 1..p + at + 1 + n] == row[1..];
  }

  lemma SliceInside(data: seq<byte>, p: nat, n: nat, at: nat, m: nat)
    requires p + n <= |data| && at + m <= n
    ensures data[p + at..p + at + m] == data[p..p + n][at..at + m]
  {
    var l, r := data[p + at..p + at + m], data[p..p + n][at..at + m];
    forall i: nat | i < m ensures l[i] == r[i] {
      assert r[i] == data[p..p + n][at + i] == data[p + (at + i)];
    }
  }

  /** Undoing the filters gives back the packed rows, whatever filter each row was sent with. */
  lemma {:induction false} RowsUndone(data: seq<byte>, p: nat, rows: seq<seq<nat>>, filters: seq<nat>, l: Layout, j: nat)
    requires Holds(data, p, rows, filters, l) && j < l.y
    ensures ValidPicture(rows, l) && FiltersOk(data, p, l, j + 1)
    ensures DecodedRow(data, p, l, j) == PackedRow(rows, l, j)
  {
    hide PackedRow, FilterRow, SentRows, ValidPicture, RowBytes, FilterBytes, Holds, RowStart, Recon, ValidLayout, RowInside;
    HeldRow(data, p, rows, filters, l, j);
    FilterInRange(data, p, rows, filters, l, j);
    if j > 0 {
      RowsUndone(data, p, rows, filters, l, j - 1);
    }
    var above := PackedRow(rows, l, j - 1);
    RowAbove(rows, l);
    FilterUndone(filters[j], PackedRow(rows, l, j), above, FilterBytes(l), RowBytes(l));
    assert PackedRow(rows, l, j)[..RowBytes(l)] == PackedRow(rows, l, j);
  }

  lemma RowAbove(rows: seq<seq<nat>>, l: Layout)
    requires ValidPicture(rows, l)
    ensures PackedRow(rows, l, -1) == ZeroRow(RowBytes(l))
  {
  }

  lemma FilterInRange(data: seq<byte>, p: nat, rows: seq<seq<nat>>, filters: seq<nat>, l: Layout, j: nat)
    requires Holds(data, p, rows, filters, l) && j < l.y
    ensures ValidPicture(rows, l) && ValidLayout(l) && ValidFilters(filters, l) && filters[j] <= 4
  {
  }

  /** The output pixel a picture asks for. */
  function SourcePixel(rows: seq<seq<nat>>, l: Layout, j: nat, i: nat): Pixel
    requires ValidPicture(rows, l) && j < l.y && i < l.x
  {
    seq<nat>(l.imgN, (c: nat) requires c < l.imgN => ScaleOf(l.depth, l.color) * SampleOrZero(rows[j], At(l.imgN, i, c)))
    + (if l.outN == l.imgN then [] else [Opaque(l.depth)])
  }

  /** Unpacking a packed row gives the source's pixels. */
  lemma PackedPixel(rows: seq<seq<nat>>, l: Layout, j: nat, i: nat)
    requires ValidPicture(rows, l) && j < l.y && i < l.x
    ensures PixelAt(PackedRow(rows, l, j), l, i) == SourcePixel(rows, l, j, i)
  {
    hide RowBytes, Sample, PackRow, At;
    var row, s := PackedRow(rows, l, j), rows[j];
    assert ValidSamples(s, l) && row == PackRow(s, l.depth);
    Inside(row, l, i);
    forall c: nat | c < l.imgN
      ensures Sample(row, l.depth, At(l.imgN, i, c)) == SampleOrZero(s, At(l.imgN, i, c))
    {
      AtInside(l.imgN, l.x, i, c);
      SamplePacked(s, l.depth, At(l.imgN, i, c));
    }
  }

  /** Decoding an encoded picture gives its pixels. */
  lemma PixelUndone(data: seq<byte>, p: nat, rows: seq<seq<nat>>, filters: seq<nat>, l: Layout, j: nat, i: nat)
    requires Holds(data, p, rows, filters, l) && j < l.y && i < l.x
    ensures ValidPicture(rows, l) && FiltersOk(data, p, l, j + 1)
    ensures DecodedPixel(data, p, l, j, i) == SourcePixel(rows, l, j, i)
  {
    hide DecodedRow, PackedRow, Holds, ValidPicture, PixelAt, SourcePixel, FiltersOk;
    RowsUndone(data, p, rows, filters, l, j);
    PackedPixel(rows, l, j, i);
  }

  // ----- the decoder -----

  /** The rows' length in the decoder's terms. */
  lemma RowBytesAre(l: Layout)
    requires ValidLayout(l)
    ensures (if l.depth < 8 then RowBytes(l) else l.x * FilterBytes(l)) == RowBytes(l)
    ensures FilterBytes(l) <= RowBytes(l)
  {
    var n := l.x * l.imgN;
    SamplesAre(l);
    MulMono(1, l.x, l.imgN);
    if l.depth == 16 {
      assert l.x * (2 * l.imgN) == 2 * n;
    } else if l.depth == 8 {
    } else {
      MulMono(1, l.depth, n);
      assert 1 * n == n;
    }
  }

  /** The samples of a row of eight- or sixteen-bit samples. */
  method WholeSamples(row: seq<byte>, l: Layout) returns (samples: seq<nat>)
    requires ValidLayout(l) && l.depth >= 8 && FullRow(row, l)
    ensures |samples| == Samples(l)
    ensures forall i: nat :: i < |samples| ==> SampleInside(row, l.depth, i) && samples[i] == Sample(row, l.depth, i)
  {
    hide Or, Shl, At;
    samples := [];
    var n := l.x * l.imgN;
    SamplesAre(l);
    var i := 0;
    while i < n
      invariant i <= n && |samples| == i
      invariant forall t: nat :: t < i ==> SampleInside(row, l.depth, t) && samples[t] == Sample(row, l.depth, t)
    {
      InsideRow(row, l.depth, i, n);
      if l.depth == 16 {
        HighLow(row[2 * i], row[2 * i + 1]);
        samples := samples + [Or(Shl(row[2 * i], 8), row[2 * i + 1])];
      } else {
        samples := samples + [row[i]];
      }
      i := i + 1;
    }
  }

  lemma SamplesAre(l: Layout)
    ensures Samples(l) == l.x * l.imgN
  {
    AtIs(l.imgN, l.x, 0);
  }

  lemma HighLow(high: byte, low: byte)
    ensures Or(Shl(high, 8), low) == 256 * (high as int) + low
  {
    hide Or, Shl;
    Pow2Values();
    ShlIsMul(high, 8);
    OrCommutes(Shl(high, 8), low);
    OrDisjoint(low, high, 8);
  }

  /** Scaled samples of a row. */
  ghost predicate SamplesOf(samples: seq<nat>, row: seq<byte>, l: Layout)
  {
    && |samples| == Samples(l)
    && forall i: nat :: i < |samples| ==>
         SampleInside(row, l.depth, i) && samples[i] == ScaleOf(l.depth, l.color) * Sample(row, l.depth, i)
  }

  lemma PixelFromSamples(samples: seq<nat>, row: seq<byte>, l: Layout, i: nat)
    requires ValidLayout(l) && FullRow(row, l) && SamplesOf(samples, row, l) && i < l.x
    ensures At(l.imgN, i, 0) + l.imgN <= |samples|
    ensures samples[At(l.imgN, i, 0)..At(l.imgN, i, 0) + l.imgN]
            + (if l.outN == l.imgN then [] else [Opaque(l.depth)]) == PixelAt(row, l, i)
  {
    hide Sample, SampleInside, FullRow, At;
    AtInside(l.imgN, l.x, i, l.imgN - 1);
    AtShift(l.imgN, i, l.imgN - 1);
    Inside(row, l, i);
    var at := At(l.imgN, i, 0);
    var t := samples[at..at + l.imgN];
    forall c: nat | c < l.imgN ensures t[c] == PixelAt(row, l, i)[c] {
      AtShift(l.imgN, i, c);
    }
  }

  method GetSamples(row: seq<byte>, l: Layout) returns (samples: seq<nat>)
    requires ValidLayout(l) && FullRow(row, l)
    ensures SamplesOf(samples, row, l)
  {
    hide At, Sample, SampleInside;
    SamplesAre(l);
    if l.depth < 8 {
      samples := ExpandBits(row, l.depth, ScaleOf(l.depth, l.color), l.x * l.imgN);
    } else {
      samples := WholeSamples(row, l);
    }
  }

  method StorePixel(out: array<Pixel>, k: nat, px: Pixel)
    requires k < out.Length
    modifies out
    ensures out[..] == old(out[..])[k := px]
  {
    out[k] := px;
  }

  /** Unpacks a decoded row into row j of the output, with full alpha added if that is asked for. */
  method ExpandRow(row: seq<byte>, l: Layout, out: array<Pixel>, j: nat)
    requires ValidLayout(l) && FullRow(row, l) && out.Length == Area(l) && j < l.y
    modifies out
    ensures forall i: nat :: i < l.x ==> At(l.x, j, i) < out.Length && out[At(l.x, j, i)] == PixelAt(row, l, i)
    ensures forall k: nat :: k < At(l.x, j, 0) && k < out.Length ==> out[k] == old(out[k])
  {
    hide At, SamplesOf, PixelAt, FullRow, Opaque;
    var samples := GetSamples(row, l);
    RowPlaces(l.x, j);
    var i := 0;
    while i < l.x
      invariant i <= l.x
      invariant forall t: nat :: t < i ==> At(l.x, j, t) < out.Length && out[At(l.x, j, t)] == PixelAt(row, l, t)
      invariant forall k: nat :: k < At(l.x, j, 0) && k < out.Length ==> out[k] == old(out[k])
    {
      AtInside(l.x, l.y, j, i);
      PixelFromSamples(samples, row, l, i);
      AtIs(l.imgN, i, 0);
      var at := i * l.imgN;
      var px := samples[at..at + l.imgN] + (if l.outN == l.imgN then [] else [Opaque(l.depth)]);
      out[At(l.x, j, i)] := px;
      i := i + 1;
    }
  }

  /** The first n rows of the output are there. */
  ghost predicate RowsDone(out: seq<Pixel>, data: seq<byte>, p: nat, l: Layout, n: nat)
    requires ValidLayout(l) && FiltersOk(data, p, l, n) && n <= l.y
  {
    && |out| == Area(l)
    && forall j: nat, i: nat {:trigger At(l.x, j, i)} :: j < n && i < l.x ==>
         At(l.x, j, i) < |out| && out[At(l.x, j, i)] == DecodedPixel(data, p, l, j, i)
  }

  lemma RowPlaces(w: nat, line: nat)
    ensures forall t: nat :: At(w, line, t) == At(w, line, 0) + t
  {
    forall t: nat ensures At(w, line, t) == At(w, line, 0) + t {
      AtShift(w, line, t);
    }
  }

  lemma OneRowMore(before: seq<Pixel>, out: seq<Pixel>, data: seq<byte>, p: nat, l: Layout, n: nat)
    requires ValidLayout(l) && n < l.y && FiltersOk(data, p, l, n + 1) && FiltersOk(data, p, l, n)
    requires RowsDone(before, data, p, l, n) && |out| == |before|
    requires forall k: nat :: k < At(l.x, n, 0) && k < |out| ==> out[k] == before[k]
    requires forall i: nat :: i < l.x ==>
      At(l.x, n, i) < |out| && out[At(l.x, n, i)] == PixelAt(DecodedRow(data, p, l, n), l, i)
    ensures RowsDone(out, data, p, l, n + 1)
  {
    hide At, DecodedRow, PixelAt, ValidLayout, RowOk;
    forall j: nat, i: nat {:trigger At(l.x, j, i)} | j < n + 1 && i < l.x
      ensures At(l.x, j, i) < |out| && out[At(l.x, j, i)] == DecodedPixel(data, p, l, j, i)
    {
      if j < n {
        AtInside(l.x, n, j, i);
      }
    }
  }

  /** The two halves of the filter buffer take turns. */
  lemma Halves(j: nat, nk: nat)
    ensures j % 2 * nk + nk <= 2 * nk && (j + 1) % 2 * nk + nk <= 2 * nk
    ensures j % 2 * nk + nk <= (j + 1) % 2 * nk || (j + 1) % 2 * nk + nk <= j % 2 * nk
    ensures (j + 1 + 1) % 2 * nk == j % 2 * nk
  {
    if j % 2 == 0 {
      assert (j + 1) % 2 == 1 && (j + 2) % 2 == 0;
    } else {
      assert (j + 1) % 2 == 0 && (j + 2) % 2 == 1;
    }
  }

  lemma NextRowStart(l: Layout, p: nat, j: nat)
    ensures RowStart(l, p, j + 1) == RowStart(l, p, j) + 1 + RowBytes(l)
    ensures RowStart(l, p, 0) == p && (j < l.y ==> RowStart(l, p, j + 1) <= p + RawLength(l))
  {
    hide RowBytes;
    var w := RowBytes(l) + 1;
    NextAt(w, j);
    if j < l.y {
      MulMono(j + 1, l.y, w);
      AtIs(w, j + 1, 0);
      AtIs(w, l.y, 0);
    }
  }

  lemma OneFilterMore(data: seq<byte>, p: nat, l: Layout, j: nat)
    requires FiltersOk(data, p, l, j) && RowInside(data, p, l, j)
    ensures FiltersOk(data, p, l, j + 1) <==> data[RowStart(l, p, j)] <= 4
    ensures j < l.y && data[RowStart(l, p, j)] > 4 ==> !FiltersOk(data, p, l, l.y)
  {
    hide RowBytes, At;
    if data[RowStart(l, p, j)] > 4 {
      assert !RowOk(data, p, l, j);
    }
  }

  /** One row: the filter is undone in one half of the buffer, from the row above in the other half. */
  method DecodeRow(data: seq<byte>, p: nat, l: Layout, j: nat, buf: array<byte>, out: array<Pixel>, pos: nat, nk: nat)
    requires ValidLayout(l) && j < l.y && FiltersOk(data, p, l, j) && FiltersOk(data, p, l, j + 1)
    requires pos == RowStart(l, p, j) && nk == RowBytes(l) && buf.Length == 2 * nk
    requires RowsDone(out[..], data, p, l, j)
    requires TwoRows(buf, j % 2 * nk, (j + 1) % 2 * nk, nk)
    requires j > 0 ==> RowAt(buf, (j + 1) % 2 * nk, nk) == DecodedRow(data, p, l, j - 1)
    modifies buf, out
    ensures RowsDone(out[..], data, p, l, j + 1)
    ensures RowAt(buf, j % 2 * nk, nk) == DecodedRow(data, p, l, j)
  {
    hide At, PixelAt, Recon, RowsDone, DecodedRow, PackedLength, Samples, FilterBytes, FiltersOk, RowStart, TwoRows,
      ZeroRow, Area, RowAt;
    RowBytesAre(l);
    DecodedRowIs(data, p, l, j);
    ghost var before := out[..];
    RowsDoneLength(before, data, p, l, j);
    var cur, prior := j % 2 * nk, (j + 1) % 2 * nk;
    UnfilterRow(buf, cur, prior, nk, data, pos + 1, FilterBytes(l), data[pos], j == 0);
    var row := GetRow(buf, cur, nk);
    ExpandRow(row, l, out, j);
    OneRowMore(before, out[..], data, p, l, j);
  }

  method GetRow(buf: array<byte>, cur: nat, nk: nat) returns (row: seq<byte>)
    requires cur + nk <= buf.Length
    ensures row == RowAt(buf, cur, nk)
  {
    row := buf[cur..cur + nk];
  }

  lemma DecodedRowIs(data: seq<byte>, p: nat, l: Layout, j: nat)
    requires ValidLayout(l) && FiltersOk(data, p, l, j + 1) && FiltersOk(data, p, l, j)
    ensures var at := RowStart(l, p, j); var n := RowBytes(l);
      at + 1 + n <= |data| && data[at] <= 4
      && DecodedRow(data, p, l, j)
         == Recon(data[at], data[at + 1..at + 1 + n], if j == 0 then ZeroRow(n) else DecodedRow(data, p, l, j - 1),
                  FilterBytes(l), n)
  {
    assert RowOk(data, p, l, j);
  }

  lemma RowsDoneLength(out: seq<Pixel>, data: seq<byte>, p: nat, l: Layout, n: nat)
    requires ValidLayout(l) && FiltersOk(data, p, l, n) && n <= l.y && RowsDone(out, data, p, l, n)
    ensures |out| == Area(l)
  {
  }

  lemma NoRowsDone(out: seq<Pixel>, data: seq<byte>, p: nat, l: Layout)
    requires ValidLayout(l) && |out| == Area(l)
    ensures FiltersOk(data, p, l, 0) && RowsDone(out, data, p, l, 0)
  {
  }

  /** Decodes all rows. */
  method CreatePngImageRaw(data: seq<byte>, p: nat, l: Layout) returns (ok: bool, out: array<Pixel>)
    requires ValidLayout(l) && p <= |data|
    ensures fresh(out) && ok == Decodable(data, p, l)
    ensures ok ==> RowsDone(out[..], data, p, l, l.y)
  {
    hide At, RowsDone, DecodedRow, PixelAt, RowBytes, RowStart, SizesOk, FilterBytes, FiltersOk, ValidLayout;
    out := new Pixel[0];
    ok := false;
    if !SizesOk(l) {
      return;
    }
    AreaIs(l);
    out := new Pixel[l.x * l.y];
    if |data| - p < RawLength(l) {
      return;
    }
    RowBytesAre(l);
    var nk := RowBytes(l);
    var filter_buf := new byte[2 * nk];
    NoRowsDone(out[..], data, p, l);
    NextRowStart(l, p, 0);
    var pos := p;
    var j := 0;
    while j < l.y
      invariant j <= l.y && pos == RowStart(l, p, j) && FiltersOk(data, p, l, j) && RowsDone(out[..], data, p, l, j)
      invariant j > 0 ==> (j + 1) % 2 * nk + nk <= 2 * nk && RowAt(filter_buf, (j + 1) % 2 * nk, nk) == DecodedRow(data, p, l, j - 1)
    {
      Halves(j, nk);
      NextRowStart(l, p, j);
      OneFilterMore(data, p, l, j);
      if data[pos] > 4 {
        return;
      }
      DecodeRow(data, p, l, j, filter_buf, out, pos, nk);
      pos := pos + 1 + nk;
      j := j + 1;
    }
    ok := true;
  }

  lemma AreaIs(l: Layout)
    ensures Area(l) == l.x * l.y
  {
    AtIs(l.x, l.y, 0);
  }
}
