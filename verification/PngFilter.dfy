/** PNG scanline filters (section 6 of RFC 2083): what they mean, an encoder, and the decoder that
    works in a buffer of two alternating rows. */
module PngFilter {
  import opened Bits

  // ----- the Paeth predictor -----

  function Abs(v: int): nat
  {
    if v < 0 then -v else v
  }

  /** The predictor of section 6.6: whichever of left, above and upper left is nearest to a + b - c. */
  function Paeth(a: int, b: int, c: int): int
  {
    var p := a + b - c;
    if Abs(p - a) <= Abs(p - b) && Abs(p - a) <= Abs(p - c) then a
    else if Abs(p - b) <= Abs(p - c) then b
    else c
  }

  /** The form the decoder uses: no distances, only a threshold. */
  function ThresholdPaeth(a: int, b: int, c: int): int
  {
    var thresh := c * 3 - (a + b);
    var lo := if a < b then a else b;
    var hi := if a < b then b else a;
    var t0 := if hi <= thresh then lo else c;
    if thresh <= lo then hi else t0
  }

  /** Both forms agree on all integers. */
  lemma PaethSame(a: int, b: int, c: int)
    ensures ThresholdPaeth(a, b, c) == Paeth(a, b, c)
  {
  }

  // ----- meaning -----

  /** Byte k - bpp of a row, zero to the left of the row. */
  function LeftOf(row: seq<byte>, k: nat, bpp: nat): byte
    requires k <= |row|
  {
    if 0 < bpp <= k then row[k - bpp] else 0
  }

  /** What a filter predicts from the left, upper and upper left byte. */
  function Predict(filter: nat, a: byte, b: byte, c: byte): nat
    requires filter <= 4
  {
    if filter == 0 then 0
    else if filter == 1 then a
    else if filter == 2 then b
    else if filter == 3 then (a + b) / 2
    else Paeth(a, b, c)
  }

  /** The first n bytes of a row, from the filtered bytes and the row above. */
  function Recon(filter: nat, raw: seq<byte>, prior: seq<byte>, bpp: nat, n: nat): (r: seq<byte>)
    requires filter <= 4 && |raw| == |prior| && n <= |raw|
    ensures |r| == n
  {
    if n == 0 then []
    else
      var r := Recon(filter, raw, prior, bpp, n - 1);
      r + [ReconByte(filter, raw, prior, bpp, r)]
  }

  /** The byte that comes behind the ones already there. */
  function ReconByte(filter: nat, raw: seq<byte>, prior: seq<byte>, bpp: nat, r: seq<byte>): byte
    requires filter <= 4 && |raw| == |prior| && |r| < |raw|
  {
    var n := |r|;
    U8(raw[n] + Predict(filter, LeftOf(r, n, bpp), prior[n], LeftOf(prior, n, bpp)))
  }

  function ZeroRow(n: nat): (r: seq<byte>)
    ensures |r| == n && forall k :: 0 <= k < n ==> r[k] == 0
  {
    seq<byte>(n, (k: nat) => 0)
  }

  // ----- an encoder -----

  function FilteredByte(filter: nat, row: seq<byte>, prior: seq<byte>, bpp: nat, k: nat): byte
    requires filter <= 4 && |row| == |prior| && k < |row|
  {
    (row[k] as int - Predict(filter, LeftOf(row, k, bpp), prior[k], LeftOf(prior, k, bpp))) % 256
  }

  function FilterRow(filter: nat, row: seq<byte>, prior: seq<byte>, bpp: nat): (raw: seq<byte>)
    requires filter <= 4 && |row| == |prior|
    ensures |raw| == |row|
  {
    seq<byte>(|row|, (k: nat) requires k < |row| => FilteredByte(filter, row, prior, bpp, k))
  }

  lemma AddBack(v: byte, p: nat, d: byte)
    requires d == (v as int - p) % 256
    ensures U8(d + p) == v
  {
  }

  /** Reconstruction undoes filtering. */
  lemma {:induction false} FilterUndone(filter: nat, row: seq<byte>, prior: seq<byte>, bpp: nat, n: nat)
    requires filter <= 4 && |row| == |prior| && n <= |row|
    ensures Recon(filter, FilterRow(filter, row, prior, bpp), prior, bpp, n) == row[..n]
  {
    hide Predict, U8;
    if n > 0 {
      var raw := FilterRow(filter, row, prior, bpp);
      FilterUndone(filter, row, prior, bpp, n - 1);
      assert raw[n - 1] == FilteredByte(filter, row, prior, bpp, n - 1);
      AddBack(row[n - 1], Predict(filter, LeftOf(row, n - 1, bpp), prior[n - 1], LeftOf(prior, n - 1, bpp)), raw[n - 1]);
    }
  }

  // ----- the decoder -----

  /** The filters the decoder runs: the five of the format, and one for an average in the first row. */
  const AVG_FIRST: nat := 5

  /** The filter used instead in the first row, where everything above is zero. */
  function FirstRowFilter(filter: nat): nat
    requires filter <= 4
  {
    if filter == 2 then 0 else if filter == 3 then AVG_FIRST else if filter == 4 then 1 else filter
  }

  /** What the decoder's filters add. */
  function Added(filter: nat, a: byte, b: byte, c: byte): nat
    requires filter <= 5
  {
    if filter == AVG_FIRST then a / 2 else Predict(filter, a, b, c)
  }

  /** The substituted filters predict the same from a row of zeros. */
  lemma FirstRowSame(filter: nat, a: byte)
    requires filter <= 4
    ensures Added(FirstRowFilter(filter), a, 0, 0) == Predict(filter, a, 0, 0)
  {
  }

  lemma LeftEdge(b: byte)
    ensures Predict(4, 0, b, 0) == b
  {
  }

  /** A row of the buffer. */
  ghost function RowAt(buf: array<byte>, at: nat, n: nat): (r: seq<byte>)
    requires at + n <= buf.Length
    reads buf
    ensures |r| == n
  {
    buf[at..at + n]
  }

  /** Two rows of nk bytes in one buffer, not overlapping. */
  predicate TwoRows(buf: array<byte>, cur: nat, prior: nat, nk: nat)
  {
    cur + nk <= buf.Length && prior + nk <= buf.Length && (cur + nk <= prior || prior + nk <= cur)
  }

  /** The row the current one is predicted from. */
  ghost function Above(first: bool, prior: seq<byte>): (r: seq<byte>)
    ensures |r| == |prior|
  {
    if first then ZeroRow(|prior|) else prior
  }

  method Store(buf: array<byte>, cur: nat, prior: nat, nk: nat, k: nat, v: byte)
    requires TwoRows(buf, cur, prior, nk) && k < nk
    modifies buf
    ensures RowAt(buf, cur, k + 1) == old(RowAt(buf, cur, k)) + [v]
    ensures RowAt(buf, prior, nk) == old(RowAt(buf, prior, nk))
  {
    buf[cur + k] := v;
  }

  /** The byte to the left, above and to the upper left of position k. */
  lemma Neighbours(buf: array<byte>, cur: nat, prior: nat, nk: nat, k: nat, bpp: nat)
    requires TwoRows(buf, cur, prior, nk) && k < nk && bpp > 0
    ensures RowAt(buf, prior, nk)[k] == buf[prior + k]
    ensures LeftOf(RowAt(buf, cur, k), k, bpp) == if k < bpp then 0 else buf[cur + k - bpp]
    ensures LeftOf(RowAt(buf, prior, nk), k, bpp) == if k < bpp then 0 else buf[prior + k - bpp]
  {
  }

  /** What one step of any of the decoder's filters must store. */
  lemma NextByte(filter: nat, raw: seq<byte>, prior: seq<byte>, bpp: nat, first: bool, r: seq<byte>)
    requires filter <= 4 && |raw| == |prior| && |r| < |raw|
    ensures var n := |r|;
      ReconByte(filter, raw, Above(first, prior), bpp, r)
      == if first then U8(raw[n] + Added(FirstRowFilter(filter), LeftOf(r, n, bpp), 0, 0))
         else U8(raw[n] + Predict(filter, LeftOf(r, n, bpp), prior[n], LeftOf(prior, n, bpp)))
  {
    hide Predict, U8, Added;
    FirstRowSame(filter, LeftOf(r, |r|, bpp));
  }

  /** memcpy of the first n bytes. */
  method CopyRaw(buf: array<byte>, cur: nat, prior: nat, nk: nat, data: seq<byte>, p: nat, n: nat)
    requires TwoRows(buf, cur, prior, nk) && p + nk <= |data| && n <= nk
    modifies buf
    ensures RowAt(buf, cur, n) == data[p..p + n] && RowAt(buf, prior, nk) == old(RowAt(buf, prior, nk))
  {
    forall k | 0 <= k < n {
      buf[cur + k] := data[p + k];
    }
  }

  /** A copied start of a row: right where the prediction is zero. */
  lemma {:induction false} CopyIsRecon(filter: nat, raw: seq<byte>, prior: seq<byte>, bpp: nat, n: nat)
    requires filter <= 4 && |raw| == |prior| && n <= |raw|
    requires filter == 0 || (n <= bpp && filter == 1)
      || ((n <= bpp || filter == 2) && forall k :: 0 <= k < |prior| ==> prior[k] == 0)
    ensures Recon(filter, raw, prior, bpp, n) == raw[..n]
  {
    if n > 0 {
      CopyIsRecon(filter, raw, prior, bpp, n - 1);
      SmallByte(raw[n - 1]);
    }
  }

  lemma SmallByte(v: byte)
    ensures U8(v) == v
  {
  }

  /** The byte at k for one of the decoder's filters, behind the part that is copied. */
  method FilterStep(buf: array<byte>, cur: nat, prior: nat, nk: nat, data: seq<byte>, p: nat, bpp: nat, k: nat,
                    filter: nat) returns (v: byte)
    requires TwoRows(buf, cur, prior, nk) && p + nk <= |data| && k < nk && bpp > 0 && 1 <= filter <= 5
    ensures v == U8(data[p + k] + Added(filter, LeftOf(RowAt(buf, cur, k), k, bpp), RowAt(buf, prior, nk)[k],
                                        LeftOf(RowAt(buf, prior, nk), k, bpp)))
  {
    hide U8, RowAt, LeftOf, Paeth, ThresholdPaeth;
    Neighbours(buf, cur, prior, nk, k, bpp);
    if filter == 1 {
      v := if k < bpp then data[p + k] else U8(data[p + k] as int + buf[cur + k - bpp]);
      SmallByte(data[p + k]);
    } else if filter == 2 {
      v := U8(data[p + k] as int + buf[prior + k]);
    } else if filter == 3 {
      v := if k < bpp then U8(data[p + k] as int + buf[prior + k] / 2)
      else U8(data[p + k] as int + (buf[prior + k] as int + buf[cur + k - bpp]) / 2);
    } else if filter == 4 {
      if k < bpp {
        LeftEdge(buf[prior + k]);
        v := U8(data[p + k] as int + buf[prior + k]);
      } else {
        PaethByte(buf[cur + k - bpp], buf[prior + k], buf[prior + k - bpp]);
        PaethSame(buf[cur + k - bpp], buf[prior + k], buf[prior + k - bpp]);
        v := U8(data[p + k] as int + ThresholdPaeth(buf[cur + k - bpp], buf[prior + k], buf[prior + k - bpp]));
      }
    } else {
      v := if k < bpp then data[p + k] else U8(data[p + k] as int + buf[cur + k - bpp] / 2);
      SmallByte(data[p + k]);
    }
  }

  lemma PaethByte(a: byte, b: byte, c: byte)
    ensures 0 <= Paeth(a, b, c) < 256
  {
  }

  /** The bytes a filter copies or computes without a left neighbour, then the others. */
  method UnfilterRow(buf: array<byte>, cur: nat, prior: nat, nk: nat, data: seq<byte>, p: nat, bpp: nat,
                     filterType: nat, first: bool)
    requires TwoRows(buf, cur, prior, nk) && p + nk <= |data| && 0 < bpp <= nk && filterType <= 4
    modifies buf
    ensures RowAt(buf, cur, nk)
         == Recon(filterType, data[p..p + nk], Above(first, old(RowAt(buf, prior, nk))), bpp, nk)
    ensures RowAt(buf, prior, nk) == old(RowAt(buf, prior, nk))
  {
    hide RowAt, Recon, ReconByte, Added, LeftOf, U8, Predict;
    ghost var raw, was := data[p..p + nk], RowAt(buf, prior, nk);
    ghost var above := Above(first, was);
    var filter := if first then FirstRowFilter(filterType) else filterType;
    if filter == 0 {
      CopyRaw(buf, cur, prior, nk, data, p, nk);
      CopyStart(filterType, raw, was, bpp, first, nk);
      return;
    }
    var k := 0;
    if filter == 1 || filter == AVG_FIRST {
      CopyRaw(buf, cur, prior, nk, data, p, bpp);
      CopyStart(filterType, raw, was, bpp, first, bpp);
      assert data[p..p + bpp] == raw[..bpp];
      k := bpp;
    } else {
      EmptyStart(buf, cur, filterType, raw, above, bpp);
    }
    while k < nk
      invariant k <= nk && RowAt(buf, cur, k) == Recon(filterType, raw, above, bpp, k)
      invariant RowAt(buf, prior, nk) == was
    {
      var v := FilterStep(buf, cur, prior, nk, data, p, bpp, k, filter);
      NextByte(filterType, raw, was, bpp, first, RowAt(buf, cur, k));
      AddedInRow(filterType, first, LeftOf(RowAt(buf, cur, k), k, bpp), was[k], LeftOf(was, k, bpp));
      OneMore(filterType, raw, above, bpp, k);
      Store(buf, cur, prior, nk, k, v);
      k := k + 1;
    }
  }

  /** The substituted filters never look at the row above. */
  lemma AddedInRow(filter: nat, first: bool, a: byte, b: byte, c: byte)
    requires filter <= 4 && (first ==> FirstRowFilter(filter) != 0)
    ensures !first ==> Added(filter, a, b, c) == Predict(filter, a, b, c)
    ensures first ==> Added(FirstRowFilter(filter), a, b, c) == Added(FirstRowFilter(filter), a, 0, 0)
  {
  }

  lemma EmptyStart(buf: array<byte>, cur: nat, filter: nat, raw: seq<byte>, above: seq<byte>, bpp: nat)
    requires cur <= buf.Length && filter <= 4 && |raw| == |above|
    ensures RowAt(buf, cur, 0) == Recon(filter, raw, above, bpp, 0)
  {
  }

  lemma OneMore(filter: nat, raw: seq<byte>, above: seq<byte>, bpp: nat, k: nat)
    requires filter <= 4 && |raw| == |above| && k < |raw|
    ensures var r := Recon(filter, raw, above, bpp, k);
      Recon(filter, raw, above, bpp, k + 1) == r + [ReconByte(filter, raw, above, bpp, r)]
  {
  }

  /** Where the decoder copies, copying is right. */
  lemma CopyStart(filter: nat, raw: seq<byte>, prior: seq<byte>, bpp: nat, first: bool, n: nat)
    requires filter <= 4 && |raw| == |prior| && n <= |raw|
    requires var f := if first then FirstRowFilter(filter) else filter;
      f == 0 || (n <= bpp && (f == 1 || f == AVG_FIRST))
    ensures Recon(filter, raw, Above(first, prior), bpp, n) == raw[..n]
  {
    CopyIsRecon(filter, raw, Above(first, prior), bpp, n);
  }
}
