/** The alpha channel that the PNG decoder adds byte by byte, possibly in place. */
module PngAlpha {
  import opened Bits

  const OPAQUE: byte := 255

  /** Where pixel i starts among pixels of n bytes. */
  function Start(n: nat, i: nat): nat
    requires 1 <= n <= 4
  {
    if n == 1 then i else if n == 2 then 2 * i else if n == 3 then 3 * i else 4 * i
  }

  function PixelOf(bytes: seq<byte>, n: nat, i: nat): seq<byte>
    requires 1 <= n <= 4 && Start(n, i) + n <= |bytes|
  {
    bytes[Start(n, i)..Start(n, i) + n]
  }

  /** Pixel i of dest is pixel i of src and an opaque alpha byte. */
  ghost predicate PixelExpanded(dest: seq<byte>, src: seq<byte>, n: nat, i: nat)
    requires n == 1 || n == 3
  {
    && Start(n, i) + n <= |src| && Start(n + 1, i) + n + 1 <= |dest|
    && PixelOf(dest, n + 1, i) == PixelOf(src, n, i) + [OPAQUE]
  }

  /** The pixels from number k on are expanded, and everything else is as it was. */
  ghost predicate Expanded(dest: seq<byte>, before: seq<byte>, src: seq<byte>, n: nat, k: nat, x: nat)
    requires n == 1 || n == 3
  {
    && (forall i :: k <= i < x ==> PixelExpanded(dest, src, n, i))
    && |dest| == |before| && (forall q :: 0 <= q < |dest| && !(Start(n + 1, k) <= q < Start(n + 1, x)) ==> dest[q] == before[q])
  }

  /** One pixel more, from the back. */
  lemma OnePixel(dest: seq<byte>, dest': seq<byte>, before: seq<byte>, src: seq<byte>, n: nat, k: nat, x: nat)
    requires (n == 1 || n == 3) && k < x && Expanded(dest, before, src, n, k + 1, x)
    requires Start(n, x) <= |src| && Start(n + 1, x) <= |dest| == |dest'|
    requires dest'[Start(n + 1, k)..Start(n + 1, k) + n + 1] == src[Start(n, k)..Start(n, k) + n] + [OPAQUE]
    requires forall q :: 0 <= q < |dest| && !(Start(n + 1, k) <= q < Start(n + 1, k) + n + 1) ==> dest'[q] == dest[q]
    ensures Expanded(dest', before, src, n, k, x)
  {
    hide Start;
    StartApart(n, k, k + 1);
    StartApart(n + 1, k, k + 1);
    forall i | k <= i < x ensures PixelExpanded(dest', src, n, i) {
      if i > k {
        StartApart(n + 1, k, i);
        assert PixelExpanded(dest, src, n, i);
        assert PixelOf(dest', n + 1, i) == PixelOf(dest, n + 1, i);
      } else {
        StartApart(n, k, x);
        StartApart(n + 1, k, x);
      }
    }
    StartApart(n + 1, k, x);
    StartNext(n + 1, k);
  }

  lemma NothingYet(dest: seq<byte>, src: seq<byte>, n: nat, x: nat)
    requires n == 1 || n == 3
    ensures Expanded(dest, dest, src, n, x, x)
  {
  }

  lemma StartApart(n: nat, k: nat, i: nat)
    requires 1 <= n <= 4 && k < i
    ensures Start(n, i) >= Start(n, k) + n
  {
  }

  lemma StartNext(n: nat, k: nat)
    requires 1 <= n <= 4
    ensures Start(n, k + 1) == Start(n, k) + n
  {
  }

  /** Gray pixels, from the last one to the first; dest may be src. */
  method ExpandGray(dest: array<byte>, src: array<byte>, x: nat)
    requires x <= src.Length && 2 * x <= dest.Length
    modifies dest
    ensures Expanded(dest[..], old(dest[..]), old(src[..]), 1, 0, x)
  {
    hide Expanded;
    ghost var before, samples := dest[..], src[..];
    NothingYet(before, samples, 1, x);
    var i: nat := x;
    while i > 0
      invariant i <= x && src[..i] == samples[..i]
      invariant Expanded(dest[..], before, samples, 1, i, x)
    {
      ghost var d := dest[..];
      i := i - 1;
      assert src[i] == samples[i];
      dest[i * 2 + 1] := OPAQUE;
      dest[i * 2] := src[i];
      OnePixel(d, dest[..], before, samples, 1, i, x);
    }
  }

  /** The four stores of a pixel, each of them behind all bytes that are still to be read. */
  method StoreColor(dest: array<byte>, src: array<byte>, i: nat)
    requires 3 * i + 3 <= src.Length && 4 * i + 4 <= dest.Length
    modifies dest
    ensures dest[4 * i] == old(src[3 * i]) && dest[4 * i + 1] == old(src[3 * i + 1])
    ensures dest[4 * i + 2] == old(src[3 * i + 2]) && dest[4 * i + 3] == OPAQUE
    ensures forall q :: 0 <= q < dest.Length && !(4 * i <= q < 4 * i + 4) ==> dest[q] == old(dest[q])
  {
    dest[i * 4 + 3] := OPAQUE;
    dest[i * 4 + 2] := src[i * 3 + 2];
    dest[i * 4 + 1] := src[i * 3 + 1];
    dest[i * 4] := src[i * 3];
  }

  method ColorPixel(dest: array<byte>, src: array<byte>, i: nat, ghost samples: seq<byte>)
    requires 3 * i + 3 <= src.Length == |samples| && 4 * i + 4 <= dest.Length
    requires src[..3 * i + 3] == samples[..3 * i + 3]
    modifies dest
    ensures dest[4 * i..4 * i + 4] == samples[3 * i..3 * i + 3] + [OPAQUE] && src[..3 * i] == samples[..3 * i]
    ensures forall q :: 0 <= q < dest.Length && !(4 * i <= q < 4 * i + 4) ==> dest[q] == old(dest[q])
  {
    ghost var t := samples[..3 * i + 3];
    assert t[3 * i] == samples[3 * i] && t[3 * i + 1] == samples[3 * i + 1] && t[3 * i + 2] == samples[3 * i + 2];
    assert samples[..3 * i] == t[..3 * i];
    assert src[..3 * i] == src[..3 * i + 3][..3 * i];
    StoreColor(dest, src, i);
  }

  /** Pixels of three bytes, from the last one to the first; dest may be src. */
  method ExpandColor(dest: array<byte>, src: array<byte>, x: nat)
    requires 3 * x <= src.Length && 4 * x <= dest.Length
    modifies dest
    ensures Expanded(dest[..], old(dest[..]), old(src[..]), 3, 0, x)
  {
    hide Expanded;
    ghost var before, samples := dest[..], src[..];
    NothingYet(before, samples, 3, x);
    var i: nat := x;
    while i > 0
      invariant i <= x && src[..3 * i] == samples[..3 * i]
      invariant Expanded(dest[..], before, samples, 3, i, x)
    {
      ghost var d := dest[..];
      i := i - 1;
      ColorPixel(dest, src, i, samples);
      OnePixel(d, dest[..], before, samples, 3, i, x);
    }
  }

  /** Adds an opaque alpha byte behind every pixel. The loops run backwards, so that dest may be the array that holds the
      pixels: no byte is overwritten before it is read. */
  method AlphaExpand8(dest: array<byte>, src: array<byte>, x: nat, img_n: nat)
    requires img_n == 1 || img_n == 3
    requires Start(img_n, x) <= src.Length && Start(img_n + 1, x) <= dest.Length
    modifies dest
    ensures Expanded(dest[..], old(dest[..]), old(src[..]), img_n, 0, x)
  {
    if img_n == 1 {
      ExpandGray(dest, src, x);
    } else {
      ExpandColor(dest, src, x);
    }
  }
}
