/** Interlaced PNG images (section 2.6 of RFC 2083): seven passes, the decoder that puts them together,
    and the proof that decoding undoes interlacing, filtering and packing. */
module Adam7 {
  import opened Bits
  import opened Grid
  import opened PngSamples
  import opened PngImage

  const X_ORIGIN: seq<nat> := [0, 4, 0, 2, 0, 1, 0]
  const Y_ORIGIN: seq<nat> := [0, 0, 4, 0, 2, 0, 1]
  const X_SPACE: seq<nat> := [8, 8, 4, 4, 2, 2, 1]
  const Y_SPACE: seq<nat> := [8, 8, 8, 4, 4, 2, 2]

  function XOrigin(p: nat): (o: nat)
    requires p < 7
    ensures o <= 4 && o < XSpace(p)
  {
    X_ORIGIN[p]
  }

  function YOrigin(p: nat): (o: nat)
    requires p < 7
    ensures o <= 4 && o < YSpace(p)
  {
    Y_ORIGIN[p]
  }

  function XSpace(p: nat): (s: nat)
    requires p < 7
    ensures IsSpacing(s)
  {
    X_SPACE[p]
  }

  predicate IsSpacing(s: nat)
  {
    s == 1 || s == 2 || s == 4 || s == 8
  }

  function YSpace(p: nat): (s: nat)
    requires p < 7
    ensures IsSpacing(s)
  {
    Y_SPACE[p]
  }

  /** Number of positions below n that are `origin` plus a multiple of `space`. */
  function Count(n: nat, origin: nat, space: nat): nat
    requires n >= 1 && origin < space && IsSpacing(space)
  {
    Quotient(n - origin + space - 1, space)
  }

  /** Division by a spacing. The cases keep the arithmetic linear. */
  function Quotient(v: nat, space: nat): nat
    requires IsSpacing(space)
  {
    if space == 8 then v / 8 else if space == 4 then v / 4 else if space == 2 then v / 2 else v
  }

  /** Multiplication by a spacing. */
  function Spaced(i: nat, space: nat): nat
    requires IsSpacing(space)
  {
    if space == 8 then 8 * i else if space == 4 then 4 * i else if space == 2 then 2 * i else i
  }

  /** The pass's part of a picture. */
  function PassLayout(l: Layout, p: nat): Layout
    requires p < 7 && l.x >= 1 && l.y >= 1
  {
    l.(x := Count(l.x, XOrigin(p), XSpace(p)), y := Count(l.y, YOrigin(p), YSpace(p)))
  }

  predicate HasPixels(l: Layout)
  {
    l.x > 0 && l.y > 0
  }

  function OutX(p: nat, i: nat): nat
    requires p < 7
  {
    Spaced(i, XSpace(p)) + XOrigin(p)
  }

  function OutY(p: nat, j: nat): nat
    requires p < 7
  {
    Spaced(j, YSpace(p)) + YOrigin(p)
  }

  /** The pass that holds a pixel. */
  function PassOf(x: nat, y: nat): (p: nat)
    ensures p < 7
  {
    if y % 2 == 1 then 6
    else if x % 2 == 1 then 5
    else if y % 4 == 2 then 4
    else if x % 4 == 2 then 3
    else if y % 8 == 4 then 2
    else if x % 8 == 4 then 1
    else 0
  }

  function PassCol(p: nat, x: nat): nat
    requires p < 7
  {
    Quotient(x, XSpace(p))
  }

  function PassLine(p: nat, y: nat): nat
    requires p < 7
  {
    Quotient(y, YSpace(p))
  }

  /** Residues of a position of the form i * space + origin. */
  lemma PlaceResidue(i: nat, space: nat, origin: nat)
    requires origin < space && IsSpacing(space)
    ensures Quotient(Spaced(i, space) + origin, space) == i && (Spaced(i, space) + origin) % space == origin
  {
    DivUnique(Spaced(i, space) + origin, space, i, origin);
  }

  /** Every pixel position of a pass belongs to that pass and to no other. */
  lemma PassHolds(p: nat, i: nat, j: nat)
    requires p < 7
    ensures PassOf(OutX(p, i), OutY(p, j)) == p
    ensures PassCol(p, OutX(p, i)) == i && PassLine(p, OutY(p, j)) == j
  {
    hide PassOf, Quotient, Spaced;
    PlaceResidue(i, XSpace(p), XOrigin(p));
    PlaceResidue(j, YSpace(p), YOrigin(p));
    ResiduesDecide(p, OutX(p, i), OutY(p, j));
  }

  lemma ResiduesDecide(p: nat, x: nat, y: nat)
    requires p < 7 && x % XSpace(p) == XOrigin(p) && y % YSpace(p) == YOrigin(p)
    ensures PassOf(x, y) == p
  {
    ModChain(x);
    ModChain(y);
  }

  /** Every pixel has a place in its pass. */
  lemma PixelHasPlace(x: nat, y: nat)
    ensures var p := PassOf(x, y); OutX(p, PassCol(p, x)) == x && OutY(p, PassLine(p, y)) == y
  {
    PassResidues(x, y);
    hide PassOf, XSpace, YSpace, XOrigin, YOrigin;
    var p := PassOf(x, y);
    PlaceBack(x, XSpace(p), XOrigin(p));
    PlaceBack(y, YSpace(p), YOrigin(p));
  }

  lemma PlaceBack(v: nat, space: nat, origin: nat)
    requires IsSpacing(space) && v % space == origin
    ensures Spaced(Quotient(v, space), space) + origin == v
  {
  }

  lemma PassResidues(x: nat, y: nat)
    ensures var p := PassOf(x, y); x % XSpace(p) == XOrigin(p) && y % YSpace(p) == YOrigin(p)
  {
    ModChain(x);
    ModChain(y);
  }

  lemma CountTest(n: nat, origin: nat, space: nat, i: nat)
    requires n >= 1 && origin < space && IsSpacing(space)
    ensures i < Count(n, origin, space) <==> Spaced(i, space) + origin < n
  {
  }

  /** A place in a pass is a place in the picture, and the other way round. */
  lemma PlaceInside7(l: Layout, p: nat, i: nat, j: nat)
    requires p < 7 && l.x >= 1 && l.y >= 1
    ensures i < PassLayout(l, p).x <==> OutX(p, i) < l.x
    ensures j < PassLayout(l, p).y <==> OutY(p, j) < l.y
  {
    CountTest(l.x, XOrigin(p), XSpace(p), i);
    CountTest(l.y, YOrigin(p), YSpace(p), j);
  }

  // ----- meaning -----

  /** Bytes of a pass; a pass without pixels is not there at all. */
  function PassLength(l: Layout, p: nat): nat
    requires p < 7 && l.x >= 1 && l.y >= 1
  {
    if HasPixels(PassLayout(l, p)) then RawLength(PassLayout(l, p)) else 0
  }

  /** Where pass p starts. */
  function PassStart(l: Layout, at: nat, p: nat): (start: nat)
    requires p <= 7 && l.x >= 1 && l.y >= 1
    ensures start >= at
  {
    if p == 0 then at else PassStart(l, at, p - 1) + PassLength(l, p - 1)
  }

  /** The first n passes can be decoded. */
  predicate PassesOk(data: seq<byte>, at: nat, l: Layout, n: nat)
    requires n <= 7 && l.x >= 1 && l.y >= 1
  {
    forall p :: 0 <= p < n ==> PassOk(data, at, l, p)
  }

  predicate PassOk(data: seq<byte>, at: nat, l: Layout, p: nat)
    requires p < 7 && l.x >= 1 && l.y >= 1
  {
    HasPixels(PassLayout(l, p)) ==> Decodable(data, PassStart(l, at, p), PassLayout(l, p))
  }

  lemma RowsOfPass(data: seq<byte>, at: nat, l: Layout, p: nat, i: nat, j: nat)
    requires ValidLayout(l) && p < 7 && PassOk(data, at, l, p) && OutX(p, i) < l.x && OutY(p, j) < l.y
    ensures ValidLayout(PassLayout(l, p)) && i < PassLayout(l, p).x && j < PassLayout(l, p).y
    ensures FiltersOk(data, PassStart(l, at, p), PassLayout(l, p), j + 1)
  {
    PlaceInside7(l, p, i, j);
    FewerRows(data, PassStart(l, at, p), PassLayout(l, p), j + 1, PassLayout(l, p).y);
  }

  /** What the interlaced data say about pixel (x, y). */
  function InterlacedPixel(data: seq<byte>, at: nat, l: Layout, x: nat, y: nat): Pixel
    requires ValidLayout(l) && PassesOk(data, at, l, 7) && x < l.x && y < l.y
  {
    PixelOfPass(data, at, l, PassOf(x, y), x, y)
  }

  function PixelOfPass(data: seq<byte>, at: nat, l: Layout, p: nat, x: nat, y: nat): Pixel
    requires ValidLayout(l) && p == PassOf(x, y) && PassOk(data, at, l, p) && x < l.x && y < l.y
  {
    PixelHasPlace(x, y);
    RowsOfPass(data, at, l, p, PassCol(p, x), PassLine(p, y));
    DecodedPixel(data, PassStart(l, at, p), PassLayout(l, p), PassLine(p, y), PassCol(p, x))
  }

  // ----- the decoder -----

  /** The pixels of the first n passes are in place. */
  ghost predicate PassesDone(out: seq<Pixel>, data: seq<byte>, at: nat, l: Layout, n: nat)
    requires ValidLayout(l) && n <= 7 && PassesOk(data, at, l, n)
  {
    && |out| == Area(l)
    && forall x: nat, y: nat {:trigger At(l.x, y, x)} :: x < l.x && y < l.y && PassOf(x, y) < n ==>
         At(l.x, y, x) < |out| && out[At(l.x, y, x)] == PixelOfPass(data, at, l, PassOf(x, y), x, y)
  }

  /** Pixel (x, y) belongs to the first rows of pass p, or to the start of row j. */
  predicate CopiedYet(p: nat, j: nat, i: nat, x: nat, y: nat)
    requires p < 7
  {
    PassOf(x, y) == p && (PassLine(p, y) < j || (PassLine(p, y) == j && PassCol(p, x) < i))
  }

  /** What copying the first pixels of a pass makes of the picture. */
  ghost predicate Copied(out: seq<Pixel>, before: seq<Pixel>, passOut: seq<Pixel>, l: Layout, p: nat, j: nat, i: nat)
    requires p < 7 && l.x >= 1 && l.y >= 1
  {
    && |out| == |before| == Area(l) && |passOut| == Area(PassLayout(l, p))
    && forall x: nat, y: nat :: x < l.x && y < l.y ==> CopiedPixel(out, before, passOut, l, p, j, i, x, y)
  }

  ghost predicate CopiedPixel(out: seq<Pixel>, before: seq<Pixel>, passOut: seq<Pixel>, l: Layout, p: nat, j: nat, i: nat,
                              x: nat, y: nat)
    requires p < 7 && l.x >= 1 && l.y >= 1 && |out| == |before|
  {
    var k, m := At(l.x, y, x), At(PassLayout(l, p).x, PassLine(p, y), PassCol(p, x));
    && k < |out|
    && (CopiedYet(p, j, i, x, y) ==> m < |passOut| && out[k] == passOut[m])
    && (!CopiedYet(p, j, i, x, y) ==> out[k] == before[k])
  }

  lemma NothingCopied(before: seq<Pixel>, passOut: seq<Pixel>, l: Layout, p: nat)
    requires p < 7 && l.x >= 1 && l.y >= 1 && |before| == Area(l) && |passOut| == Area(PassLayout(l, p))
    ensures Copied(before, before, passOut, l, p, 0, 0)
  {
    hide At, PassOf, PassLine, PassCol;
    forall x: nat, y: nat | x < l.x && y < l.y
      ensures CopiedPixel(before, before, passOut, l, p, 0, 0, x, y)
    {
      AtInside(l.x, l.y, y, x);
    }
  }

  /** One more pixel of the pass. */
  lemma CopyOne(out: seq<Pixel>, before: seq<Pixel>, passOut: seq<Pixel>, l: Layout, p: nat, j: nat, i: nat)
    requires p < 7 && l.x >= 1 && l.y >= 1 && Copied(out, before, passOut, l, p, j, i)
    requires i < PassLayout(l, p).x && j < PassLayout(l, p).y
    ensures At(l.x, OutY(p, j), OutX(p, i)) < |out| && At(PassLayout(l, p).x, j, i) < |passOut|
    ensures Copied(out[At(l.x, OutY(p, j), OutX(p, i)) := passOut[At(PassLayout(l, p).x, j, i)]], before, passOut, l, p, j, i + 1)
  {
    PlaceInside7(l, p, i, j);
    PassHolds(p, i, j);
    hide At, PassOf, PassLine, PassCol, OutX, OutY, PassLayout;
    var pl := PassLayout(l, p);
    var x0, y0 := OutX(p, i), OutY(p, j);
    AtInside(l.x, l.y, y0, x0);
    AtInside(pl.x, pl.y, j, i);
    var i' := i + 1;
    var out' := out[At(l.x, y0, x0) := passOut[At(pl.x, j, i)]];
    forall x: nat, y: nat | x < l.x && y < l.y
      ensures CopiedPixel(out', before, passOut, l, p, j, i', x, y)
    {
      AtPlace(l.x, y, x);
      AtPlace(l.x, y0, x0);
      assert CopiedPixel(out, before, passOut, l, p, j, i, x, y);
      if PassOf(x, y) == p && PassLine(p, y) == j && PassCol(p, x) == i {
        SamePlace(p, x, y);
      }
    }
  }

  lemma SamePlace(p: nat, x: nat, y: nat)
    requires PassOf(x, y) == p
    ensures x == OutX(p, PassCol(p, x)) && y == OutY(p, PassLine(p, y))
  {
    PixelHasPlace(x, y);
  }

  /** The end of a row of the pass is the start of the next one. */
  lemma CopyRowEnd(out: seq<Pixel>, before: seq<Pixel>, passOut: seq<Pixel>, l: Layout, p: nat, j: nat)
    requires p < 7 && l.x >= 1 && l.y >= 1 && Copied(out, before, passOut, l, p, j, PassLayout(l, p).x)
    ensures Copied(out, before, passOut, l, p, j + 1, 0)
  {
    hide At, PassOf, PassLine, PassCol, OutX, OutY;
    var pl := PassLayout(l, p);
    var j' := j + 1;
    forall x: nat, y: nat | x < l.x && y < l.y
      ensures CopiedPixel(out, before, passOut, l, p, j', 0, x, y)
    {
      assert CopiedPixel(out, before, passOut, l, p, j, pl.x, x, y);
      if PassOf(x, y) == p {
        SamePlace(p, x, y);
        PlaceInside7(l, p, PassCol(p, x), PassLine(p, y));
      }
    }
  }

  lemma SpacedIsProduct(i: nat, space: nat)
    requires IsSpacing(space)
    ensures i * space == Spaced(i, space)
  {
  }

  method Place(p: nat, i: nat, j: nat) returns (out_x: nat, out_y: nat)
    requires p < 7
    ensures out_x == OutX(p, i) && out_y == OutY(p, j)
  {
    hide XSpace, YSpace, XOrigin, YOrigin, Spaced;
    SpacedIsProduct(j, YSpace(p));
    SpacedIsProduct(i, XSpace(p));
    out_y := j * YSpace(p) + YOrigin(p);
    out_x := i * XSpace(p) + XOrigin(p);
  }

  /** Copies pixel i of row j of a pass to its place. */
  method CopyPixel(final: array<Pixel>, a_out: array<Pixel>, ghost before: seq<Pixel>, l: Layout, p: nat, j: nat, i: nat)
    requires p < 7 && l.x >= 1 && l.y >= 1 && final != a_out && i < PassLayout(l, p).x && j < PassLayout(l, p).y
    requires Copied(final[..], before, a_out[..], l, p, j, i)
    modifies final
    ensures Copied(final[..], before, a_out[..], l, p, j, i + 1)
  {
    hide At, Copied, OutX, OutY, PassLayout, Area;
    var out_x, out_y := Place(p, i, j);
    CopyOne(final[..], before, a_out[..], l, p, j, i);
    StorePixel(final, At(l.x, out_y, out_x), a_out[At(PassLayout(l, p).x, j, i)]);
  }

  /** Copies the pixels of a pass to their places. */
  method CopyPass(final: array<Pixel>, a_out: array<Pixel>, l: Layout, p: nat)
    requires p < 7 && l.x >= 1 && l.y >= 1 && final.Length == Area(l) && a_out.Length == Area(PassLayout(l, p))
    requires final != a_out
    modifies final
    ensures Copied(final[..], old(final[..]), a_out[..], l, p, PassLayout(l, p).y, 0)
  {
    hide At, Area, Copied, PassLayout;
    ghost var before, passOut := final[..], a_out[..];
    var x, y := PassLayout(l, p).x, PassLayout(l, p).y;
    NothingCopied(before, passOut, l, p);
    var j := 0;
    while j < y
      invariant j <= y && Copied(final[..], before, passOut, l, p, j, 0)
    {
      var i := 0;
      while i < x
        invariant i <= x && Copied(final[..], before, passOut, l, p, j, i)
      {
        CopyPixel(final, a_out, before, l, p, j, i);
        i := i + 1;
      }
      CopyRowEnd(final[..], before, passOut, l, p, j);
      j := j + 1;
    }
  }

  lemma NoPassDone(out: seq<Pixel>, data: seq<byte>, at: nat, l: Layout)
    requires ValidLayout(l) && |out| == Area(l)
    ensures PassesOk(data, at, l, 0) && PassesDone(out, data, at, l, 0)
  {
  }

  lemma OnePassOk(data: seq<byte>, at: nat, l: Layout, p: nat)
    requires ValidLayout(l) && p < 7 && PassesOk(data, at, l, p)
    ensures PassesOk(data, at, l, p + 1) <==> PassOk(data, at, l, p)
    ensures !PassOk(data, at, l, p) ==> !PassesOk(data, at, l, 7)
  {
    hide PassOk;
  }

  /** A pass without pixels has nothing to copy. */
  lemma EmptyPass(out: seq<Pixel>, data: seq<byte>, at: nat, l: Layout, p: nat)
    requires ValidLayout(l) && p < 7 && PassesOk(data, at, l, p) && PassesDone(out, data, at, l, p)
    requires !HasPixels(PassLayout(l, p))
    ensures PassesOk(data, at, l, p + 1) && PassesDone(out, data, at, l, p + 1)
  {
    hide At, PassOf, OutX, OutY, PassCol, PassLine, PixelOfPass, PassLayout;
    OnePassOk(data, at, l, p);
    assert PassOk(data, at, l, p);
    forall x: nat, y: nat {:trigger At(l.x, y, x)} | x < l.x && y < l.y && PassOf(x, y) < p + 1
      ensures At(l.x, y, x) < |out| && out[At(l.x, y, x)] == PixelOfPass(data, at, l, PassOf(x, y), x, y)
    {
      if PassOf(x, y) == p {
        SamePlace(p, x, y);
        PlaceInside7(l, p, PassCol(p, x), PassLine(p, y));
      }
    }
  }

  /** The decoded pass is copied: one pass more is in place. */
  lemma OnePassMore(out: seq<Pixel>, before: seq<Pixel>, passOut: seq<Pixel>, data: seq<byte>, at: nat, l: Layout, p: nat)
    requires ValidLayout(l) && p < 7 && PassesOk(data, at, l, p) && PassesDone(before, data, at, l, p)
    requires HasPixels(PassLayout(l, p)) && PassOk(data, at, l, p)
    requires ValidLayout(PassLayout(l, p))
    requires RowsDone(passOut, data, PassStart(l, at, p), PassLayout(l, p), PassLayout(l, p).y)
    requires Copied(out, before, passOut, l, p, PassLayout(l, p).y, 0)
    ensures PassesOk(data, at, l, p + 1) && PassesDone(out, data, at, l, p + 1)
  {
    hide At, PassOf, OutX, OutY, PassCol, PassLine, PassLayout, DecodedPixel, PassStart, Decodable;
    OnePassOk(data, at, l, p);
    var pl := PassLayout(l, p);
    forall x: nat, y: nat {:trigger At(l.x, y, x)} | x < l.x && y < l.y && PassOf(x, y) < p + 1
      ensures At(l.x, y, x) < |out| && out[At(l.x, y, x)] == PixelOfPass(data, at, l, PassOf(x, y), x, y)
    {
      assert CopiedPixel(out, before, passOut, l, p, pl.y, 0, x, y);
      if PassOf(x, y) == p {
        SamePlace(p, x, y);
        PlaceInside7(l, p, PassCol(p, x), PassLine(p, y));
        assert At(pl.x, PassLine(p, y), PassCol(p, x)) < |passOut|;
      }
    }
  }

  /** The layout of a pass with pixels is a layout of its own. */
  lemma PassLayoutValid(l: Layout, p: nat)
    requires ValidLayout(l) && p < 7 && HasPixels(PassLayout(l, p))
    ensures ValidLayout(PassLayout(l, p))
  {
  }

  lemma StartInside(data: seq<byte>, at: nat, l: Layout, p: nat)
    requires ValidLayout(l) && p < 7 && PassStart(l, at, p) <= |data| && PassOk(data, at, l, p)
    ensures PassStart(l, at, p + 1) <= |data|
    ensures PassStart(l, at, p + 1) == PassStart(l, at, p) + PassLength(l, p)
  {
    hide RawLength, PassLayout;
  }

  /** The picture from the inflated data. */
  method CreatePngImage(data: seq<byte>, at: nat, l: Layout, interlaced: bool) returns (ok: bool, out: array<Pixel>)
    requires ValidLayout(l) && at <= |data|
    ensures fresh(out)
    ensures !interlaced ==> ok == Decodable(data, at, l) && (ok ==> RowsDone(out[..], data, at, l, l.y))
    ensures interlaced ==> ok == (FinalFits(l) && PassesOk(data, at, l, 7)) && (ok ==> PassesDone(out[..], data, at, l, 7))
  {
    hide At, RowsDone, PassesDone, PassesOk, PassOk, PassLayout, Decodable, PassStart, ValidLayout;
    if !interlaced {
      ok, out := CreatePngImageRaw(data, at, l);
      return;
    }
    ok := false;
    out := new Pixel[0];
    if !FinalFits(l) {
      return;
    }
    AreaIs(l);
    LayoutSize(l);
    var final := new Pixel[l.x * l.y];
    NoPassDone(final[..], data, at, l);
    FirstStart(l, at);
    var pos := at;
    var p := 0;
    while p < 7
      invariant p <= 7 && pos == PassStart(l, at, p) && pos <= |data| && final.Length == Area(l)
      invariant PassesOk(data, at, l, p) && PassesDone(final[..], data, at, l, p)
    {
      var pl := PassLayout(l, p);
      OnePassOk(data, at, l, p);
      PassOkIs(data, at, l, p);
      if pl.x > 0 && pl.y > 0 {
        PassLayoutValid(l, p);
        var good, a_out := CreatePngImageRaw(data, pos, pl);
        if !good {
          return;
        }
        ghost var before := final[..];
        RowsDoneLength(a_out[..], data, pos, pl, pl.y);
        CopyPass(final, a_out, l, p);
        OnePassMore(final[..], before, a_out[..], data, at, l, p);
      } else {
        EmptyPass(final[..], data, at, l, p);
      }
      StartInside(data, at, l, p);
      pos := pos + (if pl.x > 0 && pl.y > 0 then RawLength(pl) else 0);
      p := p + 1;
    }
    return true, final;
  }

  predicate FinalFits(l: Layout)
  {
    At(OutBytes(l), Area(l), 0) <= INT_MAX
  }

  lemma LayoutSize(l: Layout)
    requires ValidLayout(l)
    ensures l.x >= 1 && l.y >= 1
  {
  }

  lemma FirstStart(l: Layout, at: nat)
    requires ValidLayout(l)
    ensures PassStart(l, at, 0) == at
  {
  }

  lemma PassOkIs(data: seq<byte>, at: nat, l: Layout, p: nat)
    requires ValidLayout(l) && p < 7
    ensures PassOk(data, at, l, p) <==> (HasPixels(PassLayout(l, p)) ==> Decodable(data, PassStart(l, at, p), PassLayout(l, p)))
    ensures Decodable(data, PassStart(l, at, p), PassLayout(l, p)) ==>
      FiltersOk(data, PassStart(l, at, p), PassLayout(l, p), PassLayout(l, p).y)
    ensures PassLength(l, p) == if HasPixels(PassLayout(l, p)) then RawLength(PassLayout(l, p)) else 0
  {
  }

  // ----- an encoder -----

  /** The samples of row j of a pass. */
  function SubRow(rows: seq<seq<nat>>, l: Layout, p: nat, j: nat): (s: seq<nat>)
    requires ValidPicture(rows, l) && p < 7
    ensures |s| == Samples(PassLayout(l, p))
  {
    seq<nat>(Samples(PassLayout(l, p)), (k: nat) =>
      SampleAt(rows, OutY(p, j), At(l.imgN, OutX(p, Line(k, l.imgN)), Col(k, l.imgN))))
  }

  function SampleAt(rows: seq<seq<nat>>, y: nat, k: nat): nat
  {
    if y < |rows| then SampleOrZero(rows[y], k) else 0
  }

  /** The reduced picture of a pass. */
  function SubRows(rows: seq<seq<nat>>, l: Layout, p: nat): (r: seq<seq<nat>>)
    requires ValidPicture(rows, l) && p < 7
    ensures |r| == PassLayout(l, p).y
  {
    seq<seq<nat>>(PassLayout(l, p).y, (j: nat) => SubRow(rows, l, p, j))
  }

  lemma SubRowsValid(rows: seq<seq<nat>>, l: Layout, p: nat)
    requires ValidPicture(rows, l) && p < 7 && HasPixels(PassLayout(l, p))
    ensures ValidPicture(SubRows(rows, l, p), PassLayout(l, p))
  {
    hide At, Line, Col, OutX, OutY, PassLayout;
    var pl, r := PassLayout(l, p), SubRows(rows, l, p);
    PassLayoutValid(l, p);
    SameDepth(l, p);
    forall j | 0 <= j < pl.y ensures ValidSamples(r[j], pl) {
      forall k: nat | k < |r[j]| ensures r[j][k] <= MaxSample(l.depth) {
        SmallAt(rows, l, OutY(p, j), At(l.imgN, OutX(p, Line(k, l.imgN)), Col(k, l.imgN)));
      }
    }
  }

  lemma SameDepth(l: Layout, p: nat)
    requires p < 7 && l.x >= 1 && l.y >= 1
    ensures var pl := PassLayout(l, p);
      pl.depth == l.depth && pl.imgN == l.imgN && pl.outN == l.outN && pl.color == l.color
  {
  }

  lemma SmallAt(rows: seq<seq<nat>>, l: Layout, y: nat, k: nat)
    requires ValidPicture(rows, l)
    ensures SampleAt(rows, y, k) <= MaxSample(l.depth)
  {
    if y < |rows| {
      assert ValidSamples(rows[y], l);
    }
  }

  /** Each pass has its own choice of filters. */
  predicate PassFilters(filters: seq<seq<nat>>, l: Layout)
    requires l.x >= 1 && l.y >= 1
  {
    |filters| == 7 && forall p :: 0 <= p < 7 ==> HasPixels(PassLayout(l, p)) ==> ValidFilters(filters[p], PassLayout(l, p))
  }

  /** The bytes of a pass. */
  function SentPass(rows: seq<seq<nat>>, filters: seq<seq<nat>>, l: Layout, p: nat): (b: seq<byte>)
    requires ValidPicture(rows, l) && PassFilters(filters, l) && p < 7
    ensures |b| == PassLength(l, p)
  {
    var pl := PassLayout(l, p);
    if !HasPixels(pl) then []
    else
      SubRowsValid(rows, l, p);
      SentRows(SubRows(rows, l, p), filters[p], pl, pl.y)
  }

  /** The bytes of the first n passes. */
  function SentPasses(rows: seq<seq<nat>>, filters: seq<seq<nat>>, l: Layout, n: nat): (b: seq<byte>)
    requires ValidPicture(rows, l) && PassFilters(filters, l) && n <= 7
    ensures |b| == PassStart(l, 0, n)
  {
    if n == 0 then [] else SentPasses(rows, filters, l, n - 1) + SentPass(rows, filters, l, n - 1)
  }

  lemma {:induction false} StartShift(l: Layout, at: nat, p: nat)
    requires p <= 7 && l.x >= 1 && l.y >= 1
    ensures PassStart(l, at, p) == at + PassStart(l, 0, p)
  {
    hide PassLength;
    if p > 0 {
      StartShift(l, at, p - 1);
    }
  }

  /** Where a pass lies among the sent bytes. */
  lemma {:induction false} PassHeld(head: seq<byte>, rest: seq<byte>, rows: seq<seq<nat>>, filters: seq<seq<nat>>, l: Layout, n: nat, p: nat)
    requires ValidPicture(rows, l) && PassFilters(filters, l) && p < n <= 7
    ensures var data := head + SentPasses(rows, filters, l, n) + rest; var start := PassStart(l, |head|, p);
      start + PassLength(l, p) <= |data| && data[start..start + PassLength(l, p)] == SentPass(rows, filters, l, p)
    decreases n
  {
    hide PassLength, SentPass, PassStart, ValidPicture, PassFilters;
    SizesAre(rows, l);
    StartShift(l, |head|, p);
    var before, last := SentPasses(rows, filters, l, n - 1), SentPass(rows, filters, l, n - 1);
    if p < n - 1 {
      PassHeld(head, last + rest, rows, filters, l, n - 1, p);
      assert head + SentPasses(rows, filters, l, n) + rest == head + before + (last + rest);
    } else {
      Middle(head + before, last, rest);
      assert head + SentPasses(rows, filters, l, n) + rest == head + before + (last + rest);
    }
  }

  lemma SizesAre(rows: seq<seq<nat>>, l: Layout)
    requires ValidPicture(rows, l)
    ensures l.x >= 1 && l.y >= 1 && ValidLayout(l)
  {
  }

  /** The pixel of a pass's reduced picture is the pixel of the picture. */
  lemma SubPixel(rows: seq<seq<nat>>, l: Layout, p: nat, j: nat, i: nat)
    requires ValidPicture(rows, l) && p < 7 && HasPixels(PassLayout(l, p))
    requires i < PassLayout(l, p).x && j < PassLayout(l, p).y
    ensures ValidPicture(SubRows(rows, l, p), PassLayout(l, p)) && OutX(p, i) < l.x && OutY(p, j) < l.y
    ensures SourcePixel(SubRows(rows, l, p), PassLayout(l, p), j, i) == SourcePixel(rows, l, OutY(p, j), OutX(p, i))
  {
    SubRowsValid(rows, l, p);
    PlaceInside7(l, p, i, j);
    SameDepth(l, p);
    hide Line, Col, OutX, OutY, PassLayout, At;
    var pl, r := PassLayout(l, p), SubRows(rows, l, p);
    forall c: nat | c < l.imgN
      ensures SampleOrZero(r[j], At(l.imgN, i, c)) == SampleOrZero(rows[OutY(p, j)], At(l.imgN, OutX(p, i), c))
    {
      AtInside(l.imgN, pl.x, i, c);
      AtPlace(l.imgN, i, c);
      assert r[j] == SubRow(rows, l, p, j);
    }
  }

  /** A sent pass with pixels is an encoded picture of its own. */
  lemma PassIsHeld(data: seq<byte>, start: nat, rows: seq<seq<nat>>, filters: seq<seq<nat>>, l: Layout, p: nat)
    requires ValidPicture(rows, l) && PassFilters(filters, l) && p < 7 && HasPixels(PassLayout(l, p))
    requires start + PassLength(l, p) <= |data|
    requires data[start..start + PassLength(l, p)] == SentPass(rows, filters, l, p)
    ensures Holds(data, start, SubRows(rows, l, p), filters[p], PassLayout(l, p))
  {
    hide SentRows, SubRows, ValidPicture, RawLength, PassLayout;
    SizesAre(rows, l);
    SubRowsValid(rows, l, p);
  }

  /** Decoding a sent pass gives the pixels of its own picture. */
  lemma PassDecodes(data: seq<byte>, start: nat, rows: seq<seq<nat>>, filters: seq<seq<nat>>, l: Layout, p: nat, j: nat, i: nat)
    requires ValidPicture(rows, l) && PassFilters(filters, l) && p < 7 && HasPixels(PassLayout(l, p))
    requires start + PassLength(l, p) <= |data|
    requires data[start..start + PassLength(l, p)] == SentPass(rows, filters, l, p)
    requires i < PassLayout(l, p).x && j < PassLayout(l, p).y
    ensures ValidPicture(SubRows(rows, l, p), PassLayout(l, p)) && FiltersOk(data, start, PassLayout(l, p), j + 1)
    ensures DecodedPixel(data, start, PassLayout(l, p), j, i) == SourcePixel(SubRows(rows, l, p), PassLayout(l, p), j, i)
  {
    hide PassLayout, SourcePixel, DecodedPixel, SentPass, SubRows, FiltersOk, ValidPicture, PassLength, Holds, ValidFilters;
    SizesAre(rows, l);
    PassIsHeld(data, start, rows, filters, l, p);
    PixelUndone(data, start, SubRows(rows, l, p), filters[p], PassLayout(l, p), j, i);
  }

  lemma PassPixelUndone(data: seq<byte>, at: nat, rows: seq<seq<nat>>, filters: seq<seq<nat>>, l: Layout, p: nat, x: nat, y: nat)
    requires ValidPicture(rows, l) && PassFilters(filters, l) && x < l.x && y < l.y && p == PassOf(x, y)
    requires PassOk(data, at, l, p) && PassStart(l, at, p) + PassLength(l, p) <= |data|
    requires data[PassStart(l, at, p)..PassStart(l, at, p) + PassLength(l, p)] == SentPass(rows, filters, l, p)
    ensures PixelOfPass(data, at, l, p, x, y) == SourcePixel(rows, l, y, x)
  {
    SizesAre(rows, l);
    PixelHasPlace(x, y);
    hide PassOf, PassCol, PassLine, OutX, OutY, PassLayout, PassStart, SourcePixel, DecodedPixel, SentPass, SubRows,
      FiltersOk, ValidPicture, PassLength, PassFilters, PassOk;
    var i, j := PassCol(p, x), PassLine(p, y);
    PlaceInside7(l, p, i, j);
    PassDecodes(data, PassStart(l, at, p), rows, filters, l, p, j, i);
    SubPixel(rows, l, p, j, i);
  }

  /** Decoding an interlaced picture gives every pixel of the picture, for every size, every depth and
      every choice of filters. */
  lemma InterlacedUndone(head: seq<byte>, rest: seq<byte>, rows: seq<seq<nat>>, filters: seq<seq<nat>>, l: Layout, x: nat, y: nat)
    requires ValidPicture(rows, l) && PassFilters(filters, l) && x < l.x && y < l.y
    requires PassesOk(head + SentPasses(rows, filters, l, 7) + rest, |head|, l, 7)
    ensures InterlacedPixel(head + SentPasses(rows, filters, l, 7) + rest, |head|, l, x, y) == SourcePixel(rows, l, y, x)
  {
    hide SentPasses, PassStart, SourcePixel, SentPass, ValidPicture, PassLength, PassFilters, PixelOfPass, PassOk, PassOf;
    SizesAre(rows, l);
    PassHeld(head, rest, rows, filters, l, 7, PassOf(x, y));
    PassPixelUndone(head + SentPasses(rows, filters, l, 7) + rest, |head|, rows, filters, l, PassOf(x, y), x, y);
  }

  lemma EncodedPassOk(data: seq<byte>, at: nat, rows: seq<seq<nat>>, filters: seq<seq<nat>>, l: Layout, p: nat)
    requires ValidPicture(rows, l) && PassFilters(filters, l) && p < 7 && SizesOk(PassLayout(l, p))
    requires PassStart(l, at, p) + PassLength(l, p) <= |data|
    requires data[PassStart(l, at, p)..PassStart(l, at, p) + PassLength(l, p)] == SentPass(rows, filters, l, p)
    ensures PassOk(data, at, l, p)
  {
    hide PassStart, SentRows, SubRows, SizesOk, ValidPicture, FiltersOk, RawLength, PassLayout;
    SizesAre(rows, l);
    var pl := PassLayout(l, p);
    if HasPixels(pl) {
      PassIsHeld(data, PassStart(l, at, p), rows, filters, l, p);
      RowsUndone(data, PassStart(l, at, p), SubRows(rows, l, p), filters[p], pl, pl.y - 1);
    }
  }

  /** All passes of an encoded picture can be decoded if their sizes fit. */
  lemma EncodedPassesOk(head: seq<byte>, rest: seq<byte>, rows: seq<seq<nat>>, filters: seq<seq<nat>>, l: Layout)
    requires ValidPicture(rows, l) && PassFilters(filters, l)
    requires forall p :: 0 <= p < 7 ==> SizesOk(PassLayout(l, p))
    ensures PassesOk(head + SentPasses(rows, filters, l, 7) + rest, |head|, l, 7)
  {
    var data := head + SentPasses(rows, filters, l, 7) + rest;
    forall p | 0 <= p < 7 ensures PassOk(data, |head|, l, p) {
      hide SentPasses, PassStart, SentPass, SizesOk, ValidPicture, PassFilters, PassLength, PassOk, PassLayout;
      SizesAre(rows, l);
      PassHeld(head, rest, rows, filters, l, 7, p);
      EncodedPassOk(data, |head|, rows, filters, l, p);
    }
  }
}
