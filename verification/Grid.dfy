/** Pictures stored line by line: the running number of a pixel and its line and column. */
module Grid {
  import opened Bits

  /** The number of the pixel in the given line and column of a picture of width w. */
  function At(w: nat, line: nat, col: nat): (n: nat)
    ensures n >= col
  {
    if line == 0 then col else w + At(w, line - 1, col)
  }

  lemma {:induction false} AtIs(w: nat, line: nat, col: nat)
    ensures At(w, line, col) == line * w + col
  {
    if line > 0 {
      AtIs(w, line - 1, col);
      MulStep(line - 1, w);
    }
  }

  function Line(n: nat, w: nat): nat
    requires w > 0
  {
    n / w
  }

  function Col(n: nat, w: nat): (c: nat)
    requires w > 0
    ensures c < w
  {
    n % w
  }

  lemma {:induction false} AtShift(w: nat, line: nat, col: nat)
    ensures At(w, line, col) == At(w, line, 0) + col
  {
    if line > 0 {
      AtShift(w, line - 1, col);
    }
  }

  lemma AtPlace(w: nat, line: nat, col: nat)
    requires col < w
    ensures Line(At(w, line, col), w) == line && Col(At(w, line, col), w) == col
  {
    AtIs(w, line, col);
    DivUnique(At(w, line, col), w, line, col);
  }

  lemma PlaceAt(n: nat, w: nat)
    requires w > 0
    ensures At(w, Line(n, w), Col(n, w)) == n
  {
    AtIs(w, Line(n, w), Col(n, w));
  }

  lemma AtInside(w: nat, h: nat, line: nat, col: nat)
    requires col < w && line < h
    ensures At(w, line, col) < At(w, h, 0)
  {
    AtIs(w, line, col);
    AtIs(w, h, 0);
    MulMono(line + 1, h, w);
  }

  lemma PlaceInside(n: nat, w: nat, h: nat)
    requires n < At(w, h, 0)
    ensures w > 0 && Line(n, w) < h
  {
    if w > 0 && n / w >= h {
      MulMono(h, n / w, w);
      PlaceAt(n, w);
      AtIs(w, h, 0);
      AtIs(w, Line(n, w), Col(n, w));
    }
    AtIs(0, h, 0);
  }

  lemma NextPlace(n: nat, w: nat)
    requires w > 0
    ensures Col(n, w) + 1 < w ==> Line(n + 1, w) == Line(n, w) && Col(n + 1, w) == Col(n, w) + 1
    ensures Col(n, w) + 1 == w ==> Line(n + 1, w) == Line(n, w) + 1 && Col(n + 1, w) == 0
  {
    var line, col := Line(n, w), Col(n, w);
    PlaceAt(n, w);
    AtIs(w, line, col);
    if col + 1 < w {
      DivUnique(n + 1, w, line, col + 1);
    } else {
      assert n + 1 == (line + 1) * w + 0;
      DivUnique(n + 1, w, line + 1, 0);
    }
  }
}
