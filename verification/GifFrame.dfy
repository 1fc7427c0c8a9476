/** Where a GIF raster's indices go: the cursor that walks a frame, interlaced or not
    (Appendix E of GIF89a), and what the frame looks like afterwards. */
module GifFrame {
  import opened Bits
  import opened Grid

  /** A rectangle of w by h pixels at (x, y) on a screen of width by height pixels. */
  datatype Frame = Frame(width: nat, height: nat, x: nat, y: nat, w: nat, h: nat, interlaced: bool)

  predicate FitsScreen(f: Frame)
  {
    f.x + f.w <= f.width && f.y + f.h <= f.height
  }

  // ----- the cursor, in bytes -----

  function LineSize(f: Frame): nat { 4 * f.width }

  function StartX(f: Frame): nat { 4 * f.x }

  function StartY(f: Frame): nat { f.y * LineSize(f) }

  function MaxX(f: Frame): nat { StartX(f) + 4 * f.w }

  function MaxY(f: Frame): nat { StartY(f) + f.h * LineSize(f) }

  /** Column and line offset in bytes; line step; interlacing passes still to come. */
  datatype Cursor = Cursor(x: nat, y: nat, step: nat, parse: nat)

  function FirstCursor(f: Frame): Cursor
  {
    var y := if f.w == 0 then MaxY(f) else StartY(f);
    if f.interlaced then Cursor(StartX(f), y, 8 * LineSize(f), 3) else Cursor(StartX(f), y, LineSize(f), 0)
  }

  /** Behind the last line of a pass, the next pass that has a line. */
  function SkipPasses(f: Frame, c: Cursor): Cursor
    decreases c.parse
  {
    if c.y >= MaxY(f) && c.parse > 0 then
      var step := Shl(1, c.parse) * LineSize(f);
      SkipPasses(f, Cursor(c.x, StartY(f) + Shr(step, 1), step, c.parse - 1))
    else c
  }

  function Advance(f: Frame, c: Cursor): Cursor
  {
    if c.x + 4 < MaxX(f) then c.(x := c.x + 4)
    else SkipPasses(f, Cursor(StartX(f), c.y + c.step, c.step, c.parse))
  }

  /** The cursor behind n indices; it stays below the frame once it got there. */
  function Walk(f: Frame, n: nat): Cursor
  {
    if n == 0 then FirstCursor(f)
    else
      var c := Walk(f, n - 1);
      if c.y >= MaxY(f) then c else Advance(f, c)
  }

  // ----- the order of lines -----

  /** Number of lines in a pass: 0, 8, 16, ...; then 4, 12, ...; then 2, 6, ...; then 1, 3, ... */
  function Lines(h: nat, parse: nat): (n: nat)
    requires parse <= 3
    ensures parse == 3 ==> 8 * n >= h && (n > 0 ==> 8 * (n - 1) < h)
    ensures parse == 2 ==> 8 * n + 4 >= h && (n > 0 ==> 8 * (n - 1) + 4 < h)
    ensures parse == 1 ==> 4 * n + 2 >= h && (n > 0 ==> 4 * (n - 1) + 2 < h)
    ensures parse == 0 ==> 2 * n <= h <= 2 * n + 1
  {
    if parse == 3 then (h + 7) / 8 else if parse == 2 then (h + 3) / 8 else if parse == 1 then (h + 1) / 4 else h / 2
  }

  /** Number of lines up to and including a pass. */
  function PassEnd(h: nat, parse: nat): nat
    requires parse <= 3
    decreases 3 - parse
  {
    if parse == 3 then Lines(h, 3) else PassEnd(h, parse + 1) + Lines(h, parse)
  }

  /** The four passes have all lines. */
  lemma PassEnds(h: nat)
    ensures PassEnd(h, 3) == Lines(h, 3) && PassEnd(h, 2) == PassEnd(h, 3) + Lines(h, 2)
    ensures PassEnd(h, 1) == PassEnd(h, 2) + Lines(h, 1) && h == PassEnd(h, 1) + Lines(h, 0)
  {
    EightLines(h / 8, h % 8);
  }

  lemma EightLines(q: nat, k: nat)
    requires k < 8
    ensures (8 * q + k + 7) / 8 + (8 * q + k + 3) / 8 + (8 * q + k + 1) / 4 + (8 * q + k) / 2 == 8 * q + k
  {
    assert (8 * q + k + 7) / 8 == q + (k + 7) / 8;
    assert (8 * q + k + 3) / 8 == q + (k + 3) / 8;
    assert (8 * q + k + 1) / 4 == 2 * q + (k + 1) / 4;
    assert (8 * q + k) / 2 == 4 * q + k / 2;
  }

  function ParseAt(f: Frame, r: nat): (parse: nat)
    ensures parse <= 3
  {
    if !f.interlaced then 0
    else if r < PassEnd(f.h, 3) then 3 else if r < PassEnd(f.h, 2) then 2 else if r < PassEnd(f.h, 1) then 1 else 0
  }

  function StepAt(f: Frame, r: nat): nat
  {
    if !f.interlaced then 1 else match ParseAt(f, r) case 3 => 8 case 2 => 8 case 1 => 4 case _ => 2
  }

  /** The line that is drawn as number r. */
  function Row(f: Frame, r: nat): nat
  {
    if !f.interlaced then r
    else
      match ParseAt(f, r)
      case 3 => 8 * r
      case 2 => 8 * (r - PassEnd(f.h, 3)) + 4
      case 1 => 4 * (r - PassEnd(f.h, 2)) + 2
      case _ => 2 * (r - PassEnd(f.h, 1)) + 1
  }

  /** The pass that draws line y. */
  function Phase(y: nat): (parse: nat)
    ensures parse <= 3
  {
    if y % 8 == 0 then 3 else if y % 8 == 4 then 2 else if y % 4 == 2 then 1 else 0
  }

  /** Which line of its pass line y is. */
  function Place(y: nat): (i: nat)
    ensures y == PassLine(Phase(y), i)
  {
    ModChain(y);
    if Phase(y) >= 2 then y / 8 else if Phase(y) == 1 then y / 4 else y / 2
  }

  /** Line number i of a pass. */
  function PassLine(parse: nat, i: nat): nat
  {
    if parse == 3 then 8 * i else if parse == 2 then 8 * i + 4 else if parse == 1 then 4 * i + 2 else 2 * i + 1
  }

  lemma PassLinePlace(parse: nat, i: nat)
    requires parse <= 3
    ensures Phase(PassLine(parse, i)) == parse && Place(PassLine(parse, i)) == i
  {
  }

  /** The number under which line y is drawn. */
  function Rank(f: Frame, y: nat): nat
  {
    if !f.interlaced then y
    else if Phase(y) == 3 then Place(y)
    else PassEnd(f.h, Phase(y) + 1) + Place(y)
  }

  lemma RowThenRank(f: Frame, r: nat)
    requires r < f.h
    ensures Row(f, r) < f.h && Rank(f, Row(f, r)) == r
  {
    hide PassEnd, Phase, Place, Lines;
    PassEnds(f.h);
    var parse := ParseAt(f, r);
    var i := if parse == 3 then r else r - PassEnd(f.h, parse + 1);
    if f.interlaced {
      PassLinePlace(parse, i);
      assert Row(f, r) == PassLine(parse, i);
    }
  }

  lemma RankThenRow(f: Frame, y: nat)
    requires y < f.h
    ensures Rank(f, y) < f.h && Row(f, Rank(f, y)) == y
  {
    hide PassEnd, Phase, Place, Lines, PassLine, ParseAt;
    if f.interlaced {
      PlaceBelow(f.h, y);
      hide Row;
      RowOfPass(f, Phase(y), Place(y));
    }
  }

  lemma PlaceBelow(h: nat, y: nat)
    requires y < h
    ensures Place(y) < Lines(h, Phase(y))
  {
    hide Phase, Place, Lines;
  }

  /** Line number i of a pass, and when it is drawn. */
  lemma RowOfPass(f: Frame, parse: nat, i: nat)
    requires f.interlaced && parse <= 3 && i < Lines(f.h, parse)
    ensures var r := if parse == 3 then i else PassEnd(f.h, parse + 1) + i; r < f.h && Row(f, r) == PassLine(parse, i)
  {
    hide PassEnd, Lines, ParseAt;
    ParseOfPass(f, parse, i);
  }

  lemma ParseOfPass(f: Frame, parse: nat, i: nat)
    requires f.interlaced && parse <= 3 && i < Lines(f.h, parse)
    ensures var r := if parse == 3 then i else PassEnd(f.h, parse + 1) + i; r < f.h && ParseAt(f, r) == parse
  {
    hide PassEnd, Lines;
    PassEnds(f.h);
    if parse == 3 {
    } else if parse == 2 {
      assert PassEnd(f.h, parse + 1) == PassEnd(f.h, 3);
    } else if parse == 1 {
      assert PassEnd(f.h, parse + 1) == PassEnd(f.h, 2);
    } else {
      assert PassEnd(f.h, parse + 1) == PassEnd(f.h, 1);
    }
  }

  /** Every line is drawn exactly once. */
  lemma RowsOnce(f: Frame, r: nat)
    requires r < f.h
    ensures Row(f, r) < f.h && Rank(f, Row(f, r)) == r
    ensures Rank(f, r) < f.h && Row(f, Rank(f, r)) == r
  {
    RowThenRank(f, r);
    RankThenRow(f, r);
  }

  /** Number of pixels of the frame. */
  function Area(f: Frame): nat
  {
    At(f.w, f.h, 0)
  }

  // ----- the walk follows that order -----

  /** The cursor in lines instead of bytes. */
  datatype RowCursor = RowCursor(row: nat, step: nat, parse: nat)

  function SkipRows(h: nat, c: RowCursor): RowCursor
    decreases c.parse
  {
    if c.row >= h && c.parse > 0 then
      SkipRows(h, RowCursor(Shr(Shl(1, c.parse), 1), Shl(1, c.parse), c.parse - 1))
    else c
  }

  function RowCursorAt(f: Frame, r: nat): RowCursor
  {
    RowCursor(Row(f, r), StepAt(f, r), ParseAt(f, r))
  }

  lemma PassSteps()
    ensures Shl(1, 3) == 8 && Shr(8, 1) == 4 && Shl(1, 2) == 4 && Shr(4, 1) == 2 && Shl(1, 1) == 2 && Shr(2, 1) == 1
  {
  }

  lemma SkipRowsFrom(h: nat, c: RowCursor)
    requires c.row >= h && c.parse <= 3
    ensures c.parse == 3 ==> SkipRows(h, c) == SkipRows(h, RowCursor(4, 8, 2))
    ensures c.parse == 2 ==> SkipRows(h, c) == SkipRows(h, RowCursor(2, 4, 1))
    ensures c.parse == 1 ==> SkipRows(h, c) == SkipRows(h, RowCursor(1, 2, 0))
    ensures c.parse == 0 ==> SkipRows(h, c) == c
  {
    PassSteps();
  }

  /** Behind line number r comes line number r + 1; behind the last one the cursor is below the frame. */
  lemma NextRow(f: Frame, r: nat)
    requires r < f.h
    ensures var c := RowCursorAt(f, r); var next := SkipRows(f.h, RowCursor(c.row + c.step, c.step, c.parse));
      if r + 1 < f.h then next == RowCursorAt(f, r + 1) else next.row >= f.h
  {
    hide SkipRows, PassEnd, Lines;
    var c := RowCursorAt(f, r);
    var over := RowCursor(c.row + c.step, c.step, c.parse);
    if over.row < f.h || !f.interlaced {
      SkipOrStay(f.h, over);
      SameRowPass(f, r);
    } else {
      NextPass(f, r);
      SkipRowsFrom(f.h, over);
      SkipOrStay(f.h, RowCursor(4, 8, 2));
      SkipOrStay(f.h, RowCursor(2, 4, 1));
      SkipOrStay(f.h, RowCursor(1, 2, 0));
    }
  }

  /** Inside a pass the next line is one step further down. */
  lemma SameRowPass(f: Frame, r: nat)
    requires r < f.h
    ensures var c := RowCursorAt(f, r);
      c.row + c.step < f.h || !f.interlaced ==>
        if r + 1 < f.h then RowCursorAt(f, r + 1) == RowCursor(c.row + c.step, c.step, c.parse) else c.row + c.step >= f.h
  {
    hide PassEnd, Lines;
    PassEnds(f.h);
  }

  /** Behind the last line of a pass comes the first line of the next pass that has one. */
  lemma NextPass(f: Frame, r: nat)
    requires r < f.h && f.interlaced && Row(f, r) + StepAt(f, r) >= f.h
    ensures r + 1 < f.h ==> match ParseAt(f, r)
      case 3 => RowCursorAt(f, r + 1) == (if 4 < f.h then RowCursor(4, 8, 2) else if 2 < f.h then RowCursor(2, 4, 1) else RowCursor(1, 2, 0))
      case 2 => RowCursorAt(f, r + 1) == (if 2 < f.h then RowCursor(2, 4, 1) else RowCursor(1, 2, 0))
      case 1 => RowCursorAt(f, r + 1) == RowCursor(1, 2, 0)
      case _ => false
    ensures r + 1 == f.h ==> match ParseAt(f, r) case 3 => f.h <= 1 case 2 => false case 1 => false case _ => true
  {
    hide PassEnd, Lines;
    PassEnds(f.h);
  }

  lemma SkipOrStay(h: nat, c: RowCursor)
    requires c.parse <= 3
    ensures c.row < h ==> SkipRows(h, c) == c
    ensures c.row >= h && c.parse == 2 ==> SkipRows(h, c) == SkipRows(h, RowCursor(2, 4, 1))
    ensures c.row >= h && c.parse == 1 ==> SkipRows(h, c) == SkipRows(h, RowCursor(1, 2, 0))
    ensures c.row >= h && c.parse == 0 ==> SkipRows(h, c) == c
  {
    PassSteps();
  }

  /** A row cursor in bytes, at the given column offset. */
  function InBytes(f: Frame, x: nat, c: RowCursor): Cursor
  {
    Cursor(x, StartY(f) + c.row * LineSize(f), c.step * LineSize(f), c.parse)
  }

  lemma BelowMax(f: Frame, row: nat)
    requires f.width > 0
    ensures StartY(f) + row * LineSize(f) >= MaxY(f) <==> row >= f.h
  {
    if row >= f.h {
      MulMono(f.h, row, LineSize(f));
    } else {
      MulMono(row + 1, f.h, LineSize(f));
    }
  }

  lemma HalfStep(k: nat, l: nat)
    requires k >= 1
    ensures Shr(Shl(1, k) * l, 1) == Shr(Shl(1, k), 1) * l
  {
    var half := Shl(1, k - 1);
    assert Shl(1, k) == 2 * half;
    assert 2 * half * l == 2 * (half * l);
  }

  /** Bytes and lines agree. */
  lemma {:induction false} SkipAgrees(f: Frame, x: nat, c: RowCursor)
    requires f.width > 0
    ensures SkipPasses(f, InBytes(f, x, c)) == InBytes(f, x, SkipRows(f.h, c))
    decreases c.parse
  {
    hide Shl, Shr;
    BelowMax(f, c.row);
    if c.row >= f.h && c.parse > 0 {
      HalfStep(c.parse, LineSize(f));
      SkipAgrees(f, x, RowCursor(Shr(Shl(1, c.parse), 1), Shl(1, c.parse), c.parse - 1));
    }
  }

  function CursorAt(f: Frame, r: nat, col: nat): Cursor
  {
    InBytes(f, StartX(f) + 4 * col, RowCursorAt(f, r))
  }

  lemma StepInBytes(f: Frame, c: RowCursor)
    ensures StartY(f) + c.row * LineSize(f) + c.step * LineSize(f) == StartY(f) + (c.row + c.step) * LineSize(f)
  {
  }

  lemma AdvanceInRow(f: Frame, r: nat, col: nat)
    requires FitsScreen(f) && r < f.h && col < f.w
    ensures CursorAt(f, r, col).y < MaxY(f)
    ensures col + 1 < f.w ==> Advance(f, CursorAt(f, r, col)) == CursorAt(f, r, col + 1)
    ensures col + 1 == f.w && r + 1 < f.h ==> Advance(f, CursorAt(f, r, col)) == CursorAt(f, r + 1, 0)
    ensures col + 1 == f.w && r + 1 == f.h ==> Advance(f, CursorAt(f, r, col)).y >= MaxY(f)
  {
    hide SkipRows, SkipPasses, Row, StepAt, ParseAt, StartY, LineSize, MaxY;
    var c := RowCursorAt(f, r);
    RowInside(f, r);
    BelowMax(f, c.row);
    if col + 1 == f.w {
      var over := RowCursor(c.row + c.step, c.step, c.parse);
      StepInBytes(f, c);
      SkipAgrees(f, StartX(f), over);
      NextRow(f, r);
      BelowMax(f, SkipRows(f.h, over).row);
    }
  }

  lemma RowInside(f: Frame, r: nat)
    requires r < f.h
    ensures RowCursorAt(f, r).row < f.h
  {
    RowsOnce(f, r);
  }

  /** The cursor stands at its line and column, and below the frame when n is past the end. */
  lemma {:induction false} WalkPlace(f: Frame, n: nat)
    requires FitsScreen(f)
    ensures n < Area(f) ==> f.w > 0 && Walk(f, n) == CursorAt(f, Line(n, f.w), Col(n, f.w)) && Line(n, f.w) < f.h
    ensures n >= Area(f) ==> Walk(f, n).y >= MaxY(f)
  {
    hide Advance, CursorAt, MaxY, Walk, FitsScreen, At, Line, Col;
    if n == 0 {
      WalkStart(f);
    } else {
      WalkPlace(f, n - 1);
      if n - 1 < Area(f) {
        var line, col := Line(n - 1, f.w), Col(n - 1, f.w);
        WalkStep(f, n - 1, line, col);
        NextPlace(n - 1, f.w);
        PlaceAt(n, f.w);
        if col + 1 < f.w {
          AtInside(f.w, f.h, line, col + 1);
        } else if line + 1 < f.h {
          AtInside(f.w, f.h, line + 1, 0);
        }
      } else {
        WalkOver(f, n);
      }
    }
  }

  lemma WalkOver(f: Frame, n: nat)
    requires n > 0 && Walk(f, n - 1).y >= MaxY(f)
    ensures Walk(f, n) == Walk(f, n - 1)
  {
  }

  lemma WalkStep(f: Frame, n: nat, r: nat, col: nat)
    requires FitsScreen(f) && r < f.h && col < f.w && Walk(f, n) == CursorAt(f, r, col)
    ensures col + 1 < f.w ==> Walk(f, n + 1) == CursorAt(f, r, col + 1)
    ensures col + 1 == f.w && r + 1 < f.h ==> Walk(f, n + 1) == CursorAt(f, r + 1, 0)
    ensures col + 1 == f.w && r + 1 == f.h ==> Walk(f, n + 1).y >= MaxY(f)
  {
    hide Advance, CursorAt, MaxY;
    AdvanceInRow(f, r, col);
  }

  lemma WalkStart(f: Frame)
    requires FitsScreen(f)
    ensures 0 < Area(f) ==> f.w > 0 && Walk(f, 0) == CursorAt(f, Line(0, f.w), Col(0, f.w)) && Line(0, f.w) < f.h
    ensures 0 == Area(f) ==> Walk(f, 0).y >= MaxY(f)
  {
    AtIs(f.w, f.h, 0);
    if f.w == 0 {
    } else if f.h == 0 {
      assert MaxY(f) == StartY(f);
    } else {
      MulMono(1, f.h, f.w);
      FirstPlace(f.w);
    }
  }

  lemma FirstPlace(w: nat)
    requires w > 0
    ensures Line(0, w) == 0 && Col(0, w) == 0
  {
  }

  // ----- pixels -----

  /** Pixels of the screen, four bytes each, and which of them were touched. */
  datatype Scene = Scene(cursor: Cursor, out: seq<byte>, history: seq<byte>)

  predicate ValidScene(f: Frame, sc: Scene)
  {
    |sc.history| == At(f.width, f.height, 0) && |sc.out| == 4 * |sc.history|
  }

  /** A color map of 256 entries of four bytes. */
  type ColorMap = c: seq<byte> | |c| == 1024 witness seq(1024, i => 0)

  predicate Opaque(colors: ColorMap, v: byte)
  {
    colors[4 * v + 3] > 128
  }

  /** Byte k of a stored color: red and blue are exchanged. */
  function Channel(colors: ColorMap, v: nat, k: nat): byte
    requires v < 256 && k < 4
  {
    colors[4 * v + (if k == 3 then 3 else 2 - k)]
  }

  /** Stores a color, red and blue exchanged, unless it is transparent. */
  function Plot(colors: ColorMap, out: seq<byte>, idx: nat, v: byte): (r: seq<byte>)
    requires idx + 4 <= |out|
    ensures |r| == |out|
  {
    if Opaque(colors, v)
    then out[..idx] + [colors[4 * v + 2], colors[4 * v + 1], colors[4 * v], colors[4 * v + 3]] + out[idx + 4..]
    else out
  }

  /** One index. Below the frame nothing happens any more; idx beyond the screen cannot occur (WalkPixel). */
  function Draw(f: Frame, colors: ColorMap, sc: Scene, v: byte): (r: Scene)
    requires ValidScene(f, sc)
    ensures ValidScene(f, r)
  {
    var idx := sc.cursor.x + sc.cursor.y;
    if sc.cursor.y >= MaxY(f) || idx + 4 > |sc.out| then sc
    else Scene(Advance(f, sc.cursor), Plot(colors, sc.out, idx, v), sc.history[idx / 4 := 1])
  }

  function DrawAll(f: Frame, colors: ColorMap, sc: Scene, s: seq<byte>): (r: Scene)
    requires ValidScene(f, sc)
    ensures ValidScene(f, r)
  {
    if s == [] then sc else Draw(f, colors, DrawAll(f, colors, sc, s[..|s| - 1]), s[|s| - 1])
  }

  lemma {:induction false} DrawAllAppend(f: Frame, colors: ColorMap, sc: Scene, s: seq<byte>, t: seq<byte>)
    requires ValidScene(f, sc)
    ensures DrawAll(f, colors, DrawAll(f, colors, sc, s), t) == DrawAll(f, colors, sc, s + t)
  {
    hide Draw;
    if t == [] {
      assert s + t == s;
    } else {
      var n := |t| - 1;
      DrawAllAppend(f, colors, sc, s, t[..n]);
      assert (s + t)[..|s + t| - 1] == s + t[..n];
    }
  }

  /** The pixel of the screen that index number n goes to. */
  function PixelOf(f: Frame, n: nat): nat
    requires f.w > 0
  {
    At(f.width, f.y + Row(f, Line(n, f.w)), f.x + Col(n, f.w))
  }

  predicate InFrame(f: Frame, p: nat)
  {
    f.width > 0 && f.x <= Col(p, f.width) < f.x + f.w && f.y <= Line(p, f.width) < f.y + f.h
  }

  /** The number of the index that a pixel of the frame gets. */
  function NumberOf(f: Frame, p: nat): nat
    requires InFrame(f, p)
  {
    At(f.w, Rank(f, Line(p, f.width) - f.y), Col(p, f.width) - f.x)
  }

  lemma CursorPixel(f: Frame, n: nat)
    requires FitsScreen(f) && f.w > 0
    ensures var c := CursorAt(f, Line(n, f.w), Col(n, f.w)); c.x + c.y == 4 * PixelOf(f, n)
  {
    hide At, Row, StepAt, ParseAt, Line, Col;
    AtIs(f.width, f.y + Row(f, Line(n, f.w)), f.x + Col(n, f.w));
    FourTimes(f.y, Row(f, Line(n, f.w)), f.width);
  }

  lemma FourTimes(y: nat, row: nat, width: nat)
    ensures y * (4 * width) + row * (4 * width) == 4 * ((y + row) * width)
  {
    assert y * (4 * width) == 4 * (y * width);
    assert row * (4 * width) == 4 * (row * width);
    assert (y + row) * width == y * width + row * width;
  }

  /** Index n of the raster goes to a pixel of the frame, and that pixel gets no other index. */
  lemma PixelOnce(f: Frame, n: nat)
    requires FitsScreen(f) && n < Area(f)
    ensures f.w > 0 && InFrame(f, PixelOf(f, n)) && NumberOf(f, PixelOf(f, n)) == n
    ensures PixelOf(f, n) < At(f.width, f.height, 0)
  {
    hide Row, Rank, At, Line, Col;
    PlaceInside(n, f.w, f.h);
    var line, col := Line(n, f.w), Col(n, f.w);
    RowsOnce(f, line);
    AtPlace(f.width, f.y + Row(f, line), f.x + col);
    AtInside(f.width, f.height, f.y + Row(f, line), f.x + col);
    PlaceAt(n, f.w);
  }

  lemma NumberInside(f: Frame, p: nat)
    requires FitsScreen(f) && InFrame(f, p)
    ensures NumberOf(f, p) < Area(f) && PixelOf(f, NumberOf(f, p)) == p
  {
    hide Row, Rank, At, Line, Col;
    var y, col := Line(p, f.width) - f.y, Col(p, f.width) - f.x;
    RowsOnce(f, y);
    AtPlace(f.w, Rank(f, y), col);
    AtInside(f.w, f.h, Rank(f, y), col);
    PlaceAt(p, f.width);
  }

  /** Where the drawing stands behind a list of indices. */
  lemma {:induction false} DrawnCursor(f: Frame, colors: ColorMap, sc: Scene, s: seq<byte>)
    requires FitsScreen(f) && ValidScene(f, sc) && sc.cursor == FirstCursor(f)
    ensures DrawAll(f, colors, sc, s).cursor == Walk(f, |s|)
  {
    hide Advance, MaxY, Plot, FirstCursor;
    if s != [] {
      DrawnCursor(f, colors, sc, s[..|s| - 1]);
      WalkPixel(f, |s| - 1);
    }
  }

  /** The cursor points at a pixel of the screen or below the frame. */
  lemma WalkPixel(f: Frame, n: nat)
    requires FitsScreen(f)
    ensures var c := Walk(f, n); c.y < MaxY(f) <==> n < Area(f)
    ensures n < Area(f) ==> f.w > 0 && Walk(f, n).x + Walk(f, n).y == 4 * PixelOf(f, n)
    ensures n < Area(f) ==> PixelOf(f, n) < At(f.width, f.height, 0)
  {
    WalkPlace(f, n);
    hide Row, Rank, Walk, CursorAt, MaxY, At, Line, Col;
    if n < Area(f) {
      AdvanceInRow(f, Line(n, f.w), Col(n, f.w));
      CursorPixel(f, n);
      PixelOnce(f, n);
    }
  }

  /** Pixel p gets one of the first n indices. */
  predicate Reached(f: Frame, p: nat, n: nat)
  {
    InFrame(f, p) && NumberOf(f, p) < n
  }

  /** What byte q of the screen must be: the color of the index its pixel got, or what it was before. */
  function PaintedByte(f: Frame, colors: ColorMap, was: byte, s: seq<byte>, q: nat): byte
  {
    if Reached(f, q / 4, |s|) && Opaque(colors, s[NumberOf(f, q / 4)]) then
      Channel(colors, s[NumberOf(f, q / 4)], q % 4)
    else was
  }

  ghost predicate Painted(f: Frame, colors: ColorMap, before: Scene, s: seq<byte>, after: Scene)
  {
    && |after.out| == |before.out| && |after.history| == |before.history|
    && (forall q :: 0 <= q < |after.out| ==> after.out[q] == PaintedByte(f, colors, before.out[q], s, q))
    && (forall p :: 0 <= p < |after.history| ==>
                      after.history[p] == if Reached(f, p, |s|) then 1 else before.history[p])
  }

  lemma PlotAt(colors: ColorMap, out: seq<byte>, idx: nat, v: byte, q: nat)
    requires idx % 4 == 0 && idx + 4 <= |out| && q < |out|
    ensures Plot(colors, out, idx, v)[q] ==
      if q / 4 == idx / 4 && Opaque(colors, v)
      then Channel(colors, v, q % 4) else out[q]
  {
    hide Opaque;
    if q / 4 == idx / 4 {
      assert q == idx + q % 4;
    }
  }

  /** One more index paints one more pixel. */
  lemma PaintOne(f: Frame, colors: ColorMap, before: Scene, s: seq<byte>, mid: Scene, v: byte)
    requires FitsScreen(f) && ValidScene(f, before) && ValidScene(f, mid) && Painted(f, colors, before, s, mid)
    requires |s| < Area(f) && mid.cursor == Walk(f, |s|)
    ensures Painted(f, colors, before, s + [v], Draw(f, colors, mid, v))
  {
    WalkPixel(f, |s|);
    PixelOnce(f, |s|);
    hide Row, Rank, Walk, Advance, MaxY, Plot, PixelOf, InFrame, NumberOf, At, Line, Col, Opaque, PaintedByte, Reached, FitsScreen;
    var n, p0 := |s|, PixelOf(f, |s|);
    var after := Draw(f, colors, mid, v);
    assert after.out == Plot(colors, mid.out, 4 * p0, v);
    assert after.history == mid.history[p0 := 1];
    forall p: nat | p < |before.history|
      ensures Reached(f, p, n + 1) <==> Reached(f, p, n) || p == p0
    {
      OnePixelMore(f, p, n);
    }
    forall q: nat | q < |after.out|
      ensures after.out[q] == PaintedByte(f, colors, before.out[q], s + [v], q)
    {
      PaintByte(f, colors, before.out[q], s, v, q, mid.out);
    }
  }

  lemma PaintByte(f: Frame, colors: ColorMap, was: byte, s: seq<byte>, v: byte, q: nat, out: seq<byte>)
    requires FitsScreen(f) && f.w > 0 && |s| < Area(f) && 4 * PixelOf(f, |s|) + 4 <= |out|
    requires q < |out| && out[q] == PaintedByte(f, colors, was, s, q)
    ensures Plot(colors, out, 4 * PixelOf(f, |s|), v)[q] == PaintedByte(f, colors, was, s + [v], q)
  {
    PixelOnce(f, |s|);
    hide PixelOf, InFrame, NumberOf, At, Line, Col, Opaque, Plot, Channel, FitsScreen;
    PlotAt(colors, out, 4 * PixelOf(f, |s|), v, q);
    OnePixelMore(f, q / 4, |s|);
  }

  lemma OnePixelMore(f: Frame, p: nat, n: nat)
    requires FitsScreen(f) && n < Area(f) && f.w > 0
    ensures Reached(f, p, n + 1) <==> Reached(f, p, n) || p == PixelOf(f, n)
  {
    PixelOnce(f, n);
    if InFrame(f, p) {
      NumberInside(f, p);
    }
  }

  /** Drawing a raster gives every pixel of the frame the color of its own index and leaves the rest alone. */
  lemma {:induction false} DrawAllPaints(f: Frame, colors: ColorMap, before: Scene, s: seq<byte>)
    requires FitsScreen(f) && ValidScene(f, before) && before.cursor == FirstCursor(f)
    ensures Painted(f, colors, before, s, DrawAll(f, colors, before, s))
  {
    hide Row, Rank, Walk, Advance, MaxY, Plot, PixelOf, InFrame, NumberOf, At, Line, Col, Opaque, FirstCursor;
    if s != [] {
      var t, v := s[..|s| - 1], s[|s| - 1];
      DrawAllPaints(f, colors, before, t);
      DrawnCursor(f, colors, before, t);
      var mid := DrawAll(f, colors, before, t);
      if |t| < Area(f) {
        PaintOne(f, colors, before, t, mid, v);
        assert s == t + [v];
      } else {
        PaintNoMore(f, colors, before, t, mid, v);
        assert s == t + [v];
      }
    }
  }

  /** Surplus indices change nothing. */
  lemma PaintNoMore(f: Frame, colors: ColorMap, before: Scene, s: seq<byte>, mid: Scene, v: byte)
    requires FitsScreen(f) && ValidScene(f, before) && ValidScene(f, mid) && Painted(f, colors, before, s, mid)
    requires |s| >= Area(f) && mid.cursor == Walk(f, |s|)
    ensures Painted(f, colors, before, s + [v], Draw(f, colors, mid, v))
  {
    WalkPixel(f, |s|);
    hide Row, Rank, Walk, Advance, MaxY, Plot, PixelOf, InFrame, NumberOf, At, Line, Col, Opaque;
    forall p: nat ensures Reached(f, p, |s| + 1) <==> Reached(f, p, |s|) {
      if InFrame(f, p) {
        NumberInside(f, p);
      }
    }
  }
}
