/** The GIF raster decoder over tables and a bit buffer, proved against the meaning of its code stream. */
module GifRaster {
  import opened Bits
  import opened Grid
  import opened GifLzw
  import opened GifFrame

  // ----- sub-blocks (section 15 of GIF89a) -----

  function Chunk(input: seq<byte>, p: nat, n: nat): (r: seq<byte>)
    ensures |r| == n
  {
    seq<byte>(n, (i: nat) => ByteAt(input, p + i))
  }

  /** The data of the sub-blocks from p on, up to an empty one or the end of the input. */
  function Payload(input: seq<byte>, p: nat): seq<byte>
    decreases |input| - p
  {
    var n := ByteAt(input, p);
    if n == 0 then [] else Chunk(input, p + 1, n) + Payload(input, p + 1 + n)
  }

  /** The position behind the empty sub-block. */
  function PayloadEnd(input: seq<byte>, p: nat): nat
    decreases |input| - p
  {
    var n := ByteAt(input, p);
    if n == 0 then p + 1 else PayloadEnd(input, p + 1 + n)
  }

  /** What a raster that starts with its code size means. */
  function RasterMeaning(input: seq<byte>, p: nat): LzwResult
  {
    var cs := ByteAt(input, p);
    if cs > 12 then Corrupt else LzwDecode(cs, Unstarted(cs), BytesToBits(Payload(input, p + 1)), [])
  }

  // ----- an encoder for the container -----

  /** One sub-block: its size, then its data. */
  function SubBlock(data: seq<byte>): (b: seq<byte>)
    requires |data| <= 255
    ensures |b| == 1 + |data|
  {
    [|data|] + data
  }

  /** Sub-blocks of at most 255 bytes, and the empty one that ends them. */
  function Enblock(data: seq<byte>): seq<byte>
  {
    if data == [] then [0]
    else if |data| <= 255 then SubBlock(data) + [0]
    else SubBlock(data[..255]) + Enblock(data[255..])
  }

  lemma SubBlockParts(head: seq<byte>, data: seq<byte>, rest: seq<byte>)
    requires |data| <= 255
    ensures var input := head + (SubBlock(data) + rest);
      ByteAt(input, |head|) == |data| && Chunk(input, |head| + 1, |data|) == data
  {
    var input := head + (SubBlock(data) + rest);
    var r := Chunk(input, |head| + 1, |data|);
    forall i: nat | i < |data| ensures r[i] == data[i] {
      assert input[|head| + 1 + i] == (SubBlock(data) + rest)[1 + i] == data[i];
      assert r[i] == ByteAt(input, |head| + 1 + i);
    }
  }

  lemma PayloadStep(input: seq<byte>, p: nat)
    requires ByteAt(input, p) > 0
    ensures Payload(input, p) == Chunk(input, p + 1, ByteAt(input, p)) + Payload(input, p + 1 + ByteAt(input, p))
    ensures PayloadEnd(input, p) == PayloadEnd(input, p + 1 + ByteAt(input, p))
  {
  }

  lemma OneBlock(input: seq<byte>, head: seq<byte>, data: seq<byte>, rest: seq<byte>)
    requires 1 <= |data| <= 255 && input == head + (SubBlock(data) + rest)
    ensures Payload(input, |head|) == data + Payload(input, |head| + 1 + |data|)
    ensures PayloadEnd(input, |head|) == PayloadEnd(input, |head| + 1 + |data|)
  {
    hide Chunk, Payload, PayloadEnd, SubBlock, ByteAt;
    SubBlockParts(head, data, rest);
    PayloadStep(input, |head|);
  }

  /** Reading sub-blocks undoes writing them. */
  lemma {:induction false} BlocksUndone(head: seq<byte>, data: seq<byte>, rest: seq<byte>)
    ensures Payload(head + (Enblock(data) + rest), |head|) == data
    ensures PayloadEnd(head + (Enblock(data) + rest), |head|) == |head| + |Enblock(data)|
    decreases |data|
  {
    hide Chunk, SubBlock;
    var input := head + (Enblock(data) + rest);
    if data == [] {
    } else if |data| <= 255 {
      assert input == head + (SubBlock(data) + ([0] + rest));
      OneBlock(input, head, data, [0] + rest);
    } else {
      var block := data[..255];
      var tail := Enblock(data[255..]) + rest;
      assert input == head + (SubBlock(block) + tail);
      OneBlock(input, head, block, tail);
      var head' := head + SubBlock(block);
      assert input == head' + tail;
      BlocksUndone(head', data[255..], rest);
      assert data == block + data[255..];
    }
  }

  /** A raster as a GIF file holds it. */
  function RasterBytes(cs: nat, limit: nat, s: seq<byte>): seq<byte>
    requires cs <= 8 && ClearCode(cs) + 2 < limit && AllBelow(s, ClearCode(cs))
  {
    [cs] + Enblock(Pack(LzwStream(cs, limit, s)))
  }

  /** Decoding a raster gives back the color indices it was made from, and ends right behind it. */
  lemma RasterUndone(head: seq<byte>, cs: nat, limit: nat, s: seq<byte>, rest: seq<byte>)
    requires 2 <= cs <= 8 && ClearCode(cs) + 2 < limit <= MAX_CODES + 1 && AllBelow(s, ClearCode(cs))
    ensures var bytes := RasterBytes(cs, limit, s);
      RasterMeaning(head + bytes + rest, |head|) == Image(s)
      && PayloadEnd(head + bytes + rest, |head| + 1) == |head + bytes|
  {
    hide Pack, LzwStream, Enblock, Payload, PayloadEnd, BytesToBits, LzwDecode;
    var bits := LzwStream(cs, limit, s);
    var input := head + RasterBytes(cs, limit, s) + rest;
    assert input == head + [cs] + (Enblock(Pack(bits)) + rest);
    BlocksUndone(head + [cs], Pack(bits), rest);
    PackKeeps(bits);
    var packed := BytesToBits(Pack(bits));
    StreamUndone(cs, limit, s, packed[|bits|..]);
    assert bits + packed[|bits|..] == packed;
  }

  /** A raster with any code stream means what the stream means. */
  lemma StreamMeaning(head: seq<byte>, cs: nat, bits: seq<bit>, rest: seq<byte>)
    requires cs <= 12
    ensures RasterMeaning(head + ([cs] + Enblock(Pack(bits))) + rest, |head|)
         == LzwDecode(cs, Unstarted(cs), BytesToBits(Pack(bits)), [])
  {
    hide Pack, Enblock, Payload, BytesToBits, LzwDecode;
    assert head + ([cs] + Enblock(Pack(bits))) + rest == head + [cs] + (Enblock(Pack(bits)) + rest);
    BlocksUndone(head + [cs], Pack(bits), rest);
  }

  /** A raster that lacks only its leading clear code is rejected, whatever indices it holds. */
  lemma RasterNeedsClear(head: seq<byte>, cs: nat, limit: nat, s: seq<byte>, rest: seq<byte>)
    requires 2 <= cs <= 8 && ClearCode(cs) + 2 < limit && AllBelow(s, ClearCode(cs)) && s != []
    ensures RasterMeaning(head + ([cs] + Enblock(Pack(LzwEncode(cs, limit, 0, [], s)))) + rest, |head|) == Corrupt
  {
    hide Pack, LzwEncode, Enblock, BytesToBits, LzwDecode, RasterMeaning;
    var bits := LzwEncode(cs, limit, 0, [], s);
    StreamMeaning(head, cs, bits, rest);
    PackKeeps(bits);
    var packed := BytesToBits(Pack(bits));
    CodingNeedsClear(cs, limit, s, packed[|bits|..]);
    assert bits + packed[|bits|..] == packed;
  }

  /** Such a raster, of one pixel of color 0: the codes 0 and end, three bits each. */
  lemma OnePixelNeedsClear()
    ensures RasterMeaning([2, 1, 40, 0], 0) == Corrupt
  {
    hide LzwDecode, FromBits, ToBits, BytesToBits;
    var input: seq<byte> := [2, 1, 40, 0];
    var chunk := Chunk(input, 2, 1);
    assert chunk == [40] by {
      assert chunk[0] == ByteAt(input, 2);
    }
    PayloadStep(input, 1);
    assert Payload(input, 3) == [];
    assert Payload(input, 1) == [40];
    OneByteBits(40);
    Pow2Values();
    ToBitsTake(40, 3, 8);
    FromToBits(0, 3);
    NoClearYet(2, ToBits(40, 8));
  }

  // ----- the bit buffer -----

  /** The input still to come: the rest of the current sub-block, then the other ones. */
  function Remaining(input: seq<byte>, pos: nat, len: nat): seq<byte>
  {
    Chunk(input, pos, len) + Payload(input, pos + len)
  }

  /** The bits still to be decoded. */
  function Todo(input: seq<byte>, pos: nat, len: nat, bits: nat, valid: nat): seq<bit>
  {
    ToBits(bits, valid) + BytesToBits(Remaining(input, pos, len))
  }

  lemma NextBlock(input: seq<byte>, pos: nat)
    requires pos <= |input|
    ensures ByteAt(input, pos) == 0 ==> Remaining(input, pos, 0) == []
    ensures ByteAt(input, pos) == 0 && PayloadEnd(input, pos) <= |input| ==> PayloadEnd(input, pos) == pos + 1
    ensures ByteAt(input, pos) > 0 ==>
      Remaining(input, pos, 0) == Remaining(input, pos + 1, ByteAt(input, pos))
      && PayloadEnd(input, pos) == PayloadEnd(input, pos + 1 + ByteAt(input, pos))
  {
    assert Chunk(input, pos, 0) == [];
  }

  lemma {:induction false} PayloadPast(input: seq<byte>, p: nat)
    requires p >= |input|
    ensures Payload(input, p) == [] && PayloadEnd(input, p) > |input|
  {
  }

  lemma ChunkHead(input: seq<byte>, pos: nat, len: nat)
    requires len > 0 && pos <= |input|
    ensures Chunk(input, pos, len) == [ByteAt(input, pos)] + Chunk(input, After(input, pos), len - 1)
  {
    var tail := Chunk(input, After(input, pos), len - 1);
    forall i: nat | i < len ensures Chunk(input, pos, len)[i] == ([ByteAt(input, pos)] + tail)[i] {
      if i > 0 {
        assert tail[i - 1] == ByteAt(input, After(input, pos) + (i - 1));
      }
    }
  }

  lemma NextByte(input: seq<byte>, pos: nat, len: nat)
    requires len > 0 && pos <= |input|
    ensures Remaining(input, pos, len) == [ByteAt(input, pos)] + Remaining(input, After(input, pos), len - 1)
    ensures PayloadEnd(input, After(input, pos) + (len - 1)) <= |input| ==>
      PayloadEnd(input, pos + len) == PayloadEnd(input, After(input, pos) + (len - 1))
    ensures PayloadEnd(input, pos + len) <= |input| ==>
      PayloadEnd(input, pos + len) == PayloadEnd(input, After(input, pos) + (len - 1))
  {
    hide Payload, PayloadEnd;
    ChunkHead(input, pos, len);
    if pos == |input| {
      PayloadPast(input, pos + len);
      PayloadPast(input, pos + len - 1);
    }
  }

  /** Or-ing a byte in above the buffered bits. */
  lemma TakeByte(bits: nat, valid: nat, v: byte, rest: seq<byte>)
    requires bits < Pow2(valid)
    ensures Or(bits, Shl(v, valid)) < Pow2(valid + 8)
    ensures ToBits(bits, valid) + BytesToBits([v] + rest)
         == ToBits(Or(bits, Shl(v, valid)), valid + 8) + BytesToBits(rest)
  {
    hide Or, Shl, BytesToBits, ToBits, Pow2;
    OrDisjoint(bits, v, valid);
    ShlIsMul(v, valid);
    ToBitsAppend(bits, v, valid, 8);
    Pow2Add(valid, 8);
    Pow2Values();
    AppendBound(bits, v, Pow2(valid));
    BytesToBitsAppend([v], rest);
    OneByteBits(v);
  }

  /** The lowest bits of the buffer are the next code. */
  lemma TakeCode(bits: nat, valid: nat, width: nat, rest: seq<bit>)
    requires bits < Pow2(valid) && width <= valid
    ensures var todo := ToBits(bits, valid) + rest;
      FromBits(todo[..width]) == And(bits, Pow2(width) - 1)
      && todo[width..] == ToBits(Shr(bits, width), valid - width) + rest
    ensures Shr(bits, width) < Pow2(valid - width)
  {
    hide And, Shr, ToBits, FromBits, Pow2;
    var todo := ToBits(bits, valid) + rest;
    ToBitsTake(bits, width, valid);
    ToBitsDrop(bits, width, valid);
    FromToBits(bits, width);
    AndMask(bits, width);
    ShrBound(bits, width, valid);
    assert todo[..width] == ToBits(bits, valid)[..width];
  }

  // ----- the decoder -----

  // ----- the string table -----

  /** One row of the table: the string of a code is the string of its prefix, a smaller code, plus a last
      index; `first` is its first index. Single indices have no prefix. */
  ghost predicate RowHolds(clear: nat, dict: seq<Word>, c: nat, p: int, f: byte, last: byte)
    requires Known(clear, dict, c)
  {
    if c < clear then p == -1 && f == U8(c) && last == U8(c)
    else
      && 0 <= p < c && Known(clear, dict, p)
      && Entry(clear, dict, c) == Entry(clear, dict, p) + [last] && f == Entry(clear, dict, c)[0]
  }

  ghost predicate TableHolds(clear: nat, dict: seq<Word>, prefix: seq<int>, first: seq<byte>, suffix: seq<byte>)
  {
    && |prefix| == |first| == |suffix| == MAX_CODES && Avail(clear, dict) <= MAX_CODES
    && forall c: nat {:trigger prefix[c]} :: Known(clear, dict, c) ==> RowHolds(clear, dict, c, prefix[c], first[c], suffix[c])
  }

  lemma FirstIs(clear: nat, dict: seq<Word>, prefix: seq<int>, first: seq<byte>, suffix: seq<byte>, c: nat)
    requires TableHolds(clear, dict, prefix, first, suffix) && Known(clear, dict, c)
    ensures first[c] == Entry(clear, dict, c)[0]
  {
    assert RowHolds(clear, dict, c, prefix[c], first[c], suffix[c]);
  }

  lemma RowKept(clear: nat, dict: seq<Word>, w: Word, c: nat, p: int, f: byte, last: byte)
    requires Known(clear, dict, c) && RowHolds(clear, dict, c, p, f, last)
    ensures Known(clear, dict + [w], c) && RowHolds(clear, dict + [w], c, p, f, last)
  {
  }

  /** A new row for the previous string plus the first index of the resolved one. The code is never the next free
      one behind the new row. */
  lemma TableGrows(clear: nat, dict: seq<Word>, prefix: seq<int>, first: seq<byte>, suffix: seq<byte>,
                   oldcode: nat, code: nat, str: Word)
    requires TableHolds(clear, dict, prefix, first, suffix) && Avail(clear, dict) < MAX_CODES
    requires Known(clear, dict, oldcode) && str == Resolve(clear, dict, Entry(clear, dict, oldcode), code)
    ensures code <= Avail(clear, dict) && code != Avail(clear, dict) + 1
    ensures var avail := Avail(clear, dict);
      var first' := first[avail := first[oldcode]];
      TableHolds(clear, dict + [Entry(clear, dict, oldcode) + [str[0]]], prefix[avail := oldcode], first',
                 suffix[avail := first'[code]])
  {
    hide RowHolds, U8;
    var avail := Avail(clear, dict);
    var w: Word := Entry(clear, dict, oldcode) + [str[0]];
    var first' := first[avail := first[oldcode]];
    var prefix', suffix' := prefix[avail := oldcode], suffix[avail := first'[code]];
    FirstIs(clear, dict, prefix, first, suffix, oldcode);
    if code != avail {
      FirstIs(clear, dict, prefix, first, suffix, code);
    }
    NewRow(clear, dict, oldcode, w, first'[code]);
    forall c: nat | Known(clear, dict + [w], c)
      ensures RowHolds(clear, dict + [w], c, prefix'[c], first'[c], suffix'[c])
    {
      if c != avail {
        assert prefix[c] == prefix'[c];
        RowKept(clear, dict, w, c, prefix[c], first[c], suffix[c]);
      }
    }
  }

  lemma NewRow(clear: nat, dict: seq<Word>, oldcode: nat, w: Word, last: byte)
    requires Known(clear, dict, oldcode) && w == Entry(clear, dict, oldcode) + [last]
    ensures RowHolds(clear, dict + [w], Avail(clear, dict), oldcode, Entry(clear, dict, oldcode)[0], last)
  {
  }

  /** The decoder's variables: the table fill, the previous code and the code width. */
  datatype Vars = Vars(first: bool, codesize: nat, avail: nat, oldcode: int)

  class Gif {
    const input: seq<byte>
    var pos: nat
    const prefix: array<int>
    const first: array<byte>
    const suffix: array<byte>
    const frame: Frame
    const colors: ColorMap
    var cur_x: nat
    var cur_y: nat
    var step: nat
    var parse: nat
    const out: array<byte>
    const history: array<byte>

    ghost predicate Valid()
      reads this`pos
    {
      && pos <= |input| && FitsScreen(frame)
      && prefix.Length == MAX_CODES && first.Length == MAX_CODES && suffix.Length == MAX_CODES
      && first != suffix && out != history && {first, suffix} !! {out, history}
      && history.Length == At(frame.width, frame.height, 0) && out.Length == 4 * history.Length
    }

    ghost function Drawing(): (sc: Scene)
      requires Valid()
      reads this, out, history
      ensures ValidScene(frame, sc)
    {
      Scene(Cursor(cur_x, cur_y, step, parse), out[..], history[..])
    }

    /** Starts a frame on a screen with the given pixels. */
    constructor (input: seq<byte>, pos: nat, frame: Frame, colors: ColorMap, pixels: seq<byte>, touched: seq<byte>)
      requires pos <= |input| && FitsScreen(frame)
      requires |touched| == At(frame.width, frame.height, 0) && |pixels| == 4 * |touched|
      ensures Valid() && this.input == input && this.pos == pos && this.frame == frame && this.colors == colors
      ensures Drawing() == Scene(FirstCursor(frame), pixels, touched)
      ensures fresh(out) && fresh(history) && fresh(prefix) && fresh(first) && fresh(suffix)
    {
      this.input, this.pos, this.frame, this.colors := input, pos, frame, colors;
      prefix, first, suffix := new int[MAX_CODES], new byte[MAX_CODES], new byte[MAX_CODES];
      var n := |touched|;
      out, history := new byte[4 * n], new byte[n];
      cur_x := StartX(frame);
      cur_y := if frame.w == 0 then MaxY(frame) else StartY(frame);
      step := if frame.interlaced then 8 * LineSize(frame) else LineSize(frame);
      parse := if frame.interlaced then 3 else 0;
      new;
      forall i | 0 <= i < |pixels| {
        out[i] := pixels[i];
      }
      forall i | 0 <= i < n {
        history[i] := touched[i];
      }
      assert out[..] == pixels && history[..] == touched;
    }

    method Get8() returns (v: byte)
      requires Valid()
      modifies this`pos
      ensures Valid() && v == ByteAt(input, old(pos)) && pos == After(input, old(pos))
    {
      if pos < |input| {
        v := input[pos];
        pos := pos + 1;
      } else {
        v := 0;
      }
    }

    // ----- drawing -----

    /** Draws one index at the cursor and moves the cursor on. */
    method DrawIndex(v: byte)
      requires Valid()
      modifies this`cur_x, this`cur_y, this`step, this`parse, out, history
      ensures Valid() && Drawing() == Draw(frame, colors, old(Drawing()), v)
    {
      if cur_y >= MaxY(frame) || cur_x + cur_y + 4 > out.Length {
        return;
      }
      var idx := cur_x + cur_y;
      PlotIndex(idx, v);
      MarkTouched(idx / 4);
      MoveOn();
    }

    method PlotIndex(idx: nat, v: byte)
      requires Valid() && idx + 4 <= out.Length
      modifies out
      ensures out[..] == Plot(colors, old(out[..]), idx, v)
    {
      hide LineSize, StartX, StartY, MaxX, MaxY, FitsScreen, At, Gif.Valid;
      if colors[4 * v + 3] > 128 {
        out[idx] := colors[4 * v + 2];
        out[idx + 1] := colors[4 * v + 1];
        out[idx + 2] := colors[4 * v];
        out[idx + 3] := colors[4 * v + 3];
      }
    }

    method MarkTouched(i: nat)
      requires Valid() && i < history.Length
      modifies history
      ensures history[..] == old(history[..])[i := 1]
    {
      history[i] := 1;
    }

    method MoveOn()
      modifies this`cur_x, this`cur_y, this`step, this`parse
      ensures Cursor(cur_x, cur_y, step, parse) == Advance(frame, old(Cursor(cur_x, cur_y, step, parse)))
    {
      hide LineSize, StartX, StartY, MaxX, MaxY;
      cur_x := cur_x + 4;
      if cur_x >= MaxX(frame) {
        cur_x := StartX(frame);
        cur_y := cur_y + step;
        ghost var c := Cursor(cur_x, cur_y, step, parse);
        while cur_y >= MaxY(frame) && parse > 0
          invariant SkipPasses(frame, Cursor(cur_x, cur_y, step, parse)) == SkipPasses(frame, c)
          decreases parse
        {
          step := Shl(1, parse) * LineSize(frame);
          cur_y := StartY(frame) + Shr(step, 1);
          parse := parse - 1;
        }
      }
    }

    // ----- strings -----

    ghost predicate Tables(clear: nat, dict: seq<Word>)
      reads prefix, first, suffix
    {
      TableHolds(clear, dict, prefix[..], first[..], suffix[..])
    }

    /** Emits the string of a code: the prefix first, by recursion, then the last index. Prefixes have
        smaller codes, so the recursion ends. */
    method OutGifCode(code: nat, ghost clear: nat, ghost dict: seq<Word>)
      requires Valid() && Tables(clear, dict) && Known(clear, dict, code)
      modifies this`cur_x, this`cur_y, this`step, this`parse, out, history
      ensures Valid() && Tables(clear, dict)
      ensures Drawing() == DrawAll(frame, colors, old(Drawing()), Entry(clear, dict, code))
      decreases code
    {
      hide Draw, FitsScreen, At, ClearCode;
      ghost var str := Entry(clear, dict, code);
      assert RowHolds(clear, dict, code, prefix[..][code], first[..][code], suffix[..][code]);
      if prefix[code] >= 0 {
        OutGifCode(prefix[code], clear, dict);
        assert str[..|str| - 1] == Entry(clear, dict, prefix[code]);
      } else {
        assert str[..|str| - 1] == [];
      }
      DrawIndex(suffix[code]);
    }

    method StoreRow(c: nat, p: int, f: byte, last: byte)
      requires Valid() && c < MAX_CODES
      modifies prefix, first, suffix
      ensures prefix[..] == old(prefix[..])[c := p] && first[..] == old(first[..])[c := f]
      ensures suffix[..] == old(suffix[..])[c := last]
    {
      hide At, FitsScreen;
      prefix[c] := p;
      first[c] := f;
      suffix[c] := last;
    }

    method InitRoots(clear: nat)
      requires Valid() && clear <= 4096
      modifies prefix, first, suffix
      ensures Tables(clear, [])
    {
      hide At, FitsScreen, U8;
      var init_code := 0;
      while init_code < clear
        invariant init_code <= clear
        invariant forall c: nat {:trigger prefix[..][c]} :: c < init_code ==>
            RowHolds(clear, [], c, prefix[..][c], first[..][c], suffix[..][c])
      {
        StoreRow(init_code, -1, U8(init_code), U8(init_code));
        init_code := init_code + 1;
      }
    }

    /** Adds the entry for the previous string plus the first index of the new one. The source compares the
        code with the free code after counting it up, which never holds; when the code is the new entry itself
        it reads the first index just stored there, as here. */
    method AddEntry(avail: nat, oldcode: nat, code: nat, ghost clear: nat, ghost dict: seq<Word>, ghost str: Word)
      requires Valid() && Tables(clear, dict) && avail == Avail(clear, dict) < MAX_CODES
      requires Known(clear, dict, oldcode) && str == Resolve(clear, dict, Entry(clear, dict, oldcode), code)
      modifies prefix, first, suffix
      ensures Tables(clear, dict + [Entry(clear, dict, oldcode) + [str[0]]])
    {
      TableGrows(clear, dict, prefix[..], first[..], suffix[..], oldcode, code, str);
      hide At, FitsScreen, TableHolds, Entry, Resolve, Known;
      StoreRow(avail, oldcode, first[oldcode], if code == avail then first[oldcode] else first[code]);
    }

    // ----- one code -----

    /** The variables agree with the state of the meaning. */
    ghost predicate Agrees(clear: nat, st: LzwState, v: Vars)
      reads prefix, first, suffix
    {
      && Tables(clear, st.dict)
      && v.first == !st.started && v.codesize == st.width && v.avail == Avail(clear, st.dict)
      && (st.last == [] <==> v.oldcode < 0)
      && (v.oldcode >= 0 ==> Known(clear, st.dict, v.oldcode) && Entry(clear, st.dict, v.oldcode) == st.last)
    }

    /** Whether the test of the free code against the mask says that codes get wider. */
    lemma GrowTest(width: nat, avail: nat)
      ensures And(avail, Pow2(width) - 1) == 0 && avail <= 0xFFF <==> Grow(width, avail) != width
    {
      AndMask(avail, width);
    }

    /** A code that is neither the clear code nor the end code. */
    method DataCode(v: Vars, code: nat, ghost clear: nat, ghost st: LzwState) returns (ok: bool, v': Vars)
      requires Valid() && Agrees(clear, st, v) && code != clear && code != clear + 1
      modifies prefix, first, suffix, this`cur_x, this`cur_y, this`step, this`parse, out, history
      ensures Valid() && pos == old(pos)
      ensures var str := Resolve(clear, st.dict, st.last, code);
        && ok == (str != [] && st.started && HasRoom(clear, st))
        && (ok ==> Agrees(clear, Learn(clear, st, str), v'))
        && (ok ==> Drawing() == DrawAll(frame, colors, old(Drawing()), str))
    {
      hide At, FitsScreen, U8, Tables, DrawAll, And, Grow, Pow2;
      ok, v' := false, v;
      if code > v.avail {
        return;
      }
      if v.first {
        return;
      }
      ghost var str := Resolve(clear, st.dict, st.last, code);
      ghost var dict := st.dict;
      var avail := v.avail;
      if v.oldcode >= 0 {
        avail := avail + 1;
        if avail > MAX_CODES {
          return;
        }
        AddEntry(v.avail, v.oldcode, code, clear, st.dict, str);
        dict := st.dict + [st.last + [str[0]]];
      } else if code == v.avail {
        return;
      }
      NewEntryIs(clear, st, code, dict);
      OutGifCode(code, clear, dict);
      GrowTest(v.codesize, avail);
      var codesize := v.codesize;
      if And(avail, Pow2(codesize) - 1) == 0 && avail <= 0xFFF {
        codesize := codesize + 1;
      }
      GrowIs(v.codesize, avail, codesize);
      ok, v' := true, Vars(false, codesize, avail, code);
    }

    lemma GrowIs(width: nat, avail: nat, next: nat)
      requires next == if Grow(width, avail) != width then width + 1 else width
      ensures next == Grow(width, avail)
    {
    }

    /** In the table with the new entry, the code has the string it was resolved to. */
    lemma NewEntryIs(clear: nat, st: LzwState, code: nat, dict: seq<Word>)
      requires Resolve(clear, st.dict, st.last, code) != []
      requires var str := Resolve(clear, st.dict, st.last, code);
        dict == if st.last == [] then st.dict else st.dict + [st.last + [str[0]]]
      ensures Known(clear, dict, code) && Entry(clear, dict, code) == Resolve(clear, st.dict, st.last, code)
    {
    }

    // ----- the raster -----

    /** Where the input cursor must be at the end. */
    ghost predicate AtEnd(end: nat)
      reads this`pos
    {
      end <= |input| ==> pos == end
    }

    /** Skips what is left of the current sub-block and all further ones. */
    method SkipBlocks(len: nat)
      requires Valid()
      modifies this`pos
      ensures Valid() && AtEnd(PayloadEnd(input, old(pos) + len))
    {
      hide At, FitsScreen;
      var p := pos + len;
      ghost var end := PayloadEnd(input, p);
      var n := if p < |input| then input[p] else 0;
      while n > 0
        invariant n == ByteAt(input, p) && PayloadEnd(input, p) == end
        decreases |input| - p
      {
        p := p + 1 + n;
        n := if p < |input| then input[p] else 0;
      }
      pos := if p < |input| then p + 1 else |input|;
    }

    /** Puts the next input byte on top of the buffered bits; more is false behind the last sub-block. */
    method FillBits(len: nat, bits: nat, valid: nat) returns (more: bool, len': nat, bits': nat)
      requires Valid() && bits < Pow2(valid)
      modifies this`pos
      ensures Valid() && old(pos) <= pos
      ensures !more ==> Todo(input, old(pos), len, bits, valid) == ToBits(bits, valid)
      ensures !more ==> AtEnd(PayloadEnd(input, old(pos) + len))
      ensures more ==> bits' < Pow2(valid + 8) && (pos > old(pos) || len' < len)
      ensures more ==> Todo(input, pos, len', bits', valid + 8) == Todo(input, old(pos), len, bits, valid)
      ensures more && PayloadEnd(input, old(pos) + len) <= |input| ==>
        PayloadEnd(input, pos + len') == PayloadEnd(input, old(pos) + len)
    {
      hide At, FitsScreen, Payload, PayloadEnd, Chunk, ToBits, BytesToBits, Pow2, Or, Shl;
      more, len', bits' := true, len, bits;
      if len == 0 {
        NextBlock(input, pos);
        len' := Get8();
        if len' == 0 {
          more := false;
          NoBits();
          return;
        }
      }
      NextByte(input, pos, len');
      ghost var rest := Remaining(input, After(input, pos), len' - 1);
      TakeByte(bits, valid, ByteAt(input, pos), rest);
      len' := len' - 1;
      var v := Get8();
      bits' := Or(bits, Shl(v, valid));
    }

    lemma NoBits()
      ensures BytesToBits([]) == []
    {
    }

    /** What the loop of the raster keeps: the buffered bits, then the input, are the bits to be decoded. */
    ghost predicate Buffered(todo: seq<bit>, len: nat, bits: nat, valid: nat, end: nat)
      reads this`pos
    {
      && bits < Pow2(valid) && todo == Todo(input, pos, len, bits, valid)
      && (end <= |input| ==> PayloadEnd(input, pos + len) == end)
    }

    lemma StartBuffered(p: nat)
      requires p <= |input| && pos == After(input, p)
      ensures Buffered(BytesToBits(Payload(input, p + 1)), 0, 0, 0, PayloadEnd(input, p + 1))
    {
      if p == |input| {
        PayloadPast(input, p);
        PayloadPast(input, p + 1);
      }
      hide Payload, PayloadEnd;
      assert Remaining(input, pos, 0) == Payload(input, pos);
      assert ToBits(0, 0) == [];
    }

    /** Takes one code out of the buffered bits. */
    lemma CodeTaken(todo: seq<bit>, len: nat, bits: nat, valid: nat, end: nat, width: nat)
      requires Buffered(todo, len, bits, valid, end) && width <= valid
      ensures |todo| >= width && FromBits(todo[..width]) == And(bits, Pow2(width) - 1)
      ensures Buffered(todo[width..], len, Shr(bits, width), valid - width, end)
    {
      hide And, Shr, FromBits, ToBits, BytesToBits, PayloadEnd, Pow2, Remaining;
      TakeCode(bits, valid, width, BytesToBits(Remaining(input, pos, len)));
    }

    lemma FilledStays(todo: seq<bit>, len: nat, bits: nat, valid: nat, end: nat, p: nat, len': nat, bits': nat)
      requires bits < Pow2(valid) && todo == Todo(input, p, len, bits, valid)
      requires end <= |input| ==> PayloadEnd(input, p + len) == end
      requires bits' < Pow2(valid + 8) && Todo(input, pos, len', bits', valid + 8) == Todo(input, p, len, bits, valid)
      requires PayloadEnd(input, p + len) <= |input| ==> PayloadEnd(input, pos + len') == PayloadEnd(input, p + len)
      ensures Buffered(todo, len', bits', valid + 8, end)
    {
    }

    /** What one code means. */
    lemma CodeMeaning(cs: nat, st: LzwState, todo: seq<bit>, s: seq<byte>, code: nat)
      requires 1 <= st.width <= |todo| && FromBits(todo[..st.width]) == code
      ensures code == ClearCode(cs) ==> LzwDecode(cs, st, todo, s) == LzwDecode(cs, Fresh(cs), todo[st.width..], s)
      ensures code == ClearCode(cs) + 1 ==> LzwDecode(cs, st, todo, s) == Image(s)
      ensures code != ClearCode(cs) && code != ClearCode(cs) + 1 ==>
        var str := Resolve(ClearCode(cs), st.dict, st.last, code);
        if str == [] || !st.started || !HasRoom(ClearCode(cs), st) then LzwDecode(cs, st, todo, s) == Corrupt
        else
          var st' := Learn(ClearCode(cs), st, str);
          st'.width >= 1 && LzwDecode(cs, st, todo, s) == LzwDecode(cs, st', todo[st.width..], s + str)
    {
      hide FromBits, Resolve, HasRoom, ClearCode;
    }

    lemma OutOfData(cs: nat, st: LzwState, todo: seq<bit>, s: seq<byte>)
      requires 1 <= st.width && |todo| < st.width
      ensures LzwDecode(cs, st, todo, s) == Image(s)
    {
    }

    lemma FreshAgrees(cs: nat, started: bool, dict: seq<Word>)
      requires Valid() && Tables(ClearCode(cs), dict)
      ensures Agrees(ClearCode(cs), LzwState(started, cs + 1, [], []), Vars(!started, cs + 1, ClearCode(cs) + 2, -1))
    {
      hide ClearCode;
      var clear := ClearCode(cs);
      forall c: nat {:trigger prefix[..][c]} | Known(clear, [], c)
        ensures RowHolds(clear, [], c, prefix[..][c], first[..][c], suffix[..][c])
      {
        assert Known(clear, dict, c);
      }
    }

    /** Decodes a raster into the frame. */
    method ProcessRaster() returns (ok: bool)
      requires Valid()
      modifies this`pos, prefix, first, suffix, this`cur_x, this`cur_y, this`step, this`parse, out, history
      ensures Valid()
      ensures match RasterMeaning(input, old(pos))
        case Corrupt => !ok
        case Image(s) =>
          ok && Drawing() == DrawAll(frame, colors, old(Drawing()), s) && AtEnd(PayloadEnd(input, old(pos) + 1))
    {
      hide At, FitsScreen, Payload, PayloadEnd, BytesToBits, Tables, LzwDecode, Pow2, ToBits, FromBits, And, Shr, Shl,
        Resolve, Learn, Agrees, Todo, DrawAll, HasRoom, Buffered, ClearCode;
      ghost var sc, spec := Drawing(), RasterMeaning(input, pos);
      ghost var p, end := pos, PayloadEnd(input, pos + 1);
      var lzw_cs := Get8();
      if lzw_cs > 12 {
        return false;
      }
      ClearInTable(lzw_cs);
      var clear := Shl(1, lzw_cs);
      InitRoots(clear);
      var v := Vars(true, lzw_cs + 1, clear + 2, -1);
      var len: nat, bits: nat, valid: nat := 0, 0, 0;
      ghost var st, todo, s := Unstarted(lzw_cs), BytesToBits(Payload(input, p + 1)), [];
      StartBuffered(p);
      FreshAgrees(lzw_cs, false, []);
      NothingDrawn(sc);
      while true
        invariant Valid() && st.width >= 1 && Agrees(clear, st, v) && Buffered(todo, len, bits, valid, end)
        invariant LzwDecode(lzw_cs, st, todo, s) == spec && Drawing() == DrawAll(frame, colors, sc, s)
        decreases |input| - pos, len, valid
      {
        WidthAgrees(clear, st, v);
        if valid < v.codesize {
          BufferedIs(todo, len, bits, valid, end);
          ghost var pos0, len0, bits0 := pos, len, bits;
          var more;
          more, len, bits := FillBits(len, bits, valid);
          if !more {
            OutOfData(lzw_cs, st, todo, s);
            return true;
          }
          FilledStays(todo, len0, bits0, valid, end, pos0, len, bits);
          valid := valid + 8;
        } else {
          CodeTaken(todo, len, bits, valid, end, v.codesize);
          var code := And(bits, Mask(v.codesize));
          bits := Shr(bits, v.codesize);
          valid := valid - v.codesize;
          CodeMeaning(lzw_cs, st, todo, s, code);
          todo := todo[v.codesize..];
          if code == clear {
            TablesOf(clear, st, v);
            FreshAgrees(lzw_cs, true, st.dict);
            st, v := Fresh(lzw_cs), Vars(false, lzw_cs + 1, clear + 2, -1);
          } else if code == clear + 1 {
            BufferedIs(todo, len, bits, valid, end);
            SkipBlocks(len);
            return true;
          } else {
            ghost var str := Resolve(clear, st.dict, st.last, code);
            ok, v := DataCode(v, code, clear, st);
            if !ok {
              return;
            }
            DrawAllAppend(frame, colors, sc, s, str);
            s := s + str;
            st := Learn(clear, st, str);
          }
        }
      }
    }

    function Mask(width: nat): nat
    {
      Pow2(width) - 1
    }

    lemma NothingDrawn(sc: Scene)
      requires ValidScene(frame, sc)
      ensures DrawAll(frame, colors, sc, []) == sc
    {
    }

    lemma WidthAgrees(clear: nat, st: LzwState, v: Vars)
      requires Valid() && Agrees(clear, st, v)
      ensures v.codesize == st.width
    {
    }

    lemma TablesOf(clear: nat, st: LzwState, v: Vars)
      requires Valid() && Agrees(clear, st, v)
      ensures Tables(clear, st.dict)
    {
    }

    lemma BufferedIs(todo: seq<bit>, len: nat, bits: nat, valid: nat, end: nat)
      requires Buffered(todo, len, bits, valid, end)
      ensures bits < Pow2(valid) && todo == Todo(input, pos, len, bits, valid)
      ensures end <= |input| ==> PayloadEnd(input, pos + len) == end
    {
    }

    lemma ClearInTable(cs: nat)
      requires cs <= 12
      ensures Shl(1, cs) == ClearCode(cs) <= 4096
    {
      ShlOne(cs);
      Pow2Mono(cs, 12);
      Pow2Values();
    }
  }

  /** Decodes the raster at pos into a frame of a screen with the given pixels. */
  method DrawFrame(input: seq<byte>, pos: nat, frame: Frame, colors: ColorMap, pixels: seq<byte>, touched: seq<byte>)
    returns (ok: bool, pixels': seq<byte>, touched': seq<byte>)
    requires pos <= |input| && FitsScreen(frame)
    requires |touched| == At(frame.width, frame.height, 0) && |pixels| == 4 * |touched|
    ensures match RasterMeaning(input, pos)
      case Corrupt => !ok
      case Image(s) =>
        var start := FirstCursor(frame);
        ok && Painted(frame, colors, Scene(start, pixels, touched), s, Scene(start, pixels', touched'))
  {
    hide Painted, DrawAll, At, RasterMeaning, FitsScreen, FirstCursor;
    ghost var before := Scene(FirstCursor(frame), pixels, touched);
    var g := new Gif(input, pos, frame, colors, pixels, touched);
    ok := g.ProcessRaster();
    pixels', touched' := g.out[..], g.history[..];
    ghost var meaning := RasterMeaning(input, pos);
    if meaning.Image? {
      DrawAllPaints(frame, colors, before, meaning.indices);
      PaintedPixels(frame, colors, before, meaning.indices, g.Drawing());
    }
  }

  /** What is painted does not depend on where the cursor ended. */
  lemma PaintedPixels(f: Frame, colors: ColorMap, before: Scene, s: seq<byte>, after: Scene)
    requires Painted(f, colors, before, s, after)
    ensures Painted(f, colors, before, s, Scene(before.cursor, after.out, after.history))
  {
  }
}
