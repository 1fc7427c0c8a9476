/** An encoder for compressed DEFLATE blocks, and the proof that decoding undoes it. */
module DeflateEncode {
  import opened Bits
  import opened Canonical
  import opened Options
  import opened InflateBlock

  /** What a compressor emits: a literal byte, or a repeat of `len` bytes from `dist` back. */
  datatype Item = Literal(b: byte) | Repeat(len: nat, dist: nat)

  /** The length symbol, at most z, with the largest base that does not exceed len. */
  function LengthSymbolFrom(len: nat, z: nat): (r: nat)
    requires 257 <= z < 286 && len >= 3
    ensures 257 <= r <= z && LengthBase(r) <= len
    ensures r < z ==> len < LengthBase(r + 1)
  {
    if z == 257 || LengthBase(z) <= len then z
    else LengthSymbolFrom(len, z - 1)
  }

  function DistSymbolFrom(dist: nat, d: nat): (r: nat)
    requires d < 30 && dist >= 1
    ensures r <= d && DistBase(r) <= dist
    ensures r < d ==> dist < DistBase(r + 1)
  {
    if d == 0 || DistBase(d) <= dist then d
    else DistSymbolFrom(dist, d - 1)
  }

  function LengthSymbol(len: nat): nat
    requires 3 <= len <= 258
  {
    LengthSymbolFrom(len, 285)
  }

  function DistSymbol(dist: nat): nat
    requires 1 <= dist <= 32768
  {
    DistSymbolFrom(dist, 29)
  }

  lemma LengthTableStep(z: nat)
    requires 257 <= z < 285
    ensures LengthBase(z + 1) <= LengthBase(z) + Pow2(LengthExtra(z))
  {
    Pow2Values();
  }

  lemma DistTableStep(d: nat)
    requires d < 29
    ensures DistBase(d + 1) <= DistBase(d) + Pow2(DistExtra(d))
  {
    Pow2Values();
  }

  /** Every length from 3 to 258 has a symbol whose extra bits reach it. */
  lemma LengthReached(len: nat)
    requires 3 <= len <= 258
    ensures len - LengthBase(LengthSymbol(len)) < Pow2(LengthExtra(LengthSymbol(len)))
  {
    var z := LengthSymbol(len);
    if z < 285 {
      LengthTableStep(z);
    }
  }

  /** Every distance from 1 to 32768 has a symbol whose extra bits reach it. */
  lemma DistReached(dist: nat)
    requires 1 <= dist <= 32768
    ensures dist - DistBase(DistSymbol(dist)) < Pow2(DistExtra(DistSymbol(dist)))
  {
    var d := DistSymbol(dist);
    if d < 29 {
      DistTableStep(d);
    } else {
      Pow2Values();
    }
  }

  /** The item can follow n bytes of output and both tables have the symbols it needs. */
  predicate Codable(ll: seq<nat>, dd: seq<nat>, item: Item, n: nat)
  {
    match item
    case Literal(b) => HasCode(ll, b)
    case Repeat(len, dist) =>
      && 3 <= len <= 258 && 1 <= dist <= 32768 && dist <= n
      && HasCode(ll, LengthSymbol(len)) && HasCode(dd, DistSymbol(dist))
  }

  function Apply(out: seq<byte>, item: Item): (r: seq<byte>)
    requires item.Repeat? ==> 1 <= item.dist <= |out|
  {
    match item
    case Literal(b) => out + [b]
    case Repeat(len, dist) => CopyMatch(out, len, dist)
  }

  predicate AllCodable(ll: seq<nat>, dd: seq<nat>, items: seq<Item>, out: seq<byte>)
    decreases |items|
  {
    items == []
    || (Codable(ll, dd, items[0], |out|) && AllCodable(ll, dd, items[1..], Apply(out, items[0])))
  }

  /** The LZ77 expansion of a list of items behind the output so far. */
  function Expansion(ll: seq<nat>, dd: seq<nat>, items: seq<Item>, out: seq<byte>): seq<byte>
    requires AllCodable(ll, dd, items, out)
    decreases |items|
  {
    if items == [] then out else Expansion(ll, dd, items[1..], Apply(out, items[0]))
  }

  function LengthBits(ll: seq<nat>, len: nat): seq<bit>
    requires 3 <= len <= 258 && HasCode(ll, LengthSymbol(len))
  {
    var z := LengthSymbol(len);
    SymbolBits(ll, z) + ToBits(len - LengthBase(z), LengthExtra(z))
  }

  function DistBits(dd: seq<nat>, dist: nat): seq<bit>
    requires 1 <= dist <= 32768 && HasCode(dd, DistSymbol(dist))
  {
    var d := DistSymbol(dist);
    SymbolBits(dd, d) + ToBits(dist - DistBase(d), DistExtra(d))
  }

  function ItemBits(ll: seq<nat>, dd: seq<nat>, item: Item, n: nat): seq<bit>
    requires Codable(ll, dd, item, n)
  {
    match item
    case Literal(b) => SymbolBits(ll, b)
    case Repeat(len, dist) => LengthBits(ll, len) + DistBits(dd, dist)
  }

  /** The items, then the end-of-block symbol. */
  function BlockBits(ll: seq<nat>, dd: seq<nat>, items: seq<Item>, out: seq<byte>): seq<bit>
    requires HasCode(ll, 256) && AllCodable(ll, dd, items, out)
    decreases |items|
  {
    if items == [] then SymbolBits(ll, 256)
    else ItemBits(ll, dd, items[0], |out|) + BlockBits(ll, dd, items[1..], Apply(out, items[0]))
  }

  /** Reading extra bits undoes writing them. */
  lemma ExtraUndone(base: nat, v: nat, n: nat, rest: seq<bit>)
    requires base <= v && v - base < Pow2(n)
    ensures var bits := ToBits(v - base, n) + rest; Extra(base, n, bits) == v && bits[n..] == rest
  {
    hide ToBits, FromBits, Pow2;
    var bits := ToBits(v - base, n) + rest;
    assert bits[..n] == ToBits(v - base, n);
    FromToBits(v - base, n);
    SmallMod(v - base, Pow2(n));
  }

  /** Reading the length part and the distance part undoes writing them. */
  lemma MatchUndone(dd: seq<nat>, len: nat, dist: nat, rest: seq<bit>)
    requires ValidLens(dd) && Accepted(dd)
    requires 3 <= len <= 258 && 1 <= dist <= 32768 && HasCode(dd, DistSymbol(dist))
    ensures var z := LengthSymbol(len);
      ReadMatch(dd, z, ToBits(len - LengthBase(z), LengthExtra(z)) + (DistBits(dd, dist) + rest))
        == Copy(len, dist, rest)
  {
    hide LengthBase, LengthExtra, DistBase, DistExtra, DecodeSymbol, FromBits, ToBits, ValidLens, Accepted;
    var z, d := LengthSymbol(len), DistSymbol(dist);
    LengthReached(len);
    DistReached(dist);
    var tail := ToBits(dist - DistBase(d), DistExtra(d)) + rest;
    assert DistBits(dd, dist) + rest == SymbolBits(dd, d) + tail;
    ExtraUndone(LengthBase(z), len, LengthExtra(z), SymbolBits(dd, d) + tail);
    DecodeUndoesSymbol(dd, d, tail);
    ExtraUndone(DistBase(d), dist, DistExtra(d), rest);
  }

  /** One coded item at the head of a block has the effect of that item. */
  lemma ItemUndone(ll: seq<nat>, dd: seq<nat>, item: Item, out: seq<byte>, tail: seq<bit>)
    requires ValidLens(ll) && Accepted(ll) && ValidLens(dd) && Accepted(dd)
    requires Codable(ll, dd, item, |out|)
    ensures Block(ll, dd, ItemBits(ll, dd, item, |out|) + tail, out) == Block(ll, dd, tail, Apply(out, item))
  {
    match item
    case Literal(b) =>
      DecodeUndoesSymbol(ll, b, tail);
    case Repeat(len, dist) =>
      RepeatUndone(ll, dd, len, dist, out, tail);
  }

  lemma RepeatUndone(ll: seq<nat>, dd: seq<nat>, len: nat, dist: nat, out: seq<byte>, tail: seq<bit>)
    requires ValidLens(ll) && Accepted(ll) && ValidLens(dd) && Accepted(dd)
    requires Codable(ll, dd, Repeat(len, dist), |out|)
    ensures Block(ll, dd, LengthBits(ll, len) + DistBits(dd, dist) + tail, out)
         == Block(ll, dd, tail, CopyMatch(out, len, dist))
  {
    hide LengthBase, LengthExtra, DistBase, DistExtra, DecodeSymbol, SymbolBits, ValidLens, Accepted, CopyMatch,
      DistBits, ReadMatch, LengthSymbolFrom, DistSymbolFrom, ToBits;
    var z := LengthSymbol(len);
    var extra := ToBits(len - LengthBase(z), LengthExtra(z));
    var after := extra + (DistBits(dd, dist) + tail);
    var bits := LengthBits(ll, len) + DistBits(dd, dist) + tail;
    assert bits == SymbolBits(ll, z) + after;
    DecodeUndoesSymbol(ll, z, after);
    assert DecodeSymbol(ll, bits) == Some(z) && bits[ll[z]..] == after;
    MatchUndone(dd, len, dist, tail);
  }

  lemma EndUndone(ll: seq<nat>, dd: seq<nat>, out: seq<byte>, rest: seq<bit>)
    requires ValidLens(ll) && Accepted(ll) && HasCode(ll, 256)
    ensures Block(ll, dd, SymbolBits(ll, 256) + rest, out) == Done(rest, out)
  {
    DecodeUndoesSymbol(ll, 256, rest);
  }

  /** Decoding undoes coding: a coded block followed by anything means the LZ77 expansion of its items. */
  lemma {:induction false} BlockUndone(ll: seq<nat>, dd: seq<nat>, items: seq<Item>, out: seq<byte>, rest: seq<bit>)
    requires ValidLens(ll) && Accepted(ll) && ValidLens(dd) && Accepted(dd)
    requires HasCode(ll, 256) && AllCodable(ll, dd, items, out)
    ensures Block(ll, dd, BlockBits(ll, dd, items, out) + rest, out) == Done(rest, Expansion(ll, dd, items, out))
    decreases |items|
  {
    hide DecodeSymbol, SymbolBits, ValidLens, Accepted, ItemBits, CopyMatch, Block, Apply, LengthSymbolFrom, DistSymbolFrom;
    if items == [] {
      EndUndone(ll, dd, out, rest);
    } else {
      var next := Apply(out, items[0]);
      var tail := BlockBits(ll, dd, items[1..], next) + rest;
      BlockUndone(ll, dd, items[1..], next, rest);
      assert BlockBits(ll, dd, items, out) + rest == ItemBits(ll, dd, items[0], |out|) + tail;
      ItemUndone(ll, dd, items[0], out, tail);
    }
  }
}
