/** Compressed DEFLATE blocks (sections 3.2.3 and 3.2.5 of RFC 1951): the meaning of a bit
    sequence, the decoder proved against it, and an encoder that the decoder undoes. */
module InflateBlock {
  import opened Bits
  import opened Canonical
  import opened Options
  import opened ZHuffman
  import opened ZBuf

  const LENGTH_BASE: seq<nat> := [
    3, 4, 5, 6, 7, 8, 9, 10, 11, 13,
    15, 17, 19, 23, 27, 31, 35, 43, 51, 59,
    67, 83, 99, 115, 131, 163, 195, 227, 258, 0, 0]

  const LENGTH_EXTRA: seq<nat> := [
    0, 0, 0, 0, 0, 0, 0, 0, 1, 1, 1, 1, 2, 2, 2, 2, 3, 3, 3, 3, 4, 4, 4, 4, 5, 5, 5, 5, 0, 0, 0]

  const DIST_BASE: seq<nat> := [
    1, 2, 3, 4, 5, 7, 9, 13, 17, 25, 33, 49, 65, 97, 129, 193,
    257, 385, 513, 769, 1025, 1537, 2049, 3073, 4097, 6145, 8193, 12289, 16385, 24577, 0, 0]

  const DIST_EXTRA: seq<nat> := [
    0, 0, 0, 0, 1, 1, 2, 2, 3, 3, 4, 4, 5, 5, 6, 6, 7, 7, 8, 8, 9, 9, 10, 10, 11, 11, 12, 12, 13, 13, 0, 0]

  function LengthBase(z: nat): (b: nat)
    requires 257 <= z < 286
    ensures b >= 3
  {
    LENGTH_BASE[z - 257]
  }

  function LengthExtra(z: nat): (n: nat)
    requires 257 <= z < 286
    ensures n <= 5
  {
    LENGTH_EXTRA[z - 257]
  }

  function DistBase(d: nat): (b: nat)
    requires d < 30
    ensures b >= 1
  {
    DIST_BASE[d]
  }

  function DistExtra(d: nat): (n: nat)
    requires d < 30
    ensures n <= 13
  {
    DIST_EXTRA[d]
  }

  // ----- meaning -----

  /** Repeats len bytes from dist back, one at a time, so a copy may overlap itself. */
  function CopyMatch(out: seq<byte>, len: nat, dist: nat): (r: seq<byte>)
    requires 1 <= dist <= |out|
    ensures |r| == |out| + len && out <= r
  {
    if len == 0 then out
    else
      var p := CopyMatch(out, len - 1, dist);
      p + [p[|p| - dist]]
  }

  /** Done: the end-of-block symbol was met. Bad: the bits are invalid. Short: they end too early. */
  datatype BlockResult = Done(rest: seq<bit>, out: seq<byte>) | Bad | Short

  datatype MatchResult = Copy(len: nat, dist: nat, rest: seq<bit>) | BadMatch | ShortMatch

  /** A base value plus n extra bits, least significant first. */
  function Extra(base: nat, n: nat, bits: seq<bit>): nat
    requires n <= |bits|
  {
    base + FromBits(bits[..n])
  }

  /** The match announced by length symbol z, 257 <= z <= 285, whose own code is already gone. */
  function ReadMatch(dd: seq<nat>, z: nat, bits: seq<bit>): (m: MatchResult)
    requires 257 <= z < 286
    ensures m.Copy? ==> |m.rest| <= |bits|
    ensures m.Copy? ==> m.len >= 3 && m.dist >= 1
  {
    var n := LengthExtra(z);
    if |bits| < n then ShortMatch
    else
      var len := Extra(LengthBase(z), n, bits);
      var afterLength := bits[n..];
      match DecodeSymbol(dd, afterLength)
      case None => if |afterLength| >= MAX_LENGTH then BadMatch else ShortMatch
      case Some(d) =>
        if d >= 30 then BadMatch
        else
          var afterCode := afterLength[dd[d]..];
          var m := DistExtra(d);
          if |afterCode| < m then ShortMatch
          else Copy(len, Extra(DistBase(d), m, afterCode), afterCode[m..])
  }

  /** What a block with literal/length code ll and distance code dd stands for. */
  function Block(ll: seq<nat>, dd: seq<nat>, bits: seq<bit>, out: seq<byte>): BlockResult
    decreases |bits|
  {
    match DecodeSymbol(ll, bits)
    case None => if |bits| >= MAX_LENGTH then Bad else Short
    case Some(z) =>
      var rest := bits[ll[z]..];
      if z < 256 then Block(ll, dd, rest, out + [z])
      else if z == 256 then Done(rest, out)
      else if z >= 286 then Bad
      else
        match ReadMatch(dd, z, rest)
        case BadMatch => Bad
        case ShortMatch => Short
        case Copy(len, dist, after) =>
          if dist > |out| then Bad else Block(ll, dd, after, CopyMatch(out, len, dist))
  }

  /** A block only appends to the output and only consumes input. */
  lemma {:induction false} BlockGrows(ll: seq<nat>, dd: seq<nat>, bits: seq<bit>, out: seq<byte>)
    requires Block(ll, dd, bits, out).Done?
    ensures out <= Block(ll, dd, bits, out).out
    ensures |Block(ll, dd, bits, out).rest| <= |bits|
    decreases |bits|
  {
    var z := DecodeSymbol(ll, bits).value;
    var rest := bits[ll[z]..];
    if z < 256 {
      BlockGrows(ll, dd, rest, out + [z]);
    } else if z > 256 {
      var m := ReadMatch(dd, z, rest);
      BlockGrows(ll, dd, m.rest, CopyMatch(out, m.len, m.dist));
    }
  }

  // ----- the decoder -----

  /** The next symbol as the decoder sees it, against the real bits that are left. */
  lemma SymbolSeen(lens: seq<nat>, s: seq<bit>, c: nat, z: nat)
    requires ValidLens(lens) && Accepted(lens) && c <= |s|
    requires DecodeSymbol(lens, Window(s, c, 16)) == Some(z)
    ensures if c + lens[z] <= |s| then DecodeSymbol(lens, s[c..]) == Some(z) && s[c..][lens[z]..] == s[c + lens[z]..]
            else DecodeSymbol(lens, s[c..]) == None && |s| - c < MAX_LENGTH
  {
    DecodeInWindow(lens, s, c);
  }

  lemma NoSymbolSeen(lens: seq<nat>, s: seq<bit>, c: nat)
    requires ValidLens(lens) && Accepted(lens) && c <= |s|
    requires DecodeSymbol(lens, Window(s, c, 16)) == None
    ensures DecodeSymbol(lens, s[c..]) == None
  {
    DecodeInWindow(lens, s, c);
  }

  lemma ExtraSeen(base: nat, n: nat, s: seq<bit>, c: nat)
    requires c + n <= |s|
    ensures base + FromBits(Window(s, c, n)) == Extra(base, n, s[c..])
    ensures s[c..][n..] == s[c + n..]
  {
    WindowInside(s, c, n);
  }

  lemma BuiltAccepted(z: Huffman, lens: seq<nat>)
    requires z.Built(lens)
    ensures ValidLens(lens) && Accepted(lens)
  {
  }

  /** Appends one literal byte. */
  method PutLiteral(a: Buf, v: byte) returns (ok: bool)
    requires a.Valid()
    modifies a, a.obuf
    ensures a.Valid() && a.Limit() == old(a.Limit()) && (a.obuf == old(a.obuf) || fresh(a.obuf))
    ensures a.consumed == old(a.consumed) && a.hit_zeof_once == old(a.hit_zeof_once) && a.num_bits == old(a.num_bits)
    ensures ok <==> old(a.zout) + 1 <= a.Limit()
    ensures ok ==> a.Contents() == old(a.Contents()) + [v]
  {
    hide Buf.ReaderValid, Huffman.Valid, MaxCapacity;
    if a.zout >= a.obuf.Length {
      ok := a.Expand(1);
      if !ok {
        return;
      }
    }
    ghost var before := a.Contents();
    a.obuf[a.zout] := v;
    a.zout := a.zout + 1;
    assert a.obuf[..a.zout - 1] == before;
    assert a.Contents() == before + [v];
    return true;
  }

  /** The copy loop for distance 1: one byte value, repeated. */
  method CopyRun(a: Buf, len: nat)
    requires a.Valid() && 1 <= a.zout && a.zout + len <= a.obuf.Length
    modifies a`zout, a.obuf
    ensures a.Valid() && a.Contents() == CopyMatch(old(a.Contents()), len, 1)
  {
    hide Buf.ReaderValid, Huffman.Valid, MaxCapacity;
    ghost var before := a.Contents();
    var v := a.obuf[a.zout - 1];
    var left: nat := len;
    while left > 0
      invariant left <= len && a.zout == |before| + (len - left)
      invariant a.Valid() && a.obuf[a.zout - 1] == v
      invariant a.Contents() == CopyMatch(before, len - left, 1)
    {
      PutByte(a, v);
      left := left - 1;
    }
  }

  /** The overlapped copy loop: the read cursor p follows the write cursor. */
  method CopyBytes(a: Buf, len: nat, dist: nat)
    requires a.Valid() && 1 <= dist <= a.zout && a.zout + len <= a.obuf.Length
    modifies a`zout, a.obuf
    ensures a.Valid() && a.Contents() == CopyMatch(old(a.Contents()), len, dist)
  {
    hide Buf.ReaderValid, Huffman.Valid, MaxCapacity;
    ghost var before := a.Contents();
    var left: nat := len;
    var p := a.zout - dist;
    while left > 0
      invariant left <= len && a.zout == |before| + (len - left) && p == a.zout - dist
      invariant a.Valid()
      invariant a.Contents() == CopyMatch(before, len - left, dist)
    {
      assert a.Contents()[p] == a.obuf[p];
      PutByte(a, a.obuf[p]);
      p := p + 1;
      left := left - 1;
    }
  }

  method PutByte(a: Buf, v: byte)
    requires a.Valid() && a.zout < a.obuf.Length
    modifies a`zout, a.obuf
    ensures a.Valid() && a.zout == old(a.zout) + 1
    ensures a.Contents() == old(a.Contents()) + [v] && a.obuf[a.zout - 1] == v
  {
    hide Buf.ReaderValid, Huffman.Valid, MaxCapacity;
    ghost var before := a.Contents();
    a.obuf[a.zout] := v;
    a.zout := a.zout + 1;
    assert a.obuf[..a.zout - 1] == before;
  }

  /** Appends a match. */
  method PutMatch(a: Buf, len: nat, dist: nat) returns (ok: bool)
    requires a.Valid() && 1 <= dist <= a.zout
    modifies a, a.obuf
    ensures a.Valid() && a.Limit() == old(a.Limit()) && (a.obuf == old(a.obuf) || fresh(a.obuf))
    ensures a.consumed == old(a.consumed) && a.hit_zeof_once == old(a.hit_zeof_once) && a.num_bits == old(a.num_bits)
    ensures ok <==> old(a.zout) + len <= a.Limit()
    ensures ok ==> a.Contents() == CopyMatch(old(a.Contents()), len, dist)
  {
    hide Buf.ReaderValid, Huffman.Valid, MaxCapacity;
    if len > a.obuf.Length - a.zout {
      ok := a.Expand(len);
      if !ok {
        return;
      }
    }
    if dist == 1 {
      CopyRun(a, len);
    } else {
      CopyBytes(a, len, dist);
    }
    return true;
  }

  /** base plus n extra bits; nothing is read when there are none. */
  method ReadExtra(a: Buf, base: nat, n: nat) returns (v: nat)
    requires a.ReaderValid() && n <= 13
    modifies a`pos, a`code_buffer, a`num_bits, a`consumed
    ensures a.ReaderValid() && a.consumed == old(a.consumed) + n
    ensures v == base + FromBits(Window(a.Stream(), old(a.consumed), n))
  {
    v := base;
    if n != 0 {
      var k := a.Receive(n);
      v := v + k;
    }
  }

  /** What the rest of a block from bit c on stands for; nothing yet if the bits end before. */
  function BlockAt(ll: seq<nat>, dd: seq<nat>, s: seq<bit>, c: nat, out: seq<byte>): BlockResult
  {
    if c <= |s| then Block(ll, dd, s[c..], out) else Short
  }

  /** A block that ended in front of bit c. */
  function EndAt(s: seq<bit>, c: nat, out: seq<byte>): BlockResult
  {
    if c <= |s| then Done(s[c..], out) else Short
  }

  function MatchAt(dd: seq<nat>, z: nat, s: seq<bit>, c: nat): MatchResult
    requires 257 <= z < 286
  {
    if c <= |s| then ReadMatch(dd, z, s[c..]) else ShortMatch
  }

  function CopyAt(s: seq<bit>, c: nat, len: nat, dist: nat): MatchResult
  {
    if c <= |s| then Copy(len, dist, s[c..]) else ShortMatch
  }

  lemma MatchRejected(dd: seq<nat>, z: nat, s: seq<bit>, c: nat)
    requires ValidLens(dd) && Accepted(dd) && 257 <= z < 286
    requires c + LengthExtra(z) > |s|
          || (var r := DecodeSymbol(dd, Window(s, c + LengthExtra(z), 16)); r.None? || r.value >= 30)
    ensures !MatchAt(dd, z, s, c).Copy?
  {
    hide LengthBase, LengthExtra, DistBase, DistExtra, DecodeSymbol, FromBits, Window, ValidLens, Accepted;
    var n := LengthExtra(z);
    if c + n <= |s| {
      assert s[c..][n..] == s[c + n..];
      DecodeInWindow(dd, s, c + n);
    }
  }

  lemma SymbolExists(lens: seq<nat>, bits: seq<bit>, d: nat)
    requires DecodeSymbol(lens, bits) == Some(d)
    ensures d < |lens| && Starts(lens, d, bits)
  {
  }

  lemma MatchRead(dd: seq<nat>, z: nat, s: seq<bit>, c: nat, d: nat)
    requires ValidLens(dd) && Accepted(dd) && 257 <= z < 286 && d < 30
    requires DecodeSymbol(dd, Window(s, c + LengthExtra(z), 16)) == Some(d)
    ensures d < |dd|
    ensures var c1 := c + LengthExtra(z); var c2 := c1 + dd[d];
      MatchAt(dd, z, s, c) == CopyAt(s, c2 + DistExtra(d),
        LengthBase(z) + FromBits(Window(s, c, LengthExtra(z))),
        DistBase(d) + FromBits(Window(s, c2, DistExtra(d))))
  {
    hide LengthBase, LengthExtra, DistBase, DistExtra, DecodeSymbol, FromBits, Window, ValidLens, Accepted;
    var n, m := LengthExtra(z), DistExtra(d);
    var c1 := c + n;
    SymbolExists(dd, Window(s, c1, 16), d);
    var c2 := c1 + dd[d];
    if c1 <= |s| {
      ExtraSeen(LengthBase(z), n, s, c);
      SymbolSeen(dd, s, c1, d);
      if c2 <= |s| && c2 + m <= |s| {
        ExtraSeen(DistBase(d), m, s, c2);
        assert MatchAt(dd, z, s, c)
            == Copy(Extra(LengthBase(z), n, s[c..]), Extra(DistBase(d), m, s[c2..]), s[c2 + m..]);
      }
    }
  }

  /** A block in some input: its tables, its first bit, and the output in front of it. */
  datatype BlockStart = BlockStart(ll: seq<nat>, dd: seq<nat>, c: nat, out: seq<byte>)

  /** What the block stands for when n zero bytes follow the input. */
  function Meant(input: seq<byte>, b: BlockStart, n: nat): BlockResult
  {
    BlockAt(b.ll, b.dd, Padded(input, n), b.c, b.out)
  }

  /** Whatever zeros follow: from bit c on, with out written, the block still means what it meant at its start. */
  ghost predicate Tracks(input: seq<byte>, b: BlockStart, c: nat, out: seq<byte>)
  {
    forall n: nat :: Meant(input, b, n) == BlockAt(b.ll, b.dd, Padded(input, n), c, out)
  }

  /** Whatever zeros follow: the block ends in front of bit c. */
  ghost predicate Ends(input: seq<byte>, b: BlockStart, c: nat, out: seq<byte>)
  {
    forall n: nat :: Meant(input, b, n) == EndAt(Padded(input, n), c, out)
  }

  /** Whatever zeros follow: symbol z announces this match, and it ends in front of bit c. */
  ghost predicate IsMatch(input: seq<byte>, dd: seq<nat>, z: nat, c: nat, c': nat, len: nat, dist: nat)
    requires 257 <= z < 286
  {
    forall n: nat :: MatchAt(dd, z, Padded(input, n), c) == CopyAt(Padded(input, n), c', len, dist)
  }

  /** The input itself is complete at most with an output above the limit. */
  ghost predicate TooBig(input: seq<byte>, b: BlockStart, limit: nat)
  {
    var spec := Meant(input, b, 0);
    spec.Done? ==> |spec.out| > limit
  }

  /** Reads a distance: symbol d with its extra bits; fails when d is no distance symbol. */
  method ParseDistance(a: Buf, ghost dd: seq<nat>) returns (ok: bool, dist: nat, ghost sym: nat)
    requires a.ReaderValid() && a.z_distance.Built(dd)
    modifies a`pos, a`code_buffer, a`num_bits, a`consumed, a`hit_zeof_once
    ensures a.ReaderValid() && a.consumed >= old(a.consumed)
    ensures !ok && old(a.consumed) <= |a.Stream()| ==>
      (var r := DecodeSymbol(dd, Window(a.Stream(), old(a.consumed), 16)); r.None? || r.value >= 30)
    ensures ok ==> sym < 30 && sym < |dd| && dist >= 1
    ensures ok ==> DecodeSymbol(dd, Window(a.Stream(), old(a.consumed), 16)) == Some(sym)
    ensures ok ==> a.consumed == old(a.consumed) + dd[sym] + DistExtra(sym)
    ensures ok ==> dist == DistBase(sym) + FromBits(Window(a.Stream(), old(a.consumed) + dd[sym], DistExtra(sym)))
  {
    hide DistBase, DistExtra, DecodeSymbol, FromBits, Window, BytesToBits, Buf.ReaderValid, Huffman.Valid, Huffman.Built;
    ok, dist, sym := false, 0, 0;
    var d := a.Decode(a.z_distance, dd);
    if d < 0 || d >= 30 {
      return;
    }
    sym := d;
    dist := ReadExtra(a, DistBase(d), DistExtra(d));
    ok := true;
  }

  lemma MatchReads(input: seq<byte>, dd: seq<nat>, z: nat, c: nat, d: nat, len: nat, dist: nat)
    requires ValidLens(dd) && Accepted(dd) && 257 <= z < 286 && d < 30
    requires DecodeSymbol(dd, Window(BytesToBits(input), c + LengthExtra(z), 16)) == Some(d)
    requires len == LengthBase(z) + FromBits(Window(BytesToBits(input), c, LengthExtra(z)))
    ensures d < |dd|
    ensures dist == DistBase(d) + FromBits(Window(BytesToBits(input), c + LengthExtra(z) + dd[d], DistExtra(d))) ==>
      IsMatch(input, dd, z, c, c + LengthExtra(z) + dd[d] + DistExtra(d), len, dist)
  {
    hide LengthBase, LengthExtra, DistBase, DistExtra, DecodeSymbol, FromBits, Window, ValidLens, Accepted, MatchAt, CopyAt,
      Padded, BytesToBits;
    SymbolExists(dd, Window(BytesToBits(input), c + LengthExtra(z), 16), d);
    var c2 := c + LengthExtra(z) + dd[d];
    if dist == DistBase(d) + FromBits(Window(BytesToBits(input), c2, DistExtra(d))) {
      forall n: nat ensures MatchAt(dd, z, Padded(input, n), c) == CopyAt(Padded(input, n), c2 + DistExtra(d), len, dist) {
        PaddedWindow(input, n, c, LengthExtra(z));
        PaddedWindow(input, n, c + LengthExtra(z), 16);
        PaddedWindow(input, n, c2, DistExtra(d));
        MatchRead(dd, z, Padded(input, n), c, d);
      }
    }
  }

  /** Reads length and distance of the match announced by z; fails on a bad distance symbol. */
  method ParseMatch(a: Buf, ghost dd: seq<nat>, z: nat) returns (ok: bool, len: nat, dist: nat)
    requires a.ReaderValid() && a.z_distance.Built(dd) && a !in a.z_distance.Repr && 257 <= z < 286
    modifies a`pos, a`code_buffer, a`num_bits, a`consumed, a`hit_zeof_once
    ensures a.ReaderValid()
    ensures a.consumed >= old(a.consumed)
    ensures ok ==> len >= 3 && dist >= 1 && IsMatch(a.input, dd, z, old(a.consumed), a.consumed, len, dist)
    ensures !ok ==> !MatchAt(dd, z, a.Stream(), old(a.consumed)).Copy?
  {
    hide LengthBase, LengthExtra, DistBase, DistExtra, DecodeSymbol, FromBits, Window, MatchAt, IsMatch, BytesToBits,
      Buf.ReaderValid, Huffman.Valid, Huffman.Built, ValidLens, Accepted;
    BuiltAccepted(a.z_distance, dd);
    ghost var c := a.consumed;
    len := ReadExtra(a, LengthBase(z), LengthExtra(z));
    ghost var d;
    ok, dist, d := ParseDistance(a, dd);
    if ok {
      MatchReads(a.input, dd, z, c, d, len, dist);
    } else {
      MatchRejected(dd, z, a.Stream(), c);
    }
  }

  // ----- one symbol of a block, for any bits -----

  lemma NoSymbolEnds(ll: seq<nat>, dd: seq<nat>, s: seq<bit>, c: nat, out: seq<byte>)
    requires ValidLens(ll) && Accepted(ll)
    requires c > |s| || DecodeSymbol(ll, Window(s, c, 16)) == None
    ensures !BlockAt(ll, dd, s, c, out).Done?
  {
    hide LengthBase, LengthExtra, DistBase, DistExtra;
    if c <= |s| {
      NoSymbolSeen(ll, s, c);
    }
  }

  lemma LiteralGoesOn(ll: seq<nat>, dd: seq<nat>, s: seq<bit>, c: nat, out: seq<byte>, z: byte)
    requires ValidLens(ll) && Accepted(ll) && DecodeSymbol(ll, Window(s, c, 16)) == Some(z)
    ensures BlockAt(ll, dd, s, c, out) == BlockAt(ll, dd, s, c + ll[z], out + [z])
  {
    hide LengthBase, LengthExtra, DistBase, DistExtra;
    if c <= |s| {
      SymbolSeen(ll, s, c, z);
    }
  }

  lemma SymbolEnds(ll: seq<nat>, dd: seq<nat>, s: seq<bit>, c: nat, out: seq<byte>, z: nat)
    requires ValidLens(ll) && Accepted(ll)
    requires DecodeSymbol(ll, Window(s, c, 16)) == Some(z) && (z == 256 || z >= 286)
    ensures z == 256 ==> BlockAt(ll, dd, s, c, out) == EndAt(s, c + ll[z], out)
    ensures z >= 286 ==> !BlockAt(ll, dd, s, c, out).Done?
  {
    hide LengthBase, LengthExtra, DistBase, DistExtra;
    if c <= |s| {
      SymbolSeen(ll, s, c, z);
    }
  }

  /** The match that follows symbol z decides how the block goes on. */
  lemma MatchGoesOn(ll: seq<nat>, dd: seq<nat>, s: seq<bit>, c: nat, out: seq<byte>, z: nat)
    requires ValidLens(ll) && Accepted(ll)
    requires DecodeSymbol(ll, Window(s, c, 16)) == Some(z) && 257 <= z < 286
    ensures BlockAt(ll, dd, s, c, out) ==
      match MatchAt(dd, z, s, c + ll[z])
      case BadMatch => Bad
      case ShortMatch => Short
      case Copy(len, dist, after) => if dist > |out| then Bad else Block(ll, dd, after, CopyMatch(out, len, dist))
  {
    hide LengthBase, LengthExtra, DistBase, DistExtra;
    if c <= |s| {
      SymbolSeen(ll, s, c, z);
    }
  }

  // ----- one symbol of a block, whatever zeros follow the input -----

  /** A block with output so far that does not fit has no output that fits. */
  lemma OutputGrew(input: seq<byte>, b: BlockStart, c: nat, out: seq<byte>, limit: nat)
    requires Tracks(input, b, c, out) && |out| > limit
    ensures TooBig(input, b, limit)
  {
    hide Block, Padded;
    var s, spec := Padded(input, 0), Meant(input, b, 0);
    if spec.Done? {
      BlockGrows(b.ll, b.dd, s[c..], out);
    }
  }

  lemma TrackNoSymbol(input: seq<byte>, b: BlockStart, c: nat, out: seq<byte>, limit: nat)
    requires ValidLens(b.ll) && Accepted(b.ll) && Tracks(input, b, c, out)
    requires var s := BytesToBits(input); c > |s| || DecodeSymbol(b.ll, Window(s, c, 16)) == None
    ensures TooBig(input, b, limit)
  {
    hide BlockAt, BytesToBits, Window, DecodeSymbol, ValidLens, Accepted;
    PaddedNothing(input);
    NoSymbolEnds(b.ll, b.dd, Padded(input, 0), c, out);
  }

  lemma TrackLiteral(input: seq<byte>, b: BlockStart, c: nat, out: seq<byte>, z: byte)
    requires ValidLens(b.ll) && Accepted(b.ll) && Tracks(input, b, c, out)
    requires DecodeSymbol(b.ll, Window(BytesToBits(input), c, 16)) == Some(z)
    ensures Tracks(input, b, c + b.ll[z], out + [z])
  {
    hide BlockAt, BytesToBits, Window, DecodeSymbol, ValidLens, Accepted, Padded;
    SymbolExists(b.ll, Window(BytesToBits(input), c, 16), z);
    forall n: nat ensures Meant(input, b, n) == BlockAt(b.ll, b.dd, Padded(input, n), c + b.ll[z], out + [z]) {
      PaddedWindow(input, n, c, 16);
      LiteralGoesOn(b.ll, b.dd, Padded(input, n), c, out, z);
    }
  }

  lemma TrackEnd(input: seq<byte>, b: BlockStart, c: nat, out: seq<byte>, z: nat, limit: nat)
    requires ValidLens(b.ll) && Accepted(b.ll) && Tracks(input, b, c, out)
    requires DecodeSymbol(b.ll, Window(BytesToBits(input), c, 16)) == Some(z) && (z == 256 || z >= 286)
    ensures z == 256 ==> Ends(input, b, c + b.ll[z], out)
    ensures z >= 286 ==> TooBig(input, b, limit)
  {
    hide BlockAt, BytesToBits, Window, DecodeSymbol, ValidLens, Accepted, Padded, EndAt;
    SymbolExists(b.ll, Window(BytesToBits(input), c, 16), z);
    forall n: nat ensures z == 256 ==> Meant(input, b, n) == EndAt(Padded(input, n), c + b.ll[z], out) {
      PaddedWindow(input, n, c, 16);
      SymbolEnds(b.ll, b.dd, Padded(input, n), c, out, z);
    }
    PaddedWindow(input, 0, c, 16);
    SymbolEnds(b.ll, b.dd, Padded(input, 0), c, out, z);
  }

  lemma TrackCopy(input: seq<byte>, b: BlockStart, c: nat, out: seq<byte>, z: nat, c': nat, len: nat, dist: nat)
    requires ValidLens(b.ll) && Accepted(b.ll) && Tracks(input, b, c, out)
    requires DecodeSymbol(b.ll, Window(BytesToBits(input), c, 16)) == Some(z) && 257 <= z < 286
    requires IsMatch(input, b.dd, z, c + b.ll[z], c', len, dist) && 1 <= dist <= |out|
    ensures Tracks(input, b, c', CopyMatch(out, len, dist))
  {
    hide Block, MatchAt, CopyMatch, BytesToBits, Window, DecodeSymbol, ValidLens, Accepted, Padded;
    forall n: nat ensures Meant(input, b, n) == BlockAt(b.ll, b.dd, Padded(input, n), c', CopyMatch(out, len, dist)) {
      PaddedWindow(input, n, c, 16);
      MatchGoesOn(b.ll, b.dd, Padded(input, n), c, out, z);
    }
  }

  /** No match that could be copied follows symbol z. */
  lemma TrackBadMatch(input: seq<byte>, b: BlockStart, c: nat, out: seq<byte>, z: nat, limit: nat)
    requires ValidLens(b.ll) && Accepted(b.ll) && Tracks(input, b, c, out)
    requires DecodeSymbol(b.ll, Window(BytesToBits(input), c, 16)) == Some(z) && 257 <= z < 286
    requires var m := MatchAt(b.dd, z, BytesToBits(input), c + b.ll[z]); !m.Copy? || m.dist > |out|
    ensures TooBig(input, b, limit)
  {
    hide Block, MatchAt, CopyMatch, BytesToBits, Window, DecodeSymbol, ValidLens, Accepted;
    PaddedNothing(input);
    MatchGoesOn(b.ll, b.dd, Padded(input, 0), c, out, z);
  }

  /** On a match that reaches too far back. */
  lemma FarMatch(input: seq<byte>, dd: seq<nat>, z: nat, c: nat, c': nat, len: nat, dist: nat)
    requires 257 <= z < 286 && IsMatch(input, dd, z, c, c', len, dist)
    ensures var m := MatchAt(dd, z, BytesToBits(input), c); !m.Copy? || m.dist == dist
  {
    hide MatchAt, BytesToBits;
    PaddedNothing(input);
    assert MatchAt(dd, z, Padded(input, 0), c) == CopyAt(Padded(input, 0), c', len, dist);
  }

  /** One length/distance pair, from the length symbol z on. */
  method DoMatch(a: Buf, ghost b: BlockStart, ghost c: nat, z: nat) returns (ok: bool)
    requires a.Valid() && a.z_length.Built(b.ll) && a.z_distance.Built(b.dd) && 257 <= z < 286
    requires Tracks(a.input, b, c, a.Contents())
    requires DecodeSymbol(b.ll, Window(a.Stream(), c, 16)) == Some(z) && a.consumed == c + b.ll[z]
    modifies a, a.obuf
    ensures a.Valid() && a.Limit() == old(a.Limit()) && (a.obuf == old(a.obuf) || fresh(a.obuf))
    ensures a.consumed >= old(a.consumed)
    ensures ok ==> Tracks(a.input, b, a.consumed, a.Contents()) && a.zout > old(a.zout)
    ensures !ok ==> TooBig(a.input, b, a.Limit())
  {
    hide LengthBase, LengthExtra, DistBase, DistExtra, MatchAt, IsMatch, CopyMatch, DecodeSymbol, MaxCapacity, Window, BytesToBits,
      Buf.ReaderValid, Huffman.Valid, Huffman.Built, Tracks, TooBig, ValidLens, Accepted;
    ghost var out := a.Contents();
    BuiltAccepted(a.z_length, b.ll);
    SymbolExists(b.ll, Window(a.Stream(), c, 16), z);
    var len, dist;
    ok, len, dist := ParseMatch(a, b.dd, z);
    if !ok {
      TrackBadMatch(a.input, b, c, out, z, a.Limit());
      return;
    }
    if a.zout < dist {
      FarMatch(a.input, b.dd, z, c + b.ll[z], a.consumed, len, dist);
      TrackBadMatch(a.input, b, c, out, z, a.Limit());
      return false;
    }
    TrackCopy(a.input, b, c, out, z, a.consumed, len, dist);
    ok := PutMatch(a, len, dist);
    if !ok {
      OutputGrew(a.input, b, a.consumed, CopyMatch(out, len, dist), a.Limit());
    }
  }

  /** One literal byte z. */
  method DoLiteral(a: Buf, ghost b: BlockStart, ghost c: nat, z: byte) returns (ok: bool)
    requires a.Valid() && a.z_length.Built(b.ll)
    requires Tracks(a.input, b, c, a.Contents())
    requires DecodeSymbol(b.ll, Window(a.Stream(), c, 16)) == Some(z) && a.consumed == c + b.ll[z]
    modifies a, a.obuf
    ensures a.Valid() && a.Limit() == old(a.Limit()) && (a.obuf == old(a.obuf) || fresh(a.obuf))
    ensures a.consumed == old(a.consumed)
    ensures ok ==> Tracks(a.input, b, a.consumed, a.Contents()) && a.zout > old(a.zout)
    ensures !ok ==> TooBig(a.input, b, a.Limit())
  {
    hide DecodeSymbol, MaxCapacity, Window, BytesToBits, Buf.ReaderValid, Huffman.Valid, Huffman.Built, Tracks, TooBig, ValidLens, Accepted;
    ghost var out := a.Contents();
    BuiltAccepted(a.z_length, b.ll);
    SymbolExists(b.ll, Window(a.Stream(), c, 16), z);
    TrackLiteral(a.input, b, c, out, z);
    ok := PutLiteral(a, z);
    if !ok {
      OutputGrew(a.input, b, a.consumed, out + [z], a.Limit());
    }
  }

  /** On a complete input the bits behind the end that the decoder added once are never used up. */
  lemma EndInside(input: seq<byte>, b: BlockStart, c: nat, out: seq<byte>, limit: nat)
    requires Ends(input, b, c, out) && c > |BytesToBits(input)|
    ensures TooBig(input, b, limit)
  {
    hide BytesToBits;
    PaddedNothing(input);
  }

  /** The block ends at symbol z: properly, or because z is none of the valid symbols. */
  method DoEnd(a: Buf, ghost b: BlockStart, ghost c: nat, z: int) returns (ok: bool)
    requires a.Valid() && a.z_length.Built(b.ll) && (z < 0 || z == 256 || z >= 286)
    requires Tracks(a.input, b, c, a.Contents())
    requires z >= 0 ==> DecodeSymbol(b.ll, Window(a.Stream(), c, 16)) == Some(z) && a.consumed == c + b.ll[z]
    requires z < 0 ==> c > |a.Stream()| || DecodeSymbol(b.ll, Window(a.Stream(), c, 16)) == None
    ensures ok ==> Ends(a.input, b, a.consumed, a.Contents())
    ensures !ok ==> TooBig(a.input, b, a.Limit())
  {
    hide DecodeSymbol, MaxCapacity, Window, BytesToBits, Huffman.Valid, Huffman.Built, Tracks, Ends, TooBig, ValidLens, Accepted;
    ghost var out := a.Contents();
    BuiltAccepted(a.z_length, b.ll);
    if z < 0 {
      TrackNoSymbol(a.input, b, c, out, a.Limit());
      return false;
    }
    TrackEnd(a.input, b, c, out, z, a.Limit());
    if z >= 286 {
      return false;
    }
    if a.hit_zeof_once && a.num_bits < 16 {
      EndInside(a.input, b, a.consumed, out, a.Limit());
      return false;
    }
    return true;
  }

  /** One symbol of the block; `more` says that the block goes on behind it. */
  method BlockStep(a: Buf, ghost b: BlockStart) returns (more: bool, ok: bool)
    requires a.Valid() && a.z_length.Built(b.ll) && a.z_distance.Built(b.dd)
    requires Tracks(a.input, b, a.consumed, a.Contents())
    modifies a, a.obuf
    ensures a.Valid() && (a.obuf == old(a.obuf) || fresh(a.obuf)) && a.Limit() == old(a.Limit())
    ensures a.consumed >= old(a.consumed)
    ensures more ==> Tracks(a.input, b, a.consumed, a.Contents()) && old(a.zout) < a.zout <= a.Limit()
    ensures !more && ok ==> Ends(a.input, b, a.consumed, a.Contents())
    ensures !more && !ok ==> TooBig(a.input, b, a.Limit())
  {
    hide DecodeSymbol, MaxCapacity, Window, BytesToBits, Buf.ReaderValid, Huffman.Built, Huffman.Valid, Tracks, Ends, TooBig;
    ghost var c := a.consumed;
    var z := a.Decode(a.z_length, b.ll);
    if z < 0 || z == 256 || z >= 286 {
      ok := DoEnd(a, b, c, z);
      more := false;
    } else {
      if z < 256 {
        ok := DoLiteral(a, b, c, z);
      } else {
        ok := DoMatch(a, b, c, z);
      }
      more := ok;
    }
  }

  /** Decodes one compressed block with the tables in place. Success means that the block ends where the cursor is and
      stands for the output, if need be with zeros behind the input; a block that is complete fails only for its size. */
  method ParseHuffmanBlock(a: Buf, ghost ll: seq<nat>, ghost dd: seq<nat>) returns (ok: bool)
    requires a.Valid() && a.z_length.Built(ll) && a.z_distance.Built(dd)
    modifies a, a.obuf
    ensures a.Valid() && (a.obuf == old(a.obuf) || fresh(a.obuf)) && a.Limit() == old(a.Limit())
    ensures a.consumed >= old(a.consumed)
    ensures var b := BlockStart(ll, dd, old(a.consumed), old(a.Contents()));
      if ok then Ends(a.input, b, a.consumed, a.Contents()) else TooBig(a.input, b, a.Limit())
  {
    hide Tracks, Ends, TooBig, Huffman.Built, Huffman.Valid, Buf.ReaderValid, MaxCapacity;
    ghost var b := BlockStart(ll, dd, a.consumed, a.Contents());
    TrackStart(a.input, b);
    var more := true;
    ok := false;
    while more
      invariant a.Valid() && a.z_length.Built(ll) && a.z_distance.Built(dd)
      invariant a.obuf == old(a.obuf) || fresh(a.obuf)
      invariant a.Limit() == old(a.Limit())
      invariant a.consumed >= old(a.consumed)
      invariant more ==> Tracks(a.input, b, a.consumed, a.Contents())
      invariant !more ==> if ok then Ends(a.input, b, a.consumed, a.Contents()) else TooBig(a.input, b, a.Limit())
      decreases more, a.Limit() - a.zout
    {
      more, ok := BlockStep(a, b);
    }
  }

  lemma TrackStart(input: seq<byte>, b: BlockStart)
    ensures Tracks(input, b, b.c, b.out)
  {
  }
}
