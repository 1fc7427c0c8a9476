/** The code description in front of a dynamic block (section 3.2.7 of RFC 1951). */
module DynamicHeader {
  import opened Bits
  import opened Canonical
  import opened Options
  import opened ZHuffman
  import opened ZBuf
  import opened InflateBlock

  /** The order in which the code-length code lengths are sent. */
  const DEZIGZAG: seq<nat> := [16, 17, 18, 0, 8, 7, 9, 6, 10, 5, 11, 4, 12, 3, 13, 2, 14, 1, 15]

  function Zigzag(i: nat): (p: nat)
    requires i < 19
    ensures p < 19
  {
    DEZIGZAG[i]
  }

  // ----- meaning -----

  predicate SmallSizes(vals: seq<nat>)
  {
    forall i :: 0 <= i < |vals| ==> vals[i] <= 7
  }

  /** Code-length code lengths in symbol order; the ones not sent are zero. */
  function Arrange(vals: seq<nat>): (r: seq<nat>)
    requires |vals| <= 19 && SmallSizes(vals)
    ensures |r| == 19 && SmallSizes(r) && ValidLens(r)
  {
    if vals == [] then seq(19, (i: nat) => 0)
    else Arrange(vals[..|vals| - 1])[Zigzag(|vals| - 1) := vals[|vals| - 1]]
  }

  /** n three-bit numbers of the window from bit c on. */
  function Sizes(s: seq<bit>, c: nat, n: nat): (r: seq<nat>)
    ensures |r| == n && SmallSizes(r)
  {
    if n == 0 then []
    else
      assert Pow2(3) == 8;
      Sizes(s, c, n - 1) + [FromBits(Window(s, c + 3 * (n - 1), 3))]
  }

  datatype LengthsResult = Lengths(lens: seq<nat>, rest: seq<bit>) | BadLengths | ShortLengths

  function Repeated(v: nat, n: nat): (r: seq<nat>)
    ensures |r| == n
  {
    seq(n, (i: nat) => v)
  }

  function RepeatExtra(c: nat): (n: nat)
    ensures n <= 7
  {
    if c == 16 then 2 else if c == 17 then 3 else 7
  }

  function RepeatBase(c: nat): (n: nat)
    ensures n >= 3
  {
    if c <= 17 then 3 else 11
  }

  /** What a repeat symbol repeats: the previous length, or zero. */
  function Fill(c: nat, acc: seq<nat>): nat
    requires c == 16 ==> acc != []
  {
    if c == 16 then acc[|acc| - 1] else 0
  }

  predicate AllLengths(acc: seq<nat>)
  {
    forall i :: 0 <= i < |acc| ==> acc[i] <= MAX_LENGTH
  }

  /** Reads code lengths until there are ntot of them. */
  function ReadLengths(cl: seq<nat>, ntot: nat, acc: seq<nat>, bits: seq<bit>): (r: LengthsResult)
    requires |cl| == 19 && |acc| <= ntot && AllLengths(acc)
    ensures r.Lengths? ==> |r.lens| == ntot && AllLengths(r.lens)
    decreases |bits|
  {
    if |acc| == ntot then Lengths(acc, bits)
    else
      match DecodeSymbol(cl, bits)
      case None => if |bits| >= MAX_LENGTH then BadLengths else ShortLengths
      case Some(c) =>
        var rest := bits[cl[c]..];
        if c < 16 then ReadLengths(cl, ntot, acc + [c], rest)
        else
          var n := RepeatExtra(c);
          if |rest| < n then ShortLengths
          else if c == 16 && acc == [] then BadLengths
          else
            var count := Extra(RepeatBase(c), n, rest);
            if ntot - |acc| < count then BadLengths
            else ReadLengths(cl, ntot, acc + Repeated(Fill(c, acc), count), rest[n..])
  }

  datatype HeaderResult = Tables(ll: seq<nat>, dd: seq<nat>, rest: seq<bit>) | BadHeader | ShortHeader

  /** The lengths described from bit c on, by a code of hclen sizes. */
  function LengthsFrom(s: seq<bit>, c: nat, hclen: nat, ntot: nat): (r: LengthsResult)
    requires hclen <= 19 && c + 3 * hclen <= |s|
    ensures r.Lengths? ==> |r.lens| == ntot && AllLengths(r.lens)
  {
    var cl := Arrange(Sizes(s, c, hclen));
    if !Accepted(cl) then BadLengths else ReadLengths(cl, ntot, [], s[c + 3 * hclen..])
  }

  /** The verdict on the lengths read: split at hlit, both halves must be accepted. */
  function Verdict(r: LengthsResult, hlit: nat): (h: HeaderResult)
    requires r.Lengths? ==> hlit <= |r.lens| && hlit <= 288 && |r.lens| - hlit <= 32 && AllLengths(r.lens)
    ensures h.Tables? ==> ValidLens(h.ll) && Accepted(h.ll) && ValidLens(h.dd) && Accepted(h.dd)
  {
    match r
    case BadLengths => BadHeader
    case ShortLengths => ShortHeader
    case Lengths(lens, rest) =>
      if Accepted(lens[..hlit]) && Accepted(lens[hlit..])
      then Tables(lens[..hlit], lens[hlit..], rest)
      else BadHeader
  }

  /** The two code-length lists that a dynamic block starts with. */
  function Header(bits: seq<bit>): (r: HeaderResult)
    ensures r.Tables? ==> ValidLens(r.ll) && Accepted(r.ll) && ValidLens(r.dd) && Accepted(r.dd)
  {
    if |bits| < 14 then ShortHeader
    else
      Pow2Values();
      var hlit := FromBits(bits[..5]) + 257;
      var hdist := FromBits(bits[5..10]) + 1;
      var hclen := FromBits(bits[10..14]) + 4;
      if |bits| < 14 + 3 * hclen then ShortHeader
      else
        Verdict(LengthsFrom(bits, 14, hclen, hlit + hdist), hlit)
  }

  // ----- the decoder -----

  /** What reading lengths from bit c on stands for; nothing yet if the bits end before. */
  function LengthsAt(cl: seq<nat>, ntot: nat, acc: seq<nat>, s: seq<bit>, c: nat): LengthsResult
    requires |cl| == 19 && |acc| <= ntot && AllLengths(acc)
  {
    if c <= |s| then ReadLengths(cl, ntot, acc, s[c..]) else ShortLengths
  }

  function LengthsEnd(lens: seq<nat>, s: seq<bit>, c: nat): LengthsResult
  {
    if c <= |s| then Lengths(lens, s[c..]) else ShortLengths
  }

  /** Whatever zeros follow the input: with acc read and the cursor at bit c, the lengths from bit c0 on still mean what
      they meant there. */
  ghost predicate TracksLengths(input: seq<byte>, cl: seq<nat>, ntot: nat, c0: nat, c: nat, acc: seq<nat>)
    requires |cl| == 19 && |acc| <= ntot && AllLengths(acc)
  {
    forall n: nat :: LengthsAt(cl, ntot, [], Padded(input, n), c0) == LengthsAt(cl, ntot, acc, Padded(input, n), c)
  }

  /** Whatever zeros follow: the lengths from bit c0 on are these, and they end in front of bit c. */
  ghost predicate LengthsEndAt(input: seq<byte>, cl: seq<nat>, ntot: nat, c0: nat, lens: seq<nat>, c: nat)
    requires |cl| == 19
  {
    forall n: nat :: LengthsAt(cl, ntot, [], Padded(input, n), c0) == LengthsEnd(lens, Padded(input, n), c)
  }

  /** The input itself describes no lengths. */
  ghost predicate NoLengths(input: seq<byte>, cl: seq<nat>, ntot: nat, c0: nat)
    requires |cl| == 19
  {
    !LengthsAt(cl, ntot, [], Padded(input, 0), c0).Lengths?
  }

  // ----- one symbol, for any bits -----

  lemma NoLengthHere(cl: seq<nat>, ntot: nat, s: seq<bit>, c: nat, acc: seq<nat>)
    requires |cl| == 19 && ValidLens(cl) && Accepted(cl) && |acc| < ntot && AllLengths(acc)
    requires c > |s| || DecodeSymbol(cl, Window(s, c, 16)) == None
    ensures !LengthsAt(cl, ntot, acc, s, c).Lengths?
  {
    if c <= |s| {
      NoSymbolSeen(cl, s, c);
    }
  }

  lemma LengthGoesOn(cl: seq<nat>, ntot: nat, s: seq<bit>, c: nat, acc: seq<nat>, z: nat)
    requires |cl| == 19 && ValidLens(cl) && Accepted(cl) && |acc| < ntot && AllLengths(acc)
    requires DecodeSymbol(cl, Window(s, c, 16)) == Some(z) && z < 16
    ensures LengthsAt(cl, ntot, acc, s, c) == LengthsAt(cl, ntot, acc + [z], s, c + cl[z])
  {
    if c <= |s| {
      SymbolSeen(cl, s, c, z);
    }
  }

  lemma RepeatGoesOn(cl: seq<nat>, ntot: nat, s: seq<bit>, c: nat, acc: seq<nat>, z: nat, count: nat)
    requires |cl| == 19 && ValidLens(cl) && Accepted(cl) && |acc| < ntot && AllLengths(acc)
    requires DecodeSymbol(cl, Window(s, c, 16)) == Some(z) && 16 <= z < 19
    requires count == RepeatBase(z) + FromBits(Window(s, c + cl[z], RepeatExtra(z)))
    ensures (z == 16 && acc == []) || ntot - |acc| < count ==> !LengthsAt(cl, ntot, acc, s, c).Lengths?
    ensures !(z == 16 && acc == []) && ntot - |acc| >= count ==>
      LengthsAt(cl, ntot, acc, s, c)
        == LengthsAt(cl, ntot, acc + Repeated(Fill(z, acc), count), s, c + cl[z] + RepeatExtra(z))
  {
    hide FromBits, DecodeSymbol, Window, Accepted, ValidLens, RepeatBase, RepeatExtra;
    if c <= |s| {
      SymbolSeen(cl, s, c, z);
      var e, n := c + cl[z], RepeatExtra(z);
      if e <= |s| && e + n <= |s| {
        ExtraSeen(RepeatBase(z), n, s, e);
      }
    }
  }

  // ----- one symbol, whatever zeros follow the input -----

  lemma TrackNoLength(input: seq<byte>, cl: seq<nat>, ntot: nat, c0: nat, c: nat, acc: seq<nat>)
    requires |cl| == 19 && ValidLens(cl) && Accepted(cl) && |acc| < ntot && AllLengths(acc)
    requires TracksLengths(input, cl, ntot, c0, c, acc)
    requires var s := BytesToBits(input); c > |s| || DecodeSymbol(cl, Window(s, c, 16)) == None
    ensures NoLengths(input, cl, ntot, c0)
  {
    hide BytesToBits, DecodeSymbol, Window, Accepted, ValidLens, LengthsAt;
    PaddedNothing(input);
    NoLengthHere(cl, ntot, Padded(input, 0), c, acc);
  }

  lemma TrackLength(input: seq<byte>, cl: seq<nat>, ntot: nat, c0: nat, c: nat, acc: seq<nat>, z: nat)
    requires |cl| == 19 && ValidLens(cl) && Accepted(cl) && |acc| < ntot && AllLengths(acc)
    requires TracksLengths(input, cl, ntot, c0, c, acc)
    requires DecodeSymbol(cl, Window(BytesToBits(input), c, 16)) == Some(z) && z < 16
    ensures TracksLengths(input, cl, ntot, c0, c + cl[z], acc + [z])
  {
    hide BytesToBits, DecodeSymbol, Window, Accepted, ValidLens, LengthsAt, Padded;
    forall n: nat ensures LengthsAt(cl, ntot, [], Padded(input, n), c0)
                       == LengthsAt(cl, ntot, acc + [z], Padded(input, n), c + cl[z]) {
      PaddedWindow(input, n, c, 16);
      LengthGoesOn(cl, ntot, Padded(input, n), c, acc, z);
    }
  }

  lemma TrackRepeat(input: seq<byte>, cl: seq<nat>, ntot: nat, c0: nat, c: nat, acc: seq<nat>, z: nat, count: nat)
    requires |cl| == 19 && ValidLens(cl) && Accepted(cl) && |acc| < ntot && AllLengths(acc)
    requires TracksLengths(input, cl, ntot, c0, c, acc)
    requires DecodeSymbol(cl, Window(BytesToBits(input), c, 16)) == Some(z) && 16 <= z < 19
    requires count == RepeatBase(z) + FromBits(Window(BytesToBits(input), c + cl[z], RepeatExtra(z)))
    ensures (z == 16 && acc == []) || ntot - |acc| < count ==> NoLengths(input, cl, ntot, c0)
    ensures !(z == 16 && acc == []) && ntot - |acc| >= count ==>
      TracksLengths(input, cl, ntot, c0, c + cl[z] + RepeatExtra(z), acc + Repeated(Fill(z, acc), count))
  {
    hide BytesToBits, DecodeSymbol, Window, Accepted, ValidLens, LengthsAt, Padded, FromBits, RepeatBase, RepeatExtra;
    forall n: nat ensures PaddedRepeat(input, cl, ntot, c0, c, acc, z, count, n) {
      PaddedWindow(input, n, c, 16);
      PaddedWindow(input, n, c + cl[z], RepeatExtra(z));
      RepeatGoesOn(cl, ntot, Padded(input, n), c, acc, z, count);
    }
    assert PaddedRepeat(input, cl, ntot, c0, c, acc, z, count, 0);
    if !(z == 16 && acc == []) && ntot - |acc| >= count {
      forall n: nat ensures LengthsAt(cl, ntot, [], Padded(input, n), c0)
          == LengthsAt(cl, ntot, acc + Repeated(Fill(z, acc), count), Padded(input, n), c + cl[z] + RepeatExtra(z)) {
        assert PaddedRepeat(input, cl, ntot, c0, c, acc, z, count, n);
      }
    }
  }

  /** A repeat symbol with n zero bytes behind the input. */
  ghost predicate PaddedRepeat(input: seq<byte>, cl: seq<nat>, ntot: nat, c0: nat, c: nat, acc: seq<nat>, z: nat, count: nat, n: nat)
    requires |cl| == 19 && |acc| < ntot && AllLengths(acc) && 16 <= z < 19
  {
    var spec := LengthsAt(cl, ntot, [], Padded(input, n), c0);
    if (z == 16 && acc == []) || ntot - |acc| < count then !spec.Lengths?
    else spec == LengthsAt(cl, ntot, acc + Repeated(Fill(z, acc), count), Padded(input, n), c + cl[z] + RepeatExtra(z))
  }

  /** Reads the lengths of the code-length code. */
  method ReadSizes(a: Buf, hclen: nat) returns (sizes: array<nat>)
    requires a.ReaderValid() && hclen <= 19
    modifies a`pos, a`code_buffer, a`num_bits, a`consumed
    ensures a.ReaderValid() && a.consumed == old(a.consumed) + 3 * hclen
    ensures fresh(sizes) && sizes.Length == 19
    ensures sizes[..] == Arrange(Sizes(a.Stream(), old(a.consumed), hclen))
  {
    hide U8, Window, FromBits, BytesToBits, ToBits, Pow2, Buf.ReaderValid, Arrange, Sizes, Zigzag, SmallSizes;
    ghost var s, c := a.Stream(), a.consumed;
    sizes := NoSizesYet();
    NoSizes(s, c);
    var i := 0;
    while i < hclen
      invariant 0 <= i <= hclen && a.ReaderValid() && a.consumed == c + 3 * i
      invariant sizes[..] == Arrange(Sizes(s, c, i))
    {
      var v := a.Receive(3);
      SizesStep(s, c, i, v);
      StoreSize(sizes, i, v);
      i := i + 1;
    }
  }

  method NoSizesYet() returns (sizes: array<nat>)
    ensures fresh(sizes) && sizes[..] == seq(19, (i: nat) => 0)
  {
    sizes := new nat[19];
    forall i | 0 <= i < 19 {
      sizes[i] := 0;
    }
  }

  method StoreSize(sizes: array<nat>, i: nat, v: nat)
    requires sizes.Length == 19 && i < 19 && v < 8
    modifies sizes
    ensures sizes[..] == old(sizes[..])[Zigzag(i) := v]
  {
    hide Zigzag;
    sizes[Zigzag(i)] := U8(v);
  }

  lemma NoSizes(s: seq<bit>, c: nat)
    ensures Arrange(Sizes(s, c, 0)) == seq(19, (i: nat) => 0)
  {
  }

  lemma SizesStep(s: seq<bit>, c: nat, i: nat, v: nat)
    requires i < 19 && v == FromBits(Window(s, c + 3 * i, 3))
    ensures v < 8
    ensures Arrange(Sizes(s, c, i + 1)) == Arrange(Sizes(s, c, i))[Zigzag(i) := v]
  {
    assert Pow2(3) == 8;
    var next := Sizes(s, c, i + 1);
    assert next[..|next| - 1] == Sizes(s, c, i);
  }

  /** Stores one length symbol or one repeat; returns the new number of lengths. */
  method StoreLengths(lencodes: array<nat>, n: nat, fill: nat, count: nat)
    requires n + count <= lencodes.Length
    modifies lencodes
    ensures lencodes[..n + count] == old(lencodes[..n]) + Repeated(fill, count)
  {
    forall i | n <= i < n + count {
      lencodes[i] := fill;
    }
  }

  /** One repeat symbol z: the previous length again, or a run of zeros. */
  method RepeatStep(a: Buf, lencodes: array<nat>, n: nat, ntot: nat, ghost cl: seq<nat>, ghost c0: nat, ghost c: nat, z: nat)
    returns (ok: bool, n': nat)
    requires a.ReaderValid() && |cl| == 19 && ValidLens(cl) && Accepted(cl) && 16 <= z < 19
    requires n < ntot <= 320 && lencodes.Length == 455 && AllLengths(lencodes[..n])
    requires TracksLengths(a.input, cl, ntot, c0, c, lencodes[..n])
    requires DecodeSymbol(cl, Window(a.Stream(), c, 16)) == Some(z) && a.consumed == c + cl[z]
    modifies a`pos, a`code_buffer, a`num_bits, a`consumed, lencodes
    ensures a.ReaderValid() && a.consumed >= old(a.consumed)
    ensures ok ==> n < n' <= ntot && AllLengths(lencodes[..n'])
    ensures ok ==> TracksLengths(a.input, cl, ntot, c0, a.consumed, lencodes[..n'])
    ensures !ok ==> NoLengths(a.input, cl, ntot, c0)
  {
    hide U8, Window, FromBits, BytesToBits, Buf.ReaderValid, TracksLengths, NoLengths, DecodeSymbol, Accepted, ValidLens,
      RepeatBase, RepeatExtra;
    ok, n' := false, n;
    ghost var acc := lencodes[..n];
    var count := ReadExtra(a, RepeatBase(z), RepeatExtra(z));
    TrackRepeat(a.input, cl, ntot, c0, c, acc, z, count);
    if z == 16 && n == 0 {
      return;
    }
    if ntot - n < count {
      return;
    }
    StoreLengths(lencodes, n, if z == 16 then lencodes[n - 1] else 0, count);
    n' := n + count;
    assert lencodes[..n'] == acc + Repeated(Fill(z, acc), count);
    ok := true;
  }

  method StoreLength(lencodes: array<nat>, n: nat, v: nat)
    requires n < lencodes.Length
    modifies lencodes
    ensures lencodes[..n + 1] == old(lencodes[..n]) + [v]
  {
    lencodes[n] := v;
  }

  /** One code-length symbol with its repeat count, if it has one. */
  method LengthStep(a: Buf, z: Huffman, lencodes: array<nat>, n: nat, ntot: nat, ghost cl: seq<nat>, ghost c0: nat)
    returns (ok: bool, n': nat)
    requires a.ReaderValid() && z.Built(cl) && |cl| == 19
    requires n < ntot <= 320 && lencodes.Length == 455 && lencodes !in z.Repr && AllLengths(lencodes[..n])
    requires TracksLengths(a.input, cl, ntot, c0, a.consumed, lencodes[..n])
    modifies a`pos, a`code_buffer, a`num_bits, a`consumed, a`hit_zeof_once, lencodes
    ensures a.ReaderValid() && a.consumed >= old(a.consumed)
    ensures ok ==> n < n' <= ntot && AllLengths(lencodes[..n'])
    ensures ok ==> TracksLengths(a.input, cl, ntot, c0, a.consumed, lencodes[..n'])
    ensures !ok ==> NoLengths(a.input, cl, ntot, c0)
  {
    hide U8, Window, FromBits, BytesToBits, Buf.ReaderValid, TracksLengths, NoLengths, DecodeSymbol, Accepted, ValidLens,
      Huffman.Valid, Huffman.Built;
    BuiltAccepted(z, cl);
    ok, n' := false, n;
    ghost var c, acc := a.consumed, lencodes[..n];
    var sym := a.Decode(z, cl);
    if sym < 0 || sym >= 19 {
      TrackNoLength(a.input, cl, ntot, c0, c, acc);
      return;
    }
    if sym < 16 {
      TrackLength(a.input, cl, ntot, c0, c, acc, sym);
      StoreLength(lencodes, n, U8(sym));
      n' := n + 1;
      ok := true;
    } else {
      ok, n' := RepeatStep(a, lencodes, n, ntot, cl, c0, c, sym);
    }
  }

  lemma LengthsStart(input: seq<byte>, cl: seq<nat>, ntot: nat, c0: nat)
    requires |cl| == 19
    ensures TracksLengths(input, cl, ntot, c0, c0, [])
  {
  }

  lemma LengthsComplete(input: seq<byte>, cl: seq<nat>, ntot: nat, c0: nat, c: nat, acc: seq<nat>)
    requires |cl| == 19 && |acc| == ntot && AllLengths(acc) && TracksLengths(input, cl, ntot, c0, c, acc)
    ensures LengthsEndAt(input, cl, ntot, c0, acc, c)
  {
  }

  /** Reads ntot code lengths. Success means that they are the ones described, if need be with zeros behind the input;
      lengths that are complete are always read. */
  method ReadCodeLengths(a: Buf, z: Huffman, ntot: nat, ghost cl: seq<nat>)
    returns (ok: bool, lencodes: array<nat>)
    requires a.ReaderValid() && z.Built(cl) && |cl| == 19 && ntot <= 320 && a !in z.Repr
    modifies a`pos, a`code_buffer, a`num_bits, a`consumed, a`hit_zeof_once
    ensures a.ReaderValid() && a.consumed >= old(a.consumed) && fresh(lencodes) && lencodes.Length == 455
    ensures ok ==> AllLengths(lencodes[..ntot])
    ensures if ok then LengthsEndAt(a.input, cl, ntot, old(a.consumed), lencodes[..ntot], a.consumed)
            else NoLengths(a.input, cl, ntot, old(a.consumed))
  {
    hide Huffman.Built, Huffman.Valid, TracksLengths, NoLengths, LengthsEndAt, Buf.ReaderValid, BytesToBits;
    ghost var c0 := a.consumed;
    lencodes := new nat[455];
    var n := 0;
    LengthsStart(a.input, cl, ntot, c0);
    assert lencodes[..0] == [];
    ok := true;
    while n < ntot
      invariant n <= ntot && a.ReaderValid() && z.Built(cl) && ok && a.consumed >= c0
      invariant AllLengths(lencodes[..n])
      invariant TracksLengths(a.input, cl, ntot, c0, a.consumed, lencodes[..n])
    {
      ok, n := LengthStep(a, z, lencodes, n, ntot, cl, c0);
      if !ok {
        return;
      }
    }
    LengthsComplete(a.input, cl, ntot, c0, a.consumed, lencodes[..n]);
  }

  /** Where a dynamic header's parts lie in the stream. */
  lemma HeaderParts(s: seq<bit>, c: nat, hlit: nat, hdist: nat, hclen: nat)
    requires hlit == FromBits(Window(s, c, 5)) + 257
    requires hdist == FromBits(Window(s, c + 5, 5)) + 1
    requires hclen == FromBits(Window(s, c + 10, 4)) + 4
    ensures hlit <= 288 && hdist <= 32 && hclen <= 19
    ensures HeaderAt(s, c) == if c + 14 + 3 * hclen > |s| then ShortHeader
                              else Verdict(LengthsFrom(s, c + 14, hclen, hlit + hdist), hlit)
  {
    hide FromBits, Window, Accepted, ReadLengths, Arrange, Verdict;
    SmallFields(s, c);
    if c + 14 <= |s| {
      var bits := s[c..];
      FieldInside(s, c, 0, 5);
      FieldInside(s, c, 5, 5);
      FieldInside(s, c, 10, 4);
      assert bits[..5] == bits[0..5];
      SizesShift(s, c, 14, hclen);
      if c + 14 + 3 * hclen <= |s| {
        assert bits[14 + 3 * hclen..] == s[c + 14 + 3 * hclen..];
      }
    }
  }

  lemma SmallFields(s: seq<bit>, c: nat)
    ensures FromBits(Window(s, c, 5)) < 32 && FromBits(Window(s, c + 5, 5)) < 32 && FromBits(Window(s, c + 10, 4)) < 16
  {
    Pow2Values();
  }

  lemma FieldInside(s: seq<bit>, c: nat, i: nat, n: nat)
    requires c + i + n <= |s|
    ensures Window(s, c + i, n) == s[c..][i..i + n]
  {
  }

  lemma {:induction false} SizesShift(s: seq<bit>, c: nat, i: nat, n: nat)
    requires c <= |s|
    ensures Sizes(s[c..], i, n) == Sizes(s, c + i, n)
  {
    if n > 0 {
      SizesShift(s, c, i, n - 1);
      assert Window(s[c..], i + 3 * (n - 1), 3) == Window(s, c + i + 3 * (n - 1), 3);
    }
  }

  function HeaderAt(s: seq<bit>, c: nat): HeaderResult
  {
    if c <= |s| then Header(s[c..]) else ShortHeader
  }

  function HeaderEnd(ll: seq<nat>, dd: seq<nat>, s: seq<bit>, c: nat): HeaderResult
  {
    if c <= |s| then Tables(ll, dd, s[c..]) else ShortHeader
  }

  /** Whatever zeros follow: the header from bit c0 on describes these codes and ends in front of bit c. */
  ghost predicate HeaderEndAt(input: seq<byte>, c0: nat, ll: seq<nat>, dd: seq<nat>, c: nat)
  {
    forall n: nat :: HeaderAt(Padded(input, n), c0) == HeaderEnd(ll, dd, Padded(input, n), c)
  }

  /** The lengths described from bit c on by a code of hclen sizes; nothing yet if the bits end before. */
  function AllAt(s: seq<bit>, c: nat, hclen: nat, ntot: nat): (r: LengthsResult)
    requires hclen <= 19
    ensures r.Lengths? ==> |r.lens| == ntot && AllLengths(r.lens)
  {
    if c + 3 * hclen <= |s| then LengthsFrom(s, c, hclen, ntot) else ShortLengths
  }

  /** Whatever zeros follow: these are the lengths, and they end in front of bit c. */
  ghost predicate AllEndAt(input: seq<byte>, c0: nat, hclen: nat, ntot: nat, lens: seq<nat>, c: nat)
    requires hclen <= 19
  {
    forall n: nat :: AllAt(Padded(input, n), c0, hclen, ntot) == LengthsEnd(lens, Padded(input, n), c)
  }

  lemma {:induction false} PaddedSizes(input: seq<byte>, n: nat, c: nat, k: nat)
    ensures Sizes(Padded(input, n), c, k) == Sizes(BytesToBits(input), c, k)
  {
    hide Padded, BytesToBits, Window, FromBits;
    if k > 0 {
      PaddedSizes(input, n, c, k - 1);
      PaddedWindow(input, n, c + 3 * (k - 1), 3);
    }
  }

  /** The lengths that a code description's own code describes. */
  lemma AllBySizes(s: seq<bit>, c: nat, hclen: nat, ntot: nat, cl: seq<nat>)
    requires hclen <= 19 && cl == Arrange(Sizes(s, c, hclen))
    ensures Accepted(cl) ==> AllAt(s, c, hclen, ntot) == LengthsAt(cl, ntot, [], s, c + 3 * hclen)
    ensures !Accepted(cl) ==> !AllAt(s, c, hclen, ntot).Lengths?
  {
    hide Arrange, Sizes, Accepted, ReadLengths;
  }

  lemma AllRead(input: seq<byte>, c: nat, hclen: nat, ntot: nat, cl: seq<nat>, lens: seq<nat>, e: nat)
    requires hclen <= 19 && cl == Arrange(Sizes(BytesToBits(input), c, hclen)) && Accepted(cl)
    requires LengthsEndAt(input, cl, ntot, c + 3 * hclen, lens, e)
    ensures AllEndAt(input, c, hclen, ntot, lens, e)
  {
    hide Arrange, Sizes, Accepted, LengthsAt, AllAt, LengthsEnd, Padded, BytesToBits;
    forall n: nat ensures AllAt(Padded(input, n), c, hclen, ntot) == LengthsEnd(lens, Padded(input, n), e) {
      PaddedSizes(input, n, c, hclen);
      AllBySizes(Padded(input, n), c, hclen, ntot, cl);
    }
  }

  lemma AllRejected(input: seq<byte>, c: nat, hclen: nat, ntot: nat, cl: seq<nat>)
    requires hclen <= 19 && cl == Arrange(Sizes(BytesToBits(input), c, hclen))
    requires !Accepted(cl) || NoLengths(input, cl, ntot, c + 3 * hclen)
    ensures !AllAt(BytesToBits(input), c, hclen, ntot).Lengths?
  {
    hide Arrange, Sizes, Accepted, LengthsAt, AllAt, LengthsEnd, BytesToBits;
    PaddedNothing(input);
    AllBySizes(BytesToBits(input), c, hclen, ntot, cl);
  }

  /** Reads the code-length code and, with it, ntot code lengths. */
  method ReadAllLengths(a: Buf, hclen: nat, ntot: nat) returns (ok: bool, lencodes: array<nat>)
    requires a.Valid() && hclen <= 19 && ntot <= 320
    modifies a`pos, a`code_buffer, a`num_bits, a`consumed, a`hit_zeof_once
    ensures a.Valid() && a.consumed >= old(a.consumed) && fresh(lencodes) && lencodes.Length == 455
    ensures ok ==> AllLengths(lencodes[..ntot])
    ensures if ok then AllEndAt(a.input, old(a.consumed), hclen, ntot, lencodes[..ntot], a.consumed)
            else !AllAt(a.Stream(), old(a.consumed), hclen, ntot).Lengths?
  {
    hide Arrange, Sizes, AllAt, AllEndAt, NoLengths, LengthsEndAt, Buf.ReaderValid, BytesToBits, Huffman.Built, Huffman.Valid,
      Accepted, SmallSizes;
    ghost var c := a.consumed;
    var sizes := ReadSizes(a, hclen);
    var z := new Huffman();
    lencodes := new nat[455];
    ok := z.Build(sizes[..]);
    if ok {
      ok, lencodes := ReadCodeLengths(a, z, ntot, sizes[..]);
      if ok {
        AllRead(a.input, c, hclen, ntot, sizes[..], lencodes[..ntot], a.consumed);
        return;
      }
    }
    AllRejected(a.input, c, hclen, ntot, sizes[..]);
  }

  /** Splits the lengths and builds both tables. */
  method BuildBoth(a: Buf, lens: seq<nat>, hlit: nat) returns (ok: bool)
    requires a.Valid() && AllLengths(lens) && hlit <= |lens| && hlit <= 288 && |lens| - hlit <= 32
    modifies a.z_length.Repr, a.z_distance.Repr
    ensures a.Valid()
    ensures ok <==> Accepted(lens[..hlit]) && Accepted(lens[hlit..])
    ensures ok ==> a.z_length.Built(lens[..hlit]) && a.z_distance.Built(lens[hlit..])
  {
    hide Buf.ReaderValid, Accepted, Huffman.Built;
    ok := a.z_length.Build(lens[..hlit]);
    if ok {
      ok := a.z_distance.Build(lens[hlit..]);
    }
  }

  lemma HeaderRead(input: seq<byte>, c: nat, hlit: nat, hdist: nat, hclen: nat, lens: seq<nat>, e: nat)
    requires hlit == FromBits(Window(BytesToBits(input), c, 5)) + 257
    requires hdist == FromBits(Window(BytesToBits(input), c + 5, 5)) + 1
    requires hclen == FromBits(Window(BytesToBits(input), c + 10, 4)) + 4
    requires |lens| == hlit + hdist && hclen <= 19 && AllEndAt(input, c + 14, hclen, hlit + hdist, lens, e)
    requires AllLengths(lens) && hlit <= 288 && hdist <= 32 && Accepted(lens[..hlit]) && Accepted(lens[hlit..])
    ensures HeaderEndAt(input, c, lens[..hlit], lens[hlit..], e)
  {
    hide FromBits, Window, BytesToBits, Padded, Accepted, LengthsFrom, HeaderAt, AllLengths, ValidLens;
    forall n: nat ensures HeaderAt(Padded(input, n), c) == HeaderEnd(lens[..hlit], lens[hlit..], Padded(input, n), e) {
      PaddedWindow(input, n, c, 5);
      PaddedWindow(input, n, c + 5, 5);
      PaddedWindow(input, n, c + 10, 4);
      HeaderParts(Padded(input, n), c, hlit, hdist, hclen);
    }
  }

  /** Where the header of the input itself is rejected. */
  lemma HeaderRejected(input: seq<byte>, c: nat, hlit: nat, hdist: nat, hclen: nat)
    requires hlit == FromBits(Window(BytesToBits(input), c, 5)) + 257
    requires hdist == FromBits(Window(BytesToBits(input), c + 5, 5)) + 1
    requires hclen == FromBits(Window(BytesToBits(input), c + 10, 4)) + 4
    requires hclen <= 19
    requires var r := AllAt(BytesToBits(input), c + 14, hclen, hlit + hdist);
      r.Lengths? ==> !(Accepted(r.lens[..hlit]) && Accepted(r.lens[hlit..]))
    ensures !HeaderAt(BytesToBits(input), c).Tables?
  {
    hide FromBits, Window, BytesToBits, Accepted, LengthsFrom, HeaderAt, AllLengths, ValidLens;
    HeaderParts(BytesToBits(input), c, hlit, hdist, hclen);
  }

  /** The lengths of the input itself are the ones read, if it has any. */
  lemma SameLengths(input: seq<byte>, c: nat, hclen: nat, ntot: nat, lens: seq<nat>, e: nat)
    requires hclen <= 19 && AllEndAt(input, c, hclen, ntot, lens, e)
    ensures var r := AllAt(BytesToBits(input), c, hclen, ntot); r.Lengths? ==> r.lens == lens
  {
    hide AllAt, BytesToBits;
    PaddedNothing(input);
    assert AllAt(Padded(input, 0), c, hclen, ntot) == LengthsEnd(lens, Padded(input, 0), e);
  }

  /** Reads a dynamic header and builds both tables from it. Success means that the header describes them, if need be
      with zeros behind the input; a header that is complete and describes two codes is always accepted. */
  method ComputeHuffmanCodes(a: Buf) returns (ok: bool, ghost ll: seq<nat>, ghost dd: seq<nat>)
    requires a.Valid()
    modifies a`pos, a`code_buffer, a`num_bits, a`consumed, a`hit_zeof_once, a.z_length.Repr, a.z_distance.Repr
    ensures a.Valid() && a.consumed >= old(a.consumed)
    ensures ok ==> a.z_length.Built(ll) && a.z_distance.Built(dd)
    ensures if ok then HeaderEndAt(a.input, old(a.consumed), ll, dd, a.consumed)
            else !HeaderAt(a.Stream(), old(a.consumed)).Tables?
  {
    hide AllAt, AllEndAt, HeaderAt, HeaderEndAt, Buf.ReaderValid, BytesToBits, Huffman.Built, Huffman.Valid, Accepted,
      FromBits, ToBits, Window, Pow2;
    ghost var c := a.consumed;
    ll, dd := [], [];
    SmallFields(a.Stream(), c);
    var hlit := a.Receive(5);
    hlit := hlit + 257;
    var hdist := a.Receive(5);
    hdist := hdist + 1;
    var hclen := a.Receive(4);
    hclen := hclen + 4;
    var lencodes;
    ok, lencodes := ReadAllLengths(a, hclen, hlit + hdist);
    if ok {
      ghost var lens := lencodes[..hlit + hdist];
      ll, dd := lens[..hlit], lens[hlit..];
      SameLengths(a.input, c + 14, hclen, hlit + hdist, lens, a.consumed);
      ok := BuildBoth(a, lencodes[..hlit + hdist], hlit);
      if ok {
        HeaderRead(a.input, c, hlit, hdist, hclen, lens, a.consumed);
        return;
      }
    }
    HeaderRejected(a.input, c, hlit, hdist, hclen);
  }
}
