/** The tables of RFC 1951 as its sections 3.2.5 to 3.2.7 give them, and streams whose bytes and output are written out. */
module DeflateTables {
  import opened Bits
  import opened Canonical
  import opened Options
  import opened ZBuf
  import opened InflateBlock
  import opened DynamicHeader
  import opened DeflateEncode
  import opened Inflate
  import opened ZlibStream
  import opened ZlibFile

  // ----- lengths and distances (section 3.2.5) -----

  /** Lengths: from symbol 265 on, each group of four symbols has an extra bit more than the one before; every symbol
      starts where the one before ends. 285 stands for 258 alone. */
  lemma LengthTable(z: nat)
    requires 257 <= z < 286
    ensures LengthExtra(z) == if z <= 264 || z == 285 then 0 else (z - 261) / 4
    ensures z == 257 ==> LengthBase(z) == 3
    ensures z < 284 ==> LengthBase(z + 1) == LengthBase(z) + Pow2(LengthExtra(z))
    ensures z == 285 ==> LengthBase(z) == 258
  {
    hide LengthBase, LengthExtra, Pow2;
    LengthExtras(z);
    LengthSteps(z);
    ShortPower(LengthExtra(z));
  }

  lemma LengthSteps(z: nat)
    requires 257 <= z < 286
    ensures z == 257 ==> LengthBase(z) == 3
    ensures z < 284 ==> LengthBase(z + 1) == LengthBase(z) + Power(LengthExtra(z))
    ensures z == 285 ==> LengthBase(z) == 258
  {
    hide LengthExtra;
    LengthExtras(z);
  }

  /** Small powers of two. */
  function Power(n: nat): nat
  {
    if n == 0 then 1 else if n == 1 then 2 else if n == 2 then 4 else if n == 3 then 8 else if n == 4 then 16
    else if n == 5 then 32 else if n == 6 then 64 else if n == 7 then 128 else if n == 8 then 256 else if n == 9 then 512
    else if n == 10 then 1024 else if n == 11 then 2048 else if n == 12 then 4096 else 8192
  }

  lemma ShortPower(n: nat)
    requires n <= 13
    ensures Power(n) == Pow2(n)
  {
    Pow2Values();
  }

  lemma LengthExtras(z: nat)
    requires 257 <= z < 286
    ensures LengthExtra(z) == if z <= 264 || z == 285 then 0 else (z - 261) / 4
  {
  }

  /** Distances: from symbol 4 on, each pair of symbols has an extra bit more. */
  lemma DistTable(d: nat)
    requires d < 30
    ensures DistExtra(d) == if d < 2 then 0 else d / 2 - 1
    ensures d == 0 ==> DistBase(d) == 1
    ensures d < 29 ==> DistBase(d + 1) == DistBase(d) + Pow2(DistExtra(d))
  {
    hide DistBase, DistExtra, Pow2;
    DistExtras(d);
    DistSteps(d);
    ShortPower(DistExtra(d));
  }

  lemma DistSteps(d: nat)
    requires d < 30
    ensures d == 0 ==> DistBase(d) == 1
    ensures d < 29 ==> DistBase(d + 1) == DistBase(d) + Power(DistExtra(d))
  {
    hide DistExtra;
    DistExtras(d);
  }

  lemma DistExtras(d: nat)
    requires d < 30
    ensures DistExtra(d) == if d < 2 then 0 else d / 2 - 1
  {
  }

  /** Bit t of a number read from the stream is bit t of the stream: extra bits come least significant first. */
  lemma ExtraBits(bits: seq<bit>, t: nat)
    requires t < |bits|
    ensures Bit(FromBits(bits), t) == bits[t]
  {
    ToFromBits(bits);
    assert ToBits(FromBits(bits), |bits|)[t] == Bit(FromBits(bits), t);
  }

  // ----- the fixed codes (section 3.2.6) -----

  lemma {:induction false} CountRun(lens: seq<nat>, m: nat, n: nat, v: nat, l: nat)
    requires m <= n <= |lens| && forall i :: m <= i < n ==> lens[i] == v
    ensures CountTo(lens, n, l) == CountTo(lens, m, l) + (if v == l then n - m else 0)
  {
    if m < n {
      CountRun(lens, m, n - 1, v, l);
    }
  }

  lemma FixedCounts(l: nat)
    requires l > 0
    ensures CountTo(FixedLL(), 144, l) == (if l == 8 then 144 else 0)
    ensures CountTo(FixedLL(), 256, l) == (if l == 8 then 144 else if l == 9 then 112 else 0)
    ensures CountTo(FixedLL(), 280, l) == (if l == 8 then 144 else if l == 9 then 112 else if l == 7 then 24 else 0)
    ensures Count(FixedLL(), l) == (if l == 8 then 152 else if l == 9 then 112 else if l == 7 then 24 else 0)
  {
    hide FixedLL, CountTo;
    FixedRuns();
    var ll := FixedLL();
    NoneYet(ll, l);
    CountRun(ll, 0, 144, 8, l);
    CountRun(ll, 144, 256, 9, l);
    CountRun(ll, 256, 280, 7, l);
    CountRun(ll, 280, 288, 8, l);
  }

  lemma NoneYet(lens: seq<nat>, l: nat)
    ensures CountTo(lens, 0, l) == 0
  {
  }

  lemma FixedRuns()
    ensures forall i :: 0 <= i < 144 ==> FixedLL()[i] == 8
    ensures forall i :: 144 <= i < 256 ==> FixedLL()[i] == 9
    ensures forall i :: 256 <= i < 280 ==> FixedLL()[i] == 7
    ensures forall i :: 280 <= i < 288 ==> FixedLL()[i] == 8
  {
  }

  lemma {:induction false} NoShorter(lens: seq<nat>, l: nat)
    requires forall k :: 0 < k < l ==> Count(lens, k) == 0
    ensures FirstCode(lens, l) == 0
  {
    hide Count;
    if l > 0 {
      NoShorter(lens, l - 1);
      if l == 1 {
        NoneOfZero(lens);
      }
    }
  }

  lemma NoneOfZero(lens: seq<nat>)
    ensures Count(lens, 0) == 0
  {
  }

  lemma FixedFirst()
    ensures FirstCode(FixedLL(), 7) == 0 && FirstCode(FixedLL(), 8) == 0x30 && FirstCode(FixedLL(), 9) == 0x190
  {
    hide Count, CountTo, FixedLL, FirstCode;
    forall k: nat | 0 < k < 7 ensures Count(FixedLL(), k) == 0 {
      FixedCounts(k);
    }
    NoShorter(FixedLL(), 7);
    FixedCounts(7);
    FixedCounts(8);
    NextFirst(FixedLL(), 7);
    NextFirst(FixedLL(), 8);
  }

  lemma NextFirst(lens: seq<nat>, l: nat)
    ensures FirstCode(lens, l + 1) == 2 * (FirstCode(lens, l) + Count(lens, l))
  {
  }

  /** The fixed literal/length code: 00110000 to 10111111, 110010000 to 111111111, 0000000 to 0010111, 11000000 to
      11000111. */
  lemma FixedCode(i: nat)
    requires i < 288
    ensures HasCode(FixedLL(), i)
    ensures i < 144 ==> FixedLL()[i] == 8 && Code(FixedLL(), i) == 0x30 + i
    ensures 144 <= i < 256 ==> FixedLL()[i] == 9 && Code(FixedLL(), i) == 0x190 + (i - 144)
    ensures 256 <= i < 280 ==> FixedLL()[i] == 7 && Code(FixedLL(), i) == i - 256
    ensures 280 <= i ==> FixedLL()[i] == 8 && Code(FixedLL(), i) == 0xC0 + (i - 280)
  {
    hide FirstCode, Count, CountTo, FixedLL;
    FixedRuns();
    var ll := FixedLL();
    FixedFirst();
    FixedCounts(ll[i]);
    NoneYet(ll, 8);
    if i < 144 {
      CountRun(ll, 0, i, 8, 8);
    } else if i < 256 {
      CountRun(ll, 144, i, 9, 9);
    } else if i < 280 {
      CountRun(ll, 256, i, 7, 7);
    } else {
      CountRun(ll, 280, i, 8, 8);
    }
  }

  /** The fixed distance code: the number of the symbol in five bits. */
  lemma FixedDistCode(d: nat)
    requires d < 32
    ensures HasCode(FixedDD(), d) && FixedDD()[d] == 5 && Code(FixedDD(), d) == d
  {
    var dd := FixedDD();
    forall k: nat | 0 < k < 5 ensures Count(dd, k) == 0 {
      CountRun(dd, 0, 32, 5, k);
    }
    NoShorter(dd, 5);
    CountRun(dd, 0, d, 5, 5);
  }

  /** Codes are sent highest bit first. */
  lemma CodeOrder(lens: seq<nat>, i: nat, t: nat)
    requires HasCode(lens, i) && t < lens[i]
    ensures SymbolBits(lens, i)[t] == Bit(Code(lens, i), lens[i] - 1 - t)
  {
  }

  // ----- code descriptions (section 3.2.7) -----

  /** The symbols in the order in which their code lengths are sent. */
  const ORDER: seq<nat> := [16, 17, 18, 0, 8, 7, 9, 6, 10, 5, 11, 4, 12, 3, 13, 2, 14, 1, 15]

  lemma OrderOnce(i: nat, j: nat)
    requires i < j < 19
    ensures ORDER[i] != ORDER[j]
  {
  }

  lemma ZigzagIsOrder(i: nat)
    requires i < 19
    ensures Zigzag(i) == ORDER[i]
  {
  }

  /** The i-th length sent belongs to symbol ORDER[i]; symbols whose length is not sent have none. */
  lemma {:induction false} SentLengths(vals: seq<nat>, i: nat)
    requires |vals| <= 19 && SmallSizes(vals) && i < 19
    ensures ORDER[i] < 19 && Arrange(vals)[ORDER[i]] == if i < |vals| then vals[i] else 0
  {
    hide Zigzag;
    ZigzagIsOrder(i);
    if vals != [] {
      var n := |vals| - 1;
      ZigzagIsOrder(n);
      SentLengths(vals[..n], i);
      if i < n {
        OrderOnce(i, n);
      } else if i > n {
        OrderOnce(n, i);
      }
    }
  }

  /** The repeat symbols: 16 repeats the previous length 3 to 6 times, 17 a zero 3 to 10 times, 18 a zero 11 to 138
      times. */
  lemma RepeatTable(c: nat, acc: seq<nat>)
    requires 16 <= c <= 18 && acc != []
    ensures c == 16 ==> RepeatBase(c) == 3 && RepeatExtra(c) == 2 && Fill(c, acc) == acc[|acc| - 1]
    ensures c == 17 ==> RepeatBase(c) == 3 && RepeatExtra(c) == 3 && Fill(c, acc) == 0
    ensures c == 18 ==> RepeatBase(c) == 11 && RepeatExtra(c) == 7 && Fill(c, acc) == 0
  {
  }

  function FiveBits(bits: seq<bit>, i: nat): nat
    requires i + 5 <= |bits|
  {
    bits[i] as int + 2 * bits[i + 1] as int + 4 * bits[i + 2] as int + 8 * bits[i + 3] as int + 16 * bits[i + 4] as int
  }

  lemma FiveBitsRead(bits: seq<bit>, i: nat)
    requires i + 5 <= |bits|
    ensures FromBits(bits[i..i + 5]) == FiveBits(bits, i)
  {
    var a := bits[i..i + 5];
    var b, c, d, e := a[1..], a[2..], a[3..], a[4..];
    assert a[1..] == b && b[1..] == c && c[1..] == d && d[1..] == e && e[1..] == [];
    assert FromBits(e) == bits[i + 4];
    assert FromBits(d) == bits[i + 3] as int + 2 * FromBits(e);
    assert FromBits(c) == bits[i + 2] as int + 2 * FromBits(d);
    assert FromBits(b) == bits[i + 1] as int + 2 * FromBits(c);
  }

  function FourBitsAt(bits: seq<bit>, i: nat): (n: nat)
    requires i + 4 <= |bits|
    ensures n <= 15
  {
    bits[i] as int + 2 * bits[i + 1] as int + 4 * bits[i + 2] as int + 8 * bits[i + 3] as int
  }

  lemma FourBitsRead(bits: seq<bit>, i: nat)
    requires i + 4 <= |bits|
    ensures FromBits(bits[i..i + 4]) == FourBitsAt(bits, i)
  {
    hide FromBits;
    FourOf(bits[i], bits[i + 1], bits[i + 2], bits[i + 3], []);
    NoBits();
    assert bits[i..i + 4] == [bits[i], bits[i + 1], bits[i + 2], bits[i + 3]] + [];
  }

  lemma NoBits()
    ensures FromBits([]) == 0
  {
  }

  /** The next four bits say how many more than four three-bit lengths follow, for the code of the lengths; with it,
      both lists of lengths are read as one. */
  lemma HeaderParts(bits: seq<bit>)
    requires |bits| >= 14
    ensures var n := 4 + FourBitsAt(bits, 10); var hlit, hdist := 257 + FiveBits(bits, 0), 1 + FiveBits(bits, 5);
      && (|bits| < 14 + 3 * n ==> Header(bits).ShortHeader?)
      && (|bits| >= 14 + 3 * n ==>
            hlit <= 288 && hdist <= 32 && Header(bits) == Verdict(LengthsFrom(bits, 14, n, hlit + hdist), hlit))
  {
    hide LengthsFrom, Verdict, FromBits, FiveBits, FourBitsAt;
    Pow2Values();
    FiveBitsRead(bits, 0);
    FiveBitsRead(bits, 5);
    FourBitsRead(bits, 10);
    FiveBitsSmall(bits, 0);
    FiveBitsSmall(bits, 5);
    assert bits[0..5] == bits[..5];
  }

  lemma FiveBitsSmall(bits: seq<bit>, i: nat)
    requires i + 5 <= |bits|
    ensures FiveBits(bits, i) <= 31
  {
  }

  /** The i-th length sent is in the three bits at place 3 i. */
  lemma {:induction false} ThreeBitLengths(s: seq<bit>, c: nat, n: nat, i: nat)
    requires i < n && c + 3 * n <= |s|
    ensures Sizes(s, c, n)[i] == s[c + 3 * i] as int + 2 * s[c + 3 * i + 1] as int + 4 * s[c + 3 * i + 2] as int
  {
    hide FromBits;
    if i < n - 1 {
      ThreeBitLengths(s, c, n - 1, i);
    } else {
      var w := Window(s, c + 3 * i, 3);
      NoBits();
      BitFirst(w[0], [w[1], w[2]]);
      BitFirst(w[1], [w[2]]);
      BitFirst(w[2], []);
      assert [w[0]] + [w[1], w[2]] == w && [w[1]] + [w[2]] == [w[1], w[2]] && [w[2]] + [] == [w[2]];
    }
  }

  // ----- blocks (section 3.2.3) -----

  /** Behind the final bit, two bits give the kind of a block, the lower one first: 00 stored, 01 with the fixed codes,
      10 with codes of its own, 11 reserved. */
  lemma BlockKinds(input: seq<byte>, c: nat, out: seq<byte>)
    requires c + 3 <= |BytesToBits(input)|
    ensures var s := BytesToBits(input); var r := OneBlock(input, c, out);
      && (s[c + 1] == 0 && s[c + 2] == 0 ==> r == BlockBody(input, 0, c + 3, out))
      && (s[c + 1] == 1 && s[c + 2] == 0 ==> r == Compressed(FixedLL(), FixedDD(), |s|, s[c + 3..], out))
      && (s[c + 1] == 0 && s[c + 2] == 1 ==> r == DynamicBlock(|s|, s[c + 3..], out))
      && (s[c + 1] == 1 && s[c + 2] == 1 ==> r == Invalid)
  {
    hide Compressed, DynamicBlock, Stored, FixedLL, FixedDD;
  }

  /** A stored block is accepted exactly when its length, two bytes with the low one first, is followed by its complement
      and by that many bytes; these are the data. */
  lemma StoredCheck(input: seq<byte>, p: nat, out: seq<byte>)
    requires p + 4 <= |input|
    ensures var len := input[p] as int + 256 * input[p + 1] as int;
      Stored(input, p, out)
      == if input[p + 2] as int + input[p] == 255 == input[p + 3] as int + input[p + 1] && p + 4 + len <= |input|
         then StoredDone(p + 4 + len, out + input[p + 4..p + 4 + len]) else StoredBad
  {
    Complements(input[p], input[p + 1], input[p + 2], input[p + 3]);
  }

  lemma Complements(a: byte, b: byte, c: byte, d: byte)
    ensures TwoBytes(c, d) == 0xFFFF - TwoBytes(a, b) <==> a as int + c == 255 == b as int + d
  {
  }

  /** The literal/length symbols 286 and 287 and the distance symbols 30 and 31 never occur, and no distance goes back
      beyond the start of the output. */
  lemma BlockRejects(ll: seq<nat>, dd: seq<nat>, bits: seq<bit>, out: seq<byte>, z: nat)
    requires DecodeSymbol(ll, bits) == Some(z) && z > 256
    ensures z >= 286 ==> Block(ll, dd, bits, out) == Bad
    ensures z <= 285 ==>
      var rest := bits[ll[z]..]; var n := LengthExtra(z);
      && (|rest| >= n && (DecodeSymbol(dd, rest[n..]) == Some(30) || DecodeSymbol(dd, rest[n..]) == Some(31)) ==>
            Block(ll, dd, bits, out) == Bad)
      && (ReadMatch(dd, z, rest).Copy? && ReadMatch(dd, z, rest).dist > |out| ==> Block(ll, dd, bits, out) == Bad)
  {
    hide DecodeSymbol, LengthExtra, LengthBase, DistBase, DistExtra, Extra;
  }

  /** A repeat of the previous length needs one, and no repeat goes beyond the number of lengths. */
  lemma RepeatRejects(cl: seq<nat>, ntot: nat, acc: seq<nat>, bits: seq<bit>, c: nat)
    requires |cl| == 19 && |acc| < ntot && AllLengths(acc) && DecodeSymbol(cl, bits) == Some(c) && c >= 16
    requires |bits| >= cl[c] + RepeatExtra(c)
    ensures c == 16 && acc == [] ==> ReadLengths(cl, ntot, acc, bits) == BadLengths
    ensures Extra(RepeatBase(c), RepeatExtra(c), bits[cl[c]..]) > ntot - |acc| ==> ReadLengths(cl, ntot, acc, bits) == BadLengths
  {
    var rest, n := bits[cl[c]..], RepeatExtra(c);
    assert |rest| >= n;
  }

  // ----- the header of a zlib stream (section 2.2 of RFC 1950) -----

  /** Window size and method, check bits, no preset dictionary. */
  lemma ZlibHeader(cmf: byte, flg: byte, rest: seq<byte>)
    requires rest != []
    ensures GoodZlibHeader([cmf, flg] + rest) <==> cmf % 16 == 8 && (256 * cmf + flg) % 31 == 0 && flg / 32 % 2 == 0
  {
    BitFive(flg);
  }

  lemma BitFive(v: nat)
    ensures Bit(v, 5) == v / 32 % 2
  {
    Pow2Values();
    BitOfShr(v, 5, 0);
    ShrIsDiv(v, 5);
  }

  // ----- streams written out -----

  /** The compressed bytes of the text abcbcb, as one block with the fixed codes. */
  const ABCBCB: seq<byte> := [0x4b, 0x4c, 0x4a, 0x06, 0x42, 0x00]

  lemma SixBytes(a: byte, b: byte, c: byte, d: byte, e: byte, f: byte)
    ensures BytesToBits([a, b, c, d, e, f])
         == ToBits(a, 8) + (ToBits(b, 8) + (ToBits(c, 8) + (ToBits(d, 8) + (ToBits(e, 8) + ToBits(f, 8)))))
  {
    hide ToBits, BytesToBits;
    ByteFirst(a, [b, c, d, e, f]);
    ByteFirst(b, [c, d, e, f]);
    ByteFirst(c, [d, e, f]);
    ByteFirst(d, [e, f]);
    ByteFirst(e, [f]);
    ByteFirst(f, []);
    NoBytes();
    assert [a] + [b, c, d, e, f] == [a, b, c, d, e, f] && [b] + [c, d, e, f] == [b, c, d, e, f];
    assert [c] + [d, e, f] == [c, d, e, f] && [d] + [e, f] == [d, e, f] && [e] + [f] == [e, f] && [f] + [] == [f];
    assert ToBits(f, 8) + [] == ToBits(f, 8);
  }

  /** The same bits, cut at bytes and cut at codes. */
  lemma CutAtCodes(h: seq<bit>, a: seq<bit>, a': seq<bit>, b: seq<bit>, b': seq<bit>, c: seq<bit>, c': seq<bit>,
                   l: seq<bit>, l': seq<bit>, d: seq<bit>, e: seq<bit>, e': seq<bit>, z: seq<bit>)
    ensures (h + a) + ((a' + b) + ((b' + c) + ((c' + l) + ((l' + d + e) + (e' + z)))))
         == h + ((a + a') + ((b + b') + ((c + c') + ((l + l') + d + (e + e'))))) + z
  {
    var t4 := l' + d + e + (e' + z);
    assert t4 == l' + (d + (e + e') + z);
    var u4 := d + (e + e') + z;
    assert (c' + l) + t4 == c' + ((l + l') + u4);
    var u3 := (l + l') + u4;
    assert (b' + c) + (c' + u3) == b' + ((c + c') + u3);
    var u2 := (c + c') + u3;
    assert (a' + b) + (b' + u2) == a' + ((b + b') + u2);
    var u1 := (b + b') + u2;
    assert (h + a) + (a' + u1) == h + ((a + a') + u1);
  }

  lemma AbcbcbBytes()
    ensures BytesToBits(ABCBCB) == [1, 1, 0, 1, 0, 0, 1, 0] + ([0, 0, 1, 1, 0, 0, 1, 0] + ([0, 1, 0, 1, 0, 0, 1, 0]
      + ([0, 1, 1, 0, 0, 0, 0, 0] + ([0, 1, 0, 0, 0, 0, 1, 0] + [0, 0, 0, 0, 0, 0, 0, 0]))))
  {
    hide ToBits, BytesToBits;
    ByteOf(1, 1, 0, 1, 0, 0, 1, 0);
    ByteOf(0, 0, 1, 1, 0, 0, 1, 0);
    ByteOf(0, 1, 0, 1, 0, 0, 1, 0);
    ByteOf(0, 1, 1, 0, 0, 0, 0, 0);
    ByteOf(0, 1, 0, 0, 0, 0, 1, 0);
    ByteOf(0, 0, 0, 0, 0, 0, 0, 0);
    SixBytes(0x4b, 0x4c, 0x4a, 0x06, 0x42, 0x00);
  }

  /** The codes of the text, of the length 3 and the distance 2, and of the end of the block. */
  function AbcbcbCodes(): seq<bit>
  {
    [1, 0, 0, 1, 0, 0, 0, 1] + ([1, 0, 0, 1, 0, 0, 1, 0]
      + ([1, 0, 0, 1, 0, 0, 1, 1] + ([0, 0, 0, 0, 0, 0, 1] + [0, 0, 0, 0, 1] + [0, 0, 0, 0, 0, 0, 0])))
  }

  lemma AbcbcbCut()
    ensures [1, 1, 0, 1, 0, 0, 1, 0] + ([0, 0, 1, 1, 0, 0, 1, 0] + ([0, 1, 0, 1, 0, 0, 1, 0]
      + ([0, 1, 1, 0, 0, 0, 0, 0] + ([0, 1, 0, 0, 0, 0, 1, 0] + [0, 0, 0, 0, 0, 0, 0, 0])))) == [1, 1, 0] + AbcbcbCodes() + [0, 0]
  {
    Cuts();
    CutAtCodes([1, 1, 0], [1, 0, 0, 1, 0], [0, 0, 1], [1, 0, 0, 1, 0], [0, 1, 0], [1, 0, 0, 1, 0], [0, 1, 1],
               [0, 0, 0, 0, 0], [0, 1], [0, 0, 0, 0, 1], [0], [0, 0, 0, 0, 0, 0], [0, 0]);
  }

  lemma AbcbcbBits()
    ensures BytesToBits(ABCBCB) == [1, 1, 0] + AbcbcbCodes() + [0, 0]
  {
    hide ToBits, BytesToBits, AbcbcbCodes;
    AbcbcbBytes();
    AbcbcbCut();
  }

  lemma Cuts()
    ensures [1, 1, 0] + [1, 0, 0, 1, 0] == [1, 1, 0, 1, 0, 0, 1, 0] && [0, 0, 1] + [1, 0, 0, 1, 0] == [0, 0, 1, 1, 0, 0, 1, 0]
    ensures [0, 1, 0] + [1, 0, 0, 1, 0] == [0, 1, 0, 1, 0, 0, 1, 0] && [0, 1, 1] + [0, 0, 0, 0, 0] == [0, 1, 1, 0, 0, 0, 0, 0]
    ensures [0, 1] + [0, 0, 0, 0, 1] + [0] == [0, 1, 0, 0, 0, 0, 1, 0] && [0, 0, 0, 0, 0, 0] + [0, 0] == [0, 0, 0, 0, 0, 0, 0, 0]
    ensures [1, 0, 0, 1, 0] + [0, 0, 1] == [1, 0, 0, 1, 0, 0, 0, 1] && [1, 0, 0, 1, 0] + [0, 1, 0] == [1, 0, 0, 1, 0, 0, 1, 0]
    ensures [1, 0, 0, 1, 0] + [0, 1, 1] == [1, 0, 0, 1, 0, 0, 1, 1] && [0, 0, 0, 0, 0] + [0, 1] == [0, 0, 0, 0, 0, 0, 1]
    ensures [0] + [0, 0, 0, 0, 0, 0] == [0, 0, 0, 0, 0, 0, 0]
  {
  }

  lemma CodeOf(a: bit, b: bit, c: bit, d: bit, e: bit, f: bit, g: bit, h: bit)
    ensures CodeBits(128 * a + 64 * b + 32 * c + 16 * d + 8 * e + 4 * f + 2 * g + h, 8) == [a, b, c, d, e, f, g, h]
  {
    ByteOf(h, g, f, e, d, c, b, a);
    var v := 128 * a + 64 * b + 32 * c + 16 * d + 8 * e + 4 * f + 2 * g + h;
    var s := ToBits(v, 8);
    assert s == [h, g, f, e, d, c, b, a];
    hide Bit;
    forall t | 0 <= t < 8 ensures CodeBits(v, 8)[t] == s[7 - t] {
    }
  }

  lemma SmallCodes()
    ensures CodeBits(0, 7) == [0, 0, 0, 0, 0, 0, 0] && CodeBits(1, 7) == [0, 0, 0, 0, 0, 0, 1] && CodeBits(1, 5) == [0, 0, 0, 0, 1]
  {
    assert forall t: nat :: Bit(0, t) == 0 by {
      forall t: nat ensures Bit(0, t) == 0 {
        BitOfZero(t);
      }
    }
    assert forall t: nat :: t > 0 ==> Bit(1, t) == 0 by {
      forall t: nat | t > 0 ensures Bit(1, t) == 0 {
        BitOfDigit(1, t);
      }
    }
    assert Bit(1, 0) == 1;
  }

  lemma ShortMatch()
    ensures LengthSymbol(3) == 257 && LengthExtra(257) == 0 && LengthBase(257) == 3
    ensures DistSymbol(2) == 1 && DistExtra(1) == 0 && DistBase(1) == 2
  {
    hide LengthSymbolFrom, DistSymbolFrom, LengthBase, DistBase, LengthExtra, DistExtra;
    if LengthSymbol(3) > 257 {
      BaseAbove(LengthSymbol(3));
    }
    if DistSymbol(2) > 1 {
      DistBaseAbove(DistSymbol(2));
    }
    LengthTable(257);
    DistTable(0);
    DistTable(1);
    Pow2Values();
  }

  lemma BaseAbove(z: nat)
    requires 257 < z < 286
    ensures LengthBase(z) > 3
  {
  }

  lemma DistBaseAbove(d: nat)
    requires 1 < d < 30
    ensures DistBase(d) > 2
  {
  }

  lemma KnownSymbols()
    ensures HasCode(FixedLL(), 97) && SymbolBits(FixedLL(), 97) == [1, 0, 0, 1, 0, 0, 0, 1]
    ensures HasCode(FixedLL(), 98) && SymbolBits(FixedLL(), 98) == [1, 0, 0, 1, 0, 0, 1, 0]
    ensures HasCode(FixedLL(), 99) && SymbolBits(FixedLL(), 99) == [1, 0, 0, 1, 0, 0, 1, 1]
    ensures HasCode(FixedLL(), 256) && SymbolBits(FixedLL(), 256) == [0, 0, 0, 0, 0, 0, 0]
    ensures HasCode(FixedLL(), 257) && SymbolBits(FixedLL(), 257) == [0, 0, 0, 0, 0, 0, 1]
    ensures HasCode(FixedDD(), 1) && SymbolBits(FixedDD(), 1) == [0, 0, 0, 0, 1]
  {
    hide Code, CodeBits, FixedLL, FixedDD;
    FixedCode(97);
    FixedCode(98);
    FixedCode(99);
    FixedCode(256);
    FixedCode(257);
    FixedDistCode(1);
    CodeOf(1, 0, 0, 1, 0, 0, 0, 1);
    CodeOf(1, 0, 0, 1, 0, 0, 1, 0);
    CodeOf(1, 0, 0, 1, 0, 0, 1, 1);
    SmallCodes();
  }

  function AbcbcbItems(): seq<Item>
  {
    [Literal(97), Literal(98), Literal(99), Repeat(3, 2)]
  }

  lemma MatchOf()
    ensures CopyMatch([97, 98, 99], 3, 2) == [97, 98, 99, 98, 99, 98]
  {
    assert CopyMatch([97, 98, 99], 1, 2) == [97, 98, 99, 98];
    assert CopyMatch([97, 98, 99], 2, 2) == [97, 98, 99, 98, 99];
  }

  lemma AbcbcbBlock()
    ensures AllCodable(FixedLL(), FixedDD(), AbcbcbItems(), []) && FixedBits(AbcbcbItems(), []) == AbcbcbCodes()
    ensures Expansion(FixedLL(), FixedDD(), AbcbcbItems(), []) == [97, 98, 99, 98, 99, 98]
  {
    hide FixedLL, FixedDD, SymbolBits, LengthSymbol, DistSymbol, LengthExtra, LengthBase, DistExtra, DistBase, CopyMatch, HasCode;
    KnownSymbols();
    ShortMatch();
    MatchOf();
    var ll, dd, items := FixedLL(), FixedDD(), AbcbcbItems();
    var i1, i2, i3 := items[1..], items[2..], items[3..];
    assert items[1..] == i1 && i1[1..] == i2 && i2[1..] == i3 && i3[1..] == [];
    assert [] + [97] == [97] && [97] + [98] == [97, 98] && [97, 98] + [99] == [97, 98, 99];
    assert ToBits(0, 0) == [];
    assert AllCodable(ll, dd, i3, [97, 98, 99]);
    assert AllCodable(ll, dd, i2, [97, 98]);
    assert AllCodable(ll, dd, i1, [97]);
    assert BlockBits(ll, dd, i3, [97, 98, 99]) == LengthBits(ll, 3) + DistBits(dd, 2) + SymbolBits(ll, 256);
  }

  /** A whole zlib file written out: header, one final block with the fixed codes, and any trailer. Its text is abcbcb. */
  lemma FixedExample(trailer: seq<byte>)
    ensures Meaning([0x78, 0x01] + (ABCBCB + trailer), true) == Finished(62, [97, 98, 99, 98, 99, 98])
  {
    hide Blocks, BytesToBits, FixedLL, FixedDD, AbcbcbCodes, AllCodable, FixedBits, Expansion, AbcbcbItems;
    var input := [0x78, 0x01] + (ABCBCB + trailer);
    AbcbcbBits();
    AbcbcbBlock();
    BytesToBitsAppend([0x78, 0x01], ABCBCB + trailer);
    BytesToBitsAppend(ABCBCB, trailer);
    var part := FixedPart(AbcbcbItems());
    var bits := [1, 1, 0] + AbcbcbCodes();
    assert Holds(input, 16, bits);
    LastPart(part);
    PartsUndone(input, [part], [], 16);
    ZlibHeader(0x78, 0x01, ABCBCB + trailer);
    assert [0x78, 0x01] + (ABCBCB + trailer) == [0x78, 0x01] + (ABCBCB + trailer);
  }

  lemma LastPart(part: Part)
    requires PartFits(part, [])
    ensures PartsFit([part], []) && PartsOutput([part], []) == PartOutput(part, [])
    ensures PartsBits([part], [], 16) == PartHeader(part, true) + PartBody(part, [], 19)
  {
    assert [part][1..] == [];
  }

  /** A raw stream written out: one final stored block of three bytes. */
  lemma StoredExample(a: byte, b: byte, c: byte)
    ensures Meaning([0x01, 0x03, 0x00, 0xfc, 0xff, a, b, c], false) == Finished(64, [a, b, c])
  {
    var input: seq<byte> := [0x01, 0x03, 0x00, 0xfc, 0xff, a, b, c];
    BytesToBitsAt(input, 0);
    ByteOf(1, 0, 0, 0, 0, 0, 0, 0);
    var s := BytesToBits(input);
    hide BytesToBits, ToBits;
    assert s[..8] == s[8 * 0..8 * 0 + 8];
    assert s[0] == s[..8][0] && s[1] == s[..8][1] && s[2] == s[..8][2];
    assert ByteAlign(3) == 1;
    assert Word(input, 1) == 3 && Word(input, 3) == 0xFFFC;
    assert input[5..8] == [a, b, c];
    assert Stored(input, 1, []) == StoredDone(8, [a, b, c]);
  }
}
