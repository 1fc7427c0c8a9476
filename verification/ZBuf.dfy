/** The zlib input cursor with its bit buffer, the Huffman decoder over it, and the growing output. */
module ZBuf {
  import opened Bits
  import opened Canonical
  import opened Options
  import opened ZHuffman

  const UINT_MAX: nat := 0xFFFF_FFFF

  /** n bits of s from position c on, continued with zeros behind the end. */
  function Window(s: seq<bit>, c: nat, n: nat): (w: seq<bit>)
    ensures |w| == n
  {
    seq(n, (t: nat) => if c + t < |s| then s[c + t] else 0)
  }

  function ZeroBytes(n: nat): (z: seq<byte>)
    ensures |z| == n && forall i :: 0 <= i < n ==> z[i] == 0
  {
    seq(n, (i: nat) => 0)
  }

  /** The input with n zero bytes behind it. */
  function Continued(input: seq<byte>, n: nat): (r: seq<byte>)
    ensures |r| == |input| + n
  {
    input + ZeroBytes(n)
  }

  /** The bits of the input with n zero bytes behind it. */
  function Padded(input: seq<byte>, n: nat): (s: seq<bit>)
    ensures |s| == 8 * |input| + 8 * n
  {
    BytesToBits(Continued(input, n))
  }

  lemma PaddedNothing(input: seq<byte>)
    ensures Continued(input, 0) == input && Padded(input, 0) == BytesToBits(input)
  {
  }

  lemma {:induction false} ZeroBits(n: nat)
    ensures BytesToBits(ZeroBytes(n)) == Zeros(8 * n)
  {
    if n > 0 {
      ZeroBits(n - 1);
      ToBitsZero(8);
      assert ZeroBytes(n)[1..] == ZeroBytes(n - 1);
    }
  }

  /** Windows do not tell whether zeros follow the input. */
  lemma PaddedWindow(input: seq<byte>, n: nat, c: nat, k: nat)
    ensures Window(Padded(input, n), c, k) == Window(BytesToBits(input), c, k)
  {
    hide BytesToBits, Zeros;
    BytesToBitsAppend(input, ZeroBytes(n));
    ZeroBits(n);
  }

  lemma WindowSplit(s: seq<bit>, c: nat, m: nat, n: nat)
    ensures Window(s, c, m + n) == Window(s, c, m) + Window(s, c + m, n)
  {
  }

  lemma WindowInside(s: seq<bit>, c: nat, n: nat)
    requires c + n <= |s|
    ensures Window(s, c, n) == s[c..][..n]
  {
  }

  lemma {:induction false} BytesToBitsAt(bs: seq<byte>, i: nat)
    requires i < |bs|
    ensures BytesToBits(bs)[8 * i..8 * i + 8] == ToBits(bs[i], 8)
  {
    if i > 0 {
      BytesToBitsAt(bs[1..], i - 1);
      var t := BytesToBits(bs[1..]);
      assert BytesToBits(bs) == ToBits(bs[0], 8) + t;
      assert BytesToBits(bs)[8 * i..8 * i + 8] == t[8 * (i - 1)..8 * (i - 1) + 8];
    }
  }

  lemma WindowSlice(s: seq<bit>, c: nat, n: nat)
    requires c + n <= |s|
    ensures Window(s, c, n) == s[c..c + n]
  {
  }

  lemma WindowPast(s: seq<bit>, c: nat, n: nat)
    requires c >= |s|
    ensures Window(s, c, n) == ToBits(0, n)
  {
    ToBitsZero(n);
  }

  /** The eight bits that the next byte fetch delivers: a byte, or zeros at the end. */
  lemma WindowByte(bs: seq<byte>, pos: nat, v: byte)
    requires pos <= |bs|
    requires v == if pos < |bs| then bs[pos] else 0
    ensures Window(BytesToBits(bs), 8 * pos, 8) == ToBits(v, 8)
  {
    var s := BytesToBits(bs);
    if pos < |bs| {
      BytesToBitsAt(bs, pos);
      WindowSlice(s, 8 * pos, 8);
    } else {
      WindowPast(s, 8 * pos, 8);
    }
  }

  /** Or-ing a byte in above the buffered bits extends the buffered window by that byte. */
  lemma AppendToWindow(s: seq<bit>, c: nat, buffer: nat, n: nat, v: byte)
    requires buffer < Pow2(n) && ToBits(buffer, n) == Window(s, c, n)
    requires Window(s, c + n, 8) == ToBits(v, 8)
    ensures Or(buffer, Shl(v, n)) < Pow2(n + 8)
    ensures ToBits(Or(buffer, Shl(v, n)), n + 8) == Window(s, c, n + 8)
  {
    hide Pow2, ToBits, Or, Window;
    OrDisjoint(buffer, v, n);
    ShlIsMul(v, n);
    ToBitsAppend(buffer, v, n, 8);
    WindowSplit(s, c, n, 8);
    Pow2Add(n, 8);
    Pow2Values();
    AppendBound(buffer, v, Pow2(n));
  }

  /** Shifting the bit buffer right drops the first bits of the buffered window. */
  lemma DropFromWindow(s: seq<bit>, c: nat, buffer: nat, n: nat, m: nat)
    requires m <= n && buffer < Pow2(n) && ToBits(buffer, n) == Window(s, c, n)
    ensures Shr(buffer, m) < Pow2(n - m)
    ensures ToBits(Shr(buffer, m), n - m) == Window(s, c + m, n - m)
  {
    ToBitsDrop(buffer, m, n);
    WindowSplit(s, c, m, n - m);
    ShrBound(buffer, m, n);
    assert Window(s, c, n)[m..] == Window(s, c + m, n - m);
  }

  /** The 16 lowest buffered bits are the next 16 bits of the stream. */
  lemma LowSixteen(s: seq<bit>, c: nat, buffer: nat, n: nat)
    requires n >= 16 && ToBits(buffer, n) == Window(s, c, n)
    ensures ToBits(buffer, 16) == Window(s, c, 16)
  {
    ToBitsTake(buffer, 16, n);
    WindowSplit(s, c, 16, n - 16);
    assert Window(s, c, n)[..16] == Window(s, c, 16);
  }

  /** How far an output buffer of the given size can be doubled. */
  function MaxCapacity(limit: nat): (m: nat)
    requires limit > 0
    ensures m >= limit
    ensures limit <= UINT_MAX ==> m <= UINT_MAX
    decreases UINT_MAX - limit
  {
    if limit > UINT_MAX / 2 then limit else MaxCapacity(2 * limit)
  }

  /** The largest size is the starting one doubled as long as 32 bits hold it. */
  lemma {:induction false} CapacityDoubles(limit: nat) returns (k: nat)
    requires 0 < limit <= 0xFFFF_FFFF
    ensures MaxCapacity(limit) == limit * Pow2(k) <= 0xFFFF_FFFF < 2 * MaxCapacity(limit)
    decreases 0xFFFF_FFFF - limit
  {
    hide Pow2;
    NoDoubling();
    if limit > UINT_MAX / 2 {
      k := 0;
    } else {
      var n := CapacityDoubles(2 * limit);
      k := n + 1;
      DoubledOnceMore(limit, n);
    }
  }

  lemma NoDoubling()
    ensures Pow2(0) == 1
  {
  }

  lemma DoubledOnceMore(limit: nat, n: nat)
    ensures limit * Pow2(n + 1) == 2 * limit * Pow2(n)
  {
    TwiceProduct(limit, Pow2(n));
  }

  /** The symbol at the head of the padded window is the one at the head of the real bits, if any is. */
  lemma DecodeInWindow(lens: seq<nat>, s: seq<bit>, c: nat)
    requires ValidLens(lens) && Accepted(lens) && c <= |s|
    ensures DecodeSymbol(lens, s[c..]).Some? ==> DecodeSymbol(lens, Window(s, c, 16)) == DecodeSymbol(lens, s[c..])
    ensures var q := DecodeSymbol(lens, Window(s, c, 16)); q.Some? && c + lens[q.value] <= |s| ==> DecodeSymbol(lens, s[c..]) == q
  {
    var rest, w := s[c..], Window(s, c, 16);
    var r, q := DecodeSymbol(lens, rest), DecodeSymbol(lens, w);
    if r.Some? {
      var n := lens[r.value];
      WindowSplit(s, c, n, 16 - n);
      WindowInside(s, c, n);
      assert SymbolBits(lens, r.value) == rest[..n];
      assert Starts(lens, r.value, w);
      StartsUnique(lens, r.value, q.value, w);
    }
    if q.Some? && lens[q.value] <= |rest| {
      var n := lens[q.value];
      WindowSplit(s, c, n, 16 - n);
      WindowInside(s, c, n);
      assert SymbolBits(lens, q.value) == w[..n];
      assert Starts(lens, q.value, rest);
      StartsUnique(lens, r.value, q.value, rest);
    }
  }

  lemma FastIndex(v: nat)
    ensures And(v, FAST_SIZE - 1) == v % Pow2(FAST_BITS) < FAST_SIZE
  {
    Pow2Values();
    AndMask(v, FAST_BITS);
  }

  /** A non-empty fast entry names the symbol at the head of the stream and its length. */
  lemma FastHit(lens: seq<nat>, v: nat, b: nat)
    requires ValidLens(lens) && Accepted(lens)
    requires b == FastEntry(lens, |lens|, v % Pow2(FAST_BITS)) != 0
    ensures DecodeSymbol(lens, ToBits(v, 16)) == Some(And(b, 511))
    ensures And(b, 511) < |lens| && Shr(b, 9) == lens[And(b, 511)] <= FAST_BITS
  {
    var i, s := b % 512, b / 512;
    Pow2Values();
    AndMask(b, 9);
    ShrIsDiv(b, 9);
    FastEntryMeaning(lens, |lens|, v % Pow2(FAST_BITS));
    ModMod(v, s, FAST_BITS);
    StartsIsMatch(lens, i, v, 16);
    var r := DecodeSymbol(lens, ToBits(v, 16));
    StartsUnique(lens, i, r.value, ToBits(v, 16));
  }

  lemma ModMod(v: nat, m: nat, n: nat)
    requires m <= n
    ensures v % Pow2(n) % Pow2(m) == v % Pow2(m)
  {
    var a, b := v % Pow2(n) % Pow2(m), v % Pow2(m);
    forall i: nat | i < m ensures Bit(a, i) == Bit(b, i) {
      BitOfMod(v % Pow2(n), m, i);
      BitOfMod(v, n, i);
      BitOfMod(v, m, i);
    }
    BitsDetermine(a, b, m);
  }

  /** With no short code at the head, the reversed window lies above all short codes. */
  lemma FastMiss(lens: seq<nat>, v: nat, b: nat)
    requires ValidLens(lens) && Accepted(lens)
    requires b == v % Pow2(FAST_BITS) && FastEntry(lens, |lens|, b) == 0
    ensures MaxCode(lens, FAST_BITS) <= Rev(v, 16)
  {
    if Rev(v, 16) < MaxCode(lens, FAST_BITS) {
      var i := MatchExistsUpTo(lens, Rev(v, 16), FAST_BITS);
      StartsIsMatch(lens, i, v, 16);
      ModMod(v, lens[i], FAST_BITS);
      FastEntryMeaning(lens, |lens|, b);
    }
  }

  /** The first length whose sentinel exceeds the window names the symbol. */
  lemma SlowHit(lens: seq<nat>, v: nat, s: nat) returns (i: nat)
    requires ValidLens(lens) && Accepted(lens) && 1 <= s <= MAX_LENGTH
    requires MaxCode(lens, s - 1) <= Rev(v, 16) < MaxCode(lens, s)
    ensures HasCode(lens, i) && lens[i] == s && DecodeSymbol(lens, ToBits(v, 16)) == Some(i)
    ensures Shr(Rev(v, 16), 16 - s) == FirstCode(lens, s) + Rank(lens, i)
    ensures Place(lens, i) == FirstSymbol(lens, s) + Rank(lens, i) < MAX_SYMBOLS
  {
    i := MatchExists(lens, Rev(v, 16), s);
    StartsIsMatch(lens, i, v, 16);
    var r := DecodeSymbol(lens, ToBits(v, 16));
    StartsUnique(lens, i, r.value, ToBits(v, 16));
    PlaceBound(lens, i);
  }

  /** A window above every sentinel starts with no code at all. */
  lemma SlowMiss(lens: seq<nat>, v: nat)
    requires ValidLens(lens) && Accepted(lens)
    requires MaxCode(lens, MAX_LENGTH) <= Rev(v, 16)
    ensures DecodeSymbol(lens, ToBits(v, 16)) == None
  {
    var r := DecodeSymbol(lens, ToBits(v, 16));
    if r.Some? {
      StartsIsMatch(lens, r.value, v, 16);
      MatchInterval(lens, Rev(v, 16), r.value);
      MaxCodeMono(lens, lens[r.value], MAX_LENGTH);
    }
  }

  class Buf {
    const input: seq<byte>     // zbuffer .. zbuffer_end
    var pos: nat               // the cursor zbuffer, as an offset
    var num_bits: nat
    var hit_zeof_once: bool
    var code_buffer: nat

    var obuf: array<byte>      // zout_start .. zout_end
    var zout: nat              // the output cursor, as an offset
    const expandable: bool

    const z_length: Huffman
    const z_distance: Huffman

    ghost var consumed: nat    // bits handed out so far

    /** All bits of the input. */
    ghost function Stream(): seq<bit>
    {
      BytesToBits(input)
    }

    /** The input bits not handed out yet. */
    ghost function Rest(): seq<bit>
      requires consumed <= |Stream()|
      reads this`consumed
    {
      Stream()[consumed..]
    }

    /** The bit buffer holds the next num_bits bits of the stream, zeros standing for bits behind its end. */
    ghost predicate ReaderValid()
      reads this`pos, this`num_bits, this`code_buffer, this`hit_zeof_once, this`consumed
    {
      && pos <= |input| && num_bits <= 32 && code_buffer < Pow2(num_bits)
      && ToBits(code_buffer, num_bits) == Window(Stream(), consumed, num_bits)
      && (pos < |input| ==> consumed + num_bits == 8 * pos)
      && consumed + num_bits >= 8 * pos && (consumed + num_bits) % 8 == 0
      && (hit_zeof_once ==> pos == |input| && consumed + num_bits >= 8 * |input| + 16)
    }

    ghost predicate Valid()
      reads this
    {
      && ReaderValid()
      && zout <= obuf.Length && 0 < obuf.Length <= UINT_MAX
      && z_length.Valid() && z_distance.Valid()
      && z_length.Repr !! z_distance.Repr
      && obuf !in z_length.Repr && obuf !in z_distance.Repr
      && this !in z_length.Repr && this !in z_distance.Repr
    }

    ghost function Contents(): seq<byte>
      requires zout <= obuf.Length
      reads this, obuf
    {
      obuf[..zout]
    }

    /** The most output this buffer can ever hold. */
    ghost function Limit(): nat
      requires 0 < obuf.Length
      reads this
    {
      if expandable then MaxCapacity(obuf.Length) else obuf.Length
    }

    constructor (input: seq<byte>, initialSize: nat, expandable: bool)
      requires 0 < initialSize <= UINT_MAX
      ensures Valid() && fresh(obuf) && fresh(z_length.Repr) && fresh(z_distance.Repr)
      ensures this.input == input && this.expandable == expandable && obuf.Length == initialSize
      ensures consumed == 0 && num_bits == 0 && pos == 0 && zout == 0
    {
      this.input := input;
      this.expandable := expandable;
      pos, num_bits, hit_zeof_once, code_buffer, consumed := 0, 0, false, 0, 0;
      obuf := new byte[initialSize];
      zout := 0;
      z_length := new Huffman();
      z_distance := new Huffman();
      new;
      assert ToBits(0, 0) == Window(Stream(), 0, 0);
    }

    method Get8() returns (v: byte)
      requires pos <= |input|
      modifies this`pos
      ensures pos <= |input|
      ensures v == if old(pos) < |input| then input[old(pos)] else 0
      ensures pos == if old(pos) < |input| then old(pos) + 1 else old(pos)
    {
      if pos >= |input| {
        return 0;
      }
      v := input[pos];
      pos := pos + 1;
    }

    /** Tops the bit buffer up; the corruption guard at the loop head never fires. */
    method FillBits()
      requires ReaderValid() && num_bits <= 24
      modifies this`pos, this`code_buffer, this`num_bits
      ensures ReaderValid() && 25 <= num_bits
    {
      var again := true;
      while again
        invariant ReaderValid()
        invariant again <==> num_bits <= 24
        decreases 32 - num_bits
      {
        ShlOne(num_bits);
        if code_buffer >= Shl(1, num_bits) {
          assert false;
        }
        AppendByte();
        again := num_bits <= 24;
      }
    }

    /** One pass of the refill loop. */
    method AppendByte()
      requires ReaderValid() && num_bits <= 24
      modifies this`pos, this`code_buffer, this`num_bits
      ensures ReaderValid() && num_bits == old(num_bits) + 8
    {
      hide Or, Shl, Window, ToBits, BytesToBits, Pow2;
      ghost var p := pos;
      var v := Get8();
      if p < |input| {
        WindowByte(input, p, v);
      } else {
        WindowPast(Stream(), consumed + num_bits, 8);
      }
      AppendToWindow(Stream(), consumed, code_buffer, num_bits, v);
      code_buffer := Or(code_buffer, Shl(v, num_bits));
      num_bits := num_bits + 8;
    }

    /** Takes m bits off the bottom of the bit buffer. */
    method Drop(m: nat)
      requires ReaderValid() && m <= num_bits
      modifies this`code_buffer, this`num_bits, this`consumed
      ensures ReaderValid() && num_bits == old(num_bits) - m && consumed == old(consumed) + m
    {
      hide Window, ToBits, BytesToBits, Pow2, Shr;
      DropFromWindow(Stream(), consumed, code_buffer, num_bits, m);
      code_buffer := Shr(code_buffer, m);
      num_bits := num_bits - m;
      consumed := consumed + m;
    }

    /** Reads an n-bit number, least significant bit first. */
    method Receive(n: nat) returns (k: nat)
      requires ReaderValid() && n <= 16
      modifies this`pos, this`code_buffer, this`num_bits, this`consumed
      ensures ReaderValid() && consumed == old(consumed) + n
      ensures k < Pow2(n) && ToBits(k, n) == Window(Stream(), old(consumed), n)
      ensures k == FromBits(Window(Stream(), old(consumed), n))
    {
      if num_bits < n {
        FillBits();
      }
      ShlOne(n);
      AndMask(code_buffer, n);
      ToBitsTake(code_buffer, n, num_bits);
      WindowSplit(Stream(), consumed, n, num_bits - n);
      assert Window(Stream(), consumed, num_bits)[..n] == Window(Stream(), consumed, n);
      k := And(code_buffer, Shl(1, n) - 1);
      FromToBits(k, n);
      SmallMod(k, Pow2(n));
      Drop(n);
    }

    /** The bit-by-bit way, for codes longer than 9 bits; the two defensive checks never fire. */
    method DecodeSlowPath(z: Huffman, ghost lens: seq<nat>) returns (r: int)
      requires ReaderValid() && num_bits >= 16 && z.Built(lens)
      requires FastEntry(lens, |lens|, code_buffer % Pow2(FAST_BITS)) == 0
      modifies this`code_buffer, this`num_bits, this`consumed
      ensures ReaderValid()
      ensures r >= 0 ==> DecodeSymbol(lens, ToBits(old(code_buffer), 16)) == Some(r)
                         && consumed == old(consumed) + lens[r]
      ensures r < 0 ==> r == -1 && DecodeSymbol(lens, ToBits(old(code_buffer), 16)) == None
                        && consumed == old(consumed)
    {
      hide Pow2, Count, Buf.ReaderValid, FastEntry, ToBits, MaxCode, Rev, Place, ValidLens, FirstCode, Accepted,
        BitReverse, DecodeSymbol;
      BitReverseIsRev(code_buffer, 16);
      RevBound(code_buffer, 16);
      Pow2Values();
      FastMiss(lens, code_buffer, code_buffer % Pow2(FAST_BITS));
      var k := BitReverse(code_buffer, 16);
      var s := FAST_BITS + 1;
      while k >= z.maxcode[s]
        invariant FAST_BITS + 1 <= s <= 16
        invariant MaxCode(lens, s - 1) <= k
        decreases 16 - s
      {
        assert s < 16 ==> z.ColumnAt(lens, s);
        s := s + 1;
      }
      if s >= 16 {
        SlowMiss(lens, code_buffer);
        return -1;
      }
      assert z.ColumnAt(lens, s);
      ghost var i := SlowHit(lens, code_buffer, s);
      var b := Shr(k, 16 - s) - z.firstcode[s] + z.firstsymbol[s];
      assert b == Place(lens, i) && z.ListedAt(lens, i);
      if b >= MAX_SYMBOLS {
        assert false;
      }
      if z.size[b] != s {
        assert false;
      }
      r := z.value[b];
      Drop(s);
    }

    /** Decodes one symbol; -1 means that no code starts here, or that the input was overrun before. */
    method Decode(z: Huffman, ghost lens: seq<nat>) returns (r: int)
      requires ReaderValid() && z.Built(lens)
      modifies this`pos, this`code_buffer, this`num_bits, this`hit_zeof_once, this`consumed
      ensures ReaderValid() && consumed >= old(consumed) && r < |lens|
      ensures r >= 0 ==> DecodeSymbol(lens, Window(Stream(), old(consumed), 16)) == Some(r)
                         && consumed == old(consumed) + lens[r]
      ensures r < 0 ==> r == -1 && consumed == old(consumed)
      ensures r < 0 ==> old(consumed) > |Stream()| || DecodeSymbol(lens, Window(Stream(), old(consumed), 16)) == None
    {
      hide Pow2, ValidLens, ToBits, FastEntry, Window, Huffman.ListedAt, BytesToBits, Starts, And;
      if num_bits < 16 {
        if pos >= |input| {
          if !hit_zeof_once {
            PadSixteen();
          } else {
            return -1;
          }
        } else {
          FillBits();
        }
      }
      LowSixteen(Stream(), consumed, code_buffer, num_bits);
      FastIndex(code_buffer);
      var b := z.fast[And(code_buffer, FAST_SIZE - 1)];
      if b != 0 {
        FastHit(lens, code_buffer, b);
        var s := Shr(b, 9);
        Drop(s);
        return And(b, 511);
      }
      r := DecodeSlowPath(z, lens);
    }

    /** At the end of the input, 16 implicit zero bits are added once. */
    method PadSixteen()
      requires ReaderValid() && num_bits < 16 && pos == |input| && !hit_zeof_once
      modifies this`num_bits, this`hit_zeof_once
      ensures ReaderValid() && num_bits == old(num_bits) + 16
    {
      hide Pow2, BytesToBits, Zeros;
      ToBitsAppend(code_buffer, 0, num_bits, 16);
      ToBitsZero(16);
      WindowSplit(Stream(), consumed, num_bits, 16);
      assert Window(Stream(), consumed + num_bits, 16) == Zeros(16);
      assert 0 * Pow2(num_bits) == 0;
      Pow2Mono(num_bits, num_bits + 16);
      hit_zeof_once := true;
      num_bits := num_bits + 16;
    }

    /** Makes room for n more bytes by doubling; keeps everything written so far. */
    method Expand(n: nat) returns (ok: bool)
      requires Valid()
      modifies this`obuf
      ensures Valid() && zout <= old(obuf).Length
      ensures ok <==> expandable && zout + n <= Limit()
      ensures !ok ==> obuf == old(obuf)
      ensures ok ==> fresh(obuf) && zout + n <= obuf.Length
      ensures Limit() == old(Limit())
      ensures Contents() == old(Contents())
    {
      hide Huffman.Valid, Buf.ReaderValid;
      if !expandable {
        return false;
      }
      var cur, limit := zout, obuf.Length;
      if UINT_MAX - cur < n {
        return false;
      }
      while cur + n > limit
        invariant 0 < obuf.Length <= limit <= UINT_MAX
        invariant MaxCapacity(limit) == MaxCapacity(obuf.Length)
        decreases UINT_MAX - limit
      {
        if limit > UINT_MAX / 2 {
          return false;
        }
        limit := 2 * limit;
      }
      var q := new byte[limit];
      forall k | 0 <= k < obuf.Length {
        q[k] := obuf[k];
      }
      assert q[..zout] == obuf[..zout];
      obuf := q;
      return true;
    }
  }
}
