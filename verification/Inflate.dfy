/** Stored DEFLATE blocks (section 3.2.4 of RFC 1951): their meaning and the decoder. */
module Inflate {
  import opened Bits
  import opened ZHuffman
  import opened ZBuf
  import opened InflateBlock

  // ----- stored blocks (section 3.2.4 of RFC 1951) -----

  datatype StoredResult = StoredDone(next: nat, out: seq<byte>) | StoredBad

  function TwoBytes(low: nat, high: nat): nat
  {
    256 * high + low
  }

  /** A little-endian 16-bit number. */
  function Word(input: seq<byte>, i: nat): nat
  {
    TwoBytes(ByteAt(input, i), ByteAt(input, i + 1))
  }

  /** The stored block whose length field is at byte p. */
  function Stored(input: seq<byte>, p: nat, out: seq<byte>): StoredResult
  {
    var len := Word(input, p);
    if Word(input, p + 2) != 0xFFFF - len || p + 4 + len > |input| then StoredBad
    else StoredDone(p + 4 + len, out + input[p + 4..p + 4 + len])
  }

  /** The byte position at or behind bit position c. */
  function ByteAlign(c: nat): nat
  {
    (c + 7) / 8
  }

  lemma LowThree(n: nat)
    ensures And(n, 7) == n % 8
  {
    Pow2Values();
    AndMask(n, 3);
  }

  /** When the buffered bits end on a byte boundary, dropping their odd bits reaches the next one. */
  lemma AlignByBits(c: nat, n: nat)
    requires (c + n) % 8 == 0
    ensures c + n % 8 == 8 * ByteAlign(c)
    ensures n >= n % 8 && (n - n % 8) % 8 == 0
  {
  }

  /** Moves to a byte boundary; the bits skipped are fewer than eight. */
  method DiscardToByte(a: Buf)
    requires a.ReaderValid()
    modifies a`pos, a`code_buffer, a`num_bits, a`consumed
    ensures a.ReaderValid() && a.consumed == 8 * ByteAlign(old(a.consumed))
  {
    LowThree(a.num_bits);
    AlignByBits(a.consumed, a.num_bits);
    hide And, ToBits, Window, BytesToBits, FromBits, Pow2;
    if And(a.num_bits, 7) != 0 {
      var _ := a.Receive(And(a.num_bits, 7));
    }
  }

  /** The lowest buffered byte is the input byte at the cursor. */
  lemma LowByte(input: seq<byte>, q: nat, buffer: nat, n: nat)
    requires n >= 8 && ToBits(buffer, n) == Window(BytesToBits(input), 8 * q, n)
    ensures And(buffer, 255) == ByteAt(input, q)
  {
    Pow2Values();
    AndMask(buffer, 8);
    ToBitsTake(buffer, 8, n);
    WindowSplit(BytesToBits(input), 8 * q, 8, n - 8);
    if q <= |input| {
      WindowByte(input, q, ByteAt(input, q));
    } else {
      WindowPast(BytesToBits(input), 8 * q, 8);
    }
    assert ToBits(buffer, n)[..8] == Window(BytesToBits(input), 8 * q, 8);
    ToBitsInjective(buffer % 256, ByteAt(input, q), 8);
  }

  /** Empties the bit buffer into the header, byte by byte; it never holds more than four bytes. */
  method DrainBuffer(a: Buf, header: array<byte>) returns (k: nat)
    requires a.ReaderValid() && a.consumed % 8 == 0 && header.Length == 4
    modifies a`code_buffer, a`num_bits, a`consumed, header
    ensures a.ReaderValid() && a.num_bits == 0
    ensures k <= 4 && a.consumed == old(a.consumed) + 8 * k
    ensures forall j :: 0 <= j < k ==> header[j] == ByteAt(a.input, old(a.consumed) / 8 + j)
  {
    hide Window, ToBits, BytesToBits, Pow2, And, ByteAt;
    ghost var p := a.consumed / 8;
    k := 0;
    while a.num_bits > 0
      invariant a.ReaderValid() && a.num_bits % 8 == 0
      invariant k <= 4 && a.num_bits <= 32 - 8 * k && a.consumed == 8 * (p + k)
      invariant forall j :: 0 <= j < k ==> header[j] == ByteAt(a.input, p + j)
    {
      LowByte(a.input, p + k, a.code_buffer, a.num_bits);
      header[k] := And(a.code_buffer, 255);
      a.Drop(8);
      k := k + 1;
    }
  }

  /** The four header bytes, from the bit buffer first and then from the input. */
  method ReadStoredHeader(a: Buf) returns (header: array<byte>)
    requires a.ReaderValid() && a.consumed % 8 == 0
    modifies a`pos, a`code_buffer, a`num_bits, a`consumed
    ensures a.ReaderValid() && a.num_bits == 0 && a.consumed == old(a.consumed) + 32
    ensures fresh(header) && header.Length == 4
    ensures forall j :: 0 <= j < 4 ==> header[j] == ByteAt(a.input, old(a.consumed) / 8 + j)
  {
    hide Window, ToBits, BytesToBits, Pow2, ByteAt, Buf.ReaderValid;
    header := new byte[4];
    ghost var p := a.consumed / 8;
    var k := DrainBuffer(a, header);
    while k < 4
      invariant a.ReaderValid() && a.num_bits == 0
      invariant k <= 4 && a.consumed == 8 * (p + k)
      invariant forall j :: 0 <= j < k ==> header[j] == ByteAt(a.input, p + j)
    {
      var v := TakeByte(a);
      header[k] := v;
      k := k + 1;
    }
  }

  /** Fetches a whole byte while the bit buffer is empty. */
  method TakeByte(a: Buf) returns (v: byte)
    requires a.ReaderValid() && a.num_bits == 0
    modifies a`pos, a`code_buffer, a`consumed
    ensures a.ReaderValid() && a.consumed == old(a.consumed) + 8
    ensures v == ByteAt(a.input, old(a.consumed) / 8)
  {
    v := a.Get8();
    a.consumed := a.consumed + 8;
    assert Pow2(0) == 1;
    assert ToBits(a.code_buffer, 0) == Window(a.Stream(), a.consumed, 0);
  }

  /** Copies len input bytes to the output. */
  method CopyStored(a: Buf, len: nat)
    requires a.Valid() && a.num_bits == 0 && a.consumed == 8 * a.pos && !a.hit_zeof_once
    requires a.pos + len <= |a.input| && a.zout + len <= a.obuf.Length
    modifies a`pos, a`zout, a`consumed, a.obuf
    ensures a.Valid() && a.consumed == old(a.consumed) + 8 * len
    ensures a.Contents() == old(a.Contents()) + a.input[old(a.pos)..old(a.pos) + len]
  {
    hide BytesToBits, Pow2, Huffman.Valid;
    ghost var before := a.Contents();
    var k := 0;
    while k < len
      invariant 0 <= k <= len && a.Valid() && a.zout == |before| + k
      invariant a.pos == old(a.pos) && a.consumed == old(a.consumed)
      invariant a.Contents() == before + a.input[a.pos..a.pos + k]
    {
      assert a.input[a.pos..a.pos + k + 1] == a.input[a.pos..a.pos + k] + [a.input[a.pos + k]];
      PutByte(a, a.input[a.pos + k]);
      k := k + 1;
    }
    SkipBytes(a, len);
  }

  /** Moves the cursor over len whole bytes. */
  method SkipBytes(a: Buf, len: nat)
    requires a.ReaderValid() && a.num_bits == 0 && a.consumed == 8 * a.pos && !a.hit_zeof_once
    requires a.pos + len <= |a.input|
    modifies a`pos, a`consumed
    ensures a.ReaderValid() && a.pos == old(a.pos) + len && a.consumed == 8 * a.pos
  {
    assert Pow2(0) == 1;
    a.pos := a.pos + len;
    a.consumed := a.consumed + 8 * len;
    assert ToBits(a.code_buffer, 0) == Window(a.Stream(), a.consumed, 0);
  }

  /** A header cut off by the end of the input is never consistent with a block that fits. */
  lemma TruncatedHeader(input: seq<byte>, p: nat)
    requires |input| < p + 4 && Word(input, p + 2) == 0xFFFF - Word(input, p)
    ensures Word(input, p) > 0
  {
  }

  /** Where the cursor stands once the header is drained. */
  lemma HeaderCursor(a: Buf, p: nat)
    requires a.ReaderValid() && a.num_bits == 0 && a.consumed == 8 * (p + 4)
    ensures p + 4 <= |a.input| ==> a.pos == p + 4 && !a.hit_zeof_once
    ensures p + 4 > |a.input| ==> a.pos == |a.input|
  {
  }

  lemma Complement(len: nat)
    requires len < 0x10000
    ensures Xor(len, 0xFFFF) == 0xFFFF - len
  {
    Pow2Values();
    XorMask(len, 16);
  }

  /** Zeros behind the input do not change a stored block that fits. */
  lemma StoredContinued(input: seq<byte>, n: nat, p: nat, out: seq<byte>)
    requires Stored(input, p, out).StoredDone?
    ensures Stored(Continued(input, n), p, out) == Stored(input, p, out)
  {
  }

  /** What a stored block must do. */
  ghost predicate StoredOutcome(spec: StoredResult, ok: bool, a: Buf)
    requires a.zout <= a.obuf.Length && 0 < a.obuf.Length
    reads a, a.obuf
  {
    match spec
    case StoredBad => !ok
    case StoredDone(next, out) =>
      (ok <==> |out| <= a.Limit()) && (ok ==> a.consumed == 8 * next && a.Contents() == out)
  }

  /** Decodes a stored block. */
  method ParseUncompressedBlock(a: Buf) returns (ok: bool)
    requires a.Valid()
    modifies a, a.obuf
    ensures a.Valid() && (a.obuf == old(a.obuf) || fresh(a.obuf)) && a.Limit() == old(a.Limit())
    ensures a.consumed >= old(a.consumed)
    ensures ok ==> a.consumed <= |a.Stream()|
    ensures StoredOutcome(Stored(a.input, ByteAlign(old(a.consumed)), old(a.Contents())), ok, a)
  {
    hide Buf.ReaderValid, Huffman.Valid, Xor, And, BytesToBits, MaxCapacity, ToBits;
    ghost var p := ByteAlign(a.consumed);
    DiscardToByte(a);
    var header := ReadStoredHeader(a);
    var len := TwoBytes(header[0], header[1]);
    var nlen := TwoBytes(header[2], header[3]);
    assert len == Word(a.input, p) && nlen == Word(a.input, p + 2);
    Complement(len);
    if nlen != Xor(len, 0xFFFF) {
      return false;
    }
    HeaderCursor(a, p);
    if |a.input| < p + 4 {
      TruncatedHeader(a.input, p);
    }
    if a.pos + len > |a.input| {
      return false;
    }
    if a.zout + len > a.obuf.Length {
      ok := a.Expand(len);
      if !ok {
        return;
      }
    }
    CopyStored(a, len);
    return true;
  }
}
