/** The LZW code stream of a GIF raster (Appendix F of GIF89a): its meaning over bits and
    strings, an encoder, and the proof that decoding undoes encoding. */
module GifLzw {
  import opened Bits

  /** A string of colour indices; dictionary strings are never empty. */
  type Word = s: seq<byte> | s != [] witness [0]

  /** Image: the raster ended; Corrupt: it was rejected. */
  datatype LzwResult = Image(indices: seq<byte>) | Corrupt

  /** started: a clear code was seen. dict: the strings of codes clear + 2 and up. last: the string of the
      previous code, empty right behind a clear code. */
  datatype LzwState = LzwState(started: bool, width: nat, dict: seq<Word>, last: seq<byte>)

  const MAX_CODES := 8192

  function ClearCode(cs: nat): (c: nat)
    ensures c >= 1
  {
    Pow2(cs)
  }

  /** The next free code. */
  function Avail(clear: nat, dict: seq<Word>): nat
  {
    clear + 2 + |dict|
  }

  predicate Known(clear: nat, dict: seq<Word>, code: nat)
  {
    code < clear || clear + 2 <= code < Avail(clear, dict)
  }

  /** The string of a code. */
  function Entry(clear: nat, dict: seq<Word>, code: nat): Word
    requires Known(clear, dict, code)
  {
    if code < clear then [U8(code)] else dict[code - clear - 2]
  }

  /** Codes get one bit wider when the next free code no longer fits, up to twelve bits. */
  function Grow(width: nat, avail: nat): nat
  {
    if avail % Pow2(width) == 0 && avail <= 0xFFF then width + 1 else width
  }

  /** The string a data code stands for; None if the code is not allowed here. */
  function Resolve(clear: nat, dict: seq<Word>, last: seq<byte>, code: nat): (r: seq<byte>)
  {
    if Known(clear, dict, code) then Entry(clear, dict, code)
    else if code == Avail(clear, dict) && last != [] then last + [last[0]]
    else []
  }

  /** The state behind a data code that stands for str. */
  function Learn(clear: nat, st: LzwState, str: Word): LzwState
  {
    var dict := if st.last == [] then st.dict else st.dict + [st.last + [str[0]]];
    LzwState(true, Grow(st.width, Avail(clear, dict)), dict, str)
  }

  /** The table has room for the entry that a data code adds. */
  predicate HasRoom(clear: nat, st: LzwState)
  {
    st.last == [] || Avail(clear, st.dict) < MAX_CODES
  }

  function Fresh(cs: nat): LzwState
  {
    LzwState(true, cs + 1, [], [])
  }

  /** What a code stream stands for. Running out of data ends the raster like an end code. */
  function LzwDecode(cs: nat, st: LzwState, bits: seq<bit>, out: seq<byte>): LzwResult
    requires st.width >= 1
    decreases |bits|
  {
    if |bits| < st.width then Image(out)
    else
      var code, rest := FromBits(bits[..st.width]), bits[st.width..];
      var clear := ClearCode(cs);
      if code == clear then LzwDecode(cs, Fresh(cs), rest, out)
      else if code == clear + 1 then Image(out)
      else
        var str := Resolve(clear, st.dict, st.last, code);
        if str == [] || !st.started || !HasRoom(clear, st) then Corrupt
        else LzwDecode(cs, Learn(clear, st, str), rest, out + str)
  }

  // ----- an encoder -----

  /** Number of binary digits. */
  function BitLen(v: nat): nat
  {
    if v == 0 then 0 else 1 + BitLen(v / 2)
  }

  lemma {:induction false} BitLenBounds(v: nat)
    ensures v < Pow2(BitLen(v))
    ensures v > 0 ==> Pow2(BitLen(v) - 1) <= v
  {
    if v > 0 {
      BitLenBounds(v / 2);
    }
  }

  lemma BitLenUnique(v: nat, n: nat)
    requires n >= 1 && Pow2(n - 1) <= v < Pow2(n)
    ensures BitLen(v) == n
  {
    BitLenBounds(v);
    if BitLen(v) < n {
      Pow2Mono(BitLen(v), n - 1);
    } else if BitLen(v) > n {
      Pow2Mono(n, BitLen(v) - 1);
    }
  }

  /** The decoder's next free code when n data codes have been sent since the last clear code. */
  function SentAvail(cs: nat, n: nat): nat
  {
    ClearCode(cs) + 2 + (if n == 0 then 0 else n - 1)
  }

  /** Codes are sent as wide as the next free code, but never wider than twelve bits. */
  function SentWidth(cs: nat, n: nat): nat
  {
    if BitLen(SentAvail(cs, n)) > 12 then 12 else BitLen(SentAvail(cs, n))
  }

  /** The entries that twelve-bit codes can reach. */
  function Usable(cs: nat, dict: seq<Word>): (u: seq<Word>)
    requires cs <= 8
    ensures u <= dict && ClearCode(cs) + 2 + |u| <= 4096
  {
    ClearBound(cs);
    var room := 4094 - ClearCode(cs);
    if |dict| <= room then dict else dict[..room]
  }

  lemma ClearBound(cs: nat)
    requires cs <= 8
    ensures ClearCode(cs) <= 256
  {
    Pow2Mono(cs, 8);
    Pow2Values();
  }

  function IndexOf(dict: seq<Word>, t: Word): (i: nat)
    requires t in dict
    ensures i < |dict| && dict[i] == t
  {
    if dict[0] == t then 0 else 1 + IndexOf(dict[1..], t)
  }

  /** The length, at most n, of the longest prefix of s that has a code. */
  function Longest(dict: seq<Word>, s: seq<byte>, n: nat): (m: nat)
    requires 1 <= n <= |s|
    ensures 1 <= m <= n && (m == 1 || s[..m] in dict)
  {
    if n == 1 || s[..n] in dict then n else Longest(dict, s, n - 1)
  }

  function CodeOf(clear: nat, dict: seq<Word>, t: Word): (code: nat)
    requires |t| == 1 || t in dict
    requires |t| == 1 ==> t[0] < clear
    ensures Known(clear, dict, code) && Entry(clear, dict, code) == t
    ensures code != clear && code != clear + 1
  {
    if |t| == 1 then t[0] else clear + 2 + IndexOf(dict, t)
  }

  predicate AllBelow(s: seq<byte>, clear: nat)
  {
    forall i :: 0 <= i < |s| ==> s[i] < clear
  }

  /** The encoder's dictionary behind a chunk of m symbols. */
  function NextDict(dict: seq<Word>, s: seq<byte>, m: nat): seq<Word>
    requires 1 <= m <= |s|
  {
    if m < |s| then dict + [s[..m + 1]] else dict
  }

  /** Greedy LZW: the longest known prefix is sent, and it plus the symbol behind it becomes a new entry.
      When n codes have filled the table up to `limit`, a clear code starts over. */
  function LzwEncode(cs: nat, limit: nat, n: nat, dict: seq<Word>, s: seq<byte>): seq<bit>
    requires cs <= 8 && ClearCode(cs) + 2 < limit && AllBelow(s, ClearCode(cs))
    decreases |s|, n
  {
    var clear := ClearCode(cs);
    if s == [] then ToBits(clear + 1, SentWidth(cs, n))
    else if clear + 2 + n >= limit then ToBits(clear, SentWidth(cs, n)) + LzwEncode(cs, limit, 0, [], s)
    else
      var m := Longest(Usable(cs, dict), s, |s|);
      ToBits(CodeOf(clear, Usable(cs, dict), s[..m]), SentWidth(cs, n))
      + LzwEncode(cs, limit, n + 1, NextDict(dict, s, m), s[m..])
  }

  /** A whole code stream: a clear code, then the data. */
  function LzwStream(cs: nat, limit: nat, s: seq<byte>): seq<bit>
    requires cs <= 8 && ClearCode(cs) + 2 < limit && AllBelow(s, ClearCode(cs))
  {
    ToBits(ClearCode(cs), cs + 1) + LzwEncode(cs, limit, 0, [], s)
  }

  // ----- decoding undoes it -----

  lemma FirstWidth(cs: nat)
    requires 2 <= cs <= 8
    ensures SentWidth(cs, 0) == cs + 1
  {
    ClearBound(cs);
    Pow2Mono(2, cs);
    Pow2Values();
    BitLenUnique(ClearCode(cs) + 2, cs + 1);
  }

  lemma {:induction false} BitLenMono(a: nat, b: nat)
    requires a <= b
    ensures BitLen(a) <= BitLen(b)
  {
    if a > 0 {
      BitLenMono(a / 2, b / 2);
    }
  }

  lemma NextMultiple(a: nat, p: nat)
    requires a < p
    ensures (a + 1) % p == 0 <==> a + 1 == p
  {
    if a + 1 < p {
      SmallMod(a + 1, p);
    }
  }

  lemma BitLenPositive(a: nat)
    requires a > 0
    ensures BitLen(a) >= 1
  {
  }

  lemma NextPow2(n: nat)
    ensures Pow2(n) < Pow2(n + 1)
  {
  }

  /** One more number needs one more digit exactly at the powers of two. */
  lemma BitLenNext(a: nat)
    requires a > 0
    ensures (a + 1) % Pow2(BitLen(a)) == 0 ==> BitLen(a + 1) == BitLen(a) + 1
    ensures (a + 1) % Pow2(BitLen(a)) != 0 ==> BitLen(a + 1) == BitLen(a)
  {
    hide Pow2, BitLen;
    assert BitLen(a) >= 1 by { BitLenPositive(a); }
    var n := BitLen(a);
    BitLenBounds(a);
    NextMultiple(a, Pow2(n));
    if a + 1 == Pow2(n) {
      NextPow2(n);
      BitLenUnique(a + 1, n + 1);
    } else {
      BitLenUnique(a + 1, n);
    }
  }

  /** The decoder's width keeps step with the encoder's. */
  lemma WidthInStep(cs: nat, n: nat)
    requires 2 <= cs <= 8
    ensures Grow(SentWidth(cs, n), SentAvail(cs, n + 1)) == SentWidth(cs, n + 1)
  {
    hide BitLen, Pow2;
    Pow2Values();
    if n == 0 {
      FirstWidth(cs);
      NextPow2(cs);
      Pow2Mono(2, cs);
      assert Pow2(cs + 1) == 2 * Pow2(cs);
      SmallMod(ClearCode(cs) + 2, Pow2(cs + 1));
    } else {
      var a := SentAvail(cs, n);
      assert SentAvail(cs, n + 1) == a + 1;
      BitLenNext(a);
      if a < 2048 {
        BitLenMono(a, 2047);
        BitLenUnique(2047, 11);
      } else if a < 4096 {
        BitLenUnique(a, 12);
        SmallMod(a, 4096);
        if a + 1 < 4096 {
          SmallMod(a + 1, 4096);
        }
      } else {
        BitLenMono(4096, a);
        BitLenUnique(4096, 13);
        BitLenMono(a, a + 1);
      }
    }
  }

  /** Every code that can be sent fits its width. */
  lemma CodeFits(cs: nat, n: nat, code: nat)
    requires 2 <= cs <= 8 && code <= SentAvail(cs, n) && code < 4096
    ensures code < Pow2(SentWidth(cs, n))
    ensures SentWidth(cs, n) >= 1
  {
    BitLenBounds(SentAvail(cs, n));
    Pow2Values();
  }

  lemma CodeUndone(code: nat, width: nat, tail: seq<bit>)
    requires code < Pow2(width)
    ensures var bits := ToBits(code, width) + tail;
      |bits| >= width && FromBits(bits[..width]) == code && bits[width..] == tail
  {
    FromToBits(code, width);
    SmallMod(code, Pow2(width));
    assert (ToBits(code, width) + tail)[..width] == ToBits(code, width);
  }

  /** Where the decoder stands when the encoder has sent n data codes since the last clear code. */
  ghost predicate InStep(cs: nat, n: nat, dict: seq<Word>, st: LzwState, s: seq<byte>)
  {
    && st.started && st.width == SentWidth(cs, n)
    && (n == 0 ==> dict == [] && st.dict == [] && st.last == [])
    && (n > 0 ==> st.last != [] && |st.dict| == n - 1)
    && (n > 0 && s != [] ==> dict == st.dict + [st.last + [s[0]]])
  }

  /** The decoder finds the string that was sent, even when its entry is the one it is about to add. */
  lemma ResolveUndone(cs: nat, n: nat, dict: seq<Word>, st: LzwState, s: seq<byte>, m: nat)
    requires 2 <= cs <= 8 && AllBelow(s, ClearCode(cs)) && InStep(cs, n, dict, st, s)
    requires 1 <= m <= |s| && (m == 1 || s[..m] in Usable(cs, dict))
    ensures var code := CodeOf(ClearCode(cs), Usable(cs, dict), s[..m]);
      code <= SentAvail(cs, n) && code < 4096 && Resolve(ClearCode(cs), st.dict, st.last, code) == s[..m]
  {
    hide SentWidth;
    var clear, u := ClearCode(cs), Usable(cs, dict);
    ClearBound(cs);
    var code := CodeOf(clear, u, s[..m]);
    if m > 1 {
      var i := IndexOf(u, s[..m]);
      assert u[i] == dict[i];
      if i == n - 1 {
        assert st.last + [s[0]] == s[..m];
        assert st.last[0] == s[..m][0] == s[0];
      }
    }
  }

  /** The dictionaries agree again behind each code. */
  lemma LearnInStep(cs: nat, n: nat, dict: seq<Word>, st: LzwState, s: seq<byte>, m: nat)
    requires 2 <= cs <= 8 && InStep(cs, n, dict, st, s) && 1 <= m <= |s|
    ensures InStep(cs, n + 1, NextDict(dict, s, m), Learn(ClearCode(cs), st, s[..m]), s[m..])
  {
    hide SentWidth, Grow;
    var st' := Learn(ClearCode(cs), st, s[..m]);
    WidthInStep(cs, n);
    assert s[..m][0] == s[0];
    assert st'.dict == dict;
    assert Avail(ClearCode(cs), st'.dict) == SentAvail(cs, n + 1);
    if m < |s| {
      assert s[..m + 1] == s[..m] + [s[m..][0]];
    }
  }

  /** What a clear code does. */
  lemma ClearStep(cs: nat, st: LzwState, width: nat, tail: seq<bit>, out: seq<byte>)
    requires 1 <= st.width == width && ClearCode(cs) < Pow2(width)
    ensures LzwDecode(cs, st, ToBits(ClearCode(cs), width) + tail, out) == LzwDecode(cs, Fresh(cs), tail, out)
  {
    hide ToBits, FromBits, Pow2;
    CodeUndone(ClearCode(cs), width, tail);
  }

  lemma EndStep(cs: nat, st: LzwState, width: nat, tail: seq<bit>, out: seq<byte>)
    requires 1 <= st.width == width && ClearCode(cs) + 1 < Pow2(width)
    ensures LzwDecode(cs, st, ToBits(ClearCode(cs) + 1, width) + tail, out) == Image(out)
  {
    hide ToBits, FromBits, Pow2;
    CodeUndone(ClearCode(cs) + 1, width, tail);
  }

  /** What a data code does. */
  lemma DataStep(cs: nat, st: LzwState, width: nat, code: nat, str: Word, tail: seq<bit>, out: seq<byte>)
    requires 1 <= st.width == width && code < Pow2(width) && st.started && HasRoom(ClearCode(cs), st)
    requires code != ClearCode(cs) && code != ClearCode(cs) + 1
    requires Resolve(ClearCode(cs), st.dict, st.last, code) == str && Learn(ClearCode(cs), st, str).width >= 1
    ensures LzwDecode(cs, st, ToBits(code, width) + tail, out)
         == LzwDecode(cs, Learn(ClearCode(cs), st, str), tail, out + str)
  {
    hide ToBits, FromBits, Pow2, Resolve, Learn;
    CodeUndone(code, width, tail);
  }

  /** Every list of colour indices survives encoding and decoding, for every limit the decoder's table can hold. */
  lemma {:induction false} LzwUndone(cs: nat, limit: nat, n: nat, dict: seq<Word>, st: LzwState, s: seq<byte>,
                                     rest: seq<bit>, out: seq<byte>)
    requires 2 <= cs <= 8 && ClearCode(cs) + 2 < limit <= MAX_CODES + 1 && AllBelow(s, ClearCode(cs))
    requires InStep(cs, n, dict, st, s) && ClearCode(cs) + 2 + n <= limit && st.width >= 1
    ensures LzwDecode(cs, st, LzwEncode(cs, limit, n, dict, s) + rest, out) == Image(out + s)
    decreases |s|, n
  {
    hide ToBits, FromBits, SentWidth, InStep, Usable, CodeOf, Resolve, Longest, Known, Learn, LzwDecode, AllBelow, NextDict;
    var clear, width := ClearCode(cs), SentWidth(cs, n);
    ClearBound(cs);
    Started(cs, n, dict, st, s);
    if s == [] {
      CodeFits(cs, n, clear + 1);
      EndStep(cs, st, width, rest, out);
      assert out + s == out;
    } else if clear + 2 + n >= limit {
      var tail := LzwEncode(cs, limit, 0, [], s) + rest;
      assert LzwEncode(cs, limit, n, dict, s) + rest == ToBits(clear, width) + tail;
      CodeFits(cs, n, clear);
      ClearStep(cs, st, width, tail, out);
      FreshInStep(cs, s);
      LzwUndone(cs, limit, 0, [], Fresh(cs), s, rest, out);
    } else {
      var m := Longest(Usable(cs, dict), s, |s|);
      ChunkUndone(cs, limit, n, dict, st, s, m, rest, out);
      LzwUndone(cs, limit, n + 1, NextDict(dict, s, m), Learn(clear, st, s[..m]), s[m..], rest, out + s[..m]);
      assert out + s[..m] + s[m..] == out + s;
    }
  }

  lemma EncodeChunk(cs: nat, limit: nat, n: nat, dict: seq<Word>, s: seq<byte>, m: nat, rest: seq<bit>)
    requires cs <= 8 && AllBelow(s, ClearCode(cs)) && s != [] && ClearCode(cs) + 2 + n < limit
    requires m == Longest(Usable(cs, dict), s, |s|)
    ensures AllBelow(s[m..], ClearCode(cs))
    ensures LzwEncode(cs, limit, n, dict, s) + rest
         == ToBits(CodeOf(ClearCode(cs), Usable(cs, dict), s[..m]), SentWidth(cs, n))
            + (LzwEncode(cs, limit, n + 1, NextDict(dict, s, m), s[m..]) + rest)
  {
    hide ToBits, SentWidth, Usable, CodeOf, Longest, ClearCode;
  }

  /** One data code of the encoder. */
  lemma ChunkUndone(cs: nat, limit: nat, n: nat, dict: seq<Word>, st: LzwState, s: seq<byte>, m: nat,
                    rest: seq<bit>, out: seq<byte>)
    requires 2 <= cs <= 8 && AllBelow(s, ClearCode(cs)) && s != []
    requires InStep(cs, n, dict, st, s) && ClearCode(cs) + 2 + n < limit <= MAX_CODES + 1 && st.width >= 1
    requires m == Longest(Usable(cs, dict), s, |s|)
    ensures AllBelow(s[m..], ClearCode(cs)) && Learn(ClearCode(cs), st, s[..m]).width >= 1
    ensures InStep(cs, n + 1, NextDict(dict, s, m), Learn(ClearCode(cs), st, s[..m]), s[m..])
    ensures LzwDecode(cs, st, LzwEncode(cs, limit, n, dict, s) + rest, out)
         == LzwDecode(cs, Learn(ClearCode(cs), st, s[..m]),
                      LzwEncode(cs, limit, n + 1, NextDict(dict, s, m), s[m..]) + rest, out + s[..m])
  {
    hide ToBits, FromBits, SentWidth, InStep, Resolve, Known, Learn, LzwDecode, LzwEncode, Usable, CodeOf, Longest,
      Pow2, ClearCode, NextDict;
    var clear, width := ClearCode(cs), SentWidth(cs, n);
    var u := Usable(cs, dict);
    var code := CodeOf(clear, u, s[..m]);
    var st' := Learn(clear, st, s[..m]);
    Started(cs, n, dict, st, s);
    EncodeChunk(cs, limit, n, dict, s, m, rest);
    ResolveUndone(cs, n, dict, st, s, m);
    CodeFits(cs, n, code);
    LearnInStep(cs, n, dict, st, s, m);
    WidthPositive(cs, n + 1);
    Started(cs, n + 1, NextDict(dict, s, m), st', s[m..]);
    DataStep(cs, st, width, code, s[..m], LzwEncode(cs, limit, n + 1, NextDict(dict, s, m), s[m..]) + rest, out);
  }

  lemma Started(cs: nat, n: nat, dict: seq<Word>, st: LzwState, s: seq<byte>)
    requires InStep(cs, n, dict, st, s)
    ensures st.started && st.width == SentWidth(cs, n)
    ensures n == 0 ==> st.last == []
    ensures n > 0 ==> Avail(ClearCode(cs), st.dict) == ClearCode(cs) + 2 + n - 1
  {
  }

  lemma WidthPositive(cs: nat, n: nat)
    ensures SentWidth(cs, n) >= 1
  {
  }

  lemma FreshInStep(cs: nat, s: seq<byte>)
    requires 2 <= cs <= 8
    ensures InStep(cs, 0, [], Fresh(cs), s)
  {
    FirstWidth(cs);
  }

  /** The decoder's state before the first code. */
  function Unstarted(cs: nat): LzwState
  {
    LzwState(false, cs + 1, [], [])
  }

  /** Decoding a whole code stream gives back the indices. */
  lemma StreamUndone(cs: nat, limit: nat, s: seq<byte>, rest: seq<bit>)
    requires 2 <= cs <= 8 && ClearCode(cs) + 2 < limit <= MAX_CODES + 1 && AllBelow(s, ClearCode(cs))
    ensures LzwDecode(cs, Unstarted(cs), LzwStream(cs, limit, s) + rest, []) == Image(s)
  {
    hide ToBits, FromBits, LzwEncode, LzwDecode, SentWidth;
    var tail := LzwEncode(cs, limit, 0, [], s) + rest;
    assert LzwStream(cs, limit, s) + rest == ToBits(ClearCode(cs), cs + 1) + tail;
    FirstWidth(cs);
    ClearBound(cs);
    CodeFits(cs, 0, ClearCode(cs));
    ClearStep(cs, Unstarted(cs), cs + 1, tail, []);
    FreshInStep(cs, s);
    LzwUndone(cs, limit, 0, [], Fresh(cs), s, rest, []);
    assert [] + s == s;
  }

  /** Before any clear code, a stream is rejected whatever follows its first code exactly when that code is neither the
      clear code nor the end code. */
  lemma FirstCodeDecides(cs: nat, first: seq<bit>)
    requires |first| == cs + 1
    ensures (forall rest: seq<bit> :: LzwDecode(cs, Unstarted(cs), first + rest, []) == Corrupt)
       <==> FromBits(first) != ClearCode(cs) && FromBits(first) != ClearCode(cs) + 1
  {
    hide FromBits, ClearCode;
    if FromBits(first) != ClearCode(cs) && FromBits(first) != ClearCode(cs) + 1 {
      forall rest: seq<bit> ensures LzwDecode(cs, Unstarted(cs), first + rest, []) == Corrupt {
        NoClearYet(cs, first + rest);
        assert (first + rest)[..cs + 1] == first;
      }
    } else {
      assert (first + [])[..cs + 1] == first;
      assert LzwDecode(cs, Unstarted(cs), first + [], []) == Image([]);
    }
  }

  lemma NoClearYet(cs: nat, bits: seq<bit>)
    requires |bits| >= cs + 1
    requires FromBits(bits[..cs + 1]) != ClearCode(cs) && FromBits(bits[..cs + 1]) != ClearCode(cs) + 1
    ensures LzwDecode(cs, Unstarted(cs), bits, []) == Corrupt
  {
  }

  /** So every coding of some indices is rejected when only its leading clear code is left out. */
  lemma CodingNeedsClear(cs: nat, limit: nat, s: seq<byte>, rest: seq<bit>)
    requires 2 <= cs <= 8 && ClearCode(cs) + 2 < limit && AllBelow(s, ClearCode(cs)) && s != []
    ensures LzwDecode(cs, Unstarted(cs), LzwEncode(cs, limit, 0, [], s) + rest, []) == Corrupt
  {
    hide ToBits, FromBits, LzwEncode, LzwDecode, SentWidth, Longest, Usable, ClearCode;
    var clear := ClearCode(cs);
    var m := Longest(Usable(cs, []), s, |s|);
    EncodeChunk(cs, limit, 0, [], s, m, rest);
    FirstIsLiteral(cs, s, m);
    FirstWidth(cs);
    var code := CodeOf(clear, Usable(cs, []), s[..m]);
    var tail := LzwEncode(cs, limit, 1, NextDict([], s, m), s[m..]) + rest;
    CodeFits(cs, 0, code);
    CodeUndone(code, cs + 1, tail);
    NoClearYet(cs, ToBits(code, cs + 1) + tail);
  }

  lemma FirstIsLiteral(cs: nat, s: seq<byte>, m: nat)
    requires cs <= 8 && s != [] && AllBelow(s, ClearCode(cs)) && m == Longest(Usable(cs, []), s, |s|)
    ensures m == 1 && CodeOf(ClearCode(cs), Usable(cs, []), s[..m]) < ClearCode(cs) <= 256
    ensures CodeOf(ClearCode(cs), Usable(cs, []), s[..m]) <= SentAvail(cs, 0)
  {
    ClearBound(cs);
  }

  /** A data code that names a string is rejected exactly while the table holds all its 8192 entries. */
  lemma FullTableRejects(cs: nat, st: LzwState, bits: seq<bit>, out: seq<byte>)
    requires 1 <= st.width <= |bits| && st.last != []
    requires FromBits(bits[..st.width]) != ClearCode(cs) && FromBits(bits[..st.width]) != ClearCode(cs) + 1
    ensures Pow2(cs) + 2 + |st.dict| >= 8192 ==> LzwDecode(cs, st, bits, out) == Corrupt
    ensures var str := Resolve(ClearCode(cs), st.dict, st.last, FromBits(bits[..st.width]));
      st.started && Pow2(cs) + 2 + |st.dict| < 8192 && str != [] ==>
        LzwDecode(cs, st, bits, out) == LzwDecode(cs, Learn(ClearCode(cs), st, str), bits[st.width..], out + str)
  {
    hide Resolve, Learn, FromBits;
  }
}
