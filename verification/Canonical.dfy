/** Canonical Huffman codes as section 3.2.2 of RFC 1951 defines them from a list of code lengths,
    and the facts a decoder rests on: the Kraft inequality, prefix-freeness and coverage. */
module Canonical {
  import opened Bits
  import opened Options

  const MAX_SYMBOLS := 288
  const MAX_LENGTH := 15

  /** The lengths a caller may pass: at most 288 of them, none above 15; 0 means "no code". */
  predicate ValidLens(lens: seq<nat>)
  {
    |lens| <= MAX_SYMBOLS && forall i :: 0 <= i < |lens| ==> lens[i] <= MAX_LENGTH
  }

  /** How many of the first n symbols have length l. */
  function CountTo(lens: seq<nat>, n: nat, l: nat): (c: nat)
    requires n <= |lens|
    ensures c <= n
  {
    if n == 0 then 0 else CountTo(lens, n - 1, l) + (if lens[n - 1] == l then 1 else 0)
  }

  /** bl_count of the RFC; length 0 counts as unused. */
  function Count(lens: seq<nat>, l: nat): nat
  {
    if l == 0 then 0 else CountTo(lens, |lens|, l)
  }

  /** next_code of the RFC before any code is handed out. */
  function FirstCode(lens: seq<nat>, l: nat): nat
  {
    if l == 0 then 0 else 2 * (FirstCode(lens, l - 1) + Count(lens, l - 1))
  }

  /** Number of codes shorter than l. */
  function FirstSymbol(lens: seq<nat>, l: nat): nat
  {
    if l == 0 then 0 else FirstSymbol(lens, l - 1) + Count(lens, l - 1)
  }

  predicate HasCode(lens: seq<nat>, i: nat)
  {
    i < |lens| && lens[i] > 0
  }

  function Rank(lens: seq<nat>, i: nat): nat
    requires i < |lens|
  {
    CountTo(lens, i, lens[i])
  }

  /** The code of symbol i. */
  function Code(lens: seq<nat>, i: nat): nat
    requires HasCode(lens, i)
  {
    FirstCode(lens, lens[i]) + Rank(lens, i)
  }

  /** Place of symbol i when the symbols are ordered by length, then by number. */
  function Place(lens: seq<nat>, i: nat): nat
    requires HasCode(lens, i)
  {
    FirstSymbol(lens, lens[i]) + Rank(lens, i)
  }

  /** A code is sent most significant bit first (section 3.1.1 of RFC 1951). */
  function CodeBits(code: nat, s: nat): (b: seq<bit>)
    ensures |b| == s
  {
    seq(s, (t: nat) requires t < s => Bit(code, s - 1 - t))
  }

  function SymbolBits(lens: seq<nat>, i: nat): (b: seq<bit>)
    requires HasCode(lens, i)
    ensures |b| == lens[i]
  {
    CodeBits(Code(lens, i), lens[i])
  }

  // ----- the Kraft sum -----

  /** Kraft sum of the first n symbols, scaled by 2^15. */
  function KraftTo(lens: seq<nat>, n: nat): nat
    requires n <= |lens|
    requires forall i :: 0 <= i < |lens| ==> lens[i] <= MAX_LENGTH
  {
    if n == 0 then 0
    else KraftTo(lens, n - 1) + (if lens[n - 1] == 0 then 0 else Pow2(MAX_LENGTH - lens[n - 1]))
  }

  /** A table is accepted when its Kraft sum is at most 1. */
  predicate Accepted(lens: seq<nat>)
    requires ValidLens(lens)
  {
    KraftTo(lens, |lens|) <= Pow2(MAX_LENGTH)
  }

  /** The same sum, taken length by length up to l. */
  function ByLength(lens: seq<nat>, n: nat, l: nat): nat
    requires n <= |lens| && l <= MAX_LENGTH
  {
    if l == 0 then 0 else ByLength(lens, n, l - 1) + CountTo(lens, n, l) * Pow2(MAX_LENGTH - l)
  }

  lemma {:induction false} ByLengthStep(lens: seq<nat>, n: nat, l: nat)
    requires n < |lens| && l <= MAX_LENGTH && lens[n] <= MAX_LENGTH
    ensures ByLength(lens, n + 1, l)
         == ByLength(lens, n, l) + (if 0 < lens[n] <= l then Pow2(MAX_LENGTH - lens[n]) else 0)
  {
    hide Pow2;
    if l > 0 {
      ByLengthStep(lens, n, l - 1);
      MulStep(CountTo(lens, n, l), Pow2(MAX_LENGTH - l));
    }
  }

  lemma {:induction false} ByLengthZero(lens: seq<nat>, l: nat)
    requires l <= MAX_LENGTH
    ensures ByLength(lens, 0, l) == 0
  {
    if l > 0 {
      ByLengthZero(lens, l - 1);
    }
  }

  lemma {:induction false} KraftByLength(lens: seq<nat>, n: nat)
    requires ValidLens(lens) && n <= |lens|
    ensures KraftTo(lens, n) == ByLength(lens, n, MAX_LENGTH)
  {
    if n == 0 {
      ByLengthZero(lens, MAX_LENGTH);
    } else {
      KraftByLength(lens, n - 1);
      ByLengthStep(lens, n - 1, MAX_LENGTH);
    }
  }

  /** The first code not used by lengths up to l, scaled to 16 bits. */
  function MaxCode(lens: seq<nat>, l: nat): nat
    requires l <= MAX_LENGTH
  {
    Shl(FirstCode(lens, l) + Count(lens, l), 16 - l)
  }

  lemma MaxCodeValue(lens: seq<nat>, l: nat)
    requires l <= MAX_LENGTH
    ensures MaxCode(lens, l) == (FirstCode(lens, l) + Count(lens, l)) * Pow2(16 - l)
    ensures l == 0 ==> MaxCode(lens, l) == 0
  {
    ShlIsMul(FirstCode(lens, l) + Count(lens, l), 16 - l);
  }

  lemma {:induction false} MaxCodeIsKraft(lens: seq<nat>, l: nat)
    requires l <= MAX_LENGTH
    ensures MaxCode(lens, l) == 2 * ByLength(lens, |lens|, l)
  {
    hide MaxCode, Shl;
    MaxCodeValue(lens, l);
    if l > 0 {
      MaxCodeIsKraft(lens, l - 1);
      MaxCodeValue(lens, l - 1);
      var p := Pow2(15 - l);
      assert Pow2(16 - l) == 2 * p;
      assert Pow2(16 - (l - 1)) == 2 * Pow2(16 - l);
      ScaleStep(FirstCode(lens, l - 1) + Count(lens, l - 1), Count(lens, l), p);
    }
  }

  lemma ScaleStep(a: nat, b: nat, p: nat)
    ensures (2 * a + b) * (2 * p) == a * (2 * (2 * p)) + 2 * (b * p)
    ensures (2 * a) * p == a * (2 * p)
  {
    assert (2 * a) * p == 2 * (a * p);
  }

  lemma {:induction false} ByLengthMono(lens: seq<nat>, n: nat, l: nat, m: nat)
    requires n <= |lens| && l <= m <= MAX_LENGTH
    ensures ByLength(lens, n, l) <= ByLength(lens, n, m)
  {
    if l < m {
      ByLengthMono(lens, n, l, m - 1);
    }
  }

  lemma MaxCodeMono(lens: seq<nat>, l: nat, m: nat)
    requires l <= m <= MAX_LENGTH
    ensures MaxCode(lens, l) <= MaxCode(lens, m)
  {
    MaxCodeIsKraft(lens, l);
    MaxCodeIsKraft(lens, m);
    ByLengthMono(lens, |lens|, l, m);
  }

  /** Codes of length l start where the shorter codes end. */
  lemma FirstCodeEdge(lens: seq<nat>, l: nat)
    requires 1 <= l <= MAX_LENGTH
    ensures FirstCode(lens, l) * Pow2(16 - l) == MaxCode(lens, l - 1)
  {
    hide MaxCode, Shl;
    MaxCodeValue(lens, l - 1);
    assert Pow2(16 - (l - 1)) == 2 * Pow2(16 - l);
    ScaleStep(FirstCode(lens, l - 1) + Count(lens, l - 1), 0, Pow2(16 - l));
  }

  /** Whether length l still fits: the test the builder makes. */
  predicate Fits(lens: seq<nat>, l: nat)
  {
    FirstCode(lens, l) + Count(lens, l) <= Pow2(l)
  }

  lemma ScaleLe(a: nat, b: nat, d: nat)
    requires d > 0
    ensures a <= b <==> a * d <= b * d
  {
    if a <= b {
      MulMono(a, b, d);
    } else {
      MulMono(b + 1, a, d);
    }
  }

  lemma FitsIsMaxCode(lens: seq<nat>, l: nat)
    requires l <= MAX_LENGTH
    ensures Fits(lens, l) <==> MaxCode(lens, l) <= Pow2(16)
  {
    hide MaxCode, Shl, FirstCode, Count, Pow2;
    MaxCodeValue(lens, l);
    Pow2Add(l, 16 - l);
    ScaleLe(FirstCode(lens, l) + Count(lens, l), Pow2(l), Pow2(16 - l));
  }

  /** An accepted list lets every length fit. */
  lemma AcceptedFits(lens: seq<nat>, l: nat)
    requires ValidLens(lens) && Accepted(lens) && l <= MAX_LENGTH
    ensures Fits(lens, l) && MaxCode(lens, l) <= Pow2(16)
  {
    KraftByLength(lens, |lens|);
    MaxCodeIsKraft(lens, MAX_LENGTH);
    MaxCodeMono(lens, l, MAX_LENGTH);
    FitsIsMaxCode(lens, l);
  }

  lemma {:induction false} NoMoreCounts(lens: seq<nat>, l: nat, m: nat)
    requires l <= m <= MAX_LENGTH
    requires forall k :: l < k <= m ==> Count(lens, k) == 0
    ensures ByLength(lens, |lens|, m) == ByLength(lens, |lens|, l)
  {
    if l < m {
      NoMoreCounts(lens, l, m - 1);
      assert Count(lens, m) == 0;
    }
  }

  /** If every used length fits, the Kraft sum is at most 1. */
  lemma {:induction false} UsedFitImpliesAccepted(lens: seq<nat>, l: nat)
    requires ValidLens(lens) && l <= MAX_LENGTH
    requires forall k :: 1 <= k <= MAX_LENGTH && Count(lens, k) > 0 ==> Fits(lens, k)
    requires forall k :: l < k <= MAX_LENGTH ==> Count(lens, k) == 0
    ensures Accepted(lens)
  {
    hide MaxCode, Shl, FirstCode, CountTo, KraftTo;
    KraftByLength(lens, |lens|);
    if l == 0 {
      NoMoreCounts(lens, 0, MAX_LENGTH);
    } else if Count(lens, l) == 0 {
      UsedFitImpliesAccepted(lens, l - 1);
    } else {
      NoMoreCounts(lens, l, MAX_LENGTH);
      FitsIsMaxCode(lens, l);
      MaxCodeIsKraft(lens, l);
      assert Pow2(16) == 2 * Pow2(15);
    }
  }

  // ----- ranks -----

  lemma {:induction false} CountMono(lens: seq<nat>, m: nat, n: nat, l: nat)
    requires m <= n <= |lens|
    ensures CountTo(lens, m, l) <= CountTo(lens, n, l)
    ensures m < n && lens[m] == l ==> CountTo(lens, m, l) < CountTo(lens, n, l)
  {
    if m < n - 1 {
      CountMono(lens, m, n - 1, l);
    }
  }

  lemma RankBelowCount(lens: seq<nat>, i: nat)
    requires HasCode(lens, i)
    ensures Rank(lens, i) < Count(lens, lens[i])
  {
    CountMono(lens, i, |lens|, lens[i]);
  }

  /** The symbol of length l that has a given rank. */
  function SymbolOfRank(lens: seq<nat>, n: nat, l: nat, r: nat): (i: nat)
    requires n <= |lens| && r < CountTo(lens, n, l)
    ensures i < n && lens[i] == l && Rank(lens, i) == r
  {
    if lens[n - 1] == l && CountTo(lens, n - 1, l) == r then n - 1
    else SymbolOfRank(lens, n - 1, l, r)
  }

  lemma {:induction false} FirstSymbolMono(lens: seq<nat>, l: nat, m: nat)
    requires l < m
    ensures FirstSymbol(lens, l) + Count(lens, l) <= FirstSymbol(lens, m)
  {
    if l < m - 1 {
      FirstSymbolMono(lens, l, m - 1);
    }
  }

  lemma {:induction false} FirstSymbolTotal(lens: seq<nat>, n: nat, l: nat)
    requires n <= |lens|
    ensures SymbolsTo(lens, n, l) <= n
  {
    if n == 0 {
      SymbolsToZero(lens, l);
    } else {
      FirstSymbolTotal(lens, n - 1, l);
      SymbolsToStep(lens, n - 1, l);
    }
  }

  /** Number of the first n symbols with a length in 1..l-1. */
  function SymbolsTo(lens: seq<nat>, n: nat, l: nat): nat
    requires n <= |lens|
  {
    if l == 0 then 0 else SymbolsTo(lens, n, l - 1) + (if l == 1 then 0 else CountTo(lens, n, l - 1))
  }

  lemma {:induction false} SymbolsToZero(lens: seq<nat>, l: nat)
    ensures SymbolsTo(lens, 0, l) == 0
  {
    if l > 0 {
      SymbolsToZero(lens, l - 1);
    }
  }

  lemma {:induction false} SymbolsToStep(lens: seq<nat>, n: nat, l: nat)
    requires n < |lens|
    ensures SymbolsTo(lens, n + 1, l) == SymbolsTo(lens, n, l) + (if 0 < lens[n] < l then 1 else 0)
  {
    if l > 0 {
      SymbolsToStep(lens, n, l - 1);
    }
  }

  lemma {:induction false} FirstSymbolIsSymbolsTo(lens: seq<nat>, l: nat)
    ensures FirstSymbol(lens, l) == SymbolsTo(lens, |lens|, l)
  {
    if l > 0 {
      FirstSymbolIsSymbolsTo(lens, l - 1);
    }
  }

  lemma FirstSymbolBound(lens: seq<nat>, l: nat)
    ensures FirstSymbol(lens, l) <= |lens|
  {
    FirstSymbolTotal(lens, |lens|, l);
    FirstSymbolIsSymbolsTo(lens, l);
  }

  lemma PlaceBound(lens: seq<nat>, i: nat)
    requires HasCode(lens, i)
    ensures Place(lens, i) < |lens|
  {
    RankBelowCount(lens, i);
    FirstSymbolBound(lens, lens[i] + 1);
  }

  lemma PlaceInjective(lens: seq<nat>, i: nat, j: nat)
    requires HasCode(lens, i) && HasCode(lens, j) && i < j
    ensures Place(lens, i) != Place(lens, j)
  {
    RankBelowCount(lens, i);
    RankBelowCount(lens, j);
    if lens[i] == lens[j] {
      CountMono(lens, i, j, lens[i]);
    } else if lens[i] < lens[j] {
      FirstSymbolMono(lens, lens[i], lens[j]);
    } else {
      FirstSymbolMono(lens, lens[j], lens[i]);
    }
  }

  // ----- matching -----

  /** Symbol i matches a 16-bit window k (next stream bit on top): its code is the top of k. */
  predicate Matches(lens: seq<nat>, k: nat, i: nat)
    requires ValidLens(lens)
  {
    HasCode(lens, i) && Shr(k, 16 - lens[i]) == Code(lens, i)
  }

  lemma MatchInterval(lens: seq<nat>, k: nat, i: nat)
    requires ValidLens(lens) && Matches(lens, k, i)
    ensures Code(lens, i) * Pow2(16 - lens[i]) <= k < (Code(lens, i) + 1) * Pow2(16 - lens[i])
    ensures k < MaxCode(lens, lens[i])
    ensures MaxCode(lens, lens[i] - 1) <= k
  {
    hide MaxCode, Shl, FirstCode, Count, CountTo, KraftTo;
    MaxCodeValue(lens, lens[i]);
    var s, c := lens[i], Code(lens, i);
    RankBelowCount(lens, i);
    FirstCodeEdge(lens, s);
    ShrIsDiv(k, 16 - s);
    DivEdges(k, Pow2(16 - s));
    MulMono(c + 1, FirstCode(lens, s) + Count(lens, s), Pow2(16 - s));
    MulMono(FirstCode(lens, s), c, Pow2(16 - s));
  }

  lemma DivEdges(k: nat, d: nat)
    requires d > 0
    ensures (k / d) * d <= k < (k / d + 1) * d
  {
    assert k == (k / d) * d + k % d;
  }

  /** At most one symbol matches: no code is a prefix of another. */
  lemma MatchUnique(lens: seq<nat>, k: nat, i: nat, j: nat)
    requires ValidLens(lens)
    requires Matches(lens, k, i) && Matches(lens, k, j)
    ensures i == j
  {
    MatchInterval(lens, k, i);
    MatchInterval(lens, k, j);
    if lens[i] < lens[j] {
      MaxCodeMono(lens, lens[i], lens[j] - 1);
    } else if lens[j] < lens[i] {
      MaxCodeMono(lens, lens[j], lens[i] - 1);
    } else if i < j {
      CountMono(lens, i, j, lens[i]);
    } else if j < i {
      CountMono(lens, j, i, lens[i]);
    }
  }

  /** Every window below MaxCode(l) and not below MaxCode(l - 1) starts with a code of length l. */
  lemma MatchExists(lens: seq<nat>, k: nat, l: nat) returns (i: nat)
    requires ValidLens(lens) && 1 <= l <= MAX_LENGTH
    requires MaxCode(lens, l - 1) <= k < MaxCode(lens, l)
    ensures Matches(lens, k, i) && lens[i] == l
    ensures Shr(k, 16 - l) == FirstCode(lens, l) + Rank(lens, i)
  {
    hide MaxCode, Shl, FirstCode;
    MaxCodeValue(lens, l);
    var p := Pow2(16 - l);
    var q := Shr(k, 16 - l);
    FirstCodeEdge(lens, l);
    ShrIsDiv(k, 16 - l);
    DivBelow(k, p, FirstCode(lens, l) + Count(lens, l));
    DivAtLeast(k, p, FirstCode(lens, l));
    i := SymbolOfRank(lens, |lens|, l, q - FirstCode(lens, l));
  }

  /** Every window below MaxCode(l) starts with a code of length at most l. */
  lemma {:induction false} MatchExistsUpTo(lens: seq<nat>, k: nat, l: nat) returns (i: nat)
    requires ValidLens(lens) && l <= MAX_LENGTH && k < MaxCode(lens, l)
    ensures Matches(lens, k, i) && lens[i] <= l
  {
    if l == 0 {
      MaxCodeValue(lens, 0);
      assert false;
    } else if k < MaxCode(lens, l - 1) {
      i := MatchExistsUpTo(lens, k, l - 1);
    } else {
      i := MatchExists(lens, k, l);
    }
  }

  // ----- decoding a bit sequence -----

  /** Symbol i's code starts the bit sequence. */
  predicate Starts(lens: seq<nat>, i: nat, bits: seq<bit>)
  {
    HasCode(lens, i) && SymbolBits(lens, i) <= bits
  }

  /** The symbol, among the first n, whose code starts the bit sequence. */
  function FindSymbol(lens: seq<nat>, n: nat, bits: seq<bit>): (r: Option<nat>)
    requires n <= |lens|
    ensures r.Some? ==> r.value < n && Starts(lens, r.value, bits)
    ensures r.None? ==> forall i :: 0 <= i < n ==> !Starts(lens, i, bits)
  {
    if n == 0 then None
    else if Starts(lens, n - 1, bits) then Some(n - 1)
    else FindSymbol(lens, n - 1, bits)
  }

  function DecodeSymbol(lens: seq<nat>, bits: seq<bit>): Option<nat>
  {
    FindSymbol(lens, |lens|, bits)
  }

  lemma CodeBound(lens: seq<nat>, i: nat)
    requires ValidLens(lens) && Accepted(lens) && HasCode(lens, i)
    ensures Code(lens, i) < Pow2(lens[i])
  {
    AcceptedFits(lens, lens[i]);
    RankBelowCount(lens, i);
  }

  /** The bits of a code, as a number read least significant bit first, are the reversed code. */
  lemma CodeBitsAreRev(code: nat, s: nat)
    ensures CodeBits(code, s) == ToBits(Rev(code, s), s)
  {
    forall t: nat | t < s ensures CodeBits(code, s)[t] == ToBits(Rev(code, s), s)[t] {
      BitOfRev(code, s, t);
    }
  }

  /** Matching the reversed window is the same as the code starting the stream. */
  lemma StartsIsMatch(lens: seq<nat>, i: nat, v: nat, n: nat)
    requires ValidLens(lens) && Accepted(lens) && HasCode(lens, i) && lens[i] <= n
    ensures Starts(lens, i, ToBits(v, n)) <==> Matches(lens, Rev(v, 16), i)
    ensures Starts(lens, i, ToBits(v, n)) <==> v % Pow2(lens[i]) == Rev(Code(lens, i), lens[i])
  {
    var s, c := lens[i], Code(lens, i);
    var low := v % Pow2(s);
    CodeBound(lens, i);
    RevBound(c, s);
    CodeBitsAreRev(c, s);
    ToBitsTake(v, s, n);
    ModSameBits(v, s);
    RevTop(v, low, s, 16);
    if Starts(lens, i, ToBits(v, n)) {
      assert ToBits(low, s) == ToBits(Rev(c, s), s);
      ToBitsInjective(low, Rev(c, s), s);
    }
    if low == Rev(c, s) {
      RevRev(c, s);
    }
    if Rev(low, s) == c {
      RevRev(low, s);
    }
    assert SymbolBits(lens, i) <= ToBits(v, n) <==> SymbolBits(lens, i) == ToBits(v, n)[..s];
  }

  /** No two codes start the same bit sequence. */
  lemma StartsUnique(lens: seq<nat>, i: nat, j: nat, bits: seq<bit>)
    requires ValidLens(lens) && Accepted(lens)
    requires Starts(lens, i, bits) && Starts(lens, j, bits)
    ensures i == j
  {
    var v := FromBits(bits);
    ToFromBits(bits);
    StartsIsMatch(lens, i, v, |bits|);
    StartsIsMatch(lens, j, v, |bits|);
    MatchUnique(lens, Rev(v, 16), i, j);
  }

  /** Decoding undoes coding one symbol, whatever follows. */
  lemma DecodeUndoesSymbol(lens: seq<nat>, i: nat, rest: seq<bit>)
    requires ValidLens(lens) && Accepted(lens) && HasCode(lens, i)
    ensures DecodeSymbol(lens, SymbolBits(lens, i) + rest) == Some(i)
    ensures (SymbolBits(lens, i) + rest)[lens[i]..] == rest
  {
    var bits := SymbolBits(lens, i) + rest;
    assert Starts(lens, i, bits);
    var r := DecodeSymbol(lens, bits);
    if r.Some? {
      StartsUnique(lens, i, r.value, bits);
    }
  }
}
