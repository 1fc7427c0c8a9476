/** The zlib Huffman table: a 9-bit fast table, first codes, sentinels and the symbol lists. */
module ZHuffman {
  import opened Bits
  import opened Canonical

  const FAST_BITS := 9
  const FAST_SIZE := 512

  /** What the fast table holds for the 9-bit window b after the first n symbols were entered. */
  function FastEntry(lens: seq<nat>, n: nat, b: nat): (e: nat)
    requires n <= |lens|
  {
    if n == 0 then 0
    else if 1 <= lens[n - 1] <= FAST_BITS && b % Pow2(lens[n - 1]) == Rev(Code(lens, n - 1), lens[n - 1])
    then lens[n - 1] * 512 + (n - 1)
    else FastEntry(lens, n - 1, b)
  }

  /** A fast entry is empty, or packs the length and number of a symbol whose reversed code is b's tail. */
  lemma {:induction false} FastEntryMeaning(lens: seq<nat>, n: nat, b: nat)
    requires ValidLens(lens) && n <= |lens|
    ensures FastEntry(lens, n, b) == 0 ==>
      (forall i :: 0 <= i < n && 1 <= lens[i] <= FAST_BITS ==> b % Pow2(lens[i]) != Rev(Code(lens, i), lens[i]))
    ensures FastEntry(lens, n, b) != 0 ==>
      (var i, s := FastEntry(lens, n, b) % 512, FastEntry(lens, n, b) / 512;
       i < n && HasCode(lens, i) && lens[i] == s <= FAST_BITS && b % Pow2(s) == Rev(Code(lens, i), s))
  {
    hide Code, Rev, Pow2;
    if n > 0 {
      FastEntryMeaning(lens, n - 1, b);
    }
  }

  /** If every used length up to l fits, then l itself fits. */
  lemma {:induction false} FitsUpTo(lens: seq<nat>, l: nat)
    requires ValidLens(lens)
    requires forall k :: 1 <= k <= l && Count(lens, k) > 0 ==> Fits(lens, k)
    ensures Fits(lens, l)
    ensures FirstCode(lens, l + 1) <= Pow2(l + 1)
  {
    if l > 0 {
      FitsUpTo(lens, l - 1);
    }
  }

  /** Windows congruent to j modulo m, met one stride at a time. */
  lemma StrideGap(b: nat, j: nat, m: nat)
    requires m > 0 && j <= b < j + m && b % m == j % m
    ensures b == j
  {
    var d := b - j;
    if d > 0 {
      var q, r := j / m, j % m;
      assert j == q * m + r;
      if r + d < m {
        DivUnique(b, m, q, r + d);
      } else {
        DivUnique(b, m, q + 1, r + d - m);
      }
    }
  }

  lemma StrideStep(j: nat, m: nat)
    requires m > 0
    ensures (j + m) % m == j % m
  {
    DivUnique(j + m, m, j / m + 1, j % m);
  }

  class Huffman {
    const fast: array<nat>
    const firstcode: array<nat>
    const maxcode: array<nat>
    const firstsymbol: array<nat>
    const size: array<nat>
    const value: array<nat>

    ghost const Repr: set<object>

    ghost predicate Valid()
    {
      && Repr == {fast, firstcode, maxcode, firstsymbol, size, value}
      && fast.Length == FAST_SIZE && firstcode.Length == 16 && maxcode.Length == 17
      && firstsymbol.Length == 16 && size.Length == MAX_SYMBOLS && value.Length == MAX_SYMBOLS
      && fast != firstcode && fast != maxcode && fast != firstsymbol && fast != size && fast != value
      && firstcode != maxcode && firstcode != firstsymbol && firstcode != size && firstcode != value
      && maxcode != firstsymbol && maxcode != size && maxcode != value
      && firstsymbol != size && firstsymbol != value && size != value
    }

    constructor ()
      ensures Valid() && fresh(Repr)
    {
      var f, fc, mc := new nat[FAST_SIZE], new nat[16], new nat[17];
      var fs, sz, va := new nat[16], new nat[MAX_SYMBOLS], new nat[MAX_SYMBOLS];
      fast, firstcode, maxcode, firstsymbol, size, value := f, fc, mc, fs, sz, va;
      Repr := {f, fc, mc, fs, sz, va};
    }

    /** Codes of length l are described by the first-code, sentinel and first-symbol columns. */
    ghost predicate ColumnAt(lens: seq<nat>, l: nat)
      requires Valid() && 1 <= l <= MAX_LENGTH
      reads firstcode, maxcode, firstsymbol
    {
      && firstcode[l] == FirstCode(lens, l)
      && firstsymbol[l] == FirstSymbol(lens, l)
      && maxcode[l] == MaxCode(lens, l)
    }

    /** Symbol i is listed at its place. */
    ghost predicate ListedAt(lens: seq<nat>, i: nat)
      requires Valid() && ValidLens(lens) && HasCode(lens, i)
      reads size, value
    {
      PlaceBound(lens, i);
      size[Place(lens, i)] == lens[i] && value[Place(lens, i)] == i
    }

    /** The whole table describes the canonical code of lens. */
    ghost predicate Built(lens: seq<nat>)
      reads Repr
    {
      && Valid() && ValidLens(lens) && Accepted(lens)
      && (forall l :: 1 <= l <= MAX_LENGTH ==> ColumnAt(lens, l))
      && maxcode[16] == 0x10000
      && (forall i :: 0 <= i < |lens| && HasCode(lens, i) ==> ListedAt(lens, i))
      && (forall b :: 0 <= b < FAST_SIZE ==> fast[b] == FastEntry(lens, |lens|, b))
    }

    /** sizes[l] counts the symbols of length l; length 0 is not counted. */
    static method CountSizes(sizelist: seq<nat>) returns (sizes: array<nat>)
      requires ValidLens(sizelist)
      ensures fresh(sizes) && sizes.Length == 17
      ensures forall l :: 0 <= l <= MAX_LENGTH ==> sizes[l] == Count(sizelist, l)
    {
      sizes := new nat[17];
      forall l | 0 <= l < 17 {
        sizes[l] := 0;
      }
      for i := 0 to |sizelist|
        invariant forall l :: 0 <= l < 17 ==> sizes[l] == CountTo(sizelist, i, l)
      {
        sizes[sizelist[i]] := sizes[sizelist[i]] + 1;
      }
      sizes[0] := 0;
    }

    /** Every used length below n fits. */
    static ghost predicate UsedFit(lens: seq<nat>, n: nat)
    {
      forall l :: 1 <= l < n && Count(lens, l) > 0 ==> Fits(lens, l)
    }

    static lemma ColumnStep(lens: seq<nat>, i: nat)
      requires ValidLens(lens) && 1 <= i <= MAX_LENGTH
      requires UsedFit(lens, i)
      ensures FirstCode(lens, i) < 0x10000 && FirstSymbol(lens, i) < 0x10000
      ensures FirstCode(lens, i + 1) == Shl(FirstCode(lens, i) + Count(lens, i), 1)
      ensures MaxCode(lens, i) == Shl(FirstCode(lens, i) + Count(lens, i), 16 - i)
      ensures FirstSymbol(lens, i + 1) == FirstSymbol(lens, i) + Count(lens, i)
      ensures Shl(1, i) == Pow2(i)
    {
      Pow2Values();
      ShlOne(i);
      ShlIsMul(FirstCode(lens, i) + Count(lens, i), 16 - i);
      assert Shl(FirstCode(lens, i) + Count(lens, i), 1) == 2 * Shl(FirstCode(lens, i) + Count(lens, i), 0);
      FitsUpTo(lens, i - 1);
      Pow2Mono(i, 15);
      FirstSymbolBound(lens, i);
    }

    static lemma MisfitRejected(lens: seq<nat>, i: nat)
      requires ValidLens(lens) && 1 <= i <= MAX_LENGTH && !Fits(lens, i)
      ensures !Accepted(lens)
    {
      if Accepted(lens) {
        AcceptedFits(lens, i);
      }
    }

    /** The columns of all lengths below n are in place. */
    ghost predicate ColumnsBelow(lens: seq<nat>, next_code: array<nat>, n: nat)
      requires Valid() && next_code.Length == 16 && n <= 16
      reads firstcode, maxcode, firstsymbol, next_code
    {
      forall l :: 1 <= l < n ==> ColumnAt(lens, l) && next_code[l] == FirstCode(lens, l)
    }

    /** Stores one column; code and k are still untruncated. */
    method SetColumn(ghost lens: seq<nat>, i: nat, code: nat, k: nat, count: nat, next_code: array<nat>)
      requires Valid() && next_code.Length == 16 && next_code !in Repr
      requires ValidLens(lens) && 1 <= i <= MAX_LENGTH && UsedFit(lens, i)
      requires code == FirstCode(lens, i) && k == FirstSymbol(lens, i) && count == Count(lens, i)
      requires ColumnsBelow(lens, next_code, i)
      modifies firstcode, firstsymbol, maxcode, next_code
      ensures ColumnsBelow(lens, next_code, i + 1)
    {
      hide FirstCode, FirstSymbol, Count, MaxCode, Shl, UsedFit, U16, ValidLens;
      ColumnStep(lens, i);
      assert next_code != firstcode && next_code != firstsymbol && next_code != maxcode;
      next_code[i] := code;
      firstcode[i] := U16(code);
      firstsymbol[i] := U16(k);
      maxcode[i] := Shl(code + count, 16 - i);
      assert ColumnAt(lens, i);
      forall l | 1 <= l < i ensures ColumnAt(lens, l) && next_code[l] == FirstCode(lens, l) {
        assert old(ColumnAt(lens, l));
      }
    }

    /** What the fitting test at length i decides, in the builder's own variables. */
    static lemma FitTest(lens: seq<nat>, i: nat, code: nat, k: nat, count: nat)
      requires ValidLens(lens) && 1 <= i <= MAX_LENGTH && UsedFit(lens, i)
      requires code == FirstCode(lens, i) && k == FirstSymbol(lens, i) && count == Count(lens, i)
      ensures count != 0 && code + count - 1 >= Shl(1, i) ==> !Accepted(lens)
      ensures count == 0 || code + count - 1 < Shl(1, i) ==> UsedFit(lens, i + 1)
      ensures Shl(code + count, 1) == FirstCode(lens, i + 1) && k + count == FirstSymbol(lens, i + 1)
    {
      hide Pow2, FirstCode, Shl, FirstSymbol, ValidLens, Accepted, Count;
      ColumnStep(lens, i);
      if !Fits(lens, i) {
        MisfitRejected(lens, i);
      }
    }

    static lemma ColumnStart(lens: seq<nat>)
      ensures FirstCode(lens, 1) == 0 && FirstSymbol(lens, 1) == 0
    {
      assert FirstCode(lens, 0) == 0 && FirstSymbol(lens, 0) == 0;
    }

    /** Hands out first codes length by length; fails at the first length that does not fit. */
    method AssignColumns(ghost lens: seq<nat>, sizes: array<nat>, next_code: array<nat>) returns (ok: bool)
      requires Valid() && ValidLens(lens)
      requires sizes.Length == 17 && next_code.Length == 16
      requires sizes !in Repr && next_code !in Repr && sizes != next_code
      requires forall l :: 0 <= l <= MAX_LENGTH ==> sizes[l] == Count(lens, l)
      modifies firstcode, firstsymbol, maxcode, next_code
      ensures ok <==> Accepted(lens)
      ensures ok ==> ColumnsBelow(lens, next_code, 16) && maxcode[16] == 0x10000
    {
      hide FirstCode, FirstSymbol, Count, Shl, MaxCode, KraftTo, Fits, Accepted, UsedFit, ValidLens, ColumnsBelow;
      ghost var counts := sizes[..];
      ColumnStart(lens);
      NothingUsedYet(lens, next_code);
      var code, k := 0, 0;
      var i := 1;
      while i < 16
        invariant 1 <= i <= 16
        invariant code == FirstCode(lens, i) && k == FirstSymbol(lens, i)
        invariant sizes[..] == counts
        invariant UsedFit(lens, i)
        invariant ColumnsBelow(lens, next_code, i)
      {
        assert sizes[i] == counts[i] == Count(lens, i);
        FitTest(lens, i, code, k, sizes[i]);
        if sizes[i] != 0 && code + sizes[i] - 1 >= Shl(1, i) {
          return false;
        }
        SetColumn(lens, i, code, k, sizes[i], next_code);
        code := code + sizes[i];
        code := Shl(code, 1);
        k := k + sizes[i];
        i := i + 1;
      }
      AllUsedFit(lens);
      SetSentinel(lens, next_code);
      return true;
    }

    static lemma AllUsedFit(lens: seq<nat>)
      requires ValidLens(lens) && UsedFit(lens, 16)
      ensures Accepted(lens)
    {
      UsedFitImpliesAccepted(lens, MAX_LENGTH);
    }

    lemma NothingUsedYet(lens: seq<nat>, next_code: array<nat>)
      requires Valid() && next_code.Length == 16
      ensures UsedFit(lens, 1) && ColumnsBelow(lens, next_code, 1)
    {
    }

    /** Writes the sentinel behind the columns. */
    method SetSentinel(ghost lens: seq<nat>, next_code: array<nat>)
      requires Valid() && next_code.Length == 16 && next_code !in Repr
      requires ColumnsBelow(lens, next_code, 16)
      modifies maxcode
      ensures ColumnsBelow(lens, next_code, 16) && maxcode[16] == 0x10000
    {
      maxcode[16] := 0x10000;
      forall l | 1 <= l < 16 ensures ColumnAt(lens, l) && next_code[l] == FirstCode(lens, l) {
        assert old(ColumnAt(lens, l));
      }
    }

    static lemma StrideFacts(s: nat)
      requires 1 <= s <= FAST_BITS
      ensures Shl(1, s) == Pow2(s) <= FAST_SIZE && Shl(1, FAST_BITS) == FAST_SIZE
    {
      Pow2Values();
      Pow2Mono(s, FAST_BITS);
      ShlOne(s);
      ShlOne(FAST_BITS);
    }

    /** Stores one packed entry at every window whose s lowest bits equal start. */
    method FillFast(s: nat, start: nat, fastv: nat)
      requires Valid() && 1 <= s <= FAST_BITS && start < Pow2(s)
      modifies fast
      ensures forall b :: 0 <= b < FAST_SIZE ==> fast[b] == if b % Pow2(s) == start then fastv else old(fast[b])
    {
      hide Rev, Bit, Pow2;
      StrideFacts(s);
      SmallMod(start, Pow2(s));
      var j := start;
      while j < Shl(1, FAST_BITS)
        invariant j % Pow2(s) == start
        invariant forall b :: 0 <= b < FAST_SIZE ==>
          fast[b] == if b < j && b % Pow2(s) == start then fastv else old(fast[b])
        decreases FAST_SIZE - j
      {
        fast[j] := fastv;
        forall b | j < b < j + Pow2(s) ensures b % Pow2(s) != start {
          if b % Pow2(s) == start {
            StrideGap(b, j, Pow2(s));
          }
        }
        StrideStep(j, Pow2(s));
        j := j + Shl(1, s);
      }
    }

    /** Lists every symbol at its place and enters the short ones into the fast table. */
    method EnterSymbols(sizelist: seq<nat>, next_code: array<nat>)
      requires Valid() && ValidLens(sizelist) && Accepted(sizelist)
      requires next_code.Length == 16 && next_code !in Repr
      requires ColumnsBelow(sizelist, next_code, 16) && maxcode[16] == 0x10000
      requires forall b :: 0 <= b < FAST_SIZE ==> fast[b] == 0
      modifies fast, size, value, next_code
      ensures Built(sizelist)
    {
      hide FirstCode, MaxCode, Huffman.ColumnAt;
      assert next_code != fast && next_code != size && next_code != value;
      assert next_code != firstcode && next_code != firstsymbol && next_code != maxcode;
      for i := 0 to |sizelist|
        invariant forall l :: 1 <= l <= MAX_LENGTH ==>
          next_code[l] == FirstCode(sizelist, l) + CountTo(sizelist, i, l)
        invariant forall l :: 1 <= l <= MAX_LENGTH ==> ColumnAt(sizelist, l)
        invariant forall j :: 0 <= j < i && HasCode(sizelist, j) ==> ListedAt(sizelist, j)
        invariant forall b :: 0 <= b < FAST_SIZE ==> fast[b] == FastEntry(sizelist, i, b)
      {
        var s := sizelist[i];
        if s != 0 {
          assert ColumnAt(sizelist, s);
          ListSymbol(sizelist, i, next_code[s]);
          if s <= FAST_BITS {
            EnterFast(sizelist, i, next_code[s]);
          }
          next_code[s] := next_code[s] + 1;
        }
      }
    }

    /** Writes symbol i into the symbol lists without disturbing the earlier ones. */
    method ListSymbol(sizelist: seq<nat>, i: nat, code: nat)
      requires Valid() && ValidLens(sizelist) && HasCode(sizelist, i) && code == Code(sizelist, i)
      requires ColumnAt(sizelist, sizelist[i])
      requires forall j :: 0 <= j < i && HasCode(sizelist, j) ==> ListedAt(sizelist, j)
      modifies size, value
      ensures forall j :: 0 <= j <= i && HasCode(sizelist, j) ==> ListedAt(sizelist, j)
    {
      var s := sizelist[i];
      var c := code - firstcode[s] + firstsymbol[s];
      assert c == Place(sizelist, i);
      PlaceBound(sizelist, i);
      size[c] := U8(s);
      value[c] := U16(i);
      forall j | 0 <= j < i && HasCode(sizelist, j) ensures ListedAt(sizelist, j) {
        PlaceInjective(sizelist, j, i);
        PlaceBound(sizelist, j);
        assert old(ListedAt(sizelist, j));
      }
    }

    /** Enters symbol i, whose code is at most 9 bits long, into the fast table. */
    method EnterFast(sizelist: seq<nat>, i: nat, code: nat)
      requires Valid() && ValidLens(sizelist) && Accepted(sizelist)
      requires HasCode(sizelist, i) && sizelist[i] <= FAST_BITS && code == Code(sizelist, i)
      requires forall b :: 0 <= b < FAST_SIZE ==> fast[b] == FastEntry(sizelist, i, b)
      modifies fast
      ensures forall b :: 0 <= b < FAST_SIZE ==> fast[b] == FastEntry(sizelist, i + 1, b)
    {
      var s := sizelist[i];
      CodeBound(sizelist, i);
      BitReverseIsRev(code, s);
      RevBound(code, s);
      PackedEntry(s, i);
      FillFast(s, BitReverse(code, s), U16(Or(i, Shl(s, 9))));
    }

    static lemma PackedEntry(s: nat, i: nat)
      requires 1 <= s <= MAX_LENGTH && i < MAX_SYMBOLS
      ensures U16(Or(i, Shl(s, 9))) == s * 512 + i
    {
      Pow2Values();
      OrDisjoint(i, s, 9);
      ShlIsMul(s, 9);
    }

    /** No length may have more symbols than there are codes of that length. */
    static method CheckSizes(ghost lens: seq<nat>, sizes: array<nat>) returns (ok: bool)
      requires ValidLens(lens) && sizes.Length == 17
      requires forall l :: 0 <= l <= MAX_LENGTH ==> sizes[l] == Count(lens, l)
      ensures !ok ==> !Accepted(lens)
    {
      var i := 1;
      while i < 16
        invariant 1 <= i <= 16
      {
        ShlOne(i);
        if sizes[i] > Shl(1, i) {
          MisfitRejected(lens, i);
          return false;
        }
        i := i + 1;
      }
      return true;
    }

    /** Builds the table, or reports that the code lengths are bad. */
    method Build(sizelist: seq<nat>) returns (ok: bool)
      requires Valid() && ValidLens(sizelist)
      modifies Repr
      ensures ok <==> Accepted(sizelist)
      ensures ok ==> Built(sizelist)
    {
      var sizes := CountSizes(sizelist);
      forall b | 0 <= b < fast.Length {
        fast[b] := 0;
      }
      ok := CheckSizes(sizelist, sizes);
      if !ok {
        return;
      }
      var next_code := new nat[16];
      ok := AssignColumns(sizelist, sizes, next_code);
      if ok {
        EnterSymbols(sizelist, next_code);
      }
    }
  }
}
