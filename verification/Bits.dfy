/** Bit arithmetic on natural numbers: the C operators the decoders use (and, or, xor, shifts),
    each characterised bit by bit, and the bit sequences the decoders are specified with. */
module Bits {

  type bit = b: nat | b < 2

  type byte = b: nat | b < 256

  function Pow2(n: nat): (p: nat)
    ensures p >= 1
  {
    if n == 0 then 1 else 2 * Pow2(n - 1)
  }

  lemma {:induction false} Pow2Add(m: nat, n: nat)
    ensures Pow2(m + n) == Pow2(m) * Pow2(n)
  {
    if m == 0 {
    } else {
      Pow2Add(m - 1, n);
      calc {
        Pow2(m + n);
        2 * Pow2(m - 1 + n);
        2 * (Pow2(m - 1) * Pow2(n));
        Pow2(m) * Pow2(n);
      }
    }
  }

  lemma {:induction false} Pow2Mono(m: nat, n: nat)
    requires m <= n
    ensures Pow2(m) <= Pow2(n)
  {
    if m < n {
      Pow2Mono(m, n - 1);
    }
  }

  lemma Pow2Values()
    ensures Pow2(0) == 1 && Pow2(1) == 2 && Pow2(2) == 4 && Pow2(3) == 8 && Pow2(4) == 16
    ensures Pow2(5) == 32 && Pow2(6) == 64 && Pow2(7) == 128 && Pow2(8) == 256 && Pow2(9) == 512
    ensures Pow2(10) == 1024 && Pow2(11) == 2048 && Pow2(12) == 4096 && Pow2(13) == 8192
    ensures Pow2(14) == 16384 && Pow2(15) == 32768 && Pow2(16) == 65536 && Pow2(32) == 0x1_0000_0000
  {
    Pow2Add(16, 16);
  }

  // ----- C operators on non-negative integers -----

  /** `v >> n` */
  function Shr(v: nat, n: nat): nat
  {
    if n == 0 then v else Shr(v / 2, n - 1)
  }

  /** `v << n`, before any truncation to the machine width */
  function Shl(v: nat, n: nat): nat
  {
    if n == 0 then v else 2 * Shl(v, n - 1)
  }

  lemma {:induction false} ShlIsMul(v: nat, n: nat)
    ensures Shl(v, n) == v * Pow2(n)
  {
    if n > 0 {
      ShlIsMul(v, n - 1);
      TwiceProduct(v, Pow2(n - 1));
    }
  }

  lemma TwiceProduct(v: nat, p: nat)
    ensures v * (2 * p) == 2 * (v * p)
  {
  }

  lemma {:induction false} ShlOne(n: nat)
    ensures Shl(1, n) == Pow2(n)
  {
    if n > 0 {
      ShlOne(n - 1);
    }
  }

  lemma {:induction false} ShrIsDiv(v: nat, n: nat)
    ensures Shr(v, n) == v / Pow2(n)
  {
    if n > 0 {
      ShrIsDiv(v / 2, n - 1);
      DivDiv(v, 2, Pow2(n - 1));
    }
  }

  /** `a & b` */
  function And(a: nat, b: nat): nat
  {
    if a == 0 then 0 else (a % 2) * (b % 2) + 2 * And(a / 2, b / 2)
  }

  /** `a | b` */
  function Or(a: nat, b: nat): nat
    decreases a + b
  {
    if a == 0 then b else if b == 0 then a
    else (if a % 2 + b % 2 > 0 then 1 else 0) + 2 * Or(a / 2, b / 2)
  }

  /** `a ^ b` */
  function Xor(a: nat, b: nat): nat
    decreases a + b
  {
    if a == 0 then b else if b == 0 then a
    else (a + b) % 2 + 2 * Xor(a / 2, b / 2)
  }

  /** Conversion to an 8-bit unsigned type. */
  function U8(v: nat): (r: byte)
    ensures v < 256 ==> r == v
  {
    v % 256
  }

  /** Conversion to a 16-bit unsigned type. */
  function U16(v: nat): (r: nat)
    ensures v < 0x10000 ==> r == v
  {
    v % 0x10000
  }

  /** Bit `i` of `v`, bit 0 being the least significant. */
  function Bit(v: nat, i: nat): bit
  {
    if i == 0 then v % 2 else Bit(v / 2, i - 1)
  }

  lemma {:induction false} BitOfZero(i: nat)
    ensures Bit(0, i) == 0
  {
    if i > 0 {
      BitOfZero(i - 1);
    }
  }

  lemma {:induction false} BitOfAnd(a: nat, b: nat, i: nat)
    ensures Bit(And(a, b), i) == Bit(a, i) * Bit(b, i)
  {
    if a == 0 {
      BitOfZero(i);
    } else {
      assert And(a, b) % 2 == (a % 2) * (b % 2);
      assert And(a, b) / 2 == And(a / 2, b / 2);
      if i > 0 {
        BitOfAnd(a / 2, b / 2, i - 1);
      }
    }
  }

  lemma {:induction false} BitOfOr(a: nat, b: nat, i: nat)
    ensures Bit(Or(a, b), i) == (if Bit(a, i) + Bit(b, i) > 0 then 1 else 0)
  {
    if a == 0 || b == 0 {
      BitOfZero(i);
    } else {
      assert Or(a, b) / 2 == Or(a / 2, b / 2);
      if i > 0 {
        BitOfOr(a / 2, b / 2, i - 1);
      }
    }
  }

  lemma {:induction false} BitOfShr(v: nat, n: nat, i: nat)
    ensures Bit(Shr(v, n), i) == Bit(v, n + i)
  {
    if n > 0 {
      BitOfShr(v / 2, n - 1, i);
    }
  }

  lemma {:induction false} BitOfShl(v: nat, n: nat, i: nat)
    ensures Bit(Shl(v, n), i) == (if i < n then 0 else Bit(v, i - n))
  {
    if n > 0 && i > 0 {
      BitOfShl(v, n - 1, i - 1);
      assert Shl(v, n) / 2 == Shl(v, n - 1);
    }
  }

  lemma DivDiv(v: nat, a: nat, b: nat)
    requires a > 0 && b > 0
    ensures a * b > 0 && v / a / b == v / (a * b)
  {
    var w := v / a;
    var q, r, s := w / b, w % b, v % a;
    DivParts(v, a);
    DivParts(w, b);
    NestedDigits(q, r, s, a, b);
    SameProduct(w, q * b + r, a);
    DivUnique(v, a * b, q, r * a + s);
  }

  lemma DivParts(v: nat, d: nat)
    requires d > 0
    ensures v == v / d * d + v % d && v % d < d
  {
  }

  lemma SameProduct(x: nat, y: nat, d: nat)
    requires x == y
    ensures x * d == y * d
  {
  }

  /** Two digits and a rest as one digit and a rest. */
  lemma NestedDigits(q: nat, r: nat, s: nat, a: nat, b: nat)
    requires r < b && s < a
    ensures a * b > 0 && (q * b + r) * a + s == q * (a * b) + (r * a + s) && r * a + s < a * b
  {
    MulMono(r + 1, b, a);
    MulStep(r, a);
    assert (q * b + r) * a == q * (a * b) + r * a;
  }

  lemma MulMono(a: nat, b: nat, d: nat)
    requires a <= b
    ensures a * d <= b * d
  {
  }

  /** Quotient and remainder are unique. */
  lemma DivUnique(v: nat, d: nat, q: nat, r: nat)
    requires d > 0 && v == q * d + r && r < d
    ensures v / d == q && v % d == r
  {
    var q' := v / d;
    if q > q' {
      MulMono(q' + 1, q, d);
    } else if q < q' {
      MulMono(q + 1, q', d);
    }
  }

  lemma {:induction false} BitOfMod(v: nat, n: nat, i: nat)
    ensures Bit(v % Pow2(n), i) == (if i < n then Bit(v, i) else 0)
  {
    if n == 0 {
      BitOfZero(i);
    } else {
      var p := Pow2(n - 1);
      ModDouble(v, p);
      if i > 0 {
        BitOfMod(v / 2, n - 1, i - 1);
      }
    }
  }

  lemma ModDouble(v: nat, p: nat)
    requires p > 0
    ensures v % (2 * p) % 2 == v % 2
    ensures v % (2 * p) / 2 == v / 2 % p
  {
    var q, r := v / 2 / p, v / 2 % p;
    assert v == 2 * (q * p + r) + v % 2;
    assert v == q * (2 * p) + (2 * r + v % 2) by {
      assert 2 * (q * p + r) == q * (2 * p) + 2 * r;
    }
    DivUnique(v, 2 * p, q, 2 * r + v % 2);
  }

  ghost predicate SameBits(a: nat, b: nat, n: nat)
  {
    forall i: nat :: i < n ==> Bit(a, i) == Bit(b, i)
  }

  /** Numbers below 2^n are determined by their n lowest bits. */
  lemma {:induction false} BitsDetermine(a: nat, b: nat, n: nat)
    requires a < Pow2(n) && b < Pow2(n)
    requires SameBits(a, b, n)
    ensures a == b
  {
    if n > 0 {
      assert Bit(a, 0) == Bit(b, 0);
      forall i: nat | i < n - 1 ensures Bit(a / 2, i) == Bit(b / 2, i) {
        assert Bit(a, i + 1) == Bit(b, i + 1);
      }
      BitsDetermine(a / 2, b / 2, n - 1);
    }
  }

  lemma AndOdd(v: nat, q: nat)
    ensures And(v, 2 * q + 1) == v % 2 + 2 * And(v / 2, q)
  {
    var m := 2 * q + 1;
    assert m % 2 == 1 && m / 2 == q;
  }

  lemma ModStep(v: nat, p: nat)
    requires p > 0
    ensures v % (2 * p) == v % 2 + 2 * (v / 2 % p)
  {
    ModDouble(v, p);
    var w := v % (2 * p);
    assert w == 2 * (w / 2) + w % 2;
  }

  /** Masking with n ones keeps the residue modulo 2^n. */
  lemma {:induction false} AndMask(v: nat, n: nat)
    ensures And(v, Pow2(n) - 1) == v % Pow2(n)
  {
    hide And;
    if n == 0 {
      AndZero(v);
    } else {
      var p := Pow2(n - 1);
      AndMask(v / 2, n - 1);
      AndOdd(v, p - 1);
      ModStep(v, p);
    }
  }

  lemma {:induction false} AndZero(v: nat)
    ensures And(v, 0) == 0
  {
    if v > 0 {
      AndZero(v / 2);
    }
  }

  /** Or-ing in bits above the occupied ones adds them. */
  lemma {:induction false} OrDisjoint(low: nat, high: nat, n: nat)
    requires low < Pow2(n)
    ensures Or(low, Shl(high, n)) == low + Shl(high, n)
  {
    hide Or, Shl;
    var s := Shl(high, n);
    OrStep(low, s);
    if low > 0 && s > 0 {
      ShlStep(high, n);
      OrDisjoint(low / 2, high, n - 1);
    }
  }

  lemma OrStep(a: nat, b: nat)
    ensures a == 0 ==> Or(a, b) == b
    ensures b == 0 ==> Or(a, b) == a
    ensures a > 0 && b > 0 ==> Or(a, b) == (if a % 2 + b % 2 > 0 then 1 else 0) + 2 * Or(a / 2, b / 2)
  {
  }

  lemma ShlStep(v: nat, n: nat)
    requires n > 0
    ensures Shl(v, n) == 2 * Shl(v, n - 1) && Shl(v, n) / 2 == Shl(v, n - 1) && Shl(v, n) % 2 == 0
  {
  }

  lemma {:induction false} OrCommutes(a: nat, b: nat)
    ensures Or(a, b) == Or(b, a)
    decreases a + b
  {
    if a > 0 && b > 0 {
      OrCommutes(a / 2, b / 2);
    }
  }

  /** Complementing n bits subtracts from 2^n - 1. */
  lemma {:induction false} XorMask(v: nat, n: nat)
    requires v < Pow2(n)
    ensures Xor(v, Pow2(n) - 1) == Pow2(n) - 1 - v
  {
    hide Xor;
    if v == 0 {
      XorZero(Pow2(n) - 1);
    } else {
      XorMask(v / 2, n - 1);
      XorOdd(v, Pow2(n - 1) - 1);
      XorZero(v / 2);
    }
  }

  lemma XorZero(v: nat)
    ensures Xor(0, v) == v == Xor(v, 0)
  {
  }

  lemma XorOdd(v: nat, q: nat)
    requires v > 0
    ensures Xor(v, 2 * q + 1) == 1 - v % 2 + 2 * (if q == 0 then v / 2 else Xor(v / 2, q))
  {
    var m := 2 * q + 1;
    assert m % 2 == 1 && m / 2 == q;
    assert (v + m) % 2 == 1 - v % 2;
    if q == 0 {
      assert Xor(v / 2, 0) == v / 2;
    }
  }

  // ----- bit reversal -----

  /** The n lowest bits of v in the opposite order. */
  function Rev(v: nat, n: nat): nat
  {
    if n == 0 then 0 else (v % 2) * Pow2(n - 1) + Rev(v / 2, n - 1)
  }

  lemma {:induction false} RevBound(v: nat, n: nat)
    ensures Rev(v, n) < Pow2(n)
  {
    hide Bit;
    if n > 0 {
      RevBound(v / 2, n - 1);
      assert (v % 2) * Pow2(n - 1) <= Pow2(n - 1);
    }
  }

  lemma {:induction false} BitOfSum(low: nat, high: nat, n: nat, i: nat)
    requires low < Pow2(n)
    ensures Bit(low + high * Pow2(n), i) == (if i < n then Bit(low, i) else Bit(high, i - n))
  {
    OrDisjoint(low, high, n);
    ShlIsMul(high, n);
    BitOfOr(low, Shl(high, n), i);
    BitOfShl(high, n, i);
    if i >= n {
      BitOfMod(low, n, i);
      SmallMod(low, Pow2(n));
    }
  }

  lemma SmallMod(a: nat, m: nat)
    requires a < m
    ensures a % m == a && a / m == 0
  {
  }

  lemma {:induction false} BitOfRev(v: nat, n: nat, i: nat)
    ensures Bit(Rev(v, n), i) == (if i < n then Bit(v, n - 1 - i) else 0)
  {
    hide Rev, Pow2;
    RevStep(v, n);
    if n == 0 {
      BitOfZero(i);
    } else {
      RevBound(v / 2, n - 1);
      BitOfSum(Rev(v / 2, n - 1), v % 2, n - 1, i);
      BitOfRev(v / 2, n - 1, i);
      if i >= n {
        BitOfDigit(v % 2, i - (n - 1));
      }
    }
  }

  lemma RevStep(v: nat, n: nat)
    ensures n == 0 ==> Rev(v, n) == 0
    ensures n > 0 ==> Rev(v, n) == Rev(v / 2, n - 1) + v % 2 * Pow2(n - 1)
  {
  }

  lemma BitBeyond(x: nat, n: nat, i: nat)
    requires x < Pow2(n) && i >= n
    ensures Bit(x, i) == 0
  {
    SmallMod(x, Pow2(n));
    BitOfMod(x, n, i);
  }

  lemma BitOfDigit(d: bit, i: nat)
    requires i > 0
    ensures Bit(d, i) == 0
  {
    BitOfZero(i - 1);
  }

  /** Reversal is its own inverse on n-bit numbers. */
  lemma RevRev(v: nat, n: nat)
    requires v < Pow2(n)
    ensures Rev(Rev(v, n), n) == v
  {
    RevBound(Rev(v, n), n);
    forall i: nat | i < n ensures Bit(Rev(Rev(v, n), n), i) == Bit(v, i) {
      BitOfRev(Rev(v, n), n, i);
      BitOfRev(v, n, n - 1 - i);
    }
    BitsDetermine(Rev(Rev(v, n), n), v, n);
  }

  /** The top s bits of an n-bit reversal are the reversal of the s lowest bits. */
  lemma RevTop(v: nat, low: nat, s: nat, n: nat)
    requires s <= n && SameBits(low, v, s)
    ensures Shr(Rev(v, n), n - s) == Rev(low, s)
  {
    RevBound(v, n);
    RevBound(low, s);
    ShrBound(Rev(v, n), n - s, n);
    RevTopSame(v, low, s, n);
    BitsDetermine(Shr(Rev(v, n), n - s), Rev(low, s), s);
  }

  lemma RevTopSame(v: nat, low: nat, s: nat, n: nat)
    requires s <= n && SameBits(low, v, s)
    ensures SameBits(Shr(Rev(v, n), n - s), Rev(low, s), s)
  {
    forall i: nat | i < s ensures Bit(Shr(Rev(v, n), n - s), i) == Bit(Rev(low, s), i) {
      BitOfShr(Rev(v, n), n - s, i);
      BitOfRev(v, n, n - s + i);
      BitOfRev(low, s, i);
      assert Bit(low, s - 1 - i) == Bit(v, s - 1 - i);
    }
  }

  lemma ModSameBits(v: nat, s: nat)
    ensures SameBits(v % Pow2(s), v, s)
  {
    forall i: nat | i < s ensures Bit(v % Pow2(s), i) == Bit(v, i) {
      BitOfMod(v, s, i);
    }
  }

  lemma ShrBound(v: nat, m: nat, n: nat)
    requires m <= n && v < Pow2(n)
    ensures Shr(v, m) < Pow2(n - m)
  {
    Pow2Add(n - m, m);
    ShrIsDiv(v, m);
    DivBelow(v, Pow2(m), Pow2(n - m));
  }

  lemma DivBelow(v: nat, d: nat, q: nat)
    requires d > 0 && v < q * d
    ensures v / d < q
  {
    var r := v / d;
    if r >= q {
      MulMono(q, r, d);
    }
  }

  lemma DivAtLeast(v: nat, d: nat, q: nat)
    requires d > 0 && q * d <= v
    ensures q <= v / d
  {
    if v / d < q {
      MulMono(v / d + 1, q, d);
    }
  }

  lemma MulStep(k: nat, p: nat)
    ensures (k + 1) * p == k * p + p
  {
  }

  lemma AppendBound(c: nat, v: byte, p: nat)
    requires c < p
    ensures c + v * p < p * 256
  {
    MulMono(v + 1, 256, p);
  }

  lemma ModChain(y: nat)
    ensures y % 4 == y % 8 || y % 4 == y % 8 - 4
    ensures y % 2 == y % 4 || y % 2 == y % 4 - 2
    ensures y == 8 * (y / 8) + y % 8 == 4 * (y / 4) + y % 4 == 2 * (y / 2) + y % 2
  {
    ModStepDown(y, 4);
    ModStepDown(y, 2);
  }

  lemma ModStepDown(y: nat, d: nat)
    requires d == 4 || d == 2
    ensures y % d == y % (2 * d) || y % d == y % (2 * d) - d
  {
    if d == 4 {
      var q, r := y / 8, y % 8;
      if r < 4 {
        DivUnique(y, 4, 2 * q, r);
      } else {
        DivUnique(y, 4, 2 * q + 1, r - 4);
      }
    } else {
      var q, r := y / 4, y % 4;
      if r < 2 {
        DivUnique(y, 2, 2 * q, r);
      } else {
        DivUnique(y, 2, 2 * q + 1, r - 2);
      }
    }
  }

  // ----- input bytes -----

  /** Byte i of the input, zero behind its end. */
  function ByteAt(input: seq<byte>, i: nat): byte
  {
    if i < |input| then input[i] else 0
  }

  /** The position behind a read: the cursor does not leave the input. */
  function After(input: seq<byte>, pos: nat): nat
  {
    if pos < |input| then pos + 1 else pos
  }

  lemma Middle<T>(a: seq<T>, b: seq<T>, c: seq<T>)
    ensures (a + (b + c))[|a|..|a| + |b|] == b
  {
  }

  // ----- bit sequences -----

  /** The n lowest bits of v, least significant first. */
  function ToBits(v: nat, n: nat): (s: seq<bit>)
    ensures |s| == n
  {
    seq(n, (i: nat) => Bit(v, i))
  }

  /** The bits of a byte string, each byte least significant bit first. */
  function BytesToBits(bs: seq<byte>): (s: seq<bit>)
    ensures |s| == 8 * |bs|
  {
    if bs == [] then [] else ToBits(bs[0], 8) + BytesToBits(bs[1..])
  }

  function Zeros(n: nat): (s: seq<bit>)
    ensures |s| == n && forall i :: 0 <= i < n ==> s[i] == 0
  {
    seq(n, (i: nat) => 0)
  }

  lemma ToBitsZero(n: nat)
    ensures ToBits(0, n) == Zeros(n)
  {
    forall i: nat | i < n ensures ToBits(0, n)[i] == 0 {
      BitOfZero(i);
    }
  }

  lemma ToBitsAppend(low: nat, high: nat, m: nat, n: nat)
    requires low < Pow2(m)
    ensures ToBits(low + high * Pow2(m), m + n) == ToBits(low, m) + ToBits(high, n)
  {
    hide Pow2, Bit;
    forall i: nat | i < m + n
      ensures ToBits(low + high * Pow2(m), m + n)[i] == (ToBits(low, m) + ToBits(high, n))[i]
    {
      BitOfSum(low, high, m, i);
    }
  }

  lemma ToBitsTake(v: nat, m: nat, n: nat)
    requires m <= n
    ensures ToBits(v, n)[..m] == ToBits(v % Pow2(m), m) == ToBits(v, m)
  {
    forall i: nat | i < m ensures Bit(v % Pow2(m), i) == Bit(v, i) {
      BitOfMod(v, m, i);
    }
  }

  lemma ToBitsDrop(v: nat, m: nat, n: nat)
    requires m <= n
    ensures ToBits(v, n)[m..] == ToBits(Shr(v, m), n - m)
  {
    forall i: nat | i < n - m ensures ToBits(v, n)[m..][i] == ToBits(Shr(v, m), n - m)[i] {
      BitOfShr(v, m, i);
    }
  }

  lemma ToBitsInjective(a: nat, b: nat, n: nat)
    requires a < Pow2(n) && b < Pow2(n) && ToBits(a, n) == ToBits(b, n)
    ensures a == b
  {
    forall i: nat | i < n ensures Bit(a, i) == Bit(b, i) {
      assert ToBits(a, n)[i] == ToBits(b, n)[i];
    }
    BitsDetermine(a, b, n);
  }

  /** The number whose bits, least significant first, are s. */
  function FromBits(s: seq<bit>): (v: nat)
    ensures v < Pow2(|s|)
  {
    if s == [] then 0 else s[0] + 2 * FromBits(s[1..])
  }

  lemma {:induction false} FromToBits(v: nat, n: nat)
    ensures FromBits(ToBits(v, n)) == v % Pow2(n)
  {
    if n > 0 {
      var s := ToBits(v, n);
      assert s[1..] == ToBits(v / 2, n - 1) by {
        ToBitsDrop(v, 1, n);
        assert Pow2(1) == 2;
      }
      FromToBits(v / 2, n - 1);
      ModDouble(v, Pow2(n - 1));
    }
  }

  lemma {:induction false} BytesToBitsAppend(a: seq<byte>, b: seq<byte>)
    ensures BytesToBits(a + b) == BytesToBits(a) + BytesToBits(b)
  {
    hide ToBits;
    if a == [] {
      assert a + b == b;
    } else {
      BytesToBitsAppend(a[1..], b);
      assert (a + b)[1..] == a[1..] + b && (a + b)[0] == a[0];
      assert BytesToBits(a + b) == ToBits(a[0], 8) + (BytesToBits(a[1..]) + BytesToBits(b));
    }
  }

  /** Packs bits into bytes, filling the last one with zeros. */
  function Pack(bits: seq<bit>): (bs: seq<byte>)
    ensures |bs| == (|bits| + 7) / 8
    decreases |bits|
  {
    if bits == [] then []
    else if |bits| < 8 then [PackByte(bits + Zeros(8 - |bits|))]
    else [PackByte(bits[..8])] + Pack(bits[8..])
  }

  function PackByte(bits: seq<bit>): byte
    requires |bits| == 8
  {
    assert Pow2(8) == 256;
    FromBits(bits)
  }

  lemma {:induction false} ToFromBits(bits: seq<bit>)
    ensures ToBits(FromBits(bits), |bits|) == bits
  {
    if bits != [] {
      ToFromBits(bits[1..]);
      var v := FromBits(bits);
      assert v % 2 == bits[0] && v / 2 == FromBits(bits[1..]);
      ToBitsDrop(v, 1, |bits|);
      assert ToBits(v, |bits|)[1..] == bits[1..];
      assert ToBits(v, |bits|)[0] == bits[0];
      assert bits == [bits[0]] + bits[1..];
      assert ToBits(v, |bits|) == [bits[0]] + ToBits(v, |bits|)[1..];
    }
  }

  lemma OneByteBits(v: byte)
    ensures BytesToBits([v]) == ToBits(v, 8)
  {
    assert BytesToBits([v][1..]) == [];
  }

  lemma {:induction false} PackKeeps(bits: seq<bit>)
    ensures bits <= BytesToBits(Pack(bits))
    decreases |bits|
  {
    hide FromBits, ToBits;
    if bits == [] {
    } else if |bits| < 8 {
      ToFromBits(bits + Zeros(8 - |bits|));
      OneByteBits(PackByte(bits + Zeros(8 - |bits|)));
    } else {
      ToFromBits(bits[..8]);
      PackKeeps(bits[8..]);
      var bs := Pack(bits);
      assert bs[1..] == Pack(bits[8..]);
      assert bits == bits[..8] + bits[8..];
    }
  }

  // ----- the table-free 16-bit reversal of the source -----

  /** One exchange step: bits selected by `hi` move down by k, bits selected by `lo` move up by k. */
  function Exchange(v: nat, hi: nat, lo: nat, k: nat): nat
  {
    Or(Shr(And(v, hi), k), Shl(And(v, lo), k))
  }

  function BitReverse16(n: nat): nat
  {
    var n1 := Exchange(n, 0xAAAA, 0x5555, 1);
    var n2 := Exchange(n1, 0xCCCC, 0x3333, 2);
    var n3 := Exchange(n2, 0xF0F0, 0x0F0F, 4);
    Exchange(n3, 0xFF00, 0x00FF, 8)
  }

  function BitReverse(v: nat, bits: nat): nat
    requires bits <= 16
  {
    Shr(BitReverse16(v), 16 - bits)
  }

  /** A mask that selects exactly the bit positions below 16 whose k-digit is `digit`. */
  ghost predicate Selects(mask: nat, k: nat, digit: nat)
    requires k > 0
  {
    forall i: nat :: Bit(mask, i) == (if i < 16 && i / k % 2 == digit then 1 else 0)
  }

  /** The n lowest positions of a mask, standing for positions i, i + 1, ..., checked one by one. */
  predicate SelectsFrom(mask: nat, k: nat, digit: nat, i: nat, n: nat)
    requires k > 0
    decreases n
  {
    n == 0 || (mask % 2 == (if i / k % 2 == digit then 1 else 0)
               && SelectsFrom(mask / 2, k, digit, i + 1, n - 1))
  }

  lemma {:induction false} SelectsFromAt(mask: nat, k: nat, digit: nat, i: nat, n: nat, j: nat)
    requires k > 0 && j < n && SelectsFrom(mask, k, digit, i, n)
    ensures Bit(mask, j) == (if (i + j) / k % 2 == digit then 1 else 0)
    decreases n
  {
    if j > 0 {
      SelectsFromAt(mask / 2, k, digit, i + 1, n - 1, j - 1);
    }
  }

  /** A 16-bit mask, checked byte by byte. */
  lemma SelectsBytes(low: byte, high: byte, k: nat, digit: nat)
    requires k > 0 && SelectsFrom(low, k, digit, 0, 8) && SelectsFrom(high, k, digit, 8, 8)
    ensures Selects(low + high * 256, k, digit)
  {
    hide SelectsFrom, Bit;
    Pow2Values();
    forall i: nat ensures Bit(low + high * 256, i) == (if i < 16 && i / k % 2 == digit then 1 else 0) {
      BitOfSum(low, high, 8, i);
      if i < 8 {
        SelectsFromAt(low, k, digit, 0, 8, i);
      } else if i < 16 {
        SelectsFromAt(high, k, digit, 8, 8, i - 8);
      } else {
        BitBeyond(high, 8, i - 8);
      }
    }
  }

  lemma MasksOne()
    ensures Selects(0xAAAA, 1, 1) && Selects(0x5555, 1, 0)
  {
    hide Selects;
    assert SelectsFrom(0xA, 1, 1, 4, 4) && SelectsFrom(0xA, 1, 1, 12, 4);
    SelectsBytes(0xAA, 0xAA, 1, 1);
    assert SelectsFrom(0x5, 1, 0, 4, 4) && SelectsFrom(0x5, 1, 0, 12, 4);
    SelectsBytes(0x55, 0x55, 1, 0);
  }

  lemma MasksTwo()
    ensures Selects(0xCCCC, 2, 1) && Selects(0x3333, 2, 0)
  {
    hide Selects;
    assert SelectsFrom(0xC, 2, 1, 4, 4) && SelectsFrom(0xC, 2, 1, 12, 4);
    SelectsBytes(0xCC, 0xCC, 2, 1);
    assert SelectsFrom(0x3, 2, 0, 4, 4) && SelectsFrom(0x3, 2, 0, 12, 4);
    SelectsBytes(0x33, 0x33, 2, 0);
  }

  lemma MasksFour()
    ensures Selects(0xF0F0, 4, 1) && Selects(0x0F0F, 4, 0)
  {
    hide Selects;
    SelectsBytes(0xF0, 0xF0, 4, 1);
    SelectsBytes(0x0F, 0x0F, 4, 0);
  }

  lemma MasksEight()
    ensures Selects(0xFF00, 8, 1) && Selects(0x00FF, 8, 0)
  {
    hide Selects;
    SelectsBytes(0x00, 0xFF, 8, 1);
    SelectsBytes(0xFF, 0x00, 8, 0);
  }

  /** w has the 16 low bits of v, with digit k of every bit position flipped. */
  ghost predicate Flips(w: nat, v: nat, k: nat)
    requires k > 0
  {
    forall i: nat :: Bit(w, i)
      == (if i >= 16 then 0 else if i / k % 2 == 0 then Bit(v, i + k) else if i >= k then Bit(v, i - k) else 0)
  }

  lemma SmallQuotient(i: nat, k: nat)
    requires k > 0 && i / k == 0
    ensures i < k
  {
  }

  lemma NextDigit(i: nat, k: nat)
    requires k > 0
    ensures (i + k) / k == i / k + 1
    ensures i >= k ==> (i - k) / k == i / k - 1
  {
    DivUnique(i + k, k, i / k + 1, i % k);
    if i >= k {
      assert i / k >= 1 by {
        if i / k == 0 {
          SmallQuotient(i, k);
        }
      }
      DivUnique(i - k, k, i / k - 1, i % k);
    }
  }

  lemma BitOfExchange(v: nat, hi: nat, lo: nat, k: nat, i: nat)
    ensures Bit(Exchange(v, hi, lo, k), i)
         == (if Bit(v, k + i) * Bit(hi, k + i) + (if i < k then 0 else Bit(v, i - k) * Bit(lo, i - k)) > 0
             then 1 else 0)
  {
    BitOfOr(Shr(And(v, hi), k), Shl(And(v, lo), k), i);
    BitOfShr(And(v, hi), k, i);
    BitOfAnd(v, hi, k + i);
    BitOfShl(And(v, lo), k, i);
    if i >= k {
      BitOfAnd(v, lo, i - k);
    }
  }

  lemma DigitInRange(i: nat, k: nat)
    requires k == 1 || k == 2 || k == 4 || k == 8
    ensures i < 16 && i / k % 2 == 0 ==> i + k < 16
    ensures i < k ==> i / k % 2 == 0
    ensures i >= 16 && i - k < 16 ==> (i - k) / k % 2 == 1
  {
  }

  lemma ExchangeFlips(v: nat, hi: nat, lo: nat, k: nat)
    requires k == 1 || k == 2 || k == 4 || k == 8
    requires Selects(hi, k, 1) && Selects(lo, k, 0)
    ensures Flips(Exchange(v, hi, lo, k), v, k)
  {
    hide Bit, Exchange;
    forall i: nat ensures Bit(Exchange(v, hi, lo, k), i)
      == (if i >= 16 then 0 else if i / k % 2 == 0 then Bit(v, i + k) else if i >= k then Bit(v, i - k) else 0)
    {
      BitOfExchange(v, hi, lo, k, i);
      NextDigit(i, k);
      DigitInRange(i, k);
    }
  }

  /** A place below 16 with one of its binary digits flipped. */
  function Flipped(i: nat, k: nat): nat
    requires k == 1 || k == 2 || k == 4 || k == 8
  {
    if i / k % 2 == 0 then i + k else if i >= k then i - k else 0
  }

  lemma FlippedBit(w: nat, v: nat, k: nat, i: nat)
    requires (k == 1 || k == 2 || k == 4 || k == 8) && Flips(w, v, k)
    ensures Bit(w, i) == (if i < 16 then Bit(v, Flipped(i, k)) else 0)
  {
    hide Bit;
    DigitInRange(i, k);
  }

  /** Flipping all four digits. */
  lemma FlippedAll(i: nat)
    requires i < 16
    ensures Flipped(Flipped(Flipped(Flipped(i, 8), 4), 2), 1) == 15 - i
    ensures Flipped(i, 8) < 16 && Flipped(Flipped(i, 8), 4) < 16 && Flipped(Flipped(Flipped(i, 8), 4), 2) < 16
  {
  }

  lemma FlipsReverse(n: nat, n1: nat, n2: nat, n3: nat, n4: nat, i: nat)
    requires Flips(n1, n, 1) && Flips(n2, n1, 2) && Flips(n3, n2, 4) && Flips(n4, n3, 8)
    ensures Bit(n4, i) == (if i < 16 then Bit(n, 15 - i) else 0)
  {
    hide Bit, Flips, Flipped;
    FlippedBit(n4, n3, 8, i);
    if i < 16 {
      var i3 := Flipped(i, 8);
      var i2 := Flipped(i3, 4);
      var i1 := Flipped(i2, 2);
      FlippedAll(i);
      FlippedBit(n3, n2, 4, i3);
      FlippedBit(n2, n1, 2, i2);
      FlippedBit(n1, n, 1, i1);
    }
  }

  lemma BitOfBitReverse16(n: nat, i: nat)
    ensures Bit(BitReverse16(n), i) == (if i < 16 then Bit(n, 15 - i) else 0)
  {
    hide Selects, Exchange;
    MasksOne();
    MasksTwo();
    MasksFour();
    MasksEight();
    var n1 := Exchange(n, 0xAAAA, 0x5555, 1);
    var n2 := Exchange(n1, 0xCCCC, 0x3333, 2);
    var n3 := Exchange(n2, 0xF0F0, 0x0F0F, 4);
    ExchangeFlips(n, 0xAAAA, 0x5555, 1);
    ExchangeFlips(n1, 0xCCCC, 0x3333, 2);
    ExchangeFlips(n2, 0xF0F0, 0x0F0F, 4);
    ExchangeFlips(n3, 0xFF00, 0x00FF, 8);
    FlipsReverse(n, n1, n2, n3, BitReverse16(n), i);
  }

  /** A number whose bits at and above n are all clear is below 2^n. */
  lemma {:induction false} HighBitsClear(v: nat, n: nat)
    requires forall i: nat :: i >= n ==> Bit(v, i) == 0
    ensures v < Pow2(n)
    decreases v, n
  {
    if v == 0 {
    } else {
      if n == 0 {
        forall i: nat | i >= 0 ensures Bit(v / 2, i) == 0 {
          assert Bit(v, i + 1) == 0;
        }
        assert Bit(v, 0) == 0;
        HighBitsClear(v / 2, 0);
      } else {
        forall i: nat | i >= n - 1 ensures Bit(v / 2, i) == 0 {
          assert Bit(v, i + 1) == 0;
        }
        HighBitsClear(v / 2, n - 1);
      }
    }
  }

  /** The mask-and-shift reversal followed by a shift reverses exactly the lowest `bits` bits. */
  lemma BitReverseIsRev(v: nat, bits: nat)
    requires bits <= 16 && (bits == 16 || v < Pow2(bits))
    ensures BitReverse(v, bits) == Rev(v, bits)
  {
    var a, b := BitReverse(v, bits), Rev(v, bits);
    forall i: nat ensures Bit(a, i) == (if i < bits then Bit(v, bits - 1 - i) else 0) {
      BitOfShr(BitReverse16(v), 16 - bits, i);
      BitOfBitReverse16(v, 16 - bits + i);
    }
    HighBitsClear(a, bits);
    RevBound(v, bits);
    forall i: nat | i < bits ensures Bit(a, i) == Bit(b, i) {
      BitOfRev(v, bits, i);
    }
    BitsDetermine(a, b, bits);
  }

  // ----- bytes written out -----

  /** A byte by its bits, the lowest first. */
  lemma ByteOf(a: bit, b: bit, c: bit, d: bit, e: bit, f: bit, g: bit, h: bit)
    ensures ToBits(a + 2 * b + 4 * c + 8 * d + 16 * e + 32 * f + 64 * g + 128 * h, 8) == [a, b, c, d, e, f, g, h]
  {
    hide ToBits;
    var s := [a, b, c, d, e, f, g, h];
    var t: seq<bit> := [e, f, g, h];
    FourOf(a, b, c, d, t);
    FourOf(e, f, g, h, []);
    assert [a, b, c, d] + t == s && [e, f, g, h] + [] == t;
    ToFromBits(s);
  }

  lemma FourOf(a: bit, b: bit, c: bit, d: bit, rest: seq<bit>)
    ensures FromBits([a, b, c, d] + rest) == a + 2 * b + 4 * c + 8 * d + 16 * FromBits(rest)
  {
    hide FromBits;
    BitFirst(a, [b] + ([c] + ([d] + rest)));
    BitFirst(b, [c] + ([d] + rest));
    BitFirst(c, [d] + rest);
    BitFirst(d, rest);
    assert [a] + ([b] + ([c] + ([d] + rest))) == [a, b, c, d] + rest;
  }

  lemma BitFirst(a: bit, rest: seq<bit>)
    ensures FromBits([a] + rest) == a + 2 * FromBits(rest)
  {
    assert ([a] + rest)[1..] == rest;
  }

  lemma ByteFirst(v: byte, tail: seq<byte>)
    ensures BytesToBits([v] + tail) == ToBits(v, 8) + BytesToBits(tail)
  {
    assert ([v] + tail)[1..] == tail;
  }

  lemma NoBytes()
    ensures BytesToBits([]) == []
  {
  }
}
