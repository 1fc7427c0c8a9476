/** Products of reals by name, and the few facts about them that proofs need. */
module RealMath {

  /** Multiplication of reals by name, so that proofs can keep products closed. */
  function Times(a: real, b: real): real
  {
    a * b
  }

  lemma TimesPlus(a: real, b: real, c: real)
    ensures Times(a, b + c) == Times(a, b) + Times(a, c)
    ensures Times(b + c, a) == Times(b, a) + Times(c, a)
    ensures Times(a, b) == Times(b, a)
  {
  }

  lemma TimesAssoc(a: real, b: real, c: real)
    ensures Times(Times(a, b), c) == Times(a, Times(b, c))
  {
  }

  lemma TimesSigns(a: real, b: real)
    ensures a >= 0.0 && b >= 0.0 ==> Times(a, b) >= 0.0
    ensures a > 0.0 && b > 0.0 ==> Times(a, b) > 0.0
  {
  }

  lemma TimesOne(a: real)
    ensures Times(a, 1.0) == a == Times(1.0, a)
  {
  }

  lemma TimesZero(a: real)
    ensures Times(a, 0.0) == 0.0 == Times(0.0, a)
  {
  }

  lemma TimesNegated(a: real, b: real)
    ensures Times(-a, b) == -Times(a, b) == Times(a, -b)
  {
  }

  lemma DivTimes(a: real, b: real)
    requires b != 0.0
    ensures Times(a / b, b) == a
  {
  }

  /** A quotient is the only number that gives the dividend back. */
  lemma DivUnique(a: real, b: real, q: real)
    requires b != 0.0 && Times(q, b) == a
    ensures a / b == q
  {
    assert q * b == a;
  }

  lemma ScaleMono(k: real, a: real, b: real)
    requires k >= 0.0 && a <= b
    ensures Times(k, a) <= Times(k, b)
  {
    TimesSigns(k, b - a);
    TimesPlus(k, b - a, a);
  }

  function Sum(xs: seq<real>): real
  {
    if xs == [] then 0.0 else Sum(xs[..|xs| - 1]) + xs[|xs| - 1]
  }
}
