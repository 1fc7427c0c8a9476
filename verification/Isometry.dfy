/** Rigid transforms: a rotation quaternion and a translation, over exact reals. */
module Isometry {
  import opened RealMath

  datatype Vec = Vec(x: real, y: real, z: real)

  /** w + xi + yj + zk */
  datatype Quat = Quat(w: real, x: real, y: real, z: real)

  /** The numerical functions that rotations rest on. Their results are used as they come. */
  datatype Numerics = Numerics(sqrt: real -> real, slerp: (real, Quat, Quat) -> Quat, angularDistance: (Quat, Quat) -> real)

  function Add(a: Vec, b: Vec): Vec
  {
    Vec(a.x + b.x, a.y + b.y, a.z + b.z)
  }

  function Sub(a: Vec, b: Vec): Vec
  {
    Vec(a.x - b.x, a.y - b.y, a.z - b.z)
  }

  function Scale(k: real, a: Vec): Vec
  {
    Vec(Times(k, a.x), Times(k, a.y), Times(k, a.z))
  }

  function Cross(a: Vec, b: Vec): Vec
  {
    Vec(Times(a.y, b.z) - Times(a.z, b.y), Times(a.z, b.x) - Times(a.x, b.z), Times(a.x, b.y) - Times(a.y, b.x))
  }

  function Mul(a: Quat, b: Quat): Quat
  {
    Quat(Times(a.w, b.w) - Times(a.x, b.x) - Times(a.y, b.y) - Times(a.z, b.z),
         Times(a.w, b.x) + Times(a.x, b.w) + Times(a.y, b.z) - Times(a.z, b.y),
         Times(a.w, b.y) + Times(a.y, b.w) + Times(a.z, b.x) - Times(a.x, b.z),
         Times(a.w, b.z) + Times(a.z, b.w) + Times(a.x, b.y) - Times(a.y, b.x))
  }

  function Conj(q: Quat): Quat
  {
    Quat(q.w, -q.x, -q.y, -q.z)
  }

  function Pure(v: Vec): Quat
  {
    Quat(0.0, v.x, v.y, v.z)
  }

  function SquaredNorm(q: Quat): real
  {
    Times(q.w, q.w) + Times(q.x, q.x) + Times(q.y, q.y) + Times(q.z, q.z)
  }

  predicate Unit(q: Quat)
  {
    SquaredNorm(q) == 1.0
  }

  /** Quaternion divided by its norm; the zero quaternion stays as it is. */
  function Normalized(num: Numerics, q: Quat): Quat
  {
    var n := num.sqrt(SquaredNorm(q));
    if SquaredNorm(q) > 0.0 && n != 0.0 then Quat(q.w / n, q.x / n, q.y / n, q.z / n) else q
  }

  /** sqrt is a square root on non-negative numbers. */
  ghost predicate RootsRight(num: Numerics)
  {
    forall v: real {:trigger num.sqrt(v)} :: v >= 0.0 ==> num.sqrt(v) >= 0.0 && num.sqrt(v) * num.sqrt(v) == v
  }

  /** The vector part of q. */
  function Im(q: Quat): Vec
  {
    Vec(q.x, q.y, q.z)
  }

  /** How Eigen rotates a vector: v + 2w(u x v) + 2u x (u x v). */
  function Rotate(q: Quat, v: Vec): Vec
  {
    var uv := Cross(Im(q), v);
    var uv2 := Add(uv, uv);
    Add(Add(v, Scale(q.w, uv2)), Cross(Im(q), uv2))
  }

  /** Rotation by conjugation: q v q*. */
  function Sandwich(q: Quat, v: Vec): Quat
  {
    Mul(Mul(q, Pure(v)), Conj(q))
  }

  // ----- quaternion algebra -----

  lemma AssocW(a: Quat, b: Quat, c: Quat)
    ensures Mul(Mul(a, b), c).w == Mul(a, Mul(b, c)).w
  {
    hide Times;
    var p, q := Mul(a, b), Mul(b, c);
    AssocWReals(a.w, a.x, a.y, a.z, b.w, b.x, b.y, b.z, c.w, c.x, c.y, c.z, p.w, p.x, p.y, p.z, q.w, q.x, q.y, q.z);
  }

  lemma AssocWReals(aw: real, ax: real, ay: real, az: real, bw: real, bx: real, b2: real, bz: real,
                    cw: real, cx: real, cy: real, cz: real,
                    pw: real, px: real, py: real, pz: real, qw: real, qx: real, qy: real, qz: real)
    requires pw == Times(aw, bw) - Times(ax, bx) - Times(ay, b2) - Times(az, bz)
    requires px == Times(aw, bx) + Times(ax, bw) + Times(ay, bz) - Times(az, b2)
    requires py == Times(aw, b2) + Times(ay, bw) + Times(az, bx) - Times(ax, bz)
    requires pz == Times(aw, bz) + Times(az, bw) + Times(ax, b2) - Times(ay, bx)
    requires qw == Times(bw, cw) - Times(bx, cx) - Times(b2, cy) - Times(bz, cz)
    requires qx == Times(bw, cx) + Times(bx, cw) + Times(b2, cz) - Times(bz, cy)
    requires qy == Times(bw, cy) + Times(b2, cw) + Times(bz, cx) - Times(bx, cz)
    requires qz == Times(bw, cz) + Times(bz, cw) + Times(bx, cy) - Times(b2, cx)
    ensures Times(pw, cw) - Times(px, cx) - Times(py, cy) - Times(pz, cz)
         == Times(aw, qw) - Times(ax, qx) - Times(ay, qy) - Times(az, qz)
  {
  }

  lemma AssocX(a: Quat, b: Quat, c: Quat)
    ensures Mul(Mul(a, b), c).x == Mul(a, Mul(b, c)).x
  {
    hide Times;
    var p, q := Mul(a, b), Mul(b, c);
    AssocXReals(a.w, a.x, a.y, a.z, b.w, b.x, b.y, b.z, c.w, c.x, c.y, c.z, p.w, p.x, p.y, p.z, q.w, q.x, q.y, q.z);
  }

  /** The x component; the y and z components follow by renaming the axes in a circle. */
  lemma AssocXReals(aw: real, ax: real, ay: real, az: real, bw: real, bx: real, b2: real, bz: real,
                    cw: real, cx: real, cy: real, cz: real,
                    pw: real, px: real, py: real, pz: real, qw: real, qx: real, qy: real, qz: real)
    requires pw == Times(aw, bw) - Times(ax, bx) - Times(ay, b2) - Times(az, bz)
    requires px == Times(aw, bx) + Times(ax, bw) + Times(ay, bz) - Times(az, b2)
    requires py == Times(aw, b2) + Times(ay, bw) + Times(az, bx) - Times(ax, bz)
    requires pz == Times(aw, bz) + Times(az, bw) + Times(ax, b2) - Times(ay, bx)
    requires qw == Times(bw, cw) - Times(bx, cx) - Times(b2, cy) - Times(bz, cz)
    requires qx == Times(bw, cx) + Times(bx, cw) + Times(b2, cz) - Times(bz, cy)
    requires qy == Times(bw, cy) + Times(b2, cw) + Times(bz, cx) - Times(bx, cz)
    requires qz == Times(bw, cz) + Times(bz, cw) + Times(bx, cy) - Times(b2, cx)
    ensures Times(pw, cx) + Times(px, cw) + Times(py, cz) - Times(pz, cy)
         == Times(aw, qx) + Times(ax, qw) + Times(ay, qz) - Times(az, qy)
  {
  }

  /** Renames the axes x to y to z to x. */
  function Turn(q: Quat): Quat
  {
    Quat(q.w, q.y, q.z, q.x)
  }

  lemma TurnMul(a: Quat, b: Quat)
    ensures Turn(Mul(a, b)) == Mul(Turn(a), Turn(b))
  {
    hide Times;
  }

  lemma TurnBoth(a: Quat, b: Quat, c: Quat)
    ensures Turn(Mul(Mul(a, b), c)) == Mul(Mul(Turn(a), Turn(b)), Turn(c))
    ensures Turn(Mul(a, Mul(b, c))) == Mul(Turn(a), Mul(Turn(b), Turn(c)))
  {
    TurnMul(a, b);
    TurnMul(Mul(a, b), c);
    TurnMul(b, c);
    TurnMul(a, Mul(b, c));
  }

  lemma MulAssoc(a: Quat, b: Quat, c: Quat)
    ensures Mul(Mul(a, b), c) == Mul(a, Mul(b, c))
  {
    AssocW(a, b, c);
    AssocX(a, b, c);
    TurnBoth(a, b, c);
    AssocX(Turn(a), Turn(b), Turn(c));
    TurnBoth(Turn(a), Turn(b), Turn(c));
    AssocX(Turn(Turn(a)), Turn(Turn(b)), Turn(Turn(c)));
    hide Mul;
    var l, r := Mul(Mul(a, b), c), Mul(a, Mul(b, c));
    assert Turn(l).x == Turn(r).x && Turn(Turn(l)).x == Turn(Turn(r)).x;
  }

  lemma ConjMul(a: Quat, b: Quat)
    ensures Conj(Mul(a, b)) == Mul(Conj(b), Conj(a))
  {
    ConjSigns(a.w, b);
    ConjSigns(a.x, b);
    ConjSigns(a.y, b);
    ConjSigns(a.z, b);
    hide Times;
  }

  lemma ConjSigns(v: real, b: Quat)
    ensures Times(b.w, v) == Times(v, b.w) && Times(-b.x, -v) == Times(v, b.x)
    ensures Times(-b.y, -v) == Times(v, b.y) && Times(-b.z, -v) == Times(v, b.z)
    ensures Times(-b.x, v) == -Times(v, b.x) && Times(-b.y, v) == -Times(v, b.y) && Times(-b.z, v) == -Times(v, b.z)
    ensures Times(b.w, -v) == -Times(v, b.w)
  {
  }

  lemma TimesBasics(v: real)
    ensures Times(v, 0.0) == 0.0 == Times(0.0, v) && Times(v, 1.0) == v == Times(1.0, v)
    ensures forall u: real {:trigger Times(v, u)} {:trigger Times(u, v)} :: Times(v, u) == Times(u, v)
    ensures forall u: real {:trigger Times(v, -u)} :: Times(v, -u) == -Times(v, u)
  {
  }

  const ONE := Quat(1.0, 0.0, 0.0, 0.0)

  lemma OneMul(q: Quat)
    ensures Mul(ONE, q) == q == Mul(q, ONE)
  {
    TimesBasics(q.w);
    TimesBasics(q.x);
    TimesBasics(q.y);
    TimesBasics(q.z);
    hide Times;
  }

  /** A quaternion times its conjugate is its squared norm. */
  lemma NormAsMul(q: Quat)
    ensures Mul(q, Conj(q)) == Quat(SquaredNorm(q), 0.0, 0.0, 0.0)
  {
    TimesBasics(q.w);
    TimesBasics(q.x);
    TimesBasics(q.y);
    TimesBasics(q.z);
    hide Times;
  }

  /** The product of rotations is a rotation. */
  lemma UnitMul(a: Quat, b: Quat)
    requires Unit(a) && Unit(b)
    ensures Unit(Mul(a, b))
  {
    hide Mul, Conj, SquaredNorm;
    var p := Mul(a, b);
    calc {
      Mul(p, Conj(p));
      { ConjMul(a, b); }
      Mul(p, Mul(Conj(b), Conj(a)));
      { MulAssoc(a, b, Mul(Conj(b), Conj(a))); MulAssoc(b, Conj(b), Conj(a)); }
      Mul(a, Mul(Mul(b, Conj(b)), Conj(a)));
      { NormAsMul(b); OneMul(Conj(a)); }
      Mul(a, Conj(a));
      { NormAsMul(a); }
      ONE;
    }
    NormAsMul(p);
  }

  // ----- rotations -----

  /** One component of the rotated vector in both forms: p is q times the vector, s is twice the cross product. */
  lemma SandwichReals(w: real, x: real, y: real, z: real, a: real, b: real, c: real,
                      pw: real, px: real, py: real, pz: real, sx: real, sy: real, sz: real)
    requires Times(w, w) + Times(x, x) + Times(y, y) + Times(z, z) == 1.0
    requires pw == -Times(x, a) - Times(y, b) - Times(z, c) && px == Times(w, a) + Times(y, c) - Times(z, b)
    requires py == Times(w, b) + Times(z, a) - Times(x, c) && pz == Times(w, c) + Times(x, b) - Times(y, a)
    requires sx == Times(y, c) - Times(z, b) + (Times(y, c) - Times(z, b))
    requires sy == Times(z, a) - Times(x, c) + (Times(z, a) - Times(x, c))
    requires sz == Times(x, b) - Times(y, a) + (Times(x, b) - Times(y, a))
    ensures -Times(pw, x) + Times(px, w) - Times(py, z) + Times(pz, y)
         == a + Times(w, sx) + (Times(y, sz) - Times(z, sy))
    ensures Times(pw, w) + Times(px, x) + Times(py, y) + Times(pz, z) == 0.0
  {
    assert a == a * (w * w + x * x + y * y + z * z);
  }

  lemma ProductParts(q: Quat, v: Vec)
    ensures var p := Mul(q, Pure(v));
      && p.w == -Times(q.x, v.x) - Times(q.y, v.y) - Times(q.z, v.z)
      && p.x == Times(q.w, v.x) + Times(q.y, v.z) - Times(q.z, v.y)
      && p.y == Times(q.w, v.y) + Times(q.z, v.x) - Times(q.x, v.z)
      && p.z == Times(q.w, v.z) + Times(q.x, v.y) - Times(q.y, v.x)
  {
    TimesBasics(q.w);
    TimesBasics(q.x);
    TimesBasics(q.y);
    TimesBasics(q.z);
    hide Times;
  }

  lemma MulConjParts(p: Quat, q: Quat)
    ensures Mul(p, Conj(q)).x == -Times(p.w, q.x) + Times(p.x, q.w) - Times(p.y, q.z) + Times(p.z, q.y)
    ensures Mul(p, Conj(q)).w == Times(p.w, q.w) + Times(p.x, q.x) + Times(p.y, q.y) + Times(p.z, q.z)
  {
    TimesBasics(p.w);
    TimesBasics(p.x);
    TimesBasics(p.y);
    TimesBasics(p.z);
    hide Times;
  }

  lemma RotateX(q: Quat, v: Vec)
    requires Unit(q)
    ensures Sandwich(q, v).x == Rotate(q, v).x && Sandwich(q, v).w == 0.0
  {
    hide Mul, Times;
    var p := Mul(q, Pure(v));
    ProductParts(q, v);
    MulConjParts(p, q);
    var s := Add(Cross(Im(q), v), Cross(Im(q), v));
    SandwichReals(q.w, q.x, q.y, q.z, v.x, v.y, v.z, p.w, p.x, p.y, p.z, s.x, s.y, s.z);
  }

  function TurnVec(v: Vec): Vec
  {
    Vec(v.y, v.z, v.x)
  }

  lemma TurnRotate(q: Quat, v: Vec)
    ensures TurnVec(Rotate(q, v)) == Rotate(Turn(q), TurnVec(v))
  {
    hide Times;
  }

  lemma TurnSandwich(q: Quat, v: Vec)
    ensures Turn(Sandwich(q, v)) == Sandwich(Turn(q), TurnVec(v))
    ensures Unit(q) ==> Unit(Turn(q))
  {
    hide Times, Mul;
    TurnMul(q, Pure(v));
    TurnMul(Mul(q, Pure(v)), Conj(q));
  }

  /** For unit quaternions, Eigen's formula is conjugation. */
  lemma RotateIsSandwich(q: Quat, v: Vec)
    requires Unit(q)
    ensures Sandwich(q, v) == Pure(Rotate(q, v))
  {
    hide Sandwich, Rotate, Unit;
    var q1, v1 := Turn(q), TurnVec(v);
    RotateX(q, v);
    TurnSandwich(q, v);
    TurnRotate(q, v);
    RotateX(q1, v1);
    TurnSandwich(q1, v1);
    TurnRotate(q1, v1);
    RotateX(Turn(q1), TurnVec(v1));
  }

  /** Rotating by a product is rotating twice. */
  lemma RotateCompose(a: Quat, b: Quat, v: Vec)
    requires Unit(a) && Unit(b)
    ensures Rotate(Mul(a, b), v) == Rotate(a, Rotate(b, v))
  {
    UnitMul(a, b);
    RotateIsSandwich(Mul(a, b), v);
    RotateIsSandwich(b, v);
    RotateIsSandwich(a, Rotate(b, v));
    hide Mul, Rotate, Conj, Unit;
    var p := Pure(v);
    calc {
      Sandwich(Mul(a, b), v);
      { ConjMul(a, b); MulAssoc(a, b, p); }
      Mul(Mul(a, Mul(b, p)), Mul(Conj(b), Conj(a)));
      { MulAssoc(a, Mul(b, p), Mul(Conj(b), Conj(a))); MulAssoc(Mul(b, p), Conj(b), Conj(a)); }
      Mul(a, Mul(Sandwich(b, v), Conj(a)));
      { MulAssoc(a, Sandwich(b, v), Conj(a)); }
      Sandwich(a, Rotate(b, v));
    }
  }

  /** Rotations are additive. */
  lemma RotateAdd(q: Quat, u: Vec, v: Vec)
    ensures Rotate(q, Add(u, v)) == Add(Rotate(q, u), Rotate(q, v))
  {
    RotateAddX(q, u, v);
    TurnRotate(q, Add(u, v));
    TurnRotate(q, u);
    TurnRotate(q, v);
    RotateAddX(Turn(q), TurnVec(u), TurnVec(v));
    TurnRotate(Turn(q), TurnVec(Add(u, v)));
    TurnRotate(Turn(q), TurnVec(u));
    TurnRotate(Turn(q), TurnVec(v));
    RotateAddX(Turn(Turn(q)), TurnVec(TurnVec(u)), TurnVec(TurnVec(v)));
    hide Rotate;
  }

  lemma RotateAddX(q: Quat, u: Vec, v: Vec)
    ensures Rotate(q, Add(u, v)).x == Rotate(q, u).x + Rotate(q, v).x
  {
    CrossAdd(Im(q), u, v);
    var a, b := Cross(Im(q), u), Cross(Im(q), v);
    var a2, b2 := Add(a, a), Add(b, b);
    TimesPlus(q.w, a2.x, b2.x);
    TimesPlus(q.y, a2.z, b2.z);
    TimesPlus(q.z, a2.y, b2.y);
    hide Times;
    var c := Cross(Im(q), Add(u, v));
    assert Add(c, c) == Add(a2, b2);
  }

  lemma CrossAdd(q: Vec, u: Vec, v: Vec)
    ensures Cross(q, Add(u, v)) == Add(Cross(q, u), Cross(q, v))
  {
    TimesPlus(q.y, u.z, v.z);
    TimesPlus(q.z, u.y, v.y);
    TimesPlus(q.z, u.x, v.x);
    TimesPlus(q.x, u.z, v.z);
    TimesPlus(q.x, u.y, v.y);
    TimesPlus(q.y, u.x, v.x);
    hide Times;
  }

  // ----- transforms -----

  /** The translation is applied behind the rotation. */
  datatype IsoTransform = IsoTransform(rotation: Quat, translation: Vec)

  function Compose(num: Numerics, a: IsoTransform, b: IsoTransform): IsoTransform
  {
    IsoTransform(Normalized(num, Mul(a.rotation, b.rotation)), Add(a.translation, Rotate(a.rotation, b.translation)))
  }

  function Act(a: IsoTransform, p: Vec): Vec
  {
    Add(a.translation, Rotate(a.rotation, p))
  }

  /** Between two transforms: the image of the local point moves on a straight line. */
  function InterpolateAround(num: Numerics, a: IsoTransform, lerp: real, target: IsoTransform, localPoint: Vec): IsoTransform
  {
    var initialPos := Act(a, localPoint);
    var finalPos := Add(Scale(1.0 - lerp, initialPos), Scale(lerp, Act(target, localPoint)));
    var newRotation := Normalized(num, num.slerp(lerp, a.rotation, target.rotation));
    IsoTransform(newRotation, Sub(finalPos, Rotate(newRotation, localPoint)))
  }

  /** Unit quaternions need no normalizing. */
  lemma NormalizedUnit(num: Numerics, q: Quat)
    requires RootsRight(num) && Unit(q)
    ensures Normalized(num, q) == q
  {
    RootOfOne(num.sqrt(1.0));
    OverOne(q.w);
    OverOne(q.x);
    OverOne(q.y);
    OverOne(q.z);
  }

  lemma OverOne(v: real)
    ensures v / 1.0 == v
  {
  }

  lemma RootOfOne(n: real)
    requires n >= 0.0 && n * n == 1.0
    ensures n == 1.0
  {
    if n > 1.0 {
      Larger(n);
    } else if n < 1.0 {
      Smaller(n);
    }
  }

  lemma Larger(n: real)
    requires n > 1.0
    ensures n * n > 1.0
  {
  }

  lemma Positive(a: real, b: real)
    requires a > 0.0 && b > 0.0
    ensures a * b > 0.0
  {
  }

  lemma Smaller(n: real)
    requires 0.0 <= n < 1.0
    ensures n * n < 1.0
  {
    if n > 0.0 {
      Positive(n, 1.0 - n);
      assert n * n == n - n * (1.0 - n);
    } else {
      assert n * n == 0.0 * n;
    }
  }

  /** Normalizing gives a unit quaternion, unless there is nothing to normalize. */
  lemma NormalizedIsUnit(num: Numerics, q: Quat)
    requires RootsRight(num) && SquaredNorm(q) > 0.0
    ensures Unit(Normalized(num, q))
  {
    var n := num.sqrt(SquaredNorm(q));
    assert n * n == SquaredNorm(q);
    var r := Normalized(num, q);
    Divided(q.w, n);
    Divided(q.x, n);
    Divided(q.y, n);
    Divided(q.z, n);
    NormReals(r.w, r.x, r.y, r.z, n, q.w, q.x, q.y, q.z);
  }

  /** Normalizing keeps the direction: the parts are those of the result, all multiplied by one positive number. */
  lemma NormalizedKeepsDirection(num: Numerics, q: Quat) returns (n: real)
    requires RootsRight(num) && SquaredNorm(q) > 0.0
    ensures n > 0.0 && n * n == SquaredNorm(q)
    ensures var r := Normalized(num, q); r.w * n == q.w && r.x * n == q.x && r.y * n == q.y && r.z * n == q.z
  {
    hide SquaredNorm;
    n := num.sqrt(SquaredNorm(q));
    assert n * n == SquaredNorm(q);
    Divided(q.w, n);
    Divided(q.x, n);
    Divided(q.y, n);
    Divided(q.z, n);
  }

  lemma Divided(v: real, n: real)
    requires n != 0.0
    ensures v / n * n == v
  {
  }

  lemma NormReals(a: real, b: real, c: real, d: real, n: real, w: real, x: real, y: real, z: real)
    requires a * n == w && b * n == x && c * n == y && d * n == z && n != 0.0
    requires Times(w, w) + Times(x, x) + Times(y, y) + Times(z, z) == Times(n, n) != 0.0
    ensures Times(a, a) + Times(b, b) + Times(c, c) + Times(d, d) == 1.0
  {
    SquareOfProduct(a, n, w);
    SquareOfProduct(b, n, x);
    SquareOfProduct(c, n, y);
    SquareOfProduct(d, n, z);
    SumTimes(Times(a, a), Times(b, b), Times(c, c), Times(d, d), Times(n, n));
    hide Times;
    CancelReals(Times(a, a) + Times(b, b) + Times(c, c) + Times(d, d), Times(n, n));
  }

  lemma SquareOfProduct(a: real, n: real, w: real)
    requires a * n == w
    ensures Times(w, w) == Times(Times(a, a), Times(n, n))
  {
    assert w * w == a * n * w;
    assert a * n * w == a * (n * (a * n));
  }

  lemma SumTimes(a: real, b: real, c: real, d: real, m: real)
    ensures Times(a + b + c + d, m) == Times(a, m) + Times(b, m) + Times(c, m) + Times(d, m)
  {
  }

  lemma CancelReals(t: real, m: real)
    requires Times(t, m) == m && m != 0.0
    ensures t == 1.0
  {
    assert (t - 1.0) * m == t * m - m;
  }

  lemma AddAssoc(a: Vec, b: Vec, c: Vec)
    ensures Add(Add(a, b), c) == Add(a, Add(b, c))
  {
  }

  /** Composition acts like acting twice. */
  lemma ComposeActs(num: Numerics, a: IsoTransform, b: IsoTransform, p: Vec)
    requires RootsRight(num) && Unit(a.rotation) && Unit(b.rotation)
    ensures Act(Compose(num, a, b), p) == Act(a, Act(b, p))
    ensures Unit(Compose(num, a, b).rotation)
  {
    UnitMul(a.rotation, b.rotation);
    NormalizedUnit(num, Mul(a.rotation, b.rotation));
    RotateCompose(a.rotation, b.rotation, p);
    RotateAdd(a.rotation, b.translation, Rotate(b.rotation, p));
    hide Rotate, Mul, Unit, Normalized;
    AddAssoc(a.translation, Rotate(a.rotation, b.translation), Rotate(a.rotation, Rotate(b.rotation, p)));
  }

  /** The local point moves exactly linearly, whatever rotation the interpolation chooses. */
  lemma InterpolatedPoint(num: Numerics, a: IsoTransform, lerp: real, target: IsoTransform, p: Vec)
    ensures Act(InterpolateAround(num, a, lerp, target, p), p)
         == Add(Scale(1.0 - lerp, Act(a, p)), Scale(lerp, Act(target, p)))
  {
    hide Rotate, Normalized, Scale;
  }

  /** The distance left to the target shrinks by the factor 1 - lerp. */
  lemma InterpolatedError(num: Numerics, a: IsoTransform, lerp: real, target: IsoTransform, p: Vec)
    ensures Sub(Act(InterpolateAround(num, a, lerp, target, p), p), Act(target, p))
         == Scale(1.0 - lerp, Sub(Act(a, p), Act(target, p)))
  {
    InterpolatedPoint(num, a, lerp, target, p);
    hide Act, InterpolateAround;
    ErrorVec(Act(a, p), Act(target, p), lerp);
  }

  lemma ErrorVec(a: Vec, t: Vec, l: real)
    ensures Sub(Add(Scale(1.0 - l, a), Scale(l, t)), t) == Scale(1.0 - l, Sub(a, t))
  {
  }

  // ----- handedness -----

  const I := Quat(0.0, 1.0, 0.0, 0.0)
  const J := Quat(0.0, 0.0, 1.0, 0.0)
  const K := Quat(0.0, 0.0, 0.0, 1.0)

  /** Hamilton's rules: ij = k, jk = i, ki = j, and ii = jj = kk = -1. */
  lemma UnitProducts()
    ensures Mul(I, J) == K && Mul(J, K) == I && Mul(K, I) == J
    ensures Mul(I, I) == Quat(-1.0, 0.0, 0.0, 0.0) == Mul(J, J) == Mul(K, K)
  {
    hide Mul, Times;
    FirstProducts();
    TurnMul(I, J);
    TurnMul(J, K);
    TurnMul(I, I);
    TurnMul(J, J);
    TurnedUnits();
  }

  lemma TurnedUnits()
    ensures Turn(I) == K && Turn(J) == I && Turn(K) == J
  {
  }

  lemma FirstProducts()
    ensures Mul(I, J) == K && Mul(I, I) == Quat(-1.0, 0.0, 0.0, 0.0)
  {
    hide Mul;
    TimesI(J);
    TimesI(I);
  }

  lemma TimesI(q: Quat)
    ensures Mul(I, q) == Quat(-q.x, q.w, -q.z, q.y)
  {
    TimesBasics(q.w);
    TimesBasics(q.x);
    TimesBasics(q.y);
    TimesBasics(q.z);
    hide Times;
  }

  /** A unit quaternion (c, 0, 0, s) turns the x axis towards the y axis by the angle whose half has the cosine c and
      the sine s, the other axes by renaming them in a circle. */
  lemma TurnsForward(c: real, s: real)
    requires c * c + s * s == 1.0
    ensures Rotate(Quat(c, 0.0, 0.0, s), Vec(1.0, 0.0, 0.0)) == Vec(c * c - s * s, 2.0 * (c * s), 0.0)
    ensures Rotate(Quat(c, s, 0.0, 0.0), Vec(0.0, 1.0, 0.0)) == Vec(0.0, c * c - s * s, 2.0 * (c * s))
    ensures Rotate(Quat(c, 0.0, s, 0.0), Vec(0.0, 0.0, 1.0)) == Vec(2.0 * (c * s), 0.0, c * c - s * s)
  {
    TurnX(c, s);
    TurnRotate(Quat(c, s, 0.0, 0.0), Vec(0.0, 1.0, 0.0));
    TurnRotate(Quat(c, 0.0, s, 0.0), Vec(0.0, 0.0, 1.0));
    TurnRotate(Turn(Quat(c, 0.0, s, 0.0)), TurnVec(Vec(0.0, 0.0, 1.0)));
    TurnX(c, s);
    hide Rotate;
  }

  lemma TurnX(c: real, s: real)
    requires c * c + s * s == 1.0
    ensures Rotate(Quat(c, 0.0, 0.0, s), Vec(1.0, 0.0, 0.0)) == Vec(c * c - s * s, 2.0 * (c * s), 0.0)
  {
    TwiceProducts(c, s);
  }

  lemma TwiceProducts(c: real, s: real)
    ensures c * (s + s) == 2.0 * (c * s) && s * (s + s) == 2.0 * (s * s)
  {
  }
}
