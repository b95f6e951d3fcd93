/** Rigid root poses with a rotation about the vertical axis, and their group laws. */
module RootPose {
  datatype Vec3 = Vec3(x: real, y: real, z: real)

  /** A quaternion whose x and y parts are zero. */
  datatype Quat = Quat(z: real, w: real) {
    predicate Unit() {
      z * z + w * w == 1.0
    }
  }

  type Yaw = q: Quat | q.Unit() witness Quat(0.0, 1.0)

  const IDENTITY_YAW: Yaw := Quat(0.0, 1.0)

  function Cross(p: real, q: real, r: real, s: real): real {
    p * q + r * s
  }

  function Product(a: Quat, b: Quat): Quat {
    Quat(Cross(a.w, b.z, a.z, b.w), Cross(a.w, b.w, -a.z, b.z))
  }

  lemma ProductUnit(a: Quat, b: Quat)
    requires a.Unit() && b.Unit()
    ensures Product(a, b).Unit()
  {
    var p := Product(a, b);
    assert p.z * p.z + p.w * p.w == (a.z * a.z + a.w * a.w) * (b.z * b.z + b.w * b.w);
  }

  /** Quaternion product. A product of unit quaternions is already normalized. */
  function Mul(a: Yaw, b: Yaw): Yaw {
    ProductUnit(a, b);
    Product(a, b)
  }

  function Conjugate(a: Yaw): Yaw {
    assert Quat(-a.z, a.w).Unit();
    Quat(-a.z, a.w)
  }

  // Cosine and sine of the full angle.

  function Cos(q: Quat): real {
    q.w * q.w - q.z * q.z
  }

  function Sin(q: Quat): real {
    2.0 * (q.w * q.z)
  }

  function Turn(c: real, s: real, v: Vec3): Vec3 {
    Vec3(c * v.x - s * v.y, s * v.x + c * v.y, v.z)
  }

  function Rotate(q: Yaw, v: Vec3): Vec3 {
    Turn(Cos(q), Sin(q), v)
  }

  function Add(a: Vec3, b: Vec3): Vec3 {
    Vec3(a.x + b.x, a.y + b.y, a.z + b.z)
  }

  function Neg(a: Vec3): Vec3 {
    Vec3(-a.x, -a.y, -a.z)
  }

  datatype Pose = Pose(rotation: Yaw, translation: Vec3)

  const IDENTITY := Pose(IDENTITY_YAW, Vec3(0.0, 0.0, 0.0))

  function Inverse(p: Pose): Pose {
    Pose(Conjugate(p.rotation), Rotate(Conjugate(p.rotation), Neg(p.translation)))
  }

  function Compose(p: Pose, q: Pose): Pose {
    Pose(Mul(p.rotation, q.rotation), Add(Rotate(p.rotation, q.translation), p.translation))
  }

  // ----- laws -----

  lemma MulAssoc(a: Yaw, b: Yaw, c: Yaw)
    ensures Mul(Mul(a, b), c) == Mul(a, Mul(b, c))
  {
    hide Product;
    ProductAssoc(a, b, c);
  }

  lemma ProductAssoc(a: Quat, b: Quat, c: Quat)
    ensures Product(Product(a, b), c) == Product(a, Product(b, c))
  {
    hide Cross;
    var ab, bc := Product(a, b), Product(b, c);
    ProductAssocZ(a.z, a.w, b.z, b.w, c.z, c.w, ab.z, ab.w, bc.z, bc.w);
    ProductAssocW(a.z, a.w, b.z, b.w, c.z, c.w, ab.z, ab.w, bc.z, bc.w);
  }

  lemma Distribute(p: real, q: real, r: real, s: real, sum: real, x: real)
    requires sum == p * q + r * s
    ensures sum * x == p * (q * x) + r * (s * x) == q * (p * x) + s * (r * x)
  {
    assert sum * x == (p * q) * x + (r * s) * x;
  }

  lemma ProductAssocZ(az: real, aw: real, bz: real, bw: real, cz: real, cw: real,
                      abz: real, abw: real, bcz: real, bcw: real)
    requires abz == Cross(aw, bz, az, bw) && abw == Cross(aw, bw, -az, bz)
    requires bcz == Cross(bw, cz, bz, cw) && bcw == Cross(bw, cw, -bz, cz)
    ensures Cross(abw, cz, abz, cw) == Cross(aw, bcz, az, bcw)
  {
    Distribute(aw, bw, -az, bz, abw, cz);
    Distribute(aw, bz, az, bw, abz, cw);
    Distribute(bw, cz, bz, cw, bcz, aw);
    Distribute(bw, cw, -bz, cz, bcw, az);
  }

  lemma ProductAssocW(az: real, aw: real, bz: real, bw: real, cz: real, cw: real,
                      abz: real, abw: real, bcz: real, bcw: real)
    requires abz == Cross(aw, bz, az, bw) && abw == Cross(aw, bw, -az, bz)
    requires bcz == Cross(bw, cz, bz, cw) && bcw == Cross(bw, cw, -bz, cz)
    ensures Cross(abw, cw, -abz, cz) == Cross(aw, bcw, -az, bcz)
  {
    Distribute(aw, bw, -az, bz, abw, cw);
    Distribute(aw, bz, az, bw, abz, cz);
    Distribute(bw, cw, -bz, cz, bcw, aw);
    Distribute(bw, cz, bz, cw, bcz, az);
  }

  lemma MulIdentity(a: Yaw)
    ensures Mul(a, IDENTITY_YAW) == a && Mul(IDENTITY_YAW, a) == a
  {
  }

  lemma MulConjugate(a: Yaw)
    ensures Mul(a, Conjugate(a)) == IDENTITY_YAW && Mul(Conjugate(a), a) == IDENTITY_YAW
  {
  }

  lemma AngleSum(a: Quat, b: Quat)
    ensures Cos(Product(a, b)) == Cos(a) * Cos(b) - Sin(a) * Sin(b)
    ensures Sin(Product(a, b)) == Sin(a) * Cos(b) + Cos(a) * Sin(b)
  {
  }

  lemma TurnTwice(c1: real, s1: real, c2: real, s2: real, v: Vec3)
    ensures Turn(c1, s1, Turn(c2, s2, v)) == Turn(c1 * c2 - s1 * s2, s1 * c2 + c1 * s2, v)
  {
    var u := Turn(c2, s2, v);
    assert c1 * u.x == c1 * c2 * v.x - c1 * s2 * v.y;
    assert s1 * u.y == s1 * s2 * v.x + s1 * c2 * v.y;
    assert s1 * u.x == s1 * c2 * v.x - s1 * s2 * v.y;
    assert c1 * u.y == c1 * s2 * v.x + c1 * c2 * v.y;
  }

  lemma RotateMul(a: Yaw, b: Yaw, v: Vec3)
    ensures Rotate(Mul(a, b), v) == Rotate(a, Rotate(b, v))
  {
    AngleSum(a, b);
    TurnTwice(Cos(a), Sin(a), Cos(b), Sin(b), v);
  }

  lemma RotateIdentity(v: Vec3)
    ensures Rotate(IDENTITY_YAW, v) == v
  {
    hide Turn;
    assert Cos(IDENTITY_YAW) == 1.0 && Sin(IDENTITY_YAW) == 0.0;
    TurnNone(v);
  }

  lemma TurnNone(v: Vec3)
    ensures Turn(1.0, 0.0, v) == v
  {
  }

  lemma RotateAdd(q: Yaw, a: Vec3, b: Vec3)
    ensures Rotate(q, Add(a, b)) == Add(Rotate(q, a), Rotate(q, b))
  {
    var c, s := Cos(q), Sin(q);
    assert c * (a.x + b.x) == c * a.x + c * b.x && s * (a.x + b.x) == s * a.x + s * b.x;
    assert c * (a.y + b.y) == c * a.y + c * b.y && s * (a.y + b.y) == s * a.y + s * b.y;
  }

  lemma RotateZero(q: Yaw)
    ensures Rotate(q, Vec3(0.0, 0.0, 0.0)) == Vec3(0.0, 0.0, 0.0)
  {
  }

  lemma RotateNeg(q: Yaw, a: Vec3)
    ensures Rotate(q, Neg(a)) == Neg(Rotate(q, a))
  {
  }

  lemma ComposeAssoc(p: Pose, q: Pose, r: Pose)
    ensures Compose(Compose(p, q), r) == Compose(p, Compose(q, r))
  {
    hide Mul, Rotate;
    MulAssoc(p.rotation, q.rotation, r.rotation);
    RotateMul(p.rotation, q.rotation, r.translation);
    RotateAdd(p.rotation, Rotate(q.rotation, r.translation), q.translation);
  }

  lemma ComposeIdentity(p: Pose)
    ensures Compose(p, IDENTITY) == p && Compose(IDENTITY, p) == p
  {
    hide Mul, Rotate;
    RotateZero(p.rotation);
    MulIdentity(p.rotation);
    RotateIdentity(p.translation);
  }

  lemma ComposeInverse(p: Pose)
    ensures Compose(p, Inverse(p)) == IDENTITY && Compose(Inverse(p), p) == IDENTITY
  {
    hide Mul, Rotate, Conjugate;
    var c := Conjugate(p.rotation);
    MulConjugate(p.rotation);
    RotateMul(p.rotation, c, Neg(p.translation));
    RotateIdentity(Neg(p.translation));
    RotateNeg(c, p.translation);
  }

  /** Inserting a pose and its inverse between two others changes nothing. */
  lemma ComposeCancel(p: Pose, m: Pose, q: Pose)
    ensures Compose(Compose(p, m), Compose(Inverse(m), q)) == Compose(p, q)
  {
    hide Compose, Inverse;
    ComposeAssoc(p, m, Compose(Inverse(m), q));
    ComposeAssoc(m, Inverse(m), q);
    ComposeInverse(m);
    ComposeIdentity(q);
  }

  lemma InverseUnique(p: Pose, q: Pose)
    requires Compose(p, q) == IDENTITY
    ensures q == Inverse(p)
  {
    hide Compose, Inverse;
    ComposeAssoc(Inverse(p), p, q);
    ComposeInverse(p);
    ComposeIdentity(q);
    ComposeIdentity(Inverse(p));
  }

  lemma InverseCompose(p: Pose, q: Pose)
    ensures Inverse(Compose(p, q)) == Compose(Inverse(q), Inverse(p))
  {
    hide Compose, Inverse;
    ComposeAssoc(p, q, Compose(Inverse(q), Inverse(p)));
    ComposeAssoc(q, Inverse(q), Inverse(p));
    ComposeInverse(q);
    ComposeIdentity(Inverse(p));
    ComposeInverse(p);
    InverseUnique(Compose(p, q), Compose(Inverse(q), Inverse(p)));
  }

  function Power(c: Pose, k: nat): Pose {
    if k == 0 then IDENTITY else Compose(Power(c, k - 1), c)
  }

  lemma {:induction false} PowerAdd(c: Pose, j: nat, k: nat)
    ensures Power(c, j + k) == Compose(Power(c, j), Power(c, k))
  {
    hide Compose;
    if k == 0 {
      ComposeIdentity(Power(c, j));
    } else {
      PowerAdd(c, j, k - 1);
      ComposeAssoc(Power(c, j), Power(c, k - 1), c);
    }
  }
}
