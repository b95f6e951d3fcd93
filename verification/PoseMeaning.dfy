/** What poses and root deltas are, in terms of the quaternion product and of points carried from one
    frame of reference to another. */
module PoseMeaning {
  import opened Common
  import opened Arithmetic
  import opened MotionClock
  import opened RootPose
  import opened RootMotion

  // ----- quaternions -----

  /** A quaternion with all four parts. */
  datatype Full = Full(x: real, y: real, z: real, w: real)

  /** The Hamilton product. */
  function Hamilton(p: Full, q: Full): Full {
    Full(p.w * q.x + p.x * q.w + p.y * q.z - p.z * q.y,
         p.w * q.y - p.x * q.z + p.y * q.w + p.z * q.x,
         p.w * q.z + p.x * q.y - p.y * q.x + p.z * q.w,
         p.w * q.w - p.x * q.x - p.y * q.y - p.z * q.z)
  }

  function Embed(q: Quat): Full {
    Full(0.0, 0.0, q.z, q.w)
  }

  function Point(v: Vec3): Full {
    Full(v.x, v.y, v.z, 0.0)
  }

  const ONE := Full(0.0, 0.0, 0.0, 1.0)

  /** Where a pose takes a point: the vector part of `q (0, v) q*`, moved by the translation. */
  function Carry(p: Pose, v: Vec3): Vec3 {
    var turned := Hamilton(Hamilton(Embed(p.rotation), Point(v)), Full(0.0, 0.0, -p.rotation.z, p.rotation.w));
    Vec3(turned.x + p.translation.x, turned.y + p.translation.y, turned.z + p.translation.z)
  }

  /** Yaw quaternions multiply as quaternions do. */
  lemma ProductIsHamilton(a: Quat, b: Quat)
    ensures Hamilton(Embed(a), Embed(b)) == Embed(Product(a, b))
  {
  }

  /** A vector multiplied by a yaw quaternion from the left. */
  function Half(q: Quat, v: Vec3): Full {
    Full(q.w * v.x - q.z * v.y, q.w * v.y + q.z * v.x, q.w * v.z, -(q.z * v.z))
  }

  /** A quaternion multiplied by the conjugate of a yaw quaternion from the right. */
  function Turned(h: Full, q: Quat): Full {
    Full(h.x * q.w - h.y * q.z, h.x * q.z + h.y * q.w, h.z * q.w - h.w * q.z, h.w * q.w + h.z * q.z)
  }

  lemma TurnPoint(q: Quat, v: Vec3)
    ensures Hamilton(Embed(q), Point(v)) == Half(q, v)
  {
  }

  lemma TurnBack(h: Full, q: Quat)
    ensures Hamilton(h, Full(0.0, 0.0, -q.z, q.w)) == Turned(h, q)
  {
  }

  lemma Expand(w: real, z: real, a: real, b: real, x: real, y: real, c: real, d: real)
    requires x == w * a - z * b && y == w * b + z * a
    requires c == w * w - z * z && d == 2.0 * (w * z)
    ensures x * w - y * z == c * a - d * b
  {
    assert (w * a) * w == (w * w) * a && (z * b) * w == (w * z) * b;
    assert (w * b) * z == (w * z) * b && (z * a) * z == (z * z) * a;
  }

  lemma ExpandY(w: real, z: real, a: real, b: real, x: real, y: real, c: real, d: real)
    requires x == w * a - z * b && y == w * b + z * a
    requires c == w * w - z * z && d == 2.0 * (w * z)
    ensures x * z + y * w == d * a + c * b
  {
    assert (w * a) * z == (w * z) * a && (z * b) * z == (z * z) * b;
    assert (w * b) * w == (w * w) * b && (z * a) * w == (w * z) * a;
  }

  lemma ExpandLast(w: real, z: real, c: real, d: real, e: real)
    requires z * z + w * w == 1.0 && d == w * c && e == -(z * c)
    ensures d * w - e * z == c
    ensures e * w + d * z == 0.0
  {
    assert (w * c) * w + (z * c) * z == (z * z + w * w) * c;
  }

  lemma TurnedX(q: Quat, v: Vec3)
    ensures Turned(Half(q, v), q).x == Turn(Cos(q), Sin(q), v).x
  {
    Expand(q.w, q.z, v.x, v.y, Half(q, v).x, Half(q, v).y, Cos(q), Sin(q));
  }

  lemma TurnedY(q: Quat, v: Vec3)
    ensures Turned(Half(q, v), q).y == Turn(Cos(q), Sin(q), v).y
  {
    ExpandY(q.w, q.z, v.x, v.y, Half(q, v).x, Half(q, v).y, Cos(q), Sin(q));
  }

  lemma TurnedZW(q: Yaw, v: Vec3)
    ensures Turned(Half(q, v), q).z == Turn(Cos(q), Sin(q), v).z
    ensures Turned(Half(q, v), q).w == 0.0
  {
    ExpandLast(q.w, q.z, v.z, Half(q, v).z, Half(q, v).w);
  }

  /** Turning a vector is conjugating it, and leaves no scalar part. */
  lemma RotateIsConjugation(q: Yaw, v: Vec3)
    ensures Hamilton(Hamilton(Embed(q), Point(v)), Full(0.0, 0.0, -q.z, q.w)) == Point(Rotate(q, v))
  {
    hide Hamilton, Half, Turned, Turn, Cos, Sin, Quat.Unit;
    TurnPoint(q, v);
    TurnBack(Half(q, v), q);
    TurnedX(q, v);
    TurnedY(q, v);
    TurnedZW(q, v);
  }

  // ----- poses -----

  /** Composing: the rotations multiply, and the second pose's origin is carried by the first. */
  lemma ComposeMeans(p: Pose, q: Pose)
    ensures Embed(Compose(p, q).rotation) == Hamilton(Embed(p.rotation), Embed(q.rotation))
    ensures Compose(p, q).translation == Carry(p, q.translation)
  {
    hide Hamilton, Rotate, Product;
    ProductIsHamilton(p.rotation, q.rotation);
    RotateIsConjugation(p.rotation, q.translation);
  }

  /** The inverse undoes the rotation, and the pose carries its origin back to zero. */
  lemma InverseMeans(p: Pose)
    ensures Hamilton(Embed(p.rotation), Embed(Inverse(p).rotation)) == ONE
    ensures Carry(p, Inverse(p).translation) == Vec3(0.0, 0.0, 0.0)
  {
    hide Hamilton, Compose, Inverse, Carry;
    ComposeInverse(p);
    ComposeMeans(p, Inverse(p));
  }

  // ----- the root delta of one update -----

  /** The sampled pose is what the curves give, with the identity and the origin for a missing one. */
  lemma SampledPose(m: RootClip, time: real)
    requires m.HasRoot()
    ensures m.rotation.Some? ==> m.PoseAt(time).rotation == m.rotation.value(time)
    ensures m.rotation.None? ==> Embed(m.PoseAt(time).rotation) == ONE
    ensures m.translation.Some? ==> m.PoseAt(time).translation == m.translation.value(time)
    ensures m.translation.None? ==> m.PoseAt(time).translation == Vec3(0.0, 0.0, 0.0)
  {
  }

  /** The clip time shown: linear between the boundaries of the segment the shared index stands for. */
  lemma SampledTime(m: RootClip, c: Clock, looping: bool)
    requires m.Valid() && 0.0 <= c.phase <= 1.0
    ensures var n, ends := |m.timing.boundaries| - 1, m.timing.boundaries;
            var k := if looping then c.segment % n else if c.segment < n then c.segment else n - 1;
            SampleSeconds(m, c, looping) == (ends[k] + c.phase * (ends[k + 1] - ends[k])) * m.duration
  {
    QuotRemDivide(c.segment, m.timing.SegmentCount());
  }

  /** Main result: without a wrap the delta takes the pose shown before the update to the one shown
      after it: rotations multiply, and the delta's translation, carried by the pose before, arrives at
      the translation after. */
  lemma DeltaCarries(m: RootClip, previous: Clock, tick: Tick, looping: bool)
    requires m.Valid() && m.HasRoot() && SampleLoops(m, previous, tick.advances, looping) == 0
    ensures var from := m.PoseAt(SampleSeconds(m, previous, looping));
            var to := m.PoseAt(SampleSeconds(m, tick.clock, looping));
            var delta := RootDelta(m, previous, tick, looping);
            && Hamilton(Embed(from.rotation), Embed(delta.rotation)) == Embed(to.rotation)
            && Carry(from, delta.translation) == to.translation
  {
    hide Hamilton, Carry, Compose, Inverse, SampleSeconds, SampleLoops;
    var from := m.PoseAt(SampleSeconds(m, previous, looping));
    var to := m.PoseAt(SampleSeconds(m, tick.clock, looping));
    var delta := RootDelta(m, previous, tick, looping);
    FromThenDelta(from, to);
    ComposeMeans(from, delta);
  }

  lemma FromThenDelta(from: Pose, to: Pose)
    ensures Compose(from, Compose(Inverse(from), to)) == to
  {
    hide Compose, Inverse;
    ComposeAssoc(from, Inverse(from), to);
    ComposeInverse(from);
    ComposeIdentity(to);
  }

  /** With wraps it takes the pose before through the end of the clip, over the whole cycles, and on
      from the start: `from` then the delta is the end, then cycles, then the way from start to `to`. */
  lemma LoopedDeltaCarries(m: RootClip, previous: Clock, tick: Tick, looping: bool)
    requires m.Valid() && m.HasRoot() && SampleLoops(m, previous, tick.advances, looping) > 0
    ensures var from := m.PoseAt(SampleSeconds(m, previous, looping));
            var to := m.PoseAt(SampleSeconds(m, tick.clock, looping));
            var loops := SampleLoops(m, previous, tick.advances, looping);
            var start, end := m.PoseAt(0.0), m.PoseAt(m.duration);
            var rest := Compose(Power(Compose(Inverse(start), end), loops - 1), Compose(Inverse(start), to));
            Compose(from, RootDelta(m, previous, tick, looping)) == Compose(end, rest)
  {
    hide Compose, Inverse, SampleSeconds, SampleLoops, Power, RootClip.PoseAt;
    var from := m.PoseAt(SampleSeconds(m, previous, looping));
    var to := m.PoseAt(SampleSeconds(m, tick.clock, looping));
    var loops := SampleLoops(m, previous, tick.advances, looping);
    var start, end := m.PoseAt(0.0), m.PoseAt(m.duration);
    var cycles, last := Power(Compose(Inverse(start), end), loops - 1), Compose(Inverse(start), to);
    var first := Compose(Inverse(from), end);
    ComposeAssoc(first, cycles, last);
    ComposeAssoc(from, first, Compose(cycles, last));
    FromThenDelta(from, end);
  }
}
