/** The position interpolator of a dragged box (src/App.js, the useFrame
    callback of DraggableBox): each frame the kinematic translation keeps its
    height and moves a fifth of the way toward the projected pointer on the
    horizontal axes. Arithmetic is over `real`, an idealisation of the
    floating-point lerp. */
module Motion {

  datatype Option<T> = None | Some(value: T)

  datatype Vec3 = Vec3(x: real, y: real, z: real)

  /** The smoothing factor passed to lerp on every frame. */
  const Alpha: real := 0.2

  /** What is left of the distance to the target after one frame. */
  const Decay: real := 0.8

  function Abs(v: real): (a: real)
    ensures a >= 0.0 && (a == v || a == -v)
  {
    if v < 0.0 then -v else v
  }

  /** THREE.MathUtils.lerp(a, b, t): the point a fraction t of the way from a to b. */
  function Lerp(a: real, b: real, t: real): (r: real)
    ensures r - b == (1.0 - t) * (a - b)
  {
    (1.0 - t) * a + t * b
  }

  /** `v` lies on the closed segment between `a` and `b`. */
  predicate Between(a: real, v: real, b: real)
  {
    (a <= b && a <= v <= b) || (b <= a && b <= v <= a)
  }

  /** The translation one frame writes for a box at `cur` while the pointer
      projects to `target`. */
  function DragStep(cur: Vec3, target: Vec3): (next: Vec3)
    ensures next.y == cur.y
    ensures next.x - target.x == Decay * (cur.x - target.x)
    ensures next.z - target.z == Decay * (cur.z - target.z)
  {
    Vec3(Lerp(cur.x, target.x, Alpha), cur.y, Lerp(cur.z, target.z, Alpha))
  }

  /** One frame never overshoots the target, never increases the distance to
      it on either horizontal axis, and strictly decreases it on every axis
      where the box is not already over the target. */
  lemma StepContracts(cur: Vec3, target: Vec3)
    ensures Between(cur.x, DragStep(cur, target).x, target.x)
    ensures Between(cur.z, DragStep(cur, target).z, target.z)
    ensures Abs(DragStep(cur, target).x - target.x) == Decay * Abs(cur.x - target.x)
    ensures Abs(DragStep(cur, target).z - target.z) == Decay * Abs(cur.z - target.z)
    ensures cur.x != target.x ==> Abs(DragStep(cur, target).x - target.x) < Abs(cur.x - target.x)
    ensures cur.z != target.z ==> Abs(DragStep(cur, target).z - target.z) < Abs(cur.z - target.z)
  {
    var next := DragStep(cur, target);
    AxisContracts(cur.x, next.x, target.x);
    AxisContracts(cur.z, next.z, target.z);
  }

  lemma AxisContracts(c: real, n: real, t: real)
    requires n - t == Decay * (c - t)
    ensures Between(c, n, t)
    ensures Abs(n - t) == Decay * Abs(c - t)
    ensures c != t ==> Abs(n - t) < Abs(c - t)
  {
  }

  /** `n` successive steps toward a fixed target, each starting from the
      translation the previous one wrote. */
  function Frames(cur: Vec3, target: Vec3, n: nat): Vec3
    decreases n
  {
    if n == 0 then cur else Frames(DragStep(cur, target), target, n - 1)
  }

  function Pow(b: real, n: nat): real
  {
    if n == 0 then 1.0 else b * Pow(b, n - 1)
  }

  /** 0.8^n is positive, at most 1, and bounded by 1 / (1 + n/4) (Bernoulli's
      inequality for 1.25^n), so it tends to zero. */
  lemma {:induction false} DecayBound(n: nat)
    ensures 0.0 < Pow(Decay, n) <= 1.0
    ensures Pow(Decay, n) * (1.0 + 0.25 * n as real) <= 1.0
  {
    if n > 0 {
      DecayBound(n - 1);
      var p := Pow(Decay, n - 1);
      var m := (n - 1) as real;
      assert Pow(Decay, n) == 0.8 * p;
      assert p * (1.0 + 0.25 * m) <= 1.0;
      calc {
        Pow(Decay, n) * (1.0 + 0.25 * n as real);
        0.8 * p * (1.0 + 0.25 * m + 0.25);
        0.8 * (p * (1.0 + 0.25 * m)) + 0.2 * p;
      <= 0.8 * 1.0 + 0.2 * p;
      <= 1.0;
      }
    }
  }

  /** After `n` successive steps toward a fixed target the height is unchanged and each
      horizontal offset from the target has shrunk by exactly 0.8^n. */
  lemma {:induction false} FramesOffset(cur: Vec3, target: Vec3, n: nat)
    ensures Frames(cur, target, n).y == cur.y
    ensures Frames(cur, target, n).x - target.x == Pow(Decay, n) * (cur.x - target.x)
    ensures Frames(cur, target, n).z - target.z == Pow(Decay, n) * (cur.z - target.z)
    decreases n
  {
    if n > 0 {
      var next := DragStep(cur, target);
      FramesOffset(next, target, n - 1);
      assert Frames(cur, target, n) == Frames(next, target, n - 1);
      assert Pow(Decay, n - 1) * (Decay * (cur.x - target.x)) == Pow(Decay, n) * (cur.x - target.x);
      assert Pow(Decay, n - 1) * (Decay * (cur.z - target.z)) == Pow(Decay, n) * (cur.z - target.z);
    }
  }

  /** Convergence: after `n` successive steps each horizontal offset is at most the
      initial one divided by 1 + n/4, and never changes sign (no overshoot). */
  lemma FramesConverge(cur: Vec3, target: Vec3, n: nat)
    ensures Frames(cur, target, n).y == cur.y
    ensures Abs(Frames(cur, target, n).x - target.x) * (1.0 + 0.25 * n as real) <= Abs(cur.x - target.x)
    ensures Abs(Frames(cur, target, n).z - target.z) * (1.0 + 0.25 * n as real) <= Abs(cur.z - target.z)
    ensures Between(cur.x, Frames(cur, target, n).x, target.x)
    ensures Between(cur.z, Frames(cur, target, n).z, target.z)
  {
    FramesOffset(cur, target, n);
    var last := Frames(cur, target, n);
    AxisConverges(cur.x, last.x, target.x, n);
    AxisConverges(cur.z, last.z, target.z, n);
  }

  lemma AxisConverges(c: real, f: real, t: real, n: nat)
    requires f - t == Pow(Decay, n) * (c - t)
    ensures Abs(f - t) * (1.0 + 0.25 * n as real) <= Abs(c - t)
    ensures Between(c, f, t)
  {
    DecayBound(n);
    OffsetBound(f, c, t, Pow(Decay, n), 1.0 + 0.25 * n as real);
  }

  lemma OffsetBound(f: real, c: real, t: real, p: real, k: real)
    requires f - t == p * (c - t)
    requires 0.0 < p <= 1.0 && p * k <= 1.0 && k >= 1.0
    ensures Abs(f - t) * k <= Abs(c - t)
    ensures Between(c, f, t)
  {
    var d := c - t;
    assert Abs(f - t) == p * Abs(d);
    assert p * Abs(d) * k == (p * k) * Abs(d);
    assert (p * k) * Abs(d) <= Abs(d);
    assert (p * d) * d == p * (d * d);
    if d >= 0.0 {
      assert 0.0 <= p * d <= d;
    } else {
      assert d <= p * d <= 0.0;
    }
  }

  /** For every tolerance there is a number of successive steps after which the box is
      within that tolerance of the target on both horizontal axes. */
  lemma FramesReach(cur: Vec3, target: Vec3, eps: real) returns (n: nat)
    requires eps > 0.0
    ensures Abs(Frames(cur, target, n).x - target.x) <= eps
    ensures Abs(Frames(cur, target, n).z - target.z) <= eps
  {
    var d := Abs(cur.x - target.x) + Abs(cur.z - target.z);
    n := EnoughFrames(d, eps);
    var k := 1.0 + 0.25 * n as real;
    FramesConverge(cur, target, n);
    var last := Frames(cur, target, n);
    WithinTolerance(Abs(last.x - target.x), k, Abs(cur.x - target.x), d, eps);
    WithinTolerance(Abs(last.z - target.z), k, Abs(cur.z - target.z), d, eps);
  }

  /** A frame count whose bound 1 / (1 + n/4) shrinks an offset of `d` below `eps`. */
  lemma EnoughFrames(d: real, eps: real) returns (n: nat)
    requires d >= 0.0 && eps > 0.0
    ensures d <= (1.0 + 0.25 * n as real) * eps
  {
    var q := d / eps;
    n := (4.0 * q).Floor + 1;
    assert 0.25 * n as real >= q;
    assert q * eps == d;
    assert (0.25 * n as real) * eps >= q * eps;
  }

  lemma WithinTolerance(a: real, k: real, a0: real, d: real, eps: real)
    requires a >= 0.0 && k >= 1.0 && eps > 0.0
    requires a * k <= a0 && a0 <= d && d <= k * eps
    ensures a <= eps
  {
  }
}
