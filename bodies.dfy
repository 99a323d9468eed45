/** Narrow phase: the point masses (MassPoint), the immovable rectangles
    (Wall), and what a time step, a particle-particle collision and a
    particle-wall collision do to them (PhySim/PhyObjects.py:6-167). */
module Bodies {
  import opened Vectors

  /** The value held by a MassPoint at one instant. */
  datatype Body = Body(r: Vec, v: Vec, a: Vec, m: real, q: real, radius: real)

  /** An immovable axis-aligned rectangle centred at `r`. */
  datatype Wall = Wall(r: Vec, width: real, height: real)

  /** Explicit Euler: the position moves with the velocity held before the
      step, and only then does the velocity take the acceleration. */
  function Advance(b: Body, dt: real): (res: Body)
    ensures res.a == b.a && res.m == b.m && res.q == b.q && res.radius == b.radius
  {
    b.(r := Add(b.r, Scale(dt, b.v)), v := Add(b.v, Scale(dt, b.a)))
  }

  // ---------------------------------------------------------------------
  // Particle against particle

  /** The overlap test of particle_collision, `sqrt(d.d) < reach`, written
      without a square root: a length is never negative, so it is below
      `reach` exactly when `reach` is positive and `d.d < reach * reach`. */
  predicate Overlapping(d: Vec, reach: real)
  {
    0.0 < reach && Dot(d, d) < reach * reach
  }

  predicate BodiesOverlap(b1: Body, b2: Body)
  {
    Overlapping(Sub(b2.r, b1.r), b1.radius + b2.radius)
  }

  /** particle_collision on values: `b1` is the caller, `b2` the argument
      and `u` the unit separation axis (the normalised offset from `b1` to
      `b2`, or a random unit vector when the centres coincide). */
  function Collide(b1: Body, b2: Body, u: Vec): (res: (Body, Body))
    requires BodiesOverlap(b1, b2) ==> b1.m + b2.m != 0.0
    ensures res.0.a == b1.a && res.0.m == b1.m && res.0.q == b1.q && res.0.radius == b1.radius
    ensures res.1.a == b2.a && res.1.m == b2.m && res.1.q == b2.q && res.1.radius == b2.radius
  {
    var d := Sub(b2.r, b1.r);
    if !Overlapping(d, b1.radius + b2.radius) then (b1, b2)
    else
      var midpoint := Add(Scale(0.5, d), b1.r);
      var c1 := (b1.m - b2.m) / (b1.m + b2.m);
      var c2 := 2.0 * b1.m / (b1.m + b2.m);
      var vr := Sub(b1.v, b2.v);
      (b1.(r := Sub(midpoint, Scale(b1.radius, u)), v := Add(Scale(c1, vr), b2.v)),
       b2.(r := Add(midpoint, Scale(b2.radius, u)), v := Add(Scale(c2, vr), b2.v)))
  }

  function Momentum(b: Body): Vec { Scale(b.m, b.v) }

  /** Twice the kinetic energy. */
  function TwiceKinetic(b: Body): real { b.m * Dot(b.v, b.v) }

  // ---------------------------------------------------------------------
  // Particle against wall

  /** How far the particle reaches past each edge of the wall: past the
      wall's left edge with its right side, past the right edge with its
      left side, and likewise on the vertical axis (y grows downwards). */
  datatype Penetration = Penetration(right: real, left: real, down: real, up: real)

  function WallPenetration(b: Body, w: Wall): Penetration
  {
    Penetration((b.r.x + b.radius) - (w.r.x - w.width / 2.0),
                (w.r.x + w.width / 2.0) - (b.r.x - b.radius),
                (b.r.y + b.radius) - (w.r.y - w.height / 2.0),
                (w.r.y + w.height / 2.0) - (b.r.y - b.radius))
  }

  function Min(a: real, b: real): real { if a <= b then a else b }

  /** A collision is registered only when the particle's box overlaps the
      wall strictly on both axes. */
  predicate Touches(b: Body, w: Wall)
  {
    var p := WallPenetration(b, w);
    0.0 < p.right && 0.0 < p.left && 0.0 < p.down && 0.0 < p.up
  }

  function XDepth(b: Body, w: Wall): real
  {
    Min(WallPenetration(b, w).right, WallPenetration(b, w).left)
  }

  function YDepth(b: Body, w: Wall): real
  {
    Min(WallPenetration(b, w).down, WallPenetration(b, w).up)
  }

  /** The vertical axis is resolved when it is penetrated no deeper than the horizontal one. */
  predicate ResolvesY(b: Body, w: Wall) { Touches(b, w) && XDepth(b, w) >= YDepth(b, w) }

  /** The horizontal axis is resolved when it is penetrated no deeper than the vertical one. */
  predicate ResolvesX(b: Body, w: Wall) { Touches(b, w) && XDepth(b, w) <= YDepth(b, w) }

  /** wall_collision divides the centre offset by its absolute value on each
      resolved axis; it is only defined when that offset is not zero. */
  predicate WallResolvable(b: Body, w: Wall)
  {
    (ResolvesY(b, w) ==> b.r.y != w.r.y) && (ResolvesX(b, w) ==> b.r.x != w.r.x)
  }

  /** `d / abs(d)` */
  function Side(d: real): real
    requires d != 0.0
  {
    if 0.0 < d then 1.0 else -1.0
  }

  /** wall_collision on values. Both tests use the depths measured before
      either axis is moved, so a tie resolves both axes. */
  function WallHit(b: Body, w: Wall): (res: Body)
    requires WallResolvable(b, w)
    ensures res.a == b.a && res.m == b.m && res.q == b.q && res.radius == b.radius
  {
    var afterY :=
      if ResolvesY(b, w) then
        var d := Side(b.r.y - w.r.y);
        b.(r := Vec(b.r.x, w.r.y + d * w.height / 2.0 + d * b.radius), v := Vec(b.v.x, -b.v.y))
      else b;
    if ResolvesX(b, w) then
      var d := Side(b.r.x - w.r.x);
      afterY.(r := Vec(w.r.x + d * w.width / 2.0 + d * b.radius, afterY.r.y), v := Vec(-afterY.v.x, afterY.v.y))
    else afterY
  }

  // ---------------------------------------------------------------------
  // The mutable particle

  class MassPoint {
    var r: Vec
    var v: Vec
    // No operation of the simulator writes these four.
    const a: Vec
    const m: real
    const q: real
    const radius: real

    function State(): Body
      reads this
    {
      Body(r, v, a, m, q, radius)
    }

    constructor (r0: Vec, v0: Vec, m: real, a0: Vec := Zero, q: real := 0.0, radius: real := 1.0)
      ensures State() == Body(r0, v0, a0, m, q, radius)
    {
      r := r0;
      v := v0;
      this.m := m;
      a := a0;
      this.q := q;
      this.radius := radius;
    }

    method Update(dt: real)
      modifies this
      ensures State() == Advance(old(State()), dt)
    {
      r := Add(r, Scale(dt, v));
      v := Add(v, Scale(dt, a));
    }

    method WallCollision(wall: Wall)
      requires WallResolvable(State(), wall)
      modifies this
      ensures State() == WallHit(old(State()), wall)
    {
      ghost var b := State();
      var pL := r.x - radius;
      var pR := r.x + radius;
      var pU := r.y - radius;
      var pD := r.y + radius;

      var wL := wall.r.x - wall.width / 2.0;
      var wR := wall.r.x + wall.width / 2.0;
      var wU := wall.r.y - wall.height / 2.0;
      var wD := wall.r.y + wall.height / 2.0;

      var rOverlap := pR - wL;
      var lOverlap := wR - pL;
      var dOverlap := pD - wU;
      var uOverlap := wD - pU;

      var xCollision := 0.0 < rOverlap && 0.0 < lOverlap;
      var yCollision := 0.0 < dOverlap && 0.0 < uOverlap;
      assert WallPenetration(b, wall) == Penetration(rOverlap, lOverlap, dOverlap, uOverlap);

      if yCollision && xCollision {
        if Min(rOverlap, lOverlap) >= Min(dOverlap, uOverlap) {
          var d := r.y - wall.r.y;
          DirectionOfOffset(d);
          d := d / Abs(d);
          r := Vec(r.x, wall.r.y + d * wall.height / 2.0 + d * radius);
          v := Vec(v.x, -v.y);
        }
        if Min(rOverlap, lOverlap) <= Min(dOverlap, uOverlap) {
          var d := r.x - wall.r.x;
          DirectionOfOffset(d);
          d := d / Abs(d);
          r := Vec(wall.r.x + d * wall.width / 2.0 + d * radius, r.y);
          v := Vec(-v.x, v.y);
        }
      }
    }

    method ParticleCollision(p2: MassPoint, u: Vec)
      requires p2 != this
      requires BodiesOverlap(State(), p2.State()) ==> m + p2.m != 0.0
      modifies this, p2
      ensures (State(), p2.State()) == Collide(old(State()), old(p2.State()), u)
    {
      var d := Sub(p2.r, r);
      if Overlapping(d, radius + p2.radius) {
        // u stands for d / |d|, or for the random unit vector drawn when |d| == 0
        var midpoint := Add(Scale(0.5, d), r);
        r := Sub(midpoint, Scale(radius, u));
        p2.r := Add(midpoint, Scale(p2.radius, u));

        var c1 := (m - p2.m) / (m + p2.m);
        var c2 := 2.0 * m / (m + p2.m);
        var vr := Sub(v, p2.v);
        v := Add(Scale(c1, vr), p2.v);
        p2.v := Add(Scale(c2, vr), p2.v);
      }
    }
  }

  function Abs(x: real): real { if x < 0.0 then -x else x }

  lemma DirectionOfOffset(d: real)
    requires d != 0.0
    ensures d / Abs(d) == Side(d)
  {
    if 0.0 < d {
      assert d / d == 1.0;
    } else {
      assert d / -d == -1.0;
    }
  }
}
