/** What the narrow phase promises: the laws of a time step, of the elastic
    particle-particle response and of the wall response. */
module CollisionLaws {
  import opened Vectors
  import opened Bodies

  // ---------------------------------------------------------------------
  // update

  /** A zero time step changes nothing. */
  lemma AdvanceByZero(b: Body)
    ensures Advance(b, 0.0) == b
  {
  }

  /** A step back after a step forward returns the velocity exactly, and the
      position up to `dt*dt*a` (the error of explicit Euler); with no
      acceleration the motion is reversed exactly. */
  lemma AdvanceThenRetreat(b: Body, dt: real)
    ensures Advance(Advance(b, dt), -dt).v == b.v
    ensures Advance(Advance(b, dt), -dt).r == Sub(b.r, Scale(dt * dt, b.a))
    ensures b.a == Zero ==> Advance(Advance(b, dt), -dt) == b
  {
    var b1 := Advance(b, dt);
    assert b1.r.x + -dt * b1.v.x == b.r.x - dt * dt * b.a.x;
    assert b1.r.y + -dt * b1.v.y == b.r.y - dt * dt * b.a.y;
  }

  // ---------------------------------------------------------------------
  // particle_collision: geometry

  /** Bodies that do not overlap are left exactly as they are. */
  lemma CollideApart(b1: Body, b2: Body, u: Vec)
    requires !BodiesOverlap(b1, b2)
    ensures Collide(b1, b2, u) == (b1, b2)
  {
  }

  /** After an overlap the bodies sit exactly one radius sum apart along the
      unit axis, so they end touching. */
  lemma CollideLeavesTouching(b1: Body, b2: Body, u: Vec)
    requires BodiesOverlap(b1, b2) && b1.m + b2.m != 0.0
    requires Dot(u, u) == 1.0
    ensures Sub(Collide(b1, b2, u).1.r, Collide(b1, b2, u).0.r) == Scale(b1.radius + b2.radius, u)
    ensures Dot(Sub(Collide(b1, b2, u).1.r, Collide(b1, b2, u).0.r), Sub(Collide(b1, b2, u).1.r, Collide(b1, b2, u).0.r))
            == (b1.radius + b2.radius) * (b1.radius + b2.radius)
  {
    var R := b1.radius + b2.radius;
    var e := Sub(Collide(b1, b2, u).1.r, Collide(b1, b2, u).0.r);
    assert e == Scale(R, u);
    calc {
      Dot(e, e);
      R * u.x * (R * u.x) + R * u.y * (R * u.y);
      R * R * (u.x * u.x + u.y * u.y);
      R * R;
    }
  }

  /** De-penetration pivots about the midpoint of the old centres: it lies one
      radius from each new centre along the axis. With equal radii the
      midpoint of the centres is unchanged. */
  lemma CollideKeepsMidpoint(b1: Body, b2: Body, u: Vec)
    requires BodiesOverlap(b1, b2) && b1.m + b2.m != 0.0
    ensures Add(Collide(b1, b2, u).0.r, Scale(b1.radius, u)) == Scale(0.5, Add(b1.r, b2.r))
    ensures Sub(Collide(b1, b2, u).1.r, Scale(b2.radius, u)) == Scale(0.5, Add(b1.r, b2.r))
    ensures b1.radius == b2.radius ==> Add(Collide(b1, b2, u).0.r, Collide(b1, b2, u).1.r) == Add(b1.r, b2.r)
  {
  }

  /** Resolving an overlap with the true axis pushes the bodies apart along
      the line of centres: the new offset points the same way as the old. */
  lemma CollideSeparatesAlongOffset(b1: Body, b2: Body, u: Vec)
    requires BodiesOverlap(b1, b2) && b1.m + b2.m != 0.0
    requires IsAxis(Sub(b2.r, b1.r), u) && b1.r != b2.r
    ensures 0.0 < Dot(Sub(Collide(b1, b2, u).1.r, Collide(b1, b2, u).0.r), Sub(b2.r, b1.r))
  {
    var d := Sub(b2.r, b1.r);
    var R := b1.radius + b2.radius;
    assert d != Zero;
    CollideLeavesTouching(b1, b2, u);
    assert Dot(Scale(R, u), d) == R * Dot(d, u);
  }

  // ---------------------------------------------------------------------
  // particle_collision: velocities

  /** The one-dimensional elastic formulas on one velocity component. */
  lemma ElasticComponent(m1: real, m2: real, a: real, b: real)
    requires m1 + m2 != 0.0
    ensures var c1 := (m1 - m2) / (m1 + m2);
            var c2 := 2.0 * m1 / (m1 + m2);
            var a' := c1 * (a - b) + b;
            var b' := c2 * (a - b) + b;
            && m1 * a' + m2 * b' == m1 * a + m2 * b
            && m1 * a' * a' + m2 * b' * b' == m1 * a * a + m2 * b * b
  {
    var M := m1 + m2;
    var k := (a - b) / M;
    var c1 := (m1 - m2) / M;
    var c2 := 2.0 * m1 / M;
    assert k * M == a - b;
    var a' := c1 * (a - b) + b;
    var b' := c2 * (a - b) + b;
    assert c1 * (a - b) == (m1 - m2) * k;
    assert c2 * (a - b) == 2.0 * m1 * k;
    assert a' == a - 2.0 * m2 * k;
    assert b' == b + 2.0 * m1 * k;
    calc {
      m1 * a' * a' + m2 * b' * b';
      m1 * (a - 2.0 * m2 * k) * (a - 2.0 * m2 * k) + m2 * (b + 2.0 * m1 * k) * (b + 2.0 * m1 * k);
      m1 * a * a + m2 * b * b - 4.0 * m1 * m2 * k * (a - b) + 4.0 * m1 * m2 * k * (k * M);
      m1 * a * a + m2 * b * b;
    }
  }

  /** The total momentum of the pair is conserved. */
  lemma CollideConservesMomentum(b1: Body, b2: Body, u: Vec)
    requires BodiesOverlap(b1, b2) ==> b1.m + b2.m != 0.0
    ensures Add(Momentum(Collide(b1, b2, u).0), Momentum(Collide(b1, b2, u).1)) == Add(Momentum(b1), Momentum(b2))
  {
    if BodiesOverlap(b1, b2) {
      ElasticComponent(b1.m, b2.m, b1.v.x, b2.v.x);
      ElasticComponent(b1.m, b2.m, b1.v.y, b2.v.y);
    }
  }

  /** Twice the kinetic energy is the sum of its two axis parts. */
  lemma TwiceKineticSplit(b: Body)
    ensures TwiceKinetic(b) == b.m * b.v.x * b.v.x + b.m * b.v.y * b.v.y
  {
    assert b.m * (b.v.x * b.v.x + b.v.y * b.v.y) == b.m * (b.v.x * b.v.x) + b.m * (b.v.y * b.v.y);
  }

  /** The collision is elastic: the total kinetic energy is conserved. */
  lemma CollideConservesEnergy(b1: Body, b2: Body, u: Vec)
    requires BodiesOverlap(b1, b2) ==> b1.m + b2.m != 0.0
    ensures TwiceKinetic(Collide(b1, b2, u).0) + TwiceKinetic(Collide(b1, b2, u).1) == TwiceKinetic(b1) + TwiceKinetic(b2)
  {
    if BodiesOverlap(b1, b2) {
      var n1 := Collide(b1, b2, u).0;
      var n2 := Collide(b1, b2, u).1;
      var m1, m2 := b1.m, b2.m;
      var c1 := (m1 - m2) / (m1 + m2);
      var c2 := 2.0 * m1 / (m1 + m2);
      assert n1.v == Vec(c1 * (b1.v.x - b2.v.x) + b2.v.x, c1 * (b1.v.y - b2.v.y) + b2.v.y);
      assert n2.v == Vec(c2 * (b1.v.x - b2.v.x) + b2.v.x, c2 * (b1.v.y - b2.v.y) + b2.v.y);
      ElasticComponent(m1, m2, b1.v.x, b2.v.x);
      ElasticComponent(m1, m2, b1.v.y, b2.v.y);
      var ex := m1 * n1.v.x * n1.v.x + m2 * n2.v.x * n2.v.x;
      var ey := m1 * n1.v.y * n1.v.y + m2 * n2.v.y * n2.v.y;
      assert ex == m1 * b1.v.x * b1.v.x + m2 * b2.v.x * b2.v.x;
      assert ey == m1 * b1.v.y * b1.v.y + m2 * b2.v.y * b2.v.y;
      TwiceKineticSplit(n1);
      TwiceKineticSplit(n2);
      TwiceKineticSplit(b1);
      TwiceKineticSplit(b2);
    }
  }

  /** Overlapping bodies of equal mass exchange their velocities. */
  lemma CollideEqualMassesSwap(b1: Body, b2: Body, u: Vec)
    requires BodiesOverlap(b1, b2) && b1.m == b2.m && b1.m != 0.0
    ensures Collide(b1, b2, u).0.v == b2.v && Collide(b1, b2, u).1.v == b1.v
  {
    var M := b1.m + b2.m;
    assert (b1.m - b2.m) / M == 0.0;
    assert 2.0 * b1.m / M == 1.0;
  }

  // ---------------------------------------------------------------------
  // wall_collision

  /** A particle that does not overlap the wall on both axes is untouched. */
  lemma WallHitMisses(b: Body, w: Wall)
    requires !Touches(b, w)
    ensures WallHit(b, w) == b
  {
  }

  /** The least penetrated axis is resolved (both on a tie). On a resolved
      axis the centre is put on its own side of the wall, half the wall plus
      the radius from the wall's centre, and that velocity component is
      negated; the other axis, mass, radius, charge and acceleration are kept. */
  lemma WallHitResolvesLeastPenetration(b: Body, w: Wall)
    requires Touches(b, w) && WallResolvable(b, w)
    ensures var n := WallHit(b, w);
      && n.a == b.a && n.m == b.m && n.q == b.q && n.radius == b.radius
      && (YDepth(b, w) <= XDepth(b, w) ==>
            n.r.y - w.r.y == Side(b.r.y - w.r.y) * (w.height / 2.0 + b.radius) && n.v.y == -b.v.y)
      && (YDepth(b, w) > XDepth(b, w) ==> n.r.y == b.r.y && n.v.y == b.v.y)
      && (XDepth(b, w) <= YDepth(b, w) ==>
            n.r.x - w.r.x == Side(b.r.x - w.r.x) * (w.width / 2.0 + b.radius) && n.v.x == -b.v.x)
      && (XDepth(b, w) > YDepth(b, w) ==> n.r.x == b.r.x && n.v.x == b.v.x)
  {
  }

  /** A wall collision removes the overlap: afterwards the particle no longer
      overlaps the wall on both axes. */
  lemma WallHitClearsOverlap(b: Body, w: Wall)
    requires WallResolvable(b, w)
    ensures !Touches(WallHit(b, w), w)
  {
    var n := WallHit(b, w);
    if Touches(b, w) {
      WallHitResolvesLeastPenetration(b, w);
      var p := WallPenetration(n, w);
      if YDepth(b, w) <= XDepth(b, w) {
        if 0.0 < b.r.y - w.r.y {
          assert p.up == 0.0;
        } else {
          assert p.down == 0.0;
        }
      } else {
        if 0.0 < b.r.x - w.r.x {
          assert p.left == 0.0;
        } else {
          assert p.right == 0.0;
        }
      }
    }
  }

  /** A wall bounce keeps the speed. */
  lemma WallHitKeepsSpeed(b: Body, w: Wall)
    requires WallResolvable(b, w)
    ensures Dot(WallHit(b, w).v, WallHit(b, w).v) == Dot(b.v, b.v)
  {
  }
}
