/** Plane vectors: the model of the length-2 numpy arrays that hold positions,
    velocities and accelerations. */
module Vectors {

  datatype Vec = Vec(x: real, y: real)

  const Zero: Vec := Vec(0.0, 0.0)

  function Add(a: Vec, b: Vec): Vec { Vec(a.x + b.x, a.y + b.y) }

  function Sub(a: Vec, b: Vec): Vec { Vec(a.x - b.x, a.y - b.y) }

  function Scale(k: real, a: Vec): Vec { Vec(k * a.x, k * a.y) }

  function Dot(a: Vec, b: Vec): real { a.x * b.x + a.y * b.y }

  function Cross(a: Vec, b: Vec): real { a.x * b.y - a.y * b.x }

  /** `u` is the unit separation axis for the offset `d`: the unit vector
      pointing along `d`, or (when `d` is zero) any unit vector at all. */
  predicate IsAxis(d: Vec, u: Vec)
  {
    Dot(u, u) == 1.0 && (d != Zero ==> Cross(d, u) == 0.0 && 0.0 < Dot(d, u))
  }

  /** An axis of a non-zero offset is that offset divided by its length:
      `d` is `u` stretched by the positive factor `Dot(d, u)`, and that factor
      squared is the squared length of `d`. */
  lemma AxisIsNormalisedOffset(d: Vec, u: Vec)
    requires IsAxis(d, u)
    ensures d == Scale(Dot(d, u), u)
    ensures Dot(d, u) * Dot(d, u) == Dot(d, d)
  {
    var k := Dot(d, u);
    if d == Zero {
      assert k == 0.0;
    } else {
      assert d.x * u.y == d.y * u.x;
      calc {
        k * u.x;
        d.x * u.x * u.x + d.y * u.y * u.x;
        d.x * u.x * u.x + d.x * u.y * u.y;
        d.x * (u.x * u.x + u.y * u.y);
        d.x;
      }
      calc {
        k * u.y;
        d.x * u.x * u.y + d.y * u.y * u.y;
        d.y * u.x * u.x + d.y * u.y * u.y;
        d.y * (u.x * u.x + u.y * u.y);
        d.y;
      }
      calc {
        k * k;
        k * (d.x * u.x + d.y * u.y);
        (k * u.x) * d.x + (k * u.y) * d.y;
        d.x * d.x + d.y * d.y;
      }
    }
  }
}
