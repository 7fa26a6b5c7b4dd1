// Vectors, colours, ray distances and the numeric library the tracer calls.
// Components are exact reals: floating-point rounding is not modelled.

module Math3D {

  /** A point or direction in world space. */
  datatype Vec3 = Vec3(x: real, y: real, z: real)

  /** An RGB colour; components are not clamped. */
  datatype Color = Color(r: real, g: real, b: real)

  const Origin: Vec3 := Vec3(0.0, 0.0, 0.0)
  const Black: Color := Color(0.0, 0.0, 0.0)

  function Plus(u: Vec3, v: Vec3): Vec3 { Vec3(u.x + v.x, u.y + v.y, u.z + v.z) }
  function Times(k: real, v: Vec3): Vec3 { Vec3(k * v.x, k * v.y, k * v.z) }
  function Dot(u: Vec3, v: Vec3): real { u.x * v.x + u.y * v.y + u.z * v.z }

  function Add(c: Color, d: Color): Color { Color(c.r + d.r, c.g + d.g, c.b + d.b) }
  function Scale(k: real, c: Color): Color { Color(k * c.r, k * c.g, k * c.b) }
  /** Componentwise product, used to tint a colour by a light's intensity. */
  function Modulate(c: Color, d: Color): Color { Color(c.r * d.r, c.g * d.g, c.b * d.b) }

  /** `Math::max` on two scalars. */
  function Max(a: real, b: real): (m: real)
    ensures m >= a && m >= b && (m == a || m == b)
  {
    if a < b then b else a
  }

  /** A parametric hit distance as a float: finite or `Math::INF` (NaN is not modelled). */
  datatype Dist = Finite(value: real) | Infinity

  /** The float comparison `a < b` on hit distances. */
  predicate Less(a: Dist, b: Dist) {
    match (a, b)
    case (Finite(x), Finite(y)) => x < y
    case (Finite(_), Infinity) => true
    case (Infinity, _) => false
  }

  /** A 2D size, as the frame buffer's second constructor takes it. */
  datatype Vec2 = Vec2(x: real, y: real)

  datatype Option<T> = None | Some(value: T)

  /** A ray: origin and (normalised) direction. */
  datatype Ray = Ray(origin: Vec3, direction: Vec3)

  /**
   * The parts of the math library whose numerics are not modelled: each is
   * an arbitrary function supplied by the caller.
   *   normalize(v)      -- `Math::normalize`
   *   direction(a, b)   -- `Math::direction`, the unit vector from a towards b
   *   distance(a, b)    -- `Math::distance`
   *   pow(base, e)      -- `Math::pow`
   */
  datatype MathLib = MathLib(
    normalize: Vec3 -> Vec3,
    direction: (Vec3, Vec3) -> Vec3,
    distance: (Vec3, Vec3) -> real,
    pow: (real, real) -> real)
}
