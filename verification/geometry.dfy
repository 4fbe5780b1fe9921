/**
 * Exact-real stand-ins for the engine's vector types.
 *
 * A face's square lives in a plane given by an origin and two axis vectors
 * (`left`, `forward`); points of the square are kept in the plane's local
 * coordinates (`Point2`) and mapped to world space by `Embed`.
 */
module Geometry {
  datatype Vec3 = Vec3(x: real, y: real, z: real)

  /** Local (left, forward) coordinates of a point in a face's plane. */
  datatype Point2 = Point2(u: real, v: real)

  function Add(a: Vec3, b: Vec3): Vec3 {
    Vec3(a.x + b.x, a.y + b.y, a.z + b.z)
  }

  function Sub(a: Vec3, b: Vec3): Vec3 {
    Vec3(a.x - b.x, a.y - b.y, a.z - b.z)
  }

  function Scale(a: Vec3, k: real): Vec3 {
    Vec3(a.x * k, a.y * k, a.z * k)
  }

  /** Coordinate k of a: 0 is x, 1 is y, 2 is z. */
  function Coord(a: Vec3, k: int): real {
    if k == 0 then a.x else if k == 1 then a.y else a.z
  }

  /** The world point `origin + left * p.u + forward * p.v`. */
  function Embed(origin: Vec3, left: Vec3, forward: Vec3, p: Point2): Vec3 {
    Add(origin, Add(Scale(left, p.u), Scale(forward, p.v)))
  }

  /** One of the six unit vectors along a world axis. */
  predicate IsUnitAxis(a: Vec3) {
    ((a.x == 1.0 || a.x == -1.0) && a.y == 0.0 && a.z == 0.0) ||
    (a.x == 0.0 && (a.y == 1.0 || a.y == -1.0) && a.z == 0.0) ||
    (a.x == 0.0 && a.y == 0.0 && (a.z == 1.0 || a.z == -1.0))
  }

  /**
   * The world axis a unit axis vector points along. Two unit axis vectors are
   * orthogonal exactly when they point along different axes.
   */
  function AxisOf(a: Vec3): (k: int)
    requires IsUnitAxis(a)
    ensures 0 <= k < 3 && (Coord(a, k) == 1.0 || Coord(a, k) == -1.0)
    ensures forall j :: 0 <= j < 3 && j != k ==> Coord(a, j) == 0.0
  {
    if a.x != 0.0 then 0 else if a.y != 0.0 then 1 else 2
  }

  /** a lies on world axis k at distance d from the centre. */
  predicate OnAxisAt(a: Vec3, k: int, d: real) {
    0 <= k < 3 && (Coord(a, k) == d || Coord(a, k) == -d) &&
    forall j :: 0 <= j < 3 && j != k ==> Coord(a, j) == 0.0
  }

  /**
   * Initialize's centring, done on world vectors, is the shift of the local
   * point by (-s/2, -s/2).
   */
  lemma CentreInPlane(origin: Vec3, left: Vec3, forward: Vec3, p: Point2, s: real)
    ensures Sub(Sub(Embed(origin, left, forward, p), Scale(left, s / 2.0)), Scale(forward, s / 2.0))
         == Embed(origin, left, forward, Point2(p.u - s / 2.0, p.v - s / 2.0))
  {
    var h := s / 2.0;
    var shifted := Sub(Sub(Embed(origin, left, forward, p), Scale(left, h)), Scale(forward, h));
    var moved := Embed(origin, left, forward, Point2(p.u - h, p.v - h));
    ShiftCoord(origin.x, left.x, forward.x, p.u, p.v, h);
    assert shifted.x == moved.x;
    ShiftCoord(origin.y, left.y, forward.y, p.u, p.v, h);
    assert shifted.y == moved.y;
    ShiftCoord(origin.z, left.z, forward.z, p.u, p.v, h);
    assert shifted.z == moved.z;
  }

  /** One coordinate of CentreInPlane. */
  lemma ShiftCoord(o: real, l: real, f: real, u: real, v: real, h: real)
    ensures o + (l * u + f * v) - l * h - f * h == o + (l * (u - h) + f * (v - h))
  {
    assert l * (u - h) == l * u - l * h;
    assert f * (v - h) == f * v - f * h;
  }

  /**
   * Generate's vertex `position + left * px * scale + forward * pz * scale`
   * is the local point at offset (px * scale, pz * scale) from the anchor.
   */
  lemma OffsetInPlane(origin: Vec3, left: Vec3, forward: Vec3, p: Point2, px: real, pz: real, scale: real)
    ensures Add(Add(Embed(origin, left, forward, p), Scale(Scale(left, px), scale)), Scale(Scale(forward, pz), scale))
         == Embed(origin, left, forward, Point2(p.u + px * scale, p.v + pz * scale))
  {
    var summed := Add(Add(Embed(origin, left, forward, p), Scale(Scale(left, px), scale)), Scale(Scale(forward, pz), scale));
    var moved := Embed(origin, left, forward, Point2(p.u + px * scale, p.v + pz * scale));
    OffsetCoord(origin.x, left.x, forward.x, p.u, p.v, px, pz, scale);
    assert summed.x == moved.x;
    OffsetCoord(origin.y, left.y, forward.y, p.u, p.v, px, pz, scale);
    assert summed.y == moved.y;
    OffsetCoord(origin.z, left.z, forward.z, p.u, p.v, px, pz, scale);
    assert summed.z == moved.z;
  }

  /** One coordinate of OffsetInPlane. */
  lemma OffsetCoord(o: real, l: real, f: real, u: real, v: real, px: real, pz: real, s: real)
    ensures o + (l * u + f * v) + l * px * s + f * pz * s == o + (l * (u + px * s) + f * (v + pz * s))
  {
    assert l * (u + px * s) == l * u + l * (px * s);
    assert f * (v + pz * s) == f * v + f * (pz * s);
  }
}
