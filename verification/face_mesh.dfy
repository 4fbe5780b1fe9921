/**
 * The buffers a face's `Generate` builds: a (size+1) x (size+1) grid of
 * vertices and uvs stored row by row, and six triangle indices per grid cell.
 * Everything here is integer index arithmetic over the grid, plus the exact
 * local position of each grid point.
 */
module FaceMesh {
  import opened Geometry

  /** The three buffers handed to the engine's mesh. */
  datatype Mesh = Mesh(vertices: seq<Vec3>, uv: seq<Point2>, triangles: seq<int>)

  /** Number of grid points of a face with `size` cells per side. */
  function VertexCount(size: nat): nat {
    (size + 1) * (size + 1)
  }

  /** Number of triangle indices: two triangles per cell. */
  function IndexCount(size: nat): nat {
    size * size * 6
  }

  /** Buffer slot of grid point (x, z): rows of size+1 points, z-major. */
  function GridIndex(size: nat, x: int, z: int): int {
    z * (size + 1) + x
  }

  /** Local position of grid point (x, z) of a face whose corner anchor is `corner`. */
  function GridPoint(corner: Point2, scale: real, size: nat, x: int, z: int): Point2
    requires size > 0
  {
    var px := x as real / size as real;
    var pz := z as real / size as real;
    Point2(corner.u + px * scale, corner.v + pz * scale)
  }

  /** Texture coordinate of grid point (x, z). */
  function UvPoint(size: nat, x: int, z: int): Point2
    requires size > 0
  {
    var uvFactor := 1.0 / size as real;
    Point2(x as real * uvFactor, z as real * uvFactor)
  }

  /** The vertex buffer of a face: grid point i sits in column i % (size+1) of row i / (size+1). */
  function GridVertices(origin: Vec3, left: Vec3, forward: Vec3, corner: Point2, scale: real, size: nat): seq<Vec3>
    requires size > 0
  {
    seq(VertexCount(size), i requires 0 <= i < VertexCount(size) =>
      Embed(origin, left, forward, GridPoint(corner, scale, size, i % (size + 1), i / (size + 1))))
  }

  /** The uv buffer, laid out like the vertex buffer. */
  function GridUvs(size: nat): seq<Point2>
    requires size > 0
  {
    seq(VertexCount(size), i requires 0 <= i < VertexCount(size) =>
      UvPoint(size, i % (size + 1), i / (size + 1)))
  }

  /** Position of cell (x, y) among the size * size cells, row by row. */
  function CellIndex(size: nat, x: int, y: int): int {
    y * size + x
  }

  /** Offset from a cell's base vertex of index slot j (0..5) of that cell. */
  function SlotOffset(size: nat, j: int): int {
    if j == 0 then 0
    else if j == 1 || j == 4 then size + 1
    else if j == 2 || j == 3 then 1
    else size + 2
  }

  /** Triangle index slot k: slot k % 6 of cell k / 6, cells numbered row by row. */
  function TriangleSlot(size: nat, k: int): int
    requires size > 0
  {
    GridIndex(size, (k / 6) % size, (k / 6) / size) + SlotOffset(size, k % 6)
  }

  /** The triangle index buffer. */
  function Triangles(size: nat): seq<int>
    requires size > 0
  {
    seq(IndexCount(size), k requires 0 <= k < IndexCount(size) => TriangleSlot(size, k))
  }

  /** The whole mesh a first `Generate` builds for a face. */
  function GridMesh(origin: Vec3, left: Vec3, forward: Vec3, corner: Point2, scale: real, size: nat): (m: Mesh)
    requires size > 0
    ensures |m.vertices| == VertexCount(size) && |m.uv| == VertexCount(size)
    ensures |m.triangles| == IndexCount(size)
  {
    Mesh(GridVertices(origin, left, forward, corner, scale, size), GridUvs(size), Triangles(size))
  }

  // ---------------------------------------------------------------------------
  // Index arithmetic

  lemma MulAtLeast(a: int, w: nat)
    requires a >= 1
    ensures a * w >= w
  {
    var b := a - 1;
    assert a * w == b * w + w;
    assert b * w >= 0;
  }

  /** Below rows * w, the row number c / w is below rows. */
  lemma DivBelow(c: nat, w: nat, rows: nat)
    requires w > 0 && c < rows * w
    ensures c / w < rows
  {
  }

  /** Row-major indexing is invertible: z * w + x splits back into row z and column x. */
  lemma DivModRow(w: nat, x: nat, z: nat)
    requires x < w
    ensures (z * w + x) / w == z && (z * w + x) % w == x
  {
    var c := z * w + x;
    var q, r := c / w, c % w;
    assert c == q * w + r && 0 <= r < w;
    var d := q - z;
    assert d * w == q * w - z * w;
    assert d * w == x - r;
    if d >= 1 {
      MulAtLeast(d, w);
    } else if d <= -1 {
      MulAtLeast(-d, w);
    }
  }

  /** A row index below `rows` and a column below `w` give a slot below rows * w. */
  lemma RowSlotBelow(w: nat, rows: nat, x: nat, z: nat)
    requires x < w && z < rows
    ensures z * w + x < rows * w
  {
    MulAtLeast(rows - z, w);
    assert (rows - z) * w == rows * w - z * w;
  }

  // ---------------------------------------------------------------------------
  // Properties of the vertex and uv grid

  /** Scaling the fraction x / n of an edge of length s is the same as taking x * s / n. */
  lemma FractionOfEdge(x: real, n: real, s: real)
    requires n != 0.0
    ensures (x / n) * s == x * s / n
  {
  }

  /** Multiplying by the reciprocal of n is dividing by n. */
  lemma ReciprocalScale(x: real, n: real)
    requires n != 0.0
    ensures x * (1.0 / n) == x / n
  {
  }

  /** The grid point and uv formulas of Generate, written as plain fractions. */
  lemma GridPointExact(corner: Point2, scale: real, size: nat, x: nat, z: nat)
    requires size > 0
    ensures GridPoint(corner, scale, size, x, z)
         == Point2(corner.u + x as real * scale / size as real, corner.v + z as real * scale / size as real)
    ensures UvPoint(size, x, z) == Point2(x as real / size as real, z as real / size as real)
  {
    FractionOfEdge(x as real, size as real, scale);
    FractionOfEdge(z as real, size as real, scale);
    ReciprocalScale(x as real, size as real);
    ReciprocalScale(z as real, size as real);
  }

  /** Slot GridIndex(size, x, z) of the vertex and uv buffers holds grid point (x, z). */
  lemma GridSlot(origin: Vec3, left: Vec3, forward: Vec3, corner: Point2, scale: real, size: nat, x: nat, z: nat)
    requires size > 0 && x <= size && z <= size
    ensures 0 <= GridIndex(size, x, z) < VertexCount(size)
    ensures GridVertices(origin, left, forward, corner, scale, size)[GridIndex(size, x, z)]
         == Embed(origin, left, forward, GridPoint(corner, scale, size, x, z))
    ensures GridUvs(size)[GridIndex(size, x, z)] == UvPoint(size, x, z)
  {
    RowSlotBelow(size + 1, size + 1, x, z);
    DivModRow(size + 1, x, z);
  }

  /**
   * Grid point (x, z) is stored at GridIndex(size, x, z), inside the buffer,
   * at local offset (x*scale/size, z*scale/size) from the corner anchor, with
   * texture coordinate (x/size, z/size).
   */
  lemma GridPointAt(origin: Vec3, left: Vec3, forward: Vec3, corner: Point2, scale: real, size: nat, x: nat, z: nat)
    requires size > 0 && x <= size && z <= size
    ensures 0 <= GridIndex(size, x, z) < VertexCount(size)
    ensures GridVertices(origin, left, forward, corner, scale, size)[GridIndex(size, x, z)]
         == Embed(origin, left, forward,
                  Point2(corner.u + x as real * scale / size as real, corner.v + z as real * scale / size as real))
    ensures GridUvs(size)[GridIndex(size, x, z)] == Point2(x as real / size as real, z as real / size as real)
  {
    GridSlot(origin, left, forward, corner, scale, size, x, z);
    GridPointExact(corner, scale, size, x, z);
  }

  /** The last grid point, (size, size), is the last slot of the buffer. */
  lemma LastGridIndex(size: nat)
    ensures GridIndex(size, size, size) == VertexCount(size) - 1
  {
    assert (size + 1) * (size + 1) == size * (size + 1) + size + 1;
  }

  /** The first vertex is the corner anchor and the last one the opposite corner. */
  lemma GridCorners(origin: Vec3, left: Vec3, forward: Vec3, corner: Point2, scale: real, size: nat)
    requires size > 0
    ensures GridVertices(origin, left, forward, corner, scale, size)[0] == Embed(origin, left, forward, corner)
    ensures GridVertices(origin, left, forward, corner, scale, size)[VertexCount(size) - 1]
         == Embed(origin, left, forward, Point2(corner.u + scale, corner.v + scale))
    ensures GridUvs(size)[0] == Point2(0.0, 0.0) && GridUvs(size)[VertexCount(size) - 1] == Point2(1.0, 1.0)
  {
    GridSlot(origin, left, forward, corner, scale, size, 0, 0);
    GridSlot(origin, left, forward, corner, scale, size, size, size);
    LastGridIndex(size);
    assert GridPoint(corner, scale, size, 0, 0) == corner;
    assert GridPoint(corner, scale, size, size, size) == Point2(corner.u + scale, corner.v + scale);
    assert UvPoint(size, size, size) == Point2(1.0, 1.0);
  }

  // ---------------------------------------------------------------------------
  // Properties of the triangle buffer

  /** Neighbouring grid points: one column right is +1, one row up is +(size+1). */
  lemma GridSteps(size: nat, x: int, y: int)
    ensures GridIndex(size, x + 1, y) == GridIndex(size, x, y) + 1
    ensures GridIndex(size, x, y + 1) == GridIndex(size, x, y) + size + 1
    ensures GridIndex(size, x + 1, y + 1) == GridIndex(size, x, y) + size + 2
  {
    assert (y + 1) * (size + 1) == y * (size + 1) + size + 1;
  }

  /** Slot j of cell (x, y) holds the cell's base vertex plus the slot's offset. */
  lemma SlotAt(size: nat, x: nat, y: nat, j: nat)
    requires x < size && y < size && j < 6
    ensures 6 * CellIndex(size, x, y) + j < IndexCount(size)
    ensures Triangles(size)[6 * CellIndex(size, x, y) + j] == GridIndex(size, x, y) + SlotOffset(size, j)
  {
    var c := CellIndex(size, x, y);
    RowSlotBelow(size, size, x, y);
    RowSlotBelow(6, c + 1, j, c);
    assert (c + 1) * 6 <= IndexCount(size);
    DivModRow(6, j, c);
    DivModRow(size, x, y);
  }

  /**
   * Cell (x, y) emits the two triangles (its corners (x,y), (x,y+1), (x+1,y))
   * and ((x+1,y), (x,y+1), (x+1,y+1)): exactly its four corner grid points.
   */
  lemma TriangleCell(size: nat, x: nat, y: nat)
    requires x < size && y < size
    ensures var k := 6 * CellIndex(size, x, y);
      k + 6 <= |Triangles(size)| &&
      Triangles(size)[k..k + 6]
        == [GridIndex(size, x, y), GridIndex(size, x, y + 1), GridIndex(size, x + 1, y),
            GridIndex(size, x + 1, y), GridIndex(size, x, y + 1), GridIndex(size, x + 1, y + 1)]
  {
    CellSlots(size, x, y, 6 * CellIndex(size, x, y), GridIndex(size, x, y));
    GridSteps(size, x, y);
  }

  /** Every index slot k belongs to a cell (x, y) of the grid, as slot k % 6 of it. */
  lemma SlotCell(size: nat, k: nat) returns (x: nat, y: nat)
    requires size > 0 && k < IndexCount(size)
    ensures x < size && y < size && k == 6 * CellIndex(size, x, y) + k % 6
  {
    var c := k / 6;
    assert k == 6 * c + k % 6;
    DivBelow(k, 6, size * size);
    x, y := c % size, c / size;
    assert c == y * size + x;
    DivBelow(c, size, size);
  }

  /** Every triangle index names an existing vertex: it lies in [0, (size+1)^2). */
  lemma TrianglesInRange(size: nat)
    requires size > 0
    ensures forall k :: 0 <= k < |Triangles(size)| ==> 0 <= Triangles(size)[k] < VertexCount(size)
  {
    forall k | 0 <= k < |Triangles(size)|
      ensures 0 <= Triangles(size)[k] < VertexCount(size)
    {
      var x, y := SlotCell(size, k);
      SlotAt(size, x, y, k % 6);
      GridSteps(size, x, y);
      RowSlotBelow(size + 1, size + 1, x + 1, y + 1);
    }
  }

  // ---------------------------------------------------------------------------
  // The buffer-filling loops of Generate

  /** The vertex and uv loop: one pass over the grid rows, one over each row's points. */
  method BuildGrid(origin: Vec3, left: Vec3, forward: Vec3, corner: Point2, scale: real, size: nat)
    returns (verts: seq<Vec3>, uvs: seq<Point2>)
    requires size > 0
    ensures verts == GridVertices(origin, left, forward, corner, scale, size)
    ensures uvs == GridUvs(size)
  {
    ghost var gv := GridVertices(origin, left, forward, corner, scale, size);
    ghost var gu := GridUvs(size);
    var vs := new Vec3[VertexCount(size)](_ => origin);
    var us := new Point2[VertexCount(size)](_ => Point2(0.0, 0.0));
    var uvFactor := 1.0 / size as real;
    var z := 0;
    while z <= size
      invariant 0 <= z <= size + 1
      invariant forall k :: 0 <= k < GridIndex(size, 0, z) ==> vs[k] == gv[k] && us[k] == gu[k]
    {
      RowSlotBelow(size + 1, size + 1, size, z);
      GridSteps(size, 0, z);
      FillRow(vs, us, origin, left, forward, corner, scale, size, z, uvFactor);
      z := z + 1;
    }
    assert GridIndex(size, 0, size + 1) == vs.Length;
    verts, uvs := vs[..], us[..];
  }

  /** The inner loop of BuildGrid: row z of the vertex and uv buffers. */
  method FillRow(vs: array<Vec3>, us: array<Point2>, origin: Vec3, left: Vec3, forward: Vec3,
                 corner: Point2, scale: real, size: nat, z: nat, uvFactor: real)
    requires size > 0 && z <= size && uvFactor == 1.0 / size as real
    requires vs.Length == VertexCount(size) && us.Length == VertexCount(size)
    requires GridIndex(size, 0, z + 1) <= VertexCount(size)
    requires forall k :: 0 <= k < GridIndex(size, 0, z) ==>
      vs[k] == GridVertices(origin, left, forward, corner, scale, size)[k] && us[k] == GridUvs(size)[k]
    modifies vs, us
    ensures forall k :: 0 <= k < GridIndex(size, 0, z + 1) ==>
      vs[k] == GridVertices(origin, left, forward, corner, scale, size)[k] && us[k] == GridUvs(size)[k]
  {
    ghost var gv := GridVertices(origin, left, forward, corner, scale, size);
    ghost var gu := GridUvs(size);
    var x, i := 0, GridIndex(size, 0, z);
    GridSteps(size, 0, z);
    while x <= size
      invariant 0 <= x <= size + 1
      invariant i == GridIndex(size, x, z) && i <= GridIndex(size, 0, z + 1)
      invariant forall k :: 0 <= k < i ==> vs[k] == gv[k] && us[k] == gu[k]
    {
      var v, u := GridPointAndUv(origin, left, forward, corner, scale, size, x, z, uvFactor);
      us[i] := u;
      vs[i] := v;
      x, i := x + 1, i + 1;
    }
  }

  /** The body of FillRow: the world point and uv of grid point (x, z). */
  method GridPointAndUv(origin: Vec3, left: Vec3, forward: Vec3, corner: Point2, scale: real, size: nat,
                        x: nat, z: nat, uvFactor: real) returns (v: Vec3, u: Point2)
    requires size > 0 && x <= size && z <= size && uvFactor == 1.0 / size as real
    ensures GridIndex(size, x, z) < VertexCount(size)
    ensures v == GridVertices(origin, left, forward, corner, scale, size)[GridIndex(size, x, z)]
    ensures u == GridUvs(size)[GridIndex(size, x, z)]
  {
    var px := x as real / size as real;
    var pz := z as real / size as real;
    u := Point2(x as real * uvFactor, z as real * uvFactor);
    UvAt(size, x, z, uvFactor);
    v := Add(Add(Embed(origin, left, forward, corner), Scale(Scale(left, px), scale)), Scale(Scale(forward, pz), scale));
    OffsetInPlane(origin, left, forward, corner, px, pz, scale);
    VertexAt(origin, left, forward, corner, scale, size, x, z, px, pz);
  }

  /** The uv Generate computes with `uvFactor` is the buffer's entry for grid point (x, z). */
  lemma UvAt(size: nat, x: nat, z: nat, uvFactor: real)
    requires size > 0 && x <= size && z <= size && uvFactor == 1.0 / size as real
    ensures GridIndex(size, x, z) < VertexCount(size)
    ensures Point2(x as real * uvFactor, z as real * uvFactor) == GridUvs(size)[GridIndex(size, x, z)]
  {
    RowSlotBelow(size + 1, size + 1, x, z);
    DivModRow(size + 1, x, z);
    var i := GridIndex(size, x, z);
    assert i % (size + 1) == x && i / (size + 1) == z;
    assert GridUvs(size)[i] == UvPoint(size, x, z);
  }

  /** The vertex Generate computes from the fractions px = x/size and pz = z/size is the buffer's entry for (x, z). */
  lemma VertexAt(origin: Vec3, left: Vec3, forward: Vec3, corner: Point2, scale: real, size: nat, x: nat, z: nat, px: real, pz: real)
    requires size > 0 && x <= size && z <= size && px == x as real / size as real && pz == z as real / size as real
    ensures GridIndex(size, x, z) < VertexCount(size)
    ensures Embed(origin, left, forward, Point2(corner.u + px * scale, corner.v + pz * scale))
         == GridVertices(origin, left, forward, corner, scale, size)[GridIndex(size, x, z)]
  {
    RowSlotBelow(size + 1, size + 1, x, z);
    DivModRow(size + 1, x, z);
    var i := GridIndex(size, x, z);
    assert i % (size + 1) == x && i / (size + 1) == z;
    assert GridPoint(corner, scale, size, x, z) == Point2(corner.u + px * scale, corner.v + pz * scale);
    assert GridVertices(origin, left, forward, corner, scale, size)[i] == Embed(origin, left, forward, GridPoint(corner, scale, size, x, z));
  }

  /** The triangle loop: `ti` walks six slots per cell, `vi` the cell's base vertex. */
  method BuildTriangles(size: nat) returns (tris: seq<int>)
    requires size > 0
    ensures tris == Triangles(size)
  {
    ghost var spec := Triangles(size);
    var t := new int[IndexCount(size)];
    assert |spec| == t.Length;
    var ti, vi, y := 0, 0, 0;
    while y < size
      invariant 0 <= y <= size
      invariant ti == 6 * CellIndex(size, 0, y) && ti <= t.Length
      invariant vi == GridIndex(size, 0, y)
      invariant forall k :: 0 <= k < ti ==> t[k] == spec[k]
    {
      var x := 0;
      while x < size
        invariant 0 <= x <= size
        invariant ti == 6 * CellIndex(size, x, y) && ti <= t.Length
        invariant vi == GridIndex(size, x, y)
        invariant forall k :: 0 <= k < ti ==> t[k] == spec[k]
      {
        SlotAt(size, x, y, 5);
        WriteCell(t, size, x, y, ti, vi);
        x, ti, vi := x + 1, ti + 6, vi + 1;
      }
      assert CellIndex(size, x, y) == CellIndex(size, 0, y + 1);
      assert GridIndex(size, x, y) + 1 == GridIndex(size, 0, y + 1);
      y, vi := y + 1, vi + 1;
    }
    assert ti == t.Length;
    tris := t[..];
  }

  /** The body of BuildTriangles' inner loop: the six index slots of cell (x, y). */
  method WriteCell(t: array<int>, size: nat, x: nat, y: nat, ti: nat, vi: int)
    requires t.Length == IndexCount(size) && x < size && y < size
    requires ti == 6 * CellIndex(size, x, y) && vi == GridIndex(size, x, y) && ti + 6 <= t.Length
    requires forall k :: 0 <= k < ti ==> t[k] == Triangles(size)[k]
    modifies t
    ensures forall k :: 0 <= k < ti + 6 ==> t[k] == Triangles(size)[k]
  {
    ghost var spec := Triangles(size);
    CellSlots(size, x, y, ti, vi);
    t[ti] := vi;
    t[ti + 3] := vi + 1;
    t[ti + 2] := vi + 1;
    t[ti + 4] := vi + size + 1;
    t[ti + 1] := vi + size + 1;
    t[ti + 5] := vi + size + 2;
    forall k | 0 <= k < ti + 6 ensures t[k] == spec[k] {
      if k >= ti {
        assert k == ti || k == ti + 1 || k == ti + 2 || k == ti + 3 || k == ti + 4 || k == ti + 5;
      }
    }
  }

  /** The six slots of cell (x, y), from its first slot ti and its base vertex vi. */
  lemma CellSlots(size: nat, x: nat, y: nat, ti: int, vi: int)
    requires x < size && y < size && ti == 6 * CellIndex(size, x, y) && vi == GridIndex(size, x, y)
    ensures ti + 6 <= IndexCount(size)
    ensures var spec := Triangles(size);
      spec[ti] == vi && spec[ti + 1] == vi + size + 1 && spec[ti + 2] == vi + 1 &&
      spec[ti + 3] == vi + 1 && spec[ti + 4] == vi + size + 1 && spec[ti + 5] == vi + size + 2
  {
    SlotAt(size, x, y, 0);
    SlotAt(size, x, y, 1);
    SlotAt(size, x, y, 2);
    SlotAt(size, x, y, 3);
    SlotAt(size, x, y, 4);
    SlotAt(size, x, y, 5);
  }
}
