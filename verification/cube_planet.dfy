/**
 * The cube planet: six quadtree roots, one per side of a cube, and the
 * per-tick level-of-detail pass over the leaves of one root.
 *
 * Engine queries are inputs: the player lookup is a flag, the distance from
 * the player to a face is a function of the face, and the neighbour raycast
 * is a function of the face and the direction index. Each is fixed for one
 * call of the pass.
 */
module Planet {
  import opened Geometry
  import opened Options
  import opened FaceMesh
  import opened Weld
  import opened Lod
  import opened QuadFace
  import opened Layout

  /** The tag of a face at highest detail, and of the objects a neighbour raycast accepts. */
  const PlanetTag: string := "Planet"

  /** The neighbour directions, by index: left, forward, right, back. */
  const Directions: seq<Vec3> := [Vec3(-1.0, 0.0, 0.0), Vec3(0.0, 0.0, 1.0), Vec3(1.0, 0.0, 0.0), Vec3(0.0, 0.0, -1.0)]

  /**
   * Root i of a planet of this scale and grid size, as the constructor leaves
   * it: a freshly generated parentless face on side i of the cube, centred on
   * its plane's origin.
   */
  ghost predicate RootAt(f: CubeFace, scale: real, size: int, i: int)
    reads f
    requires 0 <= i < 6
  {
    && f.Pristine() && f.parent == null && f.rank == 0
    && f.size == size && f.scale == scale
    && f.origin == RootLayout(scale, i).origin
    && f.left == RootLayout(scale, i).left
    && f.forward == RootLayout(scale, i).forward
    && f.position == Point2(-(scale / 2.0), -(scale / 2.0))
  }

  /** A new root face on side i, centred on the local origin of its plane. */
  method NewRoot(scale: real, size: int, i: int) returns (f: CubeFace)
    requires size > 0 && 0 <= i < 6
    ensures fresh(f) && RootAt(f, scale, size, i)
  {
    var p := RootLayout(scale, i);
    f := new CubeFace(null, p.origin, Point2(0.0, 0.0), p.left, p.forward, scale, size, 0);
  }

  /** The six roots in the constructor's order: front, back, left, right, top, bottom. */
  method NewRoots(scale: real, size: int) returns (fs: seq<CubeFace>)
    requires size > 0
    ensures |fs| == 6
    ensures forall i :: 0 <= i < 6 ==> fresh(fs[i]) && RootAt(fs[i], scale, size, i)
  {
    var front := NewRoot(scale, size, 0);
    var back := NewRoot(scale, size, 1);
    var left := NewRoot(scale, size, 2);
    var right := NewRoot(scale, size, 3);
    var top := NewRoot(scale, size, 4);
    var bottom := NewRoot(scale, size, 5);
    fs := [front, back, left, right, top, bottom];
  }

  // ---------------------------------------------------------------------------
  // The neighbour resolution cache

  /** What the raycast in one direction found: nothing, or an object with a tag and maybe a shared mesh. */
  datatype RayHit = Miss | Hit(tag: string, mesh: Option<Mesh>)

  /** The hit is a planet face, so the direction counts as resolved. */
  predicate Resolves(h: RayHit) {
    h.Hit? && h.tag == PlanetTag
  }

  /** The cache as ProcessNeighbours starts from it: four unresolved directions when there is none. */
  function CacheOf(known: seq<bool>): seq<bool> {
    if |known| == 0 then [false, false, false, false] else known
  }

  /** How ProcessNeighbours ends: whether it ran to the end, the cache, and the face's vertices. */
  datatype Resolution = Resolution(ok: bool, known: seq<bool>, vertices: seq<Vec3>)

  /**
   * ProcessNeighbours from direction n on: a resolved direction is skipped;
   * a hit on a planet face marks it resolved and, when that face has a shared
   * mesh, welds from it. A cache entry missing for a direction, or a weld
   * that reads past either buffer, stops the walk with `ok` false.
   */
  function ResolveFrom(known: seq<bool>, verts: seq<Vec3>, raycast: (CubeFace, int) -> RayHit,
                       face: CubeFace, size: nat, n: nat): (r: Resolution)
    requires n <= |Directions|
    ensures |r.known| == |known| && |r.vertices| == |verts|
    decreases |Directions| - n
  {
    if n == |Directions| then Resolution(true, known, verts)
    else if n >= |known| then Resolution(false, known, verts)
    else if known[n] then ResolveFrom(known, verts, raycast, face, size, n + 1)
    else
      var hit := raycast(face, n);
      if !Resolves(hit) then ResolveFrom(known, verts, raycast, face, size, n + 1)
      else
        var k := known[n := true];
        if hit.mesh.None? then ResolveFrom(k, verts, raycast, face, size, n + 1)
        else
          var nverts := hit.mesh.value.vertices;
          if WeldFits(|verts|, size, n) && WeldFits(|nverts|, size, n) then
            ResolveFrom(k, Welded(verts, nverts, size, n), raycast, face, size, n + 1)
          else Resolution(false, k, verts)
  }

  /**
   * What the walk does to the cache: a resolved direction stays resolved,
   * directions before n are untouched, and after a complete walk direction d
   * is resolved exactly when it already was or its raycast hit a planet face.
   */
  lemma {:induction false} ResolveKnown(known: seq<bool>, verts: seq<Vec3>, raycast: (CubeFace, int) -> RayHit,
                                        face: CubeFace, size: nat, n: nat)
    requires n <= |Directions|
    ensures var r := ResolveFrom(known, verts, raycast, face, size, n);
      && (forall d :: 0 <= d < |known| && known[d] ==> r.known[d])
      && (forall d :: 0 <= d < |known| && d < n ==> r.known[d] == known[d])
      && (r.ok ==> forall d :: n <= d < |Directions| ==>
            d < |known| && (r.known[d] <==> known[d] || Resolves(raycast(face, d))))
    decreases |Directions| - n
  {
    if n < |Directions| && n < |known| {
      var hit := raycast(face, n);
      if known[n] || !Resolves(hit) {
        ResolveKnown(known, verts, raycast, face, size, n + 1);
      } else {
        var k := known[n := true];
        if hit.mesh.None? {
          ResolveKnown(k, verts, raycast, face, size, n + 1);
        } else {
          var nverts := hit.mesh.value.vertices;
          if WeldFits(|verts|, size, n) && WeldFits(|nverts|, size, n) {
            ResolveKnown(k, Welded(verts, nverts, size, n), raycast, face, size, n + 1);
          }
        }
      }
    }
  }

  /**
   * The walk from a face's cache: an empty cache becomes one entry per
   * direction, a resolved direction stays resolved, and after a complete walk
   * direction d is resolved exactly when it was cached as resolved or its
   * raycast hit a planet face.
   */
  lemma CacheResolved(cache: seq<bool>, verts: seq<Vec3>, raycast: (CubeFace, int) -> RayHit, face: CubeFace, size: nat)
    ensures var r := ResolveFrom(CacheOf(cache), verts, raycast, face, size, 0);
      && |r.known| == (if |cache| == 0 then |Directions| else |cache|)
      && (forall d :: 0 <= d < |cache| && cache[d] ==> r.known[d])
      && (r.ok ==> forall d :: 0 <= d < |Directions| ==>
            d < |r.known| && (r.known[d] <==> (d < |cache| && cache[d]) || Resolves(raycast(face, d))))
  {
    ResolveKnown(CacheOf(cache), verts, raycast, face, size, 0);
  }

  /** The direction would weld: an unresolved direction whose hit is a planet face with a shared mesh. */
  predicate WeldsFrom(known: seq<bool>, raycast: (CubeFace, int) -> RayHit, face: CubeFace, d: int)
    requires 0 <= d < |known|
  {
    !known[d] && Resolves(raycast(face, d)) && raycast(face, d).mesh.Some?
  }

  /**
   * Only directions 0 and 2 can change the face's vertices: when neither of
   * them welds, the vertices come out as they went in.
   */
  lemma {:induction false} OddDirectionsKeepVertices(known: seq<bool>, verts: seq<Vec3>, raycast: (CubeFace, int) -> RayHit,
                                                     face: CubeFace, size: nat, n: nat)
    requires n <= |Directions|
    requires forall d :: n <= d < |known| && (d == 0 || d == 2) ==> !WeldsFrom(known, raycast, face, d)
    ensures ResolveFrom(known, verts, raycast, face, size, n).vertices == verts
    decreases |Directions| - n
  {
    if n < |Directions| && n < |known| && !known[n] {
      var hit := raycast(face, n);
      if Resolves(hit) {
        var k := known[n := true];
        forall d | n + 1 <= d < |k| && (d == 0 || d == 2) ensures !WeldsFrom(k, raycast, face, d) {
          assert !WeldsFrom(known, raycast, face, d);
        }
        if hit.mesh.Some? {
          assert n != 0 && n != 2 by {
            assert WeldsFrom(known, raycast, face, n);
          }
          WeldNothing(verts, hit.mesh.value.vertices, size, n);
        }
        OddDirectionsKeepVertices(k, verts, raycast, face, size, n + 1);
      } else {
        OddDirectionsKeepVertices(known, verts, raycast, face, size, n + 1);
      }
    } else if n < |Directions| && n < |known| {
      OddDirectionsKeepVertices(known, verts, raycast, face, size, n + 1);
    }
  }

  /**
   * Every planet face the raycast from a face of z hits publishes a mesh of at
   * least a whole grid, as the planet's own faces do.
   */
  ghost predicate GridHits(raycast: (CubeFace, int) -> RayHit, size: nat, z: set<CubeFace>) {
    forall f, d :: f in z && Resolves(raycast(f, d)) && raycast(f, d).mesh.Some? ==>
      |raycast(f, d).mesh.value.vertices| >= VertexCount(size)
  }

  /** GridHits over a set holds over each of its subsets. */
  lemma GridHitsWithin(raycast: (CubeFace, int) -> RayHit, size: nat, z: set<CubeFace>, w: set<CubeFace>)
    requires w <= z && GridHits(raycast, size, z)
    ensures GridHits(raycast, size, w)
  {
  }

  /**
   * With a four-entry cache, a grid-sized vertex buffer and neighbour meshes
   * holding at least a grid each, ProcessNeighbours always runs to the end.
   */
  lemma {:induction false} GridMeshesAlwaysWeld(known: seq<bool>, verts: seq<Vec3>, raycast: (CubeFace, int) -> RayHit,
                                                face: CubeFace, size: nat, n: nat)
    requires n <= |Directions| && |known| == |Directions| && |verts| == VertexCount(size)
    requires forall d :: n <= d < |Directions| && Resolves(raycast(face, d)) && raycast(face, d).mesh.Some? ==>
      |raycast(face, d).mesh.value.vertices| >= VertexCount(size)
    ensures ResolveFrom(known, verts, raycast, face, size, n).ok
    decreases |Directions| - n
  {
    if n < |Directions| && !known[n] {
      var hit := raycast(face, n);
      if Resolves(hit) {
        var k := known[n := true];
        if hit.mesh.Some? {
          var nverts := hit.mesh.value.vertices;
          if n == 0 || n == 2 {
            WeldWholeGrid(verts, nverts, size, n);
          } else {
            WeldNothing(verts, nverts, size, n);
          }
          GridMeshesAlwaysWeld(k, Welded(verts, nverts, size, n), raycast, face, size, n + 1);
        } else {
          GridMeshesAlwaysWeld(k, verts, raycast, face, size, n + 1);
        }
      } else {
        GridMeshesAlwaysWeld(known, verts, raycast, face, size, n + 1);
      }
    } else if n < |Directions| {
      GridMeshesAlwaysWeld(known, verts, raycast, face, size, n + 1);
    }
  }

  /**
   * FinalizeFace on the state s of face x, and whether it completed. A
   * finalised face is left as it is; any other gets the neighbour walk and,
   * when the walk completes, is textured, published and finalised.
   */
  function Finalize(s: FaceState, x: CubeFace, size: nat, raycast: (CubeFace, int) -> RayHit): (r: (FaceState, bool))
    ensures r.0.tag == s.tag && r.0.generated == s.generated && r.0.finalized == r.1
  {
    if s.finalized then (s, true)
    else
      var r := ResolveFrom(CacheOf(s.neighbours), s.mesh.vertices, raycast, x, size, 0);
      var welded := s.mesh.(vertices := r.vertices);
      (s.(neighbours := r.known, mesh := welded, textured := r.ok || s.textured, finalized := r.ok,
          sharedMesh := if r.ok then Some(welded) else s.sharedMesh), r.ok)
  }

  /** Generate followed by FinalizeFace, on the state s of face x. */
  function Rebuild(s: FaceState, x: CubeFace, size: nat, raycast: (CubeFace, int) -> RayHit): (r: (FaceState, bool))
    requires x.size > 0
    ensures r.0.tag == s.tag && r.0.generated
  {
    Finalize(Regenerated(s, GridMesh(x.origin, x.left, x.forward, x.position, x.scale, x.size)), x, size, raycast)
  }

  /** Face x, in state before, went through Generate and FinalizeFace with result ok. */
  ghost predicate Rebuilt(x: CubeFace, before: FaceState, size: nat, raycast: (CubeFace, int) -> RayHit, ok: bool)
    reads x
  {
    x.size > 0 && (x.State(), ok) == Rebuild(before, x, size, raycast)
  }

  /** actions[b] is the LOD decision for leaves[b], for each action taken so far. */
  ghost predicate Decided(actions: seq<LodAction>, leaves: seq<CubeFace>, distance: CubeFace -> real, planetScale: real, size: int) {
    |actions| <= |leaves| &&
    forall b :: 0 <= b < |actions| ==>
      actions[b] == LodDecision(distance(leaves[b]), leaves[b].scale, planetScale, size, leaves[b].parent != null)
  }

  /** Every parent of a member of z is in z. */
  ghost predicate ParentClosed(z: set<CubeFace>) {
    forall n :: n in z && n.parent != null ==> n.parent in z
  }

  /** Every face of nodes whose parent is in z is in z. */
  ghost predicate Hereditary(nodes: set<CubeFace>, z: set<CubeFace>) {
    forall n :: n in nodes && n.parent != null && n.parent in z ==> n in z
  }

  /**
   * The links after SubDivide gave x the children kids: x lists them, they
   * list nothing, and every other node keeps its children.
   */
  lemma GrownLinks(nodes: set<CubeFace>, l: Links, x: CubeFace, kids: seq<CubeFace>)
    requires l.Keys == nodes && x in nodes && |kids| == 4
    requires forall n :: n in nodes && n != x ==> n.tree == l[n]
    requires x.tree == kids && forall i :: 0 <= i < 4 ==> kids[i] !in nodes && kids[i].tree == []
    ensures LinksOf(nodes + {kids[0], kids[1], kids[2], kids[3]}) == Grow(l, x, kids)
  {
    var grown := LinksOf(nodes + {kids[0], kids[1], kids[2], kids[3]});
    var g := Grow(l, x, kids);
    assert grown.Keys == g.Keys;
    forall n | n in g ensures grown[n] == g[n] {
      if n in kids {
        var i :| 0 <= i < 4 && kids[i] == n;
      }
    }
  }

  /**
   * After SubDivide gives x the children kids, the faces together with the
   * children form a forest of the next bound, all of one grid size.
   */
  lemma GrownForest(nodes: set<CubeFace>, l: Links, bound: nat, x: CubeFace, kids: seq<CubeFace>, size: int)
    requires WellLinked(l, bound) && l.Keys == nodes && x in nodes
    requires forall n :: n in nodes ==> n.size == size
    requires forall n :: n in nodes && n != x ==> n.tree == l[n]
    requires x.tree == kids && |kids| == 4 && forall i, j :: 0 <= i < j < 4 ==> kids[i] != kids[j]
    requires forall i :: 0 <= i < 4 ==> kids[i] !in nodes && ChildOf(kids[i], x, i, bound)
    ensures Forest(nodes + {kids[0], kids[1], kids[2], kids[3]}, bound + 1)
    ensures forall n :: n in nodes + {kids[0], kids[1], kids[2], kids[3]} ==> n.size == size
  {
    AddChildren(l, bound, x, kids);
    GrownLinks(nodes, l, x, kids);
    forall n | n in nodes + {kids[0], kids[1], kids[2], kids[3]} ensures n.size == size {
      if n !in nodes {
        var i :| 0 <= i < 4 && kids[i] == n;
        assert ChildOf(kids[i], x, i, bound);
      }
    }
  }

  // ---------------------------------------------------------------------------
  // The planet

  class CubePlanet {
    const size: int
    const scale: real
    const faces: seq<CubeFace>

    /** Every face ever created for this planet, and an upper bound on their ranks. */
    ghost var nodes: set<CubeFace>
    ghost var bound: nat

    /** Six parentless roots of the planet's size and scale, in a well-linked forest of same-size faces. */
    ghost predicate Valid()
      reads this, nodes`tree
    {
      Roots() && Forest(nodes, bound)
    }

    /**
     * The part of Valid that does not depend on the links. Every parentless
     * face has the planet's scale, and every parent was still coarser than
     * the grid size when it was subdivided.
     */
    ghost predicate Roots()
      reads this
    {
      && size > 0 && |faces| == 6
      && (forall i :: 0 <= i < 6 ==>
            faces[i] in nodes && faces[i].parent == null && faces[i].size == size && faces[i].scale == scale)
      && (forall n :: n in nodes ==> n.size == size)
      && (forall n :: n in nodes && n.parent == null ==> n.scale == scale)
      && (forall n :: n in nodes && n.parent != null ==> n.parent.scale > size as real)
    }

    /** Every face holds a whole grid of vertices, and either no neighbour cache or one entry per direction. */
    ghost predicate Sized()
      reads this, nodes`mesh, nodes`neighbours
    {
      size > 0 && forall n :: n in nodes ==>
        |n.mesh.vertices| == VertexCount(size) && (|n.neighbours| == 0 || |n.neighbours| == |Directions|)
    }

    /** Face x and every face below it, when x is one of the planet's faces. */
    ghost function Below(x: CubeFace): (r: set<CubeFace>)
      reads this, nodes`tree
      requires Valid()
      ensures r <= nodes && (x in nodes ==> x in r)
    {
      if x in nodes then
        SubtreeClosed(LinksOf(nodes), bound, x);
        Subtree(LinksOf(nodes), bound, x)
      else {}
    }

    /** The faces one round of the update pass on x may change: those below x or below its parent, and their parents. */
    ghost function Reach(x: CubeFace): set<CubeFace>
      reads this, nodes`tree
      requires Valid()
    {
      Below(x) + ParentSet(x.parent) + if x.parent == null then {} else Below(x.parent) + ParentSet(x.parent.parent)
    }

    /**
     * The faces descending from a root r are closed under taking parents, and
     * hold every face whose parent they hold, and the tree of r.
     */
    lemma RootZone(r: CubeFace, z: set<CubeFace>)
      requires Valid() && r in nodes && r.parent == null && z == set m | m in nodes && Descends(m, r)
      ensures z <= nodes && Hereditary(nodes, z) && ParentClosed(z) && Below(r) <= z
      ensures forall m :: m in Leaves(LinksOf(nodes), bound, r) ==> m in z && m.tree == []
    {
      var l := LinksOf(nodes);
      LeavesSound(l, bound, r);
      forall m | m in z && m.parent != null ensures m.parent in z {
        assert NodeLinked(l, m, bound);
      }
      forall m | m in nodes && m.parent != null && m.parent in z ensures m in z {
        assert NodeLinked(l, m, bound);
      }
      forall m | m in Below(r) ensures m in z {
        SubtreeDescends(l, bound, r, m);
      }
    }

    /** A set of faces closed under taking children and parents holds everything a round on any of its members may change. */
    lemma ReachWithin(x: CubeFace, z: set<CubeFace>)
      requires Valid() && z <= nodes && Hereditary(nodes, z) && ParentClosed(z) && x in z
      ensures Reach(x) <= z
    {
      var l := LinksOf(nodes);
      assert l.Keys == nodes;
      HereditaryChildClosed(l, bound, z);
      assert z * l.Keys == z;
      SubtreeWithin(l, bound, z, x);
      if x.parent != null {
        SubtreeWithin(l, bound, z, x.parent);
      }
    }

    /**
     * The depth of the quadtree is bounded: a face d levels below its root
     * has scale scale / 2^d, and since its parent was subdivided only while
     * coarser than the grid size, size * 2^(d-1) < scale.
     */
    lemma {:induction false} DepthBounded(n: CubeFace)
      requires Valid() && n in nodes
      ensures n.scale * Pow2(Depth(LinksOf(nodes), bound, n)) as real == scale
      ensures n.parent != null ==>
        Depth(LinksOf(nodes), bound, n) > 0 && size as real * Pow2(Depth(LinksOf(nodes), bound, n) - 1) as real < scale
    {
      var l := LinksOf(nodes);
      assert l.Keys == nodes;
      ScaleAtDepth(l, bound, n, scale);
      if n.parent != null {
        DepthBelowGrid(l, bound, n, scale, size as real);
      }
    }

    /** A planet of six root faces, one per side of a cube of side `scale` centred on the origin. */
    constructor (size: int, scale: real)
      requires size > 0
      ensures Valid() && Sized() && this.size == size && this.scale == scale
      ensures nodes == set i | 0 <= i < 6 :: faces[i]
      ensures forall i :: 0 <= i < 6 ==> fresh(faces[i]) && RootAt(faces[i], scale, size, i)
      ensures forall i, j :: 0 <= i < j < 6 ==> faces[i] != faces[j]
    {
      this.size := size;
      this.scale := scale;
      var fs := NewRoots(scale, size);
      faces := fs;
      nodes := set i | 0 <= i < 6 :: fs[i];
      bound := 1;
      new;
      RootsLinked(LinksOf(nodes), bound);
      RootFramesDistinct(scale);
    }

    /**
     * Copy the neighbour's vertices, by buffer index, over the face's rows that
     * the direction's range selects. When a read runs past either buffer the
     * face's mesh is left as it was and the result is false.
     */
    method WeldMeshes(face: CubeFace, neighbour: Mesh, neighbourDir: int) returns (ok: bool)
      requires Valid()
      modifies face`mesh
      ensures ok == (WeldFits(|old(face.mesh.vertices)|, size, neighbourDir)
                     && WeldFits(|neighbour.vertices|, size, neighbourDir))
      ensures ok ==> face.mesh == old(face.mesh).(vertices := Welded(old(face.mesh.vertices), neighbour.vertices, size, neighbourDir))
      ensures !ok ==> face.mesh == old(face.mesh)
    {
      var current := face.mesh.vertices;
      var verts := new Vec3[|current|](i requires 0 <= i < |current| => current[i]);
      assert verts[..] == current;
      ok := WeldRows(verts, neighbour.vertices, size, neighbourDir);
      if ok {
        face.mesh := face.mesh.(vertices := verts[..]);
      }
    }

    /**
     * Resolve the face's unresolved neighbour directions, welding from each
     * neighbour face found, then texture the face. A failure (a missing cache
     * entry or a weld past a buffer) ends the call before texturing.
     */
    method ProcessNeighbours(face: CubeFace, raycast: (CubeFace, int) -> RayHit) returns (ok: bool)
      requires Valid()
      modifies face`neighbours, face`mesh, face`textured
      ensures var r := ResolveFrom(CacheOf(old(face.neighbours)), old(face.mesh.vertices), raycast, face, size, 0);
        && ok == r.ok && face.neighbours == r.known
        && face.mesh == old(face.mesh).(vertices := r.vertices)
        && face.textured == (ok || old(face.textured))
      ensures |old(face.neighbours)| == 0 ==> |face.neighbours| == |Directions|
      ensures |old(face.neighbours)| != 0 ==> |face.neighbours| == |old(face.neighbours)|
      ensures forall d :: 0 <= d < |old(face.neighbours)| && old(face.neighbours)[d] ==> face.neighbours[d]
      ensures ok ==> forall d :: 0 <= d < |Directions| ==>
        && d < |face.neighbours|
        && (face.neighbours[d] <==> (d < |old(face.neighbours)| && old(face.neighbours)[d]) || Resolves(raycast(face, d)))
    {
      ghost var r := ResolveFrom(CacheOf(face.neighbours), face.mesh.vertices, raycast, face, size, 0);
      CacheResolved(face.neighbours, face.mesh.vertices, raycast, face, size);
      if |face.neighbours| == 0 {
        face.neighbours := [false, false, false, false];
      }
      ok := true;
      var n := 0;
      while ok && n < |Directions|
        invariant 0 <= n <= |Directions|
        invariant r == if ok then ResolveFrom(face.neighbours, face.mesh.vertices, raycast, face, size, n)
                       else Resolution(false, face.neighbours, face.mesh.vertices)
        invariant face.mesh == old(face.mesh).(vertices := face.mesh.vertices)
        invariant face.textured == old(face.textured)
      {
        ok := ResolveDirection(face, raycast, n);
        n := n + 1;
      }
      if ok {
        face.Texturize();
      }
    }

    /**
     * One pass of ProcessNeighbours' loop: direction n. It returns false when
     * the cache has no entry n or the weld reads past a buffer, and the walk
     * then ends where it stands.
     */
    method ResolveDirection(face: CubeFace, raycast: (CubeFace, int) -> RayHit, n: nat) returns (ok: bool)
      requires Valid() && n < |Directions|
      modifies face`neighbours, face`mesh
      ensures face.mesh == old(face.mesh).(vertices := face.mesh.vertices)
      ensures ok ==> ResolveFrom(face.neighbours, face.mesh.vertices, raycast, face, size, n + 1)
                     == ResolveFrom(old(face.neighbours), old(face.mesh.vertices), raycast, face, size, n)
      ensures !ok ==> Resolution(false, face.neighbours, face.mesh.vertices)
                      == ResolveFrom(old(face.neighbours), old(face.mesh.vertices), raycast, face, size, n)
    {
      if n >= |face.neighbours| {
        return false;
      }
      ok := true;
      if !face.neighbours[n] {
        var hit := raycast(face, n);
        if hit.Hit? && hit.tag == PlanetTag {
          face.neighbours := face.neighbours[n := true];
          if hit.mesh.Some? {
            ok := WeldMeshes(face, hit.mesh.value, n);
          }
        }
      }
    }

    /**
     * Finalise a face once: resolve its neighbours and publish its mesh to
     * the filter and collider. A finalised face is left alone; a failure in
     * ProcessNeighbours leaves the face unpublished and not finalised.
     */
    method FinalizeFace(face: CubeFace, raycast: (CubeFace, int) -> RayHit) returns (ok: bool)
      requires Valid()
      modifies face`neighbours, face`mesh, face`textured, face`sharedMesh, face`finalized
      ensures (face.State(), ok) == Finalize(old(face.State()), face, size, raycast)
      ensures |face.mesh.vertices| == |old(face.mesh.vertices)|
      ensures |face.neighbours| == |old(face.neighbours)|
           || (!old(face.finalized) && |old(face.neighbours)| == 0 && |face.neighbours| == |Directions|)
      ensures (&& GridHits(raycast, size, {face}) && |old(face.mesh.vertices)| == VertexCount(size)
               && (|old(face.neighbours)| == 0 || |old(face.neighbours)| == |Directions|)) ==> ok
    {
      if face.finalized {
        return true;
      }
      if && GridHits(raycast, size, {face}) && |face.mesh.vertices| == VertexCount(size)
         && (|face.neighbours| == 0 || |face.neighbours| == |Directions|) {
        GridMeshesAlwaysWeld(CacheOf(face.neighbours), face.mesh.vertices, raycast, face, size, 0);
      }
      ok := ProcessNeighbours(face, raycast);
      if !ok {
        return;
      }
      face.sharedMesh := Some(face.mesh);
      face.finalized := true;
    }

    /** Append the leaves below `face`, depth first in child order, to `active`. */
    method GetActiveQuadTreeFaces(face: CubeFace, active: seq<CubeFace>) returns (result: seq<CubeFace>)
      requires Valid() && face in nodes
      ensures result == active + Leaves(LinksOf(nodes), bound, face)
      decreases bound - face.rank
    {
      ghost var l := LinksOf(nodes);
      assert NodeLinked(l, face, bound);
      if face.tree == [] {
        result := active + [face];
        return;
      }
      result := active;
      var f := 0;
      while f < |face.tree|
        invariant 0 <= f <= |face.tree|
        invariant result == active + LeavesOf(l, bound, face.rank, face.tree[..f])
      {
        assert NodeLinked(l, face.tree[f], bound);
        result := GetActiveQuadTreeFaces(face.tree[f], result);
        assert face.tree[..f + 1][..f] == face.tree[..f];
        assert LeavesOf(l, bound, face.rank, face.tree[..f + 1])
            == LeavesOf(l, bound, face.rank, face.tree[..f]) + Leaves(l, bound, face.tree[f]);
        f := f + 1;
      }
      assert face.tree[..f] == face.tree;
    }

    // -------------------------------------------------------------------------
    // The update pass

    /**
     * The far branch: merge the leaf back, regenerate it and finalise it.
     * Every face that was below x is left a hidden, ungenerated leaf; only x
     * and its parent change otherwise.
     */
    method RegenerateFace(x: CubeFace, raycast: (CubeFace, int) -> RayHit) returns (ok: bool)
      requires Valid() && Sized() && x in nodes
      modifies Below(x)`tree, Below(x)`generated, Below(x)`rendererEnabled
      modifies x`mesh, x`colliderEnabled, x`neighbours, x`textured, x`sharedMesh, x`finalized
      modifies ParentSet(x.parent)`generated, ParentSet(x.parent)`rendererEnabled, ParentSet(x.parent)`colliderEnabled
      ensures Valid() && Sized()
      ensures x.tree == [] && Rebuilt(x, old(x.State()), size, raycast, ok)
      ensures x.parent != null ==>
        x.parent.tree == old(x.parent.tree) && x.parent.State() == ParentAfterGenerate(old(x.parent.State()), old(x.generated))
      ensures GridHits(raycast, size, {x}) ==> ok
      ensures forall m :: m in old(Below(x)) && m != x ==> Cleared(m)
      ensures forall m :: m in nodes && m !in old(Below(x)) + ParentSet(x.parent) ==>
        m.tree == old(m.tree) && m.State() == old(m.State())
      ensures forall m :: m in old(nodes) ==> (m.tree == [] || m.tree == old(m.tree)) && m.tag == old(m.tag)
    {
      ghost var below := Below(x);
      assert NodeLinked(LinksOf(nodes), x, bound);
      MergeFace(x);
      label merged:
      ok := GenerateAndFinalize(x, raycast);
      forall m | m in below && m != x ensures Cleared(m) {
        assert m != x.parent;
      }
      forall m | m in nodes && m !in below + ParentSet(x.parent) ensures m.tree == old(m.tree) && m.State() == old(m.State()) {
        assert m != x && m != x.parent;
        assert m.tree == old@merged(m.tree) && m.State() == old@merged(m.State());
      }
    }

    /**
     * Merge on face x, as the planet sees it: every face below x becomes a
     * hidden, ungenerated leaf, x loses its children, and nothing else changes.
     */
    method MergeFace(x: CubeFace)
      requires Valid() && Sized() && x in nodes
      modifies Below(x)`tree, Below(x)`generated, Below(x)`rendererEnabled
      ensures Valid() && Sized()
      ensures x.tree == [] && x.State() == old(x.State())
      ensures x.parent !in old(Below(x))
      ensures forall m :: m in nodes && m !in old(Below(x)) ==> m.tree == old(m.tree) && m.State() == old(m.State())
      ensures forall m :: m in old(Below(x)) && m != x ==> Cleared(m)
      ensures forall m :: m in old(nodes) ==> (m.tree == [] || m.tree == old(m.tree)) && m.tag == old(m.tag)
    {
      ghost var l := LinksOf(nodes);
      ghost var s := Subtree(l, bound, x);
      assert s == Below(x);
      assert NodeLinked(l, x, bound);
      SubtreeRanks(l, bound, x);
      x.Merge(nodes, bound);
    }

    /** Generate a face, then finalise it. */
    method GenerateAndFinalize(x: CubeFace, raycast: (CubeFace, int) -> RayHit) returns (ok: bool)
      requires Valid() && Sized() && x in nodes && x.parent != x
      modifies x`mesh, x`generated, x`rendererEnabled, x`colliderEnabled
      modifies x`neighbours, x`textured, x`sharedMesh, x`finalized
      modifies ParentSet(x.parent)`generated
      modifies ParentSet(x.parent)`rendererEnabled
      modifies ParentSet(x.parent)`colliderEnabled
      ensures Valid() && Sized() && Rebuilt(x, old(x.State()), size, raycast, ok)
      ensures x.parent != null ==>
        x.parent.tree == old(x.parent.tree) && x.parent.State() == ParentAfterGenerate(old(x.parent.State()), old(x.generated))
      ensures GridHits(raycast, size, {x}) ==> ok
      ensures forall m :: m in nodes && m != x && m != x.parent ==> m.tree == old(m.tree) && m.State() == old(m.State())
      ensures forall m :: m in old(nodes) ==> (m.tree == [] || m.tree == old(m.tree)) && m.tag == old(m.tag)
    {
      x.Generate();
      ok := FinalizeFace(x, raycast);
    }

    /**
     * The very far branch: merge the leaf, then merge, regenerate and
     * finalise its parent. Every face that was below x or its parent is left
     * a hidden, ungenerated leaf, x among them when its parent still listed
     * it; only the parent and its own parent change otherwise.
     */
    method EscalateFace(x: CubeFace, raycast: (CubeFace, int) -> RayHit) returns (ok: bool)
      requires Valid() && Sized() && x in nodes && x.parent != null
      modifies Below(x)`tree, Below(x)`generated, Below(x)`rendererEnabled
      modifies Below(x.parent)`tree, Below(x.parent)`generated, Below(x.parent)`rendererEnabled
      modifies x.parent`mesh, x.parent`colliderEnabled, x.parent`neighbours
      modifies x.parent`textured, x.parent`sharedMesh, x.parent`finalized
      modifies ParentSet(x.parent.parent)`generated, ParentSet(x.parent.parent)`rendererEnabled
      modifies ParentSet(x.parent.parent)`colliderEnabled
      ensures Valid() && Sized()
      ensures x.tree == [] && x.parent.tree == [] && Rebuilt(x.parent, old(x.parent.State()), size, raycast, ok)
      ensures x.parent.parent != null ==>
        && x.parent.parent.tree == old(x.parent.parent.tree)
        && x.parent.parent.State() == ParentAfterGenerate(old(x.parent.parent.State()), old(x.parent.generated))
      ensures GridHits(raycast, size, {x.parent}) ==> ok
      ensures forall m :: m in old(Below(x)) + old(Below(x.parent)) && m != x && m != x.parent ==> Cleared(m)
      ensures x in old(x.parent.tree) ==> Cleared(x)
      ensures x !in old(x.parent.tree) ==> x.State() == old(x.State())
      ensures forall m :: m in nodes && m !in old(Below(x)) + old(Below(x.parent)) + ParentSet(x.parent.parent) ==>
        m.tree == old(m.tree) && m.State() == old(m.State())
      ensures forall m :: m in old(nodes) ==> (m.tree == [] || m.tree == old(m.tree)) && m.tag == old(m.tag)
    {
      var p := x.parent;
      ghost var l := LinksOf(nodes);
      assert NodeLinked(l, x, bound);
      ghost var s := Subtree(l, bound, x);
      ghost var sp := Subtree(l, bound, p);
      assert s == Below(x) && sp == Below(p) && s + sp <= nodes;
      MergeFace(x);
      label merged:
      EscalateSets(x, l);
      ok := RegenerateFace(p, raycast);
      forall m | m in s + sp && m != x && m != p ensures Cleared(m) {
        if m in old@merged(Below(p)) {
          assert m !in s;
        }
      }
      if x in l[p] {
        assert x in old@merged(Below(p)) && x != p;
      } else {
        assert x !in old@merged(Below(p)) + ParentSet(p.parent);
      }
    }

    /**
     * The sets EscalateFace works with, once x's subtree is merged: p, x's
     * parent, now has a subtree that lost only nodes of x's old subtree; x
     * is still below p exactly when p still lists it; and p's parent lies
     * outside both old subtrees.
     */
    lemma {:induction false} EscalateSets(x: CubeFace, l: Links)
      requires Valid() && x in nodes && x.parent != null
      requires l.Keys == nodes && WellLinked(l, bound) && x in l && x.parent in l
      requires MergedLinks(l, LinksOf(nodes), Subtree(l, bound, x))
      ensures var s := Subtree(l, bound, x); var sp := Subtree(l, bound, x.parent);
        && Below(x.parent) <= sp && sp <= Below(x.parent) + s
        && (x in Below(x.parent) <==> x in l[x.parent])
        && (forall m :: m in Below(x.parent) && m in s ==> m == x)
        && x in s && x.parent !in s && ParentSet(x.parent.parent) !! s + sp
        && x.parent.tree == l[x.parent]
    {
      var p := x.parent;
      var l2 := LinksOf(nodes);
      var s := Subtree(l, bound, x);
      assert NodeLinked(l, x, bound);
      assert NodeLinked(l, p, bound);
      SubtreeRanks(l, bound, x);
      SubtreeRanks(l, bound, p);
      ShrunkSubtree(l, l2, bound, s, p);
      MergedSubtree(l, l2, bound, x, p);
      if x in Subtree(l2, bound, p) {
        SubtreeParent(l2, bound, p, x);
      }
      if x in l[p] {
        var i :| 0 <= i < |l[p]| && l[p][i] == x;
        SubtreeHoldsChildren(l2, bound, p, p, i);
      }
      forall m | m in Subtree(l2, bound, p) && m in s && m != x ensures false {
        SubtreeParent(l, bound, x, m);
        SubtreeParent(l2, bound, p, m);
      }
    }

    /** The near branch: subdivide the leaf; its four children join the planet's faces. */
    method SubdivideFace(x: CubeFace)
      requires Valid() && Sized() && x in nodes && x.scale > size as real
      modifies this, x`tree, x`generated, x`rendererEnabled, x`colliderEnabled
      ensures Valid() && Sized() && bound == old(bound) + 1
      ensures |x.tree| == 4 && nodes == old(nodes) + {x.tree[0], x.tree[1], x.tree[2], x.tree[3]}
      ensures forall i :: 0 <= i < 4 ==> fresh(x.tree[i]) && ChildOf(x.tree[i], x, i, old(bound))
      ensures forall i, j :: 0 <= i < j < 4 ==> x.tree[i] != x.tree[j]
      ensures !x.generated && !x.rendererEnabled && x.colliderEnabled == old(x.colliderEnabled)
      ensures forall i :: 0 <= i < 4 ==> x.tree[i] in nodes - old(nodes)
      ensures forall n :: n in nodes && n !in old(nodes) ==> fresh(n) && n.tree == [] && n.parent == x
      ensures forall n :: n in old(nodes) && n != x ==> unchanged(n)
    {
      ghost var l := LinksOf(nodes);
      assert NodeLinked(l, x, bound);
      x.SubDivide(bound);
      Adopt(x, x.tree, l);
      forall n | n in nodes && n !in old(nodes) ensures fresh(n) && n.tree == [] && n.parent == x {
        assert n == x.tree[0] || n == x.tree[1] || n == x.tree[2] || n == x.tree[3];
      }
    }

    /** The ghost half of SubdivideFace: the new children join the planet's faces. */
    ghost method Adopt(x: CubeFace, kids: seq<CubeFace>, l: Links)
      requires Roots() && Sized() && WellLinked(l, bound) && l.Keys == nodes && x in nodes && x.scale > size as real
      requires forall n :: n in nodes && n != x ==> n.tree == l[n]
      requires x.tree == kids && |kids| == 4 && forall i, j :: 0 <= i < j < 4 ==> kids[i] != kids[j]
      requires forall i :: 0 <= i < 4 ==> kids[i] !in nodes && ChildOf(kids[i], x, i, bound)
      modifies this
      ensures Valid() && Sized() && nodes == old(nodes) + {kids[0], kids[1], kids[2], kids[3]} && bound == old(bound) + 1
    {
      ghost var before, b := nodes, bound;
      nodes, bound := nodes + {kids[0], kids[1], kids[2], kids[3]}, bound + 1;
      GrownForest(before, l, b, x, kids, size);
      assert Forest(nodes, bound);
      forall n | n in nodes && n !in before
        ensures n.parent == x && |n.mesh.vertices| == VertexCount(size) && n.neighbours == []
      {
        var i :| 0 <= i < 4 && kids[i] == n;
        assert ChildOf(kids[i], x, i, b);
      }
    }

    /** The highest-detail branch: tag the face, writing the tag only when it differs. */
    method TagFace(x: CubeFace)
      modifies x`tag
      ensures x.tag == PlanetTag
      ensures old(x.tag) == PlanetTag ==> unchanged(x)
    {
      if x.tag != PlanetTag {
        x.tag := PlanetTag;
      }
    }

    /**
     * The far branch of a round, for a face x larger than its distance dist
     * from the player calls for: x is rebuilt, or, when it is far beyond the
     * planet and has a parent, the parent is. `ok` is false only when the
     * finalisation fails. No face changes its tag or gains children.
     */
    method CoarsenLeaf(x: CubeFace, dist: real, raycast: (CubeFace, int) -> RayHit)
      returns (ok: bool, action: LodAction)
      requires Valid() && Sized() && x in nodes && dist > x.scale
      modifies Reach(x)
      ensures Valid() && Sized()
      ensures action == LodDecision(dist, x.scale, scale, size, x.parent != null)
      ensures GridHits(raycast, size, {x} + ParentSet(x.parent)) ==> ok
      ensures action == Regenerate ==>
        && x.tree == [] && Rebuilt(x, old(x.State()), size, raycast, ok)
        && (x.parent != null ==>
              x.parent.tree == old(x.parent.tree) && x.parent.State() == ParentAfterGenerate(old(x.parent.State()), old(x.generated)))
        && (forall m :: m in old(Below(x)) && m != x ==> Cleared(m))
        && (forall m :: m in nodes && m !in old(Below(x)) + ParentSet(x.parent) ==>
              m.tree == old(m.tree) && m.State() == old(m.State()))
      ensures action == Escalate ==>
        && x.parent != null && x.tree == [] && x.parent.tree == [] && Rebuilt(x.parent, old(x.parent.State()), size, raycast, ok)
        && (x.parent.parent != null ==>
              && x.parent.parent.tree == old(x.parent.parent.tree)
              && x.parent.parent.State() == ParentAfterGenerate(old(x.parent.parent.State()), old(x.parent.generated)))
        && (forall m :: m in old(Below(x)) + old(Below(x.parent)) && m != x && m != x.parent ==> Cleared(m))
        && (x in old(x.parent.tree) ==> Cleared(x))
        && (x !in old(x.parent.tree) ==> x.State() == old(x.State()))
        && (forall m :: m in nodes && m !in old(Below(x)) + old(Below(x.parent)) + ParentSet(x.parent.parent) ==>
              m.tree == old(m.tree) && m.State() == old(m.State()))
      ensures forall m :: m in old(nodes) ==> (m.tree == [] || m.tree == old(m.tree)) && m.tag == old(m.tag)
    {
      if dist <= scale * 3.0 || x.parent == null {
        action := Regenerate;
        ok := RegenerateFace(x, raycast);
      } else {
        action := Escalate;
        ok := EscalateFace(x, raycast);
      }
    }

    /**
     * The near branch of a round, for a face x no larger than its distance
     * dist from the player calls for: x is split into four new leaves while it
     * is coarser than the grid size, and tagged once it is not. Only x and the
     * planet's set of faces change.
     */
    method RefineLeaf(x: CubeFace, dist: real) returns (action: LodAction)
      requires Valid() && Sized() && x in nodes && dist <= x.scale
      modifies this, x`tree, x`generated, x`rendererEnabled, x`colliderEnabled, x`tag
      ensures Valid() && Sized() && old(nodes) <= nodes
      ensures forall n :: n in nodes && n !in old(nodes) ==> fresh(n) && n.tree == [] && n.parent == x
      ensures action == LodDecision(dist, x.scale, scale, size, x.parent != null)
      ensures action == Subdivide ==>
        && bound == old(bound) + 1 && |x.tree| == 4
        && nodes == old(nodes) + {x.tree[0], x.tree[1], x.tree[2], x.tree[3]}
        && (forall i :: 0 <= i < 4 ==> fresh(x.tree[i]) && ChildOf(x.tree[i], x, i, old(bound)))
        && !x.generated && !x.rendererEnabled && x.colliderEnabled == old(x.colliderEnabled)
        && x.tag == old(x.tag)
      ensures action == Tag ==>
        && nodes == old(nodes) && bound == old(bound) && x.tree == old(x.tree)
        && x.State() == old(x.State()).(tag := PlanetTag) && (old(x.tag) == PlanetTag ==> unchanged(x))
    {
      if x.scale > size as real {
        action := Subdivide;
        SubdivideFace(x);
      } else {
        action := Tag;
        TagFace(x);
      }
    }

    /**
     * Update(f): with no player, nothing happens. Otherwise the leaves of root
     * f are collected once, and each is given its LOD branch in list order;
     * faces created during the pass are not visited. A root index outside
     * 0..5, or a failed finalisation, ends the pass with `ok` false. Faces of
     * the other roots' trees are left as they were, and when every neighbour
     * mesh the raycast reports holds a whole grid, the pass runs to the end.
     */
    method Update(f: int, playerFound: bool, distance: CubeFace -> real, raycast: (CubeFace, int) -> RayHit)
      returns (ok: bool, leaves: seq<CubeFace>, actions: seq<LodAction>)
      requires Valid() && Sized()
      modifies this, nodes
      ensures Valid() && Sized() && old(nodes) <= nodes
      ensures !playerFound ==> ok && leaves == [] && actions == [] && unchanged(this) && unchanged(nodes)
      ensures playerFound && !(0 <= f < 6) ==> !ok && leaves == [] && actions == [] && unchanged(this) && unchanged(nodes)
      ensures playerFound && 0 <= f < 6 ==> leaves == old(Leaves(LinksOf(nodes), bound, faces[f]))
      ensures playerFound && 0 <= f < 6 ==> forall n :: n in old(nodes) && !Descends(n, faces[f]) ==> unchanged(n)
      ensures (!playerFound || 0 <= f < 6) && GridHits(raycast, size, old(nodes)) ==> ok
      ensures forall b :: 0 <= b < |leaves| ==> leaves[b] in old(nodes) && old(leaves[b].tree) == []
      ensures |actions| <= |leaves| && (ok ==> |actions| == |leaves|)
      ensures playerFound && 0 <= f < 6 && !ok ==>
        0 < |actions| && (actions[|actions| - 1] == Regenerate || actions[|actions| - 1] == Escalate)
      ensures Decided(actions, leaves, distance, scale, size)
      ensures forall b :: 0 <= b < |actions| && actions[b] == Tag ==> leaves[b].tag == PlanetTag
    {
      if !playerFound {
        ok, leaves, actions := true, [], [];
      } else if !(0 <= f < 6) {
        ok, leaves, actions := false, [], [];
      } else {
        ok, leaves, actions := UpdateTree(f, distance, raycast);
      }
    }

    /** Update(f) once the player is found and f names a root: collect root f's leaves, then run the pass over them. */
    method UpdateTree(f: int, distance: CubeFace -> real, raycast: (CubeFace, int) -> RayHit)
      returns (ok: bool, leaves: seq<CubeFace>, actions: seq<LodAction>)
      requires Valid() && Sized() && 0 <= f < 6
      modifies this, nodes
      ensures Valid() && Sized() && old(nodes) <= nodes
      ensures leaves == old(Leaves(LinksOf(nodes), bound, faces[f]))
      ensures forall n :: n in old(nodes) && !Descends(n, faces[f]) ==> unchanged(n)
      ensures GridHits(raycast, size, old(nodes)) ==> ok
      ensures forall b :: 0 <= b < |leaves| ==> leaves[b] in old(nodes) && old(leaves[b].tree) == []
      ensures |actions| <= |leaves| && (ok ==> |actions| == |leaves|)
      ensures !ok ==> 0 < |actions| && (actions[|actions| - 1] == Regenerate || actions[|actions| - 1] == Escalate)
      ensures Decided(actions, leaves, distance, scale, size)
      ensures forall b :: 0 <= b < |actions| && actions[b] == Tag ==> leaves[b].tag == PlanetTag
    {
      leaves := GetActiveQuadTreeFaces(faces[f], []);
      ghost var zone := set m | m in nodes && Descends(m, faces[f]);
      RootZone(faces[f], zone);
      if GridHits(raycast, size, nodes) {
        GridHitsWithin(raycast, size, nodes, zone);
      }
      ok, actions := UpdateLeaves(leaves, distance, raycast, zone);
    }

    /**
     * The loop of Update over the collected leaves, stopping at the first
     * failure. `zone` is a set of faces closed under children and parents
     * that holds the leaves; faces outside it are left as they were.
     */
    method UpdateLeaves(leaves: seq<CubeFace>, distance: CubeFace -> real, raycast: (CubeFace, int) -> RayHit,
                        ghost zone: set<CubeFace>)
      returns (ok: bool, actions: seq<LodAction>)
      requires Valid() && Sized()
      requires zone <= nodes && Hereditary(nodes, zone) && ParentClosed(zone)
      requires forall b :: 0 <= b < |leaves| ==> leaves[b] in zone
      modifies this, zone
      ensures Valid() && Sized() && old(nodes) <= nodes
      ensures |actions| <= |leaves| && (ok ==> |actions| == |leaves|)
      ensures !ok ==> 0 < |actions| && (actions[|actions| - 1] == Regenerate || actions[|actions| - 1] == Escalate)
      ensures GridHits(raycast, size, zone) ==> ok
      ensures forall b :: 0 <= b < |actions| ==>
        actions[b] == LodDecision(distance(leaves[b]), leaves[b].scale, scale, size, leaves[b].parent != null)
      ensures forall b :: 0 <= b < |actions| && actions[b] == Tag ==> leaves[b].tag == PlanetTag
    {
      ok, actions := true, [];
      var a := 0;
      ghost var z := zone;
      while ok && a < |leaves|
        invariant 0 <= a <= |leaves| && |actions| == a
        invariant GridHits(raycast, size, zone) ==> ok
        invariant !ok ==> 0 < a && (actions[a - 1] == Regenerate || actions[a - 1] == Escalate)
        invariant Valid() && Sized() && old(nodes) <= nodes
        invariant zone <= z <= nodes && Hereditary(nodes, z) && ParentClosed(z)
        invariant forall n :: n in z && n !in zone ==> fresh(n)
        invariant Decided(actions, leaves, distance, scale, size)
        invariant forall b :: 0 <= b < a && actions[b] == Tag ==> leaves[b].tag == PlanetTag
      {
        ok, actions, z := UpdateNext(leaves, distance, raycast, zone, z, actions);
        a := a + 1;
      }
    }

    /**
     * The body of UpdateLeaves' loop: the round for the next leaf, whose
     * decision is appended to the actions taken so far. `z` is the zone grown
     * by the faces the earlier rounds created.
     */
    method UpdateNext(leaves: seq<CubeFace>, distance: CubeFace -> real, raycast: (CubeFace, int) -> RayHit,
                      ghost zone: set<CubeFace>, ghost z: set<CubeFace>, actions: seq<LodAction>)
      returns (ok: bool, actions': seq<LodAction>, ghost z': set<CubeFace>)
      requires |actions| < |leaves| && forall b :: 0 <= b < |leaves| ==> leaves[b] in zone
      requires Valid() && Sized() && zone <= z <= nodes && Hereditary(nodes, z) && ParentClosed(z) && ParentClosed(zone)
      requires Decided(actions, leaves, distance, scale, size)
      requires forall b :: 0 <= b < |actions| && actions[b] == Tag ==> leaves[b].tag == PlanetTag
      modifies this, z
      ensures |actions'| == |actions| + 1 && (GridHits(raycast, size, zone) ==> ok)
      ensures !ok ==> actions'[|actions|] == Regenerate || actions'[|actions|] == Escalate
      ensures Valid() && Sized() && old(nodes) <= nodes
      ensures zone <= z' <= nodes && Hereditary(nodes, z') && ParentClosed(z')
      ensures forall n :: n in z' && n !in z ==> fresh(n)
      ensures Decided(actions', leaves, distance, scale, size)
      ensures forall b :: 0 <= b < |actions'| && actions'[b] == Tag ==> leaves[b].tag == PlanetTag
    {
      var x := leaves[|actions|];
      var action;
      ok, action := UpdateLeaf(x, distance(x), raycast, z, zone);
      assert Decided(actions + [action], leaves, distance, scale, size);
      z' := z + (nodes - old(nodes));
      actions' := actions + [action];
    }

    /**
     * One round of the update pass, for face x at distance dist from the
     * player: the LOD decision for x picks the far or the near branch. `z` is
     * a set of faces that holds x and is closed under taking parents and
     * children; nothing outside it changes, and with the round's new faces it
     * stays closed. `ok` is false only when a finalisation fails, which cannot
     * happen when every raycast hit from a face of `hit` (x and its parent)
     * holds a whole grid. The only tag that changes becomes the planet's tag.
     */
    method UpdateLeaf(x: CubeFace, dist: real, raycast: (CubeFace, int) -> RayHit, ghost z: set<CubeFace>, ghost hit: set<CubeFace>)
      returns (ok: bool, action: LodAction)
      requires Valid() && Sized() && x in z && z <= nodes && Hereditary(nodes, z) && ParentClosed(z)
      requires x in hit && ParentSet(x.parent) <= hit
      modifies this, z
      ensures Valid() && Sized() && old(nodes) <= nodes
      ensures forall n :: n in nodes && n !in old(nodes) ==> fresh(n)
      ensures Hereditary(nodes, z + (nodes - old(nodes))) && ParentClosed(z + (nodes - old(nodes)))
      ensures action == LodDecision(dist, x.scale, scale, size, x.parent != null)
      ensures GridHits(raycast, size, hit) ==> ok
      ensures action == Subdivide || action == Tag ==> ok
      ensures action == Tag ==> x.tag == PlanetTag
      ensures forall n :: n in old(nodes) && old(n.tag) == PlanetTag ==> n.tag == PlanetTag
    {
      if dist > x.scale {
        ReachWithin(x, z);
        ok, action := CoarsenLeaf(x, dist, raycast);
        if GridHits(raycast, size, hit) {
          GridHitsWithin(raycast, size, hit, {x} + ParentSet(x.parent));
        }
      } else {
        forall n | n in nodes && n.parent != null ensures n.parent in nodes {
          assert NodeLinked(LinksOf(nodes), n, bound);
        }
        ok := true;
        action := RefineLeaf(x, dist);
      }
    }

  }
}
