/**
 * A quadtree node of the cube planet: one square plane mesh with renderer and
 * collider switches, a non-owning `parent` and either no children (a leaf) or
 * four, and the lifecycle flags `generated`, `finalized` and `textured`.
 *
 * The source's null `tree` and null `neighbours` arrays are the empty
 * sequence here. The node's square is kept in its plane's local coordinates:
 * `position` is the corner anchor, and `Embed(origin, left, forward, ·)` maps
 * local points to world space.
 *
 * The links between nodes are described by a map from each node to its
 * `tree` (`Links`); `WellLinked` is the quadtree invariant, and `Subtree` and
 * `Leaves` are defined on such a map. A ghost `rank`, larger in a child than
 * in its parent, makes these recursive definitions terminate.
 */
module QuadFace {
  import opened Geometry
  import opened FaceMesh
  import opened Options
  import opened Lod

  /** The engine's default tag of a new face. */
  const Untagged: string := "Untagged"

  /** The parent, as a set: empty for a root. */
  function ParentSet(p: CubeFace?): set<CubeFace> {
    if p == null then {} else {p}
  }

  /**
   * Local corner anchor of child i of a square with corner `corner` and side
   * `s`, in SubDivide's order: (0, s/2), (s/2, s/2), (0, 0), (s/2, 0).
   */
  function ChildCorner(corner: Point2, s: real, i: int): Point2 {
    if i == 0 then Point2(corner.u, corner.v + s / 2.0)
    else if i == 1 then Point2(corner.u + s / 2.0, corner.v + s / 2.0)
    else if i == 2 then corner
    else Point2(corner.u + s / 2.0, corner.v)
  }

  /** Point p lies in the half-open square [corner, corner + s)^2. */
  predicate InSquare(p: Point2, corner: Point2, s: real) {
    corner.u <= p.u < corner.u + s && corner.v <= p.v < corner.v + s
  }

  /**
   * The four child squares of SubDivide tile the parent's square: every point
   * of the parent's square lies in exactly one child's square, and every
   * point of a child's square lies in the parent's.
   */
  lemma QuadrantsTile(corner: Point2, s: real, p: Point2)
    requires s > 0.0
    ensures InSquare(p, corner, s) <==>
      exists i :: 0 <= i < 4 && InSquare(p, ChildCorner(corner, s, i), s / 2.0)
    ensures forall i, j :: 0 <= i < j < 4 ==>
      !(InSquare(p, ChildCorner(corner, s, i), s / 2.0) && InSquare(p, ChildCorner(corner, s, j), s / 2.0))
  {
    var h := s / 2.0;
    if InSquare(p, corner, s) {
      var i := if p.v >= corner.v + h then (if p.u < corner.u + h then 0 else 1)
               else (if p.u < corner.u + h then 2 else 3);
      assert InSquare(p, ChildCorner(corner, s, i), h);
    }
  }

  /** A face's buffers, neighbour cache, switches, tag and lifecycle flags. */
  datatype FaceState = FaceState(neighbours: seq<bool>, mesh: Mesh, sharedMesh: Option<Mesh>,
                                 rendererEnabled: bool, colliderEnabled: bool, tag: string,
                                 generated: bool, finalized: bool, textured: bool)

  class CubeFace {
    const parent: CubeFace?
    var tree: seq<CubeFace>
    var neighbours: seq<bool>

    /** The face's own mesh buffers, and the mesh published to its filter and collider. */
    var mesh: Mesh
    var sharedMesh: Option<Mesh>

    var rendererEnabled: bool
    var colliderEnabled: bool
    var tag: string

    /** The plane of the face: world origin of local (0, 0), and its two axes. */
    const origin: Vec3
    const left: Vec3
    const forward: Vec3
    /** Local corner anchor of the face's square (the centre moved by half a side along both axes). */
    const position: Point2
    const size: int
    const scale: real

    var generated: bool
    var finalized: bool
    var textured: bool

    ghost const rank: nat

    /** Everything about the face that its methods change, except its children. */
    function State(): FaceState
      reads this`neighbours, this`mesh, this`sharedMesh, this`rendererEnabled, this`colliderEnabled
      reads this`tag, this`generated, this`finalized, this`textured
    {
      FaceState(neighbours, mesh, sharedMesh, rendererEnabled, colliderEnabled, tag, generated, finalized, textured)
    }

    /** The state a face is in right after construction. */
    ghost predicate Pristine()
      reads this
    {
      size > 0 && tree == [] && neighbours == [] && sharedMesh == None
      && mesh == GridMesh(origin, left, forward, position, scale, size)
      && generated && !finalized && !textured
      && rendererEnabled && colliderEnabled && tag == Untagged
    }

    /**
     * Initialize: a face centred on local point `centre` of the plane
     * (origin, left, forward), followed by its first Generate.
     */
    constructor (parent: CubeFace?, origin: Vec3, centre: Point2, left: Vec3, forward: Vec3,
                 scale: real, size: int, ghost rank: nat)
      requires size > 0
      requires parent != null ==> parent.rank < rank
      modifies ParentSet(parent)`generated
      modifies ParentSet(parent)`rendererEnabled
      modifies ParentSet(parent)`colliderEnabled
      ensures this.parent == parent && this.size == size && this.scale == scale && this.rank == rank
      ensures this.origin == origin && this.left == left && this.forward == forward
      ensures this.position == Point2(centre.u - scale / 2.0, centre.v - scale / 2.0)
      ensures Pristine()
      ensures parent != null ==> !parent.generated && !parent.rendererEnabled
      ensures parent != null ==> parent.colliderEnabled == old(parent.colliderEnabled)
    {
      this.parent := parent;
      this.size := size;
      this.scale := scale;
      this.origin := origin;
      this.left := left;
      this.forward := forward;
      this.position := Point2(centre.u - scale / 2.0, centre.v - scale / 2.0);
      this.rank := rank;
      tree := [];
      neighbours := [];
      mesh := Mesh([], [], []);
      sharedMesh := None;
      rendererEnabled := true;
      colliderEnabled := true;
      tag := Untagged;
      generated := false;
      finalized := false;
      textured := false;
      new;
      Generate();
    }

    /**
     * First call (or first call after a Dispose): build the grid, uv and
     * triangle buffers, dispose the parent, and mark the face generated.
     * On a generated face: switch its renderer and collider on and the
     * parent's collider off, touching no buffer and no `generated` flag.
     */
    method Generate()
      requires size > 0 && parent != this
      modifies this`mesh, this`generated, this`rendererEnabled, this`colliderEnabled
      modifies ParentSet(parent)`generated
      modifies ParentSet(parent)`rendererEnabled
      modifies ParentSet(parent)`colliderEnabled
      ensures State() == Regenerated(old(State()), GridMesh(origin, left, forward, position, scale, size))
      ensures parent != null ==> parent.State() == ParentAfterGenerate(old(parent.State()), old(generated))
    {
      if generated {
        rendererEnabled := true;
        if parent != null {
          parent.colliderEnabled := false;
        }
        colliderEnabled := true;
        return;
      }
      var verts, uvs := BuildGrid(origin, left, forward, position, scale, size);
      var tris := BuildTriangles(size);
      mesh := Mesh(verts, uvs, tris);
      if parent != null {
        parent.Dispose();
      }
      generated := true;
    }

    /** Texture upload is not modelled; only the one-shot flag is. */
    method Texturize()
      modifies this`textured
      ensures textured
    {
      if textured {
        return;
      }
      textured := true;
    }

    /** Hide the face and mark it for regeneration. */
    method Dispose()
      modifies this`rendererEnabled, this`generated
      ensures !rendererEnabled && !generated
    {
      rendererEnabled := false;
      generated := false;
    }

    /**
     * Merge every child back: each child is merged recursively and then
     * disposed, and the face becomes a leaf. The face's own flags are not
     * touched, and nothing outside its former subtree changes.
     */
    method Merge(ghost nodes: set<CubeFace>, ghost bound: nat)
      requires this in nodes && Forest(nodes, bound)
      modifies Subtree(LinksOf(nodes), bound, this)`tree
      modifies Subtree(LinksOf(nodes), bound, this)`generated
      modifies Subtree(LinksOf(nodes), bound, this)`rendererEnabled
      ensures Forest(nodes, bound)
      ensures tree == [] && generated == old(generated) && rendererEnabled == old(rendererEnabled)
      ensures forall m :: m in old(Subtree(LinksOf(nodes), bound, this)) && m != this ==>
        m.tree == [] && !m.generated && !m.rendererEnabled
      decreases bound - rank, 2
    {
      ghost var l0 := LinksOf(nodes);
      assert NodeLinked(l0, this, bound);
      if tree == [] {
        return;
      }
      MergeChildren(nodes, bound);
      ghost var before := LinksOf(nodes);
      tree := [];
      assert LinksOf(nodes) == before[this := []];
      ClearLinks(before, bound, this);
    }

    /** The loop of Merge: merge and dispose each child in turn. */
    method MergeChildren(ghost nodes: set<CubeFace>, ghost bound: nat)
      requires this in nodes && Forest(nodes, bound) && NodeLinked(LinksOf(nodes), this, bound)
      modifies Subtrees(LinksOf(nodes), bound, rank, tree)`tree
      modifies Subtrees(LinksOf(nodes), bound, rank, tree)`generated
      modifies Subtrees(LinksOf(nodes), bound, rank, tree)`rendererEnabled
      ensures Forest(nodes, bound)
      ensures tree == old(tree) && generated == old(generated) && rendererEnabled == old(rendererEnabled)
      ensures forall m :: m in old(Subtrees(LinksOf(nodes), bound, rank, tree)) ==>
        m.tree == [] && !m.generated && !m.rendererEnabled
      decreases bound - rank, 1
    {
      ghost var l0 := LinksOf(nodes);
      ghost var kids := tree;
      ghost var done: set<CubeFace> := {};
      var t := 0;
      while t < |tree|
        invariant 0 <= t <= |kids| && tree == kids
        invariant Forest(nodes, bound)
        invariant done == Subtrees(l0, bound, rank, kids[..t])
        invariant generated == old(generated) && rendererEnabled == old(rendererEnabled)
        invariant forall m :: m in done ==> m.tree == [] && !m.generated && !m.rendererEnabled
        invariant forall m :: m in nodes && m !in done ==>
          m.tree == l0[m] && m.generated == old(m.generated) && m.rendererEnabled == old(m.rendererEnabled)
      {
        var c := tree[t];
        MergeStep(l0, LinksOf(nodes), bound, this, t);
        SubtreesContains(l0, bound, rank, kids, t);
        ghost var sc := Subtree(l0, bound, c);
        MergeChild(c, nodes, bound);
        forall m | m in done + sc ensures m.tree == [] && !m.generated && !m.rendererEnabled {
          if m in done {
            assert m in nodes && m !in sc;
          }
        }
        forall m | m in nodes && m !in done + sc
          ensures m.tree == l0[m] && m.generated == old(m.generated) && m.rendererEnabled == old(m.rendererEnabled)
        {
        }
        done := done + sc;
        t := t + 1;
      }
      assert kids[..t] == kids;
    }

    /** One round of Merge's loop: merge child c, then dispose it. */
    method MergeChild(c: CubeFace, ghost nodes: set<CubeFace>, ghost bound: nat)
      requires c in nodes && Forest(nodes, bound) && rank < c.rank
      modifies Subtree(LinksOf(nodes), bound, c)`tree
      modifies Subtree(LinksOf(nodes), bound, c)`generated
      modifies Subtree(LinksOf(nodes), bound, c)`rendererEnabled
      ensures Forest(nodes, bound)
      ensures forall m :: m in old(Subtree(LinksOf(nodes), bound, c)) ==>
        m.tree == [] && !m.generated && !m.rendererEnabled
      decreases bound - rank, 0
    {
      assert NodeLinked(LinksOf(nodes), c, bound);
      ghost var sc := Subtree(LinksOf(nodes), bound, c);
      SubtreeRanks(LinksOf(nodes), bound, c);
      c.Merge(nodes, bound);
      c.Dispose();
      forall m | m in sc ensures m.tree == [] && !m.generated && !m.rendererEnabled {
        assert m in nodes;
      }
    }

    /**
     * Replace the children by four fresh half-size faces over the four
     * quadrants of this face's square, then dispose this face.
     */
    method SubDivide(ghost childRank: nat)
      requires size > 0 && rank < childRank
      modifies this`tree, this`generated, this`rendererEnabled, this`colliderEnabled
      ensures |tree| == 4
      ensures forall i, j :: 0 <= i < j < 4 ==> tree[i] != tree[j]
      ensures forall i :: 0 <= i < 4 ==> fresh(tree[i]) && ChildOf(tree[i], this, i, childRank)
      ensures !generated && !rendererEnabled && colliderEnabled == old(colliderEnabled)
    {
      var subPos := Point2(position.u + scale / 2.0, position.v + scale / 2.0);
      var stepLeft := scale / 4.0;
      var stepForward := scale / 4.0;
      var c0 := NewChild(Point2(subPos.u - stepLeft, subPos.v + stepForward), 0, childRank);
      var c1 := NewChild(Point2(subPos.u + stepLeft, subPos.v + stepForward), 1, childRank);
      var c2 := NewChild(Point2(subPos.u - stepLeft, subPos.v - stepForward), 2, childRank);
      var c3 := NewChild(Point2(subPos.u + stepLeft, subPos.v - stepForward), 3, childRank);
      tree := [c0, c1, c2, c3];
      Dispose();
    }

    /** Initialize of child i of this face, centred on `centre`: a half-size face in the same plane. */
    method NewChild(centre: Point2, ghost i: int, ghost childRank: nat) returns (c: CubeFace)
      requires size > 0 && rank < childRank
      requires centre == Point2(ChildCorner(position, scale, i).u + scale / 4.0, ChildCorner(position, scale, i).v + scale / 4.0)
      modifies this`generated, this`rendererEnabled, this`colliderEnabled
      ensures fresh(c) && ChildOf(c, this, i, childRank)
      ensures !generated && !rendererEnabled && colliderEnabled == old(colliderEnabled)
    {
      c := new CubeFace(this, origin, centre, left, forward, scale / 2.0, size, childRank);
    }
  }

  /** Child i of p, as SubDivide creates it: same plane and grid size, half the scale, fresh state. */
  ghost predicate ChildOf(c: CubeFace, p: CubeFace, i: int, childRank: nat)
    reads c
  {
    c.parent == p && c.size == p.size && c.scale == p.scale / 2.0 && c.rank == childRank
    && c.origin == p.origin && c.left == p.left && c.forward == p.forward
    && c.position == ChildCorner(p.position, p.scale, i)
    && c.Pristine()
  }

  /** What Dispose does to a face's state: hidden and marked for regeneration, otherwise as it was. */
  function Disposed(s: FaceState): (r: FaceState)
    ensures !r.generated && !r.rendererEnabled && r.tag == s.tag
  {
    s.(rendererEnabled := false, generated := false)
  }

  /**
   * What Generate does to a face's state, `grid` being the mesh it builds:
   * a generated face keeps its mesh and is switched on; any other face gets
   * the grid and is marked generated, its switches as they were.
   */
  function Regenerated(s: FaceState, grid: Mesh): (r: FaceState)
    ensures r.generated && r.tag == s.tag && r.neighbours == s.neighbours && r.finalized == s.finalized
    ensures r.mesh == (if s.generated then s.mesh else grid)
    ensures s.generated ==> r.rendererEnabled && r.colliderEnabled
    ensures !s.generated ==> r.rendererEnabled == s.rendererEnabled && r.colliderEnabled == s.colliderEnabled
  {
    if s.generated then s.(rendererEnabled := true, colliderEnabled := true)
    else s.(mesh := grid, generated := true)
  }

  /** What Generate does to the parent: a rebuild disposes it, a generated face turns its collider off. */
  function ParentAfterGenerate(p: FaceState, wasGenerated: bool): (r: FaceState)
    ensures r.tag == p.tag
  {
    if wasGenerated then p.(colliderEnabled := false) else Disposed(p)
  }

  /** What Merge leaves of a node below the merged face: a disposed leaf. */
  twostate predicate Cleared(m: CubeFace)
    reads m
  {
    m.tree == [] && m.State() == Disposed(old(m.State()))
  }

  // ---------------------------------------------------------------------------
  // The quadtree invariant

  /** Each node's children, as recorded in its `tree`. */
  type Links = map<CubeFace, seq<CubeFace>>

  /** The links of the nodes of `nodes` in the current heap. */
  ghost function LinksOf(nodes: set<CubeFace>): Links
    reads nodes`tree
  {
    map n | n in nodes :: n.tree
  }

  /**
   * Node n is well linked: 0 or 4 distinct children, each recorded with n as
   * parent and sitting on its quadrant; a parent (when present) is a linked
   * node of smaller rank, same plane and grid size and twice the scale.
   */
  ghost predicate NodeLinked(l: Links, n: CubeFace, bound: nat)
    requires n in l
  {
    && n.rank < bound
    && (|l[n]| == 0 || |l[n]| == 4)
    && (forall i :: 0 <= i < |l[n]| ==> l[n][i] in l && l[n][i].parent == n && n.rank < l[n][i].rank < bound)
    && (forall i :: 0 <= i < |l[n]| ==> l[n][i].position == ChildCorner(n.position, n.scale, i))
    && (forall i, j :: 0 <= i < j < |l[n]| ==> l[n][i] != l[n][j])
    && (n.parent != null ==>
          n.parent in l && n.parent.rank < n.rank && n.size == n.parent.size
          && n.scale == n.parent.scale / 2.0
          && n.origin == n.parent.origin && n.left == n.parent.left && n.forward == n.parent.forward)
  }

  ghost predicate WellLinked(l: Links, bound: nat) {
    forall n {:trigger NodeLinked(l, n, bound)} :: n in l ==> NodeLinked(l, n, bound)
  }

  /** The quadtree invariant over a set of nodes in the current heap. */
  ghost predicate Forest(nodes: set<CubeFace>, bound: nat)
    reads nodes`tree
  {
    WellLinked(LinksOf(nodes), bound)
  }

  /** n and every node below it. */
  ghost function Subtree(l: Links, bound: nat, n: CubeFace): set<CubeFace>
    requires WellLinked(l, bound) && n in l
    decreases bound - n.rank, 1, 0
  {
    assert NodeLinked(l, n, bound);
    {n} + Subtrees(l, bound, n.rank, l[n])
  }

  /** The union of the subtrees of ts, whose ranks are all above r. */
  ghost function Subtrees(l: Links, bound: nat, r: nat, ts: seq<CubeFace>): set<CubeFace>
    requires WellLinked(l, bound) && r < bound
    requires forall i :: 0 <= i < |ts| ==> ts[i] in l && ts[i].rank > r
    decreases bound - r, 0, |ts|
  {
    if ts == [] then {}
    else
      assert NodeLinked(l, ts[|ts| - 1], bound);
      Subtrees(l, bound, r, ts[..|ts| - 1]) + Subtree(l, bound, ts[|ts| - 1])
  }

  /** The leaves below n, depth first in child order. */
  ghost function Leaves(l: Links, bound: nat, n: CubeFace): seq<CubeFace>
    requires WellLinked(l, bound) && n in l
    decreases bound - n.rank, 1, 0
  {
    assert NodeLinked(l, n, bound);
    if l[n] == [] then [n] else LeavesOf(l, bound, n.rank, l[n])
  }

  /** The leaves below each of ts in turn. */
  ghost function LeavesOf(l: Links, bound: nat, r: nat, ts: seq<CubeFace>): seq<CubeFace>
    requires WellLinked(l, bound) && r < bound
    requires forall i :: 0 <= i < |ts| ==> ts[i] in l && ts[i].rank > r
    decreases bound - r, 0, |ts|
  {
    if ts == [] then []
    else
      assert NodeLinked(l, ts[|ts| - 1], bound);
      LeavesOf(l, bound, r, ts[..|ts| - 1]) + Leaves(l, bound, ts[|ts| - 1])
  }

  // ---------------------------------------------------------------------------
  // Lemmas about subtrees

  /** Every node of a subtree is linked and ranks at least as high as its top. */
  lemma {:induction false} SubtreeRanks(l: Links, bound: nat, n: CubeFace)
    requires WellLinked(l, bound) && n in l
    ensures forall m :: m in Subtree(l, bound, n) ==> m in l && m.rank >= n.rank
    decreases bound - n.rank, 1, 0
  {
    assert NodeLinked(l, n, bound);
    SubtreesRanks(l, bound, n.rank, l[n]);
  }

  lemma {:induction false} SubtreesRanks(l: Links, bound: nat, r: nat, ts: seq<CubeFace>)
    requires WellLinked(l, bound) && r < bound
    requires forall i :: 0 <= i < |ts| ==> ts[i] in l && ts[i].rank > r
    ensures forall m :: m in Subtrees(l, bound, r, ts) ==> m in l && m.rank > r
    decreases bound - r, 0, |ts|
  {
    if ts != [] {
      assert NodeLinked(l, ts[|ts| - 1], bound);
      SubtreesRanks(l, bound, r, ts[..|ts| - 1]);
      SubtreeRanks(l, bound, ts[|ts| - 1]);
    }
  }

  /** A node of the subtrees of ts is in the subtree of one of them. */
  lemma {:induction false} SubtreesWitness(l: Links, bound: nat, r: nat, ts: seq<CubeFace>, m: CubeFace)
    returns (i: nat)
    requires WellLinked(l, bound) && r < bound
    requires forall k :: 0 <= k < |ts| ==> ts[k] in l && ts[k].rank > r
    requires m in Subtrees(l, bound, r, ts)
    ensures i < |ts| && m in Subtree(l, bound, ts[i])
    decreases |ts|
  {
    if m in Subtree(l, bound, ts[|ts| - 1]) {
      i := |ts| - 1;
    } else {
      i := SubtreesWitness(l, bound, r, ts[..|ts| - 1], m);
      assert ts[..|ts| - 1][i] == ts[i];
    }
  }

  /**
   * Below its top, every node of a subtree has its parent in the subtree,
   * and is listed among that parent's children.
   */
  lemma {:induction false} SubtreeParent(l: Links, bound: nat, n: CubeFace, m: CubeFace)
    requires WellLinked(l, bound) && n in l && m in Subtree(l, bound, n) && m != n
    ensures m.parent != null && m.parent in Subtree(l, bound, n)
    ensures m.parent in l && m in l[m.parent]
    decreases bound - n.rank
  {
    assert NodeLinked(l, n, bound);
    var i := SubtreesWitness(l, bound, n.rank, l[n], m);
    var c := l[n][i];
    SubtreesContains(l, bound, n.rank, l[n], i);
    if m != c {
      SubtreeParent(l, bound, c, m);
    }
  }

  /** The children of every node of a subtree belong to the subtree. */
  lemma {:induction false} SubtreeHoldsChildren(l: Links, bound: nat, n: CubeFace, m: CubeFace, i: int)
    requires WellLinked(l, bound) && n in l && m in l && m in Subtree(l, bound, n) && 0 <= i < |l[m]|
    ensures l[m][i] in Subtree(l, bound, n)
    decreases bound - n.rank
  {
    assert NodeLinked(l, n, bound);
    if m == n {
      assert NodeLinked(l, l[n][i], bound);
      SubtreesContains(l, bound, n.rank, l[n], i);
    } else {
      var j := SubtreesWitness(l, bound, n.rank, l[n], m);
      SubtreeHoldsChildren(l, bound, l[n][j], m, i);
      SubtreesContains(l, bound, n.rank, l[n], j);
    }
  }

  /** A subtree is a set of linked nodes closed under taking children. */
  lemma {:induction false} SubtreeClosed(l: Links, bound: nat, n: CubeFace)
    requires WellLinked(l, bound) && n in l
    ensures ChildClosed(l, Subtree(l, bound, n))
  {
    SubtreeRanks(l, bound, n);
    forall m, i | m in Subtree(l, bound, n) && 0 <= i < |l[m]| ensures l[m][i] in Subtree(l, bound, n) {
      SubtreeHoldsChildren(l, bound, n, m, i);
    }
  }

  /** Every member of z is linked, and its children are in z. */
  ghost predicate ChildClosed(l: Links, z: set<CubeFace>) {
    forall m :: m in z ==> m in l && forall i :: 0 <= i < |l[m]| ==> l[m][i] in z
  }

  /** Face n is r, or r is reached from n by following parents. */
  ghost predicate Descends(n: CubeFace, r: CubeFace)
    decreases n.rank
  {
    n == r || (n.parent != null && n.parent.rank < n.rank && Descends(n.parent, r))
  }

  /** Every node of the subtree of n descends from n. */
  lemma {:induction false} SubtreeDescends(l: Links, bound: nat, n: CubeFace, m: CubeFace)
    requires WellLinked(l, bound) && n in l && m in Subtree(l, bound, n)
    ensures Descends(m, n)
    decreases m.rank
  {
    if m != n {
      SubtreeParent(l, bound, n, m);
      assert NodeLinked(l, m.parent, bound);
      SubtreeDescends(l, bound, n, m.parent);
    }
  }

  /**
   * Every linked node whose parent is in z is in z: then the linked part of z
   * is closed under taking children.
   */
  lemma HereditaryChildClosed(l: Links, bound: nat, z: set<CubeFace>)
    requires WellLinked(l, bound)
    requires forall n :: n in l && n.parent != null && n.parent in z ==> n in z
    ensures ChildClosed(l, z * l.Keys)
  {
    forall m | m in z * l.Keys ensures m in l && forall i :: 0 <= i < |l[m]| ==> l[m][i] in z * l.Keys {
      assert m in l.Keys;
      assert NodeLinked(l, m, bound);
    }
  }

  /** A set closed under taking children holds the whole subtree of each of its members. */
  lemma {:induction false} SubtreeWithin(l: Links, bound: nat, z: set<CubeFace>, n: CubeFace)
    requires WellLinked(l, bound) && ChildClosed(l, z) && n in z
    ensures Subtree(l, bound, n) <= z
    decreases bound - n.rank, 1, 0
  {
    assert NodeLinked(l, n, bound);
    SubtreesWithin(l, bound, z, n.rank, l[n]);
  }

  lemma {:induction false} SubtreesWithin(l: Links, bound: nat, z: set<CubeFace>, r: nat, ts: seq<CubeFace>)
    requires WellLinked(l, bound) && ChildClosed(l, z) && r < bound
    requires forall i :: 0 <= i < |ts| ==> ts[i] in l && ts[i].rank > r && ts[i] in z
    ensures Subtrees(l, bound, r, ts) <= z
    decreases bound - r, 0, |ts|
  {
    if ts != [] {
      assert NodeLinked(l, ts[|ts| - 1], bound);
      SubtreesWithin(l, bound, z, r, ts[..|ts| - 1]);
      SubtreeWithin(l, bound, z, ts[|ts| - 1]);
    }
  }

  /** The subtree of ts[i] is part of the subtrees of ts. */
  lemma {:induction false} SubtreesContains(l: Links, bound: nat, r: nat, ts: seq<CubeFace>, i: nat)
    requires WellLinked(l, bound) && r < bound
    requires forall k :: 0 <= k < |ts| ==> ts[k] in l && ts[k].rank > r
    requires i < |ts|
    ensures Subtree(l, bound, ts[i]) <= Subtrees(l, bound, r, ts)
    decreases |ts|
  {
    if i < |ts| - 1 {
      SubtreesContains(l, bound, r, ts[..|ts| - 1], i);
      assert ts[..|ts| - 1][i] == ts[i];
    }
  }

  /** No node lies below two different faces that share a parent. */
  lemma {:induction false} NoSharedDescendant(l: Links, bound: nat, a: CubeFace, c: CubeFace, m: CubeFace)
    requires WellLinked(l, bound) && a in l && c in l && a != c
    requires a.parent != null && a.parent == c.parent
    ensures !(m in Subtree(l, bound, a) && m in Subtree(l, bound, c))
    decreases m.rank
  {
    if m in Subtree(l, bound, a) && m in Subtree(l, bound, c) {
      assert NodeLinked(l, a, bound) && NodeLinked(l, c, bound);
      SubtreeRanks(l, bound, a);
      SubtreeRanks(l, bound, c);
      if m == a {
        SubtreeParent(l, bound, c, m);
        assert false;
      } else if m == c {
        SubtreeParent(l, bound, a, m);
        assert false;
      } else {
        SubtreeParent(l, bound, a, m);
        SubtreeParent(l, bound, c, m);
        assert NodeLinked(l, m, bound);
        NoSharedDescendant(l, bound, a, c, m.parent);
      }
    }
  }

  /** The subtree of child t of p is disjoint from the subtrees of the children before it. */
  lemma {:induction false} SubtreesBefore(l: Links, bound: nat, p: CubeFace, t: nat)
    requires WellLinked(l, bound) && p in l && t < |l[p]|
    ensures NodeLinked(l, p, bound)
    ensures Subtrees(l, bound, p.rank, l[p][..t]) !! Subtree(l, bound, l[p][t])
    ensures p !in Subtree(l, bound, l[p][t]) && p !in Subtrees(l, bound, p.rank, l[p][..t])
  {
    assert NodeLinked(l, p, bound);
    var kids := l[p];
    assert NodeLinked(l, kids[t], bound);
    SubtreeRanks(l, bound, kids[t]);
    SubtreesRanks(l, bound, p.rank, kids[..t]);
    forall m | m in Subtrees(l, bound, p.rank, kids[..t]) && m in Subtree(l, bound, kids[t])
      ensures false
    {
      var i := SubtreesWitness(l, bound, p.rank, kids[..t], m);
      assert kids[..t][i] == kids[i];
      NoSharedDescendant(l, bound, kids[i], kids[t], m);
    }
  }

  /**
   * A subtree depends only on the links of its own nodes: two link maps that
   * agree on the subtree's nodes give the same subtree.
   */
  lemma {:induction false} SubtreeAgree(l1: Links, l2: Links, bound: nat, n: CubeFace)
    requires WellLinked(l1, bound) && WellLinked(l2, bound) && n in l1
    requires forall m :: m in Subtree(l1, bound, n) ==> m in l1 && m in l2 && l2[m] == l1[m]
    ensures n in l2 && Subtree(l2, bound, n) == Subtree(l1, bound, n)
    decreases bound - n.rank, 1, 0
  {
    assert NodeLinked(l1, n, bound);
    SubtreesAgree(l1, l2, bound, n.rank, l1[n]);
  }

  lemma {:induction false} SubtreesAgree(l1: Links, l2: Links, bound: nat, r: nat, ts: seq<CubeFace>)
    requires WellLinked(l1, bound) && WellLinked(l2, bound) && r < bound
    requires forall i :: 0 <= i < |ts| ==> ts[i] in l1 && ts[i].rank > r
    requires forall m :: m in Subtrees(l1, bound, r, ts) ==> m in l1 && m in l2 && l2[m] == l1[m]
    ensures (forall i :: 0 <= i < |ts| ==> ts[i] in l2)
    ensures Subtrees(l2, bound, r, ts) == Subtrees(l1, bound, r, ts)
    decreases bound - r, 0, |ts|
  {
    if ts != [] {
      var last := ts[|ts| - 1];
      assert NodeLinked(l1, last, bound);
      SubtreesAgree(l1, l2, bound, r, ts[..|ts| - 1]);
      SubtreeAgree(l1, l2, bound, last);
    }
  }

  /**
   * One round of Merge's loop over the children of p, on the link maps before
   * the loop (l0) and now (l1): the nodes merged so far are the subtrees of
   * the children before t, child t's subtree is disjoint from them and from p,
   * and it is unchanged because its links are.
   */
  lemma {:induction false} MergeStep(l0: Links, l1: Links, bound: nat, p: CubeFace, t: nat)
    requires WellLinked(l0, bound) && WellLinked(l1, bound) && p in l0 && t < |l0[p]|
    requires l1.Keys == l0.Keys && NodeLinked(l0, p, bound)
    requires forall m :: m in l0 && m !in Subtrees(l0, bound, p.rank, l0[p][..t]) ==> l1[m] == l0[m]
    ensures var done := Subtrees(l0, bound, p.rank, l0[p][..t]);
      var sc := Subtree(l0, bound, l0[p][t]);
      && done !! sc && p !in sc && p !in done
      && (forall m :: m in done + sc ==> m in l0)
      && Subtree(l1, bound, l0[p][t]) == sc
      && Subtrees(l0, bound, p.rank, l0[p][..t + 1]) == done + sc
  {
    SubtreesBefore(l0, bound, p, t);
    var c := l0[p][t];
    SubtreeRanks(l0, bound, c);
    SubtreesRanks(l0, bound, p.rank, l0[p][..t]);
    SubtreeAgree(l0, l1, bound, c);
    assert l0[p][..t + 1][..t] == l0[p][..t];
  }

  /** Making one node a leaf keeps the links well formed. */
  lemma ClearLinks(l: Links, bound: nat, x: CubeFace)
    requires WellLinked(l, bound) && x in l
    ensures WellLinked(l[x := []], bound)
  {
    var l' := l[x := []];
    forall n | n in l' ensures NodeLinked(l', n, bound) {
      assert NodeLinked(l, n, bound);
    }
  }

  /** The links after Merge on a face whose subtree is s: the nodes of s are leaves, the others keep their children. */
  ghost predicate MergedLinks(l: Links, l2: Links, s: set<CubeFace>) {
    l2.Keys == l.Keys && forall m :: m in l ==> l2[m] == if m in s then [] else l[m]
  }

  /** A Merge never adds a node to any subtree. */
  lemma {:induction false} ShrunkSubtree(l: Links, l2: Links, bound: nat, s: set<CubeFace>, n: CubeFace)
    requires WellLinked(l, bound) && WellLinked(l2, bound) && MergedLinks(l, l2, s) && n in l
    ensures Subtree(l2, bound, n) <= Subtree(l, bound, n)
  {
    SubtreeClosed(l, bound, n);
    assert NodeLinked(l, n, bound);
    SubtreeWithin(l2, bound, Subtree(l, bound, n), n);
  }

  /**
   * A Merge on x removes from any subtree only nodes of x's own subtree: what
   * was below n is still below n, or was below x.
   */
  lemma {:induction false} MergedSubtree(l: Links, l2: Links, bound: nat, x: CubeFace, n: CubeFace)
    requires WellLinked(l, bound) && WellLinked(l2, bound) && x in l && n in l
    requires MergedLinks(l, l2, Subtree(l, bound, x))
    ensures Subtree(l, bound, n) <= Subtree(l2, bound, n) + Subtree(l, bound, x)
  {
    var s := Subtree(l, bound, x);
    SubtreeClosed(l, bound, x);
    SubtreeClosed(l2, bound, n);
    assert NodeLinked(l2, n, bound);
    SubtreeWithin(l, bound, Subtree(l2, bound, n) + s, n);
  }

  // ---------------------------------------------------------------------------
  // Depth

  /** Number of parent steps from n up to its root. */
  ghost function Depth(l: Links, bound: nat, n: CubeFace): nat
    requires WellLinked(l, bound) && n in l
    decreases n.rank
  {
    assert NodeLinked(l, n, bound);
    if n.parent == null then 0 else 1 + Depth(l, bound, n.parent)
  }

  /** Scale halves at every level: a node d levels below roots of scale s has scale s / 2^d. */
  lemma {:induction false} ScaleAtDepth(l: Links, bound: nat, n: CubeFace, rootScale: real)
    requires WellLinked(l, bound) && n in l
    requires forall m :: m in l && m.parent == null ==> m.scale == rootScale
    ensures n.scale * Pow2(Depth(l, bound, n)) as real == rootScale
    decreases n.rank
  {
    assert NodeLinked(l, n, bound);
    if n.parent != null {
      var p := n.parent;
      ScaleAtDepth(l, bound, p, rootScale);
      var k := Pow2(Depth(l, bound, p)) as real;
      assert Pow2(Depth(l, bound, n)) as real == 2.0 * k;
      assert n.scale * (2.0 * k) == (n.scale * 2.0) * k;
    }
  }

  /**
   * When every parent is coarser than grid, a node with a parent sits at
   * least one level down, and grid * 2^(depth-1) is below the roots' scale.
   */
  lemma {:induction false} DepthBelowGrid(l: Links, bound: nat, n: CubeFace, rootScale: real, grid: real)
    requires WellLinked(l, bound) && n in l && n.parent != null
    requires forall m :: m in l && m.parent == null ==> m.scale == rootScale
    requires forall m :: m in l && m.parent != null ==> m.parent.scale > grid
    ensures Depth(l, bound, n) > 0 && grid * Pow2(Depth(l, bound, n) - 1) as real < rootScale
  {
    assert NodeLinked(l, n, bound);
    var p := n.parent;
    ScaleAtDepth(l, bound, p, rootScale);
    var k := Pow2(Depth(l, bound, p)) as real;
    assert Depth(l, bound, n) - 1 == Depth(l, bound, p);
    assert p.scale > grid && k > 0.0;
    ScaledBelow(grid, p.scale, k);
    assert grid * k < rootScale;
  }

  /** Multiplying by a positive factor keeps a strict order. */
  lemma ScaledBelow(a: real, b: real, k: real)
    requires a < b && k > 0.0
    ensures a * k < b * k
  {
    assert b * k - a * k == (b - a) * k;
  }

  // ---------------------------------------------------------------------------
  // Lemmas about leaves

  /** Every face Leaves lists is a node of the subtree without children. */
  lemma {:induction false} LeavesSound(l: Links, bound: nat, n: CubeFace)
    requires WellLinked(l, bound) && n in l
    ensures forall m :: m in Leaves(l, bound, n) ==> m in Subtree(l, bound, n) && m in l && l[m] == []
    decreases bound - n.rank, 1, 0
  {
    assert NodeLinked(l, n, bound);
    if l[n] != [] {
      LeavesOfSound(l, bound, n.rank, l[n]);
    }
  }

  lemma {:induction false} LeavesOfSound(l: Links, bound: nat, r: nat, ts: seq<CubeFace>)
    requires WellLinked(l, bound) && r < bound
    requires forall i :: 0 <= i < |ts| ==> ts[i] in l && ts[i].rank > r
    ensures forall m :: m in LeavesOf(l, bound, r, ts) ==> m in Subtrees(l, bound, r, ts) && m in l && l[m] == []
    decreases bound - r, 0, |ts|
  {
    if ts != [] {
      var last := ts[|ts| - 1];
      assert NodeLinked(l, last, bound);
      LeavesOfSound(l, bound, r, ts[..|ts| - 1]);
      LeavesSound(l, bound, last);
    }
  }

  /** Every node of the subtree without children is listed by Leaves. */
  lemma {:induction false} LeavesComplete(l: Links, bound: nat, n: CubeFace, m: CubeFace)
    requires WellLinked(l, bound) && n in l
    requires m in Subtree(l, bound, n) && m in l && l[m] == []
    ensures m in Leaves(l, bound, n)
    decreases bound - n.rank, 1, 0
  {
    assert NodeLinked(l, n, bound);
    if m != n {
      LeavesOfComplete(l, bound, n.rank, l[n], m);
    }
  }

  lemma {:induction false} LeavesOfComplete(l: Links, bound: nat, r: nat, ts: seq<CubeFace>, m: CubeFace)
    requires WellLinked(l, bound) && r < bound
    requires forall i :: 0 <= i < |ts| ==> ts[i] in l && ts[i].rank > r
    requires m in Subtrees(l, bound, r, ts) && m in l && l[m] == []
    ensures m in LeavesOf(l, bound, r, ts)
    decreases bound - r, 0, |ts|
  {
    var last := ts[|ts| - 1];
    assert NodeLinked(l, last, bound);
    if m in Subtree(l, bound, last) {
      LeavesComplete(l, bound, last, m);
    } else {
      LeavesOfComplete(l, bound, r, ts[..|ts| - 1], m);
    }
  }

  // ---------------------------------------------------------------------------
  // Growing the forest

  /** The links after x gains the children kids, each a new leaf. */
  ghost function Grow(l: Links, x: CubeFace, kids: seq<CubeFace>): Links {
    l[x := kids] + map k | k in kids :: []
  }

  /**
   * Giving a node of the forest four new, distinct children made as SubDivide
   * makes them (of the rank `bound`) keeps the forest well linked under the
   * next bound.
   */
  lemma AddChildren(l: Links, bound: nat, x: CubeFace, kids: seq<CubeFace>)
    requires WellLinked(l, bound) && x in l
    requires |kids| == 4 && forall i, j :: 0 <= i < j < 4 ==> kids[i] != kids[j]
    requires forall i :: 0 <= i < 4 ==> kids[i] !in l && ChildOf(kids[i], x, i, bound)
    ensures WellLinked(Grow(l, x, kids), bound + 1)
  {
    var g := Grow(l, x, kids);
    forall n | n in g ensures NodeLinked(g, n, bound + 1) {
      assert NodeLinked(l, x, bound);
      if n in kids {
        var i :| 0 <= i < 4 && kids[i] == n;
        assert ChildOf(kids[i], x, i, bound);
      } else {
        assert NodeLinked(l, n, bound);
        if n == x {
          forall i | 0 <= i < 4 ensures kids[i] in g && kids[i].parent == n && n.rank < kids[i].rank < bound + 1 {
            assert ChildOf(kids[i], x, i, bound);
          }
          forall i | 0 <= i < 4 ensures kids[i].position == ChildCorner(n.position, n.scale, i) {
            assert ChildOf(kids[i], x, i, bound);
          }
        }
      }
    }
  }

  /** Leaves without parents make a well-linked forest. */
  lemma RootsLinked(l: Links, bound: nat)
    requires forall n :: n in l ==> l[n] == [] && n.parent == null && n.rank < bound
    ensures WellLinked(l, bound)
  {
    forall n | n in l ensures NodeLinked(l, n, bound) {
    }
  }
}
