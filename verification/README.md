# Cube planet quadtree, in Dafny

A model of the level-of-detail core of a Unity cube planet. The planet is six
square plane meshes, one per side of a cube (`CubePlanet`). Each plane is the
root of a quadtree of `CubeFace` nodes. A leaf is a visible mesh of
`size x size` cells. A node with children has four half-size children
covering its four quadrants.

The update pass (`Update(f)`) collects the leaves of root `f` once, depth
first. It then gives each leaf one of four branches, chosen by the player's
distance to it:

- merge the leaf back and regenerate it;
- merge its parent back and regenerate the parent;
- subdivide it;
- tag it as highest detail.

Regenerating a face also finalises it once. Finalising resolves the face's
four neighbour directions by raycast, welds its vertices to each neighbour's
published mesh, and publishes the face's own mesh.

Files:

- `geometry.dfy`: exact-real vectors, plane coordinates, and the centring and
  offset algebra of a face's plane.
- `root_layout.dfy`: the six root placements and their axis properties.
- `face_mesh.dfy`: the vertex, uv and triangle buffers `Generate` builds, as
  functions, and the loops that fill them, proved against those functions.
- `weld.dfy`: the seam-weld copy loop and what each direction does.
- `lod.dfy`: the branch rule of the update pass.
- `quad_face.dfy`: the `CubeFace` class (generate, dispose, merge, subdivide)
  and the quadtree invariant (`Forest`) with its subtree and leaf lemmas.
- `cube_planet.dfy`: the `CubePlanet` class: roots, neighbour resolution,
  finalisation, leaf collection and the update pass.

The quadtree is kept as the faces' own `tree` fields. A ghost set of every
face created so far (`nodes`) and a ghost rank bound (`bound`) let the planet
state its invariant, `Valid()`. That invariant says: six parentless roots;
every node with zero or four distinct children on their quadrants; every
parent of twice its child's scale, in the same plane.

Every CubePlanet method that changes the quadtree's nodes or links keeps
`Valid()` and `Sized()`; the ones that work on a single face's mesh
(`WeldMeshes`, `ProcessNeighbours`, `ResolveDirection`, `FinalizeFace`,
`TagFace`) change only the fields of that face their `modifies` names.
`Sized()` says every face holds a whole grid of vertices and a neighbour cache of
zero or four entries. CubeFace's own `Merge` and `SubDivide` see one face and
its links, not the six roots: `Merge` keeps `Forest`, the link part of
`Valid()`, and after `SubDivide` the lemma `GrownForest` shows that the faces
and the four new children again form a `Forest`. Each CubePlanet method's
`ensures` ties its result to a specification function:
`Leaves`, `ResolveFrom`, `Finalize`, `Rebuild`, `Welded`, `GridMesh` or
`LodDecision`. A state-changing method also states which faces it leaves as
they were.

The specification functions model these source lines: `Leaves` the depth-first
collection of Planet/CubePlanet.cs:197-204; `ResolveFrom` the direction loop of
Planet/CubePlanet.cs:139-159; `Finalize` Planet/CubePlanet.cs:169-190;
`WeldBounds` the direction switch and `Welded` the copy loop of
Planet/CubePlanet.cs:96-128; `RootLayout` the six placements of
Planet/CubePlanet.cs:57-64; `GridMesh` and its parts the buffers of
Planet/CubeFace.cs:96-131; `ChildCorner` the quadrant corners of
Planet/CubeFace.cs:203-215; `Regenerated`, `ParentAfterGenerate` and `Disposed`
the state changes of Planet/CubeFace.cs:82-137 and 191-195; `LodDecision` the
branch tests of Planet/CubePlanet.cs:226-250.

## Model

| member | source | states |
|---|---|---|
| Geometry.CentreInPlane | Planet/CubeFace.cs:57-59 | Moving the anchor back by half a side along `left` and `forward` equals shifting the local point by (-s/2, -s/2) in the plane. |
| Geometry.OffsetInPlane | Planet/CubeFace.cs:107-113 | The vertex `position + left*px*scale + forward*pz*scale` is the plane point at local offset (px*scale, pz*scale) from the anchor. |
| Geometry.AxisOf | Planet/CubePlanet.cs:57-64 | A unit axis vector has exactly one nonzero coordinate, equal to ±1. |
| Layout.RootAxes | Planet/CubePlanet.cs:54-64 | Each root's `left` and `forward` are unit vectors along two different world axes. Its centre lies on the third axis at distance scale/2. |
| Layout.RootFramesDistinct | Planet/CubePlanet.cs:57-64 | No two roots have the same pair of axes. |
| Layout.RootOriginsDistinct | Planet/CubePlanet.cs:54-64 | For a nonzero scale, the six root centres are six different points. |
| FaceMesh.GridMesh | Planet/CubeFace.cs:96-99 | The vertex and uv buffers hold (size+1)^2 entries; the triangle buffer holds size*size*6. |
| FaceMesh.GridPointAt | Planet/CubeFace.cs:102-115 | Grid point (x, z) is in buffer slot z*(size+1)+x, inside the buffer. Its vertex is at local offset (x*scale/size, z*scale/size) from the anchor; its uv is (x/size, z/size). |
| FaceMesh.GridCorners | Planet/CubeFace.cs:102-115 | The first vertex is the anchor corner and the last is the opposite corner; their uvs are (0,0) and (1,1). |
| FaceMesh.UvAt | Planet/CubeFace.cs:100-112 | The uv `(x*uvFactor, z*uvFactor)` with `uvFactor = 1/size` is the uv buffer's entry for grid point (x, z), in slot z*(size+1)+x. |
| FaceMesh.VertexAt | Planet/CubeFace.cs:107-113 | The plane point at offset (px*scale, pz*scale), with px = x/size and pz = z/size, is the vertex buffer's entry for grid point (x, z). |
| FaceMesh.TriangleCell | Planet/CubeFace.cs:120-130 | Cell (x, y) emits the triangles ((x,y),(x,y+1),(x+1,y)) and ((x+1,y),(x,y+1),(x+1,y+1)). |
| FaceMesh.CellSlots | Planet/CubeFace.cs:125-128 | The six slots of cell (x, y), from its first slot ti and base vertex vi, hold vi, vi+size+1, vi+1, vi+1, vi+size+1, vi+size+2, all inside the buffer. |
| FaceMesh.SlotCell | Planet/CubeFace.cs:121-123 | Every triangle index slot belongs to exactly one grid cell, as one of its six slots. |
| FaceMesh.TrianglesInRange | Planet/CubeFace.cs:120-131 | Every triangle index names an existing vertex, in [0, (size+1)^2). |
| FaceMesh.BuildGrid | Planet/CubeFace.cs:96-118 | The vertex and uv loops fill the buffers with exactly `GridVertices` and `GridUvs`. |
| FaceMesh.FillRow | Planet/CubeFace.cs:105-114 | One row pass extends the correctly filled prefix by the row's size+1 slots. |
| FaceMesh.GridPointAndUv | Planet/CubeFace.cs:107-113 | The loop body, computing `position + left*px*scale + forward*pz*scale` and `(x*uvFactor, z*uvFactor)` as Generate does, yields the vertex and uv buffer entries of grid point (x, z). |
| FaceMesh.BuildTriangles | Planet/CubeFace.cs:120-131 | The triangle loop, with its separate `ti` and `vi` counters, fills the buffer with exactly `Triangles`. |
| FaceMesh.WriteCell | Planet/CubeFace.cs:125-128 | The six writes of one cell extend the correctly filled prefix by six slots. |
| Weld.WholeGridTouched | Planet/CubePlanet.cs:96-128 | For directions 0 and 2 the copy loop touches exactly the slots of the whole grid. |
| Weld.WeldWholeGrid | Planet/CubePlanet.cs:96-128 | For directions 0 and 2 the weld stays inside both buffers iff each holds a whole grid. Then the face's grid-sized buffer becomes a copy of the neighbour's. |
| Weld.WeldNothing | Planet/CubePlanet.cs:96-128 | For directions 1, 3 and any other value, the row range is empty: the weld never fails and changes nothing. |
| Weld.WeldIdempotent | Planet/CubePlanet.cs:120-128 | Welding twice from the same neighbour buffer equals welding once. |
| Weld.WeldRows | Planet/CubePlanet.cs:120-128 | The row loop succeeds iff both buffers cover its rows, and then leaves the face's buffer equal to `Welded`. |
| Weld.CopyRow | Planet/CubePlanet.cs:122-127 | One row pass returns true after copying the row's size+1 slots from the neighbour, leaving every other slot as it was; it returns false exactly when the row's end lies past either buffer. |
| Lod.LodDecision | Planet/CubePlanet.cs:226-250 | The four branches partition the inputs. Regenerate or escalate iff dist > face scale. Escalate only with a parent, beyond three planet scales. Subdivide iff near and face scale > size. Tag iff near and face scale <= size. |
| QuadFace.QuadrantsTile | Planet/CubeFace.cs:201-216 | The four child squares tile the parent's square: each point of it lies in exactly one child square, and child squares lie inside it. |
| QuadFace.CubeFace.constructor | Planet/CubeFace.cs:48-76 | A new face is centred on the given point (anchor = centre - scale/2 on both axes) and holds the full grid mesh. It is a generated, visible leaf with no neighbour cache. A parent, when given, is disposed; the parent's collider is untouched. |
| QuadFace.CubeFace.Generate | Planet/CubeFace.cs:82-137 | The face's new state is `Regenerated` of its old one with the grid mesh, and its parent's is `ParentAfterGenerate`. |
| QuadFace.Regenerated | Planet/CubeFace.cs:82-137 | Generate's effect on the face: it ends generated with tag, cache and finalised flag kept. A generated face keeps its mesh and switches renderer and collider on; any other gets the grid mesh with its switches unchanged. |
| QuadFace.ParentAfterGenerate | Planet/CubeFace.cs:84-134 | Generate's effect on the parent: a generated face turns the parent's collider off; a rebuild disposes the parent. The parent's tag is kept. |
| QuadFace.CubeFace.Texturize | Planet/CubeFace.cs:143-172 | The face ends textured; a textured face is left alone. |
| QuadFace.CubeFace.Dispose | Planet/CubeFace.cs:191-195 | Renderer off, and not generated. |
| QuadFace.Disposed | Planet/CubeFace.cs:191-195 | Dispose's effect on a face's state: hidden and not generated, tag kept. |
| QuadFace.CubeFace.Merge | Planet/CubeFace.cs:177-189 | The face becomes a leaf with its own flags unchanged. Every node strictly below it becomes a hidden, ungenerated leaf. Every other node is unchanged. The forest stays well linked. |
| QuadFace.CubeFace.MergeChildren | Planet/CubeFace.cs:182-186 | The loop over the children disposes exactly the subtrees of the children and leaves every other node unchanged. |
| QuadFace.CubeFace.MergeChild | Planet/CubeFace.cs:184-185 | Merging then disposing child c hides and clears exactly c's subtree. |
| QuadFace.CubeFace.SubDivide | Planet/CubeFace.cs:201-218 | The face gets four distinct fresh children: half the scale, same plane and grid size, anchored on quadrants 0..3 in source order, each a pristine generated leaf. The face is then disposed; its collider is kept. |
| QuadFace.CubeFace.NewChild | Planet/CubeFace.cs:212-215 | One child constructor call builds the child over its quadrant and disposes the parent. |
| QuadFace.SubtreeRanks | Planet/CubeFace.cs:177-189 | Every node of a subtree is a linked node ranked at least as high as its top. |
| QuadFace.SubtreeParent | Planet/CubeFace.cs:211-216 | Below the top of a subtree, every node's parent is in the subtree and lists it as a child. |
| QuadFace.SubtreeClosed | Planet/CubeFace.cs:182-186 | A subtree holds every child of each of its nodes. |
| QuadFace.SubtreeDescends | Planet/CubePlanet.cs:197-204 | Every node of a subtree reaches its top by following parent links. |
| QuadFace.HereditaryChildClosed | Planet/CubeFace.cs:211-216 | A set that holds every node whose parent it holds also holds every child of its nodes. |
| QuadFace.SubtreeWithin | Planet/CubeFace.cs:182-186 | A set closed under children that holds a node holds the node's whole subtree. |
| QuadFace.NoSharedDescendant | Planet/CubeFace.cs:211-216 | Two different children of one parent have disjoint subtrees. |
| QuadFace.SubtreesBefore | Planet/CubeFace.cs:182-186 | Child t's subtree is disjoint from its elder siblings' subtrees and from the parent. |
| QuadFace.SubtreeAgree | Planet/CubeFace.cs:182-186 | A subtree depends only on the links of its own nodes. |
| QuadFace.MergeStep | Planet/CubeFace.cs:182-186 | One round of Merge's loop: child t's subtree is disjoint from the nodes merged so far, and unchanged by them. |
| QuadFace.ClearLinks | Planet/CubeFace.cs:188 | Making a node a leaf keeps the forest well linked. |
| QuadFace.ShrunkSubtree | Planet/CubeFace.cs:177-189 | When Merge empties the children of some nodes, every subtree can only shrink. |
| QuadFace.MergedSubtree | Planet/CubeFace.cs:177-189 | After merging x's subtree, another node's old subtree lies within its new subtree plus x's old subtree. |
| QuadFace.ScaleAtDepth | Planet/CubeFace.cs:209-215 | Each level halves the scale: a node d levels below its root has scale * 2^d equal to the root's scale. |
| QuadFace.DepthBelowGrid | Planet/CubePlanet.cs:242-244 | A node with a parent lies at depth d > 0, and since its parent was split only while coarser than the grid size, size * 2^(d-1) is below the root's scale. |
| QuadFace.LeavesSound | Planet/CubePlanet.cs:197-204 | Every face `Leaves` lists is a childless node of the subtree. |
| QuadFace.LeavesComplete | Planet/CubePlanet.cs:197-204 | Every childless node of the subtree is listed by `Leaves`. |
| QuadFace.AddChildren | Planet/CubeFace.cs:211-216 | Giving a node four new distinct children, made as SubDivide makes them, keeps the forest well linked. |
| QuadFace.RootsLinked | Planet/CubePlanet.cs:55-65 | Parentless leaves form a well-linked forest. |
| Planet.NewRoot | Planet/CubePlanet.cs:57-64 | Root i is a fresh, pristine, parentless face, centred on its side's origin with that side's axes. |
| Planet.NewRoots | Planet/CubePlanet.cs:55-65 | The six roots, in the order front, back, left, right, top, bottom. |
| Planet.ResolveFrom | Planet/CubePlanet.cs:139-159 | The walk keeps the lengths of the cache and of the vertex buffer. |
| Planet.ResolveKnown | Planet/CubePlanet.cs:139-159 | A walk from direction n keeps every resolved direction resolved and leaves the directions before n alone. After a complete walk, each direction from n on has a cache entry, resolved iff it already was or its raycast hit a planet face. |
| Planet.CacheResolved | Planet/CubePlanet.cs:136-159 | From a face's cache: no cache becomes four entries, a cache keeps its length, and resolved entries stay resolved. After a complete walk, direction d is resolved iff it was cached as resolved or its raycast hit a planet face. |
| Planet.OddDirectionsKeepVertices | Planet/CubePlanet.cs:139-159 | When neither direction 0 nor 2 welds, the face's vertices come out unchanged. |
| Planet.GridMeshesAlwaysWeld | Planet/CubePlanet.cs:139-159 | A four-entry cache, a grid-sized face buffer and neighbour meshes of at least a grid: the walk always completes. |
| Planet.Finalize | Planet/CubePlanet.cs:169-190 | Finalisation keeps the face's tag and generated flag, and marks it finalised exactly when it reports success. |
| Planet.Rebuild | Planet/CubePlanet.cs:231-232 | Generate followed by FinalizeFace leaves the face generated with its tag unchanged. |
| Planet.GrownLinks | Planet/CubeFace.cs:211-216 | After SubDivide, the planet's link map is the old one with x's four children added as leaves. |
| Planet.GrownForest | Planet/CubePlanet.cs:242-245 | After SubDivide the faces and the new children form a well-linked forest of one grid size. |
| Planet.CubePlanet.constructor | Planet/CubePlanet.cs:49-65 | Six distinct fresh roots, root i placed on side i, form the whole valid forest. |
| Planet.CubePlanet.RootZone | Planet/CubePlanet.cs:219-220 | The faces descending from a root are closed under taking parents and children, and hold the root's subtree and every leaf the pass collects from it. |
| Planet.CubePlanet.ReachWithin | Planet/CubePlanet.cs:226-240 | A set of faces closed under parents and children that holds x holds everything a far round on x can change: the subtrees of x and of its parent, and their parents. |
| Planet.CubePlanet.DepthBounded | Planet/CubePlanet.cs:242-245 | A face d levels below its root has the planet scale divided by 2^d. A face with a parent has d > 0 and size * 2^(d-1) below the planet scale, so the quadtree's depth is bounded. |
| Planet.CubePlanet.WeldMeshes | Planet/CubePlanet.cs:74-132 | Succeeds iff both buffers cover the weld's rows. On success the face's vertices become `Welded`; on failure the face's mesh is unchanged. |
| Planet.CubePlanet.ProcessNeighbours | Planet/CubePlanet.cs:134-162 | The face's cache, vertices and success equal `ResolveFrom` from its cache, or from four unresolved directions when it has none. No cache becomes a four-entry cache; a cache keeps its length; resolved entries stay resolved. On success, d is resolved iff it was cached or its raycast hit a planet face. The face is textured iff the walk completes or it already was. |
| Planet.CubePlanet.ResolveDirection | Planet/CubePlanet.cs:141-157 | One direction's pass preserves `ResolveFrom` of the remaining walk. On failure the state is the walk's final state. |
| Planet.CubePlanet.FinalizeFace | Planet/CubePlanet.cs:169-190 | The face's new state and the result are `Finalize` of its old state: a finalised face is unchanged; any other ends as `ResolveFrom` says, published and finalised iff the walk completes. The vertex count is kept; the cache keeps its length or goes from none to four entries. It succeeds when the face holds a grid, its cache has zero or four entries, and every planet hit publishes at least a grid. |
| Planet.CubePlanet.GetActiveQuadTreeFaces | Planet/CubePlanet.cs:197-204 | Appends exactly `Leaves` of the face, depth first in child order. |
| Planet.CubePlanet.MergeFace | Planet/CubePlanet.cs:230 | Every face below x becomes a hidden, ungenerated leaf. x becomes a leaf with its state unchanged. x's parent is not below x. Every other face is unchanged. |
| Planet.CubePlanet.RegenerateFace | Planet/CubePlanet.cs:230-232 | x becomes a leaf whose state is `Rebuild` of its old one. Every face below x becomes a hidden, ungenerated leaf. x's parent keeps its children and is disposed, or only loses its collider when x was generated. Every other face is unchanged. It succeeds when x's raycast hits publish whole grids. |
| Planet.CubePlanet.GenerateAndFinalize | Planet/CubePlanet.cs:231-232 | x's state becomes `Rebuild` of its old one and its parent's `ParentAfterGenerate`. Every other face is unchanged. It succeeds when x's raycast hits publish whole grids. |
| Planet.CubePlanet.EscalateFace | Planet/CubePlanet.cs:236-239 | x and its parent become leaves; the parent's state is `Rebuild` of its old one. The grandparent keeps its children and is disposed, or loses its collider. Every other face below x or the parent becomes a hidden, ungenerated leaf, x too when the parent still listed it (otherwise x's state is unchanged). Every other face is unchanged. |
| Planet.CubePlanet.EscalateSets | Planet/CubePlanet.cs:236-237 | After x's merge, its parent's subtree has lost only faces of x's old subtree; x is still below the parent iff the parent lists it; the grandparent lies outside both old subtrees. |
| Planet.CubePlanet.SubdivideFace | Planet/CubePlanet.cs:244 | x gains four fresh distinct children as SubDivide makes them, which are the only new faces. x is hidden and ungenerated with its collider kept; every other face is unchanged; the forest stays valid. |
| Planet.CubePlanet.Adopt | Planet/CubePlanet.cs:244 | The new children join the planet's node set under the next rank bound, keeping `Valid` and `Sized`. |
| Planet.CubePlanet.TagFace | Planet/CubePlanet.cs:246-250 | The face ends tagged "Planet"; an already tagged face is unchanged. |
| Planet.CubePlanet.CoarsenLeaf | Planet/CubePlanet.cs:226-240 | The far branch takes `LodDecision`. Regenerate gives RegenerateFace's effects on x, its parent and the faces below x; Escalate gives EscalateFace's on x, its parent, its grandparent and the faces below them. In either branch every other face keeps its children and state, and no tag changes. It succeeds when the hits from x and its parent publish whole grids. |
| Planet.CubePlanet.RefineLeaf | Planet/CubePlanet.cs:242-250 | The near branch takes `LodDecision`. Subdivide gives x four fresh children, as the only new faces, and hides x with its collider and tag kept. Tag changes only x's tag, to "Planet", keeping its children and the rest of its state, and changes nothing when it already was. |
| Planet.CubePlanet.UpdateLeaf | Planet/CubePlanet.cs:224-250 | The branch taken is `LodDecision` for the face. Only faces of a set closed under parents and children change, and the new faces keep it closed. The round succeeds when the hits from x and its parent publish whole grids. A tagged face stays tagged, and Tag tags x. Subdivide and Tag always succeed. |
| Planet.CubePlanet.UpdateNext | Planet/CubePlanet.cs:222-251 | One round of the loop appends the next leaf's `LodDecision`, keeps `Valid`, `Sized`, the closed zone and the tags, and succeeds when the zone's hits publish whole grids. A failed round is a Regenerate or an Escalate. |
| Planet.CubePlanet.UpdateLeaves | Planet/CubePlanet.cs:222-251 | The loop visits the leaves in order and records each leaf's `LodDecision`. It changes no face outside the zone, keeps `Valid` and `Sized`, and succeeds when the zone's hits publish whole grids. All leaves get an action when it succeeds. When it fails, the last action recorded is a Regenerate or an Escalate, so the loop stopped right after that leaf's finalisation failed. |
| Planet.CubePlanet.Update | Planet/CubePlanet.cs:213-252 | Without a player nothing changes. An index outside 0..5 fails with nothing changed. Otherwise the leaves are `Leaves` of root f before the pass, and no face outside root f's tree changes. Each leaf visited gets its `LodDecision`, and each tagged leaf ends tagged "Planet". When the pass succeeds, every leaf gets an action, and it succeeds when every planet hit publishes a whole grid. When a found player's pass over a valid root fails, the last action recorded is a Regenerate or an Escalate: the pass stopped right after that leaf's finalisation failed. |
| Planet.CubePlanet.UpdateTree | Planet/CubePlanet.cs:219-251 | For a valid root f, the leaves are `Leaves` of root f before the pass, each is a leaf of the old tree, and no face outside root f's tree changes. The actions are the leaves' `LodDecision`s in order, and tagged leaves end tagged "Planet". The pass visits every leaf when it succeeds, succeeds when every planet hit publishes a whole grid, and when it fails the last action is a Regenerate or an Escalate. |

## Left out

- Terrain: the noise function and the height displacement in FinalizeFace (CubePlanet.cs 22-40, 174-177) are not modelled. The face's vertices go to the neighbour walk as they are.
- Normals: the normal buffers, `RecalculateNormals`/`RecalculateBounds` and the debug asserts in WeldMeshes are not modelled. So a weld fails only when a vertex read runs past a buffer.
- Texturize: only the `textured` one-shot flag is modelled, not the textures and material it builds from the normals.
- Engine objects: GameObject and component creation, mesh naming, layers, and parenting under the planet object are not modelled. The published mesh is a field of the face (`sharedMesh`).
- Engine queries: `GameObject.Find`, `Physics.Raycast` and the closest-point distance are inputs, fixed for one call of the pass. The raycast returns a snapshot of the hit object's tag and shared mesh, not a live reference.
- Planet.CubePlanet.Update: the player's distance is a function of the face, fixed for the whole pass. The source measures it from the face's mesh bounds at each iteration, so a bounds change during the pass is not captured.
- Planet.CubePlanet.UpdateLeaf: its contract states the branch, the frame, success and tags. The effects of each branch on the faces are stated on CoarsenLeaf and RefineLeaf, which it calls on the source's `dist > scale` test.
- Exceptions: an index past a buffer, a neighbour cache shorter than four entries, or a root index outside 0..5 throws in the source. That ends the coroutine. Here it is `ok == false`, and the pass stops at that point.
- Arithmetic: `float` is exact `real` and `int` is unbounded, so rounding and 32-bit overflow are not captured.
- Planet.CubePlanet.constructor: requires size > 0, as does the face constructor. At size 0 the source divides by zero in `uvFactor` and the grid fractions (NaN in floats). A negative size runs without an exception in the source: none of Generate's loops run, so it allocates (size+1)^2 default vertices and size^2*6 zero triangle indices (size -1 gives none and six). Neither case is modelled.
- Layout.RootAxes: orthogonality of the axes is stated as "along different world axes", not as a zero dot product.
- Planet.CubePlanet.RegenerateFace: when the leaf was disposed before (not generated), the rebuild branch of Generate does not switch its renderer back on. The contract states exactly this. The face stays invisible until a later pass regenerates it again.
- Stale faces: a face merged away stays in the ghost node set as a disposed leaf without a place under any root. The source drops its reference but never destroys its game object.
- Directions: the direction vectors are kept by index (0 left, 1 forward, 2 right, 3 back). They only select the raycast, which is an input.
- Coroutine: `Update` has no `yield` inside its loop, so it is modelled as one call.
