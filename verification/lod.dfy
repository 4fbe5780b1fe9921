/**
 * The level-of-detail rule the planet's update pass applies to each leaf of
 * one root: merge back and regenerate when the player is far, escalate the
 * merge to the parent when very far, subdivide when near and the face is
 * still coarse, and otherwise tag the face as highest detail.
 */
module Lod {
  /** The four branches of the update pass. */
  datatype LodAction = Regenerate | Escalate | Subdivide | Tag

  /**
   * The branch taken for a leaf at distance `dist` from the player, whose world
   * scale is `faceScale`, on a planet of scale `planetScale` and grid size
   * `size`. The subdivision test compares the face's world scale with the
   * integer grid size.
   */
  function LodDecision(dist: real, faceScale: real, planetScale: real, size: int, hasParent: bool): (r: LodAction)
    ensures r == Regenerate || r == Escalate <==> dist > faceScale
    ensures r == Regenerate <==> dist > faceScale && (dist <= planetScale * 3.0 || !hasParent)
    ensures r == Escalate ==> hasParent && dist > planetScale * 3.0
    ensures r == Subdivide <==> dist <= faceScale && faceScale > size as real
    ensures r == Tag <==> dist <= faceScale && faceScale <= size as real
  {
    if dist > faceScale then
      if dist <= planetScale * 3.0 || !hasParent then Regenerate else Escalate
    else if faceScale > size as real then Subdivide
    else Tag
  }

  /** 2^k. */
  function Pow2(k: nat): (r: nat)
    ensures r >= 1
  {
    if k == 0 then 1 else 2 * Pow2(k - 1)
  }
}
