/**
 * The six root faces of the cube planet: for each side of the cube, the
 * world point its plane is centred on and the plane's two axes.
 */
module Layout {
  import opened Geometry

  /** Where a root face sits: the world point of its local (0, 0), and its axes. */
  datatype Placement = Placement(origin: Vec3, left: Vec3, forward: Vec3)

  /** Root i in the constructor's order: front, back, left, right, top, bottom. */
  function RootLayout(scale: real, i: int): Placement
    requires 0 <= i < 6
  {
    var hs := scale / 2.0;
    if i == 0 then Placement(Vec3(0.0, 0.0, -hs), Vec3(-1.0, 0.0, 0.0), Vec3(0.0, -1.0, 0.0))
    else if i == 1 then Placement(Vec3(0.0, 0.0, hs), Vec3(1.0, 0.0, 0.0), Vec3(0.0, -1.0, 0.0))
    else if i == 2 then Placement(Vec3(-hs, 0.0, 0.0), Vec3(0.0, 0.0, 1.0), Vec3(0.0, -1.0, 0.0))
    else if i == 3 then Placement(Vec3(hs, 0.0, 0.0), Vec3(0.0, 0.0, -1.0), Vec3(0.0, -1.0, 0.0))
    else if i == 4 then Placement(Vec3(0.0, hs, 0.0), Vec3(0.0, 0.0, 1.0), Vec3(-1.0, 0.0, 0.0))
    else Placement(Vec3(0.0, -hs, 0.0), Vec3(0.0, 0.0, -1.0), Vec3(-1.0, 0.0, 0.0))
  }

  /**
   * Each root's `left` and `forward` are unit vectors along two different world
   * axes (so they are orthogonal), and its origin lies on the remaining axis,
   * at distance scale/2 from the centre (so it is orthogonal to both).
   */
  lemma RootAxes(scale: real, i: int)
    requires 0 <= i < 6
    ensures var p := RootLayout(scale, i);
      && IsUnitAxis(p.left) && IsUnitAxis(p.forward) && AxisOf(p.left) != AxisOf(p.forward)
      && OnAxisAt(p.origin, 3 - AxisOf(p.left) - AxisOf(p.forward), scale / 2.0)
  {
  }

  /** No two roots share both axes, whatever the scale. */
  lemma RootFramesDistinct(scale: real)
    ensures forall i, j :: 0 <= i < j < 6 ==>
      RootLayout(scale, i).left != RootLayout(scale, j).left || RootLayout(scale, i).forward != RootLayout(scale, j).forward
  {
  }

  /** For a nonzero scale the six roots sit at six different points. */
  lemma RootOriginsDistinct(scale: real)
    requires scale != 0.0
    ensures forall i, j :: 0 <= i < j < 6 ==> RootLayout(scale, i).origin != RootLayout(scale, j).origin
  {
  }
}
