/**
 Positions and window extents, and the bounds test every entity uses to
 decide whether it is still on screen. Floating point coordinates are
 modelled as reals; the window size is a pair of unsigned integers.
 */
module Geometry {

  datatype Vec2 = Vec2(x: real, y: real)

  function Add(a: Vec2, b: Vec2): (c: Vec2) {
    Vec2(a.x + b.x, a.y + b.y)
  }

  datatype WindowSize = WindowSize(width: nat, height: nat)

  /** A circle lies within the window when it crosses none of the four edges; touching an edge counts as inside. */
  function ShapeWithinBounds(pos: Vec2, radius: real, wdw: WindowSize): (inside: bool)
    ensures inside <==>
      && radius <= pos.x <= wdw.width as real - radius
      && radius <= pos.y <= wdw.height as real - radius
  {
    !((pos.x - radius) < 0.0 || (pos.y - radius) < 0.0
      || (pos.x + radius) > wdw.width as real || (pos.y + radius > wdw.height as real))
  }

  /** A circle of that radius fits somewhere in the window exactly when its diameter fits both extents. */
  lemma FitsSomewhere(radius: real, wdw: WindowSize)
    ensures (exists p :: ShapeWithinBounds(p, radius, wdw))
        <==> 2.0 * radius <= wdw.width as real && 2.0 * radius <= wdw.height as real
  {
    if 2.0 * radius <= wdw.width as real && 2.0 * radius <= wdw.height as real {
      var centre := Vec2(wdw.width as real / 2.0, wdw.height as real / 2.0);
      assert ShapeWithinBounds(centre, radius, wdw);
    }
  }

  /** A circle inside the window has its centre inside the closed window rectangle. */
  lemma CentreWithinWindow(pos: Vec2, radius: real, wdw: WindowSize)
    requires radius >= 0.0 && ShapeWithinBounds(pos, radius, wdw)
    ensures 0.0 <= pos.x <= wdw.width as real && 0.0 <= pos.y <= wdw.height as real
  {
  }
}
