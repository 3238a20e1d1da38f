/** Axis-aligned bounding boxes and the game's collision test. */
module Geometry {

  /** A value that may be missing, as an undefined argument may be. */
  datatype Option<T> = None | Some(value: T)

  /** A rectangle with top-left corner (x, y); y grows downwards. */
  datatype Box = Box(x: real, y: real, width: real, height: real)

  /** The point (px, py) lies strictly inside the rectangle b. */
  predicate Inside(px: real, py: real, b: Box) {
    b.x < px < b.x + b.width && b.y < py < b.y + b.height
  }

  /** The collision test: false when either box is missing, otherwise strict
      overlap of the two boxes on both axes. */
  function CheckCollision(a: Option<Box>, b: Option<Box>): (r: bool)
    ensures r ==> a.Some? && b.Some?
  {
    if a.None? || b.None? then false
    else
      var p, q := a.value, b.value;
      p.x < q.x + q.width &&
      p.x + p.width > q.x &&
      p.y < q.y + q.height &&
      p.height + p.y > q.y
  }

  /** Swapping the arguments does not change the verdict. */
  lemma CollisionSymmetric(a: Option<Box>, b: Option<Box>)
    ensures CheckCollision(a, b) == CheckCollision(b, a)
  {
  }

  /** For boxes of positive size the test holds exactly when some point lies
      strictly inside both boxes. */
  lemma CollisionIffCommonPoint(a: Box, b: Box)
    requires a.width > 0.0 && a.height > 0.0 && b.width > 0.0 && b.height > 0.0
    ensures CheckCollision(Some(a), Some(b)) <==>
            exists px, py :: Inside(px, py, a) && Inside(px, py, b)
  {
    if CheckCollision(Some(a), Some(b)) {
      var lox := if a.x < b.x then b.x else a.x;
      var hix := if a.x + a.width < b.x + b.width then a.x + a.width else b.x + b.width;
      var loy := if a.y < b.y then b.y else a.y;
      var hiy := if a.y + a.height < b.y + b.height then a.y + a.height else b.y + b.height;
      var px, py := (lox + hix) / 2.0, (loy + hiy) / 2.0;
      assert Inside(px, py, a) && Inside(px, py, b);
    }
  }
}
