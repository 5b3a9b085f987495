/** The small part of pygame.Rect that the game relies on: integer rectangles
    and the colliderect overlap test. */
module Geometry {

  /** A pygame.Rect: integer top-left corner and integer size. */
  datatype Rect = Rect(left: int, top: int, width: int, height: int) {
    function Right(): int { left + width }
    function Bottom(): int { top + height }

    /** The unit cell (pixel) whose top-left corner is (px, py) lies inside the rectangle. */
    predicate Contains(px: int, py: int) {
      left <= px < Right() && top <= py < Bottom()
    }
  }

  /** pygame.Rect stores integer coordinates, so a float handed to it is converted.
      Assumption of this model: the conversion truncates toward zero, like C's (int) cast. */
  function RectCoord(v: real): (n: int)
    ensures 0.0 <= v ==> 0 <= n && n as real <= v < n as real + 1.0
    ensures v < 0.0 ==> n <= 0 && n as real - 1.0 < v <= n as real
  {
    if v >= 0.0 then v.Floor else -((-v).Floor)
  }

  /** Rect.colliderect: strict overlap on both axes, so rectangles that only share
      an edge do not collide. */
  predicate CollideRect(a: Rect, b: Rect) {
    a.left < b.Right() && b.left < a.Right() && a.top < b.Bottom() && b.top < a.Bottom()
  }

  /** For rectangles of positive size, colliderect holds exactly when the two
      rectangles have a pixel in common. */
  lemma OverlapIsSharedPixel(a: Rect, b: Rect)
    requires a.width > 0 && a.height > 0 && b.width > 0 && b.height > 0
    ensures CollideRect(a, b) <==> exists px, py :: a.Contains(px, py) && b.Contains(px, py)
  {
    if CollideRect(a, b) {
      var px := if a.left < b.left then b.left else a.left;
      var py := if a.top < b.top then b.top else a.top;
      assert a.Contains(px, py) && b.Contains(px, py);
    }
  }
}
